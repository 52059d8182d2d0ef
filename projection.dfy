/**
 * Property resolution and row projection, the step every handler performs
 * between parsing a resource and emitting it.
 */
module Projection {
  import opened Text

  /** `p.lower().strip()`: a property name as the handlers compare it. */
  function NormalizeName(p: string): (r: string)
    ensures NoEdgeSpace(r) && NoUpper(r)
  {
    LowerKeepsShape(p);
    StripNoUpper(Lower(p));
    Strip(Lower(p))
  }

  /** A name without capitals or surrounding whitespace is already normalised. */
  lemma CleanNameFixed(p: string)
    requires NoEdgeSpace(p) && NoUpper(p)
    ensures NormalizeName(p) == p
  {
    LowerKeepsShape(p);
    StripKeepsClean(p);
  }

  /** A normalised name is left as it is by normalising it again. */
  lemma NormalizeNameIdempotent(p: string)
    ensures NormalizeName(NormalizeName(p)) == NormalizeName(p)
  {
    var r := NormalizeName(p);
    LowerKeepsShape(r);
    StripKeepsClean(r);
  }

  function NormalizeNames(names: seq<string>): (r: seq<string>)
    ensures |r| == |names|
  {
    seq(|names|, i requires 0 <= i < |names| => NormalizeName(names[i]))
  }

  predicate IsWildcard(ps: seq<string>) {
    |ps| == 1 && ps[0] == "*"
  }

  /**
   * `properties = [p.lower().strip() for p in names]`, then the handler's
   * declared field order if that list is exactly `['*']`.
   */
  function ResolveProperties(names: seq<string>, declared: seq<string>): (r: seq<string>)
    ensures r == declared || (|r| == |names| && forall j :: 0 <= j < |names| ==> r[j] == NormalizeName(names[j]))
  {
    var ps := NormalizeNames(names);
    if IsWildcard(ps) then declared else ps
  }

  /**
   * A lone wildcard (in any case, with any surrounding whitespace) gives the
   * declared order; any other list keeps its length and order, each name
   * normalised, so a `*` next to other names stays a literal name.
   */
  lemma ResolvePropertiesSpec(names: seq<string>, declared: seq<string>)
    ensures |names| == 1 && NormalizeName(names[0]) == "*" ==>
      ResolveProperties(names, declared) == declared
    ensures !(|names| == 1 && NormalizeName(names[0]) == "*") ==>
      |ResolveProperties(names, declared)| == |names|
      && forall i :: 0 <= i < |names| ==> ResolveProperties(names, declared)[i] == NormalizeName(names[i])
  {
  }

  predicate AllNormalized(ps: seq<string>) {
    forall i :: 0 <= i < |ps| ==> NormalizeName(ps[i]) == ps[i]
  }

  /**
   * Resolution is idempotent when the declared names are themselves
   * normalised and are not the lone wildcard: resolving an already resolved
   * list changes nothing.
   */
  lemma ResolveIdempotent(names: seq<string>, declared: seq<string>)
    requires AllNormalized(declared) && !IsWildcard(declared)
    ensures ResolveProperties(ResolveProperties(names, declared), declared) == ResolveProperties(names, declared)
  {
    var ps := NormalizeNames(names);
    if IsWildcard(ps) {
      assert NormalizeNames(declared) == declared;
    } else {
      forall i | 0 <= i < |ps| ensures NormalizeNames(ps)[i] == ps[i] {
        NormalizeNameIdempotent(names[i]);
      }
      assert NormalizeNames(ps) == ps;
    }
  }

  /** `[record.get(p, default) for p in props]`. */
  function Project<V>(record: map<string, V>, props: seq<string>, default: V): (row: seq<V>)
    ensures |row| == |props|
  {
    seq(|props|, j requires 0 <= j < |props| => if props[j] in record then record[props[j]] else default)
  }
}
