/**
 * The boundary every handler shares: the positional JSON input array,
 * `to_list` (the coercion of a string-or-list argument), `validator_list`
 * (its shape check) and `dict(zip(params.keys(), input))`.
 */
module Params {
  import opened Outcomes
  import opened Text
  import opened Aggregate

  /** A JSON value of the input array, as far as coercion looks at it. */
  datatype Value = Str(s: string) | List(items: seq<Value>) | Num(n: int) | Bool(b: bool) | Null

  /** The one-character strings of `s`, in order. */
  function Chars(s: string): seq<Value> {
    seq(|s|, i requires 0 <= i < |s| => Str([s[i]]))
  }

  /** `list(iter(v))`: a string yields its characters, a list its items; anything else is not iterable. */
  function Elements(v: Value): Option<seq<Value>> {
    match v
    case Str(s) => Some(Chars(s))
    case List(items) => Some(items)
    case _ => None
  }

  /** `list(itertools.chain.from_iterable(vs))`: raises TypeError at an element that is not iterable. */
  function Chain(vs: seq<Value>): Result<seq<Value>> {
    if vs == [] then Ok([])
    else
      match Elements(vs[0])
      case None => Err(TypeError)
      case Some(xs) =>
        match Chain(vs[1..])
        case Err(e) => Err(e)
        case Ok(rest) => Ok(xs + rest)
  }

  function StrValues(ps: seq<string>): seq<Value> {
    seq(|ps|, i requires 0 <= i < |ps| => Str(ps[i]))
  }

  predicate AllStr(vs: seq<Value>) {
    forall i :: 0 <= i < |vs| ==> vs[i].Str?
  }

  function Texts(vs: seq<Value>): seq<string>
    requires AllStr(vs)
  {
    seq(|vs|, i requires 0 <= i < |vs| => vs[i].s)
  }

  /**
   * `to_list(value)`: a string is split on commas, a list is chained one
   * level, and any other value gives Python's None (JSON null).
   */
  function ToList(v: Value): (r: Result<Value>)
    ensures v.Str? ==> r.Ok? && r.value.List? && AllStr(r.value.items)
    ensures !v.Str? && !v.List? <==> r == Ok(Null)
  {
    match v
    case Str(s) => Ok(List(StrValues(Split(s, ','))))
    case List(items) =>
      (match Chain(items)
       case Ok(xs) => Ok(List(xs))
       case Err(e) => Err(e))
    case _ => Ok(Null)
  }

  /**
   * On a string, `to_list` gives the comma-separated pieces: one more than
   * there are commas, none holding a comma, and rejoined with commas they
   * are the input (nothing is trimmed).
   */
  lemma ToListOfString(s: string)
    ensures ToList(Str(s)).Ok?
    ensures var ps := ToList(Str(s)).value.items;
      && |ps| == Count(s, ',') + 1
      && (forall i :: 0 <= i < |ps| ==> ',' !in ps[i].s)
      && Join(Texts(ps), ",") == s
  {
    var pieces := Split(s, ',');
    SplitJoin(s, ',');
    SplitShape(s, ',');
    assert Texts(StrValues(pieces)) == pieces;
  }

  /** Chaining is the flattening of the iterated elements, when every element is iterable. */
  lemma {:induction false} ChainIsFlatten(vs: seq<Value>)
    ensures Chain(vs).Ok? <==> forall i :: 0 <= i < |vs| ==> Elements(vs[i]).Some?
    ensures Chain(vs).Ok? ==>
      Chain(vs).value == Flatten(seq(|vs|, i requires 0 <= i < |vs| && Elements(vs[i]).Some? => Elements(vs[i]).value))
  {
    if vs != [] {
      ChainIsFlatten(vs[1..]);
      if Chain(vs).Ok? {
        var parts := seq(|vs|, i requires 0 <= i < |vs| && Elements(vs[i]).Some? => Elements(vs[i]).value);
        var tail := seq(|vs| - 1, i requires 0 <= i < |vs| - 1 && Elements(vs[1..][i]).Some? => Elements(vs[1..][i]).value);
        assert parts == [parts[0]] + tail;
        FlattenAppend([parts[0]], tail);
        var one := [parts[0]];
        assert Flatten(one) == parts[0] by { assert one[..0] == []; }
      } else if Elements(vs[0]).Some? {
        assert !Chain(vs[1..]).Ok?;
        var i :| 0 <= i < |vs| - 1 && Elements(vs[1..][i]).None?;
        assert Elements(vs[i + 1]).None?;
      }
    }
  }

  function Concat(ss: seq<string>): string {
    if ss == [] then "" else ss[0] + Concat(ss[1..])
  }

  /**
   * On a list of strings, `to_list` does not keep the strings: each one
   * contributes its characters, in order.
   */
  lemma {:induction false} ToListOfStrings(vs: seq<Value>)
    requires AllStr(vs)
    ensures ToList(List(vs)) == Ok(List(Chars(Concat(Texts(vs)))))
  {
    if vs == [] {
      assert Chain(vs) == Ok([]);
      assert ToList(List(vs)) == Ok(List([]));
      assert Texts(vs) == [];
      assert Concat(Texts(vs)) == "";
      assert Chars("") == [];
    } else {
      ToListOfStrings(vs[1..]);
      assert Elements(vs[0]) == Some(Chars(vs[0].s));
      assert Chain(vs[1..]) == Ok(Chars(Concat(Texts(vs[1..]))));
      assert Texts(vs) == [vs[0].s] + Texts(vs[1..]);
      assert Texts(vs)[1..] == Texts(vs[1..]);
      assert Chars(vs[0].s + Concat(Texts(vs[1..]))) == Chars(vs[0].s) + Chars(Concat(Texts(vs[1..])));
    }
  }

  /** On a list, `to_list` fails exactly when some item is a number, a boolean or null. */
  lemma ToListOfList(vs: seq<Value>)
    ensures ToList(List(vs)).Err? <==> exists i :: 0 <= i < |vs| && !vs[i].Str? && !vs[i].List?
  {
    ChainIsFlatten(vs);
    if !Chain(vs).Ok? {
      var i :| 0 <= i < |vs| && Elements(vs[i]).None?;
      assert !vs[i].Str? && !vs[i].List?;
    }
  }

  // ---------------------------------------------------------------- validator_list

  datatype FieldError = FieldError(field: string, message: string)

  const NotOnlyStrings := "Must be a list with only string values"
  const NotStringOrList := "Must be a string or a list of strings"

  /** One error per item that is not a string, in item order. */
  function ItemErrors(field: string, items: seq<Value>): seq<FieldError> {
    if items == [] then []
    else
      ItemErrors(field, items[..|items| - 1])
      + (if items[|items| - 1].Str? then [] else [FieldError(field, NotOnlyStrings)])
  }

  /**
   * `validator_list(field, value, error)`: the errors it reports, in order,
   * all about `field`; none exactly for a string or a list of strings.
   */
  function ValidatorList(field: string, v: Value): (errs: seq<FieldError>)
    ensures errs == [] <==> v.Str? || (v.List? && AllStr(v.items))
    ensures forall k :: 0 <= k < |errs| ==> errs[k].field == field
  {
    match v
    case Str(_) => []
    case List(items) =>
      ItemErrorsShape(field, items);
      ItemErrors(field, items)
    case _ => [FieldError(field, NotStringOrList)]
  }

  function CountNonStr(items: seq<Value>): nat {
    if items == [] then 0
    else CountNonStr(items[..|items| - 1]) + (if items[|items| - 1].Str? then 0 else 1)
  }

  lemma {:induction false} ItemErrorsShape(field: string, items: seq<Value>)
    ensures |ItemErrors(field, items)| == CountNonStr(items)
    ensures forall k :: 0 <= k < |ItemErrors(field, items)| ==>
      ItemErrors(field, items)[k] == FieldError(field, NotOnlyStrings)
    ensures CountNonStr(items) == 0 <==> AllStr(items)
  {
    if items != [] {
      var init := items[..|items| - 1];
      ItemErrorsShape(field, init);
      if !AllStr(init) {
        var i :| 0 <= i < |init| && !init[i].Str?;
        assert !items[i].Str?;
      }
    }
  }

  /**
   * `validator_list` accepts every string and every list of strings only;
   * a list gets one "only string values" error per non-string item, and any
   * other value exactly one "string or a list of strings" error.
   */
  lemma ValidatorListSpec(field: string, v: Value)
    ensures v.Str? ==> ValidatorList(field, v) == []
    ensures v.List? ==> (
      && |ValidatorList(field, v)| == CountNonStr(v.items)
      && (forall k :: 0 <= k < |ValidatorList(field, v)| ==> ValidatorList(field, v)[k].message == NotOnlyStrings)
      && (ValidatorList(field, v) == [] <==> AllStr(v.items)))
    ensures !v.Str? && !v.List? ==> ValidatorList(field, v) == [FieldError(field, NotStringOrList)]
  {
    if v.List? {
      ItemErrorsShape(field, v.items);
    }
  }

  /** Whatever `to_list` coerces successfully from a string passes `validator_list`. */
  lemma CoercedStringValidates(field: string, s: string)
    ensures ValidatorList(field, ToList(Str(s)).value) == []
  {
    var r := ToList(Str(s)).value;
    ItemErrorsShape(field, r.items);
  }

  /**
   * The value a list parameter holds after Cerberus has coerced it and run
   * `validator_list` on the coerced value: a list of strings, or a
   * validation failure, which the handler raises as ValueError. A coercion
   * that raises is recorded by Cerberus as a validation error as well.
   */
  function ListParam(coerced: Result<Value>): (r: Result<seq<string>>)
    ensures r.Ok? <==> coerced.Ok? && coerced.value.List? && AllStr(coerced.value.items)
    ensures r.Err? ==> r.error == ValueError
  {
    match coerced
    case Ok(List(items)) => if AllStr(items) then Ok(Texts(items)) else Err(ValueError)
    case _ => Err(ValueError)
  }

  /**
   * A comma-delimited string parameter is accepted as its pieces; a
   * coerced list is accepted exactly when `validator_list` reports nothing
   * for it.
   */
  lemma ListParamSpec(field: string, v: Value)
    ensures v.Str? ==> ListParam(ToList(v)) == Ok(Split(v.s, ','))
    ensures ToList(v).Ok? && ToList(v).value.List? ==>
      (ListParam(ToList(v)).Ok? <==> ValidatorList(field, ToList(v).value) == [])
  {
    if v.Str? {
      assert Texts(StrValues(Split(v.s, ','))) == Split(v.s, ',');
    }
    if ToList(v).Ok? && ToList(v).value.List? {
      ItemErrorsShape(field, ToList(v).value.items);
    }
  }

  // ---------------------------------------------------------------- positional mapping

  function Min(a: nat, b: nat): nat {
    if a <= b then a else b
  }

  /** `dict(zip(keys, vals))`: pairs up to the shorter list; a repeated key keeps its last value. */
  function Zip<V>(keys: seq<string>, vals: seq<V>): (m: map<string, V>)
    ensures m.Keys == set i | 0 <= i < Min(|keys|, |vals|) :: keys[i]
    decreases |keys|
  {
    var n := Min(|keys|, |vals|);
    if n == 0 then map[]
    else
      var m := Zip(keys[..n - 1], vals[..n - 1]);
      assert Min(n - 1, n - 1) == n - 1;
      assert forall i :: 0 <= i < n - 1 ==> keys[..n - 1][i] == keys[i];
      m[keys[n - 1] := vals[n - 1]]
  }

  predicate Distinct(keys: seq<string>) {
    forall i, j :: 0 <= i < j < |keys| ==> keys[i] != keys[j]
  }

  /**
   * Parameter i receives input i for every i below both lengths; parameters
   * past the end of the input are absent (trailing input beyond the
   * parameter list is simply dropped, as the key set shows).
   */
  lemma {:induction false} ZipAt<V>(keys: seq<string>, vals: seq<V>)
    requires Distinct(keys)
    ensures forall i :: 0 <= i < Min(|keys|, |vals|) ==> Zip(keys, vals)[keys[i]] == vals[i]
    ensures forall i :: |vals| <= i < |keys| ==> keys[i] !in Zip(keys, vals)
    decreases |keys|
  {
    var n := Min(|keys|, |vals|);
    var z := Zip(keys, vals);
    if n > 0 {
      var ks, vs := keys[..n - 1], vals[..n - 1];
      assert Min(|ks|, |vs|) == n - 1;
      ZipAt(ks, vs);
      var m := Zip(ks, vs);
      assert z == m[keys[n - 1] := vals[n - 1]];
      forall i | 0 <= i < n - 1 ensures z[keys[i]] == vals[i] {
        assert ks[i] == keys[i] && vs[i] == vals[i];
        assert keys[i] != keys[n - 1];
      }
    }
    forall i | |vals| <= i < |keys| ensures keys[i] !in z {
      assert forall j :: 0 <= j < n ==> keys[j] != keys[i];
    }
  }

  /**
   * Cerberus `default`: a parameter absent from the mapped input, or given
   * as None on a field that is not `nullable` (none of the handlers' fields
   * is), takes its default value.
   */
  function WithDefault(m: map<string, Value>, key: string, default: Value): (r: map<string, Value>)
    ensures r.Keys == m.Keys + {key}
    ensures r[key] == (if key in m && m[key] != Null then m[key] else default)
    ensures forall k :: k in m && k != key ==> r[k] == m[k]
  {
    if key in m && m[key] != Null then m else m[key := default]
  }
}
