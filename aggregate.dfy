/**
 * The fan-in shared by the multi-URL handlers: the per-URL result lists,
 * gathered in input order, chained into one list.
 */
module Aggregate {

  /** `list(itertools.chain.from_iterable(xss))`. */
  function Flatten<T>(xss: seq<seq<T>>): seq<T> {
    if xss == [] then [] else Flatten(xss[..|xss| - 1]) + xss[|xss| - 1]
  }

  function SumLengths<T>(xss: seq<seq<T>>): nat {
    if xss == [] then 0 else SumLengths(xss[..|xss| - 1]) + |xss[|xss| - 1]|
  }

  /** The chained list is as long as all the per-URL lists together. */
  lemma {:induction false} FlattenLength<T>(xss: seq<seq<T>>)
    ensures |Flatten(xss)| == SumLengths(xss)
  {
    if xss != [] {
      FlattenLength(xss[..|xss| - 1]);
    }
  }

  /** Chaining distributes over the concatenation of the outer list. */
  lemma {:induction false} FlattenAppend<T>(a: seq<seq<T>>, b: seq<seq<T>>)
    ensures Flatten(a + b) == Flatten(a) + Flatten(b)
    decreases |b|
  {
    if b == [] {
      assert a + b == a;
    } else {
      var b', last := b[..|b| - 1], b[|b| - 1];
      assert (a + b)[..|a + b| - 1] == a + b' && (a + b)[|a + b| - 1] == last;
      FlattenAppend(a, b');
      assert Flatten(a + b) == (Flatten(a) + Flatten(b')) + last;
      assert Flatten(b) == Flatten(b') + last;
    }
  }

  lemma {:induction false} SumLengthsAppend<T>(a: seq<seq<T>>, b: seq<seq<T>>)
    ensures SumLengths(a + b) == SumLengths(a) + SumLengths(b)
    decreases |b|
  {
    if b == [] {
      assert a + b == a;
    } else {
      var b' := b[..|b| - 1];
      assert (a + b)[..|a + b| - 1] == a + b';
      SumLengthsAppend(a, b');
    }
  }

  /**
   * Order: element k of list i sits in the chained list right after
   * everything contributed by the lists before i.
   */
  lemma {:induction false} FlattenAt<T>(xss: seq<seq<T>>, i: nat, k: nat)
    requires i < |xss| && k < |xss[i]|
    ensures SumLengths(xss[..i]) + k < |Flatten(xss)|
    ensures Flatten(xss)[SumLengths(xss[..i]) + k] == xss[i][k]
  {
    assert xss == xss[..i] + [xss[i]] + xss[i + 1..];
    FlattenAppend(xss[..i] + [xss[i]], xss[i + 1..]);
    FlattenAppend(xss[..i], [xss[i]]);
    assert Flatten([xss[i]]) == xss[i] by {
      assert [xss[i]][..0] == [];
    }
    FlattenLength(xss[..i]);
  }

  /** The lists before list i, and list i itself, fit within the chained list. */
  lemma SumLengthsPrefix<T>(xss: seq<seq<T>>, i: nat)
    requires i < |xss|
    ensures SumLengths(xss[..i]) + |xss[i]| <= SumLengths(xss)
  {
    assert xss == xss[..i] + [xss[i]] + xss[i + 1..];
    SumLengthsAppend(xss[..i] + [xss[i]], xss[i + 1..]);
    SumLengthsAppend(xss[..i], [xss[i]]);
    assert SumLengths([xss[i]]) == |xss[i]| by {
      assert [xss[i]][..0] == [];
    }
  }

  /** An empty contribution (a URL that failed under the tolerant policy) changes nothing. */
  lemma FlattenSkipsEmpty<T>(a: seq<seq<T>>, b: seq<seq<T>>)
    ensures Flatten(a + [[]] + b) == Flatten(a + b)
  {
    FlattenAppend(a + [[]], b);
    FlattenAppend(a, [[]]);
    var none: seq<seq<T>> := [[]];
    assert Flatten(none) == [] by {
      assert none[..0] == [];
    }
    FlattenAppend(a, b);
  }

  /** `[x for x in xs if keep(x)]`: the kept elements, in their original order. */
  function Filter<T>(xs: seq<T>, keep: T -> bool): seq<T> {
    if xs == [] then []
    else
      var n := |xs| - 1;
      Filter(xs[..n], keep) + (if keep(xs[n]) then [xs[n]] else [])
  }

  /** The positions of the kept elements. */
  function FilterIndices<T>(xs: seq<T>, keep: T -> bool): seq<nat> {
    if xs == [] then []
    else
      var n := |xs| - 1;
      FilterIndices(xs[..n], keep) + (if keep(xs[n]) then [n] else [])
  }

  /** The kept positions are in range, increasing, and exactly those whose element is kept. */
  lemma {:induction false} FilterIndicesSpec<T>(xs: seq<T>, keep: T -> bool)
    ensures var idx := FilterIndices(xs, keep);
      && (forall k :: 0 <= k < |idx| ==> idx[k] < |xs|)
      && (forall k, l :: 0 <= k < l < |idx| ==> idx[k] < idx[l])
      && (forall i :: 0 <= i < |xs| ==> (i in idx <==> keep(xs[i])))
  {
    if xs != [] {
      var n := |xs| - 1;
      var init := xs[..n];
      FilterIndicesSpec(init, keep);
      var idx0 := FilterIndices(init, keep);
      assert FilterIndices(xs, keep) == idx0 + (if keep(xs[n]) then [n] else []);
      assert forall i :: 0 <= i < n ==> init[i] == xs[i];
    }
  }

  /** The k-th kept element is the element at the k-th kept position. */
  lemma {:induction false} FilterPicks<T>(xs: seq<T>, keep: T -> bool)
    ensures var m, idx := Filter(xs, keep), FilterIndices(xs, keep);
      && |m| == |idx|
      && forall k :: 0 <= k < |idx| ==> idx[k] < |xs| && m[k] == xs[idx[k]]
  {
    if xs != [] {
      var n := |xs| - 1;
      var init := xs[..n];
      FilterPicks(init, keep);
      var m0, idx0 := Filter(init, keep), FilterIndices(init, keep);
      assert Filter(xs, keep) == m0 + (if keep(xs[n]) then [xs[n]] else []);
      assert FilterIndices(xs, keep) == idx0 + (if keep(xs[n]) then [n] else []);
      assert forall k :: 0 <= k < |idx0| ==> init[idx0[k]] == xs[idx0[k]];
    }
  }

  /**
   * The filter's result is exactly the elements at the kept positions;
   * every position whose element is kept is taken, and positions increase,
   * so document order is preserved.
   */
  lemma FilterSpec<T>(xs: seq<T>, keep: T -> bool)
    ensures var m, idx := Filter(xs, keep), FilterIndices(xs, keep);
      && |m| == |idx|
      && (forall k :: 0 <= k < |idx| ==> idx[k] < |xs| && m[k] == xs[idx[k]])
      && (forall k, l :: 0 <= k < l < |idx| ==> idx[k] < idx[l])
      && (forall i :: 0 <= i < |xs| ==> (i in idx <==> keep(xs[i])))
  {
    FilterIndicesSpec(xs, keep);
    FilterPicks(xs, keep);
  }

  /** Extending the input by one element extends the result by that element exactly when it is kept. */
  lemma FilterSnoc<T>(xs: seq<T>, i: nat, keep: T -> bool)
    requires i < |xs|
    ensures Filter(xs[..i + 1], keep) == Filter(xs[..i], keep) + (if keep(xs[i]) then [xs[i]] else [])
  {
    assert xs[..i + 1][..i] == xs[..i];
  }

  /** A filter that keeps every element is the identity. */
  lemma {:induction false} FilterKeepsAll<T>(xs: seq<T>, keep: T -> bool)
    requires forall i :: 0 <= i < |xs| ==> keep(xs[i])
    ensures Filter(xs, keep) == xs
  {
    if xs != [] {
      var n := |xs| - 1;
      FilterKeepsAll(xs[..n], keep);
      assert xs == xs[..n] + [xs[n]];
    }
  }

  /** Chaining one more list appends it. */
  lemma FlattenSnoc<T>(xss: seq<seq<T>>, xs: seq<T>)
    ensures Flatten(xss + [xs]) == Flatten(xss) + xs
  {
    assert (xss + [xs])[..|xss|] == xss;
  }

  /** The first i + 1 elements are the first i and then element i. */
  lemma TakeSnoc<T>(xs: seq<T>, i: nat)
    requires i < |xs|
    ensures xs[..i + 1] == xs[..i] + [xs[i]]
  {
  }

  /** A stream that holds `start` and the chained pieces, then receives one more piece, holds all of them. */
  lemma StreamStep<T>(start: seq<T>, pieces: seq<seq<T>>, piece: seq<T>, before: seq<T>, after: seq<T>)
    requires before == start + Flatten(pieces) && after == before + piece
    ensures after == start + Flatten(pieces + [piece])
  {
    FlattenSnoc(pieces, piece);
    ConcatAssoc(start, Flatten(pieces), piece);
  }

  /**
   * Concatenation regroups. Stated once so that the stream proofs, which
   * append to a growing output, can use it as a single fact.
   */
  lemma ConcatAssoc<T>(a: seq<T>, b: seq<T>, c: seq<T>)
    ensures (a + b) + c == a + (b + c)
  {
  }

  /** `[f(x, y) for x, y in zip(xs, ys)]` on equally long sequences. */
  function ZipWith<A, B, C>(xs: seq<A>, ys: seq<B>, f: (A, B) -> C): (r: seq<C>)
    requires |xs| == |ys|
    ensures |r| == |xs|
  {
    seq(|xs|, j requires 0 <= j < |xs| => f(xs[j], ys[j]))
  }

  /** Extending both inputs by one position extends the result by one. */
  lemma ZipWithSnoc<A, B, C>(xs: seq<A>, ys: seq<B>, f: (A, B) -> C, i: nat)
    requires |xs| == |ys| && i < |xs|
    ensures ZipWith(xs[..i + 1], ys[..i + 1], f) == ZipWith(xs[..i], ys[..i], f) + [f(xs[i], ys[i])]
  {
  }

  /** Dropping position i from both inputs drops exactly result i. */
  lemma ZipWithDrop<A, B, C>(xs: seq<A>, ys: seq<B>, f: (A, B) -> C, i: nat)
    requires |xs| == |ys| && i < |xs|
    ensures var all := ZipWith(xs, ys, f);
      ZipWith(xs[..i] + xs[i + 1..], ys[..i] + ys[i + 1..], f) == all[..i] + all[i + 1..]
  {
    var all := ZipWith(xs, ys, f);
    var us, ps := xs[..i] + xs[i + 1..], ys[..i] + ys[i + 1..];
    var rest, kept := ZipWith(us, ps, f), all[..i] + all[i + 1..];
    forall j | 0 <= j < |rest| ensures rest[j] == kept[j] {
      var src := if j < i then j else j + 1;
      assert us[j] == xs[src] && ps[j] == ys[src];
      assert kept[j] == all[src];
    }
  }
}
