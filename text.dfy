/**
 * The string operations the handlers use, restricted to ASCII:
 * `str.lower`, `str.strip`, `str.split(",")`, `str.split()`, `sep.join`
 * and the substring test `needle in hay`.
 */
module Text {

  /** Python's `str.isspace` on ASCII: \t \n \v \f \r, the four separators 0x1C-0x1F, and ' '. */
  predicate IsSpace(c: char) {
    (9 <= c as int <= 13) || (28 <= c as int <= 32)
  }

  predicate IsUpper(c: char) {
    'A' <= c <= 'Z'
  }

  function LowerChar(c: char): (r: char)
    ensures IsSpace(r) == IsSpace(c) && (r == ' ') == (c == ' ')
    ensures !IsUpper(r)
    ensures !IsUpper(c) ==> r == c
  {
    if IsUpper(c) then (c as int + 32) as char else c
  }

  /**
   * `s.lower()`: the same string up to case, with no capitals left. White
   * space stays where it was, and a string without capitals is unchanged.
   */
  function Lower(s: string): (r: string)
    ensures |r| == |s| && NoUpper(r)
    ensures forall i :: 0 <= i < |s| ==> r[i] == s[i] || (IsUpper(s[i]) && r[i] as int == s[i] as int + 32)
    ensures forall i :: 0 <= i < |s| ==> IsSpace(r[i]) == IsSpace(s[i]) && (r[i] == ' ') == (s[i] == ' ')
    ensures NoUpper(s) ==> r == s
  {
    seq(|s|, i requires 0 <= i < |s| => LowerChar(s[i]))
  }

  predicate AllSpace(s: string) {
    forall i :: 0 <= i < |s| ==> IsSpace(s[i])
  }

  predicate NoSpace(s: string) {
    forall i :: 0 <= i < |s| ==> !IsSpace(s[i])
  }

  predicate NoUpper(s: string) {
    forall i :: 0 <= i < |s| ==> !IsUpper(s[i])
  }

  /** Neither the first nor the last character is whitespace. */
  predicate NoEdgeSpace(s: string) {
    s == [] || (!IsSpace(s[0]) && !IsSpace(s[|s| - 1]))
  }

  /** No two whitespace characters stand next to each other. */
  predicate NoSpaceRuns(s: string) {
    forall i :: 0 <= i < |s| - 1 && IsSpace(s[i]) ==> !IsSpace(s[i + 1])
  }

  /** The only whitespace character that occurs is the blank. */
  predicate BlanksOnly(s: string) {
    forall i :: 0 <= i < |s| && IsSpace(s[i]) ==> s[i] == ' '
  }

  // ---------------------------------------------------------------- strip

  function LeadingSpaces(s: string): (n: nat)
    ensures n <= |s|
    ensures forall i :: 0 <= i < n ==> IsSpace(s[i])
    ensures n < |s| ==> !IsSpace(s[n])
  {
    if s != [] && IsSpace(s[0]) then 1 + LeadingSpaces(s[1..]) else 0
  }

  function TrailingSpaces(s: string): (n: nat)
    ensures n <= |s|
    ensures forall i :: |s| - n <= i < |s| ==> IsSpace(s[i])
    ensures n < |s| ==> !IsSpace(s[|s| - 1 - n])
  {
    if s != [] && IsSpace(s[|s| - 1]) then 1 + TrailingSpaces(s[..|s| - 1]) else 0
  }

  /** `s.strip()`: the longest middle part of `s` with no whitespace at either end. */
  function Strip(s: string): (r: string)
    ensures NoEdgeSpace(r)
  {
    var a := LeadingSpaces(s);
    var t := s[a..];
    t[..|t| - TrailingSpaces(t)]
  }

  /** Strip removes whitespace only, and only at the two ends. */
  lemma StripSpec(s: string)
    ensures exists i, j :: 0 <= i <= j <= |s| && Strip(s) == s[i..j] && AllSpace(s[..i]) && AllSpace(s[j..])
  {
    var a := LeadingSpaces(s);
    var t := s[a..];
    var b := TrailingSpaces(t);
    var j := |s| - b;
    assert Strip(s) == s[a..j] by {
      assert t[..|t| - b] == s[a..j];
    }
    assert AllSpace(s[..a]) by {
      forall k | 0 <= k < a ensures IsSpace(s[..a][k]) {
        assert s[..a][k] == s[k];
      }
    }
    assert AllSpace(s[j..]) by {
      forall k | 0 <= k < b ensures IsSpace(s[j..][k]) {
        assert s[j..][k] == t[|t| - b + k];
      }
    }
    assert 0 <= a <= j <= |s|;
  }

  lemma StripKeepsClean(s: string)
    requires NoEdgeSpace(s)
    ensures Strip(s) == s
  {
  }

  lemma StripNoUpper(s: string)
    requires NoUpper(s)
    ensures NoUpper(Strip(s))
  {
    var r := Strip(s);
    StripSpec(s);
    var i, j :| 0 <= i <= j <= |s| && r == s[i..j];
    assert forall k :: 0 <= k < |r| ==> r[k] == s[i + k];
  }

  /** Lower-casing keeps the spacing predicates of a string. */
  lemma LowerKeepsShape(s: string)
    ensures NoEdgeSpace(Lower(s)) == NoEdgeSpace(s)
    ensures NoSpaceRuns(Lower(s)) == NoSpaceRuns(s)
    ensures BlanksOnly(Lower(s)) == BlanksOnly(s)
  {
    var l := Lower(s);
    assert forall i :: 0 <= i < |s| ==> IsSpace(l[i]) == IsSpace(s[i]);
    if !BlanksOnly(s) {
      var i :| 0 <= i < |s| && IsSpace(s[i]) && s[i] != ' ';
      assert IsSpace(l[i]) && l[i] != ' ';
    }
    if !NoSpaceRuns(s) {
      var i :| 0 <= i < |s| - 1 && IsSpace(s[i]) && IsSpace(s[i + 1]);
      assert IsSpace(l[i]) && IsSpace(l[i + 1]);
    }
  }

  // ---------------------------------------------------------------- join and split on a separator

  /** `sep.join(ps)`. */
  function Join(ps: seq<string>, sep: string): string {
    if |ps| == 0 then ""
    else if |ps| == 1 then ps[0]
    else ps[0] + sep + Join(ps[1..], sep)
  }

  /** Joining after one more piece adds the separator and the piece at the end. */
  lemma {:induction false} JoinSnoc(ps: seq<string>, p: string, sep: string)
    requires |ps| > 0
    ensures Join(ps + [p], sep) == Join(ps, sep) + sep + p
  {
    if |ps| == 1 {
      assert (ps + [p])[1..] == [p];
    } else {
      assert (ps + [p])[1..] == ps[1..] + [p];
      JoinSnoc(ps[1..], p, sep);
    }
  }

  function Count(s: string, c: char): nat {
    if s == [] then 0 else (if s[0] == c then 1 else 0) + Count(s[1..], c)
  }

  /** `s.split(sep)` with an explicit one-character separator: no trimming, empty pieces kept. */
  function Split(s: string, sep: char): (r: seq<string>)
    ensures |r| >= 1
    ensures forall i :: 0 <= i < |r| ==> sep !in r[i]
    decreases |s|
  {
    if s == [] then [""]
    else
      var rest := Split(s[1..], sep);
      if s[0] == sep then [""] + rest
      else [[s[0]] + rest[0]] + rest[1..]
  }

  /** The pieces rejoined with the separator are the input again. */
  lemma {:induction false} SplitJoin(s: string, sep: char)
    ensures Join(Split(s, sep), [sep]) == s
  {
    if s != [] {
      var rest := Split(s[1..], sep);
      SplitJoin(s[1..], sep);
      if s[0] == sep {
        assert ([""] + rest)[1..] == rest;
      } else if |rest| > 1 {
        var r := [[s[0]] + rest[0]] + rest[1..];
        assert r[1..] == rest[1..];
      }
    }
  }

  /** There is one piece more than the input has separators, and no piece holds a separator. */
  lemma {:induction false} SplitShape(s: string, sep: char)
    ensures |Split(s, sep)| == Count(s, sep) + 1
  {
    if s != [] {
      SplitShape(s[1..], sep);
      var rest := Split(s[1..], sep);
      if s[0] != sep {
        var r := Split(s, sep);
        assert r[0] == [s[0]] + rest[0];
        assert forall i :: 1 <= i < |r| ==> r[i] == rest[i];
      }
    }
  }

  lemma {:induction false} SplitPlain(s: string, sep: char)
    requires sep !in s
    ensures Split(s, sep) == [s]
  {
    if s != [] {
      SplitPlain(s[1..], sep);
      assert [s[0]] + s[1..] == s;
    }
  }

  lemma {:induction false} SplitAfterPiece(x: string, y: string, sep: char)
    requires sep !in x
    ensures Split(x + [sep] + y, sep) == [x] + Split(y, sep)
  {
    if x == [] {
      assert ([sep] + y)[1..] == y;
    } else {
      var z := x + [sep] + y;
      assert z[0] == x[0] && z[1..] == x[1..] + [sep] + y;
      SplitAfterPiece(x[1..], y, sep);
      assert [x[0]] + x[1..] == x;
    }
  }

  /** Splitting a join of separator-free pieces gives the pieces back. */
  lemma {:induction false} JoinSplit(ps: seq<string>, sep: char)
    requires |ps| >= 1
    requires forall i :: 0 <= i < |ps| ==> sep !in ps[i]
    ensures Split(Join(ps, [sep]), sep) == ps
  {
    if |ps| == 1 {
      SplitPlain(ps[0], sep);
    } else {
      var rest := ps[1..];
      assert forall i :: 0 <= i < |rest| ==> rest[i] == ps[i + 1];
      JoinSplit(rest, sep);
      var y := Join(rest, [sep]);
      assert Join(ps, [sep]) == ps[0] + [sep] + y;
      SplitAfterPiece(ps[0], y, sep);
      assert [ps[0]] + rest == ps;
    }
  }

  // ---------------------------------------------------------------- split on whitespace runs

  /** Length of the run of non-whitespace characters at the front. */
  function WordLen(s: string): (k: nat)
    ensures k <= |s| && NoSpace(s[..k])
    ensures k < |s| ==> IsSpace(s[k])
  {
    if s == [] || IsSpace(s[0]) then 0
    else
      var k := 1 + WordLen(s[1..]);
      assert s[..k] == [s[0]] + s[1..][..k - 1];
      k
  }

  /** `s.split()`: the maximal whitespace-free pieces, in order. */
  function Words(s: string): (ws: seq<string>)
    ensures forall i :: 0 <= i < |ws| ==> ws[i] != [] && NoSpace(ws[i])
    decreases |s|
  {
    if s == [] then []
    else if IsSpace(s[0]) then Words(s[1..])
    else
      var k := WordLen(s);
      [s[..k]] + Words(s[k..])
  }

  /**
   * `" ".join(s.split()).lower().strip()`: the search-text normalisation.
   * The result has single blanks between words, no white space at the
   * ends or of any other kind, and no capitals.
   */
  function NormalizeSpaces(s: string): (r: string)
    ensures IsNormalized(r)
  {
    var j := Join(Words(s), " ");
    JoinWordsShape(Words(s));
    LowerKeepsShape(j);
    StripKeepsClean(Lower(j));
    Strip(Lower(j))
  }

  /** What a normalised text looks like. */
  predicate IsNormalized(t: string) {
    NoEdgeSpace(t) && NoSpaceRuns(t) && BlanksOnly(t) && NoUpper(t)
  }

  lemma {:induction false} JoinWordsShape(ws: seq<string>)
    requires forall i :: 0 <= i < |ws| ==> ws[i] != [] && NoSpace(ws[i])
    ensures NoEdgeSpace(Join(ws, " ")) && NoSpaceRuns(Join(ws, " ")) && BlanksOnly(Join(ws, " "))
    ensures |ws| > 0 ==> Join(ws, " ") != []
  {
    if |ws| == 1 {
    } else if |ws| > 1 {
      var w := ws[0];
      JoinWordsShape(ws[1..]);
      var r := Join(ws[1..], " ");
      var j := Join(ws, " ");
      assert j == w + " " + r;
      assert forall i :: 0 <= i < |j| ==>
        j[i] == (if i < |w| then w[i] else if i == |w| then ' ' else r[i - |w| - 1]);
      assert !IsSpace(w[0]);
      assert !IsSpace(j[|j| - 1]) by { assert j[|j| - 1] == r[|r| - 1]; }
    }
  }

  /** The text after a blank inside a normalised-shape text has the same shape. */
  lemma TailShape(t: string, m: nat)
    requires NoEdgeSpace(t) && NoSpaceRuns(t) && BlanksOnly(t)
    requires 0 < m < |t| && IsSpace(t[m - 1])
    ensures NoEdgeSpace(t[m..]) && NoSpaceRuns(t[m..]) && BlanksOnly(t[m..])
  {
    var u := t[m..];
    assert u[0] == t[m] && u[|u| - 1] == t[|t| - 1];
    assert forall i :: 0 <= i < |u| ==> u[i] == t[m + i];
  }

  /** A word followed by a blank: the rest of the words start after the blank. */
  lemma WordsAfterBlank(t: string)
    requires t != [] && !IsSpace(t[0]) && WordLen(t) < |t|
    ensures Words(t) == [t[..WordLen(t)]] + Words(t[WordLen(t) + 1..])
  {
    var k := WordLen(t);
    assert t[k..][1..] == t[k + 1..];
  }

  lemma Recompose(t: string, k: nat, ws: seq<string>)
    requires k < |t| && t[k] == ' ' && ws != [] && Join(ws, " ") == t[k + 1..]
    ensures Join([t[..k]] + ws, " ") == t
  {
    assert ([t[..k]] + ws)[1..] == ws;
    assert t == t[..k] + [t[k]] + t[k + 1..];
  }

  /** Words of a normalised-shape text, rejoined with single blanks, give the text back. */
  lemma {:induction false} WordsJoin(t: string)
    requires NoEdgeSpace(t) && NoSpaceRuns(t) && BlanksOnly(t)
    ensures Join(Words(t), " ") == t
    ensures t != [] ==> Words(t) != []
    decreases |t|
  {
    if t != [] {
      var k := WordLen(t);
      assert k > 0;
      if k == |t| {
        assert t[k..] == [];
      } else {
        assert t[k] == ' ';
        var u := t[k + 1..];
        TailShape(t, k + 1);
        WordsAfterBlank(t);
        WordsJoin(u);
        Recompose(t, k, Words(u));
      }
    }
  }

  /** Normalised text is a fixed point of the normalisation. */
  lemma NormalizedFixed(t: string)
    requires IsNormalized(t)
    ensures NormalizeSpaces(t) == t
  {
    WordsJoin(t);
    LowerKeepsShape(t);
    StripKeepsClean(t);
  }

  /** Normalising twice is normalising once. */
  lemma NormalizeSpacesIdempotent(s: string)
    ensures NormalizeSpaces(NormalizeSpaces(s)) == NormalizeSpaces(s)
  {
    NormalizedFixed(NormalizeSpaces(s));
  }

  // ---------------------------------------------------------------- substring test

  /** `needle in hay` on strings. */
  predicate Contains(hay: string, needle: string)
    decreases |hay|
  {
    needle <= hay || (hay != [] && Contains(hay[1..], needle))
  }

  /** `needle` is the slice of `hay` that starts at offset `k`. */
  predicate OccursAt(hay: string, needle: string, k: nat) {
    k + |needle| <= |hay| && hay[k..k + |needle|] == needle
  }

  /** `needle in hay` holds exactly when `needle` occurs at some offset of `hay`. */
  lemma {:induction false} ContainsAt(hay: string, needle: string)
    ensures Contains(hay, needle) <==> exists k: nat :: OccursAt(hay, needle, k)
    decreases |hay|
  {
    PrefixOccurs(hay, needle);
    if needle <= hay {
    } else if hay == [] {
      assert forall k: nat :: !OccursAt(hay, needle, k);
    } else {
      var t := hay[1..];
      ContainsAt(t, needle);
      forall k: nat | OccursAt(hay, needle, k) ensures k > 0 && OccursAt(t, needle, k - 1) {
        ShiftOccurs(hay, needle, k - 1);
      }
      if Contains(t, needle) {
        var k: nat :| OccursAt(t, needle, k);
        ShiftOccurs(hay, needle, k);
      }
    }
  }

  lemma PrefixOccurs(hay: string, needle: string)
    ensures OccursAt(hay, needle, 0) <==> needle <= hay
  {
  }

  lemma ShiftOccurs(hay: string, needle: string, k: nat)
    requires hay != []
    ensures OccursAt(hay, needle, k + 1) <==> OccursAt(hay[1..], needle, k)
  {
    if k + 1 + |needle| <= |hay| {
      assert hay[k + 1..k + 1 + |needle|] == hay[1..][k..k + |needle|];
    }
  }
}
