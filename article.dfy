/**
 * What the two newspaper handlers read off an extracted article: the
 * `info` dictionary they fill field by field, and `to_string`, the
 * `json.dumps` fallback that turns dates into ISO 8601 text.
 */
module ArticleInfo {
  import opened Outcomes
  import opened Text
  import opened Json

  // ---------------------------------------------------------------- isoformat

  function Pow10(w: nat): nat {
    if w == 0 then 1 else 10 * Pow10(w - 1)
  }

  predicate IsDigit(c: char) {
    '0' <= c <= '9'
  }

  /** `n` written in decimal with exactly `w` digits, zero padded (`'%0wd' % n`). */
  function Digits(n: nat, w: nat): (r: string)
    ensures |r| == w
    ensures forall i :: 0 <= i < |r| ==> IsDigit(r[i])
  {
    if w == 0 then "" else Digits(n / 10, w - 1) + [('0' as int + n % 10) as char]
  }

  /** Reads a run of decimal digits back as a number. */
  function DecodeDigits(s: string): nat {
    if s == [] then 0
    else
      var c := s[|s| - 1];
      DecodeDigits(s[..|s| - 1]) * 10 + (if IsDigit(c) then c as int - '0' as int else 0)
  }

  /** Padding loses nothing when the number fits the width. */
  lemma {:induction false} DigitsRoundTrip(n: nat, w: nat)
    requires n < Pow10(w)
    ensures DecodeDigits(Digits(n, w)) == n
  {
    if w > 0 {
      assert n / 10 < Pow10(w - 1);
      DigitsRoundTrip(n / 10, w - 1);
      var d := Digits(n, w);
      assert d[..|d| - 1] == Digits(n / 10, w - 1);
    }
  }

  /** A `datetime.date` or a naive `datetime.datetime`. */
  datatype Temporal =
    | Date(year: nat, month: nat, day: nat)
    | DateTime(year: nat, month: nat, day: nat, hour: nat, minute: nat, second: nat, micro: nat)

  function DaysInMonth(year: nat, month: nat): nat {
    if month == 2 then
      (if year % 4 == 0 && (year % 100 != 0 || year % 400 == 0) then 29 else 28)
    else if month == 4 || month == 6 || month == 9 || month == 11 then 30
    else 31
  }

  /** The ranges Python's constructors enforce. */
  predicate ValidTemporal(t: Temporal) {
    && 1 <= t.year <= 9999 && 1 <= t.month <= 12 && 1 <= t.day <= DaysInMonth(t.year, t.month)
    && (t.DateTime? ==> t.hour < 24 && t.minute < 60 && t.second < 60 && t.micro < 1000000)
  }

  function DatePart(t: Temporal): string {
    Digits(t.year, 4) + "-" + Digits(t.month, 2) + "-" + Digits(t.day, 2)
  }

  function TimePart(t: Temporal): string
    requires t.DateTime?
  {
    Digits(t.hour, 2) + ":" + Digits(t.minute, 2) + ":" + Digits(t.second, 2)
    + (if t.micro == 0 then "" else "." + Digits(t.micro, 6))
  }

  /**
   * `isoformat()`: `YYYY-MM-DD` for a date; a datetime adds `THH:MM:SS`
   * and, only when the microseconds are not zero, `.ffffff`.
   */
  function IsoFormat(t: Temporal): (r: string)
    ensures t.Date? ==> |r| == 10
    ensures t.DateTime? ==> |r| == (if t.micro == 0 then 19 else 26)
  {
    match t
    case Date(_, _, _) => DatePart(t)
    case DateTime(_, _, _, _, _, _, _) => DatePart(t) + "T" + TimePart(t)
  }

  /** A reader of the three ISO 8601 shapes `isoformat` produces; anything else is rejected. */
  function ParseIso(s: string): Option<Temporal> {
    if !(|s| == 10 || |s| == 19 || |s| == 26) then None
    else if !(s[4] == '-' && s[7] == '-') then None
    else if |s| == 10 then Some(Date(DecodeDigits(s[0..4]), DecodeDigits(s[5..7]), DecodeDigits(s[8..10])))
    else if !(s[10] == 'T' && s[13] == ':' && s[16] == ':') then None
    else if |s| == 26 && s[19] != '.' then None
    else
      Some(DateTime(DecodeDigits(s[0..4]), DecodeDigits(s[5..7]), DecodeDigits(s[8..10]),
                    DecodeDigits(s[11..13]), DecodeDigits(s[14..16]), DecodeDigits(s[17..19]),
                    if |s| == 26 then DecodeDigits(s[20..26]) else 0))
  }

  lemma DatePartFields(t: Temporal)
    requires ValidTemporal(t)
    ensures var s := DatePart(t);
      && s[0..4] == Digits(t.year, 4) && s[4] == '-' && s[5..7] == Digits(t.month, 2)
      && s[7] == '-' && s[8..10] == Digits(t.day, 2)
      && DecodeDigits(s[0..4]) == t.year && DecodeDigits(s[5..7]) == t.month && DecodeDigits(s[8..10]) == t.day
  {
    var s := DatePart(t);
    assert s[0..4] == Digits(t.year, 4);
    assert s[5..7] == Digits(t.month, 2);
    assert s[8..10] == Digits(t.day, 2);
    DigitsRoundTrip(t.year, 4);
    DigitsRoundTrip(t.month, 2);
    DigitsRoundTrip(t.day, 2);
  }

  lemma TimePartFields(t: Temporal)
    requires t.DateTime? && ValidTemporal(t)
    ensures var s := TimePart(t);
      && s[..2] == Digits(t.hour, 2) && s[2] == ':' && s[3..5] == Digits(t.minute, 2)
      && s[5] == ':' && s[6..8] == Digits(t.second, 2)
      && (t.micro != 0 ==> s[8] == '.' && s[9..15] == Digits(t.micro, 6))
      && DecodeDigits(s[..2]) == t.hour && DecodeDigits(s[3..5]) == t.minute && DecodeDigits(s[6..8]) == t.second
      && (t.micro != 0 ==> DecodeDigits(s[9..15]) == t.micro)
  {
    var s := TimePart(t);
    var frac := if t.micro == 0 then "" else "." + Digits(t.micro, 6);
    ClockFields(Digits(t.hour, 2), Digits(t.minute, 2), Digits(t.second, 2), frac);
    Pow10Widths();
    if t.micro != 0 {
      assert s[9..15] == frac[1..7];
      DigitsRoundTrip(t.micro, 6);
    }
    DigitsRoundTrip(t.hour, 2);
    DigitsRoundTrip(t.minute, 2);
    DigitsRoundTrip(t.second, 2);
  }

  /** Where the pieces of `HH:MM:SS` followed by a fraction sit. */
  lemma ClockFields(h: string, m: string, sec: string, frac: string)
    requires |h| == 2 && |m| == 2 && |sec| == 2
    ensures var s := h + ":" + m + ":" + sec + frac;
      && s[..2] == h && s[2] == ':' && s[3..5] == m && s[5] == ':' && s[6..8] == sec && s[8..] == frac
  {
  }

  lemma Pow10Widths()
    ensures Pow10(2) == 100 && Pow10(4) == 10000 && Pow10(6) == 1000000
  {
    assert Pow10(1) == 10;
    assert Pow10(3) == 1000;
    assert Pow10(5) == 100000;
  }

  lemma ParseIsoDateTime(s: string, d: string, u: string)
    requires s == d + "T" + u && |d| == 10 && (|u| == 8 || |u| == 15)
    requires d[4] == '-' && d[7] == '-' && u[2] == ':' && u[5] == ':' && (|u| == 15 ==> u[8] == '.')
    ensures ParseIso(s) == Some(DateTime(DecodeDigits(d[0..4]), DecodeDigits(d[5..7]), DecodeDigits(d[8..10]),
                                         DecodeDigits(u[..2]), DecodeDigits(u[3..5]), DecodeDigits(u[6..8]),
                                         if |u| == 15 then DecodeDigits(u[9..15]) else 0))
  {
    assert s[..10] == d && s[10] == 'T' && s[11..] == u;
    assert s[0..4] == d[0..4] && s[5..7] == d[5..7] && s[8..10] == d[8..10];
    assert s[11..13] == u[..2] && s[14..16] == u[3..5] && s[17..19] == u[6..8];
    if |u| == 15 {
      assert s[20..26] == u[9..15];
    }
  }

  /** The ISO text of a valid date or datetime reads back as that same value. */
  lemma IsoFormatRoundTrip(t: Temporal)
    requires ValidTemporal(t)
    ensures ParseIso(IsoFormat(t)) == Some(t)
  {
    DatePartFields(t);
    if t.DateTime? {
      TimePartFields(t);
      ParseIsoDateTime(IsoFormat(t), DatePart(t), TimePart(t));
    }
  }

  // ---------------------------------------------------------------- to_string

  /** The Python values an `info` entry can hold, as far as `json.dumps` cares. */
  datatype Py = PyStr(s: string) | PyNone | PyDate(t: Temporal) | PyDecimal(text: string)

  /** What `json.dumps` writes without help: strings and None. */
  predicate Serializable(v: Py) {
    v.PyStr? || v.PyNone?
  }

  /**
   * `to_string(value)`: a date or datetime becomes its ISO text, a Decimal
   * its `str` (carried here as `text`), and anything else comes back as it was.
   */
  function ToString(v: Py): (r: Py)
    ensures Serializable(v) ==> r == v
  {
    match v
    case PyDate(t) => PyStr(IsoFormat(t))
    case PyDecimal(text) => PyStr(text)
    case _ => v
  }

  /**
   * After `to_string` every value `info` can hold is one `json.dumps`
   * writes directly, so the fallback is consulted at most once per value
   * and applying it twice changes nothing.
   */
  lemma ToStringSerializes(v: Py)
    ensures Serializable(ToString(v))
    ensures ToString(ToString(v)) == ToString(v)
    ensures v.PyDate? && ValidTemporal(v.t) ==> ParseIso(ToString(v).s) == Some(v.t)
  {
    if v.PyDate? && ValidTemporal(v.t) {
      IsoFormatRoundTrip(v.t);
    }
  }

  /** `json.dumps(value, default=to_string)` on one value. */
  function ToJson(v: Py): Json {
    match ToString(v)
    case PyStr(s) => JStr(s)
    case _ => JNull
  }

  // ---------------------------------------------------------------- info

  /** The fields `newspaper.Article` exposes after `parse()`. */
  datatype Article = Article(
    title: string,
    authors: seq<string>,
    publishDate: Option<Temporal>,
    text: string,
    topImage: string,
    images: seq<string>,
    movies: seq<string>)

  /** The `info` keys, in the order the handlers assign them. */
  const InfoKeys: seq<string> := ["title", "authors", "publish_date", "text", "top_image", "images", "movies"]

  function DateValue(d: Option<Temporal>): Py {
    match d
    case None => PyNone
    case Some(t) => PyDate(t)
  }

  /** The specification of the `info` dictionary. */
  function InfoOf(a: Article): map<string, Py> {
    map[
      "title" := PyStr(a.title),
      "authors" := PyStr(Join(a.authors, ",")),
      "publish_date" := DateValue(a.publishDate),
      "text" := PyStr(a.text),
      "top_image" := PyStr(a.topImage),
      "images" := PyStr(Join(a.images, ",")),
      "movies" := PyStr(Join(a.movies, ","))]
  }

  /** `info = {}` followed by the seven assignments. */
  method BuildInfo(a: Article) returns (info: map<string, Py>)
    ensures info == InfoOf(a)
  {
    info := map[];
    info := info["title" := PyStr(a.title)];
    info := info["authors" := PyStr(Join(a.authors, ","))];
    info := info["publish_date" := DateValue(a.publishDate)];
    info := info["text" := PyStr(a.text)];
    info := info["top_image" := PyStr(a.topImage)];
    info := info["images" := PyStr(Join(a.images, ","))];
    info := info["movies" := PyStr(Join(a.movies, ","))];
  }

  /**
   * `info` has exactly the seven keys; every entry but the publish date is a
   * string (the list fields comma-joined), and a missing publish date is None.
   */
  lemma InfoShape(a: Article)
    ensures InfoOf(a).Keys == set k | k in InfoKeys
    ensures InfoOf(a)["title"].PyStr? && InfoOf(a)["text"].PyStr? && InfoOf(a)["top_image"].PyStr?
    ensures InfoOf(a)["authors"].PyStr? && InfoOf(a)["images"].PyStr? && InfoOf(a)["movies"].PyStr?
    ensures InfoOf(a)["publish_date"].PyNone? <==> a.publishDate.None?
  {
    assert InfoKeys[0] == "title" && InfoKeys[1] == "authors" && InfoKeys[2] == "publish_date";
    assert InfoKeys[3] == "text" && InfoKeys[4] == "top_image" && InfoKeys[5] == "images" && InfoKeys[6] == "movies";
  }

  predicate CommaFree(ps: seq<string>) {
    forall i :: 0 <= i < |ps| ==> ',' !in ps[i]
  }

  /**
   * The comma join keeps the list in order: split on commas it gives the
   * list back, provided the list is not empty and no entry holds a comma.
   * An empty list joins to `''`, which splits to `['']`, not to `[]`.
   */
  lemma JoinedListRoundTrip(ps: seq<string>)
    ensures |ps| >= 1 && CommaFree(ps) ==> Split(Join(ps, ","), ',') == ps
    ensures ps == [] ==> Join(ps, ",") == "" && Split(Join(ps, ","), ',') == [""]
  {
    if |ps| >= 1 && CommaFree(ps) {
      JoinSplit(ps, ',');
    }
    if ps == [] {
      SplitPlain("", ',');
    }
  }
}
