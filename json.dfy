/**
 * The JSON text the handlers emit through `json.dumps`: arrays of strings
 * and nulls, with the default `", "` item separator.
 */
module Json {
  import opened Outcomes
  import opened Text

  datatype Json = JStr(s: string) | JNull | JArray(items: seq<Json>)

  /** The two-character escape `json.dumps` writes for `c`, if it has one. */
  function ShortEscape(c: char): Option<char> {
    if c == '"' then Some('"')
    else if c == '\\' then Some('\\')
    else if c == '\n' then Some('n')
    else if c == '\r' then Some('r')
    else if c == '\t' then Some('t')
    else if c == 8 as char then Some('b')
    else if c == 12 as char then Some('f')
    else None
  }

  /** The character a two-character escape `\e` stands for, if `e` is one of them. */
  function ShortUnescape(e: char): Option<char> {
    if e == '"' then Some('"')
    else if e == '\\' then Some('\\')
    else if e == 'n' then Some('\n')
    else if e == 'r' then Some('\r')
    else if e == 't' then Some('\t')
    else if e == 'b' then Some(8 as char)
    else if e == 'f' then Some(12 as char)
    else None
  }

  lemma ShortEscapeInverse(c: char)
    ensures ShortEscape(c).Some? ==> ShortUnescape(ShortEscape(c).value) == Some(c)
    ensures ShortEscape(c).None? ==> c != '"' && c != '\\'
  {
  }

  /** The body of a JSON string literal for `s`. */
  function Escape(s: string): string {
    if s == [] then []
    else
      (match ShortEscape(s[0])
       case Some(e) => ['\\', e]
       case None => [s[0]])
      + Escape(s[1..])
  }

  /** Reads back the body of a string literal; fails on a lone quote or an unknown escape. */
  function Unescape(t: string): Option<string>
    decreases |t|
  {
    if t == [] then Some([])
    else if t[0] == '"' then None
    else if t[0] == '\\' then
      if |t| < 2 then None
      else
        match ShortUnescape(t[1])
        case None => None
        case Some(c) =>
          match Unescape(t[2..])
          case None => None
          case Some(rest) => Some([c] + rest)
    else
      match Unescape(t[1..])
      case None => None
      case Some(rest) => Some([t[0]] + rest)
  }

  /** Escaping loses nothing: the literal's body reads back as the original string. */
  lemma {:induction false} EscapeRoundTrip(s: string)
    ensures Unescape(Escape(s)) == Some(s)
  {
    if s != [] {
      EscapeRoundTrip(s[1..]);
      ShortEscapeInverse(s[0]);
      var t := Escape(s);
      match ShortEscape(s[0])
      case Some(e) =>
        assert t == ['\\', e] + Escape(s[1..]);
        assert t[0] == '\\' && t[1] == e && t[2..] == Escape(s[1..]);
        assert [s[0]] + s[1..] == s;
      case None =>
        assert t == [s[0]] + Escape(s[1..]);
        assert t[0] == s[0] && t[1..] == Escape(s[1..]);
        assert [s[0]] + s[1..] == s;
    }
  }

  function Quote(s: string): string {
    "\"" + Escape(s) + "\""
  }

  /** `json.dumps(j)`. */
  function Encode(j: Json): string
    decreases j
  {
    match j
    case JStr(s) => Quote(s)
    case JNull => "null"
    case JArray(items) =>
      "[" + Join(seq(|items|, i requires 0 <= i < |items| => Encode(items[i])), ", ") + "]"
  }

  function StrArray(row: seq<string>): Json {
    JArray(seq(|row|, i requires 0 <= i < |row| => JStr(row[i])))
  }

  /** `json.dumps(row)` for a list of strings. */
  function Dumps(row: seq<string>): string {
    Encode(StrArray(row))
  }

  /** `json.dumps(rows)` for a list of rows of strings. */
  function DumpsRows(rows: seq<seq<string>>): string {
    Encode(JArray(seq(|rows|, i requires 0 <= i < |rows| => StrArray(rows[i]))))
  }
}
