/**
 * The older article handler (newspaper.py): a flat list with one value per
 * requested column, no wildcard and no `or ''`, so a missing publish date
 * is written as JSON null.
 */
module Newspaper {
  import opened Outcomes
  import opened Text
  import opened Json
  import opened Projection
  import opened ArticleInfo
  import P = Params

  const ParamNames: seq<string> := ["url", "columns"]

  /** `dict(zip(params.keys(), input))` with the `'title'` default for `columns`. */
  function MapInput(input: seq<P.Value>): map<string, P.Value> {
    P.WithDefault(P.Zip(ParamNames, input), "columns", P.Str("title"))
  }

  /**
   * The first two inputs become `url` and `columns`; a missing or null
   * `columns` is `'title'`, and inputs past the second are dropped.
   */
  lemma MapInputSpec(input: seq<P.Value>)
    ensures var m := MapInput(input);
      && ("url" in m <==> |input| >= 1)
      && (|input| >= 1 ==> m["url"] == input[0])
      && m["columns"] == (if |input| >= 2 && input[1] != P.Null then input[1] else P.Str("title"))
      && m.Keys <= {"url", "columns"}
  {
    P.ZipAt(ParamNames, input);
    var z := P.Zip(ParamNames, input);
    assert ParamNames[0] == "url" && ParamNames[1] == "columns";
    if |input| == 0 {
      assert z.Keys == {};
    } else if |input| == 1 {
      assert z.Keys == {"url"};
    } else {
      assert z.Keys == {"url", "columns"};
    }
  }

  /**
   * This file's `to_list` as written: the list branch names `itertools`,
   * which the file never imports, so any list raises NameError.
   */
  function NewspaperToList(v: P.Value): (r: Result<P.Value>)
    ensures v.List? ==> r == Err(NameError)
    ensures !v.List? ==> r == P.ToList(v)
  {
    match v
    case Str(s) => Ok(P.List(P.StrValues(Split(s, ','))))
    case List(_) => Err(NameError)
    case _ => Ok(P.Null)
  }

  /**
   * A list-valued `columns` argument can never be coerced, so validation
   * fails and the handler raises ValueError; the shared `to_list` would
   * have accepted `["title"]` (as its characters).
   */
  lemma ListColumnsRejected(vs: seq<P.Value>)
    ensures P.ListParam(NewspaperToList(P.List(vs))) == Err(ValueError)
    ensures P.ListParam(P.ToList(P.List([P.Str("title")]))).Ok?
  {
    var one := [P.Str("title")];
    P.ToListOfStrings(one);
    assert P.Texts(one) == ["title"];
    assert P.Concat(["title"]) == "title" by {
      assert ["title"][1..] == [];
    }
    var cs := P.Chars("title");
    assert P.AllStr(cs);
  }

  /** A string-valued `columns` argument is split on commas, exactly as in the other handlers. */
  lemma StringColumnsAccepted(s: string)
    ensures P.ListParam(NewspaperToList(P.Str(s))) == Ok(Split(s, ','))
  {
    P.ListParamSpec("columns", P.Str(s));
  }

  /** `info.get(c, '')`: no `or ''`, so a None value stays None. */
  function Column(info: map<string, Py>, c: string): Py {
    if c in info then info[c] else PyStr("")
  }

  /** `[info.get(c, '') for c in [c.lower().strip() for c in columns]]`. */
  function Columns(info: map<string, Py>, columns: seq<string>): (row: seq<Py>)
    ensures |row| == |columns|
  {
    seq(|columns|, j requires 0 <= j < |columns| => Column(info, NormalizeName(columns[j])))
  }

  /**
   * One value per requested column, in order: the article's value for a
   * column naming one of the seven fields (after lower-casing and
   * trimming), and `''` for any other name, the wildcard included.
   */
  lemma ColumnsSpec(a: Article, columns: seq<string>)
    ensures var row, info := Columns(InfoOf(a), columns), InfoOf(a);
      && |row| == |columns|
      && forall j :: 0 <= j < |columns| ==>
        row[j] == (if NormalizeName(columns[j]) in InfoKeys then info[NormalizeName(columns[j])] else PyStr(""))
  {
    InfoShape(a);
  }

  /** `'*'` is already a normalised name. */
  lemma StarIsClean()
    ensures NormalizeName("*") == "*"
  {
    assert NoUpper("*") && NoEdgeSpace("*");
    CleanNameFixed("*");
  }

  /** `'*'` is not a wildcard here: it is an unknown column. */
  lemma StarIsUnknown(a: Article)
    ensures Columns(InfoOf(a), ["*"]) == [PyStr("")]
  {
    StarIsClean();
    assert "*" !in InfoOf(a);
  }

  /** `json.dumps(result, default=to_string)` on the flat list. */
  function Render(row: seq<Py>): string {
    Encode(JArray(seq(|row|, j requires 0 <= j < |row| => ToJson(row[j]))))
  }

  /**
   * A missing publish date is written as JSON null; a present one as the
   * ISO text of the date, which reads back as the date.
   */
  lemma PublishDateRendering(a: Article)
    ensures a.publishDate.None? ==> ToJson(Column(InfoOf(a), "publish_date")) == JNull
    ensures a.publishDate.Some? ==> ToJson(Column(InfoOf(a), "publish_date")) == JStr(IsoFormat(a.publishDate.value))
    ensures a.publishDate.Some? && ValidTemporal(a.publishDate.value) ==>
      ParseIso(ToJson(Column(InfoOf(a), "publish_date")).s) == Some(a.publishDate.value)
  {
    if a.publishDate.Some? && ValidTemporal(a.publishDate.value) {
      IsoFormatRoundTrip(a.publishDate.value);
    }
  }

  /**
   * The handler after validation; `article` is None when fetching or
   * parsing raised, and then the handler raises RuntimeError and writes
   * nothing.
   */
  method Handle(columns: seq<string>, article: Option<Article>) returns (r: Result<string>)
    ensures article.None? <==> r == Err(RuntimeError)
    ensures article.Some? ==> r == Ok(Render(Columns(InfoOf(article.value), columns)))
  {
    match article
    case None =>
      r := Err(RuntimeError);
    case Some(a) =>
      var info := BuildInfo(a);
      var result := Columns(info, columns);
      r := Ok(Render(result));
  }
}
