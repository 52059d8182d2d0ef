/**
 * The article handler (web-newspaper.py): one article, one output row with
 * an entry per requested property, falsy values rendered as `''`, and any
 * failure after validation raised as RuntimeError with nothing written.
 */
module WebNewspaper {
  import opened Outcomes
  import opened Text
  import opened Json
  import opened Projection
  import opened ArticleInfo
  import P = Params

  const ParamNames: seq<string> := ["url", "properties"]

  /** `dict(zip(params.keys(), input))` with the `'title'` default for `properties`. */
  function MapInput(input: seq<P.Value>): map<string, P.Value> {
    P.WithDefault(P.Zip(ParamNames, input), "properties", P.Str("title"))
  }

  /**
   * The first two inputs become `url` and `properties`; a missing or
   * null `properties` is `'title'`, and inputs past the second are dropped.
   */
  lemma MapInputSpec(input: seq<P.Value>)
    ensures var m := MapInput(input);
      && ("url" in m <==> |input| >= 1)
      && (|input| >= 1 ==> m["url"] == input[0])
      && m["properties"] == (if |input| >= 2 && input[1] != P.Null then input[1] else P.Str("title"))
      && m.Keys <= {"url", "properties"}
  {
    P.ZipAt(ParamNames, input);
    var z := P.Zip(ParamNames, input);
    assert ParamNames[0] == "url" && ParamNames[1] == "properties";
    if |input| == 0 {
      assert z.Keys == {};
    } else if |input| == 1 {
      assert z.Keys == {"url"};
    } else {
      assert z.Keys == {"url", "properties"};
    }
  }

  lemma TitleIsNormalized()
    ensures NormalizeName("title") == "title"
  {
    var t := "title";
    assert NoUpper(t) by {
      forall i | 0 <= i < |t| ensures !IsUpper(t[i]) {
        assert t[i] in "title";
      }
    }
    assert NoEdgeSpace(t);
    CleanNameFixed(t);
  }

  /** Without a `properties` argument the validated property list is `["title"]`. */
  lemma DefaultIsTitle(url: P.Value)
    ensures P.ListParam(P.ToList(MapInput([url])["properties"])) == Ok(["title"])
  {
    assert MapInput([url])["properties"] == P.Str("title") by {
      MapInputSpec([url]);
    }
    assert ',' !in "title";
    P.ListParamSpec("properties", P.Str("title"));
    SplitPlain("title", ',');
  }

  /** The default list resolves to the title alone. */
  lemma TitleResolves()
    ensures ResolveProperties(["title"], InfoKeys) == ["title"]
  {
    TitleIsNormalized();
    assert NormalizeNames(["title"]) == ["title"];
  }

  /** `property_map.get(p, '')`: the map is the identity on the seven names. */
  function PropertyKey(p: string): string {
    if p in InfoKeys then p else ""
  }

  /** Python truthiness on the values `info` holds. */
  predicate Falsy(v: Py) {
    v == PyNone || v == PyStr("")
  }

  /** `info.get(key, '') or ''`. */
  function Entry(info: map<string, Py>, key: string): Py {
    var v := if key in info then info[key] else PyStr("");
    if Falsy(v) then PyStr("") else v
  }

  /** `[[info.get(property_map.get(p, ''), '') or '' for p in properties]]`. */
  function ResultRows(info: map<string, Py>, props: seq<string>): (rows: seq<seq<Py>>)
    ensures |rows| == 1 && |rows[0]| == |props|
  {
    [seq(|props|, j requires 0 <= j < |props| => Entry(info, PropertyKey(props[j])))]
  }

  /**
   * The result is exactly one row with one entry per property: the
   * article's value for each of the seven names unless it is falsy, and
   * `''` for a falsy value or any other name. No entry is ever None.
   */
  lemma ResultRowsSpec(a: Article, props: seq<string>)
    ensures var rows, info := ResultRows(InfoOf(a), props), InfoOf(a);
      && |rows| == 1 && |rows[0]| == |props|
      && (forall j :: 0 <= j < |props| ==>
            rows[0][j] == (if props[j] in InfoKeys && !Falsy(info[props[j]]) then info[props[j]] else PyStr("")))
      && (forall j :: 0 <= j < |props| ==> !rows[0][j].PyNone?)
  {
    InfoShape(a);
    assert "" !in InfoKeys;
  }

  /** A missing publish date and an empty title are rendered as `''`. */
  lemma FalsyRendersEmpty(a: Article, props: seq<string>, j: nat)
    requires j < |props| && (props[j] == "publish_date" || props[j] == "title")
    requires props[j] == "publish_date" ==> a.publishDate.None?
    requires props[j] == "title" ==> a.title == ""
    ensures ResultRows(InfoOf(a), props)[0][j] == PyStr("")
  {
    ResultRowsSpec(a, props);
  }

  /** With the wildcard the row holds every field, in the declared order. */
  lemma WildcardRow(a: Article, names: seq<string>)
    requires |names| == 1 && NormalizeName(names[0]) == "*"
    ensures var row := ResultRows(InfoOf(a), ResolveProperties(names, InfoKeys))[0];
      && |row| == 7
      && forall j :: 0 <= j < 7 ==> row[j] == Entry(InfoOf(a), InfoKeys[j])
  {
    ResolvePropertiesSpec(names, InfoKeys);
  }

  /** `json.dumps(result, default=to_string)`. */
  function Render(rows: seq<seq<Py>>): string {
    Encode(JArray(seq(|rows|, i requires 0 <= i < |rows| =>
      JArray(seq(|rows[i]|, j requires 0 <= j < |rows[i]| => ToJson(rows[i][j]))))))
  }

  /**
   * The handler after validation. `article` is what fetching and parsing
   * the page produced, or None when the request, the download or the parse
   * raised; then the handler raises RuntimeError and writes nothing.
   */
  method Handle(properties: seq<string>, article: Option<Article>) returns (r: Result<string>)
    ensures article.None? <==> r == Err(RuntimeError)
    ensures article.Some? ==>
      r == Ok(Render(ResultRows(InfoOf(article.value), ResolveProperties(properties, InfoKeys))))
  {
    var props := ResolveProperties(properties, InfoKeys);
    match article
    case None =>
      r := Err(RuntimeError);
    case Some(a) =>
      var info := BuildInfo(a);
      var result := ResultRows(info, props);
      r := Ok(Render(result));
  }
}
