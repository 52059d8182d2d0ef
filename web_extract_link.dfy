/**
 * The link extractor (web-extract-link.py): for every page, the anchors
 * whose normalised text contains the normalised search text, projected onto
 * the requested properties; per-page failures contribute no rows.
 */
module LinkExtract {
  import opened Outcomes
  import opened Text
  import opened Aggregate
  import opened Json
  import opened Projection
  import P = Params

  /** The positional parameters, in order, and the declared fields. */
  const ParamNames: seq<string> := ["urls", "search", "properties"]
  const Fields: seq<string> := ["domain", "link", "text"]

  /** An `<a>` element as the HTML parser hands it over: its `href` attribute, if any, and its text. */
  datatype Anchor = Anchor(href: Option<string>, text: string)

  /**
   * `urllib.parse.urljoin(base, href)`: reference resolution (RFC 3986,
   * section 5.2), left uninterpreted; None when it raises (a malformed
   * reference such as an unclosed IPv6 bracket raises ValueError).
   */
  type UrlJoin = (string, Option<string>) -> Option<string>

  /** `urllib.parse.urlparse(url)[1]`: the network-location part, left uninterpreted; None when it raises. */
  type NetLoc = string -> Option<string>

  /** `dict(zip(params.keys(), input))` with the `'*'` default for `properties`. */
  function MapInput(input: seq<P.Value>): map<string, P.Value> {
    P.WithDefault(P.Zip(ParamNames, input), "properties", P.Str("*"))
  }

  /**
   * The first three inputs become `urls`, `search` and `properties`; a
   * missing or null `properties` is `'*'`, a missing `urls` or `search` is absent,
   * and inputs past the third are dropped.
   */
  lemma MapInputSpec(input: seq<P.Value>)
    ensures var m := MapInput(input);
      && ("urls" in m <==> |input| >= 1)
      && ("search" in m <==> |input| >= 2)
      && (|input| >= 1 ==> m["urls"] == input[0])
      && (|input| >= 2 ==> m["search"] == input[1])
      && m["properties"] == (if |input| >= 3 && input[2] != P.Null then input[2] else P.Str("*"))
      && m.Keys <= {"urls", "search", "properties"}
  {
    P.ZipAt(ParamNames, input);
    var z := P.Zip(ParamNames, input);
    assert ParamNames[0] == "urls" && ParamNames[1] == "search" && ParamNames[2] == "properties";
    if |input| == 0 {
      assert z.Keys == {};
    } else if |input| == 1 {
      assert z.Keys == {"urls"};
    } else if |input| == 2 {
      assert z.Keys == {"urls", "search"};
    } else {
      assert z.Keys == {"urls", "search", "properties"};
    }
  }

  /** An explicit null for `properties` takes the default, so every field is returned. */
  lemma NullPropertiesIsWildcard(urls: P.Value, search: P.Value)
    ensures P.ListParam(P.ToList(MapInput([urls, search, P.Null])["properties"])) == Ok(["*"])
    ensures ResolveProperties(["*"], Fields) == Fields
  {
    assert MapInput([urls, search, P.Null])["properties"] == P.Str("*") by {
      MapInputSpec([urls, search, P.Null]);
    }
    assert ',' !in "*";
    P.ListParamSpec("properties", P.Str("*"));
    SplitPlain("*", ',');
    assert NormalizeName("*") == "*" by {
      assert NoUpper("*") && NoEdgeSpace("*");
      CleanNameFixed("*");
    }
    ResolvePropertiesSpec(["*"], Fields);
  }

  /** The whole anchor text, normalised, contains the (already normalised) search text. */
  predicate Matches(a: Anchor, cleaned: string) {
    Contains(NormalizeSpaces(a.text), cleaned)
  }

  function MatchesIn(cleaned: string): Anchor -> bool {
    a => Matches(a, cleaned)
  }

  /** The matching anchors, in document order. */
  function MatchingAnchors(anchors: seq<Anchor>, cleaned: string): seq<Anchor> {
    Filter(anchors, MatchesIn(cleaned))
  }

  /**
   * The matching anchors are exactly the anchors at the matching positions,
   * every matching position is taken, and positions increase: a filter that
   * keeps document order.
   */
  lemma MatchingAnchorsSpec(anchors: seq<Anchor>, cleaned: string)
    ensures var m, idx := MatchingAnchors(anchors, cleaned), FilterIndices(anchors, MatchesIn(cleaned));
      && |m| == |idx|
      && (forall k :: 0 <= k < |idx| ==> idx[k] < |anchors| && m[k] == anchors[idx[k]])
      && (forall k, l :: 0 <= k < l < |idx| ==> idx[k] < idx[l])
      && (forall i :: 0 <= i < |anchors| ==> (i in idx <==> Matches(anchors[i], cleaned)))
  {
    FilterSpec(anchors, MatchesIn(cleaned));
  }

  /** Every anchor matches the empty search text. */
  lemma BlankSearchKeepsAll(anchors: seq<Anchor>)
    ensures MatchingAnchors(anchors, "") == anchors
  {
    forall i | 0 <= i < |anchors| ensures MatchesIn("")(anchors[i]) {
      assert "" <= NormalizeSpaces(anchors[i].text);
    }
    FilterKeepsAll(anchors, MatchesIn(""));
  }

  lemma {:induction false} WordsOfSpaces(s: string)
    requires AllSpace(s)
    ensures Words(s) == []
  {
    if s != [] {
      WordsOfSpaces(s[1..]);
    }
  }

  /** A search text made of whitespace only normalises to the empty text. */
  lemma BlankSearchNormalizesEmpty(s: string)
    requires AllSpace(s)
    ensures NormalizeSpaces(s) == ""
  {
    WordsOfSpaces(s);
  }

  /**
   * The record a matching anchor becomes: the resolved link, its network
   * location, and the raw text; None when resolving or parsing the link raises.
   */
  function LinkRecord(a: Anchor, pageUrl: string, join: UrlJoin, netloc: NetLoc): Option<map<string, string>> {
    match join(pageUrl, a.href)
    case None => None
    case Some(link) =>
      match netloc(link)
      case None => None
      case Some(domain) => Some(map["domain" := domain, "link" := link, "text" := a.text])
  }

  /** `[{'domain': ..., 'link': ..., 'text': ...}.get(p, '') for p in properties]`. */
  function LinkRow(a: Anchor, pageUrl: string, props: seq<string>, join: UrlJoin, netloc: NetLoc): (row: Option<seq<string>>)
    ensures row.Some? ==> |row.value| == |props|
  {
    match LinkRecord(a, pageUrl, join, netloc)
    case None => None
    case Some(record) => Some(Project(record, props, ""))
  }

  /**
   * A link row fails exactly when `urljoin` or `urlparse` raises; otherwise
   * it has one entry per requested property: the domain, the resolved link
   * or the anchor's raw (not normalised) text for those three names, and
   * the empty string for any other name.
   */
  lemma LinkRowSpec(a: Anchor, pageUrl: string, props: seq<string>, join: UrlJoin, netloc: NetLoc)
    ensures var row, link := LinkRow(a, pageUrl, props, join, netloc), join(pageUrl, a.href);
      && (row.None? <==> link.None? || netloc(link.value).None?)
      && (row.Some? ==>
            && |row.value| == |props|
            && forall j :: 0 <= j < |props| ==>
              row.value[j] == (if props[j] == "domain" then netloc(link.value).value
                               else if props[j] == "link" then link.value
                               else if props[j] == "text" then a.text
                               else ""))
  {
  }

  /** The rows of the anchors `m`, built in order; None as soon as one anchor's link raises. */
  function RowsFor(m: seq<Anchor>, pageUrl: string, props: seq<string>, join: UrlJoin, netloc: NetLoc): (r: Option<seq<seq<string>>>)
    ensures r.Some? ==> |r.value| == |m| && forall k :: 0 <= k < |r.value| ==> |r.value[k]| == |props|
  {
    if m == [] then Some([])
    else
      match RowsFor(m[..|m| - 1], pageUrl, props, join, netloc)
      case None => None
      case Some(rows) =>
        match LinkRow(m[|m| - 1], pageUrl, props, join, netloc)
        case None => None
        case Some(row) => Some(rows + [row])
  }

  /** The rows exist exactly when every anchor's link resolves; then row k is anchor k's row. */
  lemma {:induction false} RowsForSpec(m: seq<Anchor>, pageUrl: string, props: seq<string>, join: UrlJoin, netloc: NetLoc)
    ensures var r := RowsFor(m, pageUrl, props, join, netloc);
      && (r.Some? <==> forall k :: 0 <= k < |m| ==> LinkRow(m[k], pageUrl, props, join, netloc).Some?)
      && (r.Some? ==>
            && |r.value| == |m|
            && forall k :: 0 <= k < |m| ==> r.value[k] == LinkRow(m[k], pageUrl, props, join, netloc).value)
  {
    if m != [] {
      var init := m[..|m| - 1];
      RowsForSpec(init, pageUrl, props, join, netloc);
      assert forall k :: 0 <= k < |init| ==> init[k] == m[k];
    }
  }

  lemma RowsForSnoc(m: seq<Anchor>, a: Anchor, pageUrl: string, props: seq<string>, join: UrlJoin, netloc: NetLoc)
    ensures RowsFor(m + [a], pageUrl, props, join, netloc)
         == match RowsFor(m, pageUrl, props, join, netloc)
            case None => None
            case Some(rows) =>
              match LinkRow(a, pageUrl, props, join, netloc)
              case None => None
              case Some(row) => Some(rows + [row])
  {
    assert (m + [a])[..|m|] == m;
  }

  /** What `parseContent` returns, or None when it raises: one row per matching anchor, in document order. */
  function LinkRows(anchors: seq<Anchor>, pageUrl: string, searchText: string, props: seq<string>,
                    join: UrlJoin, netloc: NetLoc): Option<seq<seq<string>>>
  {
    RowsFor(MatchingAnchors(anchors, NormalizeSpaces(searchText)), pageUrl, props, join, netloc)
  }

  /**
   * `parseContent`: re-normalises the search text and appends a row per
   * matching anchor; the first matching anchor whose link cannot be
   * resolved or parsed raises out of the loop.
   */
  method ParseContent(anchors: seq<Anchor>, pageUrl: string, searchText: string, props: seq<string>,
                      join: UrlJoin, netloc: NetLoc) returns (result: Option<seq<seq<string>>>)
    ensures result == LinkRows(anchors, pageUrl, searchText, props, join, netloc)
  {
    var rows: seq<seq<string>> := [];
    var cleaned := NormalizeSpaces(searchText);
    for i := 0 to |anchors|
      invariant RowsFor(MatchingAnchors(anchors[..i], cleaned), pageUrl, props, join, netloc) == Some(rows)
    {
      var item := anchors[i];
      var cleanedAnchor := NormalizeSpaces(item.text);
      ParseStep(anchors, i, cleaned, pageUrl, props, join, netloc);
      if Contains(cleanedAnchor, cleaned) {
        RowsForSnoc(MatchingAnchors(anchors[..i], cleaned), item, pageUrl, props, join, netloc);
        var link := join(pageUrl, item.href);
        if link.None? {
          RowsForPrefix(anchors, i + 1, cleaned, pageUrl, props, join, netloc);
          return None;
        }
        var domain := netloc(link.value);
        if domain.None? {
          RowsForPrefix(anchors, i + 1, cleaned, pageUrl, props, join, netloc);
          return None;
        }
        var row := Project(map["domain" := domain.value, "link" := link.value, "text" := item.text], props, "");
        rows := rows + [row];
      }
    }
    assert anchors[..|anchors|] == anchors;
    return Some(rows);
  }

  /** One more anchor adds its row exactly when it matches. */
  lemma ParseStep(anchors: seq<Anchor>, i: nat, cleaned: string, pageUrl: string, props: seq<string>,
                  join: UrlJoin, netloc: NetLoc)
    requires i < |anchors|
    ensures RowsFor(MatchingAnchors(anchors[..i + 1], cleaned), pageUrl, props, join, netloc)
         == if Matches(anchors[i], cleaned)
            then RowsFor(MatchingAnchors(anchors[..i], cleaned) + [anchors[i]], pageUrl, props, join, netloc)
            else RowsFor(MatchingAnchors(anchors[..i], cleaned), pageUrl, props, join, netloc)
  {
    var m0 := MatchingAnchors(anchors[..i], cleaned);
    assert MatchingAnchors(anchors[..i + 1], cleaned) == m0 + (if Matches(anchors[i], cleaned) then [anchors[i]] else []) by {
      FilterSnoc(anchors, i, MatchesIn(cleaned));
      assert MatchesIn(cleaned)(anchors[i]) == Matches(anchors[i], cleaned);
    }
    if !Matches(anchors[i], cleaned) {
      assert m0 + [] == m0;
    }
  }

  /** Once the anchors up to n have raised, the whole page raises. */
  lemma {:induction false} RowsForPrefix(anchors: seq<Anchor>, n: nat, cleaned: string, pageUrl: string, props: seq<string>,
                                         join: UrlJoin, netloc: NetLoc)
    requires n <= |anchors| && RowsFor(MatchingAnchors(anchors[..n], cleaned), pageUrl, props, join, netloc).None?
    ensures RowsFor(MatchingAnchors(anchors, cleaned), pageUrl, props, join, netloc).None?
    decreases |anchors| - n
  {
    if n < |anchors| {
      ParseStep(anchors, n, cleaned, pageUrl, props, join, netloc);
      RowsForSnoc(MatchingAnchors(anchors[..n], cleaned), anchors[n], pageUrl, props, join, netloc);
      RowsForPrefix(anchors, n + 1, cleaned, pageUrl, props, join, netloc);
    } else {
      assert anchors[..n] == anchors;
    }
  }

  /**
   * The handler normalises the search text before `parseContent` normalises
   * it again; by idempotence the second pass changes nothing.
   */
  lemma RenormalizingChangesNothing(anchors: seq<Anchor>, pageUrl: string, search: string, props: seq<string>,
                                    join: UrlJoin, netloc: NetLoc)
    ensures LinkRows(anchors, pageUrl, NormalizeSpaces(search), props, join, netloc)
         == RowsFor(MatchingAnchors(anchors, NormalizeSpaces(search)), pageUrl, props, join, netloc)
  {
    NormalizeSpacesIdempotent(search);
  }

  /** `fetch`: the page's rows, or no rows when the request, the decoding, the parse or a link raised. */
  function PageRows(pageUrl: string, page: Option<seq<Anchor>>, searchText: string, props: seq<string>,
                    join: UrlJoin, netloc: NetLoc): (rows: seq<seq<string>>)
    ensures page.None? ==> rows == []
    ensures forall k :: 0 <= k < |rows| ==> |rows[k]| == |props|
  {
    match page
    case None => []
    case Some(anchors) =>
      match LinkRows(anchors, pageUrl, searchText, props, join, netloc)
      case None => []
      case Some(rows) => rows
  }

  /**
   * A page contributes one row per matching anchor, in document order, when
   * the links of all of them resolve; a failed request, or a single
   * matching anchor whose link raises, makes it contribute nothing.
   */
  lemma PageRowsSpec(pageUrl: string, page: Option<seq<Anchor>>, searchText: string, props: seq<string>,
                     join: UrlJoin, netloc: NetLoc)
    ensures page.None? ==> PageRows(pageUrl, page, searchText, props, join, netloc) == []
    ensures page.Some? ==>
      var m, rows := MatchingAnchors(page.value, NormalizeSpaces(searchText)), PageRows(pageUrl, page, searchText, props, join, netloc);
      && ((exists k :: 0 <= k < |m| && LinkRow(m[k], pageUrl, props, join, netloc).None?) ==> rows == [])
      && ((forall k :: 0 <= k < |m| ==> LinkRow(m[k], pageUrl, props, join, netloc).Some?) ==>
            && |rows| == |m|
            && forall k :: 0 <= k < |m| ==> rows[k] == LinkRow(m[k], pageUrl, props, join, netloc).value)
  {
    if page.Some? {
      RowsForSpec(MatchingAnchors(page.value, NormalizeSpaces(searchText)), pageUrl, props, join, netloc);
    }
  }

  /** A matching anchor whose link raises empties its whole page, even if other anchors resolve. */
  lemma UnresolvableLinkEmptiesPage(anchors: seq<Anchor>, i: nat, pageUrl: string, searchText: string, props: seq<string>,
                                    join: UrlJoin, netloc: NetLoc)
    requires i < |anchors| && Matches(anchors[i], NormalizeSpaces(searchText))
    requires LinkRow(anchors[i], pageUrl, props, join, netloc).None?
    ensures PageRows(pageUrl, Some(anchors), searchText, props, join, netloc) == []
  {
    var cleaned := NormalizeSpaces(searchText);
    MatchingAnchorsSpec(anchors, cleaned);
    var m, idx := MatchingAnchors(anchors, cleaned), FilterIndices(anchors, MatchesIn(cleaned));
    assert i in idx;
    var k :| 0 <= k < |idx| && idx[k] == i;
    assert m[k] == anchors[i];
    PageRowsSpec(pageUrl, Some(anchors), searchText, props, join, netloc);
  }

  method Fetch(pageUrl: string, page: Option<seq<Anchor>>, searchText: string, props: seq<string>,
               join: UrlJoin, netloc: NetLoc) returns (rows: seq<seq<string>>)
    ensures rows == PageRows(pageUrl, page, searchText, props, join, netloc)
  {
    match page
    case None =>
      rows := [];
    case Some(anchors) =>
      var parsed := ParseContent(anchors, pageUrl, searchText, props, join, netloc);
      rows := if parsed.Some? then parsed.value else [];
  }

  /** `fetch` for one URL and what its request produced, with the search fixed. */
  function FetchFor(searchText: string, props: seq<string>, join: UrlJoin, netloc: NetLoc): (string, Option<seq<Anchor>>) -> seq<seq<string>> {
    (u, p) => PageRows(u, p, searchText, props, join, netloc)
  }

  /** The per-URL results, in URL order. */
  function AllPageRows(urls: seq<string>, pages: seq<Option<seq<Anchor>>>, searchText: string, props: seq<string>,
                       join: UrlJoin, netloc: NetLoc): seq<seq<seq<string>>>
    requires |pages| == |urls|
  {
    ZipWith(urls, pages, FetchFor(searchText, props, join, netloc))
  }

  /**
   * `fetch_all`: one task per URL, gathered in input order and chained.
   * `pages[i]` is what the request for `urls[i]` produced.
   */
  method FetchAll(urls: seq<string>, pages: seq<Option<seq<Anchor>>>, searchText: string, props: seq<string>,
                  join: UrlJoin, netloc: NetLoc) returns (result: seq<seq<string>>)
    requires |pages| == |urls|
    ensures result == Flatten(AllPageRows(urls, pages, searchText, props, join, netloc))
  {
    var tasks: seq<seq<seq<string>>> := [];
    for i := 0 to |urls|
      invariant tasks == AllPageRows(urls[..i], pages[..i], searchText, props, join, netloc)
    {
      var rows := Fetch(urls[i], pages[i], searchText, props, join, netloc);
      ZipWithSnoc(urls, pages, FetchFor(searchText, props, join, netloc), i);
      tasks := tasks + [rows];
    }
    assert urls[..|urls|] == urls && pages[..|pages|] == pages;
    result := Flatten(tasks);
  }

  /**
   * The chained result has as many rows as the pages together, and the
   * rows of page i follow all rows of the pages before it, in their order.
   */
  lemma FetchAllOrder(urls: seq<string>, pages: seq<Option<seq<Anchor>>>, searchText: string, props: seq<string>,
                      join: UrlJoin, netloc: NetLoc, i: nat, k: nat)
    requires |pages| == |urls| && i < |urls|
    requires k < |AllPageRows(urls, pages, searchText, props, join, netloc)[i]|
    ensures var all := AllPageRows(urls, pages, searchText, props, join, netloc);
      && |Flatten(all)| == SumLengths(all)
      && SumLengths(all[..i]) + k < |Flatten(all)|
      && Flatten(all)[SumLengths(all[..i]) + k] == all[i][k]
      && all[i] == PageRows(urls[i], pages[i], searchText, props, join, netloc)
  {
    var all := AllPageRows(urls, pages, searchText, props, join, netloc);
    FlattenLength(all);
    FlattenAt(all, i, k);
  }

  /** Tolerance: a page that failed, or matched nothing, can be dropped from the batch without changing the output. */
  lemma FailedPageContributesNothing(urls: seq<string>, pages: seq<Option<seq<Anchor>>>, searchText: string,
                                     props: seq<string>, join: UrlJoin, netloc: NetLoc, i: nat)
    requires |pages| == |urls| && i < |urls| && PageRows(urls[i], pages[i], searchText, props, join, netloc) == []
    ensures Flatten(AllPageRows(urls, pages, searchText, props, join, netloc))
         == Flatten(AllPageRows(urls[..i] + urls[i + 1..], pages[..i] + pages[i + 1..], searchText, props, join, netloc))
  {
    var all := AllPageRows(urls, pages, searchText, props, join, netloc);
    assert all == all[..i] + [[]] + all[i + 1..] by {
      assert all[i] == [];
    }
    DropPage(urls, pages, searchText, props, join, netloc, i);
    FlattenSkipsEmpty(all[..i], all[i + 1..]);
  }

  /** Leaving URL i out of the batch leaves out its per-page result and nothing else. */
  lemma DropPage(urls: seq<string>, pages: seq<Option<seq<Anchor>>>, searchText: string,
                 props: seq<string>, join: UrlJoin, netloc: NetLoc, i: nat)
    requires |pages| == |urls| && i < |urls|
    ensures var all := AllPageRows(urls, pages, searchText, props, join, netloc);
      AllPageRows(urls[..i] + urls[i + 1..], pages[..i] + pages[i + 1..], searchText, props, join, netloc)
        == all[..i] + all[i + 1..]
  {
    ZipWithDrop(urls, pages, FetchFor(searchText, props, join, netloc), i);
  }

  /**
   * The handler after validation: strip the URLs, normalise the search
   * text, resolve the properties, fetch every page and dump the rows.
   */
  method Handle(urls: seq<string>, search: string, properties: seq<string>, pages: seq<Option<seq<Anchor>>>,
                join: UrlJoin, netloc: NetLoc) returns (output: string)
    requires |pages| == |urls|
    ensures var stripped := seq(|urls|, i requires 0 <= i < |urls| => Strip(urls[i]));
      output == DumpsRows(Flatten(AllPageRows(stripped, pages, NormalizeSpaces(search),
                                              ResolveProperties(properties, Fields), join, netloc)))
  {
    var searchUrls := seq(|urls|, i requires 0 <= i < |urls| => Strip(urls[i]));
    var searchText := NormalizeSpaces(search);
    var props := ResolveProperties(properties, Fields);
    var result := FetchAll(searchUrls, pages, searchText, props, join, netloc);
    output := DumpsRows(result);
  }
}
