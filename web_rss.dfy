/**
 * The feed reader (web-rss.py): one `[title, link, pubDate, description]`
 * row per `<item>`, feeds chained in URL order, and no tolerance: a feed
 * that cannot be fetched, or an item missing one of the four children,
 * aborts the whole call.
 */
module RssReader {
  import opened Outcomes
  import opened Aggregate
  import Text
  import P = Params

  const ParamNames: seq<string> := ["urls"]

  /** An `<item>` as the XML parser hands it over: the text of each child, or None when the child is absent. */
  datatype FeedItem = FeedItem(title: Option<string>, link: Option<string>, pubDate: Option<string>, description: Option<string>)

  /** `dict(zip(params.keys(), input))`. */
  function MapInput(input: seq<P.Value>): map<string, P.Value> {
    P.Zip(ParamNames, input)
  }

  /** Only the first input is used, as `urls`; it is absent when the input is empty. */
  lemma MapInputSpec(input: seq<P.Value>)
    ensures var m := MapInput(input);
      && m.Keys == (if |input| >= 1 then {"urls"} else {})
      && (|input| >= 1 ==> m["urls"] == input[0])
  {
    P.ZipAt(ParamNames, input);
    assert ParamNames[0] == "urls";
    if |input| >= 1 {
      assert P.Min(|ParamNames|, |input|) == 1;
    }
  }

  /**
   * A comma-delimited URL string, as in the handler's second example, is
   * accepted as its URLs, in order, whenever no URL holds a comma.
   */
  lemma CommaSeparatedUrls(urls: seq<string>)
    requires |urls| >= 1 && forall i :: 0 <= i < |urls| ==> ',' !in urls[i]
    ensures P.ListParam(P.ToList(P.Str(Text.Join(urls, ",")))) == Ok(urls)
  {
    P.ListParamSpec("urls", P.Str(Text.Join(urls, ",")));
    Text.JoinSplit(urls, ',');
  }

  predicate Complete(it: FeedItem) {
    it.title.Some? && it.link.Some? && it.pubDate.Some? && it.description.Some?
  }

  /** `[i.title.text, i.link.text, i.pubDate.text, i.description.text]`; a missing child is None, whose `.text` raises AttributeError. */
  function ItemRow(it: FeedItem): Result<seq<string>> {
    if Complete(it) then Ok([it.title.value, it.link.value, it.pubDate.value, it.description.value])
    else Err(AttributeError)
  }

  /** The specification of `parseFeed`: the rows of the items in document order, or the first item's error. */
  function FeedRows(items: seq<FeedItem>): (r: Result<seq<seq<string>>>)
    ensures r.Ok? ==> |r.value| == |items| && forall i :: 0 <= i < |items| ==> |r.value[i]| == 4
    ensures r.Err? ==> r.error == AttributeError
  {
    if items == [] then Ok([])
    else
      match FeedRows(items[..|items| - 1])
      case Err(e) => Err(e)
      case Ok(rows) =>
        match ItemRow(items[|items| - 1])
        case Err(e) => Err(e)
        case Ok(row) => Ok(rows + [row])
  }

  /** `parseFeed`: appends a row per item; the first incomplete item raises. */
  method ParseFeed(items: seq<FeedItem>) returns (r: Result<seq<seq<string>>>)
    ensures r == FeedRows(items)
  {
    var result: seq<seq<string>> := [];
    for i := 0 to |items|
      invariant FeedRows(items[..i]) == Ok(result)
    {
      assert items[..i + 1][..i] == items[..i];
      var row := ItemRow(items[i]);
      if row.Err? {
        assert FeedRows(items[..i + 1]) == Err(AttributeError);
        FeedRowsPrefix(items, i + 1);
        return Err(AttributeError);
      }
      result := result + [row.value];
    }
    assert items[..|items|] == items;
    return Ok(result);
  }

  /** Once a prefix has failed, every longer prefix fails the same way. */
  lemma {:induction false} FeedRowsPrefix(items: seq<FeedItem>, n: nat)
    requires n <= |items| && FeedRows(items[..n]).Err?
    ensures FeedRows(items) == FeedRows(items[..n])
    decreases |items| - n
  {
    if n < |items| {
      assert items[..n + 1][..n] == items[..n];
      FeedRowsPrefix(items, n + 1);
    } else {
      assert items[..n] == items;
    }
  }

  /**
   * A feed parses exactly when every item has all four children; then it
   * gives one four-entry row per item, in document order.
   */
  lemma {:induction false} FeedRowsSpec(items: seq<FeedItem>)
    ensures FeedRows(items).Ok? <==> forall i :: 0 <= i < |items| ==> Complete(items[i])
    ensures FeedRows(items).Ok? ==>
      && |FeedRows(items).value| == |items|
      && forall i :: 0 <= i < |items| ==>
        FeedRows(items).value[i] == [items[i].title.value, items[i].link.value, items[i].pubDate.value, items[i].description.value]
  {
    if items != [] {
      var init := items[..|items| - 1];
      FeedRowsSpec(init);
      assert forall i :: 0 <= i < |init| ==> init[i] == items[i];
    }
  }

  /** The per-feed results, in URL order: None for a feed whose request failed. */
  function AllFeedRows(feeds: seq<Option<seq<FeedItem>>>): (r: Result<seq<seq<seq<string>>>>)
    ensures r.Ok? ==> |r.value| == |feeds| && forall i, k :: 0 <= i < |r.value| && 0 <= k < |r.value[i]| ==> |r.value[i][k]| == 4
    ensures r.Err? ==> r.error == FetchError || r.error == AttributeError
  {
    if feeds == [] then Ok([])
    else
      match AllFeedRows(feeds[..|feeds| - 1])
      case Err(e) => Err(e)
      case Ok(tables) =>
        match feeds[|feeds| - 1]
        case None => Err(FetchError)
        case Some(items) =>
          match FeedRows(items)
          case Err(e) => Err(e)
          case Ok(rows) => Ok(tables + [rows])
  }

  /** `fetch_all`: the chained rows of every feed, or the whole call fails. */
  function FeedsResult(feeds: seq<Option<seq<FeedItem>>>): (r: Result<seq<seq<string>>>)
    ensures r.Err? ==> r.error == FetchError || r.error == AttributeError
  {
    match AllFeedRows(feeds)
    case Err(e) => Err(e)
    case Ok(tables) => Ok(Flatten(tables))
  }

  predicate FeedOk(f: Option<seq<FeedItem>>) {
    f.Some? && FeedRows(f.value).Ok?
  }

  /**
   * No tolerance: the call succeeds exactly when every feed was fetched and
   * parsed; then feed i contributes its rows at position i.
   */
  lemma {:induction false} AllFeedRowsSpec(feeds: seq<Option<seq<FeedItem>>>)
    ensures AllFeedRows(feeds).Ok? <==> forall i :: 0 <= i < |feeds| ==> FeedOk(feeds[i])
    ensures AllFeedRows(feeds).Ok? ==>
      && |AllFeedRows(feeds).value| == |feeds|
      && forall i :: 0 <= i < |feeds| ==> AllFeedRows(feeds).value[i] == FeedRows(feeds[i].value).value
  {
    if feeds != [] {
      var init := feeds[..|feeds| - 1];
      AllFeedRowsSpec(init);
      assert forall i :: 0 <= i < |init| ==> init[i] == feeds[i];
    }
  }

  /**
   * On success the output holds the rows of every feed, feed after feed in
   * URL order, as many as all the feeds' items together.
   */
  lemma FeedsResultSpec(feeds: seq<Option<seq<FeedItem>>>)
    ensures FeedsResult(feeds).Ok? <==> forall i :: 0 <= i < |feeds| ==> FeedOk(feeds[i])
    ensures FeedsResult(feeds).Ok? ==>
      var tables := AllFeedRows(feeds).value;
      && FeedsResult(feeds).value == Flatten(tables)
      && |FeedsResult(feeds).value| == SumLengths(tables)
      && |tables| == |feeds|
      && forall i :: 0 <= i < |feeds| ==> |tables[i]| == |feeds[i].value|
  {
    AllFeedRowsSpec(feeds);
    if FeedsResult(feeds).Ok? {
      var tables := AllFeedRows(feeds).value;
      FlattenLength(tables);
      forall i | 0 <= i < |feeds| ensures |tables[i]| == |feeds[i].value| {
        FeedRowsSpec(feeds[i].value);
      }
    }
  }

  /** `fetch`: the request's items parsed, or FetchError when the request failed. */
  method Fetch(feed: Option<seq<FeedItem>>) returns (r: Result<seq<seq<string>>>)
    ensures feed.None? ==> r == Err(FetchError)
    ensures feed.Some? ==> r == FeedRows(feed.value)
  {
    match feed
    case None =>
      r := Err(FetchError);
    case Some(items) =>
      r := ParseFeed(items);
  }

  /** `fetch_all`: one task per URL, gathered in input order, then chained. */
  method FetchAll(feeds: seq<Option<seq<FeedItem>>>) returns (r: Result<seq<seq<string>>>)
    ensures r == FeedsResult(feeds)
  {
    var tasks: seq<seq<seq<string>>> := [];
    for i := 0 to |feeds|
      invariant AllFeedRows(feeds[..i]) == Ok(tasks)
    {
      assert feeds[..i + 1][..i] == feeds[..i];
      var content := Fetch(feeds[i]);
      if content.Err? {
        AllFeedRowsPrefix(feeds, i + 1);
        return Err(content.error);
      }
      tasks := tasks + [content.value];
    }
    assert feeds[..|feeds|] == feeds;
    return Ok(Flatten(tasks));
  }

  lemma {:induction false} AllFeedRowsPrefix(feeds: seq<Option<seq<FeedItem>>>, n: nat)
    requires n <= |feeds| && AllFeedRows(feeds[..n]).Err?
    ensures AllFeedRows(feeds) == AllFeedRows(feeds[..n])
    decreases |feeds| - n
  {
    if n < |feeds| {
      assert feeds[..n + 1][..n] == feeds[..n];
      AllFeedRowsPrefix(feeds, n + 1);
    } else {
      assert feeds[..n] == feeds;
    }
  }
}
