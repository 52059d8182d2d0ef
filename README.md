# Web content handlers of functions-web, modelled in Dafny

This project models five handlers from the flexiodata functions-web
repository. Each handler is a serverless function. It maps a positional
JSON argument list onto named parameters, validates and coerces them with
Cerberus, fetches one or more URLs and writes a JSON document to the
function's output.

| handler | what it returns |
|---|---|
| `web-extract-link.py` | `[domain, link, text]`-style rows, one per `<a>` whose normalised text contains the normalised search string, pages chained in URL order; a page that fails contributes no rows |
| `web-newspaper.py` | one row holding the requested article properties, falsy values written as `''`, with a `*` wildcard |
| `newspaper.py` | the older variant of the same: a flat list of columns, no wildcard, `None` kept as JSON `null` |
| `web-csv.py` | a header row taken from the CSV files, then every data row of every file projected onto it, streamed to the output piece by piece |
| `web-rss.py` | `[title, link, pubDate, description]` per feed item, feeds chained in URL order |

The modules follow that structure:

- **`Outcomes`** (`common.dfy`) holds `Option`, `Result` and the Python exception kinds the handlers raise.
- **`Params`** (`params.dfy`) holds the shared parameter machinery. It covers JSON argument values, `dict(zip(...))`, Cerberus defaults, `to_list` with `itertools.chain.from_iterable`, and `validator_list` with its exact messages. All five files carry identical copies of that code, so `Params` models it once. The rows below cite the copy in `web-extract-link.py`.
- **`Text`** (`text.dfy`) holds the ASCII string operations the handlers call. These are `lower`, `strip`, `split(',')`, `split()` with `' '.join`, and the substring test `in`.
- **`Aggregate`** (`aggregate.dfy`) holds chaining of per-URL results (`Flatten`) and filtering.
- **`Json`** (`json.dfy`) is an encoder for the string arrays the handlers dump.
- **`Projection`** (`projection.dfy`) covers property-name normalisation and the `*` wildcard.
- **The handlers:** `LinkExtract`, `ArticleInfo` (article record and `isoformat`/`to_string`), `WebNewspaper`, `Newspaper`, `CsvReader` and `RssReader`.

Each handler is modelled in the form of its source:

- **Loops become methods.** Each method is proved equal to a specification function: `ParseContent`, `FetchAll`, `ParseFeed`, `BuildInfo`, and the CSV passes `ChooseSchema`, `EmitFile` and `EmitLoop` (whose text `EmitRows` restates as `EmitText`).
- **Stateful objects become classes.** In `web-csv.py`, the response stream, the temporary file and the output are classes whose methods update their fields.
- **Library parsers are inputs.** BeautifulSoup, `newspaper.Article`, `csv.DictReader` and the HTTP client are not modelled. What they hand over becomes the model's input: anchors as `Anchor(href, text)`, feed items as four optional strings, CSV rows as `CsvRow(keys, cells)` through a `Decode` function, which also says whether the reader raised, and articles as an `Article` record.

Some behaviours of the code are easy to miss when reading it:

- **CSV header.** The header `web-csv.py` writes is the key list of the first data row of the *last* file that has one, because the pass at lines 57-64 overwrites `properties` once per file (`CsvReader.LaterFileWins`).
- **No per-URL tolerance in CSV and RSS.** `web-csv.py` and `web-rss.py` catch no per-URL error, so one failing URL fails the whole call. Only `web-extract-link.py` drops failing pages, in the `try` of `fetch` at lines 99-104 (`LinkExtract.FailedPageContributesNothing`).
- **CSV reader errors.** `web-csv.py` writes `[` at line 54 before any file is decoded. Bytes that are not valid UTF-8, or one of the few inputs `csv` rejects (its default dialect is not strict, so malformed quoting is read rather than rejected; a field over the size limit raises), raise after that, and in the emit pass also after the header and the rows read before the error (`CsvReader.Handle`, `CsvReader.EmitTextStops`).
- **Lists of URLs.** `to_list` chains a list of URL strings one level, at web-extract-link.py:155-156, so it yields the characters of the strings, not the strings (`Params.ToListOfStrings`, `CsvReader.UrlListBecomesCharacters`).
- **Missing dates.** `newspaper.py` writes a missing publish date as `null`, not `''` (`Newspaper.PublishDateRendering`).

## Model

| member | source | states |
|---|---|---|
| Params.ToList | web-extract-link.py:150-157 | a string always coerces to a list of strings; any value that is neither string nor list coerces to None |
| Params.ToListOfString | web-extract-link.py:153-154 | a string becomes one piece per comma plus one, no piece holds a comma, and joining the pieces with commas gives the string back |
| Params.ChainIsFlatten | web-extract-link.py:155-156 | chaining succeeds exactly when every element is iterable, and then it is the concatenation of the elements' iterations |
| Params.ToListOfStrings | web-extract-link.py:155-156 | a list of strings coerces to the single-character strings of the concatenated strings |
| Params.ToListOfList | web-extract-link.py:155-156 | chaining a list raises exactly when some item is neither a string nor a list |
| Params.ItemErrorsShape | web-extract-link.py:136-140 | one "only string values" error per non-string item, and none exactly when all items are strings |
| Params.ValidatorList | web-extract-link.py:133-141 | the validator passes exactly a string or a list of strings, and every error it reports names the validated field |
| Params.ValidatorListSpec | web-extract-link.py:133-141 | strings pass; a list reports one error per non-string item; anything else gets the single "string or list" error |
| Params.CoercedStringValidates | web-extract-link.py:133-135 | the list a string coerces to always passes the validator |
| Params.ListParam | web-extract-link.py:57-61 | a coerced list parameter is accepted exactly when coercion succeeded with a list of strings; otherwise the handler raises ValueError |
| Params.ListParamSpec | web-extract-link.py:52-61 | a string argument is accepted as its comma-split pieces; a coerced list is accepted exactly when the validator reports nothing |
| Params.Zip | web-extract-link.py:55 | the mapped input has exactly the first min(#names, #arguments) parameter names as keys |
| Params.ZipAt | web-extract-link.py:55 | the i-th argument is bound to the i-th parameter name, and names past the last argument are absent |
| Params.WithDefault | web-extract-link.py:54 | a default fills in a missing key, and also an explicit null since no field is `nullable`; every other given value is kept |
| Projection.NormalizeName | web-extract-link.py:76 | a normalised property name has no upper-case letter and no surrounding white space |
| Projection.CleanNameFixed | web-extract-link.py:76 | a name without capitals or surrounding white space is left unchanged by normalisation |
| Projection.NormalizeNameIdempotent | web-extract-link.py:76 | normalising a property name twice is the same as once |
| Projection.ResolveProperties | web-extract-link.py:76-80 | the result is either the declared property list or one normalised name per requested name, in order |
| Projection.ResolvePropertiesSpec | web-extract-link.py:76-80 | a lone `*` expands to the declared property list; otherwise the result is the normalised names, one per requested name, in order |
| Projection.ResolveIdempotent | web-extract-link.py:72-80 | resolving an already resolved property list changes nothing |
| Text.LowerChar | web-extract-link.py:76 | lower-casing a character leaves no upper-case letter, keeps other characters and keeps white space |
| Text.Lower | web-extract-link.py:76 | `lower()` leaves no capitals, agrees with its argument up to case, keeps white space where it was, and is the identity on a string without capitals |
| Text.Strip | web-extract-link.py:65 | a stripped string has no white space at either end |
| Text.StripSpec | web-extract-link.py:65 | `strip()` returns a substring with only white space cut before and after it |
| Text.StripKeepsClean | web-extract-link.py:76 | stripping a string without edge white space changes nothing |
| Text.StripNoUpper | web-extract-link.py:76 | stripping keeps a lower-case string lower-case |
| Text.LowerKeepsShape | web-extract-link.py:69 | lower-casing keeps the spacing shape of a string: no edge space, no runs of white space, blanks as the only white space |
| Text.Split | web-extract-link.py:153-154 | `split(',')` gives at least one piece, and no piece holds the separator |
| Text.SplitJoin | web-extract-link.py:153-154 | joining the pieces of `split(',')` with the separator gives the string back |
| Text.SplitShape | web-extract-link.py:153-154 | `split(',')` gives one more piece than the string has commas, and no piece holds a comma |
| Text.SplitPlain | web-extract-link.py:153-154 | a string without the separator splits into itself alone |
| Text.SplitAfterPiece | web-extract-link.py:153-154 | a separator-free first piece is split off exactly |
| Text.JoinSplit | web-newspaper.py:95 | splitting the comma join of at least one comma-free piece gives the pieces back |
| Text.Words | web-extract-link.py:69 | `split()` yields non-empty words without white space |
| Text.NormalizeSpaces | web-extract-link.py:69 | the cleaned search text has single inner blanks, no edge blanks, no other white space and no capitals |
| Text.WordsJoin | web-extract-link.py:69 | a string already in cleaned shape splits into words that join back to it |
| Text.NormalizedFixed | web-extract-link.py:112 | cleaning an already cleaned string changes nothing |
| Text.NormalizeSpacesIdempotent | web-extract-link.py:69-112 | cleaning the search text twice, as the handler and `parseContent` both do, equals cleaning it once |
| Text.ContainsAt | web-extract-link.py:125 | `needle in hay` holds exactly when the needle occurs at some offset of the haystack |
| Aggregate.FlattenLength | web-extract-link.py:96 | the chained result has as many rows as all per-URL results together |
| Aggregate.FlattenAt | web-extract-link.py:96 | row k of the i-th page sits at offset "rows of pages before i" + k of the chained result |
| Aggregate.FlattenSkipsEmpty | web-extract-link.py:103-104 | an empty per-URL result leaves the chained result unchanged |
| Aggregate.FilterIndicesSpec | web-extract-link.py:116-125 | the kept positions are in range, increasing, and exactly those whose element matches |
| Aggregate.FilterSpec | web-extract-link.py:116-129 | the kept elements are exactly the matching ones, in their original order |
| Aggregate.FilterKeepsAll | web-extract-link.py:125 | when every element matches, the filter keeps everything |
| Json.ShortEscapeInverse | web-extract-link.py:86 | every short escape `json.dumps` writes reads back as its character, and quote and backslash always have one |
| Json.EscapeRoundTrip | web-extract-link.py:86 | the escaped form of any string inside a JSON string literal reads back as the string |
| Json.Dumps | web-csv.py:69-75 | `json.dumps` of a list of strings, defined through `Encode` as a JSON array of quoted literals; it carries no contract of its own, and EscapeRoundTrip states that each literal reads back as its string |
| LinkExtract.MapInputSpec | web-extract-link.py:51-55 | the first three arguments become `urls`, `search`, `properties`; `properties` defaults to `*` when missing or null; nothing else is bound |
| LinkExtract.NullPropertiesIsWildcard | web-extract-link.py:54-80 | an explicit null for `properties` validates to `["*"]`, which resolves to all three fields |
| LinkExtract.MatchingAnchorsSpec | web-extract-link.py:116-125 | the selected anchors are exactly those whose cleaned text contains the cleaned search text, in document order |
| LinkExtract.BlankSearchKeepsAll | web-extract-link.py:112-125 | an empty cleaned search text matches every anchor |
| LinkExtract.WordsOfSpaces | web-extract-link.py:69 | a search string of white space only has no words |
| LinkExtract.BlankSearchNormalizesEmpty | web-extract-link.py:69 | a search string of white space only cleans to the empty string, so it matches every link |
| LinkExtract.LinkRowSpec | web-extract-link.py:126-128 | the row fails exactly when `urljoin` or `urlparse` raises; otherwise one entry per property: the link's network location, the joined link, the raw anchor text, or `''` for any other name |
| LinkExtract.LinkRow | web-extract-link.py:126-128 | a row that resolves has exactly one entry per requested property |
| LinkExtract.RowsFor | web-extract-link.py:116-129 | when every link resolves there is one row per anchor, each with one entry per requested property |
| LinkExtract.RowsForSpec | web-extract-link.py:116-129 | the rows exist exactly when every given anchor's link resolves, and then row k is anchor k's row |
| LinkExtract.ParseContent | web-extract-link.py:106-131 | the loop's rows are the rows of the matching anchors, in document order, or a failure when one of their links raises |
| LinkExtract.ParseStep | web-extract-link.py:116-129 | each anchor appends its row exactly when its cleaned text contains the cleaned search text |
| LinkExtract.RenormalizingChangesNothing | web-extract-link.py:112-125 | re-cleaning an already cleaned search text inside `parseContent` selects the same anchors |
| LinkExtract.Fetch | web-extract-link.py:98-104 | a failed request or a raising parse yields no rows; otherwise the page yields its parsed rows |
| LinkExtract.PageRows | web-extract-link.py:98-104 | a failed request gives no rows, and every row a page gives has one entry per requested property |
| LinkExtract.PageRowsSpec | web-extract-link.py:98-104 | a page gives one row per matching anchor in document order when all their links resolve, and nothing when the request failed or any of those links raises |
| LinkExtract.UnresolvableLinkEmptiesPage | web-extract-link.py:99-104 | a single matching anchor whose link raises empties its whole page |
| LinkExtract.FetchAll | web-extract-link.py:90-96 | the result is every page's rows chained in URL order |
| LinkExtract.FetchAllOrder | web-extract-link.py:93-96 | row k of the i-th URL's page appears at offset "rows of earlier URLs" + k of the output |
| LinkExtract.FailedPageContributesNothing | web-extract-link.py:96-104 | a URL whose page contributes no rows, say because its request failed, changes the output no more than leaving it out |
| LinkExtract.DropPage | web-extract-link.py:93-95 | leaving a URL out of the batch leaves out its per-page result and nothing else |
| LinkExtract.Handle | web-extract-link.py:63-88 | the output is the JSON dump of the chained rows for the stripped URLs, the cleaned search text and the resolved properties |
| ArticleInfo.Digits | web-newspaper.py:127-129 | a zero-padded field has exactly its width and only digits |
| ArticleInfo.DigitsRoundTrip | web-newspaper.py:127-129 | a zero-padded field reads back as its value when the value fits the width |
| ArticleInfo.IsoFormat | web-newspaper.py:127-129 | `isoformat` is 10 characters for a date, 19 for a datetime with zero microseconds, 26 otherwise |
| ArticleInfo.IsoFormatRoundTrip | web-newspaper.py:127-129 | the ISO text of every valid date or datetime parses back to the same value |
| ArticleInfo.ToString | web-newspaper.py:127-132 | `to_string` hands back unchanged every value `json.dumps` can already write |
| ArticleInfo.ToStringSerializes | web-newspaper.py:127-132 | after `to_string` every value is serialisable, a second application changes nothing, and a date's text reads back as the date |
| ArticleInfo.BuildInfo | web-newspaper.py:93-100 | the seven assignments build exactly the info map of the article |
| ArticleInfo.InfoShape | web-newspaper.py:93-100 | info has exactly the seven keys; every entry but publish_date is a string, the list fields comma-joined; publish_date is None exactly when the article has no date |
| ArticleInfo.JoinedListRoundTrip | web-newspaper.py:95-100 | a non-empty list of comma-free names joins to text that splits back to the list; an empty list joins to `''` |
| WebNewspaper.MapInputSpec | web-newspaper.py:51-54 | the first two arguments become `url` and `properties`; `properties` defaults to `title` when missing or null; nothing else is bound |
| WebNewspaper.TitleIsNormalized | web-newspaper.py:72 | the default property name is already normalised |
| WebNewspaper.DefaultIsTitle | web-newspaper.py:53-60 | with no `properties` argument the validated property list is `["title"]` |
| WebNewspaper.TitleResolves | web-newspaper.py:72-76 | the default list resolves to the title alone |
| WebNewspaper.ResultRowsSpec | web-newspaper.py:107 | exactly one row, one entry per property: the field's value unless falsy, else `''`; no entry is ever None |
| WebNewspaper.ResultRows | web-newspaper.py:107 | the result is exactly one row, with one entry per requested property |
| WebNewspaper.FalsyRendersEmpty | web-newspaper.py:107 | a missing publish date or empty title is written as `''` |
| WebNewspaper.WildcardRow | web-newspaper.py:62-76 | with `*` the row holds all seven fields in the property map's order |
| WebNewspaper.Handle | web-newspaper.py:78-115 | a failed fetch or parse raises RuntimeError; otherwise the output is the dumped result row |
| Newspaper.MapInputSpec | newspaper.py:45-48 | the first two arguments become `url` and `columns`; `columns` defaults to `title` when missing or null; nothing else is bound |
| Newspaper.NewspaperToList | newspaper.py:113-120 | as written, every list argument raises NameError; strings and other values coerce as in the other handlers |
| Newspaper.ListColumnsRejected | newspaper.py:47-54 | a list-valued `columns` always fails validation with ValueError, while the shared coercion would accept `["title"]` |
| Newspaper.StringColumnsAccepted | newspaper.py:116-117 | a string-valued `columns` is accepted as its comma-split pieces |
| Newspaper.Columns | newspaper.py:85-86 | the result holds one value per requested column |
| Newspaper.ColumnsSpec | newspaper.py:71-86 | one value per requested column: the field's value for a normalised field name, `''` for anything else |
| Newspaper.StarIsClean | newspaper.py:85 | `*` is left unchanged by lower-casing and trimming |
| Newspaper.StarIsUnknown | newspaper.py:85-86 | `*` is not a wildcard here and yields `''` |
| Newspaper.PublishDateRendering | newspaper.py:89 | a missing publish date is written as JSON null; a present one as ISO text that parses back to the date |
| Newspaper.Handle | newspaper.py:56-94 | a failed fetch or parse raises RuntimeError; otherwise the output is the dumped column list |
| CsvReader.MapInputSpec | web-csv.py:38-41 | the first argument alone becomes `urls` |
| CsvReader.UrlListBecomesCharacters | web-csv.py:115-118 | a list of two URL strings is accepted as the single characters of both URLs |
| CsvReader.ResponseStream.constructor | web-csv.py:93 | a response starts with its whole body unread |
| CsvReader.ResponseStream.Read | web-csv.py:95 | a read returns at most n bytes from the front of the body, and is empty only at the end |
| CsvReader.OverwriteSpec | web-csv.py:98 | writing at a position keeps the bytes before it, places the new bytes there and extends the file as needed; at the end it appends |
| CsvReader.TempFile.constructor | web-csv.py:92 | a temporary file starts empty, at position 0, open |
| CsvReader.TempFile.Write | web-csv.py:98 | a write overwrites at the position and advances it by the byte count |
| CsvReader.TempFile.Rewind | web-csv.py:99 | `seek(0)` keeps the contents and moves to the start |
| CsvReader.TempFile.ReadRest | web-csv.py:72-74 | reading returns the bytes from the position to the end and leaves the position at the end |
| CsvReader.TempFile.Close | web-csv.py:77 | closing keeps the contents and marks the file closed |
| CsvReader.Fetch | web-csv.py:89-100 | the new rewound file holds exactly the response body, written in non-empty chunks of at most 1024 bytes, and the body is consumed |
| CsvReader.FetchAll | web-csv.py:81-87 | succeeds exactly when every request succeeds, giving distinct fresh files holding the bodies in URL order; otherwise a fetch error |
| CsvReader.LastSchemaSpec | web-csv.py:57-64 | the header is the key list of the first data row of the last file that has one, or empty when no file has a data row |
| CsvReader.LastSchema | web-csv.py:57-64 | without any data row the header is empty; a non-empty header is the key list of the first data row of some file |
| CsvReader.HeaderOnlyKeepsSchema | web-csv.py:62-64 | a later file without data rows leaves the header unchanged |
| CsvReader.LaterFileWins | web-csv.py:58-64 | files with headers `a,b` then `a,c` give the header `["a","c"]` |
| CsvReader.CsvDocumentSpec | web-csv.py:53-79 | the document is `[`, then the header dump and every row's dump, comma-joined, then `]`, with exactly one row per data row of all the files |
| CsvReader.CsvDocument | web-csv.py:53-79 | the document written when every request succeeds and no reader raises; it carries no contract of its own, and CsvDocumentSpec states its shape |
| CsvReader.DataRowsOrder | web-csv.py:71-76 | row k of file i is output at offset "rows of earlier files" + k, projected onto the header |
| CsvReader.DataRowsShape | web-csv.py:74-75 | there are as many output rows as data rows, each with one entry per header column |
| CsvReader.DataRowAt | web-csv.py:71-76 | the projected row k of file i is found at offset "rows of earlier files" + k |
| CsvReader.ProjectRowSpec | web-csv.py:75 | each entry is the row's cell for that column, or `''` where the row has none |
| CsvReader.Output.constructor | web-csv.py:53 | the output starts empty |
| CsvReader.Output.Write | web-csv.py:54 | a write appends its text to the output |
| CsvReader.SchemaOutcomeSpec | web-csv.py:56-67 | the schema pass fails exactly when some file's reader raises before its first data row; otherwise it picks the last header |
| CsvReader.SchemaOutcome | web-csv.py:56-67 | the schema pass can fail only with a decode error, and only when some file's reader raises before yielding a data row |
| CsvReader.ChooseSchema | web-csv.py:56-67 | the schema pass returns its outcome and leaves every file rewound with its contents, also when a reader raised |
| CsvReader.EmitFile | web-csv.py:72-77 | emitting one file appends `,` plus the dump of each row the reader yields, and closes the file exactly when the reader did not raise |
| CsvReader.EmitTextComplete | web-csv.py:71-77 | without a reader error the emit pass writes every data row of every file, in file order |
| CsvReader.EmitText | web-csv.py:71-77 | the text the emit pass writes; it carries no contract of its own, and EmitTextComplete and EmitTextStops state what it is with and without a reader error |
| CsvReader.EmitTextStops | web-csv.py:71-77 | when file j is the first whose reader raises, the emit pass has written exactly the rows of files 0 to j |
| CsvReader.EmitLoop | web-csv.py:71-77 | each file in turn writes the text of its projected rows, up to and including the first file whose reader raised; that file stays open and exactly the files before it are closed |
| CsvReader.EmitRows | web-csv.py:71-77 | the data pass appends the rows of every file in file order up to the first reader error, and exactly the files before that error are closed |
| CsvReader.Handle | web-csv.py:49-79 | succeeds exactly when every request succeeds and no reader raises, then appends the whole document; a failed request writes nothing; a reader error leaves `[`, and in the emit pass also the header and the rows before the error |
| RssReader.MapInputSpec | web-rss.py:39-42 | the first argument alone becomes `urls` |
| RssReader.CommaSeparatedUrls | web-rss.py:14 | a comma-delimited URL string, as in the example at line 14, is accepted as its URLs in order whenever no URL holds a comma |
| RssReader.ParseFeed | web-rss.py:68-74 | the loop's result is the item rows in document order, or AttributeError at the first incomplete item |
| RssReader.FeedRowsSpec | web-rss.py:72-73 | a feed parses exactly when every item has all four children, then one four-entry row per item |
| RssReader.FeedRows | web-rss.py:72-73 | a parsed feed has one four-entry row per item, and a feed that fails to parse fails with AttributeError |
| RssReader.AllFeedRowsSpec | web-rss.py:55-61 | every feed must be fetched and parsed, and feed i's rows are its parsed items |
| RssReader.AllFeedRows | web-rss.py:55-61 | when all feeds succeed there is one table per feed, each row with four entries; a failure is a fetch error or an AttributeError |
| RssReader.FeedsResultSpec | web-rss.py:55-61 | succeeds exactly when all feeds succeed; the output is their rows in URL order, as many as all items together |
| RssReader.FeedsResult | web-rss.py:55-61 | the chained result can fail only with a fetch error or an AttributeError |
| RssReader.Fetch | web-rss.py:63-66 | a failed request is a fetch error; a fetched feed gives its parsed rows |
| RssReader.FetchAll | web-rss.py:55-61 | the gathered, chained result is `FeedsResult` of all feeds, whose properties FeedsResultSpec states |

## Left out

- HTTP requests, `asyncio` and `gather` are not modelled. Each URL's outcome is an input: a page, a feed, a response stream or an article, or None when the request failed. When several tasks fail, `gather` raises one of their errors; the model reports the first in URL order.
- Reading `flex.input`, `json.loads` of the argument list and its ValueError are not modelled; the handlers start from the decoded argument list. `flex.output.content_type` is not modelled.
- Parsing by BeautifulSoup (HTML and XML), `newspaper.Article` download and parse, and `csv.DictReader` tokenising are not modelled. The `utf-8-sig` BOM handling is left out with them. Their results are inputs. `Decode` stands for the CSV reader: it gives the rows read before any error and whether one was raised. Which bytes make it raise is not modelled: invalid UTF-8 does, and so do the few inputs the non-strict default dialect rejects, such as a field over the size limit.
- `urllib.parse.urljoin` and `urlparse(...)[1]` are uninterpreted function parameters. Each may fail (None), which stands for the ValueError they raise on a malformed URL.
- Cerberus is modelled only as far as these handlers use it: defaults, then coercion, then the custom validator, with ValueError for any failure. `required` and `type: string` are not modelled; the `url` and `search` arguments are taken as given strings.
- Json.Encode writes only the short escapes (`\"`, `\\`, `\n`, `\r`, `\t`, `\b`, `\f`), not the `\uXXXX` escapes `json.dumps` uses for other control and non-ASCII characters.
- Text.Lower and Text.Strip are ASCII-only: Unicode case mapping and Unicode white space are left out.
- ArticleInfo.IsoFormat does not model the time-zone suffix of aware datetimes.
- ArticleInfo.ToString follows `newspaper.py`, which imports both `datetime` and `Decimal`. `web-newspaper.py` imports only `datetime`, so a value reaching its Decimal test would raise NameError; the only value it hands to `to_string` is a date, which the first test settles. `web-extract-link.py` imports neither, so its `to_string` would raise NameError already at the date test (line 144). It is never called there, because `json.dumps` calls `default` only for values it cannot serialise and every value that handler dumps is a string.
- CsvReader.ChooseSchema models the schema pass as reading the whole file. The source stops after one row. Either way the file is rewound, so the emitted rows are the same.
- CsvReader.ResponseStream.Read has a deterministic body, but callers rely only on its contract, which allows any chunk size up to the limit.
- Params.Value has no JSON-object case. A top-level object would coerce to None, like the model's other non-list values. Inside a list argument, however, `chain.from_iterable` yields an object's keys, which are strings and pass `validator_list`. The model cannot express such an argument.
- `csv.DictReader` extra fields (the restkey `None` column) are not modelled: a `CsvRow` holds only the header's keys.
- `web-rss.py:53` writes the Python list itself, not a JSON dump; the model stops at the chained rows (RssReader.FetchAll).

## Findings

| source | as written | input that shows it | evidently intended | confidence | as-written member | corrected member |
|---|---|---|---|---|---|---|
| newspaper.py:113-120 | `to_list` calls `itertools.chain.from_iterable`, but the file's imports (lines 25-31) never import `itertools`; every list-valued `columns` raises NameError during coercion, so validation fails and the handler raises ValueError | `["https://www.flex.io", ["title"]]` | the shared `to_list` of the other handlers, which imports `itertools` and chains the list | not executed | Newspaper.NewspaperToList | Params.ToList |
