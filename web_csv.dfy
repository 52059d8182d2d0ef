/**
 * The CSV reader (web-csv.py): every URL's body is streamed into a
 * temporary file in 1024-byte chunks; a first pass over the files picks
 * the schema, a second streams `[`, the schema, one `,`-prefixed projected
 * row per data row and `]` into the output. There is no per-URL
 * tolerance: one failed request aborts the call before anything is written,
 * and a body the reader cannot decode aborts it after `[` and whatever rows
 * came before the error.
 */
module CsvReader {
  import opened Outcomes
  import opened Text
  import opened Aggregate
  import opened Json
  import opened Projection
  import P = Params

  const ParamNames: seq<string> := ["urls"]

  /** `dict(zip(params.keys(), input))`. */
  function MapInput(input: seq<P.Value>): map<string, P.Value> {
    P.Zip(ParamNames, input)
  }

  /** Only the first input is used, as `urls`; it is absent when the input is empty. */
  lemma MapInputSpec(input: seq<P.Value>)
    ensures var m := MapInput(input);
      && m.Keys == (if |input| >= 1 then {"urls"} else {})
      && (|input| >= 1 ==> m["urls"] == input[0])
  {
    P.ZipAt(ParamNames, input);
    assert ParamNames[0] == "urls";
    if |input| >= 1 {
      assert P.Min(|ParamNames|, |input|) == 1;
    }
  }

  /**
   * A list of URL strings as the `urls` argument is chained one level, so
   * each URL contributes its characters: the handler would request thirty
   * one-character "URLs" rather than the two files.
   */
  lemma UrlListBecomesCharacters()
    ensures var a, b := "https://x/a.csv", "https://x/b.csv";
      P.ListParam(P.ToList(P.List([P.Str(a), P.Str(b)])))
        == Ok(seq(|a + b|, i requires 0 <= i < |a + b| => [(a + b)[i]]))
  {
    var a, b := "https://x/a.csv", "https://x/b.csv";
    var vs := [P.Str(a), P.Str(b)];
    P.ToListOfStrings(vs);
    assert P.Texts(vs) == [a, b];
    assert P.Concat([a, b]) == a + b by {
      assert [a, b][1..] == [b];
      assert [b][1..] == [];
      assert P.Concat([b]) == b + P.Concat([]);
      assert b + "" == b;
    }
    var cs := P.Chars(a + b);
    assert P.AllStr(cs);
    assert P.Texts(cs) == seq(|a + b|, i requires 0 <= i < |a + b| => [(a + b)[i]]);
  }

  newtype Byte = x: int | 0 <= x < 256

  /** The read size `fetch` asks for. */
  const ChunkSize: nat := 1024

  // ---------------------------------------------------------------- the response body

  /** The body of one HTTP response, as `response.content` hands it out. */
  class ResponseStream {
    /** The bytes not yet read. */
    var remaining: seq<Byte>

    constructor(body: seq<Byte>)
      ensures remaining == body
    {
      remaining := body;
    }

    /**
     * `read(n)`: the next at most `n` bytes, in order, and the empty chunk
     * only once the body is exhausted. Callers may rely on nothing more.
     */
    method Read(n: nat) returns (chunk: seq<Byte>)
      requires n > 0
      modifies this
      ensures old(remaining) == chunk + remaining
      ensures |chunk| <= n
      ensures chunk == [] <==> old(remaining) == []
    {
      var k := if |remaining| < n then |remaining| else n;
      chunk := remaining[..k];
      remaining := remaining[k..];
    }
  }

  // ---------------------------------------------------------------- the temporary file

  /** A write at `pos` overwrites what is there and extends the file past its end. */
  function Overwrite(data: seq<Byte>, pos: nat, bytes: seq<Byte>): seq<Byte>
    requires pos <= |data|
  {
    data[..pos] + bytes + (if pos + |bytes| < |data| then data[pos + |bytes|..] else [])
  }

  /**
   * What was written can be read back at the position it was written to;
   * everything before it is untouched, and a write at the end appends.
   */
  lemma OverwriteSpec(data: seq<Byte>, pos: nat, bytes: seq<Byte>)
    requires pos <= |data|
    ensures var d := Overwrite(data, pos, bytes);
      && |d| == (if pos + |bytes| < |data| then |data| else pos + |bytes|)
      && d[..pos] == data[..pos]
      && d[pos..pos + |bytes|] == bytes
      && (pos == |data| ==> d == data + bytes)
  {
    var d := Overwrite(data, pos, bytes);
    assert d[pos..pos + |bytes|] == bytes;
    if pos == |data| {
      assert data[..pos] == data;
    }
  }

  /** `tempfile.TemporaryFile()`: a byte file with a position. */
  class TempFile {
    var data: seq<Byte>
    var pos: nat
    var closed: bool

    predicate Valid()
      reads this
    {
      pos <= |data|
    }

    constructor()
      ensures data == [] && pos == 0 && !closed
      ensures Valid()
    {
      data := [];
      pos := 0;
      closed := false;
    }

    /** `write(bytes)`. */
    method Write(bytes: seq<Byte>)
      requires Valid() && !closed
      modifies this
      ensures Valid()
      ensures data == Overwrite(old(data), old(pos), bytes)
      ensures pos == old(pos) + |bytes| && !closed
    {
      OverwriteSpec(data, pos, bytes);
      data := Overwrite(data, pos, bytes);
      pos := pos + |bytes|;
    }

    /** `seek(0)`. */
    method Rewind()
      requires !closed
      modifies this
      ensures Valid()
      ensures data == old(data) && pos == 0 && !closed
    {
      pos := 0;
    }

    /** Reading to the end, as a reader over the file does: what lies after the position. */
    method ReadRest() returns (bytes: seq<Byte>)
      requires Valid() && !closed
      modifies this
      ensures Valid()
      ensures bytes == old(data[pos..])
      ensures data == old(data) && pos == |data| && !closed
    {
      bytes := data[pos..];
      pos := |data|;
    }

    /** `close()`. */
    method Close()
      modifies this
      ensures data == old(data) && pos == old(pos) && closed
    {
      closed := true;
    }
  }

  /**
   * `fetch`: reads the body in chunks of at most 1024 bytes until an empty
   * read, appending each chunk to a fresh temporary file, then rewinds it.
   * The file holds the chunks concatenated in order, which is the whole
   * body.
   */
  method Fetch(resp: ResponseStream) returns (f: TempFile, ghost chunks: seq<seq<Byte>>)
    modifies resp
    ensures fresh(f)
    ensures f.data == old(resp.remaining) && f.pos == 0 && !f.closed
    ensures f.data == Flatten(chunks)
    ensures forall c :: c in chunks ==> 0 < |c| <= ChunkSize
    ensures resp.remaining == []
  {
    f := new TempFile();
    chunks := [];
    while true
      invariant fresh(f)
      invariant f.data + resp.remaining == old(resp.remaining)
      invariant f.pos == |f.data| && !f.closed
      invariant f.data == Flatten(chunks)
      invariant forall c :: c in chunks ==> 0 < |c| <= ChunkSize
      decreases |resp.remaining|
    {
      var data := resp.Read(ChunkSize);
      if data == [] {
        break;
      }
      OverwriteSpec(f.data, f.pos, data);
      f.Write(data);
      assert (chunks + [data])[..|chunks|] == chunks;
      chunks := chunks + [data];
    }
    f.Rewind();
  }

  /** The streams behind the requests that succeeded. */
  function Streams(responses: seq<Option<ResponseStream>>): set<ResponseStream> {
    set i | 0 <= i < |responses| && responses[i].Some? :: responses[i].value
  }

  predicate DistinctStreams(responses: seq<Option<ResponseStream>>) {
    forall i, j :: 0 <= i < j < |responses| && responses[i].Some? && responses[j].Some? ==>
      responses[i].value != responses[j].value
  }

  predicate DistinctFiles(files: seq<TempFile>) {
    forall i, j :: 0 <= i < |files| && 0 <= j < |files| && i != j ==> files[i] != files[j]
  }

  /**
   * `fetch_all`: one fresh temporary file per URL, in URL order, each
   * holding that URL's body and rewound. A request that failed (None)
   * aborts the whole call.
   */
  method FetchAll(responses: seq<Option<ResponseStream>>) returns (r: Result<seq<TempFile>>)
    requires DistinctStreams(responses)
    modifies Streams(responses)
    ensures r.Ok? <==> forall i :: 0 <= i < |responses| ==> responses[i].Some?
    ensures r.Err? ==> r.error == FetchError
    ensures r.Ok? ==>
      && |r.value| == |responses|
      && DistinctFiles(r.value)
      && forall i :: 0 <= i < |responses| ==>
        && fresh(r.value[i])
        && r.value[i].data == old(responses[i].value.remaining)
        && r.value[i].pos == 0 && !r.value[i].closed
  {
    var files: seq<TempFile> := [];
    for i := 0 to |responses|
      invariant |files| == i
      invariant forall j :: 0 <= j < i ==> responses[j].Some?
      invariant DistinctFiles(files)
      invariant forall j :: 0 <= j < i ==>
        && fresh(files[j])
        && files[j].data == old(responses[j].value.remaining)
        && files[j].pos == 0 && !files[j].closed
      invariant forall j :: i <= j < |responses| && responses[j].Some? ==>
        responses[j].value.remaining == old(responses[j].value.remaining)
    {
      if responses[i].None? {
        return Err(FetchError);
      }
      var resp := responses[i].value;
      var f, chunks := Fetch(resp);
      files := files + [f];
    }
    return Ok(files);
  }

  // ---------------------------------------------------------------- rows and schema

  /**
   * A `csv.DictReader` row: the header names in order (`row.keys()`), and
   * the cell of each name; a name without a cell (a short row) maps to None,
   * which is modelled as the name being absent.
   */
  datatype CsvRow = CsvRow(keys: seq<string>, cells: map<string, string>)

  /**
   * What a reader over a file's bytes yields: its data rows, in order, up
   * to the point where reading raised, and whether it did (a
   * UnicodeDecodeError from the `utf-8-sig` text layer, or a `csv.Error`,
   * which the default non-strict dialect raises only on a few inputs, such
   * as a field over the size limit; malformed quoting does not raise).
   */
  datatype Reading = Reading(rows: seq<CsvRow>, raised: bool)

  /** The reader over a file's bytes, left uninterpreted. */
  type Decode = seq<Byte> -> Reading

  function Readings(contents: seq<seq<Byte>>, decode: Decode): (rs: seq<Reading>)
    ensures |rs| == |contents|
  {
    seq(|contents|, i requires 0 <= i < |contents| => decode(contents[i]))
  }

  function RowsOf(rs: seq<Reading>): (ts: seq<seq<CsvRow>>)
    ensures |ts| == |rs|
  {
    seq(|rs|, i requires 0 <= i < |rs| => rs[i].rows)
  }

  /** The data rows of each file, as far as its reader got. */
  function Tables(contents: seq<seq<Byte>>, decode: Decode): (ts: seq<seq<CsvRow>>)
    ensures |ts| == |contents|
  {
    RowsOf(Readings(contents, decode))
  }

  /**
   * The schema loop: every file with a data row overwrites `properties`
   * with the keys of its first row (the `break` leaves only the inner loop).
   */
  function LastSchema(tables: seq<seq<CsvRow>>): (header: seq<string>)
    ensures (forall i :: 0 <= i < |tables| ==> tables[i] == []) ==> header == []
    ensures header == [] || exists i :: 0 <= i < |tables| && tables[i] != [] && header == tables[i][0].keys
  {
    if tables == [] then []
    else if tables[|tables| - 1] != [] then tables[|tables| - 1][0].keys
    else LastSchema(tables[..|tables| - 1])
  }

  /**
   * The schema is the keys of the first data row of the last file that has
   * a data row; files after it hold a header at most. If no file has a data
   * row the schema is empty.
   */
  lemma {:induction false} LastSchemaSpec(tables: seq<seq<CsvRow>>)
    ensures (forall i :: 0 <= i < |tables| ==> tables[i] == []) ==> LastSchema(tables) == []
    ensures forall i :: 0 <= i < |tables| && tables[i] != [] && (forall j :: i < j < |tables| ==> tables[j] == []) ==>
      LastSchema(tables) == tables[i][0].keys
  {
    if tables != [] {
      var n := |tables| - 1;
      var init := tables[..n];
      LastSchemaSpec(init);
      assert forall i :: 0 <= i < n ==> init[i] == tables[i];
    }
  }

  /** A file with only a header leaves the schema as it was. */
  lemma HeaderOnlyKeepsSchema(tables: seq<seq<CsvRow>>)
    ensures LastSchema(tables + [[]]) == LastSchema(tables)
  {
    assert (tables + [[]])[..|tables|] == tables;
  }

  /** Two files with different headers: the second file's header wins. */
  lemma LaterFileWins(x: CsvRow, y: CsvRow)
    requires x.keys == ["a", "b"] && y.keys == ["a", "c"]
    ensures LastSchema([[x], [y]]) == ["a", "c"]
  {
  }

  /** A file whose reader raises before yielding its first data row. */
  predicate RaisesEarly(r: Reading) {
    r.rows == [] && r.raised
  }

  /**
   * The schema pass: a file with a data row sets the schema to that row's
   * keys and is left at once (the `break`), so an error later in it is not
   * reached; a file whose reader raises before its first data row aborts
   * the pass.
   */
  function SchemaOutcome(rs: seq<Reading>): (r: Result<seq<string>>)
    ensures r.Err? ==> r.error == DecodeError && exists i :: 0 <= i < |rs| && rs[i].raised && rs[i].rows == []
  {
    if rs == [] then Ok([])
    else
      match SchemaOutcome(rs[..|rs| - 1])
      case Err(e) => Err(e)
      case Ok(props) =>
        var last := rs[|rs| - 1];
        if last.rows != [] then Ok(last.rows[0].keys)
        else if last.raised then Err(DecodeError)
        else Ok(props)
  }

  /**
   * The schema pass succeeds exactly when no file raises before its first
   * data row, and then picks the schema LastSchema describes.
   */
  lemma {:induction false} SchemaOutcomeSpec(rs: seq<Reading>)
    ensures SchemaOutcome(rs).Ok? <==> forall i :: 0 <= i < |rs| ==> !RaisesEarly(rs[i])
    ensures SchemaOutcome(rs).Ok? ==> SchemaOutcome(rs).value == LastSchema(RowsOf(rs))
    ensures SchemaOutcome(rs).Err? ==> SchemaOutcome(rs).error == DecodeError
  {
    if rs != [] {
      var init := rs[..|rs| - 1];
      SchemaOutcomeSpec(init);
      assert forall i :: 0 <= i < |init| ==> init[i] == rs[i];
      assert RowsOf(rs)[..|rs| - 1] == RowsOf(init);
    }
  }

  /** Once the schema pass has failed on the first n files, it fails the same way on all of them. */
  lemma {:induction false} SchemaPrefix(rs: seq<Reading>, n: nat)
    requires n <= |rs| && SchemaOutcome(rs[..n]).Err?
    ensures SchemaOutcome(rs) == SchemaOutcome(rs[..n])
    decreases |rs| - n
  {
    if n < |rs| {
      assert rs[..n + 1][..n] == rs[..n];
      SchemaPrefix(rs, n + 1);
    } else {
      assert rs[..n] == rs;
    }
  }

  predicate AnyRaised(rs: seq<Reading>) {
    exists i :: 0 <= i < |rs| && rs[i].raised
  }

  /** A reader error among the first m files is one among the first n >= m. */
  lemma AnyRaisedMono(rs: seq<Reading>, m: nat, n: nat)
    requires m <= n <= |rs|
    ensures AnyRaised(rs[..m]) ==> AnyRaised(rs[..n])
  {
    if AnyRaised(rs[..m]) {
      var w :| 0 <= w < m && rs[..m][w].raised;
      assert rs[..n][w] == rs[w];
    }
  }

  /** No file before i raised exactly when the first i files hold no reader error. */
  lemma NoneBefore(rs: seq<Reading>, i: nat)
    requires i <= |rs| && forall k :: 0 <= k < i ==> !rs[k].raised
    ensures !AnyRaised(rs[..i])
  {
    forall k | 0 <= k < i ensures !rs[..i][k].raised {
      assert rs[..i][k] == rs[k];
    }
  }

  /** When file i is the first to raise, there is a reader error, and it lies among the first i + 1 files. */
  lemma FirstRaise(rs: seq<Reading>, i: nat)
    requires i < |rs| && rs[i].raised && forall k :: 0 <= k < i ==> !rs[k].raised
    ensures AnyRaised(rs) && AnyRaised(rs[..i + 1])
  {
    assert rs[..i + 1][i] == rs[i];
  }

  /** `row.get(p) or ''` for each property. */
  function ProjectRow(row: CsvRow, props: seq<string>): seq<string> {
    Project(row.cells, props, "")
  }

  function ProjectRows(props: seq<string>, rows: seq<CsvRow>): (rs: seq<seq<string>>)
    ensures |rs| == |rows|
  {
    seq(|rows|, k requires 0 <= k < |rows| => ProjectRow(rows[k], props))
  }

  /** Every data row of every file, projected, file by file and in reader order within a file. */
  function DataRows(props: seq<string>, tables: seq<seq<CsvRow>>): seq<seq<string>> {
    ProjectRows(props, Flatten(tables))
  }

  /** What the emit pass writes for the given rows: `',' + json.dumps(row)` for each, in order. */
  function RowsText(rows: seq<seq<string>>): string {
    if rows == [] then "" else RowsText(rows[..|rows| - 1]) + "," + Dumps(rows[|rows| - 1])
  }

  /** The whole output: `[`, the schema, the rows, `]`. */
  function CsvDocument(tables: seq<seq<CsvRow>>): string {
    var props := LastSchema(tables);
    "[" + Dumps(props) + RowsText(DataRows(props, tables)) + "]"
  }

  lemma {:induction false} RowsTextAppend(a: seq<seq<string>>, b: seq<seq<string>>)
    ensures RowsText(a + b) == RowsText(a) + RowsText(b)
    decreases |b|
  {
    if b == [] {
      assert a + b == a;
    } else {
      var b' := b[..|b| - 1];
      assert (a + b)[..|a + b| - 1] == a + b';
      RowsTextAppend(a, b');
    }
  }

  function DumpsAll(rows: seq<seq<string>>): seq<string> {
    seq(|rows|, k requires 0 <= k < |rows| => Dumps(rows[k]))
  }

  /** The header followed by the streamed rows is the comma-join of all of them. */
  lemma {:induction false} RowsTextIsJoin(header: string, rows: seq<seq<string>>)
    ensures header + RowsText(rows) == Join([header] + DumpsAll(rows), ",")
  {
    if rows != [] {
      var init := rows[..|rows| - 1];
      RowsTextIsJoin(header, init);
      assert [header] + DumpsAll(rows) == ([header] + DumpsAll(init)) + [Dumps(rows[|rows| - 1])];
      JoinSnoc([header] + DumpsAll(init), Dumps(rows[|rows| - 1]), ",");
    } else {
      assert [header] + DumpsAll(rows) == [header];
    }
  }

  /**
   * What the emit pass writes: `','` and the projected row for every row
   * each reader yields, file after file, ending with the rows of the first
   * file whose reader raises.
   */
  function EmitText(props: seq<string>, rs: seq<Reading>): string {
    if rs == [] then ""
    else
      var init := rs[..|rs| - 1];
      if AnyRaised(init) then EmitText(props, init)
      else EmitText(props, init) + RowsText(ProjectRows(props, rs[|rs| - 1].rows))
  }

  /** Without a reader error the emit pass writes every data row of every file. */
  lemma {:induction false} EmitTextComplete(props: seq<string>, rs: seq<Reading>)
    requires !AnyRaised(rs)
    ensures EmitText(props, rs) == RowsText(DataRows(props, RowsOf(rs)))
  {
    if rs != [] {
      var init, last := rs[..|rs| - 1], rs[|rs| - 1];
      assert !AnyRaised(init) by {
        forall i | 0 <= i < |init| ensures !init[i].raised {
          assert init[i] == rs[i];
        }
      }
      EmitTextComplete(props, init);
      assert RowsOf(rs) == RowsOf(init) + [last.rows];
      DataRowsSnoc(props, RowsOf(init), last.rows);
      RowsTextAppend(DataRows(props, RowsOf(init)), ProjectRows(props, last.rows));
    }
  }

  /** Once one of the first n files has raised, the later files add nothing. */
  lemma {:induction false} EmitTextPrefix(props: seq<string>, rs: seq<Reading>, n: nat)
    requires n <= |rs| && AnyRaised(rs[..n])
    ensures EmitText(props, rs) == EmitText(props, rs[..n])
    decreases |rs| - n
  {
    if n < |rs| {
      assert rs[..n + 1][..n] == rs[..n];
      AnyRaisedMono(rs, n, n + 1);
      EmitTextPrefix(props, rs, n + 1);
    } else {
      assert rs[..n] == rs;
    }
  }

  /**
   * When file j is the first whose reader raises, the emit pass has
   * written exactly the rows of files 0 to j, those of file j as far as
   * its reader got.
   */
  lemma EmitTextStops(props: seq<string>, rs: seq<Reading>, j: nat)
    requires j < |rs| && rs[j].raised && !AnyRaised(rs[..j])
    ensures EmitText(props, rs) == RowsText(DataRows(props, RowsOf(rs[..j + 1])))
  {
    var init := rs[..j + 1];
    var head, rest := RowsText(DataRows(props, RowsOf(rs[..j]))), RowsText(ProjectRows(props, rs[j].rows));
    assert EmitText(props, rs) == EmitText(props, init) by {
      assert init[j] == rs[j];
      EmitTextPrefix(props, rs, j + 1);
    }
    assert EmitText(props, init) == EmitText(props, rs[..j]) + rest by {
      assert init[..j] == rs[..j] && init[j] == rs[j];
    }
    assert EmitText(props, rs[..j]) == head by {
      EmitTextComplete(props, rs[..j]);
    }
    assert RowsText(DataRows(props, RowsOf(init))) == head + rest by {
      assert RowsOf(init) == RowsOf(rs[..j]) + [rs[j].rows];
      DataRowsSnoc(props, RowsOf(rs[..j]), rs[j].rows);
      RowsTextAppend(DataRows(props, RowsOf(rs[..j])), ProjectRows(props, rs[j].rows));
    }
  }

  /**
   * The output is one JSON array, written with `,` between elements, whose
   * first element is the schema and whose other elements are the projected
   * data rows, as many as the files' data rows together. DataRowsShape and
   * DataRowsOrder say what each of those rows is.
   */
  lemma CsvDocumentSpec(tables: seq<seq<CsvRow>>)
    ensures CsvDocument(tables)
      == "[" + Join([Dumps(LastSchema(tables))] + DumpsAll(DataRows(LastSchema(tables), tables)), ",") + "]"
    ensures |DataRows(LastSchema(tables), tables)| == SumLengths(tables)
  {
    var props := LastSchema(tables);
    var rows := DataRows(props, tables);
    assert CsvDocument(tables) == "[" + Join([Dumps(props)] + DumpsAll(rows), ",") + "]" by {
      assert CsvDocument(tables) == "[" + (Dumps(props) + RowsText(rows)) + "]";
      RowsTextIsJoin(Dumps(props), rows);
    }
    DataRowsShape(props, tables);
  }

  /** The rows of file i follow the rows of the files before it, in reader order. */
  lemma DataRowsOrder(props: seq<string>, tables: seq<seq<CsvRow>>)
    ensures |DataRows(props, tables)| == SumLengths(tables)
    ensures forall i :: 0 <= i < |tables| ==> SumLengths(tables[..i]) + |tables[i]| <= SumLengths(tables)
    ensures forall i, k :: 0 <= i < |tables| && 0 <= k < |tables[i]| ==>
      DataRows(props, tables)[SumLengths(tables[..i]) + k] == ProjectRow(tables[i][k], props)
  {
    DataRowsShape(props, tables);
    forall i | 0 <= i < |tables| ensures SumLengths(tables[..i]) + |tables[i]| <= SumLengths(tables) {
      SumLengthsPrefix(tables, i);
    }
    forall i, k | 0 <= i < |tables| && 0 <= k < |tables[i]|
      ensures DataRows(props, tables)[SumLengths(tables[..i]) + k] == ProjectRow(tables[i][k], props)
    {
      DataRowAt(props, tables, i, k);
    }
  }

  lemma DataRowsShape(props: seq<string>, tables: seq<seq<CsvRow>>)
    ensures |DataRows(props, tables)| == SumLengths(tables)
    ensures forall k :: 0 <= k < SumLengths(tables) ==> |DataRows(props, tables)[k]| == |props|
  {
    FlattenLength(tables);
  }

  /** Row k of file i sits right after the rows of the files before it. */
  lemma DataRowAt(props: seq<string>, tables: seq<seq<CsvRow>>, i: nat, k: nat)
    requires i < |tables| && k < |tables[i]|
    ensures |DataRows(props, tables)| == SumLengths(tables)
    ensures SumLengths(tables[..i]) + k < SumLengths(tables)
    ensures DataRows(props, tables)[SumLengths(tables[..i]) + k] == ProjectRow(tables[i][k], props)
  {
    FlattenLength(tables);
    FlattenAt(tables, i, k);
  }

  /** Entry j of a projected row is the row's cell for property j, or `''` when it has none. */
  lemma ProjectRowSpec(row: CsvRow, props: seq<string>)
    ensures |ProjectRow(row, props)| == |props|
    ensures forall j :: 0 <= j < |props| ==>
      ProjectRow(row, props)[j] == (if props[j] in row.cells then row.cells[props[j]] else "")
  {
  }

  // ---------------------------------------------------------------- the two passes

  /** The response stream the handler writes to. */
  class Output {
    var text: string

    constructor()
      ensures text == ""
    {
      text := "";
    }

    /** `flex.output.write(s)`. */
    method Write(s: string)
      modifies this
      ensures text == old(text) + s
    {
      text := text + s;
    }
  }

  predicate AtStart(files: seq<TempFile>, contents: seq<seq<Byte>>)
    reads files
  {
    && |files| == |contents|
    && forall i :: 0 <= i < |files| ==> files[i].data == contents[i] && files[i].pos == 0 && !files[i].closed
  }

  /**
   * The schema pass: reads each file's rows, keeps the keys of the first
   * row of every file that has one, and rewinds each file (in a `finally`,
   * so also when the reader raises), so the files are left as they were
   * found.
   */
  method ChooseSchema(files: seq<TempFile>, decode: Decode, ghost contents: seq<seq<Byte>>) returns (r: Result<seq<string>>)
    requires DistinctFiles(files) && AtStart(files, contents)
    modifies files
    ensures r == SchemaOutcome(Readings(contents, decode))
    ensures AtStart(files, contents)
  {
    ghost var rs := Readings(contents, decode);
    var props := [];
    for i := 0 to |files|
      invariant SchemaOutcome(rs[..i]) == Ok(props)
      invariant AtStart(files, contents)
    {
      var f := files[i];
      var bytes := f.ReadRest();
      var reading := decode(bytes);
      assert reading == rs[i];
      assert rs[..i + 1][..i] == rs[..i];
      f.Rewind();
      if |reading.rows| > 0 {
        props := reading.rows[0].keys;
      } else if reading.raised {
        SchemaPrefix(rs, i + 1);
        return Err(DecodeError);
      }
    }
    assert rs[..|files|] == rs;
    return Ok(props);
  }

  lemma DataRowsSnoc(props: seq<string>, tables: seq<seq<CsvRow>>, rows: seq<CsvRow>)
    ensures DataRows(props, tables + [rows]) == DataRows(props, tables) + ProjectRows(props, rows)
  {
    assert (tables + [rows])[..|tables|] == tables;
  }

  lemma EmitStep(props: seq<string>, rows: seq<CsvRow>, k: nat)
    requires k < |rows|
    ensures RowsText(ProjectRows(props, rows[..k + 1]))
         == RowsText(ProjectRows(props, rows[..k])) + ("," + Dumps(ProjectRow(rows[k], props)))
  {
    var a := ProjectRows(props, rows[..k + 1]);
    assert a[..k] == ProjectRows(props, rows[..k]);
  }

  /**
   * One file of the emit pass: `','` and the projected row for each row the
   * reader yields, then `close()`; a reader error ends the pass before the
   * file is closed.
   */
  method EmitFile(f: TempFile, decode: Decode, props: seq<string>, out: Output, ghost reading: Reading) returns (raised: bool)
    requires f.Valid() && !f.closed && decode(f.data[f.pos..]) == reading
    modifies f, out
    ensures out.text == old(out.text) + RowsText(ProjectRows(props, reading.rows))
    ensures raised == reading.raised
    ensures f.data == old(f.data) && f.closed == !raised
  {
    var bytes := f.ReadRest();
    var read := decode(bytes);
    var rows := read.rows;
    for k := 0 to |rows|
      invariant out.text == old(out.text) + RowsText(ProjectRows(props, rows[..k]))
      modifies out
    {
      var line := "," + Dumps(ProjectRow(rows[k], props));
      EmitStep(props, rows, k);
      ConcatAssoc(old(out.text), RowsText(ProjectRows(props, rows[..k])), line);
      out.Write(line);
    }
    assert rows[..|rows|] == rows;
    if read.raised {
      return true;
    }
    f.Close();
    return false;
  }

  /** What the emit pass has written when file i is the first whose reader raises. */
  lemma EmitAborted(props: seq<string>, rs: seq<Reading>, i: nat)
    requires i < |rs| && rs[i].raised && forall k :: 0 <= k < i ==> !rs[k].raised
    ensures AnyRaised(rs)
    ensures EmitText(props, rs) == RowsText(DataRows(props, RowsOf(rs)[..i + 1]))
  {
    FirstRaise(rs, i);
    NoneBefore(rs, i);
    EmitTextStops(props, rs, i);
    assert RowsOf(rs[..i + 1]) == RowsOf(rs)[..i + 1];
  }

  /** Writing file i's rows after the rows of the files before it gives the rows of the first i + 1 files. */
  lemma EmitRowsStep(props: seq<string>, tables: seq<seq<CsvRow>>, i: nat, start: string, before: string, after: string)
    requires i < |tables|
    requires before == start + RowsText(DataRows(props, tables[..i]))
    requires after == before + RowsText(ProjectRows(props, tables[i]))
    ensures after == start + RowsText(DataRows(props, tables[..i + 1]))
  {
    assert tables[..i + 1] == tables[..i] + [tables[i]];
    DataRowsSnoc(props, tables[..i], tables[i]);
    RowsTextAppend(DataRows(props, tables[..i]), ProjectRows(props, tables[i]));
    ConcatAssoc(start, RowsText(DataRows(props, tables[..i])), RowsText(ProjectRows(props, tables[i])));
  }

  /** What the emit pass writes for each file: the projected rows its reader yields. */
  function FileTexts(props: seq<string>, rs: seq<Reading>): (ts: seq<string>)
    ensures |ts| == |rs|
  {
    seq(|rs|, k requires 0 <= k < |rs| => RowsText(ProjectRows(props, rs[k].rows)))
  }

  /** The texts of the first n files, one after the other, are the projected data rows of those files. */
  lemma {:induction false} FileTextsJoin(props: seq<string>, rs: seq<Reading>, n: nat)
    requires n <= |rs|
    ensures Flatten(FileTexts(props, rs)[..n]) == RowsText(DataRows(props, RowsOf(rs)[..n]))
  {
    if n > 0 {
      var texts := FileTexts(props, rs);
      FileTextsJoin(props, rs, n - 1);
      assert texts[..n] == texts[..n - 1] + [texts[n - 1]];
      FlattenSnoc(texts[..n - 1], texts[n - 1]);
      EmitRowsStep(props, RowsOf(rs), n - 1, "", Flatten(texts[..n - 1]), Flatten(texts[..n]));
    }
  }

  /**
   * The loop of the emit pass: every file in URL order, each closed once its
   * rows are written, until a reader raises. `stop` is the first file whose
   * reader raised, or the number of files; the files up to and including
   * `stop` have written their text.
   */
  method EmitLoop(files: seq<TempFile>, decode: Decode, props: seq<string>, out: Output,
                  ghost contents: seq<seq<Byte>>, ghost rs: seq<Reading>)
    returns (raised: bool, ghost stop: nat)
    requires DistinctFiles(files) && AtStart(files, contents)
    requires |rs| == |files| && forall k :: 0 <= k < |files| ==> rs[k] == decode(contents[k])
    modifies files
    modifies out
    ensures stop <= |files| && forall k :: 0 <= k < stop ==> !rs[k].raised
    ensures raised ==> stop < |files| && rs[stop].raised
    ensures !raised ==> stop == |files|
    ensures out.text == old(out.text) + Flatten(FileTexts(props, rs)[..if raised then stop + 1 else stop])
    ensures forall j :: 0 <= j < |files| ==> (files[j].closed <==> j < stop)
  {
    ghost var texts := FileTexts(props, rs);
    for i := 0 to |files|
      invariant forall k :: 0 <= k < i ==> !rs[k].raised
      invariant out.text == old(out.text) + Flatten(texts[..i])
      invariant forall j :: 0 <= j < |files| ==> files[j].data == contents[j] && (files[j].closed <==> j < i) && (i <= j ==> files[j].pos == 0)
    {
      assert forall j :: 0 <= j < |files| && j != i ==> files[j] != files[i];
      ghost var before := out.text;
      var failed := EmitFile(files[i], decode, props, out, rs[i]);
      TakeSnoc(texts, i);
      StreamStep(old(out.text), texts[..i], texts[i], before, out.text);
      if failed {
        return true, i;
      }
    }
    return false, |files|;
  }

  /**
   * The emit pass: the text `EmitLoop` writes is what `EmitText` describes. A
   * reader error stops the pass: exactly the files before `stop`, the first
   * whose reader raised, are closed.
   */
  method EmitRows(files: seq<TempFile>, decode: Decode, props: seq<string>, out: Output, ghost contents: seq<seq<Byte>>)
    returns (raised: bool, ghost stop: nat)
    requires DistinctFiles(files) && AtStart(files, contents)
    modifies files
    modifies out
    ensures raised == AnyRaised(Readings(contents, decode))
    ensures out.text == old(out.text) + EmitText(props, Readings(contents, decode))
    ensures stop <= |files| && forall k :: 0 <= k < stop ==> !Readings(contents, decode)[k].raised
    ensures raised ==> stop < |files| && Readings(contents, decode)[stop].raised
    ensures !raised ==> stop == |files|
    ensures forall j :: 0 <= j < |files| ==> (files[j].closed <==> j < stop)
  {
    ghost var rs := Readings(contents, decode);
    raised, stop := EmitLoop(files, decode, props, out, contents, rs);
    if raised {
      FileTextsJoin(props, rs, stop + 1);
      EmitAborted(props, rs, stop);
    } else {
      FileTextsJoin(props, rs, stop);
      assert RowsOf(rs)[..stop] == RowsOf(rs);
      EmitTextComplete(props, rs);
    }
  }

  /**
   * The handler after validation. `responses[i]` is the response for URL i,
   * or None when that request failed; `bodies[i]` is its body. A failed
   * request aborts the call before anything is written. A reader error
   * aborts it after `[` has been written, and, when it comes in the emit
   * pass, after the schema and the rows read before the error.
   */
  method Handle(responses: seq<Option<ResponseStream>>, decode: Decode, out: Output, ghost bodies: seq<seq<Byte>>)
    returns (r: Result<()>)
    requires DistinctStreams(responses) && |bodies| == |responses|
    requires forall i :: 0 <= i < |responses| && responses[i].Some? ==> responses[i].value.remaining == bodies[i]
    modifies out, Streams(responses)
    ensures r.Ok? <==> (forall i :: 0 <= i < |responses| ==> responses[i].Some?) && !AnyRaised(Readings(bodies, decode))
    ensures r.Ok? ==> out.text == old(out.text) + CsvDocument(Tables(bodies, decode))
    ensures (exists i :: 0 <= i < |responses| && responses[i].None?) ==> r == Err(FetchError) && out.text == old(out.text)
    ensures (forall i :: 0 <= i < |responses| ==> responses[i].Some?) ==>
      var rs := Readings(bodies, decode);
      match SchemaOutcome(rs)
      case Err(_) => r == Err(DecodeError) && out.text == old(out.text) + "["
      case Ok(props) =>
        && out.text == old(out.text) + "[" + Dumps(props) + EmitText(props, rs) + (if AnyRaised(rs) then "" else "]")
        && (AnyRaised(rs) ==> r == Err(DecodeError))
  {
    var fetched := FetchAll(responses);
    if fetched.Err? {
      return Err(FetchError);
    }
    var files := fetched.value;
    assert AtStart(files, bodies);
    ghost var rs := Readings(bodies, decode);
    ghost var before := out.text;
    out.Write("[");
    var schema := ChooseSchema(files, decode, bodies);
    if schema.Err? {
      SchemaOutcomeSpec(rs);
      ghost var w :| 0 <= w < |rs| && RaisesEarly(rs[w]);
      assert rs[w].raised;
      return Err(DecodeError);
    }
    var props := schema.value;
    out.Write(Dumps(props));
    var raised, stop := EmitRows(files, decode, props, out, bodies);
    if raised {
      return Err(DecodeError);
    }
    out.Write("]");
    SchemaOutcomeSpec(rs);
    EmitTextComplete(props, rs);
    ConcatAssoc(before, "[" + Dumps(props) + EmitText(props, rs), "]");
    ConcatAssoc(before, "[" + Dumps(props), EmitText(props, rs));
    ConcatAssoc(before, "[", Dumps(props));
    return Ok(());
  }
}
