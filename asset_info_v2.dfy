/** The second version of the inventory tool: the disk normaliser over the
    parsed `ConvertTo-Json` output, the product-key sentinel, the disk lines of
    the display and the default export file name. */
module AssetInfoV2 {
  import opened Strings
  import opened Wrappers
  import opened Gigabytes
  import opened PyJson

  // ---------------------------------------------------------------------------
  // get_product_key

  /** `get_product_key` over the captured output: the stripped key, or
      `Not Found` when nothing but whitespace was printed. */
  function ProductKey(output: string): (key: string)
    ensures key != "" && PyStrip(key) == key
    ensures (forall k :: 0 <= k < |output| ==> IsPySpace(output[k])) <==> key == NotFound && PyStrip(output) == ""
    ensures PyStrip(output) != "" ==> key == PyStrip(output)
  {
    var stripped := PyStrip(output);
    TrimEmpty(output, PyWhitespace);
    if stripped == "" then
      TrimKeeps(NotFound, PyWhitespace);
      NotFound
    else
      TrimIdempotent(output, PyWhitespace);
      stripped
  }

  // ---------------------------------------------------------------------------
  // get_disks_physical

  /** One row of the disk table: the model and the media type are whatever
      JSON values the record holds; the size is a text. */
  datatype DiskRow = DiskRow(model: Json, size: string, mediaType: Json)

  /** `d.get("FriendlyName") or d.get("Model") or "Unknown"` */
  function ModelOf(d: map<string, Json>): (m: Json)
    ensures Truthy(m)
    ensures Truthy(Get(d, "FriendlyName")) ==> m == d["FriendlyName"]
    ensures !Truthy(Get(d, "FriendlyName")) && Truthy(Get(d, "Model")) ==> m == d["Model"]
    ensures m == Get(d, "FriendlyName") || m == Get(d, "Model") || m == JString("Unknown")
  {
    var friendly := Get(d, "FriendlyName");
    var model := Get(d, "Model");
    if Truthy(friendly) then friendly else if Truthy(model) then model else JString("Unknown")
  }

  /** Python's `str(i)` for an integer. */
  function IntText(i: int): string {
    if i < 0 then "-" + NatToString(-i) else NatToString(i)
  }

  /** `str(size).isdigit()`: only a non-negative integer or a digit string
      prints as digits; `None`, `True`/`False`, floats, lists and dicts never
      do. */
  predicate TextIsDigits(size: Json) {
    match size
    case JInt(i) => IsDigits(IntText(i))
    case JString(s) => IsDigits(s)
    case _ => false
  }

  /** `int(size)` for a value whose text is all digits. */
  function IntValue(size: Json): nat
    requires TextIsDigits(size)
  {
    match size
    case JInt(i) => if i < 0 then assert IntText(i)[0] == '-'; 0 else i
    case JString(s) => ParseDigits(s)
  }

  /** `f"{int(size) / (1024 ** 3):.2f} GB" if size and str(size).isdigit() else "Unknown Size"`:
      a falsy size is `Unknown Size`, and only a truthy size whose text is all
      digits gives anything else. */
  function SizeOf(size: Json): (r: string)
    ensures !Truthy(size) ==> r == UnknownSize
    ensures r != UnknownSize ==> Truthy(size) && TextIsDigits(size)
  {
    if Truthy(size) && TextIsDigits(size) then FormatGigabytes(IntValue(size)) else UnknownSize
  }

  /** A size text reads as a gigabyte amount exactly when it is not
      `Unknown Size`. */
  lemma SizeTextReads(size: Json)
    ensures ParseGigabytes(SizeOf(size)).Some? <==> SizeOf(size) != UnknownSize
  {
    UnknownSizeIsNotASize();
  }

  /** The byte counts a record's size can stand for: a positive integer, or a
      non-empty string of digits (`"0"` included, which reads as zero bytes). */
  function ByteCount(size: Json): Option<nat> {
    match size
    case JInt(i) => if i > 0 then Some(i) else None
    case JString(s) => if IsDigits(s) then Some(ParseDigits(s)) else None
    case _ => None
  }

  /** The size text is the gigabyte text of exactly the byte counts above,
      and `Unknown Size` for every other value: missing, `None`, zero, the
      empty string, negative numbers, floats, booleans and containers. */
  lemma SizeOfByteCount(size: Json)
    ensures SizeOf(size) == if ByteCount(size).Some? then FormatGigabytes(ByteCount(size).value) else UnknownSize
  {
    match size
    case JInt(i) => IntTextDigits(i);
    case _ =>
  }

  /** A size text reads back as a gigabyte amount exactly when the record's
      size stands for a byte count. */
  lemma SizeOfReadsBack(size: Json)
    ensures ParseGigabytes(SizeOf(size)).Some? <==> ByteCount(size).Some?
  {
    SizeOfByteCount(size);
    if ByteCount(size).None? {
      UnknownSizeIsNotASize();
    }
  }

  /** An integer prints as digits exactly when it is not negative. */
  lemma IntTextDigits(i: int)
    ensures IsDigits(IntText(i)) <==> i >= 0
  {
    if i < 0 {
      assert IntText(i)[0] == '-';
    }
  }

  /** `d.get("MediaType", "Unknown")`: the default stands in only for a missing
      key; a present value, `None` included, is kept. */
  function MediaTypeOf(d: map<string, Json>): (t: Json)
    ensures "MediaType" in d ==> t == d["MediaType"]
    ensures "MediaType" !in d ==> t == JString("Unknown")
  {
    GetOr(d, "MediaType", JString("Unknown"))
  }

  /** The row one disk record gives: a truthy model, `Unknown Size` for a
      falsy size, and the media type, `"Unknown"` only when the key is
      missing. */
  function RecordRow(d: map<string, Json>): (row: DiskRow)
    ensures Truthy(row.model)
    ensures !Truthy(Get(d, "Size")) ==> row.size == UnknownSize
    ensures "MediaType" in d ==> row.mediaType == d["MediaType"]
    ensures "MediaType" !in d ==> row.mediaType == JString("Unknown")
  {
    DiskRow(ModelOf(d), SizeOf(Get(d, "Size")), MediaTypeOf(d))
  }

  /** The row the handler returns for an exception. */
  function ErrorRow(message: string): DiskRow {
    DiskRow(JString("Error"), message, JString("Unknown"))
  }

  /** The message of `d.get` on a value that is not a dict. */
  function NoGetMessage(d: Json): string {
    "'" + TypeName(d) + "' object has no attribute 'get'"
  }

  /** The message of `for d in disks` on a value that cannot be iterated. */
  function NotIterableMessage(v: Json): string {
    "'" + TypeName(v) + "' object is not iterable"
  }

  /** After the dict check: what `for d in disks` iterates over, or the
      error. A dict is one record, a list gives its items and a string its
      one-character strings; `None`, booleans and numbers are not iterable. */
  function Records(parsed: Json): (r: Result<seq<Json>>)
    ensures r.Success? <==> parsed.JObject? || parsed.JArray? || parsed.JString?
    ensures r.Failure? ==> r.error == NotIterableMessage(parsed)
    ensures parsed.JObject? ==> r == Success([parsed])
    ensures parsed.JString? ==> |r.value| == |parsed.s|
  {
    match parsed
    case JObject(_) => Success([parsed])
    case JArray(items) => Success(items)
    case JString(s) => Success(Chars(s))
    case _ => Failure(NotIterableMessage(parsed))
  }

  /** A string iterated: its one-character strings. */
  function Chars(s: string): (cs: seq<Json>)
    ensures |cs| == |s|
  {
    seq(|s|, k requires 0 <= k < |s| => JString([s[k]]))
  }

  /** The loop body over all records: one row per record, or the message of
      the first record that is not a dict. On success there are as many rows
      as records, each with a truthy model. */
  function Normalise(records: seq<Json>): (r: Result<seq<DiskRow>>)
    ensures r.Success? ==> |r.value| == |records|
    ensures r.Success? ==> forall k :: 0 <= k < |r.value| ==> Truthy(r.value[k].model)
  {
    if records == [] then Success([])
    else
      var last := records[|records| - 1];
      match Normalise(records[..|records| - 1])
      case Failure(e) => Failure(e)
      case Success(rows) =>
        if last.JObject? then Success(rows + [RecordRow(last.fields)]) else Failure(NoGetMessage(last))
  }

  /** `get_disks_physical` after `json.loads`: the rows, or the single error
      row of the exception. Every row has a truthy model; a value that cannot
      be iterated gives exactly its error row. */
  function DiskRows(parsed: Json): (rows: seq<DiskRow>)
    ensures forall k :: 0 <= k < |rows| ==> Truthy(rows[k].model)
    ensures Records(parsed).Failure? ==> rows == [ErrorRow(NotIterableMessage(parsed))]
  {
    match Records(parsed)
    case Failure(e) => [ErrorRow(e)]
    case Success(records) =>
      match Normalise(records)
      case Failure(e) => [ErrorRow(e)]
      case Success(rows) => rows
  }

  /** The wrapping, the loop appending to `output`, and the handler. */
  method GetDisksPhysical(parsed: Json) returns (output: seq<DiskRow>)
    ensures output == DiskRows(parsed)
  {
    var disks := parsed;
    if disks.JObject? {
      disks := JArray([disks]);
    }
    var records: seq<Json>;
    match disks {
      case JArray(items) => records := items;
      case JString(s) => records := Chars(s);
      case _ => return [ErrorRow(NotIterableMessage(disks))];
    }
    assert Records(parsed) == Success(records);
    output := [];
    for i := 0 to |records|
      invariant Normalise(records[..i]) == Success(output)
    {
      NormaliseStep(records, i);
      var d := records[i];
      if !d.JObject? {
        NormaliseAfterFailure(records, i + 1);
        return [ErrorRow(NoGetMessage(d))];
      }
      output := output + [RecordRow(d.fields)];
    }
    assert records[..|records|] == records;
  }

  /** One more record after a successful prefix adds its row, or fails with
      its message when it is not a dict. */
  lemma NormaliseStep(records: seq<Json>, i: nat)
    requires i < |records| && Normalise(records[..i]).Success?
    ensures records[i].JObject? ==>
      Normalise(records[..i + 1]) == Success(Normalise(records[..i]).value + [RecordRow(records[i].fields)])
    ensures !records[i].JObject? ==> Normalise(records[..i + 1]) == Failure(NoGetMessage(records[i]))
  {
    assert records[..i + 1][..i] == records[..i];
  }

  /** Once a prefix has failed, the later records change nothing. */
  lemma {:induction false} NormaliseAfterFailure(records: seq<Json>, n: nat)
    requires n <= |records| && Normalise(records[..n]).Failure?
    ensures Normalise(records) == Normalise(records[..n])
  {
    if n < |records| {
      var init := records[..|records| - 1];
      assert init[..n] == records[..n];
      NormaliseAfterFailure(init, n);
    } else {
      assert records[..n] == records;
    }
  }

  /** Records that are all dicts give one row each, in record order. */
  lemma {:induction false} AllRecords(records: seq<Json>)
    requires forall k :: 0 <= k < |records| ==> records[k].JObject?
    ensures Normalise(records).Success?
    ensures var rows := Normalise(records).value;
      |rows| == |records| && forall k :: 0 <= k < |records| ==> rows[k] == RecordRow(records[k].fields)
  {
    if records != [] {
      var n := |records| - 1;
      var init, last := records[..n], records[n];
      AllRecords(init);
      var rows := Normalise(init).value;
      var all := rows + [RecordRow(last.fields)];
      NormaliseStep(records, n);
      assert records[..n + 1] == records;
      forall k | 0 <= k < |records| ensures all[k] == RecordRow(records[k].fields) {
        if k < |init| {
          assert all[k] == rows[k] && init[k] == records[k];
        } else {
          assert all[k] == RecordRow(last.fields) && last == records[k];
        }
      }
    }
  }

  /** The first record that is not a dict decides the outcome: its type is
      named in the one error row. */
  lemma {:induction false} FirstBadRecord(records: seq<Json>, k: nat)
    requires k < |records| && !records[k].JObject?
    requires forall j :: 0 <= j < k ==> records[j].JObject?
    ensures Normalise(records) == Failure(NoGetMessage(records[k]))
  {
    var init := records[..|records| - 1];
    if k < |records| - 1 {
      FirstBadRecord(init, k);
    } else {
      AllRecords(init);
    }
  }

  /** A parsed list of disk records gives exactly one row per record, in list
      order, with no filtering. */
  lemma ListOfRecords(items: seq<Json>)
    requires forall k :: 0 <= k < |items| ==> items[k].JObject?
    ensures |DiskRows(JArray(items))| == |items|
    ensures forall k :: 0 <= k < |items| ==> DiskRows(JArray(items))[k] == RecordRow(items[k].fields)
  {
    AllRecords(items);
  }

  /** A single disk record (a dict) is treated as a list holding it. */
  lemma SingleRecordWrapped(d: map<string, Json>)
    ensures DiskRows(JObject(d)) == DiskRows(JArray([JObject(d)])) == [RecordRow(d)]
  {
    AllRecords([JObject(d)]);
  }

  /** `None`, a boolean or a number at the top level is not iterable. */
  lemma ScalarNotIterable(v: Json)
    requires v.JNull? || v.JBool? || v.JInt? || v.JFloat?
    ensures DiskRows(v) == [ErrorRow(NotIterableMessage(v))]
  {
  }

  /** A string at the top level is iterated character by character: its
      first character fails the `get`. */
  lemma StringAtTopLevel(s: string)
    requires s != ""
    ensures DiskRows(JString(s)) == [ErrorRow("'str' object has no attribute 'get'")]
  {
    FirstCharMessage(s);
    FirstBadAtTop(JString(s), Chars(s), 0);
  }

  /** The first record of a string is its first character, which is not a
      dict, so its `get` fails with the `'str'` message. */
  lemma FirstCharMessage(s: string)
    requires s != ""
    ensures !Chars(s)[0].JObject? && NoGetMessage(Chars(s)[0]) == "'str' object has no attribute 'get'"
  {
    assert Chars(s)[0] == JString([s[0]]);
    StrMessage([s[0]]);
  }

  /** Every string gets the same `get` message, naming `'str'`. */
  lemma StrMessage(t: string)
    ensures NoGetMessage(JString(t)) == "'str' object has no attribute 'get'"
  {
  }

  /** A parsed value whose records start with dicts and then hold a non-dict
      gives the one error row naming that record's type. */
  lemma FirstBadAtTop(parsed: Json, records: seq<Json>, k: nat)
    requires Records(parsed) == Success(records)
    requires k < |records| && !records[k].JObject?
    requires forall j :: 0 <= j < k ==> records[j].JObject?
    ensures DiskRows(parsed) == [ErrorRow(NoGetMessage(records[k]))]
  {
    FirstBadRecord(records, k);
  }

  /** The empty string at the top level gives no rows at all. */
  lemma EmptyStringAtTopLevel()
    ensures DiskRows(JString("")) == []
  {
    assert Chars("") == [];
  }

  // ---------------------------------------------------------------------------
  // show_info: the disk lines

  /** A disk row as the display prints it: the text of each field. */
  datatype DisplayRow = DisplayRow(model: string, size: string, dtype: string)

  /** `f"Model: {model}    Size: {size}    Type: {dtype}"`: the line holds a
      line break exactly when one of the fields does. */
  function DisplayLine(r: DisplayRow): (line: string)
    ensures '\n' in line <==> '\n' in r.model || '\n' in r.size || '\n' in r.dtype
  {
    "Model: " + r.model + "    Size: " + r.size + "    Type: " + r.dtype
  }

  function DisplayLines(rows: seq<DisplayRow>): (lines: seq<string>)
    ensures |lines| == |rows|
  {
    seq(|rows|, k requires 0 <= k < |rows| => DisplayLine(rows[k]))
  }

  /** The loop appending to `disk_lines`, then `"\n".join(disk_lines)`. */
  method DiskDisplayText(rows: seq<DisplayRow>) returns (text: string)
    ensures text == Join(DisplayLines(rows), "\n")
  {
    var diskLines: seq<string> := [];
    for i := 0 to |rows|
      invariant diskLines == DisplayLines(rows[..i])
    {
      diskLines := diskLines + [DisplayLine(rows[i])];
    }
    assert rows[..|rows|] == rows;
    text := Join(diskLines, "\n");
  }

  /** With no line break inside the fields, the display text has one line per
      row, in row order; with no rows it is empty. */
  lemma DisplayLinesReadBack(rows: seq<DisplayRow>)
    requires forall k :: 0 <= k < |rows| ==>
      '\n' !in rows[k].model && '\n' !in rows[k].size && '\n' !in rows[k].dtype
    ensures rows == [] ==> Join(DisplayLines(rows), "\n") == ""
    ensures rows != [] ==> Split(Join(DisplayLines(rows), "\n"), '\n') == DisplayLines(rows)
  {
    if rows != [] {
      SplitJoin(DisplayLines(rows), '\n');
    }
  }

  // ---------------------------------------------------------------------------
  // export_to_pdf

  /** `f"{info['System Name']}-Asset-Info.pdf"` */
  function DefaultFilename(systemName: string): (f: string)
    ensures |f| == |systemName| + 15
    ensures f[..|systemName|] == systemName && f[|systemName|..] == "-Asset-Info.pdf"
  {
    systemName + "-Asset-Info.pdf"
  }
}
