/** The first version of the inventory tool: its wmic probes, modelled as
    functions of the text each wmic command prints, with the loops the
    probes run as methods proved against those functions. */
module AssetInfo {
  import opened Strings
  import opened Wrappers
  import opened Gigabytes

  /** `get_ram`: the total memory in bytes, as a two-decimal gigabyte text
      whose whole part has no leading zero. */
  function GetRam(totalBytes: nat): (r: string)
    ensures ParseGigabytes(r) == Some(RoundedHundredths(totalBytes))
    ensures |r| >= 7 && (r[0] != '0' || r[1] == '.')
  {
    FormatGigabytes(totalBytes)
  }

  // ---------------------------------------------------------------------------
  // get_disks_physical

  /** One row of the disk table: the model and the size text. */
  datatype DiskRow = DiskRow(model: string, size: string)

  /** The size column: a digit string is a byte count shown in gigabytes
      (no leading zero in the whole part), anything else (the empty field
      included) is `Unknown Size`. */
  function SizeText(field: string): (r: string)
    ensures IsDigits(field) ==> ParseGigabytes(r) == Some(RoundedHundredths(ParseDigits(field)))
    ensures IsDigits(field) ==> |r| >= 7 && (r[0] != '0' || r[1] == '.')
    ensures !IsDigits(field) <==> r == UnknownSize
    ensures |r| >= 3 && r[|r| - 3..] != " GB" <==> r == UnknownSize
  {
    if IsDigits(field) then
      FormatGigabytes(ParseDigits(field))
    else
      UnknownSize
  }

  /** The row one line of `wmic diskdrive get Model,Size /format:csv` output
      contributes, if any. */
  function LineRow(line: string): (r: Option<DiskRow>)
    ensures r.Some? ==> PyStrip(line) != "" && !StartsWith(line, "Node,")
    ensures r.Some? ==> ',' !in r.value.model && !Contains(Lower(r.value.model), "virtual")
  {
    var text := PyStrip(line);
    if text == "" || StartsWith(line, "Node,") then None
    else
      var parts := Split(text, ',');
      if |parts| != 3 then None
      else
        if Contains(Lower(parts[1]), "virtual") then None
        else Some(DiskRow(parts[1], SizeText(parts[2])))
  }

  function RowsOf(r: Option<DiskRow>): seq<DiskRow> {
    if r.Some? then [r.value] else []
  }

  /** The rows of all lines, in line order: at most one per line, and none
      naming a virtual drive or holding a comma in its model. */
  function DiskRows(lines: seq<string>): (rows: seq<DiskRow>)
    ensures |rows| <= |lines|
    ensures forall j :: 0 <= j < |rows| ==>
      !Contains(Lower(rows[j].model), "virtual") && ',' !in rows[j].model
  {
    if lines == [] then []
    else DiskRows(lines[..|lines| - 1]) + RowsOf(LineRow(lines[|lines| - 1]))
  }

  /** The loop of `get_disks_physical` over the lines of the captured output. */
  method GetDisksPhysical(output: string) returns (disks: seq<DiskRow>)
    ensures disks == DiskRows(Split(output, '\n'))
  {
    var lines := Split(output, '\n');
    disks := [];
    for i := 0 to |lines|
      invariant disks == DiskRows(lines[..i])
    {
      var line := lines[i];
      DiskRowsStep(lines, i);
      if PyStrip(line) != "" && !StartsWith(line, "Node,") {
        var parts := Split(PyStrip(line), ',');
        if |parts| == 3 {
          var model, size := parts[1], parts[2];
          if Contains(Lower(model), "virtual") {
            continue;
          }
          var sizeGb := if IsDigits(size) then FormatGigabytes(ParseDigits(size)) else UnknownSize;
          disks := disks + [DiskRow(model, sizeGb)];
        }
      }
    }
    assert lines[..|lines|] == lines;
  }

  /** One more line adds that line's row, if any. */
  lemma DiskRowsStep(lines: seq<string>, i: nat)
    requires i < |lines|
    ensures DiskRows(lines[..i + 1]) == DiskRows(lines[..i]) + RowsOf(LineRow(lines[i]))
  {
    assert lines[..i + 1][..i] == lines[..i];
  }

  /** Rows keep the order of their lines. */
  lemma {:induction false} DiskRowsAppend(a: seq<string>, b: seq<string>)
    ensures DiskRows(a + b) == DiskRows(a) + DiskRows(b)
  {
    if b == [] {
      assert a + b == a;
    } else {
      assert (a + b)[..|a + b| - 1] == a + b[..|b| - 1];
      DiskRowsAppend(a, b[..|b| - 1]);
    }
  }

  /** Every row is the row of one of the lines. */
  lemma {:induction false} DiskRowsFromLines(lines: seq<string>)
    ensures forall j :: 0 <= j < |DiskRows(lines)| ==>
      exists k :: 0 <= k < |lines| && LineRow(lines[k]) == Some(DiskRows(lines)[j])
  {
    if lines != [] {
      var init := lines[..|lines| - 1];
      DiskRowsFromLines(init);
      DiskRowsStep(lines, |lines| - 1);
      assert lines[..|lines| - 1 + 1] == lines;
      var rows := DiskRows(lines);
      forall j | 0 <= j < |DiskRows(lines)|
        ensures exists k :: 0 <= k < |lines| && LineRow(lines[k]) == Some(DiskRows(lines)[j])
      {
        if j < |DiskRows(init)| {
          var k :| 0 <= k < |init| && LineRow(init[k]) == Some(DiskRows(init)[j]);
          assert lines[k] == init[k];
        } else {
          assert LineRow(lines[|lines| - 1]) == Some(rows[j]);
        }
      }
    } else {
      assert |DiskRows(lines)| == 0;
    }
  }

  /** The size of a line's row is a gigabyte text or `Unknown Size`. */
  lemma LineRowSize(line: string)
    ensures var r := LineRow(line);
      r.Some? ==> ParseGigabytes(r.value.size).Some? || r.value.size == UnknownSize
  {
    var r := LineRow(line);
    if r.Some? {
      var parts := Split(PyStrip(line), ',');
      assert r.value.size == SizeText(parts[2]);
      if !IsDigits(parts[2]) {
        assert r.value.size == UnknownSize;
      }
    }
  }

  /** Every size in the disk table is a gigabyte text or `Unknown Size`. */
  lemma DiskRowSizes(lines: seq<string>)
    ensures forall j :: 0 <= j < |DiskRows(lines)| ==>
      ParseGigabytes(DiskRows(lines)[j].size).Some? || DiskRows(lines)[j].size == UnknownSize
  {
    var rows := DiskRows(lines);
    DiskRowsFromLines(lines);
    forall j | 0 <= j < |rows|
      ensures ParseGigabytes(rows[j].size).Some? || rows[j].size == UnknownSize
    {
      var k :| 0 <= k < |lines| && LineRow(lines[k]) == Some(rows[j]);
      LineRowSize(lines[k]);
    }
  }

  /** A text starting with a comma-free field other than `Node` and a comma
      does not start with the header's `Node,`, whatever follows. */
  lemma NotHeader(node: string, rest: string, post: string)
    requires ',' !in node && node != "Node"
    ensures !StartsWith(node + "," + rest + post, "Node,")
  {
    var s := node + "," + rest + post;
    if |s| >= 5 {
      if |node| < 4 {
        assert s[..5][|node|] == ',' != "Node,"[|node|];
      } else if |node| == 4 {
        assert s[..5][..4] == node;
      } else {
        assert s[..5][4] == node[4] != ',';
      }
    }
  }

  /** A CSV data line as wmic writes it: comma-free fields, the first of
      which is not the `Node` header, whose joined text has no whitespace at
      either end, followed by line-end whitespace (the `\r` before `\n`). */
  predicate DataLine(fields: seq<string>, post: string) {
    && |fields| >= 2
    && (forall k :: 0 <= k < |fields| ==> ',' !in fields[k])
    && fields[0] != "Node"
    && (forall k :: 0 <= k < |post| ==> IsPySpace(post[k]))
    && var text := Join(fields, ",");
       |text| > 0 && !IsPySpace(text[0]) && !IsPySpace(text[|text| - 1])
  }

  /** A data line passes the blank and header tests and splits back into its
      fields. */
  lemma DataLineParts(fields: seq<string>, post: string)
    requires DataLine(fields, post)
    ensures var line := Join(fields, ",") + post;
      PyStrip(line) == Join(fields, ",") && PyStrip(line) != ""
      && !StartsWith(line, "Node,") && Split(PyStrip(line), ',') == fields
  {
    var text := Join(fields, ",");
    assert PyStrip(text + post) == text by {
      TrimAround(text, post, PyWhitespace);
    }
    assert Split(text, ',') == fields by {
      SplitJoin(fields, ',');
    }
    assert !StartsWith(text + post, "Node,") by {
      assert text == fields[0] + "," + Join(fields[1..], ",");
      NotHeader(fields[0], Join(fields[1..], ","), post);
    }
  }

  /** A three-field data line gives the row of its second and third fields,
      unless the second names a virtual drive. */
  lemma LineRowOfData(fields: seq<string>, post: string)
    requires DataLine(fields, post) && |fields| == 3
    ensures LineRow(Join(fields, ",") + post)
      == if Contains(Lower(fields[1]), "virtual") then None else Some(DiskRow(fields[1], SizeText(fields[2])))
  {
    DataLineParts(fields, post);
  }

  /** Every row comes from a line that is exactly three comma-free fields once
      stripped, the row holding the second field and the size text of the
      third. */
  lemma LineRowShape(line: string)
    requires LineRow(line).Some?
    ensures exists fields :: (|fields| == 3 && PyStrip(line) == Join(fields, ",")
      && (forall k :: 0 <= k < 3 ==> ',' !in fields[k])
      && LineRow(line).value == DiskRow(fields[1], SizeText(fields[2])))
  {
    var fields := Split(PyStrip(line), ',');
    JoinSplit(PyStrip(line), ',');
    assert LineRow(line).value == DiskRow(fields[1], SizeText(fields[2]));
  }

  // ---------------------------------------------------------------------------
  // get_system_model and get_cpu_tag

  /** The first line that is not blank once stripped, stripped; `sentinel`
      when every line is blank. */
  function FirstFilled(lines: seq<string>, sentinel: string): (r: string)
    ensures (forall k :: 0 <= k < |lines| ==> PyStrip(lines[k]) == "") ==> r == sentinel
    ensures forall k :: (0 <= k < |lines| && PyStrip(lines[k]) != ""
      && (forall j :: 0 <= j < k ==> PyStrip(lines[j]) == "")) ==> r == PyStrip(lines[k])
    ensures r == sentinel || (r != "" && PyStrip(r) == r)
  {
    if lines == [] then sentinel
    else if PyStrip(lines[0]) != "" then
      TrimIdempotent(lines[0], PyWhitespace);
      PyStrip(lines[0])
    else
      var r := FirstFilled(lines[1..], sentinel);
      assert forall k :: 1 <= k < |lines| ==> lines[k] == lines[1..][k - 1];
      r
  }

  /** The lines of `output.strip().split('\n')` after the first (the column
      header), searched for the first filled one. The header line is never the
      answer: output that is one line once stripped gives the sentinel. Any
      other answer is a non-empty text with no whitespace at its ends. */
  function AfterHeader(output: string, sentinel: string): (r: string)
    ensures '\n' !in PyStrip(output) ==> r == sentinel
    ensures r == sentinel || (r != "" && PyStrip(r) == r)
  {
    var lines := Split(PyStrip(output), '\n');
    assert '\n' !in PyStrip(output) ==> |lines| == 1 by {
      if '\n' !in PyStrip(output) {
        SplitFree(PyStrip(output), '\n');
      }
    }
    FirstFilled(lines[1..], sentinel)
  }

  /** The loop `for line in result[1:]: if line.strip(): return line.strip()`
      shared by `get_system_model` and `get_cpu_tag`. */
  method ScanAfterHeader(output: string, sentinel: string) returns (r: string)
    ensures r == AfterHeader(output, sentinel)
  {
    var lines := Split(PyStrip(output), '\n');
    assert AfterHeader(output, sentinel) == FirstFilled(lines[1..], sentinel);
    for i := 1 to |lines|
      invariant FirstFilled(lines[i..], sentinel) == FirstFilled(lines[1..], sentinel)
    {
      if PyStrip(lines[i]) != "" {
        return PyStrip(lines[i]);
      }
      assert lines[i..][1..] == lines[i + 1..];
    }
    return sentinel;
  }

  const UnknownModel := "Unknown Model"

  /** `get_system_model` over the output of `wmic computersystem get model`. */
  method GetSystemModel(output: string) returns (model: string)
    ensures model == AfterHeader(output, UnknownModel)
  {
    model := ScanAfterHeader(output, UnknownModel);
  }

  /** `get_cpu_tag` over the output of `wmic bios get serialnumber`. */
  method GetCpuTag(output: string) returns (tag: string)
    ensures tag == AfterHeader(output, NotFound)
  {
    tag := ScanAfterHeader(output, NotFound);
  }

  /** Which line `FirstFilled` answers with, or -1 for the sentinel. */
  lemma {:induction false} FirstFilledShape(lines: seq<string>, sentinel: string) returns (k: int)
    ensures -1 <= k < |lines|
    ensures k == -1 ==> FirstFilled(lines, sentinel) == sentinel
    ensures k >= 0 ==> FirstFilled(lines, sentinel) == PyStrip(lines[k]) && PyStrip(lines[k]) != ""
  {
    if lines == [] {
      k := -1;
    } else if PyStrip(lines[0]) != "" {
      k := 0;
    } else {
      var j := FirstFilledShape(lines[1..], sentinel);
      k := if j == -1 then -1 else j + 1;
    }
  }

  // ---------------------------------------------------------------------------
  // get_cpu_details

  /** `f"{name}, {freq} MHz, {cores} Core(s), {logical} Logical Processor(s)"`
      after `_, name, cores, logical, freq = parts`: the fields are taken by
      position. */
  function CpuSummary(parts: seq<string>): (r: string)
    requires |parts| == 5
    ensures (forall k :: 0 <= k < 5 ==> ',' !in parts[k]) ==>
      Split(r, ',') == [parts[1], " " + parts[4] + " MHz", " " + parts[2] + " Core(s)",
                        " " + parts[3] + " Logical Processor(s)"]
  {
    var pieces := [parts[1], " " + parts[4] + " MHz", " " + parts[2] + " Core(s)",
                   " " + parts[3] + " Logical Processor(s)"];
    assert (forall k :: 0 <= k < 5 ==> ',' !in parts[k]) ==> Split(Join(pieces, ","), ',') == pieces by {
      if forall k :: 0 <= k < 5 ==> ',' !in parts[k] {
        SplitJoin(pieces, ',');
      }
    }
    JoinFour(pieces, ",");
    SummaryPieces(parts[1], parts[4], parts[2], parts[3]);
    parts[1] + ", " + parts[4] + " MHz, " + parts[2] + " Core(s), " + parts[3] + " Logical Processor(s)"
  }

  /** The summary's commas are the ones that separate its four pieces. */
  lemma SummaryPieces(name: string, freq: string, cores: string, logical: string)
    ensures name + ", " + freq + " MHz, " + cores + " Core(s), " + logical + " Logical Processor(s)"
      == name + "," + (" " + freq + " MHz") + "," + (" " + cores + " Core(s)") + ","
         + (" " + logical + " Logical Processor(s)")
  {
    assert ", " == "," + " ";
    assert " MHz, " == " MHz" + "," + " ";
    assert " Core(s), " == " Core(s)" + "," + " ";
  }

  /** A join of four parts, written out. */
  lemma JoinFour(p: seq<string>, sep: string)
    requires |p| == 4
    ensures Join(p, sep) == p[0] + sep + p[1] + sep + p[2] + sep + p[3]
  {
    assert Join(p[3..], sep) == p[3];
    assert Join(p[2..], sep) == p[2] + sep + p[3] by {
      assert p[2..][1..] == p[3..];
    }
    assert Join(p[1..], sep) == p[1] + sep + (p[2] + sep + p[3]) by {
      assert p[1..][1..] == p[2..];
    }
  }

  /** The summary a line of `wmic cpu get ... /format:csv` gives, if any:
      only a non-blank line that does not start with the header's `Node,` and
      strips to exactly five fields has one, and its summary splits back on
      commas into the second field and the fifth, third and fourth fields
      with their units. */
  function CpuLine(line: string): (r: Option<string>)
    ensures r.Some? <==> PyStrip(line) != "" && !StartsWith(line, "Node,") && |Split(PyStrip(line), ',')| == 5
    ensures r.Some? ==> var f := Split(PyStrip(line), ',');
      Split(r.value, ',') == [f[1], " " + f[4] + " MHz", " " + f[2] + " Core(s)",
                              " " + f[3] + " Logical Processor(s)"]
  {
    if PyStrip(line) == "" || StartsWith(line, "Node,") then None
    else
      var parts := Split(PyStrip(line), ',');
      if |parts| == 5 then Some(CpuSummary(parts)) else None
  }

  const UnknownCpu := "Unknown CPU"

  /** The summary of the first line that has one; `Unknown CPU` when none has. */
  function FirstCpu(lines: seq<string>): (r: string)
    ensures (forall k :: 0 <= k < |lines| ==> CpuLine(lines[k]).None?) ==> r == UnknownCpu
    ensures forall k :: (0 <= k < |lines| && CpuLine(lines[k]).Some?
      && (forall j :: 0 <= j < k ==> CpuLine(lines[j]).None?)) ==> r == CpuLine(lines[k]).value
  {
    if lines == [] then UnknownCpu
    else if CpuLine(lines[0]).Some? then CpuLine(lines[0]).value
    else
      var r := FirstCpu(lines[1..]);
      assert forall k :: 1 <= k < |lines| ==> lines[k] == lines[1..][k - 1];
      r
  }

  /** The loop of `get_cpu_details` over the lines of the captured output. */
  method GetCpuDetails(output: string) returns (details: string)
    ensures details == FirstCpu(Split(output, '\n'))
  {
    var lines := Split(output, '\n');
    for i := 0 to |lines|
      invariant FirstCpu(lines[i..]) == FirstCpu(lines)
    {
      var line := lines[i];
      if PyStrip(line) != "" && !StartsWith(line, "Node,") {
        var parts := Split(PyStrip(line), ',');
        if |parts| == 5 {
          return CpuSummary(parts);
        }
      }
      assert lines[i..][1..] == lines[i + 1..];
    }
    return UnknownCpu;
  }

  /** A five-field data line is summarised from its fields by position: the
      second field as the name, the fifth as the MHz, the third as the cores
      and the fourth as the logical processors. */
  lemma CpuLineOfData(fields: seq<string>, post: string)
    requires DataLine(fields, post) && |fields| == 5
    ensures CpuLine(Join(fields, ",") + post) == Some(fields[1] + ", " + fields[4] + " MHz, "
      + fields[2] + " Core(s), " + fields[3] + " Logical Processor(s)")
  {
    DataLineParts(fields, post);
  }

  // ---------------------------------------------------------------------------
  // export_to_pdf

  /** `f"{info['System Name']}-Info.pdf"`: the system name, then `-Info.pdf`. */
  function DefaultFilename(systemName: string): (f: string)
    ensures |f| == |systemName| + 9
    ensures f[..|systemName|] == systemName && f[|systemName|..] == "-Info.pdf"
  {
    systemName + "-Info.pdf"
  }
}
