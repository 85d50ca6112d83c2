/** The PowerShell script both versions of the tool embed to list monitors
    (`WmiMonitorID`): decode each monitor's friendly name and serial from
    character-code arrays, trim them, keep monitors with both values, and join
    the entries with a blank line. The Python caller then strips the captured
    output. */
module Monitors {
  import opened Strings
  import opened Wrappers

  newtype Byte = x: int | 0 <= x < 256

  /** A `WmiMonitorID` property as the script sees it: an array of character
      codes, or something that is not an array (absent or null). */
  datatype WmiField = CodeArray(codes: seq<Byte>) | NotAnArray

  datatype MonitorId = MonitorId(userFriendlyName: WmiField, serialNumberId: WmiField)

  /** The two values the script computes for a monitor, `$name` and `$serial`. */
  datatype Labels = Labels(name: string, serial: string)

  /** `[System.Text.Encoding]::ASCII.GetString`: 7-bit codes decode to
      themselves, every other code to `'?'`. */
  function AsciiGetString(codes: seq<Byte>): (s: string)
    ensures |s| == |codes|
    ensures forall k :: 0 <= k < |codes| ==>
      (codes[k] < 128 ==> s[k] as int == codes[k] as int) && (codes[k] >= 128 ==> s[k] == '?')
    ensures forall k :: 0 <= k < |s| ==> s[k] < 128 as char
  {
    seq(|codes|, k requires 0 <= k < |codes| =>
      if codes[k] < 128 then (codes[k] as int) as char else '?')
  }

  /** The script's `Decode`: an array is decoded and trimmed of NUL padding
      (`.Trim([char]0)`), so it is no longer than the array and neither starts
      nor ends with NUL; anything else becomes `"Not Found"`. */
  function Decode(field: WmiField): (s: string)
    ensures field.NotAnArray? ==> s == NotFound
    ensures field.CodeArray? ==> |s| <= |field.codes| && (s != [] ==> s[0] != '\0' && s[|s| - 1] != '\0')
  {
    match field
    case CodeArray(codes) =>
      TrimIsMiddle(AsciiGetString(codes), NulChar);
      Trim(AsciiGetString(codes), NulChar)
    case NotAnArray => NotFound
  }

  /** `$name = (Decode $monitor.UserFriendlyName).Trim()` and
      `$serial = (Decode $monitor.SerialNumberID).Trim()`: neither value
      starts or ends with .NET whitespace. */
  function LabelsOf(m: MonitorId): (l: Labels)
    ensures DotNetTrimmed(l.name) && DotNetTrimmed(l.serial)
  {
    Labels(DotNetTrim(Decode(m.userFriendlyName)), DotNetTrim(Decode(m.serialNumberId)))
  }

  /** The labels of every monitor, in enumeration order. */
  function AllLabels(ms: seq<MonitorId>): (ls: seq<Labels>)
    ensures |ls| == |ms|
  {
    if ms == [] then [] else AllLabels(ms[..|ms| - 1]) + [LabelsOf(ms[|ms| - 1])]
  }

  /** `"Name: $name`nSerial: $serial"` */
  function EntryText(name: string, serial: string): string {
    "Name: " + name + "\nSerial: " + serial
  }

  /** The entry `$result` gets for one monitor, if any: there is one exactly
      when both values are non-empty (`$name -and $serial`), and it is longer
      than the two values together. */
  function Entry(l: Labels): (e: Option<string>)
    ensures e.Some? <==> l.name != "" && l.serial != ""
    ensures e.Some? ==> |e.value| > |l.name| + |l.serial|
  {
    if l.name != "" && l.serial != "" then Some(EntryText(l.name, l.serial)) else None
  }

  /** When neither value holds a line break, an entry splits back into its
      name line and its serial line. */
  lemma EntryLines(l: Labels)
    requires Entry(l).Some? && '\n' !in l.name && '\n' !in l.serial
    ensures Split(Entry(l).value, '\n') == ["Name: " + l.name, "Serial: " + l.serial]
  {
    var name, serial := l.name, l.serial;
    var lines := ["Name: " + name, "Serial: " + serial];
    assert EntryText(name, serial) == Join(lines, "\n") by {
      assert "\nSerial: " == "\n" + "Serial: ";
      assert Join(lines, "\n") == lines[0] + "\n" + lines[1];
    }
    assert '\n' !in lines[0] && '\n' !in lines[1];
    SplitJoin(lines, '\n');
  }

  /** The entries of the monitors that qualify, in enumeration order. */
  function Entries(ls: seq<Labels>): seq<string> {
    if ls == [] then []
    else
      var e := Entry(ls[|ls| - 1]);
      Entries(ls[..|ls| - 1]) + (if e.Some? then [e.value] else [])
  }

  /** The script's output, `$result -join "`n`n"`: when it is not empty it
      starts with the `N` of `Name:` and does not end in .NET whitespace. */
  function MonitorBlock(ms: seq<MonitorId>): (b: string)
    ensures b != [] ==> b[0] == 'N' && !IsDotNetSpace(b[|b| - 1])
  {
    BlockShape(ms);
    Join(Entries(AllLabels(ms)), "\n\n")
  }

  lemma BlockShape(ms: seq<MonitorId>)
    ensures var b := Join(Entries(AllLabels(ms)), "\n\n");
      b != [] ==> b[0] == 'N' && !IsDotNetSpace(b[|b| - 1])
  {
    AllLabelsTrimmed(ms);
    BlockEnds(AllLabels(ms));
  }

  /** The script's loop: accumulate one entry per qualifying monitor, then
      join them. */
  method MonitorScript(monitors: seq<MonitorId>) returns (output: string)
    ensures output == MonitorBlock(monitors)
  {
    var result: seq<string> := [];
    for i := 0 to |monitors|
      invariant result == Entries(AllLabels(monitors[..i]))
    {
      var name := DotNetTrim(Decode(monitors[i].userFriendlyName));
      var serial := DotNetTrim(Decode(monitors[i].serialNumberId));
      AllLabelsSnoc(monitors, i);
      EntriesSnoc(AllLabels(monitors[..i]), Labels(name, serial));
      if name != "" && serial != "" {
        result := result + [EntryText(name, serial)];
      }
    }
    assert monitors[..|monitors|] == monitors;
    output := Join(result, "\n\n");
  }

  lemma AllLabelsSnoc(ms: seq<MonitorId>, i: nat)
    requires i < |ms|
    ensures AllLabels(ms[..i + 1]) == AllLabels(ms[..i]) + [LabelsOf(ms[i])]
  {
    assert ms[..i + 1][..i] == ms[..i];
  }

  lemma EntriesSnoc(ls: seq<Labels>, l: Labels)
    ensures Entries(ls + [l]) == Entries(ls) + (if Entry(l).Some? then [Entry(l).value] else [])
  {
    assert (ls + [l])[..|ls|] == ls;
  }

  /** The labels of the `k`-th monitor are the `k`-th labels. */
  lemma {:induction false} AllLabelsAt(ms: seq<MonitorId>, k: nat)
    requires k < |ms|
    ensures AllLabels(ms)[k] == LabelsOf(ms[k])
  {
    if k < |ms| - 1 {
      AllLabelsAt(ms[..|ms| - 1], k);
    }
  }

  /** Entries keep the enumeration order: the entries of a concatenation are
      the entries of each part, one after the other. */
  lemma {:induction false} EntriesAppend(a: seq<Labels>, b: seq<Labels>)
    ensures Entries(a + b) == Entries(a) + Entries(b)
  {
    if b != [] {
      assert (a + b)[..|a + b| - 1] == a + b[..|b| - 1];
      assert (a + b)[|a + b| - 1] == b[|b| - 1];
      EntriesAppend(a, b[..|b| - 1]);
    } else {
      assert a + b == a;
    }
  }

  /** At most one entry per monitor, and every entry is the entry of one of
      the monitors. */
  lemma {:induction false} EntriesFrom(ls: seq<Labels>)
    ensures |Entries(ls)| <= |ls|
    ensures forall e :: e in Entries(ls) ==> exists l :: l in ls && Entry(l) == Some(e)
  {
    if ls != [] {
      EntriesFrom(ls[..|ls| - 1]);
      assert ls[|ls| - 1] in ls;
      forall l | l in ls[..|ls| - 1] ensures l in ls { }
    }
  }

  /** No entry at all exactly when no monitor qualifies. */
  lemma {:induction false} EntriesNone(ls: seq<Labels>)
    ensures Entries(ls) == [] <==> forall l :: l in ls ==> Entry(l).None?
  {
    if ls != [] {
      var init := ls[..|ls| - 1];
      EntriesNone(init);
      assert ls == init + [ls[|ls| - 1]];
      assert forall l :: l in ls <==> l in init || l == ls[|ls| - 1];
    }
  }

  /** No entry is empty. */
  lemma {:induction false} EntriesLong(ls: seq<Labels>)
    ensures forall k :: 0 <= k < |Entries(ls)| ==> |Entries(ls)[k]| > 0
  {
    if ls != [] {
      EntriesLong(ls[..|ls| - 1]);
    }
  }

  /** No entry exactly when no label qualifies, stated by position. */
  lemma {:induction false} EntriesNoneAt(ls: seq<Labels>)
    ensures Entries(ls) == [] <==> forall k :: 0 <= k < |ls| ==> Entry(ls[k]).None?
  {
    if ls != [] {
      var init := ls[..|ls| - 1];
      EntriesNoneAt(init);
      assert forall k :: 0 <= k < |init| ==> init[k] == ls[k];
    }
  }

  /** The joined entries are empty exactly when no labels qualify. */
  lemma JoinedEntriesEmpty(ls: seq<Labels>)
    ensures Join(Entries(ls), "\n\n") == "" <==>
      forall k :: 0 <= k < |ls| ==> ls[k].name == "" || ls[k].serial == ""
  {
    EntriesNoneAt(ls);
    var es := Entries(ls);
    if es != [] {
      EntriesLong(ls);
      JoinStartsWithFirst(es, "\n\n");
    }
  }

  /** The block is empty exactly when no monitor has both a name and a
      serial. */
  lemma MonitorBlockEmpty(ms: seq<MonitorId>)
    ensures MonitorBlock(ms) == "" <==>
      forall k :: 0 <= k < |ms| ==> LabelsOf(ms[k]).name == "" || LabelsOf(ms[k]).serial == ""
  {
    var ls := AllLabels(ms);
    JoinedEntriesEmpty(ls);
    forall k | 0 <= k < |ms| ensures ls[k] == LabelsOf(ms[k]) {
      AllLabelsAt(ms, k);
    }
  }

  /** A join whose first part is non-empty starts with that part's first
      character. */
  lemma JoinStartsWithFirst(parts: seq<string>, sep: string)
    requires |parts| > 0 && |parts[0]| > 0
    ensures |Join(parts, sep)| > 0 && Join(parts, sep)[0] == parts[0][0]
  {
  }

  /** A join whose last part is non-empty ends with that part's last character. */
  lemma {:induction false} JoinEndsWithLast(parts: seq<string>, sep: string)
    requires |parts| > 0 && |parts[|parts| - 1]| > 0
    ensures var j := Join(parts, sep); var l := parts[|parts| - 1];
      |j| > 0 && j[|j| - 1] == l[|l| - 1]
  {
    if |parts| > 1 {
      JoinEndsWithLast(parts[1..], sep);
    }
  }

  /** The serial the script keeps never ends in whitespace `.Trim()` removes. */
  predicate SerialTrimmed(l: Labels) {
    l.serial != [] ==> !IsDotNetSpace(l.serial[|l.serial| - 1])
  }

  lemma AllLabelsTrimmed(ms: seq<MonitorId>)
    ensures forall k :: 0 <= k < |AllLabels(ms)| ==> SerialTrimmed(AllLabels(ms)[k])
  {
    forall k | 0 <= k < |AllLabels(ms)| ensures SerialTrimmed(AllLabels(ms)[k]) {
      AllLabelsAt(ms, k);
    }
  }

  /** A non-empty block starts with `N` and does not end in .NET
      whitespace. */
  lemma BlockEnds(ls: seq<Labels>)
    requires forall k :: 0 <= k < |ls| ==> SerialTrimmed(ls[k])
    ensures var b := Join(Entries(ls), "\n\n"); b != [] ==> b[0] == 'N' && !IsDotNetSpace(b[|b| - 1])
  {
    var es := Entries(ls);
    if es != [] {
      EntriesFrom(ls);
      assert es[0] in es;
      JoinStartsWithFirst(es, "\n\n");
      var last := es[|es| - 1];
      assert last in es;
      var l :| l in ls && Entry(l) == Some(last);
      var i :| 0 <= i < |ls| && ls[i] == l;
      assert SerialTrimmed(ls[i]);
      assert last[|last| - 1] == l.serial[|l.serial| - 1];
      JoinEndsWithLast(es, "\n\n");
    }
  }

  /** The Python side: `result.decode(errors="ignore").strip()` of the
      captured output. The result is empty exactly when the output is only
      whitespace, and stripping it again changes nothing. */
  function GetMonitorTags(captured: string): (tags: string)
    ensures tags == "" <==> forall k :: 0 <= k < |captured| ==> IsPySpace(captured[k])
    ensures PyStrip(tags) == tags
  {
    TrimEmpty(captured, PyWhitespace);
    TrimIdempotent(captured, PyWhitespace);
    PyStrip(captured)
  }

  /** The console writes the script's block followed by a line break; the
      Python strip gives back the block itself, unless the last serial ends in
      one of the separators U+001C..U+001F, which Python strips and `.Trim()`
      keeps. */
  lemma MonitorTagsOfScriptOutput(ms: seq<MonitorId>)
    requires var b := MonitorBlock(ms); b == "" || !('\U{1c}' <= b[|b| - 1] <= '\U{1f}')
    ensures GetMonitorTags(MonitorBlock(ms) + "\r\n") == MonitorBlock(ms)
  {
    StripBlock(MonitorBlock(ms));
  }

  lemma StripBlock(b: string)
    requires b != [] ==> b[0] == 'N' && !IsDotNetSpace(b[|b| - 1]) && !('\U{1c}' <= b[|b| - 1] <= '\U{1f}')
    ensures PyStrip(b + "\r\n") == b
  {
    if b != [] {
      SpaceNotionsDiffer(b[|b| - 1]);
    }
    TrimAround(b, "\r\n", PyWhitespace);
  }

  /** The 7-bit character codes of a text, as WMI stores them. */
  function AsciiCodes(s: string): (codes: seq<Byte>)
    requires forall k :: 0 <= k < |s| ==> s[k] < 128 as char
    ensures |codes| == |s|
  {
    seq(|s|, k requires 0 <= k < |s| => (s[k] as int) as Byte)
  }

  /** `n` NUL codes: the padding WMI puts after a short value. */
  function NulPadding(n: nat): (codes: seq<Byte>)
    ensures |codes| == n
  {
    seq(n, _ => 0 as Byte)
  }

  /** A value stored the way WMI stores it: 7-bit codes, then NUL padding. */
  function Stored(s: string, pad: nat): WmiField
    requires forall k :: 0 <= k < |s| ==> s[k] < 128 as char
  {
    CodeArray(AsciiCodes(s) + NulPadding(pad))
  }

  /** Decoding a 7-bit value stored with trailing NUL padding gives the value
      back, when the value neither starts nor ends with NUL. */
  lemma DecodeReadsBack(s: string, pad: nat)
    requires forall k :: 0 <= k < |s| ==> s[k] < 128 as char
    requires s != [] ==> s[0] != '\0' && s[|s| - 1] != '\0'
    ensures Decode(Stored(s, pad)) == s
  {
    var text := AsciiGetString(AsciiCodes(s) + NulPadding(pad));
    assert text == s + seq(pad, _ => '\0');
    TrimAround(s, seq(pad, _ => '\0'), NulChar);
  }

  /** A non-empty 7-bit value with no NUL and no whitespace at either end. */
  predicate Clean(s: string) {
    && s != []
    && (forall k :: 0 <= k < |s| ==> s[k] < 128 as char)
    && s[0] != '\0' && s[|s| - 1] != '\0'
    && !IsDotNetSpace(s[0]) && !IsDotNetSpace(s[|s| - 1])
  }

  /** A monitor whose stored name and serial are non-empty and have no
      padding or whitespace at their ends is listed with exactly those values. */
  lemma EntryOfStored(name: string, namePad: nat, serial: string, serialPad: nat)
    requires Clean(name) && Clean(serial)
    ensures Entry(LabelsOf(MonitorId(Stored(name, namePad), Stored(serial, serialPad))))
      == Some(EntryText(name, serial))
  {
    DecodeReadsBack(name, namePad);
    TrimKeeps(name, DotNetWhitespace);
    DecodeReadsBack(serial, serialPad);
    TrimKeeps(serial, DotNetWhitespace);
  }

  /** Two monitors whose entries are `e1` and `e2` give the block of the two
      entries separated by one blank line, in enumeration order. */
  lemma BlockOfTwo(m1: MonitorId, m2: MonitorId, e1: string, e2: string)
    requires Entry(LabelsOf(m1)) == Some(e1) && Entry(LabelsOf(m2)) == Some(e2)
    ensures MonitorBlock([m1, m2]) == e1 + "\n\n" + e2
  {
    TwoLabels(m1, m2);
    TwoEntries(LabelsOf(m1), LabelsOf(m2));
    assert Join([e1, e2], "\n\n") == e1 + "\n\n" + e2 by {
      assert [e1, e2][1..] == [e2];
    }
  }

  lemma TwoLabels(m1: MonitorId, m2: MonitorId)
    ensures AllLabels([m1, m2]) == [LabelsOf(m1), LabelsOf(m2)]
  {
    assert [m1, m2][..1] == [m1];
    OneLabel(m1);
  }

  lemma OneLabel(m: MonitorId)
    ensures AllLabels([m]) == [LabelsOf(m)]
  {
    assert [m][..0] == [];
  }

  lemma TwoEntries(l1: Labels, l2: Labels)
    requires Entry(l1).Some? && Entry(l2).Some?
    ensures Entries([l1, l2]) == [Entry(l1).value, Entry(l2).value]
  {
    EntriesSnoc([], l1);
    EntriesSnoc([l1], l2);
    assert [] + [l1] == [l1];
    assert [l1] + [l2] == [l1, l2];
  }

  /** A monitor whose name property is not an array is still listed, under
      the name `Not Found`, as long as its serial is non-empty. */
  lemma NotFoundNameIsKept(serial: WmiField)
    requires LabelsOf(MonitorId(NotAnArray, serial)).serial != ""
    ensures Entry(LabelsOf(MonitorId(NotAnArray, serial)))
      == Some(EntryText(NotFound, LabelsOf(MonitorId(NotAnArray, serial)).serial))
  {
    NotFoundTrimmed();
    assert LabelsOf(MonitorId(NotAnArray, serial)).name == NotFound;
  }

  /** `Trim()` leaves the sentinel alone: it neither starts nor ends in
      whitespace. */
  lemma NotFoundTrimmed()
    ensures DotNetTrim(NotFound) == NotFound
  {
    assert NotFound[0] == 'N' && NotFound[|NotFound| - 1] == 'd';
    TrimKeeps(NotFound, DotNetWhitespace);
  }
}
