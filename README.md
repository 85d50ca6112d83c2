# Asset Information GUI — a verified model of its probes

The Asset Information GUI is a Windows inventory tool in two versions
(`Asset_Info.py` and `v2/Asset_Info-v2.py`). Each version gathers a machine's
name, address, memory, model, CPU, BIOS serial, product key, disks and
monitors, then shows them in a window or exports them to a PDF. Most of the
tool is I/O: wmic and PowerShell subprocesses, sockets, psutil, tkinter and
reportlab. This project models the deterministic part inside the probes. Each
probe becomes a function of the text its command prints, or of the value
`json.loads` returned. The loops the probes run become methods, proved
against those functions.

The modules:

- `Strings` gives the text operations the probes rely on:
  - Python `str.strip`, `split`, `join`, `startswith`, `in`, `lower` and `isdigit`.
  - .NET `String.Trim()` and `Trim([char]0)`.
  - Whitespace follows each platform's own table. Python strips the
    separators U+001C..U+001F and .NET does not, so the model keeps the two
    whitespace notions apart.
  - `lower` and `isdigit` cover ASCII letters and digits only (see
    "Left out").
  - `split` takes a one-character separator, which is all the probes use.
  - The "Not Found" sentinel is defined once, as `Strings.NotFound`.
- `Gigabytes` gives `f"{n / (1024 ** 3):.2f} GB"` on unbounded integers.
  - For n below 2^53 the division by 2^30 is exact in binary floating point.
  - `.2f` then rounds the exact quotient to the nearest hundredth, ties to even.
  - `RoundedHundredths` states that rounding as a property.
  - The formatted text reads back to the same hundredths.
- `Monitors` covers the PowerShell script both versions embed, and the Python
  strip of its output:
  - The script decodes each `WmiMonitorID` name and serial from its
    character codes, trims NUL and then whitespace, and keeps monitors that
    have both values.
  - It joins the entries with a blank line.
- `AssetInfo` covers the wmic parsers of the first version: disks, system
  model, BIOS serial and CPU summary. It also covers the RAM text and the
  export file name.
- `PyJson` gives the Python values `json.loads` produces, with their truthiness,
  type names and `dict.get`.
- `AssetInfoV2` covers the second version:
  - the disk-record normaliser, with its single-object wrapping and exceptions;
  - the product-key sentinel;
  - the disk lines of the display;
  - the export file name.

The CPU summary of the first version takes the five CSV fields by position:
`_, name, cores, logical, freq`. It does so whatever order wmic prints its
columns in. The model keeps that positional reading as written.
`AssetInfo.CpuLineOfData` states which field lands where.

Three behaviours of the code worth noting:

- The v2 disk probe reports a failure as one `("Error", message, "Unknown")`
  row (v2/Asset_Info-v2.py:79-80).
- The monitor script's `Trim([char]0)` removes NUL characters at both ends of
  the decoded text (v2/Asset_Info-v2.py:117).
- The v1 BIOS serial is "Not Found" exactly when no line after the header is
  filled (Asset_Info.py:88-93).

## Model

| member | source | states |
|---|---|---|
| `Strings.PyStrip` | Asset_Info.py:35-36 | `str.strip()` never makes the text longer and leaves no Python whitespace at either end |
| `Strings.DotNetTrim` | v2/Asset_Info-v2.py:126-127 | `.Trim()` never makes the text longer and leaves no .NET whitespace at either end |
| `Strings.TrimIsMiddle` | Asset_Info.py:35-36 | trimming gives the contiguous middle of the text once every dropped character at either end is removed, and the result neither starts nor ends with a dropped character |
| `Strings.TrimEmpty` | v2/Asset_Info-v2.py:47-49 | stripping gives the empty text exactly when every character is whitespace |
| `Strings.TrimIdempotent` | v2/Asset_Info-v2.py:47 | stripping an already stripped text changes nothing |
| `Strings.SpaceNotionsDiffer` | v2/Asset_Info-v2.py:126-127 | .NET `Trim()` whitespace is Python `strip()` whitespace minus U+001C..U+001F |
| `Strings.Lower` | Asset_Info.py:39 | `lower()` keeps the length, turns each ASCII capital into its small letter and leaves every other character as it is |
| `Strings.Split` | Asset_Info.py:32 | `split(sep)` gives at least one field, and no field holds the separator |
| `Strings.JoinSplit` | Asset_Info.py:32 | joining the fields of `split(sep)` with `sep` gives the text back |
| `Strings.StartsWith` | Asset_Info.py:35 | defines `s.startswith(prefix)`: the prefix is no longer than the text and equals its first characters |
| `Strings.Contains` | Asset_Info.py:39 | defines `sub in s`: the text starts with `sub`, or its tail contains it |
| `Strings.ContainsAt` | Asset_Info.py:39 | `sub in s` holds exactly when `sub` occurs at some position of `s` |
| `Strings.IsDigits` | Asset_Info.py:41 | defines `s.isdigit()` on ASCII: the text is non-empty and every character is 0-9 |
| `Strings.Join` | v2/Asset_Info-v2.py:174 | defines `sep.join(parts)`: the parts in order with `sep` between neighbours, "" for no parts (the PowerShell `-join` at v2/Asset_Info-v2.py:132 behaves the same) |
| `Strings.SplitJoin` | v2/Asset_Info-v2.py:174 | splitting a join of separator-free parts on the separator gives the parts back |
| `Gigabytes.RoundedHundredths` | Asset_Info.py:24-25 | the hundredths printed are within half a hundredth of n/2^30, and even on an exact tie |
| `Gigabytes.NearestIsUnique` | Asset_Info.py:24-25 | any count of hundredths that is that close, and even on a tie, is the rounded one |
| `Gigabytes.NatToString` | Asset_Info.py:42 | `str(n)` is all digits, and starts with '0' only for zero, which is the one-digit "0" |
| `Gigabytes.ParseDigits` | Asset_Info.py:42 | defines `int(s)` on ASCII digits, most significant first, leading zeros allowed |
| `Gigabytes.CanonicalDigits` | Asset_Info.py:42 | a digit text without a leading zero is the decimal text of the number it reads as |
| `Gigabytes.TwoDigitsReadBack` | Asset_Info.py:42 | two digits read as a number below 100 whose zero-padded text they are |
| `Gigabytes.FormatIsCanonical` | Asset_Info.py:42 | the `.2f` GB text is the only text that reads back as the same hundredths and has no leading zero in its whole part |
| `Gigabytes.ParseNatToString` | Asset_Info.py:42 | the decimal text of a number reads back as that number |
| `Gigabytes.FormatGigabytes` | Asset_Info.py:42 | the `.2f` GB text of n bytes reads back as n/2^30 rounded to the nearest hundredth, ties to even, and its whole part has no leading zero |
| `Gigabytes.DecimalReadsBack` | Asset_Info.py:42 | whole digits, a point, two hundredths digits and " GB" read back as that many hundredths |
| `Gigabytes.UnknownSizeIsNotASize` | Asset_Info.py:44 | the "Unknown Size" sentinel never reads as a gigabyte amount |
| `Gigabytes.SixteenGiB` | v2/Asset_Info-v2.py:25-28 | 17179869184 bytes print as "16.00 GB" |
| `Gigabytes.OneGiB` | Asset_Info.py:41-42 | a size of 1073741824 bytes prints as "1.00 GB" |
| `AssetInfo.GetRam` | Asset_Info.py:22-25 | the RAM text reads back as the byte total rounded to hundredths of a GiB, and its whole part has no leading zero |
| `AssetInfo.SizeText` | Asset_Info.py:41-44 | a digit-only size field gives a GB text (ending " GB", no leading zero in its whole part) that reads back as its byte count rounded; anything else, the empty field included, gives "Unknown Size" |
| `AssetInfo.LineRow` | Asset_Info.py:34-45 | a line yields a row only if it is non-blank after strip and the unstripped line does not start with "Node,"; the row's model holds no comma and, lowercased, does not contain "virtual" |
| `AssetInfo.LineRowSize` | Asset_Info.py:41-45 | the size of a line's row is a GB text or "Unknown Size" |
| `AssetInfo.DiskRows` | Asset_Info.py:33-46 | there are never more rows than lines, no model names a virtual drive and no model holds a comma |
| `AssetInfo.GetDisksPhysical` | Asset_Info.py:27-46 | the loop (with its `continue`) returns exactly the rows of the output's lines, in line order |
| `AssetInfo.DiskRowsStep` | Asset_Info.py:34-45 | one more line appends exactly that line's row, if it has one |
| `AssetInfo.DiskRowsAppend` | Asset_Info.py:33-46 | the rows of two runs of lines are the rows of the first followed by those of the second |
| `AssetInfo.DiskRowsFromLines` | Asset_Info.py:33-46 | every row is the row of one of the lines |
| `AssetInfo.DiskRowSizes` | Asset_Info.py:41-45 | every size in the disk table is a GB text or "Unknown Size" |
| `AssetInfo.NotHeader` | Asset_Info.py:35 | a text whose first comma-free field is not "Node" does not start with "Node,", whatever follows the field's comma |
| `AssetInfo.DataLineParts` | Asset_Info.py:35-36 | a wmic data line (comma-free fields, first not "Node", trailing `\r`) passes the blank and header tests and splits back into its fields |
| `AssetInfo.LineRowOfData` | Asset_Info.py:34-45 | a three-field data line yields the row of its second and third fields, unless the second, lowercased, contains "virtual", in which case no row |
| `AssetInfo.LineRowShape` | Asset_Info.py:36-45 | every row comes from a line that strips to exactly three comma-free fields, holding the second field and the size text of the third |
| `AssetInfo.FirstFilled` | Asset_Info.py:55-57 | the result is the stripped text of the first line that is non-blank once stripped, or the sentinel when every line is blank; so it is the sentinel or a non-empty stripped text |
| `AssetInfo.AfterHeader` | Asset_Info.py:54-60 | output that strips to a single line (the header alone) gives the sentinel, so the header is never returned; any result is the sentinel or a non-empty stripped text |
| `AssetInfo.ScanAfterHeader` | Asset_Info.py:54-60 | the early-return loop over `result[1:]` returns the first filled line after the header, stripped, or the sentinel |
| `AssetInfo.GetSystemModel` | Asset_Info.py:50-60 | the system model is the first filled line after the header, or "Unknown Model" |
| `AssetInfo.GetCpuTag` | Asset_Info.py:84-93 | the BIOS serial is the first filled line after the header, or "Not Found" |
| `AssetInfo.FirstFilledShape` | Asset_Info.py:55-57 | names the line whose stripped text is returned, or none when the sentinel is |
| `AssetInfo.CpuSummary` | Asset_Info.py:72-73 | with comma-free fields, the summary splits on commas into the name, " freq MHz", " cores Core(s)" and " logical Logical Processor(s)", taking fields 1, 4, 2 and 3 |
| `AssetInfo.CpuLine` | Asset_Info.py:69-73 | a line has a summary exactly when it is non-blank once stripped, does not start with "Node," and strips to five fields; the summary splits back into the four pieces of those fields |
| `AssetInfo.FirstCpu` | Asset_Info.py:68-74 | the result is the summary of the first line that has one, or "Unknown CPU" when no line has |
| `AssetInfo.GetCpuDetails` | Asset_Info.py:62-74 | the early-return loop returns the summary of the first qualifying line, or "Unknown CPU" |
| `AssetInfo.CpuLineOfData` | Asset_Info.py:69-73 | a five-field data line f0..f4 gives "f1, f4 MHz, f2 Core(s), f3 Logical Processor(s)", by position |
| `AssetInfo.DefaultFilename` | Asset_Info.py:161 | the export file name is the system name followed by "-Info.pdf" |
| `Monitors.AsciiGetString` | v2/Asset_Info-v2.py:117 | one character per code: a code below 128 is that character, any other code is "?", so every character is 7-bit |
| `Monitors.Decode` | v2/Asset_Info-v2.py:114-122 | a value that is not an array gives "Not Found"; an array gives a text no longer than its codes that neither starts nor ends with NUL |
| `Monitors.LabelsOf` | v2/Asset_Info-v2.py:126-127 | neither the name nor the serial starts or ends with .NET whitespace |
| `Monitors.Entry` | v2/Asset_Info-v2.py:128-130 | a monitor gets an entry exactly when both its name and serial are non-empty, and the entry is longer than the two together |
| `Monitors.EntryLines` | v2/Asset_Info-v2.py:129 | with no line break in the values, an entry splits on "\n" into "Name: n" and "Serial: s" |
| `Monitors.MonitorBlock` | v2/Asset_Info-v2.py:132 | a non-empty block starts with the "N" of "Name:" and does not end in .NET whitespace |
| `Monitors.MonitorScript` | v2/Asset_Info-v2.py:123-132 | the script's loop and join print exactly the entries of the qualifying monitors, in order, joined by a blank line |
| `Monitors.AllLabels` | v2/Asset_Info-v2.py:125-127 | one name/serial pair per monitor, in enumeration order |
| `Monitors.Entries` | v2/Asset_Info-v2.py:125-131 | defines the `$result` accumulation: the entries of the qualifying monitors, in enumeration order |
| `Monitors.AllLabelsAt` | v2/Asset_Info-v2.py:125-127 | the k-th monitor's name and serial are computed from the k-th monitor alone |
| `Monitors.EntriesAppend` | v2/Asset_Info-v2.py:125-131 | entries keep the enumeration order |
| `Monitors.EntriesFrom` | v2/Asset_Info-v2.py:128-130 | at most one entry per monitor, and each entry is the entry of one of the monitors |
| `Monitors.EntriesNone` | v2/Asset_Info-v2.py:128-130 | there are no entries exactly when no monitor qualifies |
| `Monitors.EntriesLong` | v2/Asset_Info-v2.py:129 | no entry is empty |
| `Monitors.JoinedEntriesEmpty` | v2/Asset_Info-v2.py:128-132 | the joined entries are empty exactly when no monitor has both a name and a serial |
| `Monitors.MonitorBlockEmpty` | v2/Asset_Info-v2.py:125-132 | the script prints the empty text exactly when no monitor has both a non-empty name and a non-empty serial |
| `Monitors.AllLabelsTrimmed` | v2/Asset_Info-v2.py:127 | for every monitor, the serial the script computes does not end in .NET whitespace |
| `Monitors.BlockEnds` | v2/Asset_Info-v2.py:129-132 | when no serial ends in .NET whitespace, a non-empty block starts with "N" and does not end in .NET whitespace |
| `Monitors.GetMonitorTags` | v2/Asset_Info-v2.py:139 | the tags are empty exactly when the captured output is all whitespace, and they are already stripped |
| `Monitors.StripBlock` | v2/Asset_Info-v2.py:139 | a block that starts with "N" and ends in a character Python does not strip, followed by "\r\n", strips back to the block |
| `Monitors.MonitorTagsOfScriptOutput` | v2/Asset_Info-v2.py:139 | stripping the console output (block plus line break) gives the block back, unless the last serial ends in U+001C..U+001F |
| `Monitors.DecodeReadsBack` | v2/Asset_Info-v2.py:114-117 | a 7-bit value stored with trailing NUL padding decodes to itself |
| `Monitors.EntryOfStored` | v2/Asset_Info-v2.py:125-130 | a monitor with clean stored name and serial gets the entry "Name: n\nSerial: s" |
| `Monitors.BlockOfTwo` | v2/Asset_Info-v2.py:132 | two qualifying monitors print their two entries separated by one blank line |
| `Monitors.NotFoundTrimmed` | v2/Asset_Info-v2.py:120-126 | `.Trim()` leaves the "Not Found" sentinel unchanged |
| `Monitors.NotFoundNameIsKept` | v2/Asset_Info-v2.py:119-130 | a monitor without a name array is listed under the name "Not Found" when its serial is non-empty |
| `PyJson.Truthy` | v2/Asset_Info-v2.py:73-75 | defines `bool(v)`: `None`, `False`, zero, the empty text and empty containers are false |
| `PyJson.TypeName` | v2/Asset_Info-v2.py:79-80 | defines `type(v).__name__` as it appears in the error message |
| `PyJson.Get` | v2/Asset_Info-v2.py:73-74 | defines `d.get(key)`: `d.get(key, None)` |
| `PyJson.GetOr` | v2/Asset_Info-v2.py:76 | `d.get(key, default)` is the stored value when the key is present and the default otherwise |
| `AssetInfoV2.ProductKey` | v2/Asset_Info-v2.py:47-50 | the key is never empty and has no whitespace at its ends; it is "Not Found" when the output is only whitespace, and the stripped output otherwise |
| `AssetInfoV2.ModelOf` | v2/Asset_Info-v2.py:73 | the model is truthy: FriendlyName if truthy, else Model if truthy, else "Unknown" |
| `AssetInfoV2.SizeOf` | v2/Asset_Info-v2.py:75 | a falsy size gives "Unknown Size"; any other text needs a truthy size whose `str()` is all digits |
| `AssetInfoV2.SizeTextReads` | v2/Asset_Info-v2.py:75 | the size text reads as a GB amount exactly when it is not "Unknown Size" |
| `AssetInfoV2.SizeOfByteCount` | v2/Asset_Info-v2.py:74-75 | the size text is the GB text of a positive integer or a non-empty digit string, and "Unknown Size" for anything else (missing, None, 0, "", negatives, floats, booleans, containers) |
| `AssetInfoV2.SizeOfReadsBack` | v2/Asset_Info-v2.py:75 | the size text reads as a GB amount exactly when the size stands for a byte count |
| `AssetInfoV2.IntText` | v2/Asset_Info-v2.py:75 | defines `str(i)` for an integer: "-" before the digits of a negative one |
| `AssetInfoV2.TextIsDigits` | v2/Asset_Info-v2.py:75 | defines `str(size).isdigit()` per JSON kind: only integers and texts can be all digits |
| `AssetInfoV2.IntTextDigits` | v2/Asset_Info-v2.py:75 | `str(i).isdigit()` holds exactly for non-negative integers |
| `AssetInfoV2.MediaTypeOf` | v2/Asset_Info-v2.py:76 | MediaType is "Unknown" only when the key is absent; a present value, None included, is kept |
| `AssetInfoV2.RecordRow` | v2/Asset_Info-v2.py:73-77 | a record's row has a truthy model, "Unknown Size" for a falsy size, and the stored MediaType, or "Unknown" when the key is absent |
| `AssetInfoV2.Records` | v2/Asset_Info-v2.py:69-72 | the loop can iterate exactly a dict (as one record), a list or a string (one record per character); anything else fails with "'<type>' object is not iterable" |
| `AssetInfoV2.Normalise` | v2/Asset_Info-v2.py:72-78 | when no record fails there is one row per record, each with a truthy model |
| `AssetInfoV2.NormaliseStep` | v2/Asset_Info-v2.py:72-77 | one more record appends its row when it is a dict and fails with its "has no attribute 'get'" message otherwise |
| `AssetInfoV2.DiskRows` | v2/Asset_Info-v2.py:68-80 | every row has a truthy model, and a value that cannot be iterated gives exactly its error row |
| `AssetInfoV2.GetDisksPhysical` | v2/Asset_Info-v2.py:68-80 | the wrapping, the loop and the handler return exactly the specified rows or error row |
| `AssetInfoV2.NormaliseAfterFailure` | v2/Asset_Info-v2.py:72-80 | once a record has failed, later records change nothing |
| `AssetInfoV2.AllRecords` | v2/Asset_Info-v2.py:71-78 | records that are all dicts give one row each, in record order |
| `AssetInfoV2.FirstBadRecord` | v2/Asset_Info-v2.py:72-80 | the first record that is not a dict ends the loop with "'<type>' object has no attribute 'get'" |
| `AssetInfoV2.FirstBadAtTop` | v2/Asset_Info-v2.py:71-80 | such a record makes the probe return the single error row of that message |
| `AssetInfoV2.ListOfRecords` | v2/Asset_Info-v2.py:71-78 | a list of disk records gives exactly one row per record, in list order, with no filtering |
| `AssetInfoV2.SingleRecordWrapped` | v2/Asset_Info-v2.py:69-70 | a single dict is treated as a one-element list |
| `AssetInfoV2.ScalarNotIterable` | v2/Asset_Info-v2.py:72-80 | None, a boolean or a number at the top level gives the row ("Error", "'<type>' object is not iterable", "Unknown") |
| `AssetInfoV2.StringAtTopLevel` | v2/Asset_Info-v2.py:72-80 | a non-empty string at the top level gives the row ("Error", "'str' object has no attribute 'get'", "Unknown") |
| `AssetInfoV2.FirstCharMessage` | v2/Asset_Info-v2.py:73 | the first character of a string is not a dict, and its `get` fails with the 'str' message |
| `AssetInfoV2.StrMessage` | v2/Asset_Info-v2.py:73 | every string's failed `get` gives the message "'str' object has no attribute 'get'" |
| `AssetInfoV2.EmptyStringAtTopLevel` | v2/Asset_Info-v2.py:72 | an empty string at the top level gives no rows |
| `AssetInfoV2.DisplayLine` | v2/Asset_Info-v2.py:173 | a display line holds a line break exactly when the model, size or type does |
| `AssetInfoV2.DiskDisplayText` | v2/Asset_Info-v2.py:171-174 | the loop and join give the lines "Model: m    Size: s    Type: t", joined by "\n" in row order |
| `AssetInfoV2.DisplayLines` | v2/Asset_Info-v2.py:171-173 | one display line per row |
| `AssetInfoV2.DisplayLinesReadBack` | v2/Asset_Info-v2.py:171-174 | with no line break in the fields, splitting the text on "\n" gives back one line per row, in order; no rows give the empty text |
| `AssetInfoV2.DefaultFilename` | v2/Asset_Info-v2.py:207 | the export file name is the system name followed by "-Asset-Info.pdf" |

The two versions run the same monitor script (Asset_Info.py:96-116 and
v2/Asset_Info-v2.py:113-133) and format RAM the same way (Asset_Info.py:22-25
and v2/Asset_Info-v2.py:25-28). The model states each once.

## Left out

- Subprocess, wmic, PowerShell, CIM and WMI calls: each probe is modelled on
  the text the command prints. `decode(errors="ignore")` is outside the model:
  the captured text is taken as already decoded.
- `json.loads`: the v2 disk probe is modelled on the parsed value.
- `get_system_name`, `get_ip_address`, `get_os_name` and `get_status`: they
  only call platform or socket APIs or return a constant.
- The v2 `get_serial_number`, `get_system_model` and `get_cpu_details`: each
  returns only the stripped command output. `Strings.PyStrip` states that.
- `gather_info`: it only stores each probe's result under a key.
- `show_info` widget handling, the clipboard buttons and the reportlab PDF
  construction: these are presentation.
- The exception handlers, whose exceptions come from the subprocess layer.
  The v2 disk normaliser's own failures are modelled, with the messages
  Python gives. The handlers are:
  - v1 `get_disks_physical` returns the row `[("Error", str(e))]`
    (Asset_Info.py:47-48).
  - v1 `get_system_model` ignores the exception and returns "Unknown Model"
    (Asset_Info.py:58-60).
  - v1 `get_cpu_details`, `get_cpu_tag` and `get_monitor_tags` return
    `f"Error: {e}"` (Asset_Info.py:75-76, 91-92 and 123-124).
  - v2 `get_serial_number`, `get_product_key`, `get_cpu_details` and
    `get_monitor_tags` return `f"Error: {e}"` (v2/Asset_Info-v2.py:37-38,
    51-52, 103-104 and 140-141).
  - v2 `get_system_model` returns "Unknown Model" (v2/Asset_Info-v2.py:89-90).
  - v2 `get_disks_physical` returns `[("Error", str(e), "Unknown")]`
    (v2/Asset_Info-v2.py:79-80). This is the error row the model gives for
    the normaliser's own failures.
- Gigabytes.FormatGigabytes: beyond 2^53 bytes the float division is no
  longer exact, and the model formats the exact quotient.
- Gigabytes.FormatGigabytes: does not model the failures of very large
  sizes. When `int(size) / (1024 ** 3)` exceeds the float range, Python
  raises OverflowError. `int()` of a digit string longer than 4300 digits
  raises ValueError. Either way the disk probe returns its error row
  (Asset_Info.py:47-48, v2/Asset_Info-v2.py:79-80), while `AssetInfo.SizeText`
  and `AssetInfoV2.SizeOf` give a GB text.
- Strings.IsDigits: restricted to ASCII digits. `str.isdigit` accepts more,
  and the model differs in two ways:
  - Unicode decimal digits (category Nd, such as "١٠٧٣٧٤١٨٢٤") pass
    `isdigit()` and `int()` reads them. Python prints "1.00 GB" for that
    size, while the model gives "Unknown Size".
  - Other digits, such as "²", also pass `isdigit()`, but `int()` raises
    ValueError. The whole probe then returns its error row: v1
    `[("Error", str(e))]` (Asset_Info.py:47-48), v2
    `[("Error", str(e), "Unknown")]` (v2/Asset_Info-v2.py:79-80). The model
    gives one "Unknown Size" row for that record.
- Strings.Lower: maps only the ASCII letters.
- Monitors.AsciiGetString: only takes codes 0..255. Larger codes would make
  the conversion fail, and the model does not cover them.
- AssetInfoV2.DiskDisplayText: takes each row's fields as text. The `str()`
  of a non-string JSON model or media type is not modelled.
- JSON floats carry only whether they are non-zero. That is all the v2 disk
  normaliser can observe of them.
