/** The text operations of Python and PowerShell (.NET) the inventory probes
    rely on. Strings are sequences of Unicode scalar values. Whitespace
    follows each platform exactly; `lower` and `isdigit` cover ASCII only, and
    `split` takes a one-character separator. */
module Strings {

  /** Python's `str.isspace()`: the characters `str.strip()` removes. */
  predicate IsPySpace(c: char) {
    c == ' ' || ('\t' <= c <= '\r') || ('\U{1c}' <= c <= '\U{1f}')
    || c == '\U{85}' || c == '\U{a0}' || c == '\U{1680}'
    || ('\U{2000}' <= c <= '\U{200a}') || c == '\U{2028}' || c == '\U{2029}'
    || c == '\U{202f}' || c == '\U{205f}' || c == '\U{3000}'
  }

  /** .NET's `Char.IsWhiteSpace`: the characters `String.Trim()` removes. */
  predicate IsDotNetSpace(c: char) {
    c == ' ' || ('\t' <= c <= '\r')
    || c == '\U{85}' || c == '\U{a0}' || c == '\U{1680}'
    || ('\U{2000}' <= c <= '\U{200a}') || c == '\U{2028}' || c == '\U{2029}'
    || c == '\U{202f}' || c == '\U{205f}' || c == '\U{3000}'
  }

  predicate IsNul(c: char) { c == '\0' }

  /** Which characters a trim removes. */
  datatype Blanks = PyWhitespace | DotNetWhitespace | NulChar

  predicate Drops(b: Blanks, c: char) {
    match b
    case PyWhitespace => IsPySpace(c)
    case DotNetWhitespace => IsDotNetSpace(c)
    case NulChar => IsNul(c)
  }

  /** The two whitespace notions differ exactly on the four information
      separators U+001C..U+001F, which Python strips and .NET keeps. */
  lemma SpaceNotionsDiffer(c: char)
    ensures IsPySpace(c) <==> IsDotNetSpace(c) || ('\U{1c}' <= c <= '\U{1f}')
  {
  }

  /** How many leading characters of `s` are `drop` characters. */
  function LeadCount(s: string, drop: Blanks): (n: nat)
    ensures n <= |s|
    ensures forall k :: 0 <= k < n ==> Drops(drop, s[k])
    ensures n < |s| ==> !Drops(drop, s[n])
  {
    if s == [] || !Drops(drop, s[0]) then 0 else 1 + LeadCount(s[1..], drop)
  }

  /** The length of `s` once its trailing `drop` characters are cut off. */
  function KeptLength(s: string, drop: Blanks): (n: nat)
    ensures n <= |s|
    ensures forall k :: n <= k < |s| ==> Drops(drop, s[k])
    ensures n > 0 ==> !Drops(drop, s[n - 1])
  {
    if s == [] || !Drops(drop, s[|s| - 1]) then |s| else KeptLength(s[..|s| - 1], drop)
  }

  /** Trimming at both ends: `str.strip()`, `String.Trim()`, `String.Trim(chars)`. */
  function Trim(s: string, drop: Blanks): string {
    var lead := LeadCount(s, drop);
    s[lead..lead + KeptLength(s[lead..], drop)]
  }

  /** What trimming means, independently of how it is computed: the result is
      the contiguous middle of `s` left once every `drop` character at either
      end is removed, and it neither starts nor ends with one. */
  lemma TrimIsMiddle(s: string, drop: Blanks)
    ensures var r := Trim(s, drop); var lead := LeadCount(s, drop);
      lead + |r| <= |s| && r == s[lead..lead + |r|]
      && (forall k :: 0 <= k < lead ==> Drops(drop, s[k]))
      && (forall k :: lead + |r| <= k < |s| ==> Drops(drop, s[k]))
      && (r != [] ==> !Drops(drop, r[0]) && !Drops(drop, r[|r| - 1]))
  {
    TrimSlice(s, drop);
    TrimTailDropped(s, drop);
    TrimEndsKept(s, drop);
  }

  lemma TrimSlice(s: string, drop: Blanks)
    ensures var r := Trim(s, drop); var lead := LeadCount(s, drop);
      lead + |r| <= |s| && r == s[lead..lead + |r|]
  {
    var lead := LeadCount(s, drop);
    assert |Trim(s, drop)| == KeptLength(s[lead..], drop);
  }

  lemma TrimTailDropped(s: string, drop: Blanks)
    ensures var lead := LeadCount(s, drop);
      forall k :: lead + |Trim(s, drop)| <= k < |s| ==> Drops(drop, s[k])
  {
    var lead := LeadCount(s, drop);
    var t := s[lead..];
    var n := KeptLength(t, drop);
    assert |Trim(s, drop)| == n;
    forall k | lead + n <= k < |s| ensures Drops(drop, s[k]) {
      assert s[k] == t[k - lead];
    }
  }

  lemma TrimEndsKept(s: string, drop: Blanks)
    ensures var r := Trim(s, drop); r != [] ==> !Drops(drop, r[0]) && !Drops(drop, r[|r| - 1])
  {
    var lead := LeadCount(s, drop);
    var t := s[lead..];
    var n := KeptLength(t, drop);
    if n > 0 {
      assert t[0] == s[lead];
      assert s[lead..lead + n][n - 1] == t[n - 1];
    }
  }

  /** Trimming yields the empty string exactly when every character is dropped. */
  lemma TrimEmpty(s: string, drop: Blanks)
    ensures Trim(s, drop) == [] <==> forall k :: 0 <= k < |s| ==> Drops(drop, s[k])
  {
    TrimIsMiddle(s, drop);
  }

  /** A string whose ends are not dropped is left unchanged. */
  lemma TrimKeeps(s: string, drop: Blanks)
    requires s != [] ==> !Drops(drop, s[0]) && !Drops(drop, s[|s| - 1])
    ensures Trim(s, drop) == s
  {
  }

  /** Text whose ends are kept, followed by dropped characters only, trims to
      itself. */
  lemma TrimAround(mid: string, post: string, drop: Blanks)
    requires mid != [] ==> !Drops(drop, mid[0]) && !Drops(drop, mid[|mid| - 1])
    requires forall k :: 0 <= k < |post| ==> Drops(drop, post[k])
    ensures Trim(mid + post, drop) == mid
  {
    var s := mid + post;
    if mid == [] {
      assert s == post;
      TrimEmpty(s, drop);
    } else {
      assert s[0] == mid[0];
      assert LeadCount(s, drop) == 0;
      assert s[0..] == s;
      var n := KeptLength(s, drop);
      assert s[|mid| - 1] == mid[|mid| - 1];
      assert forall k :: |mid| <= k < |s| ==> s[k] == post[k - |mid|];
      assert n == |mid|;
      assert s[..|mid|] == mid;
    }
  }

  /** Trimming twice is trimming once. */
  lemma TrimIdempotent(s: string, drop: Blanks)
    ensures Trim(Trim(s, drop), drop) == Trim(s, drop)
  {
    TrimIsMiddle(s, drop);
    TrimKeeps(Trim(s, drop), drop);
  }

  /** Python `str.strip()` with no argument: never longer than the text, and
      neither starting nor ending with whitespace. */
  function PyStrip(s: string): (r: string)
    ensures |r| <= |s|
    ensures r != [] ==> !IsPySpace(r[0]) && !IsPySpace(r[|r| - 1])
  {
    TrimIsMiddle(s, PyWhitespace);
    Trim(s, PyWhitespace)
  }

  /** PowerShell `.Trim()` on a string: never longer than the text, and
      neither starting nor ending with .NET whitespace. */
  function DotNetTrim(s: string): (r: string)
    ensures |r| <= |s|
    ensures DotNetTrimmed(r)
  {
    TrimIsMiddle(s, DotNetWhitespace);
    Trim(s, DotNetWhitespace)
  }

  /** Neither end of `s` is .NET whitespace. */
  predicate DotNetTrimmed(s: string) {
    s != [] ==> !IsDotNetSpace(s[0]) && !IsDotNetSpace(s[|s| - 1])
  }

  /** The sentinel several probes print for a value they could not find. */
  const NotFound := "Not Found"

  /** Python `s.startswith(prefix)`. */
  predicate StartsWith(s: string, prefix: string) {
    |prefix| <= |s| && s[..|prefix|] == prefix
  }

  /** Python `sub in s` for strings. */
  predicate Contains(s: string, sub: string) {
    StartsWith(s, sub) || (s != [] && Contains(s[1..], sub))
  }

  /** `sub` occurs in `s` starting at position `i`. */
  predicate OccursAt(s: string, sub: string, i: int)
  {
    0 <= i <= |s| - |sub| && s[i..i + |sub|] == sub
  }

  /** `sub in s` means that `sub` occurs at some position of `s`. */
  lemma {:induction false} ContainsAt(s: string, sub: string)
    ensures Contains(s, sub) <==> exists i :: OccursAt(s, sub, i)
  {
    if s == [] {
      if sub == [] {
        assert OccursAt(s, sub, 0);
      }
    } else {
      ContainsAt(s[1..], sub);
      if Contains(s, sub) {
        if StartsWith(s, sub) {
          assert OccursAt(s, sub, 0);
        } else {
          var i :| OccursAt(s[1..], sub, i);
          assert s[1..][i..i + |sub|] == s[i + 1..i + 1 + |sub|];
          assert OccursAt(s, sub, i + 1);
        }
      }
      if exists i :: OccursAt(s, sub, i) {
        var i :| OccursAt(s, sub, i);
        if i == 0 {
          assert s[..|sub|] == sub;
        } else {
          assert s[1..][i - 1..i - 1 + |sub|] == s[i..i + |sub|];
          assert OccursAt(s[1..], sub, i - 1);
        }
      }
    }
  }

  /** Python `s.lower()` restricted to the ASCII letters. */
  function Lower(s: string): (r: string)
    ensures |r| == |s|
    ensures forall k :: 0 <= k < |s| ==>
      r[k] == if 'A' <= s[k] <= 'Z' then (s[k] as int + 32) as char else s[k]
  {
    if s == [] then []
    else [if 'A' <= s[0] <= 'Z' then (s[0] as int + 32) as char else s[0]] + Lower(s[1..])
  }

  predicate IsDigit(c: char) { '0' <= c <= '9' }

  /** Every character is an ASCII digit (vacuously so for the empty string). */
  predicate AllDigits(s: string) {
    forall k :: 0 <= k < |s| ==> IsDigit(s[k])
  }

  /** Python `s.isdigit()` for ASCII digits: non-empty and all digits. */
  predicate IsDigits(s: string) {
    |s| > 0 && AllDigits(s)
  }

  /** Python `sep.join(parts)`. */
  function Join(parts: seq<string>, sep: string): string {
    if |parts| == 0 then ""
    else if |parts| == 1 then parts[0]
    else parts[0] + sep + Join(parts[1..], sep)
  }

  /** Python `s.split(sep)` with a one-character separator: never empty,
      consecutive separators give empty fields, and no field holds the
      separator. */
  function Split(s: string, sep: char): (parts: seq<string>)
    ensures |parts| >= 1
    ensures forall k :: 0 <= k < |parts| ==> sep !in parts[k]
  {
    if s == [] then [""]
    else
      var rest := Split(s[1..], sep);
      if s[0] == sep then [""] + rest
      else
        var parts := [[s[0]] + rest[0]] + rest[1..];
        assert forall k :: 1 <= k < |parts| ==> parts[k] == rest[k];
        parts
  }

  /** Joining the fields of a split with the separator gives back the text. */
  lemma {:induction false} JoinSplit(s: string, sep: char)
    ensures Join(Split(s, sep), [sep]) == s
  {
    if s != [] {
      var rest := Split(s[1..], sep);
      JoinSplit(s[1..], sep);
      if s[0] != sep {
        var parts := Split(s, sep);
        if |rest| > 1 {
          assert parts[1..] == rest[1..];
        }
      }
    }
  }

  /** Splitting a join of separator-free fields gives back the fields. */
  lemma {:induction false} SplitJoin(parts: seq<string>, sep: char)
    requires |parts| >= 1
    requires forall k :: 0 <= k < |parts| ==> sep !in parts[k]
    ensures Split(Join(parts, [sep]), sep) == parts
  {
    if |parts| == 1 {
      SplitFree(parts[0], sep);
    } else {
      SplitJoin(parts[1..], sep);
      SplitPrefix(parts[0], Join(parts[1..], [sep]), sep);
      assert parts == [parts[0]] + parts[1..];
    }
  }

  /** A separator-free text splits into itself alone. */
  lemma {:induction false} SplitFree(s: string, sep: char)
    requires sep !in s
    ensures Split(s, sep) == [s]
  {
    if s != [] {
      SplitFree(s[1..], sep);
      assert [s[0]] + s[1..] == s;
    }
  }

  /** A separator-free head followed by a separator starts a new field. */
  lemma {:induction false} SplitPrefix(head: string, tail: string, sep: char)
    requires sep !in head
    ensures Split(head + [sep] + tail, sep) == [head] + Split(tail, sep)
  {
    if head == [] {
      assert ([sep] + tail)[1..] == tail;
    } else {
      SplitPrefix(head[1..], tail, sep);
      assert (head + [sep] + tail)[1..] == head[1..] + [sep] + tail;
      assert [head[0]] + head[1..] == head;
    }
  }
}
