/** `f"{n / (1024 ** 3):.2f} GB"` computed exactly on integers.

    For a byte count below 2^53 the float `n / 2^30` is exact, and Python's
    `.2f` rounds that exact value to hundredths, half to even. So the printed
    number of hundredths is the integer nearest to `100 n / 2^30`, ties going
    to the even neighbour. */
module Gigabytes {
  import opened Strings
  import opened Wrappers

  /** `1024 ** 3` */
  const GiB: nat := 1073741824

  function Dist(a: int, b: int): nat {
    if a < b then b - a else a - b
  }

  function DigitChar(d: nat): (c: char)
    requires d < 10
    ensures IsDigit(c)
  {
    ('0' as int + d) as char
  }

  function DigitValue(c: char): nat
    requires IsDigit(c)
  {
    c as int - '0' as int
  }

  /** Python `str(n)` for a non-negative integer: its decimal digits, with no
      leading zero except for zero itself. */
  function NatToString(n: nat): (r: string)
    ensures IsDigits(r)
    ensures r[0] == '0' <==> n == 0
    ensures |r| == 1 || r[0] != '0'
  {
    if n < 10 then [DigitChar(n)] else NatToString(n / 10) + [DigitChar(n % 10)]
  }

  /** Python `int(s)` for a string of ASCII digits (leading zeros allowed). */
  function ParseDigits(s: string): nat
    requires AllDigits(s)
  {
    if s == [] then 0 else 10 * ParseDigits(s[..|s| - 1]) + DigitValue(s[|s| - 1])
  }

  /** `int(str(n)) == n` */
  lemma {:induction false} ParseNatToString(n: nat)
    ensures ParseDigits(NatToString(n)) == n
  {
    var s := NatToString(n);
    if n >= 10 {
      ParseNatToString(n / 10);
      assert s[..|s| - 1] == NatToString(n / 10);
    }
  }

  /** The number of hundredths of a GiB that `.2f` prints for `n` bytes: the
      nearest integer to `100 n / 2^30`, half to even. */
  function RoundedHundredths(n: nat): (q: nat)
    ensures 2 * Dist(q * GiB, 100 * n) <= GiB
    ensures 2 * Dist(q * GiB, 100 * n) == GiB ==> q % 2 == 0
  {
    var num := 100 * n;
    var q := num / GiB;
    var r := num % GiB;
    if 2 * r > GiB || (2 * r == GiB && q % 2 == 1) then q + 1 else q
  }

  /** The two properties in the contract of RoundedHundredths pin its result
      down: no other count of hundredths has them. */
  lemma NearestIsUnique(n: nat, m: nat)
    requires 2 * Dist(m * GiB, 100 * n) <= GiB
    requires 2 * Dist(m * GiB, 100 * n) == GiB ==> m % 2 == 0
    ensures m == RoundedHundredths(n)
  {
  }

  /** The two digits of `h` hundredths, zero-padded. */
  function TwoDigits(h: nat): (r: string)
    requires h < 100
    ensures |r| == 2 && IsDigits(r)
  {
    [DigitChar(h / 10), DigitChar(h % 10)]
  }

  /** `f"{n / (1024 ** 3):.2f} GB"`: a whole number, a point, exactly two
      decimals and " GB", reading back as the rounded number of hundredths.
      The whole number has no leading zero: it is a single `0` or starts
      with a non-zero digit. */
  function FormatGigabytes(n: nat): (r: string)
    ensures ParseGigabytes(r) == Some(RoundedHundredths(n))
    ensures |r| >= 7 && (r[0] != '0' || r[1] == '.')
  {
    var q := RoundedHundredths(n);
    DecimalReadsBack(q / 100, q % 100);
    NatToString(q / 100) + "." + TwoDigits(q % 100) + " GB"
  }

  /** Reads back a `"<digits>.<two digits> GB"` text as a count of
      hundredths; any other text is not such a size. */
  function ParseGigabytes(s: string): Option<nat> {
    if |s| >= 7 && s[|s| - 3..] == " GB" && s[|s| - 6] == '.'
       && IsDigits(s[..|s| - 6]) && IsDigits(s[|s| - 5..|s| - 3])
    then Some(100 * ParseDigits(s[..|s| - 6]) + ParseDigits(s[|s| - 5..|s| - 3]))
    else None
  }

  /** The text of `whole` units and `h` hundredths reads back as
      `100 * whole + h` hundredths. */
  lemma DecimalReadsBack(whole: nat, h: nat)
    requires h < 100
    ensures ParseGigabytes(NatToString(whole) + "." + TwoDigits(h) + " GB") == Some(100 * whole + h)
  {
    var w := NatToString(whole);
    var frac := TwoDigits(h);
    var s := w + "." + frac + " GB";
    assert s[..|s| - 6] == w;
    assert s[|s| - 5..|s| - 3] == frac;
    assert s[|s| - 3..] == " GB";
    ParseNatToString(whole);
    assert ParseDigits(frac) == h by {
      assert frac[..1] == [DigitChar(h / 10)];
      assert frac[..1][..0] == [];
      assert DigitValue(DigitChar(h / 10)) == h / 10;
      assert DigitValue(DigitChar(h % 10)) == h % 10;
      assert ParseDigits(frac[..1]) == h / 10;
    }
  }

  /** A digit string without a leading zero (or the single digit `0`) is the
      decimal text of its own value: `str(int(w)) == w`. */
  lemma {:induction false} CanonicalDigits(w: string)
    requires IsDigits(w) && (|w| == 1 || w[0] != '0')
    ensures NatToString(ParseDigits(w)) == w
  {
    var init, c := w[..|w| - 1], w[|w| - 1];
    assert w[..|w| - 1] == init;
    if |w| == 1 {
      assert init == [];
      assert NatToString(ParseDigits(w)) == [DigitChar(DigitValue(c))];
    } else {
      assert init[0] == w[0];
      CanonicalDigits(init);
      var n := ParseDigits(w);
      assert ParseDigits(init) != 0;
      assert n / 10 == ParseDigits(init) && n % 10 == DigitValue(c);
      assert w == init + [c];
    }
  }

  /** Two digit characters read back as a number below 100 whose zero-padded
      text they are. */
  lemma TwoDigitsReadBack(d: string)
    requires |d| == 2 && IsDigits(d)
    ensures ParseDigits(d) < 100 && TwoDigits(ParseDigits(d)) == d
  {
    assert d[..1][..0] == [];
    assert ParseDigits(d[..1]) == DigitValue(d[0]);
  }

  /** The formatted text is the only text that reads back as the same number
      of hundredths and has no leading zero in its whole part. */
  lemma FormatIsCanonical(n: nat, r: string)
    requires ParseGigabytes(r) == Some(RoundedHundredths(n))
    requires r[0] != '0' || r[1] == '.'
    ensures r == FormatGigabytes(n)
  {
    var w, d := r[..|r| - 6], r[|r| - 5..|r| - 3];
    assert |w| == 1 || w[0] != '0' by {
      if |w| > 1 {
        assert r[1] == w[1] && IsDigit(w[1]);
      }
      assert w[0] == r[0];
    }
    CanonicalDigits(w);
    TwoDigitsReadBack(d);
    var q := RoundedHundredths(n);
    assert q / 100 == ParseDigits(w) && q % 100 == ParseDigits(d);
    assert r == w + "." + d + " GB";
  }

  /** The sentinel the probes use for a size that is not a digit string. */
  const UnknownSize := "Unknown Size"

  lemma UnknownSizeIsNotASize()
    ensures ParseGigabytes(UnknownSize) == None
  {
  }

  /** `17179869184` bytes (16 GiB) print as `"16.00 GB"`. */
  lemma SixteenGiB()
    ensures FormatGigabytes(17179869184) == "16.00 GB"
  {
    assert RoundedHundredths(17179869184) == 1600;
  }

  /** `1073741824` bytes (1 GiB) print as `"1.00 GB"`. */
  lemma OneGiB()
    ensures FormatGigabytes(1073741824) == "1.00 GB"
  {
    assert RoundedHundredths(1073741824) == 100;
  }
}
