/** Decimal rendering of naturals and the peak-hour label
    `f"{h}am"` / `f"{h-12 or 12}pm"`. */
module HourFormat {
  import opened CheckIns

  predicate IsDigits(s: string) {
    forall i :: 0 <= i < |s| ==> '0' <= s[i] <= '9'
  }

  function DigitChar(d: nat): char
    requires d < 10
  {
    (48 + d) as char
  }

  /** `str(n)` for a natural number. */
  function NatToString(n: nat): (s: string)
    ensures |s| > 0 && IsDigits(s)
    ensures s[0] == '0' ==> s == "0"
    decreases n
  {
    if n < 10 then [DigitChar(n)] else NatToString(n / 10) + [DigitChar(n % 10)]
  }

  /** Reads a string of decimal digits back as a number. */
  function ParseNat(s: string): nat
    requires IsDigits(s)
  {
    if |s| == 0 then 0 else ParseNat(s[..|s| - 1]) * 10 + (s[|s| - 1] as int - 48)
  }

  /** Rendering a number and reading it back gives the number. */
  lemma {:induction false} ParseNatToString(n: nat)
    ensures ParseNat(NatToString(n)) == n
    decreases n
  {
    if n >= 10 {
      var s := NatToString(n);
      assert s[..|s| - 1] == NatToString(n / 10);
      ParseNatToString(n / 10);
    }
  }

  /** The peak hour's label. The suffix is "am" exactly for hours before noon;
      the number, written without leading zeros, is the hour itself before
      noon (so midnight reads "0am"), 12 at noon, and the hour minus 12 after
      noon. */
  function FormatHour(h: Hour): (r: string)
    ensures |r| > 2 && IsDigits(r[..|r| - 2])
    ensures r[|r| - 2..] == (if h < 12 then "am" else "pm")
    ensures ParseNat(r[..|r| - 2]) == if h < 12 then h else if h == 12 then 12 else h - 12
    ensures r[0] == '0' ==> r == "0am"
  {
    var n: nat := if h < 12 then h else if h - 12 == 0 then 12 else h - 12;
    var digits := NatToString(n);
    var r := digits + (if h < 12 then "am" else "pm");
    assert r[..|r| - 2] == digits;
    ParseNatToString(n);
    r
  }

  /** Distinct hours get distinct labels. */
  lemma FormatHourInjective(h1: Hour, h2: Hour)
    requires h1 != h2
    ensures FormatHour(h1) != FormatHour(h2)
  {
  }
}
