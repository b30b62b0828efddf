/**
 * The few JavaScript number and string operations the application applies
 * to whole numbers: `Math.floor(a / b)`, the remainder operator `% 60` (which
 * truncates toward zero, unlike Dafny's Euclidean `%`), `Math.round(a / 60)`,
 * `String(n)` and `padStart(2, "0")`, together with a decimal reader used to
 * state what the rendered text means.
 */
module JsNumber {

  /** `Math.floor(a / b)` for a positive divisor. */
  function FloorDiv(a: int, b: int): (q: int)
    requires b > 0
    ensures b * q <= a < b * q + b
  {
    a / b
  }

  /** The JavaScript remainder `a % 60`: its sign follows `a`, unlike Dafny's `%`. */
  function JsRem60(a: int): (r: int)
    ensures a >= 0 ==> 0 <= r < 60
    ensures a < 0 ==> -60 < r <= 0
    ensures (a - r) % 60 == 0
  {
    if a >= 0 then a % 60 else -((-a) % 60)
  }

  /**
   * `Math.round(a / 60)`: the integer nearest to a/60, halves rounded up
   * (toward positive infinity), which is what `Math.round` does.
   */
  function RoundDiv60(a: int): (r: int)
    ensures 120 * r - 60 <= 2 * a < 120 * r + 60
  {
    (a + 30) / 60
  }

  function DigitChar(d: int): (c: char)
    requires 0 <= d < 10
    ensures IsDigit(c)
  {
    "0123456789"[d]
  }

  predicate IsDigit(c: char) {
    '0' <= c <= '9'
  }

  predicate AllDigits(s: string) {
    forall i :: 0 <= i < |s| ==> IsDigit(s[i])
  }

  /** `String(n)` for a non-negative whole number: its decimal digits, no leading zeros. */
  function DecimalString(n: nat): (s: string)
    ensures |s| >= 1 && AllDigits(s)
    ensures (|s| == 1) == (n < 10)
    decreases n
  {
    if n < 10 then [DigitChar(n)] else DecimalString(n / 10) + [DigitChar(n % 10)]
  }

  /** `String(n)` for any whole number: a minus sign in front of a negative one. */
  function JsString(n: int): (s: string)
    ensures n >= 0 ==> AllDigits(s)
    ensures n < 0 ==> |s| >= 2 && s[0] == '-'
  {
    if n >= 0 then DecimalString(n) else "-" + DecimalString(-n)
  }

  /** `s.padStart(2, "0")`: zeros in front up to two characters; a longer string is unchanged. */
  function PadStart2(s: string): (r: string)
    ensures |r| == if |s| >= 2 then |s| else 2
    ensures r[|r| - |s|..] == s
    ensures forall i :: 0 <= i < |r| - |s| ==> r[i] == '0'
  {
    if |s| >= 2 then s else seq(2 - |s|, _ => '0') + s
  }

  /** The value of a string of decimal digits, leading zeros allowed. */
  function DecimalValue(s: string): (n: nat)
    requires AllDigits(s)
  {
    if s == [] then 0 else 10 * DecimalValue(s[..|s| - 1]) + ((s[|s| - 1] as int) - ('0' as int))
  }

  /** Reading back what `String(n)` wrote gives `n`. */
  lemma {:induction false} DecimalRoundTrip(n: nat)
    ensures DecimalValue(DecimalString(n)) == n
    decreases n
  {
    if n >= 10 {
      DecimalRoundTrip(n / 10);
      var s := DecimalString(n);
      assert s[..|s| - 1] == DecimalString(n / 10);
    }
  }

  /** Leading zeros do not change the value of a digit string. */
  lemma {:induction false} LeadingZeros(z: nat, s: string)
    requires AllDigits(s)
    ensures AllDigits(seq(z, _ => '0') + s)
    ensures DecimalValue(seq(z, _ => '0') + s) == DecimalValue(s)
    decreases |s|, z
  {
    var t := seq(z, _ => '0') + s;
    if s == [] {
      if z > 0 {
        assert t[..|t| - 1] == seq(z - 1, _ => '0') + [];
        LeadingZeros(z - 1, []);
      }
    } else {
      assert t[..|t| - 1] == seq(z, _ => '0') + s[..|s| - 1];
      LeadingZeros(z, s[..|s| - 1]);
    }
  }

  /** A padded rendering of a non-negative number is all digits, at least two of them, and reads back as the number. */
  lemma PaddedRoundTrip(n: nat)
    ensures AllDigits(PadStart2(DecimalString(n)))
    ensures |PadStart2(DecimalString(n))| >= 2
    ensures n < 100 ==> |PadStart2(DecimalString(n))| == 2
    ensures DecimalValue(PadStart2(DecimalString(n))) == n
  {
    var s := DecimalString(n);
    DecimalRoundTrip(n);
    if |s| < 2 {
      LeadingZeros(2 - |s|, s);
    }
    if n < 100 && |s| > 2 {
      DecimalLength(n);
    }
  }

  /** A number below 100 has at most two digits. */
  lemma {:induction false} DecimalLength(n: nat)
    requires n < 100
    ensures |DecimalString(n)| <= 2
  {
    if n >= 10 {
      assert n / 10 < 10;
    }
  }
}
