/**
  The patient record's id and name, as the C program produces them.

  An id is a C `int`; the name is the text "Patient %d" written by
  `snprintf` into the fixed buffer `char name[100]`, so at most 99
  characters survive (the hundredth byte is the terminating NUL).
 */
module Labels {

  /** The C `int` of the source (two's complement, 32 bits). */
  newtype int32 = x: int | -0x8000_0000 <= x < 0x8000_0000

  /** Size of the `name` buffer of a patient record, NUL included. */
  const NameSize: nat := 100

  /** Fixed text before the number in every patient name. */
  const NamePrefix: string := "Patient "

  predicate IsDigit(c: char) {
    '0' <= c <= '9'
  }

  predicate AllDigits(s: string) {
    forall k :: 0 <= k < |s| ==> IsDigit(s[k])
  }

  function DigitChar(d: nat): char
    requires d < 10
  {
    ('0' as int + d) as char
  }

  function DigitValue(c: char): nat
    requires IsDigit(c)
  {
    c as int - '0' as int
  }

  function Pow10(k: nat): (p: nat)
    ensures p >= 1
  {
    if k == 0 then 1 else 10 * Pow10(k - 1)
  }

  /** Decimal rendering of a natural number, most significant digit first, no leading zeros. */
  function Decimal(n: nat): (r: string)
    ensures 1 <= |r|
    ensures AllDigits(r)
    ensures n >= 10 ==> r[0] != '0'
  {
    if n < 10 then [DigitChar(n)] else Decimal(n / 10) + [DigitChar(n % 10)]
  }

  /** Reads back a string of decimal digits; the inverse of `Decimal`. */
  function ParseDecimal(s: string): nat
    requires AllDigits(s)
  {
    if s == [] then 0 else ParseDecimal(s[..|s| - 1]) * 10 + DigitValue(s[|s| - 1])
  }

  lemma {:induction false} DecimalRoundTrip(n: nat)
    ensures ParseDecimal(Decimal(n)) == n
  {
    if n >= 10 {
      var s := Decimal(n);
      assert s[..|s| - 1] == Decimal(n / 10);
      DecimalRoundTrip(n / 10);
    }
  }

  /** A number below 10^k takes at most k digits. */
  lemma {:induction false} DecimalLength(n: nat, k: nat)
    requires 1 <= k && n < Pow10(k)
    ensures |Decimal(n)| <= k
  {
    if n >= 10 {
      assert k >= 2;
      assert n / 10 < Pow10(k - 1);
      DecimalLength(n / 10, k - 1);
    }
  }

  /** What `%d` prints for a C `int`: an optional minus sign, then the magnitude in decimal. */
  function FormatInt(i: int): string {
    if i < 0 then "-" + Decimal(-i) else Decimal(i)
  }

  predicate IsIntText(s: string) {
    if |s| > 0 && s[0] == '-' then |s| > 1 && AllDigits(s[1..]) else |s| > 0 && AllDigits(s)
  }

  function ParseInt(s: string): int
    requires IsIntText(s)
  {
    if s[0] == '-' then -(ParseDecimal(s[1..]) as int) else ParseDecimal(s)
  }

  lemma FormatIntRoundTrip(i: int)
    ensures IsIntText(FormatInt(i))
    ensures ParseInt(FormatInt(i)) == i
  {
    if i < 0 {
      assert FormatInt(i)[1..] == Decimal(-i);
      DecimalRoundTrip(-i);
    } else {
      DecimalRoundTrip(i);
    }
  }

  /** Every `int` prints in at most 11 characters ("-2147483648"). */
  lemma FormatIntLength(i: int32)
    ensures |FormatInt(i as int)| <= 11
  {
    assert Pow10(10) == 10_000_000_000;
    if i < 0 {
      DecimalLength(-(i as int), 10);
    } else {
      DecimalLength(i as int, 10);
    }
  }

  /**
    `snprintf(buf, size, ...)` keeps at most `size - 1` characters of the
    formatted text (the last byte holds the NUL).
   */
  function Snprintf(text: string, size: nat): (r: string)
    requires size > 0
    ensures |r| < size
    ensures r <= text
    ensures |text| < size ==> r == text
    ensures |text| >= size ==> |r| == size - 1
  {
    if |text| < size then text else text[..size - 1]
  }

  /** The name the producer writes for patient `i`. */
  function Label(i: int32): string {
    Snprintf(NamePrefix + FormatInt(i as int), NameSize)
  }

  /** No `int` id makes the name long enough to be cut by the 100-byte buffer. */
  lemma LabelNotTruncated(i: int32)
    ensures Label(i) == NamePrefix + FormatInt(i as int)
    ensures |Label(i)| <= 19
  {
    FormatIntLength(i);
  }
}
