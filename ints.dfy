/** The fixed-width integer types of the Qt program (qint8, quint8, qint16,
    quint16), the two's-complement narrowing conversions it performs
    implicitly, and the decimal text QTextStream writes for an integer. */
module Ints {
  import opened Wrappers

  type Int8 = x: int | -128 <= x < 128
  type UInt8 = x: int | 0 <= x < 256
  type Int16 = x: int | -32768 <= x < 32768
  type UInt16 = x: int | 0 <= x < 65536

  /** Conversion of an int to qint8: keeps values in range, wraps the rest modulo 256. */
  function ToInt8(x: int): (r: Int8)
    ensures -128 <= x < 128 ==> r == x
    ensures (x - r) % 256 == 0
  {
    (x + 128) % 256 - 128
  }

  /** Conversion of an int to qint16: keeps values in range, wraps the rest modulo 65536. */
  function ToInt16(x: int): (r: Int16)
    ensures -32768 <= x < 32768 ==> r == x
    ensures (x - r) % 65536 == 0
  {
    (x + 32768) % 65536 - 32768
  }

  /** Conversion of an int to quint16 (assignment to an unsigned 16-bit variable). */
  function ToUInt16(x: int): (r: UInt16)
    ensures 0 <= x < 65536 ==> r == x
    ensures (x - r) % 65536 == 0
  {
    x % 65536
  }

  /** Conversion of an int to uint8_t (the bytes appended to the export buffer). */
  function ToUInt8(x: int): (r: UInt8)
    ensures 0 <= x < 256 ==> r == x
    ensures (x - r) % 256 == 0
  {
    x % 256
  }

  // ---------------------------------------------------------------------------
  // Decimal text, as QTextStream writes an integer

  predicate IsDigit(c: char) {
    '0' <= c <= '9'
  }

  predicate AllDigits(s: string) {
    forall k :: 0 <= k < |s| ==> IsDigit(s[k])
  }

  function DigitChar(d: int): (c: char)
    requires 0 <= d < 10
    ensures IsDigit(c)
  {
    ('0' as int + d) as char
  }

  function DigitValue(c: char): int {
    c as int - '0' as int
  }

  /** Decimal digits of a natural number, most significant first, no leading zero. */
  function NatText(n: nat): (s: string)
    ensures |s| >= 1 && AllDigits(s)
    decreases n
  {
    if n < 10 then [DigitChar(n)] else NatText(n / 10) + [DigitChar(n % 10)]
  }

  /** Decimal text of an integer: a minus sign before the digits of a negative value. */
  function IntText(n: int): (s: string)
    ensures |s| >= 1 && ',' !in s
  {
    if n < 0 then "-" + NatText(-n) else NatText(n)
  }

  /** Value of a string of decimal digits. */
  function ParseNat(s: string): nat
    requires AllDigits(s)
  {
    if s == [] then 0 else 10 * ParseNat(s[..|s| - 1]) + DigitValue(s[|s| - 1])
  }

  /** Reads back the text written by IntText. */
  function ParseInt(s: string): Option<int> {
    if |s| >= 2 && s[0] == '-' && AllDigits(s[1..]) then Some(-(ParseNat(s[1..]) as int))
    else if |s| >= 1 && AllDigits(s) then Some(ParseNat(s))
    else None
  }

  lemma {:induction false} ParseNatText(n: nat)
    ensures ParseNat(NatText(n)) == n
    decreases n
  {
    if n >= 10 {
      var s := NatText(n / 10);
      var t := NatText(n);
      assert t == s + [DigitChar(n % 10)];
      assert t[..|t| - 1] == s;
      ParseNatText(n / 10);
    }
  }

  /** The decimal text of every integer reads back as that integer. */
  lemma ParseIntText(n: int)
    ensures ParseInt(IntText(n)) == Some(n)
  {
    var s := IntText(n);
    if n < 0 {
      var d := NatText(-n);
      assert s == "-" + d;
      assert s[1..] == d;
      assert |s| >= 2 && s[0] == '-' && AllDigits(s[1..]);
      ParseNatText(-n);
      assert ParseInt(s) == Some(-(ParseNat(d) as int));
    } else {
      assert s == NatText(n);
      assert IsDigit(s[0]);
      ParseNatText(n);
      assert ParseInt(s) == Some(ParseNat(s) as int);
    }
  }
}
