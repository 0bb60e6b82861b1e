/** Bytes on the wire, and the Java text conversions the MSRP stack writes with:
    String.getBytes() (UTF-8, the platform charset), Long.toString and Integer.toHexString. */
module Wire {

  datatype Option<T> = None | Some(value: T)

  newtype byte = b: int | 0 <= b < 256
  type Bytes = seq<byte>

  /** A Java int. */
  newtype int32 = i: int | -0x8000_0000 <= i < 0x8000_0000

  /** Integer.MAX_VALUE */
  const MAX_INT: int := 0x7FFF_FFFF

  /** The bytes of a chunk list laid end to end, in order. */
  function Flatten(chunks: seq<Bytes>): (r: Bytes)
    ensures |chunks| == 1 ==> r == chunks[0]
  {
    if chunks == [] then [] else Flatten(chunks[..|chunks| - 1]) + chunks[|chunks| - 1]
  }

  /** Sequence concatenation regrouped. */
  lemma SeqAssoc<T>(a: seq<T>, b: seq<T>, c: seq<T>)
    ensures a + b + c == a + (b + c)
  {
  }

  lemma {:induction false} FlattenSnoc(chunks: seq<Bytes>, j: nat)
    requires j < |chunks|
    ensures Flatten(chunks[..j + 1]) == Flatten(chunks[..j]) + chunks[j]
  {
    assert chunks[..j + 1][..j] == chunks[..j];
  }

  lemma {:induction false} FlattenAppend(a: seq<Bytes>, b: seq<Bytes>)
    ensures Flatten(a + b) == Flatten(a) + Flatten(b)
  {
    if b == [] {
      assert a + b == a;
    } else {
      var b' := b[..|b| - 1];
      assert (a + b)[..|a + b| - 1] == a + b';
      FlattenAppend(a, b');
    }
  }

  // ---------------------------------------------------------------------------
  // String.getBytes(): UTF-8

  /** The UTF-8 encoding of one Unicode scalar value. */
  function Utf8Char(c: char): (r: Bytes)
    ensures 1 <= |r| <= 4
    ensures c as int < 0x80 ==> r == [c as int as byte]
    ensures c as int >= 0x80 ==> forall k :: 0 <= k < |r| ==> r[k] >= 0x80
  {
    var n := c as int;
    if n < 0x80 then [n as byte]
    else if n < 0x800 then [(0xC0 + n / 0x40) as byte, (0x80 + n % 0x40) as byte]
    else if n < 0x1_0000 then
      [(0xE0 + n / 0x1000) as byte, (0x80 + n / 0x40 % 0x40) as byte, (0x80 + n % 0x40) as byte]
    else
      [(0xF0 + n / 0x4_0000 % 8) as byte, (0x80 + n / 0x1000 % 0x40) as byte,
       (0x80 + n / 0x40 % 0x40) as byte, (0x80 + n % 0x40) as byte]
  }

  /** String.getBytes() with UTF-8 as the platform charset. */
  function Utf8(s: string): (r: Bytes)
    ensures |r| >= |s|
  {
    if s == [] then [] else Utf8(s[..|s| - 1]) + Utf8Char(s[|s| - 1])
  }

  lemma {:induction false} Utf8Append(a: string, b: string)
    ensures Utf8(a + b) == Utf8(a) + Utf8(b)
  {
    if b == [] {
      assert a + b == a;
    } else {
      var b' := b[..|b| - 1];
      assert (a + b)[..|a + b| - 1] == a + b';
      assert (a + b)[|a + b| - 1] == b[|b| - 1];
      Utf8Append(a, b');
    }
  }

  /** An ASCII string is encoded byte for byte. */
  lemma {:induction false} Utf8Ascii(s: string)
    requires forall i :: 0 <= i < |s| ==> s[i] as int < 0x80
    ensures |Utf8(s)| == |s|
    ensures forall i :: 0 <= i < |s| ==> Utf8(s)[i] == s[i] as int as byte
  {
    if s != [] {
      Utf8Ascii(s[..|s| - 1]);
    }
  }

  /** An ASCII character occurs in the encoding exactly where it occurs in the text,
      so a delimiter the text does not contain is not in its bytes either. */
  lemma {:induction false} Utf8Excludes(s: string, c: char)
    requires c as int < 0x80
    requires forall i :: 0 <= i < |s| ==> s[i] != c
    ensures forall k :: 0 <= k < |Utf8(s)| ==> Utf8(s)[k] != c as int as byte
  {
    if s != [] {
      Utf8Excludes(s[..|s| - 1], c);
      var last := s[|s| - 1];
      assert last != c;
      var tail := Utf8Char(last);
      assert forall k :: 0 <= k < |tail| ==> tail[k] != c as int as byte;
    }
  }

  // ---------------------------------------------------------------------------
  // Long.toString

  function DigitChar(d: nat): (c: char)
    requires d < 10
    ensures '0' <= c <= '9'
  {
    ('0' as int + d) as char
  }

  /** The decimal digits of n, without leading zeros. */
  function Digits(n: nat): (s: string)
    ensures 1 <= |s|
    ensures forall i :: 0 <= i < |s| ==> '0' <= s[i] <= '9'
    decreases n
  {
    if n < 10 then [DigitChar(n)] else Digits(n / 10) + [DigitChar(n % 10)]
  }

  /** Long.toString: an optional minus sign, then the digits. */
  function Decimal(n: int): (s: string)
    ensures 1 <= |s|
    ensures forall i :: 0 <= i < |s| ==> s[i] == '-' || '0' <= s[i] <= '9'
    ensures forall i :: 1 <= i < |s| ==> '0' <= s[i] <= '9'
    ensures n >= 0 <==> s[0] != '-'
  {
    if n < 0 then "-" + Digits(-n) else Digits(n)
  }

  /** Reads a run of decimal digits back into the number it denotes. */
  function DigitsValue(s: string): nat
    requires forall i :: 0 <= i < |s| ==> '0' <= s[i] <= '9'
  {
    if s == [] then 0 else 10 * DigitsValue(s[..|s| - 1]) + (s[|s| - 1] as int - '0' as int)
  }

  /** The inverse of Decimal, on any text Decimal can produce. */
  function ParseDecimal(s: string): Option<int>
  {
    if s == [] then None
    else if s[0] == '-' then
      if |s| > 1 && forall i :: 1 <= i < |s| ==> '0' <= s[i] <= '9' then
        var magnitude: int := DigitsValue(s[1..]);
        Some(-magnitude)
      else None
    else if forall i :: 0 <= i < |s| ==> '0' <= s[i] <= '9' then Some(DigitsValue(s)) else None
  }

  lemma {:induction false} DigitsRoundTrip(n: nat)
    ensures DigitsValue(Digits(n)) == n
    decreases n
  {
    if n >= 10 {
      var s := Digits(n);
      assert s[..|s| - 1] == Digits(n / 10);
      DigitsRoundTrip(n / 10);
    }
  }

  /** A minus sign before a run of digits reads back as the negated run. */
  lemma ParseNegative(d: string)
    requires 1 <= |d| && forall i :: 0 <= i < |d| ==> '0' <= d[i] <= '9'
    ensures ParseDecimal("-" + d) == Some(-(DigitsValue(d) as int))
  {
    var s := "-" + d;
    assert s[1..] == d;
    forall i | 1 <= i < |s| ensures '0' <= s[i] <= '9' {
      assert s[i] == d[i - 1];
    }
  }

  /** A run of digits reads back as its value. */
  lemma ParseDigits(d: string)
    requires 1 <= |d| && forall i :: 0 <= i < |d| ==> '0' <= d[i] <= '9'
    ensures ParseDecimal(d) == Some(DigitsValue(d))
  {
    assert d[0] != '-';
  }

  lemma DecimalRoundTrip(n: int)
    ensures ParseDecimal(Decimal(n)) == Some(n)
  {
    var m: nat := if n < 0 then -n else n;
    var d := Digits(m);
    DigitsRoundTrip(m);
    if n < 0 {
      ParseNegative(d);
    } else {
      ParseDigits(d);
    }
  }

  // ---------------------------------------------------------------------------
  // Integer.toHexString

  predicate IsHexDigit(c: char) {
    '0' <= c <= '9' || 'a' <= c <= 'f'
  }

  function HexChar(d: nat): (c: char)
    requires d < 16
    ensures IsHexDigit(c)
  {
    if d < 10 then ('0' as int + d) as char else ('a' as int + d - 10) as char
  }

  function HexValue(c: char): (d: nat)
    requires IsHexDigit(c)
    ensures d < 16
  {
    if c <= '9' then c as int - '0' as int else c as int - 'a' as int + 10
  }

  /** The lower-case hexadecimal digits of n, without leading zeros. */
  function HexDigits(n: nat): (s: string)
    ensures 1 <= |s|
    ensures forall i :: 0 <= i < |s| ==> IsHexDigit(s[i])
    decreases n
  {
    if n < 16 then [HexChar(n)] else HexDigits(n / 16) + [HexChar(n % 16)]
  }

  function HexDigitsValue(s: string): nat
    requires forall i :: 0 <= i < |s| ==> IsHexDigit(s[i])
  {
    if s == [] then 0 else 16 * HexDigitsValue(s[..|s| - 1]) + HexValue(s[|s| - 1])
  }

  /** A transaction or message identifier as the session generates it. */
  predicate IsHexToken(s: string) {
    1 <= |s| <= 8 && forall i :: 0 <= i < |s| ==> IsHexDigit(s[i])
  }

  /** The 32-bit two's complement pattern of i, read as an unsigned number. */
  function Unsigned(i: int32): (u: nat)
    ensures u < 0x1_0000_0000
  {
    if i < 0 then i as int + 0x1_0000_0000 else i as int
  }

  lemma {:induction false} HexDigitsLength(n: nat, k: nat)
    requires n < Power16(k) && k >= 1
    ensures |HexDigits(n)| <= k
    decreases n
  {
    if n >= 16 {
      assert Power16(1) == 16;
      assert n / 16 < Power16(k - 1);
      HexDigitsLength(n / 16, k - 1);
    }
  }

  function Power16(k: nat): (p: nat)
    ensures p >= 1
  {
    if k == 0 then 1 else 16 * Power16(k - 1)
  }

  /** Integer.toHexString: the unsigned value of the bit pattern in base 16. */
  function ToHexString(i: int32): (s: string)
    ensures IsHexToken(s)
  {
    assert Power16(8) == 0x1_0000_0000;
    HexDigitsLength(Unsigned(i), 8);
    HexDigits(Unsigned(i))
  }

  lemma {:induction false} HexDigitsRoundTrip(n: nat)
    ensures HexDigitsValue(HexDigits(n)) == n
    decreases n
  {
    if n >= 16 {
      var s := HexDigits(n);
      assert s[..|s| - 1] == HexDigits(n / 16);
      HexDigitsRoundTrip(n / 16);
    }
  }

  /** Distinct random values give distinct identifiers. */
  lemma ToHexStringInjective(i: int32, j: int32)
    requires ToHexString(i) == ToHexString(j)
    ensures i == j
  {
    HexDigitsRoundTrip(Unsigned(i));
    HexDigitsRoundTrip(Unsigned(j));
  }
}
