/** Machine integers, bytes and the decimal renderings the engine relies on:
    `std::to_wstring` for rotation suffixes, and `%u`, `%02u`, `%03u`, `%04u`
    and `%s` in the line prefix. */
module Text {

  newtype byte = x: int | 0 <= x < 0x100
  newtype u16 = x: int | 0 <= x < 0x1_0000
  newtype u32 = x: int | 0 <= x < 0x1_0000_0000
  newtype u64 = x: int | 0 <= x < 0x1_0000_0000_0000_0000

  predicate IsDigit(c: char) {
    '0' <= c <= '9'
  }

  predicate AllDigits(s: string) {
    forall i :: 0 <= i < |s| ==> IsDigit(s[i])
  }

  function DigitChar(d: nat): (c: char)
    requires d < 10
    ensures IsDigit(c) && DigitValue(c) == d
  {
    ('0' as int + d) as char
  }

  function DigitValue(c: char): (d: nat)
    requires IsDigit(c)
    ensures d < 10
  {
    c as int - '0' as int
  }

  /** The decimal text of `n` with no leading zeros. */
  function Decimal(n: nat): (s: string)
    ensures 1 <= |s| && AllDigits(s)
    ensures n < 10 <==> |s| == 1
    ensures n >= 1 ==> s[0] != '0'
  {
    if n < 10 then [DigitChar(n)] else Decimal(n / 10) + [DigitChar(n % 10)]
  }

  /** Reads a string of digits back as a number (leading zeros allowed). */
  function ParseDecimal(s: string): nat
    requires AllDigits(s)
  {
    if s == [] then 0 else 10 * ParseDecimal(s[..|s| - 1]) + DigitValue(s[|s| - 1])
  }

  lemma {:induction false} ParseDecimalOfDecimal(n: nat)
    ensures ParseDecimal(Decimal(n)) == n
  {
    var s := Decimal(n);
    if n < 10 {
      assert s[..|s| - 1] == [];
    } else {
      assert s[..|s| - 1] == Decimal(n / 10);
      ParseDecimalOfDecimal(n / 10);
    }
  }

  /** Distinct numbers have distinct decimal texts. */
  lemma DecimalInjective(a: nat, b: nat)
    requires Decimal(a) == Decimal(b)
    ensures a == b
  {
    ParseDecimalOfDecimal(a);
    ParseDecimalOfDecimal(b);
  }

  function Pow10(k: nat): (p: nat)
    ensures p >= 1
  {
    if k == 0 then 1 else 10 * Pow10(k - 1)
  }

  /** A number below 10^w needs at most w digits. */
  lemma {:induction false} DecimalFits(n: nat, w: nat)
    requires 1 <= w && n < Pow10(w)
    ensures |Decimal(n)| <= w
  {
    if n >= 10 {
      assert Pow10(w) == 10 * Pow10(w - 1);
      assert n / 10 < Pow10(w - 1);
      DecimalFits(n / 10, w - 1);
    }
  }

  function Zeros(k: nat): (s: string)
    ensures |s| == k && forall i :: 0 <= i < k ==> s[i] == '0'
  {
    seq(k, _ => '0')
  }

  /** printf's `%0<w>u`: the decimal text of `n`, left-padded with zeros to at least `w` characters. */
  function ZeroPadded(n: nat, w: nat): (s: string)
    ensures AllDigits(s)
    ensures |s| == if |Decimal(n)| < w then w else |Decimal(n)|
    ensures 1 <= w && n < Pow10(w) ==> |s| == w
    ensures s[|s| - |Decimal(n)|..] == Decimal(n)
    ensures forall i :: 0 <= i < |s| - |Decimal(n)| ==> s[i] == '0'
  {
    var d := Decimal(n);
    var s := if |d| < w then Zeros(w - |d|) + d else d;
    if 1 <= w && n < Pow10(w) then DecimalFits(n, w); s else s
  }

  lemma ZerosSnoc(k: nat)
    ensures Zeros(k + 1) == Zeros(k) + "0"
  {
    assert forall i :: 0 <= i < k + 1 ==> Zeros(k + 1)[i] == (Zeros(k) + "0")[i];
  }

  /** The padding rendered one digit at a time from the right: the digits of
      `n / 10`, padded to one fewer, then the last digit of `n`. */
  lemma ZeroPaddedSplit(n: nat, w: nat)
    requires n >= 10 || w > 1
    ensures ZeroPadded(n, w) == ZeroPadded(n / 10, if w > 0 then w - 1 else 0) + [DigitChar(n % 10)]
  {
    var w' := if w > 0 then w - 1 else 0;
    var d, d' := Decimal(n), Decimal(n / 10);
    if n >= 10 {
      assert d == d' + [DigitChar(n % 10)];
      if |d| < w {
        var k := w - |d|;
        assert ZeroPadded(n, w) == Zeros(k) + d;
        assert ZeroPadded(n / 10, w') == Zeros(k) + d';
        assert Zeros(k) + d == (Zeros(k) + d') + [DigitChar(n % 10)];
      } else {
        assert ZeroPadded(n, w) == d;
        assert ZeroPadded(n / 10, w') == d';
      }
    } else {
      assert d == [DigitChar(n % 10)];
      assert d' == "0";
      assert ZeroPadded(n, w) == Zeros(w - 1) + d;
      ZerosSnoc(w - 2);
      assert ZeroPadded(n / 10, w') == Zeros(w' - 1) + "0";
    }
  }

  predicate IsAscii(s: string) {
    forall i :: 0 <= i < |s| ==> s[i] as int < 0x80
  }

  lemma DigitsAreAscii(s: string)
    requires AllDigits(s)
    ensures IsAscii(s)
  {
  }

  /** The single-byte encoding of an ASCII string. */
  function AsciiBytes(s: string): (b: seq<byte>)
    requires IsAscii(s)
    ensures |b| == |s| && forall i :: 0 <= i < |s| ==> b[i] as int == s[i] as int
  {
    seq(|s|, i requires 0 <= i < |s| => s[i] as int as byte)
  }

  lemma AsciiBytesInjective(s: string, t: string)
    requires IsAscii(s) && IsAscii(t) && AsciiBytes(s) == AsciiBytes(t)
    ensures s == t
  {
    assert |s| == |t|;
    forall i | 0 <= i < |s| ensures s[i] == t[i] {
      assert AsciiBytes(s)[i] == AsciiBytes(t)[i];
    }
  }

  /** The ASCII bytes of a string of decimal digits. */
  function DigitBytes(s: string): (b: seq<byte>)
    requires AllDigits(s)
    ensures |b| == |s|
  {
    DigitsAreAscii(s);
    AsciiBytes(s)
  }

  /** The ASCII byte of decimal digit `d`. */
  function DigitByte(d: nat): byte
    requires d < 10
  {
    (0x30 + d) as byte
  }

  lemma DigitBytesSnoc(s: string, d: nat)
    requires AllDigits(s) && d < 10
    ensures DigitBytes(s + [DigitChar(d)]) == DigitBytes(s) + [DigitByte(d)]
  {
    var t := s + [DigitChar(d)];
    assert AllDigits(t);
    forall i | 0 <= i < |t|
      ensures DigitBytes(t)[i] == (DigitBytes(s) + [DigitByte(d)])[i]
    {
      if i < |s| {
        assert t[i] == s[i];
      }
    }
  }

  /** What `%s` reads of a `std::string` through `c_str()`: the bytes before the first NUL. */
  function CString(s: seq<byte>): (r: seq<byte>)
    ensures r <= s
    ensures forall i :: 0 <= i < |r| ==> r[i] != 0
    ensures |r| < |s| ==> s[|r|] == 0
  {
    if s == [] || s[0] == 0 then [] else [s[0]] + CString(s[1..])
  }
}
