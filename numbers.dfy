/**
 * `stringToInt` (JavaScript `parseInt`), `toHex` and the 32-bit `>>` used for
 * the image size in kilobytes. A JavaScript number is an `int` here; `NaN` is
 * `None`.
 */
module Numbers {
  import opened Wrappers
  import opened Strings

  function Pow(base: nat, e: nat): (r: nat)
    ensures r >= 1 || base == 0
  {
    if e == 0 then 1 else base * Pow(base, e - 1)
  }

  predicate IsRadixDigit(c: char, radix: nat) {
    if radix == 16 then IsHexDigit(c) else IsDigit(c)
  }

  /** The input with its leading white space (`\s`, as for `parseInt`) removed. */
  function TrimStart(s: string): string {
    if |s| == 0 || !IsSpace(s[0]) then s else TrimStart(s[1..])
  }

  /** What `TrimStart` leaves is a suffix of its input that does not start with white space. */
  lemma {:induction false} TrimStartSuffix(s: string)
    ensures var t := TrimStart(s); |t| <= |s| && t == s[|s| - |t|..] && (t == "" || !IsSpace(t[0]))
    decreases |s|
  {
    if |s| > 0 && IsSpace(s[0]) {
      TrimStartSuffix(s[1..]);
    }
  }

  /** The longest prefix made of digits of the radix. */
  function DigitsPrefix(t: string, radix: nat): (d: string)
    requires radix == 10 || radix == 16
    ensures AllHexDigits(d)
  {
    if |t| == 0 || !IsRadixDigit(t[0], radix) then "" else [t[0]] + DigitsPrefix(t[1..], radix)
  }

  /** `DigitsPrefix` is the longest prefix made of digits of the radix. */
  lemma {:induction false} DigitsPrefixLongest(t: string, radix: nat)
    requires radix == 10 || radix == 16
    ensures var d := DigitsPrefix(t, radix);
      && d <= t
      && (forall i :: 0 <= i < |d| ==> IsRadixDigit(d[i], radix))
      && (|d| == |t| || !IsRadixDigit(t[|d|], radix))
    decreases |t|
  {
    if |t| > 0 && IsRadixDigit(t[0], radix) {
      DigitsPrefixLongest(t[1..], radix);
    }
  }

  /**
   * `parseInt(s, radix)` for radix 10 and 16: leading white space, an
   * optional sign, in radix 16 an optional `0x`/`0X`, then as many digits as
   * there are; no digit at all gives `NaN`.
   */
  function ParseInt(s: string, radix: nat): (r: Option<int>)
    requires radix == 10 || radix == 16
    ensures r.Some? ==> exists i :: 0 <= i < |s| && IsRadixDigit(s[i], radix)
    ensures r.Some? && r.value < 0 ==> '-' in s
  {
    var t := TrimStart(s);
    TrimStartSuffix(s);
    var negative := |t| > 0 && t[0] == '-';
    var unsigned := if |t| > 0 && (t[0] == '-' || t[0] == '+') then t[1..] else t;
    var body := if radix == 16 && HasHexPrefix(unsigned) then unsigned[2..] else unsigned;
    var digits := DigitsPrefix(body, radix);
    DigitsPrefixLongest(body, radix);
    if digits == "" then None
    else
      assert body == s[|s| - |body|..];
      assert IsRadixDigit(s[|s| - |body|], radix);
      assert negative ==> s[|s| - |t|] == '-';
      Some(if negative then -(ValueOf(digits, radix) as int) else ValueOf(digits, radix))
  }

  /** `/^0x/i`. */
  predicate HasHexPrefix(s: string) {
    |s| >= 2 && s[0] == '0' && (s[1] == 'x' || s[1] == 'X')
  }

  /**
   * `stringToInt`: radix 16 when the text starts with `0x` or `0X`, else 10.
   * Calling it on `undefined` is a TypeError.
   */
  function StringToInt(value: Option<string>): (r: Result<Option<int>, Error>)
    ensures r.Err? <==> value.None?
    ensures r.Err? ==> r.error == UndefinedValue
  {
    if value.None? then Err(UndefinedValue)
    else Ok(ParseInt(value.value, if HasHexPrefix(value.value) then 16 else 10))
  }

  /** A string of digits is its value. */
  lemma {:induction false} DigitsPrefixAll(t: string, radix: nat)
    requires radix == 10 || radix == 16
    requires forall i :: 0 <= i < |t| ==> IsRadixDigit(t[i], radix)
    ensures DigitsPrefix(t, radix) == t
    decreases |t|
  {
    if |t| > 0 {
      DigitsPrefixAll(t[1..], radix);
      assert [t[0]] + t[1..] == t;
    }
  }

  /** A non-empty decimal digit string reads as its decimal value. */
  lemma StringToIntDecimal(d: string)
    requires d != "" && AllDigits(d)
    ensures AllHexDigits(d)
    ensures StringToInt(Some(d)) == Ok(Some(ValueOf(d, 10) as int))
  {
    assert NoSpace(d) && !HasHexPrefix(d);
    assert TrimStart(d) == d;
    assert d[0] != '-' && d[0] != '+';
    DigitsPrefixAll(d, 10);
  }

  /** The default page size of `packFiles` reads as 256. */
  lemma DefaultPageSize()
    ensures StringToInt(Some("256")) == Ok(Some(256))
  {
    assert "256"[..2] == "25" && "25"[..1] == "2" && "2"[..0] == "";
    assert ValueOf("256", 10) == 256;
    StringToIntDecimal("256");
  }

  /** The default block size of `packFiles` reads as 4096. */
  lemma DefaultBlockSize()
    ensures StringToInt(Some("4096")) == Ok(Some(4096))
  {
    assert "4096"[..3] == "409" && "409"[..2] == "40" && "40"[..1] == "4" && "4"[..0] == "";
    assert ValueOf("4096", 10) == 4096;
    StringToIntDecimal("4096");
  }

  /** `0x` or `0X` followed by hexadecimal digits reads as their hexadecimal value. */
  lemma StringToIntHex(x: char, h: string)
    requires x == 'x' || x == 'X'
    requires h != "" && AllHexDigits(h)
    ensures StringToInt(Some(['0', x] + h)) == Ok(Some(ValueOf(h, 16) as int))
  {
    var s := ['0', x] + h;
    assert !IsSpace(s[0]) && HasHexPrefix(s);
    assert TrimStart(s) == s;
    assert s[2..] == h;
    DigitsPrefixAll(h, 16);
  }

  function HexDigitChar(d: nat): (c: char)
    requires d < 16
    ensures IsHexDigit(c) && DigitValue(c) == d
    ensures '0' <= c <= '9' || 'a' <= c <= 'f'
  {
    "0123456789abcdef"[d]
  }

  /** `n.toString(16)` for `n >= 0`: lower-case digits without leading zeros. */
  function HexOf(n: nat): (h: string)
    ensures h != "" && AllHexDigits(h) && ValueOf(h, 16) == n
    ensures n < 16 <==> |h| == 1
    ensures h[0] == '0' <==> n == 0
    ensures forall i :: 0 <= i < |h| ==> '0' <= h[i] <= '9' || 'a' <= h[i] <= 'f'
  {
    if n < 16 then [HexDigitChar(n)]
    else
      var h := HexOf(n / 16) + [HexDigitChar(n % 16)];
      assert h[..|h| - 1] == HexOf(n / 16);
      h
  }

  /** A number below `16^w` has at most `w` hexadecimal digits. */
  lemma {:induction false} HexOfLength(n: nat, w: nat)
    requires w >= 1 && n < Pow(16, w)
    ensures |HexOf(n)| <= w
    decreases w
  {
    if n >= 16 {
      assert w > 1;
      HexOfLength(n / 16, w - 1);
    }
  }

  /** `Number(n).toString(16)`: a minus sign before the digits of a negative number. */
  function NumberToHex(n: int): string {
    if n < 0 then "-" + HexOf(-n) else HexOf(n)
  }

  /** `s.slice(-width)`; `slice(-0)` is the whole string. */
  function SliceFromEnd(s: string, width: nat): (r: string)
    ensures width == 0 || width >= |s| ==> r == s
    ensures 0 < width < |s| ==> r == s[|s| - width..]
  {
    if width == 0 || width >= |s| then s else s[|s| - width..]
  }

  function UpperChar(c: char): char {
    if 'a' <= c <= 'z' then (c as int - 32) as char else c
  }

  /** `toUpperCase` on the characters `toHex` can produce. */
  function ToUpper(s: string): (r: string)
    ensures |r| == |s| && forall i :: 0 <= i < |s| ==> r[i] == UpperChar(s[i])
  {
    seq(|s|, i requires 0 <= i < |s| => UpperChar(s[i]))
  }

  /** `toHex(decimal, width)`: the last `width` characters of `"00000"` and the hexadecimal digits, upper-cased. */
  function ToHex(n: int, width: nat): (r: string)
    ensures 1 <= width <= 6 ==> |r| == width
    ensures forall i :: 0 <= i < |r| ==> !('a' <= r[i] <= 'z')
  {
    ToUpper(SliceFromEnd("00000" + NumberToHex(n), width))
  }

  lemma AllHexConcat(a: string, b: string)
    requires AllHexDigits(a) && AllHexDigits(b)
    ensures AllHexDigits(a + b)
  {
    var ab := a + b;
    forall i | 0 <= i < |ab| ensures IsHexDigit(ab[i]) {
      if i >= |a| { assert ab[i] == b[i - |a|]; }
    }
  }

  lemma ShiftDigit(va: int, p: int, vb: int, radix: int, last: int)
    ensures (va * p + vb) * radix + last == va * (p * radix) + (vb * radix + last)
  {
  }

  lemma {:induction false} ValueOfConcat(a: string, b: string, radix: nat)
    requires radix == 10 || radix == 16
    requires AllHexDigits(a) && AllHexDigits(b)
    ensures AllHexDigits(a + b)
    ensures ValueOf(a + b, radix) == ValueOf(a, radix) * Pow(radix, |b|) + ValueOf(b, radix)
    decreases |b|
  {
    AllHexConcat(a, b);
    if |b| == 0 {
      assert a + b == a;
    } else {
      var ab := a + b;
      var b' := b[..|b| - 1];
      assert ab[..|ab| - 1] == a + b' && ab[|ab| - 1] == b[|b| - 1];
      AllHexConcat(a, b');
      ValueOfConcat(a, b', radix);
      assert ValueOf(ab, radix) == ValueOf(a + b', radix) * radix + DigitValue(b[|b| - 1]);
      ShiftDigit(ValueOf(a, radix), Pow(radix, |b'|), ValueOf(b', radix), radix, DigitValue(b[|b| - 1]));
      assert Pow(radix, |b|) == radix * Pow(radix, |b'|);
    }
  }

  lemma {:induction false} ZerosValue(z: string, radix: nat)
    requires radix == 10 || radix == 16
    requires forall i :: 0 <= i < |z| ==> z[i] == '0'
    ensures AllHexDigits(z) && ValueOf(z, radix) == 0
    decreases |z|
  {
    if |z| > 0 {
      ZerosValue(z[..|z| - 1], radix);
    }
  }

  lemma {:induction false} UpperValue(s: string)
    requires AllHexDigits(s)
    ensures AllHexDigits(ToUpper(s)) && ValueOf(ToUpper(s), 16) == ValueOf(s, 16)
    decreases |s|
  {
    if |s| > 0 {
      var u := ToUpper(s);
      assert u[..|u| - 1] == ToUpper(s[..|s| - 1]);
      UpperValue(s[..|s| - 1]);
    }
  }

  /** Leading zeros do not change a value. */
  lemma LeadingZeros(z: string, h: string, radix: nat)
    requires radix == 10 || radix == 16
    requires forall i :: 0 <= i < |z| ==> z[i] == '0'
    requires AllHexDigits(h)
    ensures AllHexDigits(z + h) && ValueOf(z + h, radix) == ValueOf(h, radix)
  {
    ZerosValue(z, radix);
    ValueOfConcat(z, h, radix);
  }

  /** The last `width` characters of `"00000" + h` are zeros followed by `h`. */
  lemma PaddedSlice(h: string, width: nat)
    requires 1 <= |h| <= width <= 6
    ensures var padded := "00000" + h;
      var z := padded[|padded| - width..|padded| - |h|];
      SliceFromEnd(padded, width) == z + h && forall i :: 0 <= i < |z| ==> z[i] == '0'
  {
    var padded := "00000" + h;
    assert SliceFromEnd(padded, width) == padded[|padded| - width..];
  }

  /** Padding with zeros and keeping the last `width` characters keeps the value of at most `width` digits. */
  lemma PaddedValue(h: string, width: nat)
    requires 1 <= |h| <= width <= 6 && AllHexDigits(h)
    ensures var sliced := SliceFromEnd("00000" + h, width);
      sliced != "" && AllHexDigits(sliced) && ValueOf(sliced, 16) == ValueOf(h, 16)
  {
    var padded := "00000" + h;
    PaddedSlice(h, width);
    LeadingZeros(padded[|padded| - width..|padded| - |h|], h, 16);
  }

  /**
   * For `0 <= n < 16^width` and `width <= 6`, `toHex` gives exactly `width`
   * digits that `stringToInt` reads back, after `0x`, as `n`.
   */
  lemma ToHexRoundTrip(n: int, width: nat)
    requires 1 <= width <= 6 && 0 <= n < Pow(16, width)
    ensures |ToHex(n, width)| == width
    ensures StringToInt(Some("0x" + ToHex(n, width))) == Ok(Some(n))
  {
    HexOfLength(n, width);
    PaddedValue(HexOf(n), width);
    var sliced := SliceFromEnd("00000" + HexOf(n), width);
    UpperValue(sliced);
    StringToIntHex('x', ToUpper(sliced));
    assert "0x" == ['0', 'x'];
  }

  /** `a - b` on numbers: `NaN` if either operand is. */
  function Minus(a: Option<int>, b: Option<int>): Option<int> {
    if a.Some? && b.Some? then Some(a.value - b.value) else None
  }

  /** The ToInt32 conversion `>>` applies to its left operand (`NaN` becomes 0). */
  function ToInt32(x: Option<int>): (r: int)
    ensures -0x8000_0000 <= r < 0x8000_0000
    ensures x.Some? ==> (r - x.value) % 0x1_0000_0000 == 0
    ensures x.Some? && -0x8000_0000 <= x.value < 0x8000_0000 ==> r == x.value
  {
    if x.None? then 0
    else
      var m := x.value % 0x1_0000_0000;
      if m >= 0x8000_0000 then m - 0x1_0000_0000 else m
  }

  /** `x >> 10`: an arithmetic shift, so the floor of the quotient by 1024. */
  function ShiftRight10(x: Option<int>): (r: int)
    ensures r * 1024 <= ToInt32(x) < r * 1024 + 1024
    ensures -0x20_0000 <= r < 0x20_0000
    ensures x.Some? && 0 <= x.value < 0x8000_0000 ==> r == x.value / 1024
  {
    ToInt32(x) / 1024
  }

  /** A negative size rounds down: -1 shifts to -1, and `NaN` to 0. */
  lemma ShiftRight10Edges()
    ensures ShiftRight10(Some(-1)) == -1
    ensures ShiftRight10(Some(0x8000_0000)) == -0x20_0000
    ensures ShiftRight10(None) == 0
  {
  }
}
