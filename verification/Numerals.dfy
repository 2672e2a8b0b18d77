/** The numeral conversions format tables and configuration values go through. */
module Numerals {
  import opened CTypes
  import opened Bits

  /** A 32-bit pattern as the signed int it is returned as. */
  function AsInt32(x: int): (r: int)
    ensures -0x8000_0000 <= r < 0x8000_0000
  {
    (x + 0x8000_0000) % 0x1_0000_0000 - 0x8000_0000
  }

  predicate IsDigit(c: char) { '0' <= c <= '9' }

  predicate AllDigits(s: string) { forall i :: 0 <= i < |s| ==> IsDigit(s[i]) }

  /** Positional value of a string of decimal digits. */
  function DecValue(s: string): nat
    requires AllDigits(s)
  {
    if s == [] then 0 else 10 * DecValue(s[..|s| - 1]) + (s[|s| - 1] as int - '0' as int)
  }

  predicate HasSign(s: string) { s != [] && (s[0] == '+' || s[0] == '-') }

  /** The digits of a decimal numeral, after an optional sign. */
  function Magnitude(s: string): string { if HasSign(s) then s[1..] else s }

  /** What atoi answers: the signed value, or -1 for anything that is not a numeral. */
  function AtoiValue(s: string): int {
    if !AllDigits(Magnitude(s)) then -1
    else
      var v: int := DecValue(Magnitude(s));
      AsInt32(if HasSign(s) && s[0] == '-' then -v else v)
  }

  lemma {:induction false} WrapStep(a: int, d: int)
    ensures AsInt32(AsInt32(a) * 10 + d) == AsInt32(a * 10 + d)
  {
    var k := (a + 0x8000_0000) / 0x1_0000_0000;
    assert AsInt32(a) == a - k * 0x1_0000_0000;
  }

  lemma {:induction false} WrapNegate(a: int)
    ensures AsInt32(-AsInt32(a)) == AsInt32(-a)
  {
    var k := (a + 0x8000_0000) / 0x1_0000_0000;
    assert AsInt32(a) == a - k * 0x1_0000_0000;
  }

  lemma {:induction false} WrapZero()
    ensures AsInt32(0) == 0 && DecValue([]) == 0
  {
  }

  lemma {:induction false} NextDigit(digits: string, k: nat)
    requires k < |digits| && AllDigits(digits[..k]) && IsDigit(digits[k])
    ensures AllDigits(digits[..k + 1])
    ensures AsInt32(DecValue(digits[..k + 1]))
            == AsInt32(AsInt32(DecValue(digits[..k])) * 10 + (digits[k] as int - '0' as int))
  {
    var done, more := digits[..k], digits[..k + 1];
    assert more[..|more| - 1] == done && more[|more| - 1] == digits[k];
    hide AsInt32;
    WrapStep(DecValue(done), digits[k] as int - '0' as int);
  }

  /** What atoi answers for a pointer that may be NULL. */
  function AtoiOf(text: Option<string>): int { if text.Some? then AtoiValue(text.value) else -1 }

  /** atoi. Accumulation wraps at 32 bits. */
  method Atoi(text: Option<string>) returns (r: int)
    requires text.Some? ==> '\0' !in text.value
    ensures r == AtoiOf(text) && (text.None? ==> r == -1)
  {
    hide AsInt32, DecValue;
    if text.None? { return -1; }
    var str := text.value;
    var minus, p := false, 0;
    if p < |str| && !IsDigit(str[p]) && (str[p] == '+' || str[p] == '-') {
      if str[p] == '-' { minus := true; }
      p := p + 1;
    }
    ghost var digits := Magnitude(str);
    ghost var from := p;
    WrapZero();
    var result := 0;
    while p < |str|
      invariant from <= p <= |str| && digits == str[from..]
      invariant AllDigits(digits[..p - from])
      invariant result == AsInt32(DecValue(digits[..p - from]))
    {
      if !IsDigit(str[p]) {
        assert digits[p - from] == str[p];
        assert !AllDigits(digits) by { hide IsDigit; }
        return -1;
      }
      assert digits[p - from] == str[p];
      NextDigit(digits, p - from);
      result := AsInt32(result * 10 + (str[p] as int - '0' as int));
      p := p + 1;
    }
    assert digits[..p - from] == digits;
    WrapNegate(DecValue(digits));
    r := if minus then AsInt32(-result) else result;
  }

  /** A signed result differs from the number by a multiple of 2^32. */
  lemma {:induction false} SameWord(x: int)
    ensures (AsInt32(x) - x) % 0x1_0000_0000 == 0
  {
  }

  /** What atoi answers, digit by digit: nothing is 0, a further digit multiplies by ten and adds, in 32 bits. */
  lemma {:induction false} AtoiDigits(s: string, c: char)
    requires AllDigits(s) && '0' <= c <= '9'
    ensures AtoiValue("") == 0 && AtoiValue(s + [c]) == AsInt32(10 * AtoiValue(s) + (c as int - 48))
  {
    var t := s + [c];
    assert t[..|s|] == s && t[..|t|] == t;
    hide AsInt32, DecValue;
    WrapZero();
    NextDigit(t, |s|);
    assert !HasSign(t);
  }

  /** A sign in front, and -1 for everything that is not an optionally signed string of digits. */
  lemma {:induction false} AtoiSigns(s: string)
    ensures AllDigits(s) ==> AtoiValue("+" + s) == AtoiValue(s) && AtoiValue("-" + s) == AsInt32(-AtoiValue(s))
    ensures forall i :: 0 < i < |s| && !('0' <= s[i] <= '9') ==> AtoiValue(s) == -1
    ensures s != "" && !('0' <= s[0] <= '9') && s[0] != '+' && s[0] != '-' ==> AtoiValue(s) == -1
  {
    hide AsInt32, DecValue;
    assert ("+" + s)[1..] == s && ("-" + s)[1..] == s;
    if AllDigits(s) { WrapNegate(DecValue(s)); }
    forall i | 0 < i < |s| && !('0' <= s[i] <= '9') ensures AtoiValue(s) == -1 {
      if HasSign(s) { assert s[1..][i - 1] == s[i]; }
    }
  }

  // ---------- hexadecimal ----------

  /** A char of the C program is signed. */
  function SignedChar(c: char): int { var b := c as int % 0x100; if b < 0x80 then b else b - 0x100 }

  /** The digit value the loop uses: only 'A'..'F' are letters, everything else is measured from '0'. */
  function DigitBits(c: char): uint32 {
    if 'A' <= c <= 'F' then c as int - 55 else (SignedChar(c) - 48) % 0x1_0000_0000
  }

  /** Digits and upper-case letters count what they denote, a byte above 0x7F is negative before '0' is taken off. */
  lemma {:induction false} CharacterBits(c: char)
    ensures 'A' <= c <= 'F' ==> DigitBits(c) == 10 + (c as int - 'A' as int)
    ensures '0' <= c <= '9' ==> DigitBits(c) == c as int - '0' as int
    ensures c as int % 0x100 >= 0x80 ==> DigitBits(c) == 0xFFFF_FED0 + c as int % 0x100
  {
  }

  /** Shift in four bits per character. */
  function HexFold(s: string): uint32 {
    if s == [] then 0 else ToUint32(Or(ToUint32(Shl(HexFold(s[..|s| - 1]), 4)), DigitBits(s[|s| - 1])))
  }

  predicate HexPrefix(s: string) { |s| >= 2 && s[0] == '0' && (s[1] == 'x' || s[1] == 'X') }

  function HexStr2NumValue(s: string): int {
    if !HexPrefix(s) || |s| > 10 then -1 else AsInt32(HexFold(s[2..]))
  }

  /** hexstr2num. */
  method HexStr2Num(str: string) returns (r: int)
    requires '\0' !in str
    ensures r == HexStr2NumValue(str)
    ensures |str| < 2 || str[0] != '0' || (str[1] != 'x' && str[1] != 'X') || |str| > 10 ==> r == -1
  {
    if !HexPrefix(str) { return -1; }
    if |str| > 10 { return -1; }
    var ret: uint32, p := 0, 2;
    while p < |str|
      invariant 2 <= p <= |str|
      invariant ret == HexFold(str[2..p])
    {
      var t := DigitBits(str[p]);
      assert str[2..p + 1][..p - 2] == str[2..p];
      ret := ToUint32(Shl(ret, 4));
      ret := ToUint32(Or(ret, t));
      p := p + 1;
    }
    assert str[2..p] == str[2..];
    r := AsInt32(ret);
  }

  /** The value a configuration string denotes. */
  function Str2NumValue(s: string): int {
    if HexPrefix(s) then HexStr2NumValue(s) else AtoiValue(s)
  }

  /** str2num. */
  method Str2Num(str: string) returns (r: int)
    requires '\0' !in str
    ensures r == Str2NumValue(str)
    ensures r == if |str| >= 2 && str[0] == '0' && (str[1] == 'x' || str[1] == 'X') then HexStr2NumValue(str)
                 else AtoiValue(str)
  {
    if !HexPrefix(str) {
      r := Atoi(Some(str));
    } else {
      r := HexStr2Num(str);
    }
  }

  predicate IsHexDigit(c: char) { IsDigit(c) || 'A' <= c <= 'F' }

  predicate AllHexDigits(s: string) { forall i :: 0 <= i < |s| ==> IsHexDigit(s[i]) }

  function HexDigitValue(c: char): nat
    requires IsHexDigit(c)
  {
    if IsDigit(c) then c as int - '0' as int else 10 + (c as int - 'A' as int)
  }

  /** Positional value of a string of upper-case hexadecimal digits. */
  function HexValue(s: string): nat
    requires AllHexDigits(s)
  {
    if s == [] then 0 else 16 * HexValue(s[..|s| - 1]) + HexDigitValue(s[|s| - 1])
  }

  lemma {:induction false} OrZero(x: nat)
    ensures Or(x, 0) == x
  {
    if x > 0 { OrZero(x / 2); }
  }

  lemma {:induction false} ShlFour(x: nat)
    ensures Shl(x, 4) == 16 * x
  {
    assert Shl(x, 1) == 2 * x;
    assert Shl(x, 2) == 4 * x;
    assert Shl(x, 3) == 8 * x;
  }

  lemma {:induction false} OrIsAdd(x: nat, t: nat)
    requires t < 16
    ensures Or(Shl(x, 4), t) == 16 * x + t
  {
    hide Or, Shl;
    ShlFour(x);
    OrZero(x);
    OrHalf(x, t / 8);
    OrHalf(2 * x, t / 4);
    OrHalf(4 * x, t / 2);
    OrHalf(8 * x, t);
  }

  lemma {:induction false} OrHalf(x: nat, t: nat)
    ensures Or(2 * x, t) == 2 * Or(x, t / 2) + t % 2
  {
  }

  /** Shift-or over hexadecimal digits is positional value, and eight digits lose no bits. */
  lemma {:induction false} HexFoldIsValue(s: string)
    requires AllHexDigits(s) && |s| <= 8
    ensures HexFold(s) == HexValue(s) < Pow16(|s|) <= 0x1_0000_0000
    decreases |s|
  {
    Pow16Bound(|s|);
    if s == [] {
    } else {
      Pow16Bound(|s| - 1);
      var rest, c := s[..|s| - 1], s[|s| - 1];
      HexFoldIsValue(rest);
      assert Pow16(|s|) == 16 * Pow16(|rest|);
      assert HexFold(s) == ToUint32(Or(ToUint32(Shl(HexFold(rest), 4)), DigitBits(c)));
      assert HexValue(s) == 16 * HexValue(rest) + HexDigitValue(c);
      hide HexFold, HexValue, Pow16, ToUint32, Or, Shl, DigitBits;
      FoldStep(HexFold(rest), c);
    }
  }

  lemma {:induction false} FoldStep(x: nat, c: char)
    requires x < 0x1000_0000 && IsHexDigit(c)
    ensures ToUint32(Or(ToUint32(Shl(x, 4)), DigitBits(c))) == 16 * x + HexDigitValue(c)
  {
    hide Or, Shl;
    ShlFour(x);
    OrIsAdd(x, DigitBits(c));
    WordKept(Shl(x, 4));
    WordKept(Or(Shl(x, 4), DigitBits(c)));
  }

  lemma {:induction false} WordKept(x: nat)
    requires x < 0x1_0000_0000
    ensures ToUint32(x) == x
  {
  }

  function Pow16(n: nat): (p: nat)
    ensures p > 0
  {
    if n == 0 then 1 else 16 * Pow16(n - 1)
  }

  lemma {:induction false} Pow16Bound(n: nat)
    requires n <= 8
    ensures Pow16(n) <= 0x1_0000_0000
    decreases 8 - n
  {
    if n < 8 { Pow16Bound(n + 1); }
    else { assert Pow16(4) == 0x1_0000; assert Pow16(6) == 0x100_0000; }
  }

  // ---------- round trips ----------

  function DigitChar(d: nat): char
    requires d < 16
  {
    if d < 10 then ('0' as int + d) as char else ('A' as int + (d - 10)) as char
  }

  /** The shortest decimal numeral of n. */
  function DecText(n: nat): string {
    if n < 10 then [DigitChar(n)] else DecText(n / 10) + [DigitChar(n % 10)]
  }

  function IntText(n: int): string { if n < 0 then "-" + DecText(-n) else DecText(n) }

  /** The shortest upper-case hexadecimal numeral of n. */
  function HexText(n: nat): string {
    if n < 16 then [DigitChar(n)] else HexText(n / 16) + [DigitChar(n % 16)]
  }

  lemma {:induction false} DecTextValue(n: nat)
    ensures AllDigits(DecText(n)) && DecText(n) != [] && DecValue(DecText(n)) == n
  {
    if n >= 10 {
      DecTextValue(n / 10);
      assert DecText(n)[..|DecText(n)| - 1] == DecText(n / 10);
    } else {
      assert DecText(n)[..0] == [];
    }
  }

  lemma {:induction false} HexTextValue(n: nat, digits: nat)
    requires n < Pow16(digits) && digits > 0
    ensures AllHexDigits(HexText(n)) && HexValue(HexText(n)) == n && |HexText(n)| <= digits
    decreases digits
  {
    if n >= 16 {
      HexTextValue(n / 16, digits - 1);
      assert HexText(n)[..|HexText(n)| - 1] == HexText(n / 16);
    } else {
      assert HexText(n)[..0] == [];
    }
  }

  /** Any 32-bit number survives its hexadecimal numeral, as a bit pattern. */
  lemma {:induction false} HexRoundTrip(n: uint32, prefix: string)
    requires prefix == "0x" || prefix == "0X"
    ensures Str2NumValue(prefix + HexText(n)) == AsInt32(n)
  {
    var s := prefix + HexText(n);
    assert Pow16(8) == 0x1_0000_0000 by { assert Pow16(4) == 0x1_0000; assert Pow16(6) == 0x100_0000; }
    HexTextValue(n, 8);
    HexFoldIsValue(HexText(n));
    assert s[2..] == HexText(n);
  }

  /** Leading zeros are harmless up to the length limit: any eight or fewer digits give their positional value. */
  lemma {:induction false} HexDigitsRoundTrip(digits: string)
    requires AllHexDigits(digits)
    ensures Str2NumValue("0x" + digits) == if |digits| <= 8 then AsInt32(HexValue(digits)) else -1
  {
    var s := "0x" + digits;
    assert s[2..] == digits;
    if |digits| <= 8 { HexFoldIsValue(digits); }
  }

  // ---------- lower-case digits ----------

  predicate IsLowerHex(c: char) { 'a' <= c <= 'f' }

  predicate AllHexAnyCase(s: string) { forall i :: 0 <= i < |s| ==> IsHexDigit(s[i]) || IsLowerHex(s[i]) }

  function AnyCaseDigit(c: char): (d: nat)
    requires IsHexDigit(c) || IsLowerHex(c)
    ensures d < 16
  {
    if IsLowerHex(c) then 10 + (c as int - 'a' as int) else HexDigitValue(c)
  }

  /** What the digits would mean if lower case counted. */
  function AnyCaseValue(s: string): nat
    requires AllHexAnyCase(s)
  {
    if s == [] then 0 else 16 * AnyCaseValue(s[..|s| - 1]) + AnyCaseDigit(s[|s| - 1])
  }

  lemma {:induction false} OrNibble(x: nat, t: nat)
    ensures Or(16 * x, t) == 16 * Or(x, t / 16) + t % 16
  {
    hide Or;
    OrHalf(8 * x, t);
    OrHalf(4 * x, t / 2);
    OrHalf(2 * x, t / 4);
    OrHalf(x, t / 8);
  }

  lemma {:induction false} LowNibble(x: uint32, c: char)
    ensures var y := ToUint32(Or(ToUint32(Shl(x, 4)), DigitBits(c)));
            && y % 16 == DigitBits(c) % 16
            && (DigitBits(c) < 16 ==> y == ToUint32(16 * x) + DigitBits(c))
  {
    hide Or, Shl, DigitBits;
    ShlFour(x);
    var z := x % 0x1000_0000;
    assert ToUint32(16 * x) == 16 * z;
    OrNibble(z, DigitBits(c));
    OrZero(z);
  }

  lemma {:induction false} Spread(x: nat, y: nat, p: nat, q: nat, r: nat, j: nat)
    requires x == q * p + r && 16 * x == y + j * (16 * p)
    ensures y as int - 16 * r == (q as int - j) * (16 * p)
  {
    assert 16 * (q * p) == q * (16 * p);
  }

  lemma {:induction false} NegativeProduct(k: int, m: int)
    requires k < 0 <= m
    ensures k * m <= -m
  {
    var e := -1 - k;
    assert k * m == -m - e * m by { assert k == -1 - e; }
  }

  lemma {:induction false} NotBelow(k: int, m: int, r: int)
    requires k * m + r >= 0 && r < m && m >= 0
    ensures k >= 0
  {
    if k < 0 { NegativeProduct(k, m); }
  }

  lemma {:induction false} CutBy(x: nat, d: nat, p: nat, j: nat, y: nat)
    requires p > 0 && d < 16 && 16 * x == y + j * (16 * p)
    ensures (y + d) % (16 * p) == 16 * (x % p) + d
  {
    var q, r := x / p, x % p;
    assert x == q * p + r;
    Spread(x, y, p, q, r, j);
    var k: int := q as int - j;
    NotBelow(k, 16 * p, 16 * r + d);
    ModUnique(y + d, 16 * p, k, 16 * r + d);
  }

  lemma {:induction false} Pow16Divides(n: nat) returns (m: nat)
    requires n <= 8
    ensures m * Pow16(n) == 0x1_0000_0000
    decreases 8 - n
  {
    if n == 8 {
      assert Pow16(4) == 0x1_0000; assert Pow16(6) == 0x100_0000;
      m := 1;
    } else {
      var half := Pow16Divides(n + 1);
      m := 16 * half;
      Regroup(half, Pow16(n));
    }
  }

  lemma {:induction false} Regroup(m: nat, p: nat)
    ensures (16 * m) * p == m * (16 * p)
  {
  }

  lemma {:induction false} WordPart(x: nat, m: nat, p: nat) returns (j: nat)
    requires m * p == 0x1_0000_0000
    ensures x == ToUint32(x) + j * p
  {
    var k := x / 0x1_0000_0000;
    j := k * m;
    assert k * (m * p) == (k * m) * p;
  }

  lemma {:induction false} CutDigits(x: nat, d: nat, n: nat)
    requires d < 16 && 0 < n <= 8
    ensures (ToUint32(16 * x) + d) % Pow16(n) == 16 * (x % Pow16(n - 1)) + d
  {
    var m := Pow16Divides(n);
    assert Pow16(n) == 16 * Pow16(n - 1);
    hide Pow16, ToUint32;
    var j := WordPart(16 * x, m, Pow16(n));
    CutBy(x, d, Pow16(n - 1), j, ToUint32(16 * x));
  }

  lemma {:induction false} ModOfMod(y: nat, p: nat)
    requires p > 0
    ensures (y % (16 * p)) % 16 == y % 16
  {
    var q, r := y / (16 * p), y % (16 * p);
    assert y == q * (16 * p) + r;
    assert q * (16 * p) == 16 * (q * p);
  }

  lemma {:induction false} LowerNibbleDiffers(c: char)
    requires IsLowerHex(c)
    ensures DigitBits(c) % 16 != AnyCaseDigit(c) && !IsHexDigit(c)
  {
  }

  lemma {:induction false} UpperBits(c: char)
    requires IsHexDigit(c)
    ensures DigitBits(c) == AnyCaseDigit(c) == HexDigitValue(c)
  {
  }

  lemma {:induction false} LastDigit(rest: string, c: char)
    requires AllHexAnyCase(rest + [c])
    ensures AllHexAnyCase(rest) && (IsHexDigit(c) || IsLowerHex(c))
    ensures HexFold(rest + [c]) == ToUint32(Or(ToUint32(Shl(HexFold(rest), 4)), DigitBits(c)))
    ensures AnyCaseValue(rest + [c]) == 16 * AnyCaseValue(rest) + AnyCaseDigit(c)
    ensures AllHexDigits(rest + [c]) <==> AllHexDigits(rest) && IsHexDigit(c)
  {
    var s := rest + [c];
    assert s[..|s| - 1] == rest && s[|s| - 1] == c;
    assert forall i :: 0 <= i < |rest| ==> rest[i] == s[i];
    hide IsHexDigit, IsLowerHex, AnyCaseDigit, DigitBits, Or, Shl, ToUint32;
  }

  /** The last lower-case digit leaves a wrong nibble that nothing after it repairs. */
  lemma {:induction false} WrongNibble(s: string)
    requires AllHexAnyCase(s) && |s| <= 8
    ensures HexFold(s) % Pow16(|s|) == AnyCaseValue(s) <==> AllHexDigits(s)
    decreases |s|
  {
    if s != [] {
      var rest, c := s[..|s| - 1], s[|s| - 1];
      assert s == rest + [c];
      assert Pow16(|s|) == 16 * Pow16(|rest|);
      hide HexFold, AnyCaseValue, Pow16, ToUint32, Or, Shl, DigitBits, AnyCaseDigit, AllHexAnyCase, AllHexDigits,
           IsHexDigit, IsLowerHex;
      LastDigit(rest, c);
      WrongNibble(rest);
      LowNibble(HexFold(rest), c);
      if IsHexDigit(c) {
        UpperBits(c);
        CutDigits(HexFold(rest), DigitBits(c), |s|);
        SameQuotient(HexFold(rest) % Pow16(|rest|), AnyCaseValue(rest), DigitBits(c));
      } else {
        LowerNibbleDiffers(c);
        ModOfMod(HexFold(s), Pow16(|rest|));
        LowPart(AnyCaseValue(rest), AnyCaseDigit(c));
      }
    }
  }

  lemma {:induction false} SameQuotient(a: nat, b: nat, d: nat)
    ensures 16 * a + d == 16 * b + d <==> a == b
  {
  }

  lemma {:induction false} LowPart(a: nat, d: nat)
    requires d < 16
    ensures (16 * a + d) % 16 == d
  {
  }

  lemma {:induction false} AnyCaseBound(s: string)
    requires AllHexAnyCase(s)
    ensures AnyCaseValue(s) < Pow16(|s|)
    decreases |s|
  {
    if s != [] { AnyCaseBound(s[..|s| - 1]); }
  }

  lemma {:induction false} SameAsUpper(s: string)
    requires AllHexDigits(s)
    ensures AllHexAnyCase(s) && AnyCaseValue(s) == HexValue(s)
    decreases |s|
  {
    if s != [] { SameAsUpper(s[..|s| - 1]); }
  }

  lemma {:induction false} SamePattern(x: int, y: int)
    requires 0 <= x < 0x1_0000_0000 && 0 <= y < 0x1_0000_0000
    ensures AsInt32(x) == AsInt32(y) <==> x == y
  {
  }

  /** Up to eight hexadecimal digits of either case are read as the number they denote if and only if no digit is
      lower case. */
  lemma {:induction false} HexReadRightIff(digits: string)
    requires AllHexAnyCase(digits) && |digits| <= 8
    ensures Str2NumValue("0x" + digits) == AsInt32(AnyCaseValue(digits)) <==> AllHexDigits(digits)
  {
    var s := "0x" + digits;
    assert s[2..] == digits;
    assert Str2NumValue(s) == AsInt32(HexFold(digits));
    AnyCaseBound(digits);
    Pow16Bound(|digits|);
    hide HexFold, AnyCaseValue, HexValue, Pow16, AsInt32;
    SamePattern(HexFold(digits), AnyCaseValue(digits));
    WrongNibble(digits);
    if AllHexDigits(digits) {
      SameAsUpper(digits);
      HexFoldIsValue(digits);
    } else if HexFold(digits) == AnyCaseValue(digits) {
      SmallModulo(AnyCaseValue(digits), Pow16(|digits|));
    }
  }

  lemma {:induction false} IntTextOf(n: int)
    ensures IntText(n) == if n < 0 then "-" + DecText(-n) else DecText(n)
  {
  }

  lemma {:induction false} SmallInt(n: int)
    requires -0x8000_0000 <= n < 0x8000_0000
    ensures AsInt32(n) == n
  {
  }

  /** Any int of magnitude below 2^31 survives its decimal numeral. */
  lemma {:induction false} DecRoundTrip(n: int)
    requires -0x8000_0000 < n < 0x8000_0000
    ensures Str2NumValue(IntText(n)) == n && AtoiValue(IntText(n)) == n
  {
    var m: nat := if n < 0 then -n else n;
    DecTextValue(m);
    var s, digits := IntText(n), DecText(m);
    hide DecText, DecValue, HexStr2NumValue, IntText, AsInt32;
    assert s == if n < 0 then "-" + digits else digits by { IntTextOf(n); }
    assert IsDigit(digits[0]) && (|digits| >= 2 ==> IsDigit(digits[1]));
    hide AllDigits;
    if n < 0 { assert s[1..] == digits; }
    SmallInt(n);
  }
}
