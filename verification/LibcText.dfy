/** Numbers as text: `itoa` and `itoaHex` of the C library, and the assembler's reader of immediates. */
module LibcText {
  import opened Words

  predicate IsDigit(c: char) { '0' <= c <= '9' }
  predicate IsAlpha(c: char) { 'a' <= c <= 'z' || 'A' <= c <= 'Z' }

  function DigitChar(d: int): char
    requires 0 <= d < 16
  {
    if d < 10 then '0' + d as char else 'A' + (d - 10) as char
  }

  /** The canonical numeral of `n`, most significant digit first. */
  function Numeral(n: nat, base: nat): string
    requires base == 10 || base == 16
  {
    if n < base then [DigitChar(n)] else Numeral(n / base, base) + [DigitChar(n % base)]
  }

  /** What `itoa` writes for a 32-bit argument. */
  function ItoaText(number: Word): string {
    if Signed(number) < 0 then "-" + Numeral(-Signed(number), 10) else Numeral(number, 10)
  }

  function HexText(number: Word): string {
    Numeral(number, 16)
  }

  function ToLower(c: char): char {
    if 'A' <= c <= 'Z' then c + 32 as char else c
  }

  /** The value of a digit, or -1 where the digit loop stops. */
  function DigitValue(c: char, base: nat): int {
    var lower := ToLower(c);
    if '0' <= lower <= '9' then lower as int - '0' as int
    else if base == 16 && 'a' <= lower <= 'f' then lower as int - 'a' as int + 10
    else -1
  }

  function ParseDigits(s: string, base: nat, value: int): int {
    if s == [] || DigitValue(s[0], base) == -1 then value
    else ParseDigits(s[1..], base, Int32(value * base + DigitValue(s[0], base)))
  }

  predicate HasHexPrefix(s: string) {
    |s| >= 2 && s[0] == '0' && (s[1] == 'x' || s[1] == 'X')
  }

  function ParseUnsigned(s: string): int {
    if HasHexPrefix(s) then ParseDigits(s[2..], 16, 0) else ParseDigits(s, 10, 0)
  }

  /** The value the assembler reads from an operand: optional '-', then decimal or 0x digits. */
  function ParseImm(s: string): int {
    if s != [] && s[0] == '-' then Int32(-ParseUnsigned(s[1..])) else Int32(ParseUnsigned(s))
  }

  /** Texts that differ in letter case only are read alike, prefix and digits. */
  predicate SameLetters(s: string, t: string) {
    |s| == |t| && forall k :: 0 <= k < |s| ==> ToLower(s[k]) == ToLower(t[k])
  }

  lemma {:induction false} DigitsAnyCase(s: string, t: string, base: nat, value: int)
    requires SameLetters(s, t)
    ensures ParseDigits(s, base, value) == ParseDigits(t, base, value)
    decreases |s|
  {
    if s != [] {
      assert ToLower(s[0]) == ToLower(t[0]);
      assert forall k :: 0 <= k < |s[1..]| ==> s[1..][k] == s[k + 1] && t[1..][k] == t[k + 1];
      if DigitValue(s[0], base) != -1 {
        DigitsAnyCase(s[1..], t[1..], base, Int32(value * base + DigitValue(s[0], base)));
      }
    }
  }

  lemma UnsignedAnyCase(s: string, t: string)
    requires SameLetters(s, t)
    ensures ParseUnsigned(s) == ParseUnsigned(t)
  {
    assert |s| >= 2 ==> ToLower(s[0]) == ToLower(t[0]) && ToLower(s[1]) == ToLower(t[1]);
    DigitsAnyCase(s, t, 10, 0);
    if HasHexPrefix(s) {
      assert forall k :: 0 <= k < |s[2..]| ==> s[2..][k] == s[k + 2] && t[2..][k] == t[k + 2];
      DigitsAnyCase(s[2..], t[2..], 16, 0);
    }
  }

  lemma ImmediateAnyCase(s: string, t: string)
    requires SameLetters(s, t)
    ensures ParseImm(s) == ParseImm(t)
  {
    hide ParseUnsigned;
    UnsignedAnyCase(s, t);
    if s != [] {
      assert ToLower(s[0]) == ToLower(t[0]);
      assert forall k :: 0 <= k < |s[1..]| ==> s[1..][k] == s[k + 1] && t[1..][k] == t[k + 1];
      UnsignedAnyCase(s[1..], t[1..]);
    }
  }

  // ---------- digits read back ----------

  predicate StopsDigits(s: string, base: nat) {
    s == [] || DigitValue(s[0], base) == -1
  }

  lemma DigitRoundTrip(d: int, base: nat)
    requires base == 10 || base == 16
    requires 0 <= d < base
    ensures DigitValue(DigitChar(d), base) == d
  {
  }

  lemma LastDigit(n: nat, base: nat)
    requires base == 10 || base == 16
    ensures Int32(Int32(n / base) * base + n % base) == Int32(n)
  {
    Int32Step(n / base, base, n % base);
    if base == 10 { assert n == n / 10 * 10 + n % 10; } else { assert n == n / 16 * 16 + n % 16; }
  }

  lemma ParseOneDigit(d: int, base: nat, value: int, rest: string)
    requires base == 10 || base == 16
    requires 0 <= d < base
    ensures ParseDigits([DigitChar(d)] + rest, base, value) == ParseDigits(rest, base, Int32(value * base + d))
  {
    DigitRoundTrip(d, base);
    assert ([DigitChar(d)] + rest)[1..] == rest;
  }

  lemma {:induction false} ParseNumeral(n: nat, base: nat, rest: string)
    requires base == 10 || base == 16
    ensures ParseDigits(Numeral(n, base) + rest, base, 0) == ParseDigits(rest, base, Int32(n))
    decreases n
  {
    if n < base {
      ParseOneDigit(n, base, 0, rest);
    } else {
      var tail := [DigitChar(n % base)] + rest;
      assert Numeral(n, base) + rest == Numeral(n / base, base) + tail;
      ParseNumeral(n / base, base, tail);
      ParseOneDigit(n % base, base, Int32(n / base), rest);
      LastDigit(n, base);
    }
  }

  lemma {:induction false} NumeralShape(n: nat, base: nat)
    requires base == 10 || base == 16
    ensures |Numeral(n, base)| > 0
    ensures forall i :: 0 <= i < |Numeral(n, base)| ==> DigitValue(Numeral(n, base)[i], base) >= 0
    ensures base == 10 ==> forall i :: 0 <= i < |Numeral(n, base)| ==> '0' <= Numeral(n, base)[i] <= '9'
    decreases n
  {
    if n >= base { NumeralShape(n / base, base); }
  }

  /** A value of at most 10 (8) digits fits `itoa`'s 11-byte (`itoaHex`'s 9-byte) buffer. */
  lemma {:induction false} NumeralLength(n: nat, base: nat, digits: nat)
    requires base == 10 || base == 16
    requires digits >= 1
    requires n < Power(base, digits)
    ensures |Numeral(n, base)| <= digits
    decreases n
  {
    if n >= base {
      assert Power(base, digits) == base * Power(base, digits - 1);
      assert Power(base, 0) == 1;
      assert n / base < Power(base, digits - 1);
      NumeralLength(n / base, base, digits - 1);
    }
  }

  function Power(base: nat, e: nat): nat {
    if e == 0 then 1 else base * Power(base, e - 1)
  }

  /** Text at which the reader of a decimal numeral stops. */
  predicate EndsNumeral(s: string) {
    s == [] || (DigitValue(s[0], 10) == -1 && s[0] != 'x' && s[0] != 'X')
  }

  lemma NumeralNotHex(n: nat, rest: string)
    requires EndsNumeral(rest)
    ensures !HasHexPrefix(Numeral(n, 10) + rest)
  {
    NumeralShape(n, 10);
    var digits := Numeral(n, 10);
    if |digits| > 1 {
      assert (digits + rest)[1] == digits[1];
    }
  }

  lemma NumeralReadBack(n: nat, rest: string)
    requires EndsNumeral(rest)
    ensures ParseUnsigned(Numeral(n, 10) + rest) == Int32(n)
    ensures (Numeral(n, 10) + rest)[0] != '-'
  {
    NumeralShape(n, 10);
    NumeralNotHex(n, rest);
    ParseNumeral(n, 10, rest);
  }

  lemma ParseMinus(digits: string)
    ensures ParseImm("-" + digits) == Int32(-ParseUnsigned(digits))
  {
    assert ("-" + digits)[1..] == digits;
  }

  lemma ParseNonNegative(n: nat, rest: string)
    requires EndsNumeral(rest)
    ensures ParseImm(Numeral(n, 10) + rest) == Int32(n)
  {
    NumeralReadBack(n, rest);
    Int32Twice(n);
  }

  lemma ParseNegative(n: int, rest: string)
    requires n >= 0 && EndsNumeral(rest)
    ensures ParseImm("-" + Numeral(n, 10) + rest) == Int32(-n)
  {
    NumeralReadBack(n, rest);
    ParseMinus(Numeral(n, 10) + rest);
    assert "-" + Numeral(n, 10) + rest == "-" + (Numeral(n, 10) + rest);
    Int32Negate(n);
  }

  /** Reading back what `itoa` wrote gives the signed value, whatever non-digit follows. */
  lemma ItoaReadBack(number: Word, rest: string)
    requires EndsNumeral(rest)
    ensures ParseImm(ItoaText(number) + rest) == Signed(number)
  {
    Int32OfSigned(number);
    if Signed(number) < 0 {
      ParseNegative(-Signed(number), rest);
    } else {
      ParseNonNegative(number, rest);
    }
  }

  lemma HexDigitsReadBack(number: Word, rest: string)
    requires StopsDigits(rest, 16)
    ensures ParseUnsigned("0x" + HexText(number) + rest) == Signed(number)
  {
    var s := "0x" + HexText(number) + rest;
    assert s[0] == '0' && s[1] == 'x';
    assert s[2..] == HexText(number) + rest;
    ParseNumeral(number, 16, rest);
    Int32OfSigned(number);
  }

  /** Reading back "0x" or "-0x" and what `itoaHex` wrote gives the same 32-bit pattern, or its negation. */
  lemma HexReadBack(number: Word, rest: string)
    requires StopsDigits(rest, 16)
    ensures ParseImm("0x" + HexText(number) + rest) == Signed(number)
    ensures ParseImm("-0x" + HexText(number) + rest) == Int32(-Signed(number))
  {
    HexDigitsReadBack(number, rest);
    Int32OfSigned(number);
    var s := "0x" + HexText(number) + rest;
    assert s[0] == '0';
    var t := "-0x" + HexText(number) + rest;
    assert t[0] == '-' && t[1..] == s;
  }

  lemma {:induction false} NumeralInjective(m: nat, n: nat)
    requires Numeral(m, 10) == Numeral(n, 10)
    ensures m == n
  {
    DigitRoundTrip(m % 10, 10);
    DigitRoundTrip(n % 10, 10);
    NumeralShape(m / 10, 10);
    NumeralShape(n / 10, 10);
    var s, t := Numeral(m, 10), Numeral(n, 10);
    assert s[|s| - 1] == DigitChar(m % 10) && t[|t| - 1] == DigitChar(n % 10);
    if m >= 10 && n >= 10 {
      assert s[..|s| - 1] == Numeral(m / 10, 10) && t[..|t| - 1] == Numeral(n / 10, 10);
      NumeralInjective(m / 10, n / 10);
    }
  }

  // ---------- the library's loops ----------

  function Reversed(s: string): string {
    if s == [] then [] else Reversed(s[1..]) + [s[0]]
  }

  lemma {:induction false} ReversedAppend(s: string, c: char)
    ensures Reversed(s + [c]) == [c] + Reversed(s)
  {
    if s != [] {
      assert (s + [c])[1..] == s[1..] + [c];
      ReversedAppend(s[1..], c);
    }
  }

  lemma {:induction false} ReversedAt(s: string, i: nat)
    requires i < |s|
    ensures |Reversed(s)| == |s| && Reversed(s)[i] == s[|s| - 1 - i]
  {
    if |s| > 1 { ReversedAt(s[1..], if i < |s| - 1 then i else 0); }
  }

  /** The digit loop shared by `itoa` and `itoaHex`: least significant digit first. */
  method ExtractDigits(number: nat, base: nat) returns (buffer: string)
    requires base == 10 || base == 16
    requires number > 0
    ensures Reversed(buffer) == Numeral(number, base)
  {
    hide DigitChar;
    buffer := [DigitChar(number % base)];
    var left := number / base;
    assert Reversed(buffer) == [DigitChar(number % base)] by { assert buffer[1..] == []; }
    assert number < base ==> left == 0 && number % base == number;
    while left > 0
      invariant left >= 0
      invariant left == 0 ==> Reversed(buffer) == Numeral(number, base)
      invariant left > 0 ==> Numeral(left, base) + Reversed(buffer) == Numeral(number, base)
      decreases left
    {
      ghost var before := buffer;
      ReversedAppend(buffer, DigitChar(left % base));
      buffer := buffer + [DigitChar(left % base)];
      if left < base {
        assert Numeral(left, base) == [DigitChar(left)];
      } else {
        assert Numeral(left, base) + Reversed(before)
            == Numeral(left / base, base) + ([DigitChar(left % base)] + Reversed(before));
      }
      left := left / base;
    }
  }

  method Itoa(number: Word) returns (destination: string)
    ensures destination == ItoaText(number)
  {
    if number == 0 {
      return "0";
    }
    var negative := number >= 0x8000_0000;
    var magnitude := if negative then 0x1_0000_0000 - number else number;
    var buffer := ExtractDigits(magnitude, 10);
    if negative {
      ReversedAppend(buffer, '-');
      buffer := buffer + ['-'];
    }
    destination := [];
    var i := |buffer|;
    while i > 0
      invariant 0 <= i <= |buffer|
      invariant destination == Reversed(buffer[i..])
    {
      i := i - 1;
      assert buffer[i..][1..] == buffer[i + 1..];
      destination := destination + [buffer[i]];
    }
    assert buffer[0..] == buffer;
  }

  /** `reverseString`: swaps from both ends of the buffer. */
  method ReverseInPlace(a: array<char>)
    modifies a
    ensures a[..] == Reversed(old(a[..]))
  {
    var low, high := 0, a.Length - 1;
    while low < high
      invariant 0 <= low <= high + 1 <= a.Length && low + high == a.Length - 1
      invariant forall k :: 0 <= k < low ==> a[k] == old(a[a.Length - 1 - k]) && a[a.Length - 1 - k] == old(a[k])
      invariant forall k :: low <= k <= high ==> a[k] == old(a[k])
    {
      a[low], a[high] := a[high], a[low];
      low, high := low + 1, high - 1;
    }
    ghost var was := old(a[..]);
    forall k | 0 <= k < a.Length
      ensures |Reversed(was)| == a.Length && a[..][k] == Reversed(was)[k]
    {
      ReversedAt(was, k);
    }
    assert a.Length == 0 ==> was == [];
  }

  method ItoaHex(number: Word) returns (destination: string)
    ensures destination == HexText(number)
  {
    var digits := "0";
    if number != 0 {
      digits := ExtractDigits(number, 16);
    }
    var a := new char[|digits|](i requires 0 <= i < |digits| => digits[i]);
    assert a[..] == digits;
    ReverseInPlace(a);
    destination := a[..];
  }

  method ParseImmediateValue(s: string) returns (result: int)
    ensures result == ParseImm(s)
  {
    var negative := s != [] && s[0] == '-';
    var i := if negative then 1 else 0;
    ghost var t := s[i..];
    assert ParseImm(s) == Int32(if negative then -ParseUnsigned(t) else ParseUnsigned(t));
    var base := 10;
    if i + 1 < |s| && s[i] == '0' && (s[i + 1] == 'x' || s[i + 1] == 'X') {
      base, i := 16, i + 2;
    }
    assert s[i..] == if base == 16 then t[2..] else t;
    var value := ParseDigitsLoop(s, i, base);
    result := Int32(if negative then -value else value);
  }

  method ParseDigitsLoop(s: string, start: nat, base: nat) returns (value: int)
    requires start <= |s| && (base == 10 || base == 16)
    ensures value == ParseDigits(s[start..], base, 0)
  {
    var i := start;
    value := 0;
    while i < |s| && DigitValue(s[i], base) != -1
      invariant start <= i <= |s|
      invariant ParseDigits(s[i..], base, value) == ParseDigits(s[start..], base, 0)
      decreases |s| - i
    {
      assert s[i..][1..] == s[i + 1..];
      value := Int32(value * base + DigitValue(s[i], base));
      i := i + 1;
    }
  }
}
