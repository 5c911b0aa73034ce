/** Machine words: 32-bit wrap-around, two's complement, and little-endian bytes. */
module Words {

  type Byte = b: int | 0 <= b < 0x100
  type Word = w: int | 0 <= w < 0x1_0000_0000

  /** The 32-bit pattern of an integer: x modulo 2^32. */
  function Wrap(x: int): (w: Word)
    decreases if x < 0 then 0x1_0000_0000 - x else x
  {
    if x < 0 then Wrap(x + 0x1_0000_0000)
    else if x < 0x1_0000_0000 then x
    else Wrap(x - 0x1_0000_0000)
  }

  /** A 32-bit pattern read as a signed integer. */
  function Signed(w: Word): int {
    if w < 0x8000_0000 then w else w - 0x1_0000_0000
  }

  /** What a 32-bit `int` holds after a computation with exact result `x`. */
  function Int32(x: int): int {
    Signed(Wrap(x))
  }

  predicate IsInt32(x: int) {
    -0x8000_0000 <= x < 0x8000_0000
  }

  /** Whether an immediate or displacement fits a sign-extended byte. */
  predicate IsInt8(x: int) {
    -128 <= x <= 127
  }

  function LowByte(x: int): Byte {
    x % 0x100
  }

  function SignExtend(b: Byte): int {
    if b < 0x80 then b else b - 0x100
  }

  function FromLe32(b0: Byte, b1: Byte, b2: Byte, b3: Byte): Word {
    b0 + 0x100 * (b1 + 0x100 * (b2 + 0x100 * b3))
  }

  /** The `n` low bytes of `w`, least significant first. */
  function LittleEndian(w: nat, n: nat): (s: seq<Byte>)
    ensures |s| == n
  {
    if n == 0 then [] else [w % 0x100] + LittleEndian(w / 0x100, n - 1)
  }

  /** The four bytes of a 32-bit value, least significant first. */
  function Le32(x: int): (s: seq<Byte>)
    ensures |s| == 4
  {
    LittleEndian(Wrap(x), 4)
  }

  lemma LittleEndianValue(w: nat, n: nat)
    ensures n > 0 ==> LittleEndian(w, n)[0] == w % 0x100 && LittleEndian(w, n)[1..] == LittleEndian(w / 0x100, n - 1)
  {
  }

  lemma Le32Value(x: int)
    ensures var s := Le32(x); FromLe32(s[0], s[1], s[2], s[3]) == Wrap(x)
  {
    hide LittleEndian, Wrap;
    var w := Wrap(x);
    var w1, w2, w3 := w / 0x100, w / 0x100 / 0x100, w / 0x100 / 0x100 / 0x100;
    LittleEndianValue(w, 4);
    LittleEndianValue(w1, 3);
    LittleEndianValue(w2, 2);
    LittleEndianValue(w3, 1);
    FourDigits(w, w1, w2, w3);
  }

  lemma FourDigits(w: Word, w1: nat, w2: nat, w3: nat)
    requires w1 == w / 0x100 && w2 == w1 / 0x100 && w3 == w2 / 0x100
    ensures w == w % 0x100 + 0x100 * (w1 % 0x100 + 0x100 * (w2 % 0x100 + 0x100 * (w3 % 0x100)))
  {
    assert w == w % 0x100 + 0x100 * w1;
    assert w1 == w1 % 0x100 + 0x100 * w2;
    assert w2 == w2 % 0x100 + 0x100 * w3;
  }

  lemma SignExtendRoundTrip(x: int)
    ensures SignExtend(LowByte(x)) == x <==> IsInt8(x)
  {
  }

  lemma Int32Idempotent(x: int)
    ensures Int32(x) == x <==> IsInt32(x)
    ensures Wrap(Int32(x)) == Wrap(x)
  {
  }

  lemma WrapWord(w: Word)
    ensures Wrap(w) == w
  {
  }

  lemma {:induction false} WrapIsModulo(x: int)
    ensures Wrap(x) == x % 0x1_0000_0000
    decreases if x < 0 then 0x1_0000_0000 - x else x
  {
    if x < 0 { WrapIsModulo(x + 0x1_0000_0000); } else if x >= 0x1_0000_0000 { WrapIsModulo(x - 0x1_0000_0000); }
  }

  lemma WrapPeriod(x: int, k: int)
    ensures Wrap(x + k * 0x1_0000_0000) == Wrap(x)
  {
    WrapIsModulo(x);
    WrapIsModulo(x + k * 0x1_0000_0000);
  }

  lemma Int32Twice(x: int)
    ensures Int32(Int32(x)) == Int32(x)
  {
    Int32OfSigned(Wrap(x));
  }

  lemma Int32Negate(x: int)
    ensures Int32(-Int32(x)) == Int32(-x)
  {
    Int32Step(x, -1, 0);
  }

  lemma Int32OfSigned(w: Word)
    ensures Int32(Signed(w)) == Signed(w)
    ensures Int32(w) == Signed(w)
  {
    WrapWord(w);
    assert Wrap(Signed(w)) == w;
  }

  lemma WrapAdd(x: int, y: int)
    ensures Wrap(Wrap(x) + y) == Wrap(x + y)
  {
    WrapIsModulo(x);
    WrapIsModulo(x + y);
    WrapIsModulo(Wrap(x) + y);
  }

  /** Wrapping before or after a decimal or hexadecimal digit step makes no difference. */
  lemma Int32Step(x: int, base: int, d: int)
    requires base == 10 || base == 16 || base == -1
    ensures Int32(Int32(x) * base + d) == Int32(x * base + d)
  {
    var k := x / 0x1_0000_0000;
    var k' := if Wrap(x) < 0x8000_0000 then k else k + 1;
    WrapIsModulo(x);
    assert Int32(x) == x - k' * 0x1_0000_0000;
    assert Int32(x) * base + d == (x * base + d) + (-k' * base) * 0x1_0000_0000;
    WrapPeriod(x * base + d, -k' * base);
  }
}
