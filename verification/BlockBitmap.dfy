/** The usage bitmaps: first-fit allocation, freeing, and the two scanners that look for byte patterns. */
module BlockBitmap {

  /** The byte with only bit `k` set. */
  function Mask(k: int): bv8 {
    if k == 0 then 1 else if k == 1 then 2 else if k == 2 then 4 else if k == 3 then 8
    else if k == 4 then 16 else if k == 5 then 32 else if k == 6 then 64 else 128
  }

  predicate BitSet(b: bv8, k: int) {
    b & Mask(k) != 0
  }

  /** Bit `i` of a bitmap, counted from the lowest bit of the first byte. */
  predicate Used(map_: seq<bv8>, i: nat) {
    i / 8 < |map_| && BitSet(map_[i / 8], i % 8)
  }

  lemma OtherBit(b: bv8, j: int, k: int)
    requires 0 <= j < 8 && 0 <= k < 8
    ensures BitSet(b | Mask(k), j) == (BitSet(b, j) || j == k)
    ensures !BitSet(b, k) ==> (b | Mask(k)) - Mask(k) == b
  {
    hide Mask;
    SameMask(b, Mask(k), k);
    if j != k { UntouchedBit(b, j, k); }
  }

  lemma UntouchedBit(b: bv8, j: int, k: int)
    requires 0 <= j < 8 && 0 <= k < 8 && j != k
    ensures BitSet(b | Mask(k), j) == BitSet(b, j)
  {
    hide Mask;
    MasksApart(j, k);
    SingleBits(b, Mask(j), Mask(k));
  }

  lemma SameMask(b: bv8, m: bv8, k: int)
    requires 0 <= k < 8 && m == Mask(k)
    ensures (b | m) & m != 0 && (b & m == 0 ==> (b | m) - m == b)
  {
    if k == 0 { assert m == 1; } else if k == 1 { assert m == 2; }
    else if k == 2 { assert m == 4; } else if k == 3 { assert m == 8; }
    else if k == 4 { assert m == 16; } else if k == 5 { assert m == 32; }
    else if k == 6 { assert m == 64; } else { assert m == 128; }
  }

  lemma MasksApart(j: int, k: int)
    requires 0 <= j < 8 && 0 <= k < 8 && j != k
    ensures Mask(j) & Mask(k) == 0
  {
  }

  lemma SingleBits(b: bv8, m: bv8, n: bv8)
    ensures m & n == 0 ==> (b | n) & m == b & m
  {
  }

  // ---------- allocation ----------

  /** All of the first `limit` bytes' bits are used. */
  predicate AllUsed(map_: seq<bv8>, limit: nat) {
    forall i :: 0 <= i < 8 * limit ==> Used(map_, i)
  }

  /** Bit `n - 1` has been set, and it was the first clear one. */
  ghost predicate FirstFit(before: seq<bv8>, after: seq<bv8>, limit: nat, n: nat) {
    && 1 <= n <= 8 * limit && |after| == |before|
    && (forall i :: 0 <= i < n - 1 ==> Used(before, i)) && !Used(before, n - 1)
    && Used(after, n - 1) && (forall i: nat :: i != n - 1 ==> Used(after, i) == Used(before, i))
  }

  /** `allocateFreeBlock` and `allocateInode` on the bitmap in memory: the first clear bit, or 0 when there is none. */
  method Allocate(bitmap: array<bv8>, limit: nat) returns (n: nat)
    requires limit <= bitmap.Length
    modifies bitmap
    ensures n == 0 <==> AllUsed(old(bitmap[..]), limit)
    ensures n == 0 ==> bitmap[..] == old(bitmap[..])
    ensures n != 0 ==> FirstFit(old(bitmap[..]), bitmap[..], limit, n)
  {
    hide BitSet;
    ghost var before := bitmap[..];
    var byteIndex := 0;
    while byteIndex < limit
      invariant 0 <= byteIndex <= limit && bitmap[..] == before
      invariant forall i :: 0 <= i < 8 * byteIndex ==> Used(before, i)
    {
      if bitmap[byteIndex] != 0xFF {
        var bit := FirstClear(bitmap[byteIndex]);
        n := byteIndex * 8 + bit + 1;
        assert (n - 1) / 8 == byteIndex && (n - 1) % 8 == bit;
        forall i | 8 * byteIndex <= i < n - 1
          ensures Used(before, i)
        {
          assert i / 8 == byteIndex && i % 8 < bit;
        }
        bitmap[byteIndex] := bitmap[byteIndex] | Mask(bit);
        SetOne(before, byteIndex, bit);
        assert !AllUsed(before, limit) by { assert !Used(before, n - 1); }
        return;
      }
      FullByte(before, byteIndex);
      byteIndex := byteIndex + 1;
    }
    n := 0;
  }

  method FirstClear(b: bv8) returns (bit: nat)
    requires b != 0xFF
    ensures bit < 8 && !BitSet(b, bit) && forall k :: 0 <= k < bit ==> BitSet(b, k)
  {
    bit := 0;
    SomeClear(b);
    while BitSet(b, bit)
      invariant bit < 8 && forall k :: 0 <= k < bit ==> BitSet(b, k)
      invariant exists k :: bit <= k < 8 && !BitSet(b, k)
      decreases 8 - bit
    {
      bit := bit + 1;
    }
  }

  lemma SomeClear(b: bv8)
    requires b != 0xFF
    ensures exists k :: 0 <= k < 8 && !BitSet(b, k)
  {
    if && BitSet(b, 0) && BitSet(b, 1) && BitSet(b, 2) && BitSet(b, 3)
       && BitSet(b, 4) && BitSet(b, 5) && BitSet(b, 6) && BitSet(b, 7) {
      AllOnes(b);
    }
  }

  lemma AllOnes(b: bv8)
    requires b & 1 != 0 && b & 2 != 0 && b & 4 != 0 && b & 8 != 0
    requires b & 16 != 0 && b & 32 != 0 && b & 64 != 0 && b & 128 != 0
    ensures b == 0xFF
  {
  }

  lemma FullByte(map_: seq<bv8>, byteIndex: nat)
    requires byteIndex < |map_| && map_[byteIndex] == 0xFF
    ensures forall i :: 8 * byteIndex <= i < 8 * byteIndex + 8 ==> Used(map_, i)
  {
    forall i | 8 * byteIndex <= i < 8 * byteIndex + 8
      ensures Used(map_, i)
    {
      assert i / 8 == byteIndex;
    }
  }

  lemma SetOne(map_: seq<bv8>, byteIndex: nat, bit: nat)
    requires byteIndex < |map_| && bit < 8
    ensures var after := map_[byteIndex := map_[byteIndex] | Mask(bit)];
            && Used(after, byteIndex * 8 + bit)
            && forall i: nat :: i != byteIndex * 8 + bit ==> Used(after, i) == Used(map_, i)
  {
    hide Mask, BitSet;
    var n := byteIndex * 8 + bit;
    assert n / 8 == byteIndex && n % 8 == bit;
    OtherBit(map_[byteIndex], bit, bit);
    forall i: nat | i != n
      ensures Used(map_[byteIndex := map_[byteIndex] | Mask(bit)], i) == Used(map_, i)
    {
      if i / 8 == byteIndex {
        assert i == 8 * byteIndex + i % 8;
        OtherBit(map_[byteIndex], i % 8, bit);
      }
    }
  }

  // ---------- freeing ----------

  /** `freeBlock`: block n's bit is taken to be bit (n - 1) mod 8 of byte n / 8, by subtraction. */
  function Freed(map_: seq<bv8>, n: nat): seq<bv8>
    requires n / 8 < |map_|
  {
    map_[n / 8 := map_[n / 8] - Mask((n + 7) % 8)]
  }

  method Free(bitmap: array<bv8>, n: nat)
    requires n / 8 < bitmap.Length
    modifies bitmap
    ensures bitmap[..] == Freed(old(bitmap[..]), n)
  {
    hide Amount, Mask;
    AmountIsMask(n);
    bitmap[n / 8] := bitmap[n / 8] - Amount(n % 8);
  }

  /** What is subtracted for each remainder of the block number. */
  function Amount(bit: int): bv8 {
    if bit == 1 then 1 else if bit == 2 then 2 else if bit == 3 then 4 else if bit == 4 then 8
    else if bit == 5 then 16 else if bit == 6 then 32 else if bit == 7 then 64 else 128
  }

  lemma AmountIsMask(n: nat)
    ensures Amount(n % 8) == Mask((n + 7) % 8)
  {
    MaskOf(n);
  }

  lemma MaskOf(n: nat)
    ensures n % 8 == 0 ==> (n + 7) % 8 == 7
    ensures n % 8 != 0 ==> (n + 7) % 8 == n % 8 - 1
    ensures n % 8 != 0 ==> (n - 1) / 8 == n / 8 && (n - 1) % 8 == n % 8 - 1
    ensures n % 8 == 0 ==> (n - 1) / 8 == n / 8 - 1
  {
    var q, r := n / 8, n % 8;
    assert n == 8 * q + r && n + 7 == 8 * q + (r + 7) && n - 1 == 8 * q + (r - 1);
    if r == 0 { assert n - 1 == 8 * (q - 1) + 7; } else { assert n + 7 == 8 * (q + 1) + (r - 1); }
  }

  /** Freeing what was just allocated restores the bitmap exactly when the number is not a multiple of 8. */
  lemma FreeUndoesIff(map_: seq<bv8>, limit: nat, n: nat)
    requires limit < |map_| && 1 <= n <= 8 * limit && !Used(map_, n - 1)
    ensures var after := map_[(n - 1) / 8 := map_[(n - 1) / 8] | Mask((n - 1) % 8)];
            Freed(after, n) == map_ <==> n % 8 != 0
  {
    hide *;
    if n % 8 != 0 {
      FreeUndoes(map_, n);
    } else {
      FreeMisses(map_, n);
    }
  }

  lemma FreeUndoes(map_: seq<bv8>, n: nat)
    requires n / 8 < |map_| && n % 8 != 0 && !Used(map_, n - 1)
    ensures (n - 1) / 8 == n / 8
    ensures Freed(map_[n / 8 := map_[n / 8] | Mask((n - 1) % 8)], n) == map_
  {
    hide *;
    MaskOf(n);
    var k := n / 8;
    var b := map_[k];
    ClearedBit(map_, n - 1);
    ClearThenSet(b, (n - 1) % 8);
    var c := b | Mask((n - 1) % 8);
    FreedAt(map_[k := c], n);
    PutBack(map_, k, c, b);
  }

  /** A block number divisible by 8 clears a bit of the byte after its own. */
  lemma FreeMisses(map_: seq<bv8>, n: nat)
    requires 0 < n && n / 8 < |map_| && n % 8 == 0 && !Used(map_, n - 1)
    ensures Freed(map_[(n - 1) / 8 := map_[(n - 1) / 8] | Mask((n - 1) % 8)], n) != map_
  {
    hide *;
    MaskOf(n);
    var k := (n - 1) / 8;
    var b := map_[k];
    ClearedBit(map_, n - 1);
    ClearThenSet(b, (n - 1) % 8);
    var c := b | Mask((n - 1) % 8);
    FreedAt(map_[k := c], n);
    assert Freed(map_[k := c], n)[k] == c;
  }

  lemma ClearedBit(map_: seq<bv8>, i: nat)
    requires i / 8 < |map_| && !Used(map_, i)
    ensures !BitSet(map_[i / 8], i % 8)
  {
    hide BitSet;
  }

  lemma FreedAt(map_: seq<bv8>, n: nat)
    requires n / 8 < |map_|
    ensures Freed(map_, n) == map_[n / 8 := map_[n / 8] - Mask((n + 7) % 8)]
  {
  }

  lemma PutBack(map_: seq<bv8>, k: nat, c: bv8, b: bv8)
    requires k < |map_| && map_[k] == b
    ensures map_[k := c][k := b] == map_
  {
  }

  lemma ClearThenSet(b: bv8, k: int)
    requires 0 <= k < 8 && !BitSet(b, k)
    ensures (b | Mask(k)) - Mask(k) == b && (b | Mask(k)) != b
  {
    hide Mask;
    SameMask(b, Mask(k), k);
  }

  // ---------- runs of allocations ----------

  /** One allocation on the bits themselves. */
  function FirstClearBit(bits: seq<bool>): (i: nat)
    ensures i <= |bits|
    ensures i < |bits| ==> !bits[i]
    ensures forall k :: 0 <= k < i ==> bits[k]
  {
    if bits == [] || !bits[0] then 0 else 1 + FirstClearBit(bits[1..])
  }

  function ClearCount(bits: seq<bool>): nat {
    if bits == [] then 0 else (if bits[0] then 0 else 1) + ClearCount(bits[1..])
  }

  /** The bits and the numbers returned after `k` allocations. */
  function Allocations(bits: seq<bool>, k: nat): (r: (seq<bool>, seq<nat>))
    ensures |r.0| == |bits| && |r.1| <= k
    decreases k
  {
    if k == 0 then (bits, [])
    else
      var i := FirstClearBit(bits);
      if i == |bits| then (bits, [])
      else
        var more := Allocations(bits[i := true], k - 1);
        (more.0, [i + 1] + more.1)
  }

  lemma {:induction false} FreeAfterSet(bits: seq<bool>, i: nat)
    requires i < |bits| && !bits[i]
    ensures ClearCount(bits[i := true]) == ClearCount(bits) - 1
  {
    if i > 0 {
      assert bits[i := true][1..] == bits[1..][i - 1 := true];
      FreeAfterSet(bits[1..], i - 1);
    } else {
      assert bits[0 := true][1..] == bits[1..];
    }
  }

  lemma {:induction false} NoneFreeIff(bits: seq<bool>)
    ensures ClearCount(bits) == 0 <==> FirstClearBit(bits) == |bits|
  {
    if bits != [] { NoneFreeIff(bits[1..]); }
  }

  /** The numbers are strictly increasing, each for a bit that was clear, and exactly their bits have been set. */
  predicate Granted(bits: seq<bool>, after: seq<bool>, numbers: seq<nat>) {
    && |after| == |bits|
    && (forall j :: 0 <= j < |numbers| ==> 1 <= numbers[j] <= |bits| && !bits[numbers[j] - 1])
    && (forall j :: 0 <= j < |numbers| ==> numbers[j] > FirstClearBit(bits))
    && (forall j, l :: 0 <= j < l < |numbers| ==> numbers[j] < numbers[l])
    && (forall i :: 0 <= i < |bits| ==> (after[i] <==> bits[i] || i + 1 in numbers))
  }

  lemma GrantNothing(bits: seq<bool>)
    ensures Granted(bits, bits, [])
  {
    hide FirstClearBit;
  }

  /**
    * Successive allocations return as many numbers as there are clear bits to give, strictly increasing, each
    * for a bit that was clear, and set exactly those bits.
    */
  lemma {:induction false} AllocationsDistinct(bits: seq<bool>, k: nat)
    ensures var (after, numbers) := Allocations(bits, k);
            && |numbers| == (if k <= ClearCount(bits) then k else ClearCount(bits))
            && Granted(bits, after, numbers)
    decreases k
  {
    hide FirstClearBit, ClearCount, Allocations, Granted;
    var i := FirstClearBit(bits);
    NoneFreeIff(bits);
    AllocationsStep(bits, k);
    if k > 0 && i < |bits| {
      var set_ := bits[i := true];
      FreeAfterSet(bits, i);
      AllocationsDistinct(set_, k - 1);
      Later(bits, i);
      Prepend(bits, i, Allocations(set_, k - 1).0, Allocations(set_, k - 1).1);
    } else {
      GrantNothing(bits);
    }
  }

  lemma AllocationsStep(bits: seq<bool>, k: nat)
    ensures var i := FirstClearBit(bits);
            Allocations(bits, k) ==
              if k == 0 || i == |bits| then (bits, [])
              else (Allocations(bits[i := true], k - 1).0, [i + 1] + Allocations(bits[i := true], k - 1).1)
  {
    hide FirstClearBit;
  }

  lemma Later(bits: seq<bool>, i: nat)
    requires i < |bits| && i == FirstClearBit(bits)
    ensures FirstClearBit(bits[i := true]) > i
  {
    var set_ := bits[i := true];
    assert forall k :: 0 <= k <= i ==> set_[k];
  }

  /** One more allocation before a run of them. */
  lemma Prepend(bits: seq<bool>, i: nat, after: seq<bool>, numbers: seq<nat>)
    requires i < |bits| && i == FirstClearBit(bits) && FirstClearBit(bits[i := true]) > i
    requires Granted(bits[i := true], after, numbers)
    ensures Granted(bits, after, [i + 1] + numbers)
  {
    hide FirstClearBit;
    var all := [i + 1] + numbers;
    forall x | 0 <= x < |bits|
      ensures after[x] <==> bits[x] || x + 1 in all
    {
      assert x + 1 in all <==> x == i || x + 1 in numbers;
    }
  }

  /** The first `limit` bytes of a bitmap as bits. */
  function Bits(map_: seq<bv8>, limit: nat): (bits: seq<bool>)
    ensures |bits| == 8 * limit
  {
    seq(8 * limit, i requires 0 <= i < 8 * limit => Used(map_, i))
  }

  /** An allocation in memory is one step of the run on bits. */
  lemma AllocateOnBits(before: seq<bv8>, after: seq<bv8>, limit: nat, n: nat)
    requires if n == 0 then AllUsed(before, limit) else FirstFit(before, after, limit, n)
    ensures n == 0 ==> FirstClearBit(Bits(before, limit)) == |Bits(before, limit)|
    ensures n != 0
            ==> FirstClearBit(Bits(before, limit)) == n - 1 && Bits(after, limit) == Bits(before, limit)[n - 1 := true]
  {
    hide Used;
    if n != 0 {
      assert !Bits(before, limit)[n - 1];
      assert Bits(after, limit)[n - 1];
    }
  }

  // ---------- the pattern-matching scanners ----------

  /** The byte with the lowest `r` bits set. */
  function LowBits(r: int): bv8 {
    if r <= 0 then 0 else if r == 1 then 1 else if r == 2 then 3 else if r == 3 then 7 else if r == 4 then 15
    else if r == 5 then 31 else if r == 6 then 63 else if r == 7 then 127 else 255
  }

  /** How many low bits a byte of that shape has set; -1 for any other byte. */
  function PatternCount(b: bv8): int {
    if b == 0 then 0 else if b == 1 then 1 else if b == 3 then 2 else if b == 7 then 3 else if b == 15 then 4
    else if b == 31 then 5 else if b == 63 then 6 else if b == 127 then 7 else if b == 255 then 8 else -1
  }

  /** A bitmap whose first `used` bits are set, and no others of the first `limit` bytes. */
  predicate IsPrefix(map_: seq<bv8>, limit: nat, used: nat) {
    limit <= |map_| && used <= 8 * limit
    && forall i :: 0 <= i < limit ==> map_[i] == LowBits(used - 8 * i)
  }

  lemma PatternOfLow(r: int)
    ensures PatternCount(LowBits(r)) == if r <= 0 then 0 else if r >= 8 then 8 else r
  {
  }

  lemma LowBit(r: int, k: int)
    requires 0 <= k < 8
    ensures BitSet(LowBits(r), k) <==> k < r
  {
  }

  /** What `readNextAvailableBlock` adds up: full bytes, then the first byte of a shape; other bytes are skipped. */
  function Predicted(bytes: seq<bv8>): nat {
    if bytes == [] then 0
    else
      var count := PatternCount(bytes[0]);
      if count == 8 then 8 + Predicted(bytes[1..]) else if count >= 0 then count else Predicted(bytes[1..])
  }

  /** What `readTotalBlocksUsed` adds up: the bytes of a shape. */
  function PatternTotal(bytes: seq<bv8>): nat {
    if bytes == [] then 0
    else (if PatternCount(bytes[0]) >= 0 then PatternCount(bytes[0]) else 0) + PatternTotal(bytes[1..])
  }

  /** `readNextAvailableBlock` and `readNextAvailableInode`. */
  method NextAvailable(bitmap: array<bv8>, limit: nat) returns (next: nat)
    requires limit <= bitmap.Length
    ensures next == Predicted(bitmap[..limit]) + 1
  {
    hide PatternCount;
    var last, i := 0, 0;
    while i < limit
      invariant 0 <= i <= limit && Predicted(bitmap[..limit]) == last + Predicted(bitmap[i..limit])
    {
      assert bitmap[i..limit][0] == bitmap[i] && bitmap[i..limit][1..] == bitmap[i + 1..limit];
      var count := PatternCount(bitmap[i]);
      if count == 8 {
        last := last + 8;
      } else if count >= 0 {
        last := last + count;
        return last + 1;
      }
      i := i + 1;
    }
    next := last + 1;
  }

  /** `readTotalBlocksUsed`. */
  method TotalUsed(bitmap: array<bv8>, limit: nat) returns (total: nat)
    requires limit <= bitmap.Length
    ensures total == PatternTotal(bitmap[..limit])
  {
    hide PatternCount;
    total := 0;
    var i := 0;
    while i < limit
      invariant 0 <= i <= limit && PatternTotal(bitmap[..limit]) == total + PatternTotal(bitmap[i..limit])
    {
      assert bitmap[i..limit][0] == bitmap[i] && bitmap[i..limit][1..] == bitmap[i + 1..limit];
      var count := PatternCount(bitmap[i]);
      if count > 0 { total := total + count; }
      i := i + 1;
    }
  }

  // ---------- when the scanners are right ----------

  function One(set_: bool): nat { if set_ then 1 else 0 }

  /** The number of set bits of a byte. */
  function ByteCount(b: bv8): nat {
    One(BitSet(b, 0)) + One(BitSet(b, 1)) + One(BitSet(b, 2)) + One(BitSet(b, 3))
    + One(BitSet(b, 4)) + One(BitSet(b, 5)) + One(BitSet(b, 6)) + One(BitSet(b, 7))
  }

  /** The number of set bits. */
  function PopulationCount(bytes: seq<bv8>): nat {
    if bytes == [] then 0 else ByteCount(bytes[0]) + PopulationCount(bytes[1..])
  }

  lemma ShapeCounted(b: bv8)
    ensures PatternCount(b) >= 0 ==> ByteCount(b) == PatternCount(b)
    ensures PatternCount(b) < 0 ==> ByteCount(b) > 0
  {
    if PatternCount(b) < 0 && ByteCount(b) == 0 { NoBits(b); }
  }

  lemma NoBits(b: bv8)
    requires forall k :: 0 <= k < 8 ==> !BitSet(b, k)
    ensures b == 0
  {
    assert !BitSet(b, 0) && !BitSet(b, 1) && !BitSet(b, 2) && !BitSet(b, 3);
    assert !BitSet(b, 4) && !BitSet(b, 5) && !BitSet(b, 6) && !BitSet(b, 7);
  }

  /** The total is the population count exactly when every byte has one of the listed shapes, else it is less. */
  lemma {:induction false} TotalUsedIff(bytes: seq<bv8>)
    ensures PatternTotal(bytes) <= PopulationCount(bytes)
    ensures PatternTotal(bytes) == PopulationCount(bytes)
            <==> forall i :: 0 <= i < |bytes| ==> PatternCount(bytes[i]) >= 0
  {
    hide PatternCount, ByteCount;
    if bytes != [] {
      ShapeCounted(bytes[0]);
      TotalUsedIff(bytes[1..]);
      assert forall i :: 1 <= i < |bytes| ==> bytes[i] == bytes[1..][i - 1];
    }
  }

  /** The first byte that is not full, or the number of bytes. */
  function FirstOpen(bytes: seq<bv8>): (k: nat)
    ensures k <= |bytes| && (k < |bytes| ==> bytes[k] != 0xFF)
    ensures forall i :: 0 <= i < k ==> bytes[i] == 0xFF
  {
    if bytes == [] || bytes[0] != 0xFF then 0 else 1 + FirstOpen(bytes[1..])
  }

  /** The lowest clear bit of a byte, or 8. */
  function LowestClear(b: bv8): (k: nat)
    ensures k <= 8 && (k < 8 ==> !BitSet(b, k)) && forall j :: 0 <= j < k ==> BitSet(b, j)
  {
    if !BitSet(b, 0) then 0 else if !BitSet(b, 1) then 1 else if !BitSet(b, 2) then 2 else if !BitSet(b, 3) then 3
    else if !BitSet(b, 4) then 4 else if !BitSet(b, 5) then 5 else if !BitSet(b, 6) then 6
    else if !BitSet(b, 7) then 7 else 8
  }

  lemma ShapeClear(b: bv8)
    ensures PatternCount(b) >= 0 ==> LowestClear(b) == PatternCount(b)
    ensures PatternCount(b) == 8 <==> b == 0xFF
  {
  }

  /**
    * The predicted number is the one that allocation returns exactly when some byte is not full, and the first such
    * byte has a listed shape (or, by coincidence, the bytes after it add up to its lowest clear bit).
    */
  lemma PredictionIff(before: seq<bv8>, after: seq<bv8>, limit: nat, n: nat)
    requires limit <= |before|
    requires if n == 0 then AllUsed(before, limit) else FirstFit(before, after, limit, n)
    ensures var bytes := before[..limit];
            var k := FirstOpen(bytes);
            n == Predicted(bytes) + 1
            <==> k < limit
                 && (PatternCount(bytes[k]) >= 0 || Predicted(bytes[k + 1..]) == LowestClear(bytes[k]))
  {
    hide PatternCount, LowestClear, Predicted, BitSet, FirstOpen;
    var bytes := before[..limit];
    var k := FirstOpen(bytes);
    PredictedFrom(bytes);
    AllocatedAt(before, after, limit, n);
    if k < limit { ShapeClear(bytes[k]); }
  }

  /** The scan's sum, from the first byte that is not full. */
  lemma {:induction false} PredictedFrom(bytes: seq<bv8>)
    ensures var k := FirstOpen(bytes);
            Predicted(bytes)
            == 8 * k + if k == |bytes| then 0
                       else if PatternCount(bytes[k]) >= 0 then PatternCount(bytes[k]) else Predicted(bytes[k + 1..])
  {
    hide PatternCount;
    if bytes != [] {
      ShapeClear(bytes[0]);
      if bytes[0] == 0xFF {
        PredictedFrom(bytes[1..]);
        var k := FirstOpen(bytes[1..]);
        assert FirstOpen(bytes) == k + 1;
        if k < |bytes[1..]| { assert bytes[k + 2..] == bytes[1..][k + 1..]; }
      }
    }
  }

  /** The number that allocation returns, from the first byte that is not full. */
  lemma AllocatedAt(before: seq<bv8>, after: seq<bv8>, limit: nat, n: nat)
    requires limit <= |before|
    requires if n == 0 then AllUsed(before, limit) else FirstFit(before, after, limit, n)
    ensures var k := FirstOpen(before[..limit]);
            n == if k == limit then 0 else 8 * k + LowestClear(before[k]) + 1
  {
    hide BitSet, FirstOpen, LowestClear;
    var bytes := before[..limit];
    var k := FirstOpen(bytes);
    if k < limit {
      SomeClear(before[k]);
      var c := LowestClear(before[k]);
      UsedByte(before, 8 * k + c);
      if n != 0 { UsedByte(before, n - 1); }
      forall i | 0 <= i < 8 * k + c
        ensures Used(before, i)
      {
        UsedByte(before, i);
        if i < 8 * k { FullBits(bytes[i / 8], i % 8); }
      }
    } else if n != 0 {
      UsedByte(before, n - 1);
      FullBits(bytes[(n - 1) / 8], (n - 1) % 8);
    }
  }

  lemma UsedByte(map_: seq<bv8>, i: nat)
    requires i / 8 < |map_|
    ensures Used(map_, i) <==> BitSet(map_[i / 8], i % 8)
  {
    hide BitSet;
  }

  lemma FullBits(b: bv8, k: int)
    requires b == 0xFF && 0 <= k < 8
    ensures BitSet(b, k)
  {
  }

  /** On a contiguous bitmap both scanners are right: the count, and the number after it. */
  lemma {:induction false} PrefixScanned(map_: seq<bv8>, limit: nat, used: nat)
    requires IsPrefix(map_, limit, used)
    ensures Predicted(map_[..limit]) == PatternTotal(map_[..limit]) == used
    decreases limit
  {
    hide PatternCount, LowBits;
    if limit > 0 {
      var bytes := map_[..limit];
      assert bytes[0] == map_[0] == LowBits(used);
      PatternOfLow(used);
      var rest := if used > 8 then used - 8 else 0;
      forall i | 0 <= i < limit - 1
        ensures map_[1..][i] == LowBits(rest - 8 * i)
      {
        assert map_[1..][i] == map_[i + 1] == LowBits(used - 8 * (i + 1));
        NoLow(used - 8 * (i + 1), rest - 8 * i);
      }
      assert bytes[1..] == map_[1..][..limit - 1];
      PrefixScanned(map_[1..], limit - 1, rest);
    }
  }

  lemma NoLow(r: int, s: int)
    requires r == s || (r <= 0 && s <= 0)
    ensures LowBits(r) == LowBits(s)
  {
  }

  /** Three blocks allocated and the second freed: the predictor says 1, the total 0, and the next block is 2. */
  lemma HoleMisleads(after: seq<bv8>, n: nat)
    requires if n == 0 then AllUsed([5, 0], 2) else FirstFit([5, 0], after, 2, n)
    ensures n == 2 && Predicted([5, 0]) + 1 == 1 && PatternTotal([5, 0]) == 0 && PopulationCount([5, 0]) == 2
  {
    var bytes: seq<bv8> := [5, 0];
    assert bytes[..2] == bytes && bytes[1..] == [0] && bytes[1..][1..] == [];
    AllocatedAt(bytes, after, 2, n);
  }
}
