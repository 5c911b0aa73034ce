/** A directory block: a chain of variable-length records, split and merged in place. */
module DirectoryBlock {
  import opened Words
  import opened LibcMemory
  import opened X86
  import opened Disassembler
  import opened EncodeDecode

  const BLOCK_SIZE: nat := 0x800

  /** A record: its name, and unused bytes up to the next record. */
  datatype Entry = Entry(inode: Word, fileType: Byte, name: seq<Byte>, slack: seq<Byte>)

  function RecordLength(e: Entry): nat { 8 + |e.name| + |e.slack| }

  /** The smallest record that holds a name: header and name, rounded up to four bytes. */
  function MinLength(nameLength: nat): nat { (nameLength + 8 + 3) / 4 * 4 }

  function Low(n: nat): Byte { n % 0x100 }
  function High(n: nat): Byte { n / 0x100 % 0x100 }

  function HeaderOf(inode: Word, length: nat, nameLength: nat, fileType: Byte): (h: seq<Byte>)
    ensures |h| == 8
  {
    Le32(inode) + [Low(length), High(length), Low(nameLength), fileType]
  }

  function RecordBytes(e: Entry): (b: seq<Byte>)
    ensures |b| == RecordLength(e)
  {
    HeaderOf(e.inode, RecordLength(e), |e.name|, e.fileType) + e.name + e.slack
  }

  function Serialize(entries: seq<Entry>): seq<Byte> {
    if entries == [] then [] else RecordBytes(entries[0]) + Serialize(entries[1..])
  }

  /** What a record stands for. */
  datatype Key = Key(inode: Word, fileType: Byte, name: seq<Byte>)

  function Keys(entries: seq<Entry>): (k: seq<Key>)
    ensures |k| == |entries|
  {
    seq(|entries|, i requires 0 <= i < |entries| => Key(entries[i].inode, entries[i].fileType, entries[i].name))
  }

  /** Entries in use, with names that fit the length byte; several names may share an inode. */
  predicate Live(keys: seq<Key>) {
    keys != [] && forall k :: 0 <= k < |keys| ==> keys[k].inode != 0 && |keys[k].name| < 0x100
  }

  predicate DistinctNames(keys: seq<Key>) {
    forall i, j :: 0 <= i < j < |keys| ==> keys[i].name != keys[j].name
  }

  predicate Aligned(entries: seq<Entry>) {
    forall i :: 0 <= i < |entries| ==> RecordLength(entries[i]) % 4 == 0
  }

  /** Live records of multiples of four bytes that tile the block. */
  predicate Tiled(entries: seq<Entry>) {
    |Serialize(entries)| == BLOCK_SIZE && Aligned(entries) && Live(Keys(entries))
  }

  /** Such records with distinct names. */
  predicate WellFormed(entries: seq<Entry>) {
    Tiled(entries) && DistinctNames(Keys(entries))
  }

  function Find(entries: seq<Entry>, name: seq<Byte>): Word {
    if entries == [] then 0 else if entries[0].name == name then entries[0].inode else Find(entries[1..], name)
  }

  // ---------- reading records from bytes ----------

  function InodeAt(b: seq<Byte>, p: nat): Word { Dword(b, p) }
  function LengthAt(b: seq<Byte>, p: nat): nat { At(b, p + 4) + 0x100 * At(b, p + 5) }
  function NameLengthAt(b: seq<Byte>, p: nat): nat { At(b, p + 6) }

  predicate NameAt(b: seq<Byte>, p: nat, name: seq<Byte>) {
    NameLengthAt(b, p) == |name| && forall i :: 0 <= i < |name| ==> At(b, p + 8 + i) == name[i]
  }

  /** `returnInodeofFileName` on the block's bytes. */
  function LookupFrom(b: seq<Byte>, p: nat, name: seq<Byte>): Word
    decreases BLOCK_SIZE - p
  {
    if p >= BLOCK_SIZE || LengthAt(b, p) == 0 then 0
    else if InodeAt(b, p) != 0 && NameAt(b, p, name) then InodeAt(b, p)
    else LookupFrom(b, p + LengthAt(b, p), name)
  }

  lemma HeaderRead(b: seq<Byte>, p: nat, inode: Word, length: nat, nameLength: nat, fileType: Byte)
    requires BytesAt(b, p, HeaderOf(inode, length, nameLength, fileType)) && length < 0x1_0000 && nameLength < 0x100
    ensures InodeAt(b, p) == inode && LengthAt(b, p) == length && NameLengthAt(b, p) == nameLength
            && At(b, p + 7) == fileType
  {
    var h := HeaderOf(inode, length, nameLength, fileType);
    assert h[0..4] == Le32(inode);
    DwordBytes(b, p, h, 0, inode);
    WrapWord(inode);
    AtBytes(b, p, h, 4);
    AtBytes(b, p, h, 5);
    AtBytes(b, p, h, 6);
    AtBytes(b, p, h, 7);
  }

  /** A record's fields, read where its bytes stand. */
  lemma RecordRead(b: seq<Byte>, p: nat, e: Entry, name: seq<Byte>)
    requires BytesAt(b, p, RecordBytes(e)) && |e.name| < 0x100 && RecordLength(e) <= BLOCK_SIZE
    ensures InodeAt(b, p) == e.inode && LengthAt(b, p) == RecordLength(e) && At(b, p + 7) == e.fileType
    ensures NameAt(b, p, name) <==> name == e.name
  {
    hide HeaderOf, BytesAt, InodeAt, LengthAt;
    var h := HeaderOf(e.inode, RecordLength(e), |e.name|, e.fileType);
    BytesAtTail(b, p, h + e.name, e.slack);
    BytesAtTail(b, p, h, e.name);
    HeaderRead(b, p, e.inode, RecordLength(e), |e.name|, e.fileType);
    forall i | 0 <= i < |e.name|
      ensures At(b, p + 8 + i) == e.name[i]
    {
      AtBytes(b, p + 8, e.name, i);
    }
    if |name| == |e.name| && name != e.name {
      var i :| 0 <= i < |name| && name[i] != e.name[i];
    }
  }

  /** A record's layout on the disk: inode, length, name length, type, name; little-endian. */
  lemma RecordFields(e: Entry)
    requires |e.name| < 0x100 && RecordLength(e) < 0x1_0000
    ensures var b := RecordBytes(e);
            && FromLe32(b[0], b[1], b[2], b[3]) == e.inode && b[4] as int + 0x100 * (b[5] as int) == |b|
               && b[6] == |e.name|
            && b[7] == e.fileType && b[8..8 + |e.name|] == e.name
  {
    var b := RecordBytes(e);
    var h := HeaderOf(e.inode, RecordLength(e), |e.name|, e.fileType);
    assert b[..8] == h && h[..4] == Le32(e.inode);
    Le32Value(e.inode);
    WrapWord(e.inode);
  }

  lemma {:induction false} SerializeAppend(a: seq<Entry>, b: seq<Entry>)
    ensures Serialize(a + b) == Serialize(a) + Serialize(b)
  {
    if a == [] {
      assert a + b == b;
    } else {
      hide RecordBytes;
      assert (a + b)[1..] == a[1..] + b;
      SerializeAppend(a[1..], b);
    }
  }

  /** Scanning the bytes finds what the list of records says. */
  lemma {:induction false} LookupIsFind(b: seq<Byte>, p: nat, entries: seq<Entry>, name: seq<Byte>)
    requires p + |Serialize(entries)| == BLOCK_SIZE && BytesAt(b, p, Serialize(entries))
    requires forall e :: e in entries ==> e.inode != 0 && |e.name| < 0x100
    ensures LookupFrom(b, p, name) == Find(entries, name)
    decreases |entries|
  {
    hide RecordBytes, BytesAt, InodeAt, LengthAt, NameAt;
    if entries != [] {
      BytesAtTail(b, p, RecordBytes(entries[0]), Serialize(entries[1..]));
      RecordRead(b, p, entries[0], name);
      LookupIsFind(b, p + RecordLength(entries[0]), entries[1..], name);
    }
  }

  // ---------- the records as a finite map ----------

  /** The position of a name, or the number of entries. */
  function Position(keys: seq<Key>, name: seq<Byte>): (i: nat)
    ensures i <= |keys|
    ensures i < |keys| ==> keys[i].name == name
    ensures forall k :: 0 <= k < i ==> keys[k].name != name
  {
    if keys == [] || keys[0].name == name then 0 else 1 + Position(keys[1..], name)
  }

  /** The first entry with that inode, or the number of entries. */
  function FirstInode(keys: seq<Key>, inode: Word): (i: nat)
    ensures i <= |keys|
    ensures i < |keys| ==> keys[i].inode == inode
    ensures forall k :: 0 <= k < i ==> keys[k].inode != inode
  {
    if keys == [] || keys[0].inode == inode then 0 else 1 + FirstInode(keys[1..], inode)
  }

  /** The entry that deleting a name removes: the first one with the name's inode. */
  function Victim(keys: seq<Key>, name: seq<Byte>): (v: nat)
    ensures v <= Position(keys, name)
  {
    var p := Position(keys, name);
    if p < |keys| then FirstInode(keys, keys[p].inode) else p
  }

  lemma {:induction false} FindAtPosition(entries: seq<Entry>, name: seq<Byte>)
    ensures var i := Position(Keys(entries), name); Find(entries, name) == if i < |entries| then entries[i].inode else 0
  {
    if entries != [] {
      assert Keys(entries)[1..] == Keys(entries[1..]);
      FindAtPosition(entries[1..], name);
    }
  }

  /** A record merged into the one before it: its bytes become unused. */
  function Merged(entries: seq<Entry>, i: nat): seq<Entry>
    requires 0 < i < |entries|
  {
    var previous, gone := entries[i - 1], entries[i];
    entries[..i - 1] + [previous.(slack := previous.slack + Zeros(RecordLength(gone)))] + entries[i + 1..]
  }

  /** A new record in the unused bytes of the last one. */
  function Extended(entries: seq<Entry>, inode: Word, fileType: Byte, name: seq<Byte>): seq<Entry>
    requires entries != [] && HasRoom(entries, |name|)
  {
    var last := entries[|entries| - 1];
    var used, kept := RecordLength(last) - |last.slack|, MinLength(|last.name|);
    var rest := last.slack[kept - used..];
    var pad := MinLength(|name|) - 8 - |name|;
    entries[..|entries| - 1]
    + [last.(slack := last.slack[..kept - used])]
    + [Entry(inode, fileType, name, Zeros(pad) + rest[MinLength(|name|)..])]
  }

  predicate HasRoom(entries: seq<Entry>, nameLength: nat)
    requires entries != []
  {
    var last := entries[|entries| - 1];
    RecordLength(last) >= MinLength(|last.name|) + MinLength(nameLength)
  }

  lemma MinLengthFacts(n: nat)
    ensures 8 + n <= MinLength(n) < 8 + n + 4 && MinLength(n) % 4 == 0
  {
  }

  lemma LengthsSum(a: seq<Entry>, e: Entry, b: seq<Entry>)
    ensures |Serialize(a + [e] + b)| == |Serialize(a)| + RecordLength(e) + |Serialize(b)|
  {
    hide RecordBytes;
    SerializeAppend(a + [e], b);
    SerializeAppend(a, [e]);
    assert [e][1..] == [];
  }

  lemma NothingSerialized()
    ensures Serialize([]) == []
  {
  }

  lemma MergedKeys(entries: seq<Entry>, i: nat)
    requires 0 < i < |entries|
    ensures Keys(Merged(entries, i)) == Keys(entries)[..i] + Keys(entries)[i + 1..]
  {
  }

  lemma MergedAligned(entries: seq<Entry>, i: nat)
    requires 0 < i < |entries| && Aligned(entries)
    ensures Aligned(Merged(entries, i))
  {
    var m := Merged(entries, i);
    assert RecordLength(m[i - 1]) == RecordLength(entries[i - 1]) + RecordLength(entries[i]);
    assert forall k :: 0 <= k < |m| && k != i - 1 ==> m[k] == entries[if k < i then k else k + 1];
  }

  lemma KeysWithout(keys: seq<Key>, i: nat)
    requires Live(keys) && i < |keys| && |keys| > 1
    ensures Live(keys[..i] + keys[i + 1..])
  {
    var rest := keys[..i] + keys[i + 1..];
    assert forall k :: 0 <= k < |rest| ==> rest[k] == keys[if k < i then k else k + 1];
  }

  lemma NamesWithout(keys: seq<Key>, i: nat)
    requires DistinctNames(keys) && i < |keys|
    ensures DistinctNames(keys[..i] + keys[i + 1..])
    ensures forall k :: k in keys[..i] + keys[i + 1..] <==> k in keys && k.name != keys[i].name
  {
    var rest := keys[..i] + keys[i + 1..];
    assert forall k :: 0 <= k < |rest| ==> rest[k] == keys[if k < i then k else k + 1];
    forall k | k in keys && k.name != keys[i].name
      ensures k in rest
    {
      var j :| 0 <= j < |keys| && keys[j] == k;
      assert rest[if j < i then j else j - 1] == k;
    }
  }

  lemma MergedTiles(entries: seq<Entry>, i: nat)
    requires 0 < i < |entries|
    ensures |Serialize(Merged(entries, i))| == |Serialize(entries)|
  {
    hide Serialize, RecordBytes;
    var previous, gone := entries[i - 1], entries[i];
    var wide := previous.(slack := previous.slack + Zeros(RecordLength(gone)));
    var a, b := entries[..i - 1], entries[i + 1..];
    assert entries == (a + [previous]) + [gone] + b;
    LengthsSum(a, wide, b);
    LengthsSum(a + [previous], gone, b);
    LengthsSum(a, previous, []);
    assert a + [previous] + [] == a + [previous];
    NothingSerialized();
  }

  /** Merging a record into the one before it leaves records that tile the block. */
  lemma MergedTiled(entries: seq<Entry>, i: nat)
    requires Tiled(entries) && 0 < i < |entries|
    ensures Tiled(Merged(entries, i))
  {
    hide Serialize, Keys, Live, Aligned, Merged;
    MergedTiles(entries, i);
    MergedAligned(entries, i);
    MergedKeys(entries, i);
    KeysWithout(Keys(entries), i);
  }

  /** Merging away an entry removes exactly its name, and the records still tile the block. */
  lemma DeleteRefines(entries: seq<Entry>, i: nat)
    requires WellFormed(entries) && 0 < i < |entries|
    ensures WellFormed(Merged(entries, i))
    ensures forall k :: k in Keys(Merged(entries, i)) <==> k in Keys(entries) && k.name != entries[i].name
  {
    hide Tiled, Keys, DistinctNames, Merged;
    MergedTiled(entries, i);
    MergedKeys(entries, i);
    NamesWithout(Keys(entries), i);
    KeyAt(entries, i);
  }

  lemma KeyAt(entries: seq<Entry>, i: nat)
    requires i < |entries|
    ensures Keys(entries)[i] == Key(entries[i].inode, entries[i].fileType, entries[i].name)
  {
  }

  lemma ExtendedKeys(entries: seq<Entry>, inode: Word, fileType: Byte, name: seq<Byte>)
    requires entries != [] && HasRoom(entries, |name|)
    ensures Keys(Extended(entries, inode, fileType, name)) == Keys(entries) + [Key(inode, fileType, name)]
  {
  }

  lemma ExtendedLengths(entries: seq<Entry>, inode: Word, fileType: Byte, name: seq<Byte>)
    requires entries != [] && HasRoom(entries, |name|)
    ensures var x, last := Extended(entries, inode, fileType, name), entries[|entries| - 1];
            && |x| == |entries| + 1 && x[..|entries| - 1] == entries[..|entries| - 1]
            && RecordLength(x[|entries| - 1]) == MinLength(|last.name|)
            && RecordLength(x[|entries|]) == RecordLength(last) - MinLength(|last.name|)
  {
    MinLengthFacts(|name|);
  }

  lemma ExtendedTiles(entries: seq<Entry>, inode: Word, fileType: Byte, name: seq<Byte>)
    requires entries != [] && HasRoom(entries, |name|) && Aligned(entries)
    ensures |Serialize(Extended(entries, inode, fileType, name))| == |Serialize(entries)|
    ensures Aligned(Extended(entries, inode, fileType, name))
  {
    hide Serialize, RecordBytes, Extended, MinLength, HasRoom;
    var x, n := Extended(entries, inode, fileType, name), |entries| - 1;
    ExtendedLengths(entries, inode, fileType, name);
    MinLengthFacts(|entries[n].name|);
    assert entries == entries[..n] + [entries[n]] + [] && x == (x[..n] + [x[n]]) + [x[n + 1]] + [];
    LengthsSum(entries[..n], entries[n], []);
    LengthsSum(x[..n] + [x[n]], x[n + 1], []);
    LengthsSum(x[..n], x[n], []);
    assert x[..n] + [x[n]] + [] == x[..n] + [x[n]];
    NothingSerialized();
    assert forall k :: 0 <= k < n ==> x[k] == x[..n][k] == entries[k];
  }

  /** The records after an insertion tile the block; they are live if the inserted inode is. */
  lemma ExtendedTiled(entries: seq<Entry>, inode: Word, fileType: Byte, name: seq<Byte>)
    requires Tiled(entries) && HasRoom(entries, |name|) && |name| < 0x100
    ensures Tiled(Extended(entries, inode, fileType, name)) <==> inode != 0
  {
    hide Serialize, Keys, Aligned, Extended, HasRoom;
    ExtendedTiles(entries, inode, fileType, name);
    ExtendedKeys(entries, inode, fileType, name);
    var keys := Keys(Extended(entries, inode, fileType, name));
    assert keys[|keys| - 1] == Key(inode, fileType, name);
  }

  /** Creating adds exactly the new name, if it is not in use, and the records still tile the block. */
  lemma CreateRefines(entries: seq<Entry>, inode: Word, fileType: Byte, name: seq<Byte>)
    requires WellFormed(entries) && HasRoom(entries, |name|)
    requires inode != 0 && |name| < 0x100 && forall k :: k in Keys(entries) ==> k.name != name
    ensures WellFormed(Extended(entries, inode, fileType, name))
    ensures forall k :: k in Keys(Extended(entries, inode, fileType, name))
              <==> k in Keys(entries) || k == Key(inode, fileType, name)
  {
    hide Tiled, Keys, Extended, HasRoom;
    LiveAt(entries, 0);
    ExtendedTiled(entries, inode, fileType, name);
    ExtendedKeys(entries, inode, fileType, name);
    assert forall k :: 0 <= k < |Keys(entries)| ==> Keys(entries)[k] in Keys(entries);
  }

  /** The record chain: where each entry's record starts and ends, and what it stands for. */
  function Chain(entries: seq<Entry>): seq<(Key, nat)> {
    seq(|entries|, i requires 0 <= i < |entries| => (Keys(entries)[i], RecordLength(entries[i])))
  }

  /** Merging the new record back restores the record chain. */
  lemma LastMerged(entries: seq<Entry>, inode: Word, fileType: Byte, name: seq<Byte>)
    requires entries != [] && HasRoom(entries, |name|)
    ensures Chain(Merged(Extended(entries, inode, fileType, name), |entries|)) == Chain(entries)
  {
    hide Serialize, Extended, HasRoom, MinLength;
    var x, n := Extended(entries, inode, fileType, name), |entries|;
    ExtendedLengths(entries, inode, fileType, name);
    ExtendedKeys(entries, inode, fileType, name);
    MergedKeys(x, n);
    var m := Merged(x, n);
    assert Keys(m) == Keys(entries);
    assert forall k :: 0 <= k < n - 1 ==> m[k] == x[..n - 1][k] == entries[..n - 1][k];
    assert RecordLength(m[n - 1]) == RecordLength(x[n - 1]) + RecordLength(x[n]);
  }

  /** Merging an earlier record does not: the record before it has grown. */
  lemma EarlierMerged(entries: seq<Entry>, inode: Word, fileType: Byte, name: seq<Byte>, v: nat)
    requires entries != [] && HasRoom(entries, |name|) && 0 < v < |entries|
    ensures Chain(Merged(Extended(entries, inode, fileType, name), v)) != Chain(entries)
  {
    hide Extended, HasRoom, MinLength;
    var x, n := Extended(entries, inode, fileType, name), |entries|;
    ExtendedLengths(entries, inode, fileType, name);
    var m := Merged(x, v);
    assert x[v - 1] == x[..n - 1][v - 1] == entries[..n - 1][v - 1] == entries[v - 1];
    assert RecordLength(m[v - 1]) == RecordLength(x[v - 1]) + RecordLength(x[v]);
    assert Chain(m)[v - 1].1 != Chain(entries)[v - 1].1;
  }

  /**
    * Deleting what was just created restores the record chain exactly when neither the name nor the inode was in
    * the directory before.
    */
  lemma DeleteUndoesCreateIff(entries: seq<Entry>, inode: Word, fileType: Byte, name: seq<Byte>)
    requires entries != [] && HasRoom(entries, |name|)
    ensures var x := Extended(entries, inode, fileType, name);
            var v := Victim(Keys(x), name);
            0 < v < |x| && Chain(Merged(x, v)) == Chain(entries)
            <==> IsNew(entries, name) && FirstInode(Keys(entries), inode) == |entries|
  {
    hide Extended, HasRoom, Chain, Keys, Merged, Position, FirstInode;
    var x := Extended(entries, inode, fileType, name);
    ExtendedKeys(entries, inode, fileType, name);
    var v := Victim(Keys(x), name);
    LastVictim(Keys(entries), Key(inode, fileType, name));
    if v == |entries| {
      LastMerged(entries, inode, fileType, name);
    } else if v > 0 {
      EarlierMerged(entries, inode, fileType, name, v);
    }
  }

  /** The last entry is the one removed exactly when it is the only one with its name and with its inode. */
  lemma LastVictim(keys: seq<Key>, key: Key)
    ensures Victim(keys + [key], key.name) <= |keys|
    ensures Victim(keys + [key], key.name) == |keys|
            <==> (forall k :: 0 <= k < |keys| ==> keys[k].name != key.name) && FirstInode(keys, key.inode) == |keys|
  {
    hide Position, FirstInode;
    var all, n := keys + [key], |keys|;
    assert all[n] == key;
    assert forall k :: 0 <= k < n ==> all[k] == keys[k];
    var p := Position(all, key.name);
    assert p <= n;
    assert FirstInode(all, all[p].inode) <= p;
  }

  // ---------- the block in memory ----------

  function Bytes16(n: nat): seq<Byte> { [Low(n), High(n)] }

  /** The byte position of a record. */
  function Start(entries: seq<Entry>, i: nat): nat
    requires i <= |entries|
  {
    |Serialize(entries[..i])|
  }

  lemma TwoRecords(a: seq<Entry>, e: Entry, f: Entry, b: seq<Entry>)
    ensures Serialize(a + [e] + [f] + b) == Serialize(a) + RecordBytes(e) + (RecordBytes(f) + Serialize(b))
    ensures Serialize(a + [e] + b) == Serialize(a) + RecordBytes(e) + Serialize(b)
  {
    hide Serialize, RecordBytes;
    SerializeAppend(a + [e] + [f], b);
    SerializeAppend(a + [e], [f]);
    SerializeAppend(a + [e], b);
    SerializeAppend(a, [e]);
    OneRecord(e);
    OneRecord(f);
    assert Serialize(a) + RecordBytes(e) + RecordBytes(f) + Serialize(b)
           == Serialize(a) + RecordBytes(e) + (RecordBytes(f) + Serialize(b));
  }

  lemma Parts(entries: seq<Entry>, i: nat)
    requires i < |entries|
    ensures entries == entries[..i] + [entries[i]] + entries[i + 1..]
    ensures entries[..i + 1] == entries[..i] + [entries[i]]
  {
  }

  lemma SplitAt(entries: seq<Entry>, i: nat)
    requires i < |entries|
    ensures Serialize(entries) == Serialize(entries[..i]) + RecordBytes(entries[i]) + Serialize(entries[i + 1..])
    ensures Start(entries, i + 1) == Start(entries, i) + RecordLength(entries[i])
  {
    hide RecordBytes, Serialize;
    var e := entries[i];
    Parts(entries, i);
    TwoRecords(entries[..i], e, e, entries[i + 1..]);
    SerializeAppend(entries[..i], [e]);
    OneRecord(e);
  }

  lemma OneRecord(e: Entry)
    ensures Serialize([e]) == RecordBytes(e)
  {
    hide RecordBytes;
    assert [e][1..] == [];
    assert RecordBytes(e) + [] == RecordBytes(e);
  }

  lemma RecordStands(b: seq<Byte>, entries: seq<Entry>, i: nat)
    requires b == Serialize(entries) && i < |entries|
    ensures BytesAt(b, Start(entries, i), RecordBytes(entries[i]))
  {
    hide Serialize, RecordBytes;
    SplitAt(entries, i);
    var a, r, c := Serialize(entries[..i]), RecordBytes(entries[i]), Serialize(entries[i + 1..]);
    assert (a + r + c)[|a|..|a| + |r|] == r;
  }

  /** The bytes after widening one record over the next and clearing that one. */
  lemma MergedBytes(entries: seq<Entry>, i: nat)
    requires 0 < i < |entries|
    ensures var previous, gone, p := entries[i - 1], entries[i], Start(entries, i - 1);
            var l, g := RecordLength(previous), RecordLength(gone);
            var s := Serialize(entries);
            p + l + g <= |s| && l >= 8
            && Serialize(Merged(entries, i))
               == s[..p + 4] + Bytes16(l + g) + s[p + 6..p + l] + Zeros(g) + s[p + l + g..]
  {
    hide Serialize, RecordBytes, Bytes16, Zeros;
    var previous, gone := entries[i - 1], entries[i];
    var l, g := RecordLength(previous), RecordLength(gone);
    var a, b := entries[..i - 1], entries[i + 1..];
    var wide := previous.(slack := previous.slack + Zeros(g));
    assert entries == a + [previous] + [gone] + b && Merged(entries, i) == a + [wide] + b;
    TwoRecords(a, previous, gone, b);
    TwoRecords(a, wide, gone, b);
    WideRecord(previous, g);
    FieldSize(l + g);
    MergePieces(Serialize(a), RecordBytes(previous), RecordBytes(gone), Serialize(b), RecordBytes(wide),
      Bytes16(l + g));
  }

  lemma FieldSize(n: nat)
    ensures |Bytes16(n)| == 2
  {
  }

  lemma WideRecord(e: Entry, g: nat)
    ensures var l, wide := RecordLength(e), e.(slack := e.slack + Zeros(g));
            RecordBytes(wide) == RecordBytes(e)[..4] + Bytes16(l + g) + RecordBytes(e)[6..] + Zeros(g)
  {
    hide Zeros, RecordBytes, Bytes16, Le32;
    var l, wide := RecordLength(e), e.(slack := e.slack + Zeros(g));
    var tail := [Low(|e.name|), e.fileType] + e.name + e.slack;
    RecordParts(e);
    RecordParts(wide);
    assert [Low(|e.name|), e.fileType] + e.name + wide.slack == tail + Zeros(g);
  }

  /** A record's bytes around its length field. */
  lemma RecordParts(e: Entry)
    ensures var tail := [Low(|e.name|), e.fileType] + e.name + e.slack;
            && RecordBytes(e) == Le32(e.inode) + Bytes16(RecordLength(e)) + tail
            && RecordBytes(e)[..4] == Le32(e.inode) && RecordBytes(e)[6..] == tail
  {
    hide Le32;
  }

  lemma MergePieces(a: seq<Byte>, r: seq<Byte>, g: seq<Byte>, b: seq<Byte>, wide: seq<Byte>, length: seq<Byte>)
    requires |r| >= 8 && |length| == 2 && wide == r[..4] + length + r[6..] + Zeros(|g|)
    ensures var s, p, l := a + r + (g + b), |a|, |r|;
            a + wide + b == s[..p + 4] + length + s[p + 6..p + l] + Zeros(|g|) + s[p + l + |g|..]
  {
    hide Zeros;
    var s, p, l := a + r + (g + b), |a|, |r|;
    assert s[..p + 4] == a + r[..4] && s[p + 6..p + l] == r[6..] && s[p + l + |g|..] == b;
  }

  class Directory {
    const bytes: array<Byte>
    ghost var entries: seq<Entry>

    ghost predicate Valid()
      reads this, bytes
    {
      bytes.Length == BLOCK_SIZE && Tiled(entries) && bytes[..] == Serialize(entries)
    }

    /** `returnInodeofFileName`. */
    method Lookup(name: seq<Byte>) returns (inode: Word)
      requires bytes.Length == BLOCK_SIZE
      ensures inode == LookupFrom(bytes[..], 0, name)
      ensures Valid() ==> inode == Find(entries, name)
    {
      hide InodeAt, LengthAt, NameAt, Tiled, Find;
      var p := 0;
      inode := 0;
      while p < BLOCK_SIZE && LengthAt(bytes[..], p) != 0
        invariant LookupFrom(bytes[..], p, name) == LookupFrom(bytes[..], 0, name)
        decreases BLOCK_SIZE - p
      {
        if InodeAt(bytes[..], p) != 0 && NameAt(bytes[..], p, name) {
          inode := InodeAt(bytes[..], p);
          break;
        }
        p := p + LengthAt(bytes[..], p);
      }
      if Valid() { WholeLookup(bytes[..], entries, name); }
    }

    /** The deletion scan: the first record with that inode, and the record before it. */
    method ScanFor(inode: Word) returns (p: nat, hasPrevious: bool, previous: nat, ghost i: nat)
      requires Valid() && FirstInode(Keys(entries), inode) < |entries|
      ensures i == FirstInode(Keys(entries), inode) && p == Start(entries, i)
      ensures hasPrevious <==> i > 0
      ensures i > 0 ==> previous == Start(entries, i - 1) && p == previous + RecordLength(entries[i - 1])
      ensures i == 0 ==> p == 0
    {
      hide InodeAt, LengthAt, RecordBytes, Serialize, Tiled, FirstInode;
      p, hasPrevious, previous, i := 0, false, 0, 0;
      ghost var at := FirstInode(Keys(entries), inode);
      KeyAt(entries, at);
      StartZero(entries);
      ScanRecord(bytes[..], entries, 0);
      while InodeAt(bytes[..], p) != inode
        invariant i <= at && p == Start(entries, i)
        invariant InodeAt(bytes[..], p) == entries[i].inode && LengthAt(bytes[..], p) == RecordLength(entries[i])
        invariant hasPrevious <==> i > 0
        invariant i > 0 ==> previous == Start(entries, i - 1) && p == previous + RecordLength(entries[i - 1])
        invariant i == 0 ==> p == 0
        decreases at - i
      {
        SplitAt(entries, i);
        KeyAt(entries, i);
        hasPrevious, previous := true, p;
        p := p + LengthAt(bytes[..], p);
        i := i + 1;
        ScanRecord(bytes[..], entries, i);
      }
      KeyAt(entries, i);
    }

    /** Sets a record's length field. */
    method SetLength(p: nat, length: nat)
      requires p + 8 <= bytes.Length
      modifies bytes
      ensures bytes[..] == old(bytes[..p + 4]) + Bytes16(length) + old(bytes[p + 6..])
    {
      bytes[p + 4], bytes[p + 5] := Low(length), High(length);
    }

    /** `fillMemory` with zeros. */
    method Clear(p: nat, n: nat)
      requires p + n <= bytes.Length
      modifies bytes
      ensures bytes[..] == old(bytes[..p]) + Zeros(n) + old(bytes[p + n..])
    {
      CopyBytes(bytes, p, Zeros(n));
    }

    /**
      * `deleteDirectoryEntry`: an unknown name changes nothing. Of a known one it removes the first entry with the
      * name's inode: any entry but the first of the block is merged into the one before it, and the first one is
      * cleared, its length too.
      */
    method Delete(name: seq<Byte>) returns (ghost i: nat)
      requires Valid()
      modifies this, bytes
      ensures i == Victim(Keys(old(entries)), name)
      ensures i == |old(entries)| ==> Valid() && entries == old(entries)
      ensures 0 < i < |old(entries)| ==> Valid() && entries == Merged(old(entries), i)
      ensures i < |old(entries)| ==> IsRemoval(old(entries), i, bytes[..])
    {
      hide LookupFrom, InodeAt, LengthAt, Serialize, Position, RecordBytes, Merged, Tiled, Zeros, Find,
           FirstInode;
      var inode := Lookup(name);
      FindAtPosition(entries, name);
      i := Victim(Keys(entries), name);
      LiveAt(entries, Position(Keys(entries), name));
      if inode == 0 { return; }
      KeyAt(entries, Position(Keys(entries), name));
      var p, hasPrevious, previous, found := ScanFor(inode);
      ScanRecord(bytes[..], entries, i);
      var length := LengthAt(bytes[..], p);
      if hasPrevious {
        MergeInto(previous, p, length, i);
      } else {
        Clear(p, length);
      }
    }

    /** The scan for the last record. */
    method ScanLast() returns (p: nat)
      requires Valid()
      ensures p == Start(entries, |entries| - 1)
    {
      hide InodeAt, LengthAt, RecordBytes, Serialize, Tiled;
      var next := 0;
      ghost var i := 0;
      p := 0;
      LiveAt(entries, 0);
      StartZero(entries);
      BlockLength(entries);
      while next < BLOCK_SIZE
        invariant i <= |entries| && next == Start(entries, i)
        invariant i > 0 ==> p == Start(entries, i - 1)
        decreases |entries| - i
      {
        StartEnd(entries, i);
        ScanRecord(bytes[..], entries, i);
        SplitAt(entries, i);
        LiveAt(entries, i);
        if InodeAt(bytes[..], next) != 0 { p := next; }
        next := next + LengthAt(bytes[..], next);
        i := i + 1;
      }
      StartEnd(entries, i);
    }

    /**
      * The insertion of `createFile` and `moveFile`: the last record is cut to its smallest length and the new
      * one takes the rest of it, unless there is no room. Only the low byte of the name's length is stored.
      */
    method Insert(inode: Word, fileType: Byte, name: seq<Byte>) returns (inserted: bool)
      requires Valid() && |name| < 0x100
      modifies this, bytes
      ensures inserted == old(HasRoom(entries, |name|))
      ensures !inserted ==> Valid() && entries == old(entries)
      ensures inserted ==> bytes[..] == Serialize(entries) && entries == Extended(old(entries), inode, fileType, name)
      ensures inserted && inode != 0 ==> Valid()
    {
      hide InodeAt, LengthAt, RecordBytes, Serialize, Tiled, Zeros, Start, Bytes16, Extended, MinLength, HeaderOf;
      ghost var s := bytes[..];
      LiveAt(entries, 0);
      var p := ScanLast();
      ScanRecord(s, entries, |entries| - 1);
      LastNameLength(s, entries);
      var length, kept, needed := LengthAt(bytes[..], p), MinLength(NameLengthAt(bytes[..], p)), MinLength(|name|);
      if length < kept + needed { return false; }
      ExtendedBytes(entries, inode, fileType, name);
      SplitRecord(p, kept, needed, inode, fileType, name, length - kept);
      ExtendedTiled(entries, inode, fileType, name);
      entries := Extended(entries, inode, fileType, name);
      inserted := true;
    }

    /** Cuts the record at `p` to `kept` bytes and writes a new one, its name padded with zeros, after it. */
    method SplitRecord(p: nat, kept: nat, needed: nat, inode: Word, fileType: Byte, name: seq<Byte>, length: nat)
      requires bytes.Length == BLOCK_SIZE && 8 <= kept && 8 + |name| <= needed && p + kept + needed <= BLOCK_SIZE
      modifies bytes
      ensures var s := old(bytes[..]);
              bytes[..]
                == s[..p + 4] + Bytes16(kept) + s[p + 6..p + kept] + (HeaderOf(inode, length, |name|, fileType) + name)
                           + Zeros(needed - 8 - |name|) + s[p + kept + needed..]
    {
      hide Zeros, Bytes16, HeaderOf;
      ghost var s := bytes[..];
      FieldSize(kept);
      SetLength(p, kept);
      var q := p + kept;
      CopyBytes(bytes, q, HeaderOf(inode, length, |name|, fileType) + name);
      Clear(q + 8 + |name|, needed - 8 - |name|);
      Interleave(s, p, q, Bytes16(kept), HeaderOf(inode, length, |name|, fileType) + name, needed - 8 - |name|,
        bytes[..]);
    }

    /** `createFile`: a plain file with a freshly allocated inode, under the name that fits the length byte. */
    method Create(name: seq<Byte>, inode: Word) returns (created: bool)
      requires Valid()
      modifies this, bytes
      ensures var stored := name[..|name| % 0x100];
              && created == old(HasRoom(entries, |stored|))
              && (!created ==> Valid() && entries == old(entries))
              && (created ==> bytes[..] == Serialize(entries) && entries == Extended(old(entries), inode, 1, stored))
              && (created && inode != 0 ==> Valid())
    {
      hide Serialize, Tiled, Extended, HasRoom;
      created := Insert(inode, 1, name[..|name| % 0x100]);
    }

    /** The type of the first entry with that inode and name, as the scan of `moveFile` finds it. */
    method TypeOf(inode: Word, name: seq<Byte>) returns (fileType: Byte)
      requires Valid() && inode != 0 && inode == Find(entries, name)
      ensures var i := Position(Keys(entries), name); i < |entries| && fileType == entries[i].fileType
    {
      hide InodeAt, LengthAt, NameAt, RecordBytes, Serialize, Tiled, Find, Position;
      FindAtPosition(entries, name);
      ghost var at := Position(Keys(entries), name);
      KeyAt(entries, at);
      var p := 0;
      ghost var i := 0;
      StartZero(entries);
      ScanName(bytes[..], entries, 0, name);
      while !(InodeAt(bytes[..], p) == inode && NameAt(bytes[..], p, name))
        invariant i <= at && p == Start(entries, i)
        invariant InodeAt(bytes[..], p) == entries[i].inode && LengthAt(bytes[..], p) == RecordLength(entries[i])
        invariant (NameAt(bytes[..], p, name) <==> entries[i].name == name)
                  && At(bytes[..], p + 7) == entries[i].fileType
        decreases at - i
      {
        SplitAt(entries, i);
        p := p + LengthAt(bytes[..], p);
        i := i + 1;
        ScanName(bytes[..], entries, i, name);
      }
      KeyAt(entries, i);
      fileType := At(bytes[..], p + 7);
    }

    /** Widens the previous record over the one at `p`, and clears that one. */
    method MergeInto(previous: nat, p: nat, length: nat, ghost i: nat)
      requires Valid() && 0 < i < |entries|
      requires previous == Start(entries, i - 1) && p == previous + RecordLength(entries[i - 1])
               && length == RecordLength(entries[i])
      modifies this, bytes
      ensures Valid() && entries == Merged(old(entries), i)
    {
      hide LookupFrom, InodeAt, LengthAt, Serialize, RecordBytes, Merged, Tiled, Zeros, Start, Bytes16;
      ghost var s := bytes[..];
      MergedBytes(entries, i);
      FieldSize(p - previous + length);
      BlockLength(entries);
      ScanRecord(s, entries, i - 1);
      SetLength(previous, LengthAt(bytes[..], previous) + length);
      Clear(p, length);
      Reassemble(s, previous, p, length, Bytes16(p - previous + length), bytes[..]);
      MergedTiled(entries, i);
      entries := Merged(entries, i);
    }
  }

  // ---------- lemmas of the block ----------

  lemma WholeLookup(b: seq<Byte>, entries: seq<Entry>, name: seq<Byte>)
    requires b == Serialize(entries) && Tiled(entries)
    ensures LookupFrom(b, 0, name) == Find(entries, name)
  {
    hide Serialize, LookupFrom, Find;
    forall e | e in entries
      ensures e.inode != 0 && |e.name| < 0x100
    {
      var k :| 0 <= k < |entries| && entries[k] == e;
      KeyAt(entries, k);
    }
    LookupIsFind(b, 0, entries, name);
  }

  lemma BlockLength(entries: seq<Entry>)
    requires Tiled(entries)
    ensures |Serialize(entries)| == BLOCK_SIZE
  {
  }

  lemma StartZero(entries: seq<Entry>)
    ensures Start(entries, 0) == 0
  {
  }

  lemma ScanRecord(b: seq<Byte>, entries: seq<Entry>, i: nat)
    requires b == Serialize(entries) && Tiled(entries) && i < |entries|
    ensures var p := Start(entries, i);
            && InodeAt(b, p) == entries[i].inode && LengthAt(b, p) == RecordLength(entries[i])
            && p + RecordLength(entries[i]) <= BLOCK_SIZE && At(b, p + 7) == entries[i].fileType
  {
    hide Serialize, RecordBytes, InodeAt, LengthAt;
    RecordStands(b, entries, i);
    KeyAt(entries, i);
    RecordRead(b, Start(entries, i), entries[i], []);
  }

  lemma LiveAt(entries: seq<Entry>, i: nat)
    requires Tiled(entries)
    ensures entries != [] && (i < |entries| ==> entries[i].inode != 0)
  {
    hide Serialize;
    if i < |entries| { KeyAt(entries, i); }
  }

  lemma ScanName(b: seq<Byte>, entries: seq<Entry>, i: nat, name: seq<Byte>)
    requires b == Serialize(entries) && Tiled(entries) && i < |entries|
    ensures var p := Start(entries, i);
            && InodeAt(b, p) == entries[i].inode && LengthAt(b, p) == RecordLength(entries[i])
            && (NameAt(b, p, name) <==> entries[i].name == name) && At(b, p + 7) == entries[i].fileType
  {
    hide Serialize, RecordBytes, InodeAt, LengthAt, NameAt;
    ScanRecord(b, entries, i);
    RecordStands(b, entries, i);
    KeyAt(entries, i);
    RecordRead(b, Start(entries, i), entries[i], name);
  }

  lemma Reassemble(s: seq<Byte>, previous: nat, p: nat, length: nat, field: seq<Byte>, after: seq<Byte>)
    requires previous + 8 <= p && p + length <= |s| && |field| == 2
    requires var t := s[..previous + 4] + field + s[previous + 6..]; after == t[..p] + Zeros(length) + t[p + length..]
    ensures after == s[..previous + 4] + field + s[previous + 6..p] + Zeros(length) + s[p + length..]
  {
    hide Zeros;
  }

  // ---------- deleting the first entry ----------

  /** Once the first record has been cleared, the scan stops at its zero length and finds nothing. */
  lemma ClearedFirst(b: seq<Byte>, n: nat, name: seq<Byte>)
    requires n >= 8 && |b| >= n && b[..n] == Zeros(n)
    ensures LookupFrom(b, 0, name) == 0
  {
    assert b[4] == b[..n][4] && b[5] == b[..n][5];
  }

  /** The block's bytes after the deletion of entry `i`. */
  predicate IsRemoval(entries: seq<Entry>, i: nat, after: seq<Byte>) {
    && i < |entries|
    && if i > 0 then after == Serialize(Merged(entries, i))
       else
         && RecordLength(entries[0]) <= |Serialize(entries)|
         && after == Zeros(RecordLength(entries[0])) + Serialize(entries)[RecordLength(entries[0])..]
  }

  /** A name finds what it found before, unless it is the one removed. */
  predicate FoundAfter(entries: seq<Entry>, removed: seq<Byte>, after: seq<Byte>, name: seq<Byte>) {
    LookupFrom(after, 0, name) == if name == removed then 0 else Find(entries, name)
  }

  /**
    * Deletion removes exactly the named entry if and only if no entry before it has the same inode, and it is not
    * the first of several.
    */
  lemma DeleteExactIff(entries: seq<Entry>, i: nat, after: seq<Byte>)
    requires WellFormed(entries) && i < |entries|
    requires IsRemoval(entries, FirstInode(Keys(entries), entries[i].inode), after)
    ensures (forall name :: FoundAfter(entries, entries[i].name, after, name))
       <==> FirstInode(Keys(entries), entries[i].inode) == i && (i > 0 || |entries| == 1)
  {
    hide Serialize, LookupFrom, Find, Merged, Tiled, DistinctNames, FirstInode, Zeros;
    var v := FirstInode(Keys(entries), entries[i].inode);
    KeyAt(entries, i);
    assert v <= i;
    EachFound(entries, i);
    EachFound(entries, v);
    if v > 0 {
      forall name
        ensures FoundAfter(entries, entries[v].name, after, name)
      {
        DeleteRefines(entries, v);
        WholeLookup(after, Merged(entries, v), name);
        FindMerged(entries, v, name);
      }
      if v < i {
        assert FoundAfter(entries, entries[v].name, after, entries[i].name);
        assert !FoundAfter(entries, entries[i].name, after, entries[i].name);
      }
    } else {
      forall name
        ensures LookupFrom(after, 0, name) == 0
      {
        RecordsCleared(entries, after, name);
      }
      if i > 0 {
        assert !FoundAfter(entries, entries[i].name, after, entries[0].name);
      } else if |entries| == 1 {
        forall name
          ensures FoundAfter(entries, entries[0].name, after, name)
        {
          if name != entries[0].name { FindOnly(entries, name); }
        }
      } else {
        EachFound(entries, 1);
        assert !FoundAfter(entries, entries[0].name, after, entries[1].name);
      }
    }
  }

  /** Every entry is found under its own name, and the names differ. */
  lemma EachFound(entries: seq<Entry>, i: nat)
    requires WellFormed(entries) && i < |entries|
    ensures Find(entries, entries[i].name) == entries[i].inode != 0
    ensures forall j :: 0 <= j < |entries| && j != i ==> entries[j].name != entries[i].name
  {
    hide Serialize, Find;
    KeyAt(entries, i);
    assert Keys(entries)[i] in Keys(entries);
    FindKey(entries, entries[i].name);
    forall j | 0 <= j < |entries| && j != i
      ensures entries[j].name != entries[i].name
    {
      KeyAt(entries, j);
    }
  }

  lemma RecordsCleared(entries: seq<Entry>, after: seq<Byte>, name: seq<Byte>)
    requires IsRemoval(entries, 0, after)
    ensures LookupFrom(after, 0, name) == 0
  {
    hide Serialize, LookupFrom;
    ClearedFirst(after, RecordLength(entries[0]), name);
  }

  /** A new root directory: both dot entries have the root's inode. */
  function RootBlock(): seq<Entry> {
    [Entry(2, 2, [0x2E], Zeros(3)), Entry(2, 2, [0x2E, 0x2E], Zeros(BLOCK_SIZE - 12 - 10))]
  }

  /** In the root, deleting `..` clears the record of `.`, and with it the whole directory. */
  lemma RootLosesAll(after: seq<Byte>)
    requires IsRemoval(RootBlock(), Victim(Keys(RootBlock()), [0x2E, 0x2E]), after)
    ensures WellFormed(RootBlock()) && Find(RootBlock(), [0x2E]) == 2
    ensures forall name :: LookupFrom(after, 0, name) == 0
  {
    hide LookupFrom;
    var root := RootBlock();
    RootTiles();
    assert Keys(root)[0] == Key(2, 2, [0x2E]) && Keys(root)[1] == Key(2, 2, [0x2E, 0x2E]);
    assert FirstInode(Keys(root), 2) == 0;
    assert [0x2E] != [0x2E, 0x2E];
    assert Keys(root)[0].name != [0x2E, 0x2E];
    assert Position(Keys(root), [0x2E, 0x2E]) == 1;
    forall name ensures LookupFrom(after, 0, name) == 0 { RecordsCleared(root, after, name); }
  }

  lemma RootTiles()
    ensures |Serialize(RootBlock())| == BLOCK_SIZE
  {
    hide Zeros, RecordBytes;
    var root := RootBlock();
    OneRecord(root[1]);
    assert root[1..] == [root[1]];
  }

  /** A name finds the inode of its key, or 0 without one. */
  lemma FindKey(entries: seq<Entry>, name: seq<Byte>)
    requires WellFormed(entries)
    ensures Find(entries, name) == 0 ==> forall k :: k in Keys(entries) ==> k.name != name
    ensures forall k :: k in Keys(entries) && k.name == name ==> Find(entries, name) == k.inode
    ensures Find(entries, name) != 0 ==> exists k :: k in Keys(entries) && k.name == name
  {
    hide Serialize, Find;
    FindAtPosition(entries, name);
    var keys := Keys(entries);
    var i := Position(keys, name);
    if i < |entries| { KeyAt(entries, i); }
    forall k | k in keys && k.name == name
      ensures i < |keys| && k == keys[i]
    {
      var j :| 0 <= j < |keys| && keys[j] == k;
      assert !(i < j && keys[i].name == keys[j].name);
    }
  }

  lemma FindMerged(entries: seq<Entry>, i: nat, name: seq<Byte>)
    requires WellFormed(entries) && 0 < i < |entries|
    ensures Find(Merged(entries, i), name) == if name == entries[i].name then 0 else Find(entries, name)
  {
    hide Serialize, Merged, Find, WellFormed;
    DeleteRefines(entries, i);
    FindKey(entries, name);
    FindKey(Merged(entries, i), name);
  }

  lemma FindOnly(entries: seq<Entry>, name: seq<Byte>)
    requires |entries| == 1 && name != entries[0].name
    ensures Find(entries, name) == 0
  {
    assert entries[1..] == [];
  }

  // ---------- inserting ----------

  /** The name is not in the directory. */
  predicate IsNew(entries: seq<Entry>, name: seq<Byte>) {
    forall k :: 0 <= k < |Keys(entries)| ==> Keys(entries)[k].name != name
  }

  /** The records end where the block ends, and only there. */
  lemma StartEnd(entries: seq<Entry>, i: nat)
    requires Tiled(entries) && i <= |entries|
    ensures Start(entries, i) <= BLOCK_SIZE && (Start(entries, i) == BLOCK_SIZE <==> i == |entries|)
  {
    hide Serialize, RecordBytes, Aligned, Keys, Live;
    if i < |entries| {
      SplitAt(entries, i);
    } else {
      assert entries[..i] == entries;
    }
  }

  /** An insertion keeps the block well formed exactly when the inode is live and the name is new. */
  lemma InsertKeepsIff(entries: seq<Entry>, inode: Word, fileType: Byte, name: seq<Byte>)
    requires WellFormed(entries) && entries != [] && HasRoom(entries, |name|) && |name| < 0x100
    ensures WellFormed(Extended(entries, inode, fileType, name)) <==> inode != 0 && IsNew(entries, name)
  {
    hide Tiled, HasRoom, Extended, Keys;
    ExtendedTiled(entries, inode, fileType, name);
    ExtendedKeys(entries, inode, fileType, name);
    var keys, n := Keys(Extended(entries, inode, fileType, name)), |Keys(entries)|;
    assert keys[n] == Key(inode, fileType, name);
    assert forall k :: 0 <= k < n ==> keys[k] == Keys(entries)[k];
  }

  /** A name that does not fit the length byte is never found. */
  lemma {:induction false} LongNameLost(b: seq<Byte>, p: nat, name: seq<Byte>)
    requires |name| >= 0x100
    ensures LookupFrom(b, p, name) == 0
    decreases BLOCK_SIZE - p
  {
    hide InodeAt, LengthAt;
    if p < BLOCK_SIZE && LengthAt(b, p) != 0 { LongNameLost(b, p + LengthAt(b, p), name); }
  }

  /** A created file is found under its name exactly when the name fits the length byte and was not in use. */
  lemma CreateFindsIff(entries: seq<Entry>, inode: Word, name: seq<Byte>)
    requires Tiled(entries) && inode != 0 && HasRoom(entries, |name| % 0x100)
    ensures var after := Extended(entries, inode, 1, name[..|name| % 0x100]);
            LookupFrom(Serialize(after), 0, name) == inode
            <==> |name| < 0x100 && (Find(entries, name) == 0 || Find(entries, name) == inode)
  {
    hide Tiled, HasRoom, Extended, LookupFrom, Serialize, Find, Keys, KeyNamed;
    LiveAt(entries, 0);
    if |name| < 0x100 {
      assert name[..|name| % 0x100] == name;
      InDestination(entries, Key(inode, 1, name), name);
      NamedInode(entries, name);
      LiveNamed(entries, name);
    } else {
      LongNameLost(Serialize(Extended(entries, inode, 1, name[..|name| % 0x100])), 0, name);
    }
  }

  lemma LiveNamed(entries: seq<Entry>, name: seq<Byte>)
    requires Tiled(entries)
    ensures match KeyNamed(Keys(entries), name) case Some(k) => k.inode != 0 case None => true
  {
    hide Serialize, Aligned;
  }

  lemma LastNameLength(b: seq<Byte>, entries: seq<Entry>)
    requires b == Serialize(entries) && Tiled(entries)
    ensures entries != [] && NameLengthAt(b, Start(entries, |entries| - 1)) == |entries[|entries| - 1].name|
  {
    hide Serialize, RecordBytes, NameLengthAt;
    var i := |entries| - 1;
    KeyAt(entries, i);
    RecordStands(b, entries, i);
    RecordRead(b, Start(entries, i), entries[i], entries[i].name);
    assert NameAt(b, Start(entries, i), entries[i].name);
  }

  /** The bytes after cutting the last record and writing a new one into the rest of it. */
  lemma ExtendedBytes(entries: seq<Entry>, inode: Word, fileType: Byte, name: seq<Byte>)
    requires entries != [] && HasRoom(entries, |name|) && |name| < 0x100
    ensures var last, p := entries[|entries| - 1], Start(entries, |entries| - 1);
            var s, l := Serialize(entries), RecordLength(last);
            var kept, needed := MinLength(|last.name|), MinLength(|name|);
            && p + l == |s| && 8 <= kept && 8 + |name| <= needed && kept + needed <= l
            && Serialize(Extended(entries, inode, fileType, name))
               == s[..p + 4] + Bytes16(kept) + s[p + 6..p + kept] + (HeaderOf(inode, l - kept, |name|, fileType) + name)
                  + Zeros(needed - 8 - |name|) + s[p + kept + needed..]
  {
    hide Serialize, RecordBytes, Bytes16, Zeros, HeaderOf, MinLength, Extended;
    var n := |entries| - 1;
    var last, a := entries[n], entries[..n];
    var kept, needed := MinLength(|last.name|), MinLength(|name|);
    MinLengthFacts(|last.name|);
    MinLengthFacts(|name|);
    var x := Extended(entries, inode, fileType, name);
    ExtendedParts(entries, inode, fileType, name);
    SplitAt(entries, n);
    NothingSerialized();
    TwoRecords(a, x[n], x[n + 1], []);
    CutRecord(last, kept);
    FieldSize(kept);
    NewRecord(last, kept, needed, inode, fileType, name);
    JoinCut(Serialize(a), RecordBytes(last), kept, needed, Bytes16(kept),
      HeaderOf(inode, RecordLength(last) - kept, |name|, fileType) + name,
            Zeros(needed - 8 - |name|), RecordBytes(x[n]), RecordBytes(x[n + 1]));
  }

  lemma ExtendedParts(entries: seq<Entry>, inode: Word, fileType: Byte, name: seq<Byte>)
    requires entries != [] && HasRoom(entries, |name|)
    ensures var x, n, last := Extended(entries, inode, fileType, name), |entries| - 1, entries[|entries| - 1];
            var kept, needed := MinLength(|last.name|), MinLength(|name|);
            && |x| == n + 2 && x == entries[..n] + [x[n]] + [x[n + 1]] + [] && entries[n + 1..] == []
            && 8 + |last.name| <= kept && 8 + |name| <= needed && kept + needed <= RecordLength(last)
            && x[n] == last.(slack := last.slack[..kept - 8 - |last.name|])
            && x[n + 1]
               == Entry(inode, fileType, name,
                 Zeros(needed - 8 - |name|) + last.slack[kept - 8 - |last.name|..][needed..])
  {
    hide Zeros;
    MinLengthFacts(|entries[|entries| - 1].name|);
    MinLengthFacts(|name|);
  }

  lemma CutRecord(e: Entry, kept: nat)
    requires 8 + |e.name| <= kept <= RecordLength(e)
    ensures RecordBytes(e.(slack := e.slack[..kept - 8 - |e.name|]))
            == RecordBytes(e)[..4] + Bytes16(kept) + RecordBytes(e)[6..kept]
  {
    hide Le32;
    var cut := e.(slack := e.slack[..kept - 8 - |e.name|]);
    var rest := [Low(|e.name|), e.fileType] + e.name;
    assert RecordBytes(e) == Le32(e.inode) + Bytes16(RecordLength(e)) + rest + e.slack;
    assert RecordBytes(cut) == Le32(e.inode) + Bytes16(kept) + rest + cut.slack;
    assert RecordBytes(e)[6..kept] == rest + cut.slack;
  }

  lemma NewRecord(last: Entry, kept: nat, needed: nat, inode: Word, fileType: Byte, name: seq<Byte>)
    requires 8 + |last.name| <= kept && 8 + |name| <= needed && kept + needed <= RecordLength(last)
    ensures var rest := last.slack[kept - 8 - |last.name|..];
            RecordBytes(Entry(inode, fileType, name, Zeros(needed - 8 - |name|) + rest[needed..]))
            == HeaderOf(inode, RecordLength(last) - kept, |name|, fileType) + name + Zeros(needed - 8 - |name|)
              + RecordBytes(last)[kept + needed..]
  {
    hide HeaderOf, Zeros;
    var rest := last.slack[kept - 8 - |last.name|..];
    var h := HeaderOf(inode, RecordLength(last) - kept, |name|, fileType);
    assert RecordBytes(last)[kept + needed..] == rest[needed..];
    assert h + name + (Zeros(needed - 8 - |name|) + rest[needed..])
           == h + name + Zeros(needed - 8 - |name|) + rest[needed..];
  }

  lemma JoinCut(a: seq<Byte>, r: seq<Byte>, kept: nat, needed: nat, field: seq<Byte>, h: seq<Byte>, pad: seq<Byte>,
                cut: seq<Byte>, new_: seq<Byte>)
    requires 8 <= kept && kept + needed <= |r| && |field| == 2
    requires cut == r[..4] + field + r[6..kept] && new_ == h + pad + r[kept + needed..]
    ensures var s, p := a + r + [], |a|;
            a + cut + (new_ + []) == s[..p + 4] + field + s[p + 6..p + kept] + h + pad + s[p + kept + needed..]
  {
    var s, p := a + r + [], |a|;
    assert s[..p + 4] == a + r[..4] && s[p + 6..p + kept] == r[6..kept] && s[p + kept + needed..] == r[kept + needed..];
  }

  lemma Interleave(s: seq<Byte>, p: nat, q: nat, field: seq<Byte>, h: seq<Byte>, pad: nat, after: seq<Byte>)
    requires p + 8 <= q && q + |h| + pad <= |s| && |field| == 2
    requires var t := s[..p + 4] + field + s[p + 6..];
             var u := t[..q] + h + t[q + |h|..];
             after == u[..q + |h|] + Zeros(pad) + u[q + |h| + pad..]
    ensures after == s[..p + 4] + field + s[p + 6..q] + h + Zeros(pad) + s[q + |h| + pad..]
  {
    hide Zeros;
    var t := s[..p + 4] + field + s[p + 6..];
    assert t[..q] == s[..p + 4] + field + s[p + 6..q] && t[q + |h|..] == s[q + |h|..];
  }

  // ---------- moving a file ----------

  /**
    * `moveFile` between two directories: nothing happens when the name is unknown or has no type, or when the
    * destination has no room; otherwise the entry is inserted there and deleted here.
    */
  method Move(source: Directory, destination: Directory, name: seq<Byte>) returns (moved: bool, ghost i: nat)
    requires source != destination && source.bytes != destination.bytes
    requires source.Valid() && destination.Valid() && |name| < 0x100
    modifies source, source.bytes, destination, destination.bytes
    ensures i == Position(Keys(old(source.entries)), name)
    ensures moved
            == (i < |old(source.entries)| && old(source.entries)[i].fileType != 0
              && old(HasRoom(destination.entries, |name|)))
    ensures !moved ==> source.Valid() && destination.Valid()
                       && source.entries == old(source.entries) && destination.entries == old(destination.entries)
    ensures moved ==> var e := old(source.entries)[i];
              && destination.bytes[..] == Serialize(destination.entries)
              && destination.entries == Extended(old(destination.entries), e.inode, e.fileType, name)
              && var v := Victim(Keys(old(source.entries)), name);
                 && destination.Valid() && IsRemoval(old(source.entries), v, source.bytes[..])
                 && (v > 0 ==> source.Valid() && source.entries == Merged(old(source.entries), v))
  {
    hide Serialize, Tiled, Extended, HasRoom, Merged, Position, FirstInode, Find;
    moved := false;
    i := Position(Keys(source.entries), name);
    FindAtPosition(source.entries, name);
    LiveAt(source.entries, i);
    LiveAt(destination.entries, 0);
    var inode := source.Lookup(name);
    if inode == 0 { return; }
    var fileType := source.TypeOf(inode, name);
    if fileType == 0 { return; }
    moved := destination.Insert(inode, fileType, name);
    if moved {
      ghost var gone := source.Delete(name);
    }
  }

  /**
    * `moveFile` within one directory: the entry is inserted a second time, then the first entry with its inode is
    * deleted.
    */
  method MoveWithin(directory: Directory, name: seq<Byte>) returns (moved: bool, ghost i: nat)
    requires directory.Valid() && |name| < 0x100
    modifies directory, directory.bytes
    ensures i == Position(Keys(old(directory.entries)), name)
    ensures moved == (i < |old(directory.entries)| && old(directory.entries)[i].fileType != 0
                      && old(HasRoom(directory.entries, |name|)))
    ensures !moved ==> directory.Valid() && directory.entries == old(directory.entries)
    ensures moved ==> IsMovedWithin(old(directory.entries), i, directory.bytes[..])
  {
    hide Serialize, Tiled, Extended, HasRoom, Merged, Position, FirstInode, Find;
    ghost var before := directory.entries;
    moved := false;
    i := Position(Keys(before), name);
    FindAtPosition(before, name);
    LiveAt(before, i);
    LiveAt(before, 0);
    var inode := directory.Lookup(name);
    if inode == 0 { return; }
    KeyAt(before, i);
    var fileType := directory.TypeOf(inode, name);
    if fileType == 0 { return; }
    moved := directory.Insert(inode, fileType, name);
    if moved {
      VictimWithin(before, i, name);
      ghost var gone := directory.Delete(name);
    }
  }

  /** The block's bytes after entry `i` has been moved within the directory. */
  predicate IsMovedWithin(entries: seq<Entry>, i: nat, after: seq<Byte>) {
    && i < |entries| && entries != [] && HasRoom(entries, |entries[i].name|)
    && var e := entries[i];
       IsRemoval(Extended(entries, e.inode, e.fileType, e.name), FirstInode(Keys(entries), e.inode), after)
  }

  /** The second entry does not change which one is deleted. */
  lemma VictimWithin(entries: seq<Entry>, i: nat, name: seq<Byte>)
    requires entries != [] && HasRoom(entries, |name|) && i == Position(Keys(entries), name) < |entries|
    ensures var e := entries[i];
            && Victim(Keys(Extended(entries, e.inode, e.fileType, name)), name)
               == FirstInode(Keys(entries), e.inode) <= i
            && |Extended(entries, e.inode, e.fileType, name)| == |entries| + 1 && e.name == name
  {
    hide HasRoom, Extended, Keys, Position, FirstInode;
    var e := entries[i];
    KeyAt(entries, i);
    ExtendedKeys(entries, e.inode, e.fileType, name);
    var keys, all := Keys(entries), Keys(Extended(entries, e.inode, e.fileType, name));
    assert forall k :: 0 <= k < |keys| ==> all[k] == keys[k];
    assert Position(all, name) == i;
    var f := FirstInode(keys, e.inode);
    assert f <= i;
  }

  /**
    * A move within one directory leaves every name as it was exactly when no entry before the moved one has its
    * inode, and it is not the first entry.
    */
  lemma MoveWithinIff(entries: seq<Entry>, i: nat, after: seq<Byte>)
    requires WellFormed(entries) && IsMovedWithin(entries, i, after)
    ensures (forall name :: LookupFrom(after, 0, name) == Find(entries, name))
       <==> FirstInode(Keys(entries), entries[i].inode) == i && i > 0
  {
    hide Serialize, LookupFrom, Find, Extended, HasRoom, Merged, Keys, KeyNamed, FirstInode, Zeros, Tiled,
         DistinctNames;
    var e, keys := entries[i], Keys(entries);
    KeyAt(entries, i);
    var v := FirstInode(keys, e.inode);
    assert v <= i;
    EachFound(entries, i);
    EachFound(entries, v);
    var x := Extended(entries, e.inode, e.fileType, e.name);
    KeyAt(entries, v);
    ExtendedKeys(entries, e.inode, e.fileType, e.name);
    if v > 0 {
      forall name
        ensures LookupFrom(after, 0, name) == if v < i && name == entries[v].name then 0 else Find(entries, name)
      {
        FoundWithin(entries, i, v, name);
      }
      if v < i { assert LookupFrom(after, 0, entries[v].name) == 0; }
    } else {
      RecordsCleared(x, after, e.name);
    }
  }

  /** What a name finds after entry `v` of the extended block has been merged away. */
  lemma FoundWithin(entries: seq<Entry>, i: nat, v: nat, name: seq<Byte>)
    requires WellFormed(entries) && 0 < v <= i < |entries| && HasRoom(entries, |entries[i].name|)
    ensures var e := entries[i];
            LookupFrom(Serialize(Merged(Extended(entries, e.inode, e.fileType, e.name), v)), 0, name)
            == if v < i && name == entries[v].name then 0 else Find(entries, name)
  {
    hide Serialize, LookupFrom, Find, Extended, HasRoom, Merged, Keys, KeyNamed, Live, Aligned;
    var e, keys := entries[i], Keys(entries);
    KeyAt(entries, i);
    KeyAt(entries, v);
    LiveAt(entries, i);
    var key := Key(e.inode, e.fileType, e.name);
    LiveNames(entries, i);
    ExtendedTiled(entries, e.inode, e.fileType, e.name);
    ExtendedKeys(entries, e.inode, e.fileType, e.name);
    var x := Extended(entries, e.inode, e.fileType, e.name);
    MergedTiled(x, v);
    MergedKeys(x, v);
    assert Keys(x)[..v] + Keys(x)[v + 1..] == (keys[..v] + keys[v + 1..]) + [key];
    PositionAppend(keys[..v] + keys[v + 1..], key, name);
    NamedWithout(keys, v, name);
    NamedAt(keys, i);
    WholeLookup(Serialize(Merged(x, v)), Merged(x, v), name);
    NamedInode(Merged(x, v), name);
    NamedInode(entries, name);
  }

  lemma LiveNames(entries: seq<Entry>, i: nat)
    requires Tiled(entries) && i < |entries|
    ensures |entries[i].name| < 0x100
  {
    hide Serialize, Aligned;
    KeyAt(entries, i);
  }

  lemma NamedAt(keys: seq<Key>, i: nat)
    requires DistinctNames(keys) && i < |keys|
    ensures KeyNamed(keys, keys[i].name) == Some(keys[i])
  {
    hide Position;
  }

  lemma NamedWithout(keys: seq<Key>, j: nat, name: seq<Byte>)
    requires DistinctNames(keys) && j < |keys|
    ensures KeyNamed(keys[..j] + keys[j + 1..], name) == if name == keys[j].name then None else KeyNamed(keys, name)
  {
    hide Position;
    var rest := keys[..j] + keys[j + 1..];
    assert forall k :: 0 <= k < |rest| ==> rest[k] == keys[if k < j then k else k + 1];
    var p := Position(keys, name);
    if name != keys[j].name && p < |keys| {
      assert rest[if p < j then p else p - 1] == keys[p];
    }
  }

  /** The first entry of that name. */
  function KeyNamed(keys: seq<Key>, name: seq<Byte>): Option<Key> {
    if Position(keys, name) < |keys| then Some(keys[Position(keys, name)]) else None
  }

  /**
    * The file has moved: its name finds the same inode and type in the destination and nothing in the source, and
    * every other name finds in both blocks what it found before.
    */
  ghost predicate Conserved(source: seq<Entry>, destination: seq<Entry>, key: Key, after: seq<Byte>,
                            destination': seq<Entry>) {
    && KeyNamed(Keys(destination'), key.name) == Some(key)
    && LookupFrom(Serialize(destination'), 0, key.name) == key.inode
    && LookupFrom(after, 0, key.name) == 0
    && forall name :: name != key.name ==> OtherName(source, destination, name, after, destination')
  }

  predicate OtherName(source: seq<Entry>, destination: seq<Entry>, name: seq<Byte>, after: seq<Byte>,
                      destination': seq<Entry>) {
    && KeyNamed(Keys(destination'), name) == KeyNamed(Keys(destination), name)
    && LookupFrom(Serialize(destination'), 0, name) == LookupFrom(Serialize(destination), 0, name)
    && LookupFrom(after, 0, name) == LookupFrom(Serialize(source), 0, name)
  }

  /**
    * `moveFile` conserves the file exactly when the destination does not already use the name for something else,
    * no entry before it in the source has its inode, and it is not the first of several there.
    */
  lemma MoveConservesIff(source: seq<Entry>, destination: seq<Entry>, i: nat, after: seq<Byte>)
    requires WellFormed(source) && Tiled(destination) && i < |source|
    requires IsRemoval(source, FirstInode(Keys(source), source[i].inode), after)
    requires HasRoom(destination, |source[i].name|)
    ensures var key := Keys(source)[i];
            var destination' := Extended(destination, key.inode, key.fileType, key.name);
            Conserved(source, destination, key, after, destination')
            <==> && (var used := KeyNamed(Keys(destination), key.name); used == None || used == Some(key))
                 && FirstInode(Keys(source), key.inode) == i && (i > 0 || |source| == 1)
  {
    hide Serialize, LookupFrom, Extended, HasRoom, Find, KeyNamed, OtherName, IsRemoval, FirstInode, Keys, Tiled,
         DistinctNames;
    KeyAt(source, i);
    LiveAt(destination, 0);
    LiveAt(source, i);
    LiveNames(source, i);
    var key := Keys(source)[i];
    var destination' := Extended(destination, key.inode, key.fileType, key.name);
    InDestination(destination, key, key.name);
    DeleteExactIff(source, i, after);
    assert FoundAfter(source, key.name, after, key.name) <==> LookupFrom(after, 0, key.name) == 0;
    hide FoundAfter;
    forall name | name != key.name
      ensures OtherName(source, destination, name, after, destination') <==> FoundAfter(source, key.name, after, name)
    {
      InDestination(destination, key, name);
      OthersUnchanged(source, destination, key, name, after, destination');
    }
  }

  /** What a name finds in the destination after the insertion. */
  lemma InDestination(destination: seq<Entry>, key: Key, name: seq<Byte>)
    requires Tiled(destination) && HasRoom(destination, |key.name|) && key.inode != 0 && |key.name| < 0x100
    ensures var destination' := Extended(destination, key.inode, key.fileType, key.name);
            var found := KeyNamed(Keys(destination), name);
            && KeyNamed(Keys(destination'), name) == (if found == None && name == key.name then Some(key) else found)
            && LookupFrom(Serialize(destination'), 0, name)
               == (match KeyNamed(Keys(destination'), name) case Some(k) => k.inode case None => 0)
            && LookupFrom(Serialize(destination), 0, name) == (match found case Some(k) => k.inode case None => 0)
  {
    hide Serialize, LookupFrom, Extended, HasRoom, Find, Keys, Aligned;
    var destination' := Extended(destination, key.inode, key.fileType, key.name);
    ExtendedKeys(destination, key.inode, key.fileType, key.name);
    ExtendedTiles(destination, key.inode, key.fileType, key.name);
    PositionAppend(Keys(destination), key, name);
    LiveKeys(destination);
    LiveKeys(destination');
    NamedInode(destination, name);
    NamedInode(destination', name);
    LookupIsFind(Serialize(destination), 0, destination, name);
    LookupIsFind(Serialize(destination'), 0, destination', name);
  }

  lemma LiveKeys(entries: seq<Entry>)
    requires forall k :: k in Keys(entries) ==> k.inode != 0 && |k.name| < 0x100
    ensures forall e :: e in entries ==> e.inode != 0 && |e.name| < 0x100
  {
    forall e | e in entries
      ensures e.inode != 0 && |e.name| < 0x100
    {
      var k :| 0 <= k < |entries| && entries[k] == e;
      assert Keys(entries)[k] in Keys(entries);
    }
  }

  lemma {:induction false} PositionAppend(keys: seq<Key>, key: Key, name: seq<Byte>)
    ensures KeyNamed(keys + [key], name)
         == if KeyNamed(keys, name) == None && name == key.name then Some(key) else KeyNamed(keys, name)
  {
    if keys != [] {
      assert (keys + [key])[1..] == keys[1..] + [key];
      PositionAppend(keys[1..], key, name);
    }
  }

  lemma NamedInode(entries: seq<Entry>, name: seq<Byte>)
    ensures Find(entries, name) == match KeyNamed(Keys(entries), name) case Some(k) => k.inode case None => 0
  {
    hide Find;
    FindAtPosition(entries, name);
    if Position(Keys(entries), name) < |entries| { KeyAt(entries, Position(Keys(entries), name)); }
  }

  lemma OthersUnchanged(source: seq<Entry>, destination: seq<Entry>, key: Key, name: seq<Byte>, after: seq<Byte>,
                        destination': seq<Entry>)
    requires Tiled(source) && name != key.name
    requires KeyNamed(Keys(destination'), name) == KeyNamed(Keys(destination), name)
    requires LookupFrom(Serialize(destination'), 0, name) == LookupFrom(Serialize(destination), 0, name)
    ensures OtherName(source, destination, name, after, destination') <==> FoundAfter(source, key.name, after, name)
  {
    hide Serialize, LookupFrom, Find, KeyNamed, Keys, Tiled;
    WholeLookup(Serialize(source), source, name);
  }

  /** A moved file is under the same inode and type in the destination only; no other name changes anywhere. */
  lemma MoveConserves(source: seq<Entry>, destination: seq<Entry>, i: nat, name: seq<Byte>)
    requires WellFormed(source) && WellFormed(destination)
    requires 0 < i < |source| && source[i].name == name && HasRoom(destination, |name|)
    requires IsNew(destination, name)
    ensures var source', destination' := Merged(source, i),
            Extended(destination, source[i].inode, source[i].fileType, name);
            && WellFormed(source') && WellFormed(destination')
            && Find(destination', name) == source[i].inode && Find(source', name) == 0
            && (forall k :: k in Keys(destination')
                  <==> k in Keys(destination) || k == Key(source[i].inode, source[i].fileType, name))
            && (forall k :: k in Keys(source') <==> k in Keys(source) && k.name != name)
                  && multiset(Keys(source')) + multiset(Keys(destination'))
               == multiset(Keys(source)) + multiset(Keys(destination))
  {
    hide Serialize, Merged, Extended, HasRoom, Find, Tiled, DistinctNames, Keys;
    var e := source[i];
    KeyAt(source, i);
    LiveAt(destination, 0);
    LiveAt(source, i);
    LiveNames(source, i);
    NewKeys(destination, name);
    DeleteRefines(source, i);
    CreateRefines(destination, e.inode, e.fileType, name);
    FindMerged(source, i, name);
    var destination' := Extended(destination, e.inode, e.fileType, name);
    FindKey(destination', name);
    assert Key(e.inode, e.fileType, name) in Keys(destination');
    MergedKeys(source, i);
    ExtendedKeys(destination, e.inode, e.fileType, name);
    assert Keys(source) == Keys(source)[..i] + [Keys(source)[i]] + Keys(source)[i + 1..];
  }

  lemma NewKeys(entries: seq<Entry>, name: seq<Byte>)
    requires IsNew(entries, name)
    ensures forall k :: k in Keys(entries) ==> k.name != name
  {
    hide Keys;
  }
}
