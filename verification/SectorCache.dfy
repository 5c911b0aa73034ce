/** The disk cache: fully associative, least recently used by a 32-bit time stamp, flushed on every write. */
module SectorCache {
  import opened Words

  const SECTOR_SIZE: nat := 0x200
  const SECTORS_PER_BLOCK: nat := 4
  const EXT2_SECTOR_START: nat := 0x200
  const MAX_TIME: Word := 0xFFFF_FFFF

  type Sector = s: seq<Byte> | |s| == SECTOR_SIZE witness ZeroSector()

  function ZeroSector(): (s: seq<Byte>)
    ensures |s| == SECTOR_SIZE
  {
    seq(SECTOR_SIZE, i => 0)
  }

  datatype CacheLine = CacheLine(sector: Word, valid: bool, accessTime: Word)

  const EMPTY: CacheLine := CacheLine(0, false, 0)

  /** The disk itself; sectors never written read as zero. */
  function OnDisk(disk: map<Word, Sector>, sector: Word): Sector {
    if sector in disk then disk[sector] else ZeroSector()
  }

  // ---------- what the cache means ----------

  /** Every valid line holds its disk sector, and no sector has two valid lines. */
  predicate Coherent(lines: seq<CacheLine>, contents: seq<Sector>, disk: map<Word, Sector>) {
    && |lines| == |contents|
    && (forall i :: 0 <= i < |lines| && lines[i].valid ==> contents[i] == OnDisk(disk, lines[i].sector))
    && (forall i, j :: 0 <= i < j < |lines| && lines[i].valid && lines[j].valid ==> lines[i].sector != lines[j].sector)
  }

  predicate Holds(lines: seq<CacheLine>, i: nat, sector: Word) {
    i < |lines| && lines[i].valid && lines[i].sector == sector
  }

  predicate Misses(lines: seq<CacheLine>, sector: Word) {
    forall i :: 0 <= i < |lines| ==> !Holds(lines, i, sector)
  }

  /** The line a miss fills: the first invalid one, or the valid one with the smallest time stamp. */
  predicate IsVictim(lines: seq<CacheLine>, v: nat) {
    && v < |lines|
    && if exists i :: 0 <= i < |lines| && !lines[i].valid then
         !lines[v].valid && forall i :: 0 <= i < v ==> lines[i].valid
       else
         forall i :: 0 <= i < |lines| ==> lines[v].accessTime <= lines[i].accessTime
  }

  // ---------- recency ----------

  predicate NoRepeats<T(==)>(s: seq<T>) {
    forall i, j :: 0 <= i < j < |s| ==> s[i] != s[j]
  }

  /** `order` lists the valid lines from the most to the least recently used, and the time stamps agree. */
  predicate Ordered(lines: seq<CacheLine>, time: Word, order: seq<int>) {
    && NoRepeats(order)
    && (forall k :: 0 <= k < |order|
          ==> 0 <= order[k] < |lines| && lines[order[k]].valid && lines[order[k]].accessTime <= time)
    && (forall i :: 0 <= i < |lines| && lines[i].valid ==> i in order)
    && (forall j, k :: 0 <= j < k < |order| ==> lines[order[j]].accessTime > lines[order[k]].accessTime)
  }

  function SectorAt(lines: seq<CacheLine>, i: int): Word {
    if 0 <= i < |lines| then lines[i].sector else 0
  }

  function SectorsOf(lines: seq<CacheLine>, order: seq<int>): (s: seq<Word>)
    ensures |s| == |order|
    ensures forall k :: 0 <= k < |s| ==> s[k] == SectorAt(lines, order[k])
  {
    if order == [] then [] else [SectorAt(lines, order[0])] + SectorsOf(lines, order[1..])
  }

  function Without<T(==)>(s: seq<T>, x: T): seq<T> {
    if s == [] then [] else if s[0] == x then s[1..] else [s[0]] + Without(s[1..], x)
  }

  /** A list cache of `n` sectors, most recent first, after one read. */
  function Access(recent: seq<Word>, sector: Word, n: nat): seq<Word> {
    if sector in recent then [sector] + Without(recent, sector)
    else if |recent| >= n && n > 0 then [sector] + recent[..n - 1]
    else [sector] + recent
  }

  lemma {:induction false} WithoutMembers<T>(s: seq<T>, x: T)
    requires NoRepeats(s)
    ensures NoRepeats(Without(s, x))
    ensures forall y :: y in Without(s, x) <==> y in s && y != x
    ensures |Without(s, x)| == if x in s then |s| - 1 else |s|
    ensures x !in s ==> Without(s, x) == s
  {
    if s != [] {
      assert s == [s[0]] + s[1..];
      assert NoRepeats(s[1..]);
      assert s[0] !in s[1..];
      WithoutMembers(s[1..], x);
      if s[0] != x { assert NoRepeats([s[0]] + Without(s[1..], x)); }
    }
  }

  /** Removing keeps the order of the rest. */
  lemma {:induction false} WithoutAt<T>(s: seq<T>, x: T, p: nat)
    requires p < |s| && s[p] == x && NoRepeats(s)
    ensures Without(s, x) == s[..p] + s[p + 1..]
  {
    if p > 0 {
      assert NoRepeats(s[1..]);
      assert s[1..][p - 1] == x;
      WithoutAt(s[1..], x, p - 1);
      assert s[0] != x;
      assert s[..p] == [s[0]] + s[1..][..p - 1];
    }
  }

  // ---------- the number of lines ----------

  lemma {:induction false} DistinctBound(order: seq<int>, n: nat)
    requires NoRepeats(order) && forall k :: 0 <= k < |order| ==> 0 <= order[k] < n
    ensures |order| <= n
    decreases n
  {
    if n > 0 {
      hide Without;
      WithoutMembers(order, n - 1);
      var less := Without(order, n - 1);
      forall k | 0 <= k < |less|
        ensures 0 <= less[k] < n - 1
      {
        assert less[k] in less;
        var p :| 0 <= p < |order| && order[p] == less[k];
      }
      DistinctBound(less, n - 1);
    }
  }

  /** With an invalid line the order is shorter than the cache; without one it has every line. */
  lemma OrderLength(lines: seq<CacheLine>, time: Word, order: seq<int>)
    requires Ordered(lines, time, order)
    ensures |order| <= |lines|
    ensures (exists i :: 0 <= i < |lines| && !lines[i].valid) <==> |order| < |lines|
  {
    DistinctBound(order, |lines|);
    if exists i :: 0 <= i < |lines| && !lines[i].valid {
      var i :| 0 <= i < |lines| && !lines[i].valid;
      DistinctBound([i] + order, |lines|);
    } else {
      AllListed(order, |lines|);
    }
  }

  lemma {:induction false} AllListed(order: seq<int>, n: nat)
    requires NoRepeats(order) && forall i :: 0 <= i < n ==> i in order
    ensures |order| >= n
    decreases n
  {
    if n > 0 {
      WithoutMembers(order, n - 1);
      AllListed(Without(order, n - 1), n - 1);
    }
  }

  // ---------- one read keeps the order ----------

  /** The line state after line `i` has been stamped for `sector`. */
  function Stamped(lines: seq<CacheLine>, i: nat, sector: Word, time: Word): seq<CacheLine>
    requires i < |lines|
  {
    lines[i := CacheLine(sector, true, time)]
  }

  /** What is left of the order when line `i` moves to its front. */
  lemma RestOrdered(lines: seq<CacheLine>, time: Word, order: seq<int>, i: int)
    requires Ordered(lines, time, order)
    ensures var rest := Without(order, i);
            && NoRepeats(rest) && (forall k :: 0 <= k < |rest| ==> rest[k] in order && rest[k] != i)
            && (forall x :: x in order && x != i ==> x in rest)
  {
    hide Without;
    WithoutMembers(order, i);
    var rest := Without(order, i);
    assert forall k :: 0 <= k < |rest| ==> rest[k] in rest;
  }

  /** Where two elements of what is left stood before. */
  lemma WithoutIndex<T>(s: seq<T>, x: T, j: nat, k: nat) returns (j': nat, k': nat)
    requires NoRepeats(s) && j < k < |Without(s, x)|
    ensures j' < k' < |s| && s[j'] == Without(s, x)[j] && s[k'] == Without(s, x)[k]
  {
    hide Without, NoRepeats;
    j', k' := j, k;
    WithoutMembers(s, x);
    if x in s {
      var p :| 0 <= p < |s| && s[p] == x;
      WithoutAt(s, x, p);
      j', k' := if j < p then j else j + 1, if k < p then k else k + 1;
    }
  }

  lemma RestDecreasing(lines: seq<CacheLine>, time: Word, order: seq<int>, i: int, j: nat, k: nat)
    requires Ordered(lines, time, order) && j < k < |Without(order, i)|
    requires forall p :: 0 <= p < |Without(order, i)| ==> 0 <= Without(order, i)[p] < |lines|
    ensures lines[Without(order, i)[j]].accessTime > lines[Without(order, i)[k]].accessTime
  {
    hide Without;
    var j', k' := WithoutIndex(order, i, j, k);
  }

  /** Using line `i`, whether it is a hit, a free line or the last of the order. */
  lemma StampOrdered(lines: seq<CacheLine>, time: Word, order: seq<int>, i: nat, sector: Word)
    requires Ordered(lines, time, order) && time < MAX_TIME && i < |lines|
    ensures Ordered(Stamped(lines, i, sector, time + 1), time + 1, [i] + Without(order, i))
  {
    hide Without;
    RestOrdered(lines, time, order, i);
    var rest := Without(order, i);
    var order', lines' := [i] + rest, Stamped(lines, i, sector, time + 1);
    forall k | 0 <= k < |rest|
      ensures lines'[rest[k]] == lines[rest[k]] && lines[rest[k]].valid && lines[rest[k]].accessTime <= time
    {
      var p :| 0 <= p < |order| && order[p] == rest[k];
    }
    forall x | 0 <= x < |lines'| && lines'[x].valid
      ensures x in order'
    {
      if x == i { assert order'[0] == i; } else { assert x in rest; }
    }
    forall j, k | 0 <= j < k < |rest|
      ensures lines[rest[j]].accessTime > lines[rest[k]].accessTime
    {
      RestDecreasing(lines, time, order, i, j, k);
    }
  }

  lemma SectorsAfter(lines: seq<CacheLine>, time: Word, order: seq<int>, i: nat, sector: Word, time': Word)
    requires Ordered(lines, time, order) && i < |lines|
    ensures SectorsOf(Stamped(lines, i, sector, time'), [i] + Without(order, i))
            == [sector] + SectorsOf(lines, Without(order, i))
  {
    hide Without, SectorsOf;
    RestOrdered(lines, time, order, i);
  }

  predicate DistinctSectors(lines: seq<CacheLine>) {
    forall i, j :: 0 <= i < j < |lines| && lines[i].valid && lines[j].valid ==> lines[i].sector != lines[j].sector
  }

  lemma DropFrom(lines: seq<CacheLine>, order: seq<int>, p: nat)
    requires p < |order|
    ensures SectorsOf(lines, order[..p] + order[p + 1..])
            == SectorsOf(lines, order)[..p] + SectorsOf(lines, order)[p + 1..]
  {
    hide SectorsOf;
  }

  lemma HitSectors(lines: seq<CacheLine>, time: Word, order: seq<int>, i: nat, sector: Word)
    requires Ordered(lines, time, order) && DistinctSectors(lines) && Holds(lines, i, sector)
    ensures [sector] + SectorsOf(lines, Without(order, i)) == Access(SectorsOf(lines, order), sector, |lines|)
  {
    hide SectorsOf, Without;
    var s := SectorsOf(lines, order);
    var p :| 0 <= p < |order| && order[p] == i;
    forall j, k | 0 <= j < k < |s|
      ensures s[j] != s[k]
    {
      assert order[j] != order[k];
    }
    WithoutAt(order, i, p);
    WithoutAt(s, sector, p);
    DropFrom(lines, order, p);
  }

  /** An eviction removes the least recently used sector. */
  lemma VictimIsOldest(lines: seq<CacheLine>, time: Word, order: seq<int>, v: nat)
    requires Ordered(lines, time, order) && IsVictim(lines, v) && |order| == |lines|
    ensures order != [] && v == order[|order| - 1]
  {
    OrderLength(lines, time, order);
    assert lines[v].valid;
    var p :| 0 <= p < |order| && order[p] == v;
    var last := lines[order[|order| - 1]];
    assert forall k :: 0 <= k < |order| - 1 ==> lines[order[k]].accessTime > last.accessTime;
  }

  lemma MissSectors(lines: seq<CacheLine>, time: Word, order: seq<int>, v: nat, sector: Word)
    requires Ordered(lines, time, order) && Misses(lines, sector) && IsVictim(lines, v)
    ensures [sector] + SectorsOf(lines, Without(order, v)) == Access(SectorsOf(lines, order), sector, |lines|)
  {
    hide SectorsOf, Without, Ordered, IsVictim;
    var s, n := SectorsOf(lines, order), |lines|;
    NotListed(lines, time, order, sector);
    OrderLength(lines, time, order);
    if |order| < n {
      FreeVictim(lines, time, order, v);
    } else {
      VictimIsOldest(lines, time, order, v);
      OrderDistinct(lines, time, order);
      WithoutAt(order, v, n - 1);
      DropFrom(lines, order, n - 1);
    }
  }

  lemma NotListed(lines: seq<CacheLine>, time: Word, order: seq<int>, sector: Word)
    requires Ordered(lines, time, order) && Misses(lines, sector)
    ensures sector !in SectorsOf(lines, order)
  {
    hide SectorsOf;
    forall k | 0 <= k < |order| ensures SectorsOf(lines, order)[k] != sector { assert !Holds(lines, order[k], sector); }
  }

  lemma OrderDistinct(lines: seq<CacheLine>, time: Word, order: seq<int>)
    requires Ordered(lines, time, order)
    ensures NoRepeats(order)
  {
  }

  /** With an invalid line to fill nothing leaves the order. */
  lemma FreeVictim(lines: seq<CacheLine>, time: Word, order: seq<int>, v: nat)
    requires Ordered(lines, time, order) && IsVictim(lines, v) && |order| < |lines|
    ensures Without(order, v) == order
  {
    OrderLength(lines, time, order);
    WithoutMembers(order, v);
  }

  /** The cache after a read, as list LRU: while the counter has not wrapped, the stamps implement recency. */
  lemma ReadRefines(lines: seq<CacheLine>, time: Word, order: seq<int>, i: nat, sector: Word)
    requires Ordered(lines, time, order) && DistinctSectors(lines) && time < MAX_TIME
    requires Holds(lines, i, sector) || (Misses(lines, sector) && IsVictim(lines, i))
    ensures i < |lines|
    ensures var lines', order' := Stamped(lines, i, sector, time + 1), [i] + Without(order, i);
            Ordered(lines', time + 1, order')
              && SectorsOf(lines', order') == Access(SectorsOf(lines, order), sector, |lines|)
  {
    hide Ordered, SectorsOf, Without, Access, DistinctSectors;
    StampOrdered(lines, time, order, i, sector);
    SectorsAfter(lines, time, order, i, sector, time + 1);
    if Holds(lines, i, sector) {
      HitSectors(lines, time, order, i, sector);
    } else {
      MissSectors(lines, time, order, i, sector);
    }
  }

  /**
    * A read keeps the stamps in the order of use exactly when the counter does not wrap, or when no other line is
    * in use: after a wrap the line just read has the smallest stamp of all.
    */
  lemma StampOrderedIff(lines: seq<CacheLine>, time: Word, order: seq<int>, i: nat, sector: Word)
    requires Ordered(lines, time, order) && i < |lines|
    ensures var time' := Wrap(time + 1);
            Ordered(Stamped(lines, i, sector, time'), time', [i] + Without(order, i))
            <==> time < MAX_TIME || Without(order, i) == []
  {
    hide Without, Wrap;
    if time < MAX_TIME {
      WrapWord(time + 1);
      StampOrdered(lines, time, order, i, sector);
    } else {
      WrapIsModulo(time + 1);
      RestOrdered(lines, time, order, i);
      if Without(order, i) == [] {
        OnlyLine(lines, time, order, i, sector);
      } else {
        NotFirst(Stamped(lines, i, sector, 0), 0, [i] + Without(order, i));
      }
    }
  }

  /** The smallest stamp of all is not the first of two. */
  lemma NotFirst(lines: seq<CacheLine>, time: Word, order: seq<int>)
    requires |order| > 1 && 0 <= order[0] < |lines| && lines[order[0]].accessTime == 0
    ensures !Ordered(lines, time, order)
  {
    if 0 <= order[1] < |lines| { assert lines[order[1]].accessTime >= lines[order[0]].accessTime; }
  }

  lemma OnlyLine(lines: seq<CacheLine>, time: Word, order: seq<int>, i: nat, sector: Word)
    requires Ordered(lines, time, order) && i < |lines| && Without(order, i) == []
    ensures Ordered(Stamped(lines, i, sector, 0), 0, [i])
  {
    hide Without;
    RestOrdered(lines, time, order, i);
    assert [i][0] == i;
  }

  /** Once the counter has wrapped, the newest line can be the one that is evicted. */
  lemma WrapEvictsNewest()
    ensures var lines := [CacheLine(7, true, MAX_TIME), CacheLine(8, true, Wrap(MAX_TIME + 1))];
            IsVictim(lines, 1) && !IsVictim(lines, 0)
  {
    var lines := [CacheLine(7, true, MAX_TIME), CacheLine(8, true, Wrap(MAX_TIME + 1))];
    assert Wrap(0x1_0000_0000) == Wrap(0);
    assert lines[1].accessTime == 0;
  }

  // ---------- whole runs ----------

  /** What a list cache holds after these reads. */
  function AfterReads(run: seq<Word>, n: nat): seq<Word> {
    if run == [] then [] else Access(AfterReads(run[..|run| - 1], n), run[|run| - 1], n)
  }

  /** The distinct sectors of a run, the most recently read first. */
  function Recent(run: seq<Word>): seq<Word> {
    if run == [] then []
    else [run[|run| - 1]] + Without(Recent(run[..|run| - 1]), run[|run| - 1])
  }

  function Take(s: seq<Word>, n: nat): seq<Word> {
    if |s| <= n then s else s[..n]
  }

  lemma {:induction false} RecentDistinct(run: seq<Word>)
    ensures NoRepeats(Recent(run))
    ensures forall x :: x in Recent(run) <==> x in run
  {
    if run != [] {
      hide Without;
      var n := |run| - 1;
      RecentDistinct(run[..n]);
      WithoutMembers(Recent(run[..n]), run[n]);
      assert run == run[..n] + [run[n]];
    }
  }

  /** A read of a sector the list still holds. */
  lemma TakeHit(s: seq<Word>, x: Word, n: nat, p: nat)
    requires NoRepeats(s) && p < n && p < |s| && s[p] == x
    ensures Access(Take(s, n), x, n) == Take([x] + Without(s, x), n)
  {
    hide Without, NoRepeats;
    TakeDistinct(s, n);
    assert Take(s, n)[p] == x;
    WithoutAt(s, x, p);
    WithoutAt(Take(s, n), x, p);
    if n < |s| {
      assert s[..n][p + 1..] == s[p + 1..][..n - p - 1];
      assert [x] + (s[..p] + s[..n][p + 1..]) == ([x] + (s[..p] + s[p + 1..]))[..n];
    }
  }

  /** A read of a sector that has already left the list. */
  lemma TakeDropped(s: seq<Word>, x: Word, n: nat, p: nat)
    requires NoRepeats(s) && 0 < n <= p < |s| && s[p] == x
    ensures Access(Take(s, n), x, n) == Take([x] + Without(s, x), n)
  {
    hide Without;
    assert forall k :: 0 <= k < n ==> s[k] != s[p];
    hide NoRepeats;
    WithoutAt(s, x, p);
    assert x !in s[..n];
    assert ([x] + (s[..p] + s[p + 1..]))[..n] == [x] + s[..n][..n - 1];
  }

  /** A read of a sector that was never read. */
  lemma TakeMiss(s: seq<Word>, x: Word, n: nat)
    requires NoRepeats(s) && n > 0 && x !in s
    ensures Access(Take(s, n), x, n) == Take([x] + Without(s, x), n)
  {
    hide Without, NoRepeats;
    WithoutMembers(s, x);
    assert x !in Take(s, n);
    if n < |s| {
      assert ([x] + s)[..n] == [x] + s[..n][..n - 1];
    } else if n == |s| {
      assert ([x] + s)[..n] == [x] + s[..n - 1];
    }
  }

  lemma TakeDistinct(s: seq<Word>, n: nat)
    requires NoRepeats(s)
    ensures NoRepeats(Take(s, n))
  {
  }

  lemma TakeAccess(s: seq<Word>, x: Word, n: nat)
    requires NoRepeats(s) && n > 0
    ensures Access(Take(s, n), x, n) == Take([x] + Without(s, x), n)
  {
    hide *;
    if x in s {
      var p :| 0 <= p < |s| && s[p] == x;
      if p < n {
        TakeHit(s, x, n, p);
      } else {
        TakeDropped(s, x, n, p);
      }
    } else {
      TakeMiss(s, x, n);
    }
  }

  /** After any run of reads the list cache holds exactly the (at most n) most recently read distinct sectors. */
  lemma {:induction false} HoldsMostRecent(run: seq<Word>, n: nat)
    requires n > 0
    ensures AfterReads(run, n) == Take(Recent(run), n)
  {
    if run != [] {
      hide Without, Access, Take;
      var m := |run| - 1;
      HoldsMostRecent(run[..m], n);
      RecentDistinct(run[..m]);
      TakeAccess(Recent(run[..m]), run[m], n);
    } else {
      assert Take([], n) == [];
    }
  }

  /** What is asked of the cache. */
  datatype CacheOperation = ReadOf(sector: Word) | WriteOf(sector: Word, data: Sector)

  /** The sectors read since the last write. */
  function ReadsSinceWrite(ops: seq<CacheOperation>): seq<Word> {
    if ops == [] then []
    else
      match ops[|ops| - 1]
      case ReadOf(sector) => ReadsSinceWrite(ops[..|ops| - 1]) + [sector]
      case WriteOf(_, _) => []
  }

  /** The disk after these operations. */
  function DiskAfter(disk: map<Word, Sector>, ops: seq<CacheOperation>): map<Word, Sector> {
    if ops == [] then disk
    else
      var before := DiskAfter(disk, ops[..|ops| - 1]);
      match ops[|ops| - 1]
      case ReadOf(_) => before
      case WriteOf(sector, data) => before[sector := data]
  }

  /** What the reads among these operations must return: the disk's bytes at that time. */
  function Answers(disk: map<Word, Sector>, ops: seq<CacheOperation>): seq<Sector> {
    if ops == [] then []
    else
      var n := |ops| - 1;
      match ops[n]
      case ReadOf(sector) => Answers(disk, ops[..n]) + [OnDisk(DiskAfter(disk, ops[..n]), sector)]
      case WriteOf(_, _) => Answers(disk, ops[..n])
  }

  lemma RunStart(disk: map<Word, Sector>, ops: seq<CacheOperation>, n: nat)
    ensures DiskAfter(disk, ops[..0]) == disk && Answers(disk, ops[..0]) == []
            && AfterReads(ReadsSinceWrite(ops[..0]), n) == []
  {
  }

  lemma RunStep(disk: map<Word, Sector>, ops: seq<CacheOperation>, k: nat, n: nat)
    requires k < |ops|
    ensures var a, b, op := ops[..k], ops[..k + 1], ops[k];
            match op
            case ReadOf(sector) =>
              && DiskAfter(disk, b) == DiskAfter(disk, a)
                 && Answers(disk, b) == Answers(disk, a) + [OnDisk(DiskAfter(disk, a), sector)]
              && AfterReads(ReadsSinceWrite(b), n) == Access(AfterReads(ReadsSinceWrite(a), n), sector, n)
            case WriteOf(sector, data) =>
              && DiskAfter(disk, b) == DiskAfter(disk, a)[sector := data] && Answers(disk, b) == Answers(disk, a)
              && AfterReads(ReadsSinceWrite(b), n) == []
  {
    hide OnDisk, Access;
    assert ops[..k + 1][..k] == ops[..k];
  }

  // ---------- the cache itself ----------

  /** The sector numbers of a block. */
  function BlockSector(block: Word, x: nat): Word {
    Wrap(block * SECTORS_PER_BLOCK + EXT2_SECTOR_START + x)
  }

  /** A block as it stands on the disk. */
  function BlockOnDisk(disk: map<Word, Sector>, block: Word): seq<Byte> {
    OnDisk(disk, BlockSector(block, 0)) + OnDisk(disk, BlockSector(block, 1))
    + OnDisk(disk, BlockSector(block, 2)) + OnDisk(disk, BlockSector(block, 3))
  }

  class DiskCache {
    var disk: map<Word, Sector>
    const lines: array<CacheLine>
    const contents: array<Sector>
    var time: Word
    var hits: Word
    var misses: Word
    ghost var order: seq<int>

    ghost predicate Valid()
      reads this, lines, contents
    {
      lines.Length > 0 && Coherent(lines[..], contents[..], disk)
    }

    /** While the counter has not wrapped: the sectors held, the most recently read first. */
    ghost predicate Fresh()
      reads this, lines
    {
      Ordered(lines[..], time, order)
    }

    ghost function Held(): seq<Word>
      reads this, lines
    {
      SectorsOf(lines[..], order)
    }

    constructor (size: nat, disk: map<Word, Sector>)
      requires size > 0
      ensures Valid() && Fresh() && Held() == [] && fresh(lines) && fresh(contents)
      ensures this.disk == disk && lines.Length == size && time == 0 && hits == 0 && misses == 0
    {
      this.disk := disk;
      lines := new CacheLine[size](i => EMPTY);
      contents := new Sector[size](i => ZeroSector());
      time, hits, misses, order := 0, 0, 0, [];
    }

    method FindLine(sector: Word) returns (found: bool, line: nat)
      requires Valid()
      ensures found ==> Holds(lines[..], line, sector)
      ensures !found ==> Misses(lines[..], sector)
    {
      line := 0;
      while line < lines.Length
        invariant line <= lines.Length
        invariant forall i :: 0 <= i < line ==> !Holds(lines[..], i, sector)
      {
        if lines[line].valid && lines[line].sector == sector { return true, line; }
        line := line + 1;
      }
      found := false;
    }

    method FindVictim() returns (line: nat)
      requires Valid()
      ensures IsVictim(lines[..], line)
    {
      line := 0;
      while line < lines.Length
        invariant line <= lines.Length
        invariant forall i :: 0 <= i < line ==> lines[i].valid
      {
        if !lines[line].valid {
          assert !lines[..][line].valid;
          return;
        }
        line := line + 1;
      }
      line := OldestLine();
      assert forall i :: 0 <= i < |lines[..]| ==> lines[..][i].valid;
    }

    method OldestLine() returns (line: nat)
      requires Valid() && forall i :: 0 <= i < lines.Length ==> lines[i].valid
      ensures line < lines.Length
      ensures forall i :: 0 <= i < lines.Length ==> lines[line].accessTime <= lines[i].accessTime
    {
      var minimum := MAX_TIME;
      line := 0;
      var i := 0;
      while i < lines.Length
        invariant 0 <= i <= lines.Length && line < lines.Length
        invariant forall k :: 0 <= k < i ==> minimum <= lines[k].accessTime
        invariant minimum == lines[line].accessTime || minimum == MAX_TIME
      {
        if lines[i].accessTime < minimum {
          minimum := lines[i].accessTime;
          line := i;
        }
        i := i + 1;
      }
    }

    /**
      * `diskReadSector` through the cache: always the disk's bytes, one hit or miss counted, and, until the time
      * stamp wraps, the sectors held change like a list kept in order of use.
      */
    method ReadSector(sector: Word) returns (data: Sector)
      requires Valid()
      modifies `time, `hits, `misses, `order, lines, contents
      ensures Valid() && data == OnDisk(disk, sector)
      ensures Wrap(hits + misses) == Wrap(old(hits + misses) + 1)
      ensures old(Fresh()) && old(time) < MAX_TIME ==>
                Fresh() && time == old(time) + 1 && Held() == Access(old(Held()), sector, lines.Length)
    {
      hide Wrap;
      var found, line := FindLine(sector);
      if found {
        hits := Wrap(hits + 1);
        CountOne(old(hits), misses);
        data := contents[line];
      } else {
        misses := Wrap(misses + 1);
        CountOne(old(misses), hits);
        line := FindVictim();
        contents[line] := OnDisk(disk, sector);
        data := contents[line];
      }
      StampLine(sector, line);
    }

    method StampLine(sector: Word, line: nat)
      requires lines.Length > 0 && line < lines.Length && contents.Length == lines.Length
      requires DistinctSectors(lines[..])
      requires Holds(lines[..], line, sector) || (Misses(lines[..], sector) && IsVictim(lines[..], line))
      requires forall i :: 0 <= i < lines.Length && i != line && lines[i].valid
                 ==> contents[i] == OnDisk(disk, lines[i].sector)
      requires contents[line] == OnDisk(disk, sector)
      modifies `time, `order, lines
      ensures Valid()
      ensures old(Fresh()) && old(time) < MAX_TIME ==>
                Fresh() && time == old(time) + 1 && Held() == Access(old(Held()), sector, lines.Length)
    {
      hide OnDisk, SectorsOf, Without, Access, Ordered, IsVictim;
      ghost var before := lines[..];
      if Ordered(before, time, order) && time < MAX_TIME {
        ReadRefines(before, time, order, line, sector);
        WrapWord(time + 1);
      }
      StampDistinct(before, line, sector, Wrap(time + 1));
      time := Wrap(time + 1);
      lines[line] := CacheLine(sector, true, time);
      order := [line] + Without(order, line);
      assert lines[..] == Stamped(before, line, sector, time);
    }

    /** `diskWriteSector`: the whole cache is emptied, then the sector is written. */
    method WriteSector(sector: Word, data: Sector)
      requires Valid()
      modifies `disk, `order, lines, contents
      ensures Valid() && disk == old(disk)[sector := data]
      ensures Fresh() && Held() == []
    {
      var i := 0;
      while i < lines.Length
        invariant 0 <= i <= lines.Length
        invariant forall k :: 0 <= k < i ==> !lines[k].valid
        invariant disk == old(disk)
      {
        lines[i] := EMPTY;
        contents[i] := ZeroSector();
        i := i + 1;
      }
      order := [];
      disk := disk[sector := data];
    }

    /**
      * Any run of reads and writes: every read returns the disk's bytes, also after the counter has wrapped; and
      * if it does not wrap, the lines hold exactly the sectors most recently read since the last write.
      */
    method Perform(ops: seq<CacheOperation>) returns (answers: seq<Sector>)
      requires Valid()
      modifies this, lines, contents
      ensures Valid() && disk == DiskAfter(old(disk), ops) && answers == Answers(old(disk), ops)
      ensures old(Fresh()) && old(Held()) == [] && old(time) + |ops| <= MAX_TIME ==>
                Fresh() && Held() == Take(Recent(ReadsSinceWrite(ops)), lines.Length)
    {
      hide Coherent, Access, Ordered, SectorsOf, OnDisk, AfterReads, ReadsSinceWrite, DiskAfter, Answers, Take, Recent;
      answers := [];
      RunStart(disk, ops, lines.Length);
      var k := 0;
      while k < |ops|
        invariant 0 <= k <= |ops| && Valid()
        invariant disk == DiskAfter(old(disk), ops[..k]) && answers == Answers(old(disk), ops[..k])
        invariant old(Fresh()) && old(Held()) == [] && old(time) + |ops| <= MAX_TIME ==>
                    Fresh() && time <= old(time) + k && Held() == AfterReads(ReadsSinceWrite(ops[..k]), lines.Length)
      {
        RunStep(old(disk), ops, k, lines.Length);
        match ops[k] {
          case ReadOf(sector) =>
            var data := ReadSector(sector);
            answers := answers + [data];
          case WriteOf(sector, data) =>
            WriteSector(sector, data);
        }
        k := k + 1;
      }
      assert ops[..k] == ops;
      HoldsMostRecent(ReadsSinceWrite(ops), lines.Length);
    }

    /** `readBlock`: four sectors in a row. */
    method ReadBlock(block: Word) returns (data: seq<Byte>)
      requires Valid()
      modifies `time, `hits, `misses, `order, lines, contents
      ensures Valid() && data == BlockOnDisk(disk, block)
      ensures Wrap(hits + misses) == Wrap(old(hits + misses) + 4)
    {
      hide Wrap, BlockSector, OnDisk, Coherent, Access, Ordered, SectorsOf;
      data := [];
      ghost var counted := hits + misses;
      var x := 0;
      while x < SECTORS_PER_BLOCK
        invariant 0 <= x <= SECTORS_PER_BLOCK && Valid() && Wrap(hits + misses) == Wrap(counted + x)
        invariant data == BlockPrefix(disk, block, x)
      {
        CountOneMore(hits + misses, counted + x);
        var sector := ReadSector(BlockSector(block, x));
        data := data + sector;
        x := x + 1;
      }
      WholeBlock(disk, block);
    }

    /** `writeBlock`: four sectors in a row. */
    method WriteBlock(block: Word, data: seq<Byte>)
      requires Valid() && |data| == SECTORS_PER_BLOCK * SECTOR_SIZE
      modifies `disk, `order, lines, contents
      ensures Valid() && disk == Written(old(disk), block, data)
    {
      hide BlockSector, Coherent, Ordered, SectorsOf;
      WriteSector(BlockSector(block, 0), data[..SECTOR_SIZE]);
      WriteSector(BlockSector(block, 1), data[SECTOR_SIZE..2 * SECTOR_SIZE]);
      WriteSector(BlockSector(block, 2), data[2 * SECTOR_SIZE..3 * SECTOR_SIZE]);
      WriteSector(BlockSector(block, 3), data[3 * SECTOR_SIZE..]);
    }
  }

  // ---------- lemmas of the cache ----------

  lemma CountOne(x: Word, y: Word)
    ensures Wrap(Wrap(x + 1) + y) == Wrap(x + y + 1)
  {
    WrapAdd(x + 1, y);
  }

  lemma CountOneMore(x: int, y: int)
    requires Wrap(x) == Wrap(y)
    ensures Wrap(x + 1) == Wrap(y + 1)
  {
    WrapAdd(x, 1);
    WrapAdd(y, 1);
  }

  lemma StampDistinct(lines: seq<CacheLine>, line: nat, sector: Word, time: Word)
    requires DistinctSectors(lines) && line < |lines|
    requires Holds(lines, line, sector) || Misses(lines, sector)
    ensures DistinctSectors(Stamped(lines, line, sector, time))
  {
    forall i | 0 <= i < |lines| && i != line && lines[i].valid
      ensures lines[i].sector != sector
    {
      if Misses(lines, sector) { assert !Holds(lines, i, sector); }
    }
  }

  function BlockPrefix(disk: map<Word, Sector>, block: Word, x: nat): seq<Byte> {
    if x == 0 then [] else BlockPrefix(disk, block, x - 1) + OnDisk(disk, BlockSector(block, x - 1))
  }

  lemma WholeBlock(disk: map<Word, Sector>, block: Word)
    ensures BlockPrefix(disk, block, SECTORS_PER_BLOCK) == BlockOnDisk(disk, block)
  {
    hide OnDisk, BlockSector;
    assert BlockPrefix(disk, block, 0) == [];
    assert BlockPrefix(disk, block, 1) == OnDisk(disk, BlockSector(block, 0));
    assert BlockPrefix(disk, block, 2) == OnDisk(disk, BlockSector(block, 0)) + OnDisk(disk, BlockSector(block, 1));
    assert BlockPrefix(disk, block, 3) == BlockPrefix(disk, block, 2) + OnDisk(disk, BlockSector(block, 2));
  }

  /** The disk after a block has been written. */
  function Written(disk: map<Word, Sector>, block: Word, data: seq<Byte>): map<Word, Sector>
    requires |data| == SECTORS_PER_BLOCK * SECTOR_SIZE
  {
    disk[BlockSector(block, 0) := data[..SECTOR_SIZE]]
        [BlockSector(block, 1) := data[SECTOR_SIZE..2 * SECTOR_SIZE]]
        [BlockSector(block, 2) := data[2 * SECTOR_SIZE..3 * SECTOR_SIZE]]
        [BlockSector(block, 3) := data[3 * SECTOR_SIZE..]]
  }

  lemma SectorsApart(block: Word)
    ensures forall x, y :: 0 <= x < y < 4 ==> BlockSector(block, x) != BlockSector(block, y)
  {
    var base := block * SECTORS_PER_BLOCK + EXT2_SECTOR_START;
    forall x, y | 0 <= x < y < 4
      ensures BlockSector(block, x) != BlockSector(block, y)
    {
      WrapIsModulo(base + x);
      WrapIsModulo(base + y);
    }
  }

  /** Reading back a written block gives its bytes; blocks on other sectors are unchanged. */
  lemma BlockReadBack(disk: map<Word, Sector>, block: Word, data: seq<Byte>, other: Word)
    requires |data| == SECTORS_PER_BLOCK * SECTOR_SIZE
    ensures BlockOnDisk(Written(disk, block, data), block) == data
    ensures (forall x, y :: 0 <= x < 4 && 0 <= y < 4 ==> BlockSector(block, x) != BlockSector(other, y)) ==>
              BlockOnDisk(Written(disk, block, data), other) == BlockOnDisk(disk, other)
  {
    hide BlockSector;
    SectorsApart(block);
    var after := Written(disk, block, data);
    assert OnDisk(after, BlockSector(block, 0)) == data[..SECTOR_SIZE];
    assert OnDisk(after, BlockSector(block, 1)) == data[SECTOR_SIZE..2 * SECTOR_SIZE];
    assert OnDisk(after, BlockSector(block, 2)) == data[2 * SECTOR_SIZE..3 * SECTOR_SIZE];
    assert OnDisk(after, BlockSector(block, 3)) == data[3 * SECTOR_SIZE..];
  }

  // ---------- where blocks lie ----------

  const BLOCK_NUMBERS: nat := 0x4000_0000

  lemma SectorNumber(block: Word, x: nat)
    requires x < 4
    ensures BlockSector(block, x) == (4 * block + 0x200 + x) % 0x1_0000_0000
  {
    WrapIsModulo(block * SECTORS_PER_BLOCK + EXT2_SECTOR_START + x);
  }

  /** Blocks whose numbers differ modulo 2^30 share no sector; others are the same block. */
  lemma BlockSectors(block: Word, other: Word)
    ensures block % BLOCK_NUMBERS != other % BLOCK_NUMBERS
            ==> forall x, y :: 0 <= x < 4 && 0 <= y < 4 ==> BlockSector(block, x) != BlockSector(other, y)
    ensures block % BLOCK_NUMBERS == other % BLOCK_NUMBERS
            ==> forall x :: 0 <= x < 4 ==> BlockSector(block, x) == BlockSector(other, x)
  {
    hide BlockSector;
    forall x, y | 0 <= x < 4 && 0 <= y < 4
      ensures BlockSector(block, x) == BlockSector(other, y)
              <==> x == y && block % BLOCK_NUMBERS == other % BLOCK_NUMBERS
    {
      SectorNumber(block, x);
      SectorNumber(other, y);
      SameSector(block, x, other, y);
    }
  }

  lemma SameSector(block: Word, x: nat, other: Word, y: nat)
    requires x < 4 && y < 4
    ensures (4 * block + 0x200 + x) % 0x1_0000_0000 == (4 * other + 0x200 + y) % 0x1_0000_0000
            <==> x == y && block % BLOCK_NUMBERS == other % BLOCK_NUMBERS
  {
    var a, b := 4 * block + 0x200 + x, 4 * other + 0x200 + y;
    SameRemainder(a, b, 0x1_0000_0000);
    SameRemainder(block, other, BLOCK_NUMBERS);
    if a % 0x1_0000_0000 == b % 0x1_0000_0000 {
      var t :| a - b == 0x1_0000_0000 * t;
      var z := BLOCK_NUMBERS * t - block + other;
      assert x - y == 4 * z;
      assert block - other == BLOCK_NUMBERS * t;
    }
    if x == y && block % BLOCK_NUMBERS == other % BLOCK_NUMBERS {
      var t :| block - other == BLOCK_NUMBERS * t;
      assert a - b == 0x1_0000_0000 * t;
    }
  }

  lemma SameRemainder(a: nat, b: nat, m: nat)
    requires m == 0x1_0000_0000 || m == BLOCK_NUMBERS
    ensures a % m == b % m <==> exists t :: a - b == m * t
  {
    if a % m == b % m {
      assert a - b == m * (a / m - b / m);
    }
    if t :| a - b == m * t {
      if m == BLOCK_NUMBERS { assert (b + BLOCK_NUMBERS * t) % BLOCK_NUMBERS == b % BLOCK_NUMBERS; }
      else { assert (b + 0x1_0000_0000 * t) % 0x1_0000_0000 == b % 0x1_0000_0000; }
    }
  }

  /** Writing a block leaves another block alone on every disk exactly when their numbers differ modulo 2^30. */
  lemma OtherBlockIff(block: Word, other: Word)
    ensures block % BLOCK_NUMBERS != other % BLOCK_NUMBERS
            <==> forall disk, data :: |data| == SECTORS_PER_BLOCK * SECTOR_SIZE
                   ==> BlockOnDisk(Written(disk, block, data), other) == BlockOnDisk(disk, other)
  {
    hide BlockSector, BlockOnDisk, Written;
    BlockSectors(block, other);
    if block % BLOCK_NUMBERS != other % BLOCK_NUMBERS {
      forall disk, data: seq<Byte> | |data| == SECTORS_PER_BLOCK * SECTOR_SIZE
        ensures BlockOnDisk(Written(disk, block, data), other) == BlockOnDisk(disk, other)
      {
        BlockReadBack(disk, block, data, other);
      }
    } else {
      var disk, data := map[], seq(SECTORS_PER_BLOCK * SECTOR_SIZE, i => 1);
      BlockReadBack(disk, block, data, block);
      SameBlock(disk, block, other);
      SameBlock(Written(disk, block, data), block, other);
      BlockBytes(disk, other, 0);
      assert BlockOnDisk(Written(disk, block, data), other)[0] != BlockOnDisk(disk, other)[0];
    }
  }

  lemma SameBlock(disk: map<Word, Sector>, block: Word, other: Word)
    requires forall x :: 0 <= x < 4 ==> BlockSector(block, x) == BlockSector(other, x)
    ensures BlockOnDisk(disk, block) == BlockOnDisk(disk, other)
  {
    hide BlockSector;
  }

  /** Byte `k` of a block stands that many bytes and 2048 more for each block before it, behind sector 0x200. */
  lemma BlockBytes(disk: map<Word, Sector>, block: Word, k: nat)
    requires k < 0x800
    ensures |BlockOnDisk(disk, block)| == 0x800
    ensures var at := k + 0x800 * block;
            BlockOnDisk(disk, block)[k] == OnDisk(disk, (0x200 + at / 0x200) % 0x1_0000_0000)[at % 0x200]
  {
    hide BlockSector, OnDisk;
    var x := k / 0x200;
    SectorNumber(block, x);
    var at := k + 0x800 * block;
    assert k == 0x200 * x + k % 0x200;
    assert at == 0x200 * (4 * block + x) + k % 0x200;
    assert at / 0x200 == 4 * block + x && at % 0x200 == k % 0x200;
  }

  /**
    * A write that bypasses the cache keeps it transparent exactly when the sector is not cached (or does not change).
    */
  lemma UncachedWriteIff(lines: seq<CacheLine>, contents: seq<Sector>, disk: map<Word, Sector>, sector: Word,
                         data: Sector)
    requires Coherent(lines, contents, disk)
    ensures Coherent(lines, contents, disk[sector := data]) <==> Misses(lines, sector) || data == OnDisk(disk, sector)
  {
    var disk' := disk[sector := data];
    if !Misses(lines, sector) && data != OnDisk(disk, sector) {
      var i :| 0 <= i < |lines| && Holds(lines, i, sector);
      assert contents[i] != OnDisk(disk', lines[i].sector);
    }
    if Misses(lines, sector) {
      forall i | 0 <= i < |lines| && lines[i].valid
        ensures lines[i].sector != sector
      {
        assert !Holds(lines, i, sector);
      }
    }
  }
}
