/** What a loader that follows the program headers puts at each address of the program. */
module LoadedImage {
  import opened Words
  import opened LibcMemory
  import opened X86
  import opened Encoding
  import opened Disassembler
  import opened EncodeDecode
  import opened Passes
  import opened ElfImage

  // ---------- reading the headers ----------

  function Half(image: seq<Byte>, p: nat): nat {
    At(image, p) + 0x100 * At(image, p + 1)
  }

  datatype ProgramHeader = ProgramHeader(kind: Word, offset: Word, vaddr: Word, fileSize: Word, memSize: Word,
    flags: Word, align: Word)

  function ReadProgramHeader(image: seq<Byte>, p: nat): ProgramHeader {
    ProgramHeader(Dword(image, p), Dword(image, p + 4), Dword(image, p + 8), Dword(image, p + 16), Dword(image, p + 20),
                  Dword(image, p + 24), Dword(image, p + 28))
  }

  function HeaderOf(s: Segment): ProgramHeader {
    ProgramHeader(1, s.offset, s.vaddr, s.size, s.size, s.flags, PAGE_SIZE)
  }

  /** Where the image says that the program headers start, and their size and number. */
  function TableStart(image: seq<Byte>): nat { Dword(image, 28) }
  function EntrySize(image: seq<Byte>): nat { Half(image, 42) }
  function EntryCount(image: seq<Byte>): nat { Half(image, 44) }

  function EntryAddress(start: nat, size: nat, i: nat): nat { start + size * i }

  /** The byte that loading the segments from the `i`-th on puts at an address. */
  function LoadedFrom(image: seq<Byte>, i: nat, a: int): Option<Byte>
    decreases EntryCount(image) - i
  {
    if i >= EntryCount(image) then None
    else
      var h := ReadProgramHeader(image, EntryAddress(TableStart(image), EntrySize(image), i));
      if h.kind == 1 && h.vaddr <= a < h.vaddr + h.fileSize then Some(At(image, h.offset + (a - h.vaddr)))
      else LoadedFrom(image, i + 1, a)
  }

  function Loaded(image: seq<Byte>, a: int): Option<Byte> {
    LoadedFrom(image, 0, a)
  }

  lemma DwordFirst(mem: seq<Byte>, p: nat, x: Word, rest: seq<Byte>)
    requires BytesAt(mem, p, Le32(x) + rest)
    ensures Dword(mem, p) == x && BytesAt(mem, p + 4, rest)
  {
    BytesAtTail(mem, p, Le32(x), rest);
    DwordBytes(mem, p, Le32(x), 0, x);
    WrapWord(x);
  }

  lemma SegmentRead(mem: seq<Byte>, p: nat, s: Segment)
    requires BytesAt(mem, p, SegmentBytes(s))
    ensures ReadProgramHeader(mem, p) == HeaderOf(s)
  {
    hide Le32, BytesAt, Dword;
    var r7 := Le32(s.flags) + Le32(PAGE_SIZE);
    var r6 := Le32(s.size) + r7;
    var r5 := Le32(s.size) + r6;
    var r4 := Le32(s.vaddr) + r5;
    var r3 := Le32(s.vaddr) + r4;
    var r2 := Le32(s.offset) + r3;
    DwordFirst(mem, p, 1, r2);
    DwordFirst(mem, p + 4, s.offset, r3);
    DwordFirst(mem, p + 8, s.vaddr, r4);
    DwordFirst(mem, p + 12, s.vaddr, r5);
    DwordFirst(mem, p + 16, s.size, r6);
    DwordFirst(mem, p + 20, s.size, r7);
    DwordFirst(mem, p + 24, s.flags, Le32(PAGE_SIZE));
    assert Le32(PAGE_SIZE) + [] == Le32(PAGE_SIZE);
    DwordFirst(mem, p + 28, PAGE_SIZE, []);
  }

  lemma HalfBytes(mem: seq<Byte>, p: nat, s: seq<Byte>, i: nat, x: nat)
    requires x < 0x1_0000
    requires BytesAt(mem, p, s) && i + 2 <= |s| && s[i..i + 2] == Le16(x)
    ensures Half(mem, p + i) == x
  {
    assert s[i..i + 2][0] == s[i] && s[i..i + 2][1] == s[i + 1];
    AtBytes(mem, p, s, i);
    AtBytes(mem, p, s, i + 1);
    var b := LittleEndian(x, 2);
    assert b[1..] == LittleEndian(x / 0x100, 1);
    assert b[1] == b[1..][0];
  }

  lemma CountsRead(mem: seq<Byte>, p: nat)
    requires BytesAt(mem, p, CountBytes())
    ensures Half(mem, p + 2) == SEGMENT_SIZE && Half(mem, p + 4) == 3
  {
    hide Half, BytesAt, LittleEndian;
    var s := CountBytes();
    assert s[2..4] == Le16(SEGMENT_SIZE) && s[4..6] == Le16(3);
    HalfBytes(mem, p, s, 2, SEGMENT_SIZE);
    HalfBytes(mem, p, s, 4, 3);
  }

  lemma HeaderRead(mem: seq<Byte>, entry: Word, flags: Word)
    requires BytesAt(mem, 0, HeaderBytes(entry, flags))
    ensures Dword(mem, 24) == entry && Dword(mem, 36) == flags
    ensures TableStart(mem) == HEADER_SIZE && EntrySize(mem) == SEGMENT_SIZE && EntryCount(mem) == 3
  {
    hide Le32, BytesAt, Dword, Half, IdentBytes, CountBytes;
    var r3 := Le32(flags) + CountBytes();
    var r2 := Le32(0) + r3;
    var r1 := Le32(HEADER_SIZE) + r2;
    BytesAtTail(mem, 0, IdentBytes(), Le32(entry) + r1);
    DwordFirst(mem, 24, entry, r1);
    DwordFirst(mem, 28, HEADER_SIZE, r2);
    DwordFirst(mem, 32, 0, r3);
    DwordFirst(mem, 36, flags, CountBytes());
    CountsRead(mem, 40);
  }

  // ---------- the parts of the image ----------

  /** The image's parts at their offsets. */
  ghost predicate Laid(image: seq<Byte>, code: seq<Byte>, data: seq<Byte>, entryOffset: nat, external: bool)
    requires |code| <= MAX_CODE && |data| <= MAX_CODE
  {
    var s := Segments(|code|, |data|);
    && BytesAt(image, 0, HeaderBytes(EntryPoint(entryOffset), ProgramFlags(external)))
    && BytesAt(image, 52, SegmentBytes(s[0]))
    && BytesAt(image, 84, SegmentBytes(s[1]))
    && BytesAt(image, 116, SegmentBytes(s[2]))
    && BytesAt(image, PAGE_SIZE, Padded(code))
    && BytesAt(image, PAGE_SIZE + PageRound(|code|), Padded(data))
  }

  lemma PartsLaid(b0: seq<Byte>, b1: seq<Byte>, b2: seq<Byte>, b3: seq<Byte>, b4: seq<Byte>, b5: seq<Byte>,
                  b6: seq<Byte>)
    ensures var image := (b0 + b1 + b2 + b3 + b4) + b5 + b6;
            && BytesAt(image, 0, b0) && BytesAt(image, |b0|, b1) && BytesAt(image, |b0| + |b1|, b2)
            && BytesAt(image, |b0| + |b1| + |b2|, b3)
            && BytesAt(image, |b0| + |b1| + |b2| + |b3| + |b4|, b5)
            && BytesAt(image, |b0| + |b1| + |b2| + |b3| + |b4| + |b5|, b6)
  {
    hide BytesAt;
    var page := b0 + b1 + b2 + b3 + b4;
    var image := page + b5 + b6;
    WholeAt(image);
    BytesAtTail(image, 0, page + b5, b6);
    BytesAtTail(image, 0, page, b5);
    BytesAtTail(image, 0, b0 + b1 + b2 + b3, b4);
    BytesAtTail(image, 0, b0 + b1 + b2, b3);
    BytesAtTail(image, 0, b0 + b1, b2);
    BytesAtTail(image, 0, b0, b1);
  }

  lemma WholeAt(image: seq<Byte>)
    ensures BytesAt(image, 0, image)
  {
  }

  lemma ImageLaid(code: seq<Byte>, data: seq<Byte>, entryOffset: nat, external: bool)
    requires |code| <= MAX_CODE && |data| <= MAX_CODE
    ensures Laid(Image(code, data, entryOffset, external), code, data, entryOffset, external)
  {
    hide BytesAt, SegmentBytes, HeaderBytes, Padded, EntryPoint, ProgramFlags, PageRound, Segments;
    SegmentsLength(|code|, |data|);
    var s := Segments(|code|, |data|);
    PartsLaid(HeaderBytes(EntryPoint(entryOffset), ProgramFlags(external)), SegmentBytes(s[0]), SegmentBytes(s[1]),
      SegmentBytes(s[2]),
              Zeros(PAGE_SIZE - HEADER_SIZE - 3 * SEGMENT_SIZE), Padded(code), Padded(data));
  }

  lemma HeadersRead(code: seq<Byte>, data: seq<Byte>, entryOffset: nat, external: bool)
    requires |code| <= MAX_CODE && |data| <= MAX_CODE
    ensures var image := Image(code, data, entryOffset, external);
            var s := Segments(|code|, |data|);
            && Dword(image, 24) == EntryPoint(entryOffset) && Dword(image, 36) == ProgramFlags(external)
            && TableStart(image) == 52 && EntrySize(image) == 32 && EntryCount(image) == 3
            && ReadProgramHeader(image, 52) == HeaderOf(s[0])
            && ReadProgramHeader(image, 84) == HeaderOf(s[1])
            && ReadProgramHeader(image, 116) == HeaderOf(s[2])
  {
    hide BytesAt, SegmentBytes, HeaderBytes, Padded, EntryPoint, ProgramFlags, PageRound, Segments, Image,
         ReadProgramHeader, TableStart,
         EntrySize, EntryCount, Dword, HeaderOf;
    var image := Image(code, data, entryOffset, external);
    SegmentsLength(|code|, |data|);
    var s := Segments(|code|, |data|);
    ImageLaid(code, data, entryOffset, external);
    HeaderRead(image, EntryPoint(entryOffset), ProgramFlags(external));
    SegmentRead(image, 52, s[0]);
    SegmentRead(image, 84, s[1]);
    SegmentRead(image, 116, s[2]);
  }

  lemma IdentRead(mem: seq<Byte>)
    requires BytesAt(mem, 0, IdentBytes())
    ensures Dword(mem, 0) == 0x464C_457F && At(mem, 4) == 1 && At(mem, 5) == 1
    ensures Half(mem, 16) == 2 && Half(mem, 18) == 3 && Dword(mem, 20) == 1
  {
    hide Half, BytesAt, LittleEndian;
    var s := IdentBytes();
    assert s[16..18] == Le16(2) && s[18..20] == Le16(3) && s[20..24] == Le32(1);
    AtBytes(mem, 0, s, 0);
    AtBytes(mem, 0, s, 1);
    AtBytes(mem, 0, s, 2);
    AtBytes(mem, 0, s, 3);
    AtBytes(mem, 0, s, 4);
    AtBytes(mem, 0, s, 5);
    HalfBytes(mem, 0, s, 16, 2);
    HalfBytes(mem, 0, s, 18, 3);
    DwordBytes(mem, 0, s, 20, 1);
    WrapWord(1);
  }

  /**
    * The header in numbers: an i386 executable, whose flags word asks for the libraries or not, with a readable
    * header page, code that can be executed but not written, and data that can be written but not executed.
    */
  lemma ImageNumbers(code: seq<Byte>, data: seq<Byte>, entryOffset: nat, external: bool)
    requires |code| <= MAX_CODE && |data| <= MAX_CODE && entryOffset <= MAX_CODE
    ensures var image := Image(code, data, entryOffset, external);
            var r, w := (|code| + 0xFFF) / 0x1000 * 0x1000, (|data| + 0xFFF) / 0x1000 * 0x1000;
            && Dword(image, 0) == 0x464C_457F && At(image, 4) == 1 && At(image, 5) == 1
            && Half(image, 16) == 2 && Half(image, 18) == 3 && Dword(image, 20) == 1
            && Dword(image, 24) == 0x40_2000 + entryOffset && Dword(image, 36) == (if external then 0xFF else 0)
            && ReadProgramHeader(image, 52) == ProgramHeader(1, 0, 0x40_1000, 0x1000, 0x1000, 4, 0x1000)
            && ReadProgramHeader(image, 84) == ProgramHeader(1, 0x1000, 0x40_2000, r, r, 5, 0x1000)
            && ReadProgramHeader(image, 116) == ProgramHeader(1, 0x1000 + r, 0x40_2000 + r, w, w, 6, 0x1000)
  {
    hide Image, BytesAt, ReadProgramHeader, Dword, Half, At;
    var image := Image(code, data, entryOffset, external);
    HeadersRead(code, data, entryOffset, external);
    WrapWord(CODE_BASE + entryOffset);
    IdentLaid(code, data, entryOffset, external);
    IdentRead(image);
  }

  lemma IdentLaid(code: seq<Byte>, data: seq<Byte>, entryOffset: nat, external: bool)
    requires |code| <= MAX_CODE && |data| <= MAX_CODE
    ensures BytesAt(Image(code, data, entryOffset, external), 0, IdentBytes())
  {
    hide Image, BytesAt, IdentBytes, CountBytes, Le32;
    var image, flags := Image(code, data, entryOffset, external), ProgramFlags(external);
    ImageLaid(code, data, entryOffset, external);
    BytesAtTail(image, 0, IdentBytes(), Le32(EntryPoint(entryOffset)) + (Le32(HEADER_SIZE) + (Le32(0) + (Le32(flags)
      + CountBytes()))));
  }

  // ---------- segments ----------

  /** The segments cover disjoint address ranges and disjoint file ranges, each aligned alike in both. */
  lemma SegmentsApart(codeSize: nat, dataSize: nat)
    requires codeSize <= MAX_CODE && dataSize <= MAX_CODE
    ensures var s := Segments(codeSize, dataSize);
            && (forall i, j :: 0 <= i < j < 3
                  ==> s[i].vaddr + s[i].size <= s[j].vaddr && s[i].offset + s[i].size <= s[j].offset)
            && (forall i :: 0 <= i < 3 ==> s[i].vaddr % PAGE_SIZE == s[i].offset % PAGE_SIZE)
            && s[1].size >= codeSize && s[2].size >= dataSize
  {
    RoundUp(codeSize);
    RoundUp(dataSize);
  }

  lemma PaddedIndex(image: seq<Byte>, p: nat, s: seq<Byte>, i: nat)
    requires BytesAt(image, p, Padded(s)) && i < |s|
    ensures At(image, p + i) == s[i] && i < PageRound(|s|)
  {
    RoundUp(|s|);
    AtBytes(image, p, Padded(s), i);
  }

  /**
    * Loading the image puts every code byte at its address from 0x402000 on, and every data byte after the code's
    * pages.
    */
  lemma SectionsLoaded(code: seq<Byte>, data: seq<Byte>, entryOffset: nat, external: bool, i: nat)
    requires |code| <= MAX_CODE && |data| <= MAX_CODE
    ensures i < |code| ==> Loaded(Image(code, data, entryOffset, external), CODE_BASE + i) == Some(code[i])
    ensures i < |data|
            ==> Loaded(Image(code, data, entryOffset, external), CODE_BASE + PageRound(|code|) + i) == Some(data[i])
  {
    hide Image, ReadProgramHeader, TableStart, EntrySize, EntryCount, Dword, Padded, SegmentBytes, BytesAt, HeaderBytes,
         EntryPoint;
    var image := Image(code, data, entryOffset, external);
    HeadersRead(code, data, entryOffset, external);
    ImageLaid(code, data, entryOffset, external);
    RoundUp(|code|);
    RoundUp(|data|);
    if i < |code| {
      PaddedIndex(image, PAGE_SIZE, code, i);
      CodeFound(image, code, data, CODE_BASE + i);
    }
    if i < |data| {
      PaddedIndex(image, PAGE_SIZE + PageRound(|code|), data, i);
      DataFound(image, code, data, CODE_BASE + PageRound(|code|) + i);
    }
  }

  /** The three headers of a program with these sections, as read from an image. */
  predicate HeadersAre(image: seq<Byte>, code: seq<Byte>, data: seq<Byte>)
    requires |code| <= MAX_CODE && |data| <= MAX_CODE
  {
    var s := Segments(|code|, |data|);
    && TableStart(image) == 52 && EntrySize(image) == 32 && EntryCount(image) == 3
    && ReadProgramHeader(image, 52) == HeaderOf(s[0])
    && ReadProgramHeader(image, 84) == HeaderOf(s[1])
    && ReadProgramHeader(image, 116) == HeaderOf(s[2])
  }

  lemma LoadedNext(image: seq<Byte>, i: nat, a: int)
    requires TableStart(image) == 52 && EntrySize(image) == 32 && EntryCount(image) == 3
    ensures LoadedFrom(image, i, a) == (
      if i >= 3 then None
      else
        var h := ReadProgramHeader(image, 52 + 32 * i);
        if h.kind == 1 && h.vaddr <= a < h.vaddr + h.fileSize then Some(At(image, h.offset + (a - h.vaddr)))
        else LoadedFrom(image, i + 1, a))
  {
    hide TableStart, EntrySize, EntryCount, ReadProgramHeader, At;
  }

  lemma LoadedUnfold(image: seq<Byte>, a: int)
    requires TableStart(image) == 52 && EntrySize(image) == 32 && EntryCount(image) == 3
    ensures Loaded(image, a) == (
      var h0, h1, h2 := ReadProgramHeader(image, 52), ReadProgramHeader(image, 84), ReadProgramHeader(image, 116);
      if h0.kind == 1 && h0.vaddr <= a < h0.vaddr + h0.fileSize then Some(At(image, h0.offset + (a - h0.vaddr)))
      else if h1.kind == 1 && h1.vaddr <= a < h1.vaddr + h1.fileSize then Some(At(image, h1.offset + (a - h1.vaddr)))
      else if h2.kind == 1 && h2.vaddr <= a < h2.vaddr + h2.fileSize then Some(At(image, h2.offset + (a - h2.vaddr)))
      else None)
  {
    hide TableStart, EntrySize, EntryCount, ReadProgramHeader, At;
    LoadedNext(image, 0, a);
    LoadedNext(image, 1, a);
    LoadedNext(image, 2, a);
    LoadedNext(image, 3, a);
  }

  lemma CodeFound(image: seq<Byte>, code: seq<Byte>, data: seq<Byte>, a: int)
    requires |code| <= MAX_CODE && |data| <= MAX_CODE
    requires HeadersAre(image, code, data)
    requires CODE_BASE <= a < CODE_BASE + PageRound(|code|)
    ensures Loaded(image, a) == Some(At(image, PAGE_SIZE + (a - CODE_BASE)))
  {
    hide TableStart, EntrySize, EntryCount, ReadProgramHeader, At, PageRound, Loaded;
    LoadedUnfold(image, a);
  }

  lemma DataFound(image: seq<Byte>, code: seq<Byte>, data: seq<Byte>, a: int)
    requires |code| <= MAX_CODE && |data| <= MAX_CODE
    requires HeadersAre(image, code, data)
    requires CODE_BASE + PageRound(|code|) <= a < CODE_BASE + PageRound(|code|) + PageRound(|data|)
    ensures Loaded(image, a) == Some(At(image, PAGE_SIZE + PageRound(|code|) + (a - CODE_BASE - PageRound(|code|))))
  {
    hide TableStart, EntrySize, EntryCount, ReadProgramHeader, At, PageRound, Loaded;
    LoadedUnfold(image, a);
  }
}
