/** In-place edits of the compiler's output buffer: copying, shifting, and splicing a prologue before a body. */
module TextBuffer {
  import opened LibcMemory

  const NUL: char := '\0'

  predicate NulFree(s: string) {
    forall k :: 0 <= k < |s| ==> s[k] != NUL
  }

  /** `strcpy` into the buffer: the text up to its terminator, and the terminator. */
  method StringCopy(a: array<char>, at: nat, s: string)
    requires NulFree(s) && at + |s| < a.Length
    modifies a
    ensures a[..] == old(a[..at]) + s + [NUL] + old(a[at + |s| + 1..])
  {
    CopyBytes(a, at, s);
    ghost var before := a[..];
    assert before[..at + |s|] == old(a[..at]) + s;
    assert before[at + |s| + 1..] == old(a[at + |s| + 1..]);
    a[at + |s|] := NUL;
    assert a[..] == before[..at + |s|] + [NUL] + before[at + |s| + 1..];
  }

  /** The buffer contents after moving `count` characters from `start` right by `gap`. */
  function Shifted(s: string, start: nat, count: nat, gap: nat): (t: string)
    requires start + gap + count <= |s|
    ensures |t| == |s|
  {
    s[..start + gap] + s[start..start + count] + s[start + gap + count..]
  }

  /** The loop that shifts a body right, last character first. */
  method ShiftRight(a: array<char>, start: nat, count: nat, gap: nat)
    requires start + gap + count <= a.Length
    modifies a
    ensures a[..] == Shifted(old(a[..]), start, count, gap)
  {
    ghost var s := a[..];
    var x := count;
    while x > 0
      invariant 0 <= x <= count
      invariant forall j :: 0 <= j < start + gap + x ==> a[j] == s[j]
      invariant forall j :: start + gap + x <= j < start + gap + count ==> a[j] == s[j - gap]
      invariant forall j :: start + gap + count <= j < a.Length ==> a[j] == s[j]
    {
      a[start + gap + x - 1] := a[start + x - 1];
      x := x - 1;
    }
    ShiftedIs(s, start, count, gap, a[..]);
  }

  lemma ShiftedIs(s: string, start: nat, count: nat, gap: nat, t: string)
    requires start + gap + count <= |s| == |t|
    requires forall j :: 0 <= j < start + gap ==> t[j] == s[j]
    requires forall j :: start + gap <= j < start + gap + count ==> t[j] == s[j - gap]
    requires forall j :: start + gap + count <= j < |s| ==> t[j] == s[j]
    ensures t == Shifted(s, start, count, gap)
  {
    assert t[..start + gap] == s[..start + gap];
    assert t[start + gap..start + gap + count] == s[start..start + count];
    assert t[start + gap + count..] == s[start + gap + count..];
  }

  // ---------- back-patching a prologue ----------

  const PUSH_LINE: string := "\tpush ebp\n"
  const MOVE_LINE: string := "\tmov ebp, esp\n"
  const SUB_START: string := "\tsub esp, "

  lemma PiecesNulFree()
    ensures NulFree(PUSH_LINE) && NulFree(MOVE_LINE) && NulFree(SUB_START)
  {
  }

  function PrologueText(size: string): string {
    PUSH_LINE + MOVE_LINE + SUB_START + size + "\n"
  }

  /** One piece written over the gap, its terminator included. */
  ghost predicate Patching(a: array<char>, before: string, start: nat, done: string, end: nat, body: string)
    reads a
  {
    && start + |done| <= end && end + |body| <= a.Length == |before|
    && a[..start] == before[..start]
    && a[start..start + |done|] == done
    && a[end..end + |body|] == body
    && a[end + |body|..] == before[end + |body|..]
  }

  /**
    * Writing a piece keeps the prefix, the pieces before it and the body, if its terminator still falls into the gap.
    */
  method PatchPiece(a: array<char>, ghost before: string, start: nat, ghost done: string, at: nat, ghost end: nat,
                    ghost body: string, piece: string)
    requires Patching(a, before, start, done, end, body) && at == start + |done|
    requires NulFree(piece) && at + |piece| < end
    modifies a
    ensures Patching(a, before, start, done + piece, end, body)
  {
    ghost var s := a[..];
    StringCopy(a, at, piece);
    assert a[..start] == s[..start];
    assert a[start..at + |piece|] == s[start..at] + piece;
    assert a[end..end + |body|] == s[end..end + |body|];
    assert a[end + |body|..] == s[end + |body|..];
  }

  /**
    * Back-patching is an exact splice: after the shift and the piecewise copies the buffer is the old prefix,
    * the prologue, and the body unchanged, whatever the body's length; no terminator lands on the body.
    */
  method BackPatch(a: array<char>, start: nat, bodySize: nat, size: string)
    requires NulFree(size) && start + bodySize + |PrologueText(size)| <= a.Length
    modifies a
    ensures a[..] == old(a[..start]) + PrologueText(size) + old(a[start..start + bodySize])
                     + old(a[start + |PrologueText(size)| + bodySize..])
  {
    hide Patching, Shifted, PUSH_LINE, MOVE_LINE, SUB_START, NulFree;
    PiecesNulFree();
    ghost var s := a[..];
    ghost var body := s[start..start + bodySize];
    var length := |PUSH_LINE| + |MOVE_LINE| + |SUB_START| + |size| + 1;
    ghost var end := start + length;
    ShiftRight(a, start, bodySize, length);
    StartPatching(a, s, start, bodySize, length);
    var pos := start;
    PatchPiece(a, s, start, "", pos, end, body, PUSH_LINE);
    pos := pos + |PUSH_LINE|;
    assert "" + PUSH_LINE == PUSH_LINE;
    PatchPiece(a, s, start, PUSH_LINE, pos, end, body, MOVE_LINE);
    pos := pos + |MOVE_LINE|;
    PatchPiece(a, s, start, PUSH_LINE + MOVE_LINE, pos, end, body, SUB_START);
    pos := pos + |SUB_START|;
    PatchPiece(a, s, start, PUSH_LINE + MOVE_LINE + SUB_START, pos, end, body, size);
    pos := pos + |size|;
    LastByte(a, s, start, PUSH_LINE + MOVE_LINE + SUB_START + size, pos, end, body);
  }

  lemma StartPatching(a: array<char>, s: string, start: nat, count: nat, gap: nat)
    requires start + gap + count <= |s| && a[..] == Shifted(s, start, count, gap)
    ensures Patching(a, s, start, "", start + gap, s[start..start + count])
  {
    var t := Shifted(s, start, count, gap);
    assert t[..start] == s[..start] && t[start + gap..start + gap + count] == s[start..start + count]
        && t[start + gap + count..] == s[start + gap + count..];
  }

  method LastByte(a: array<char>, ghost before: string, start: nat, ghost done: string, at: nat, ghost end: nat,
                  ghost body: string)
    requires Patching(a, before, start, done, end, body) && at == start + |done| && end == at + 1
    modifies a
    ensures a[..] == before[..start] + (done + "\n") + body + before[end + |body|..]
  {
    ghost var s := a[..];
    CopyBytes(a, at, "\n");
    assert a[..start] == s[..start];
    assert a[start..end] == s[start..start + |done|] + "\n";
    assert a[end..end + |body|] == s[end..end + |body|];
    assert a[end + |body|..] == s[end + |body|..];
    assert a[..] == a[..start] + a[start..end] + a[end..end + |body|] + a[end + |body|..];
  }
}
