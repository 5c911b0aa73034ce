/** The global object table: inserting entries, write locks on files, and the pipes that entries share. */
module ObjectTable {
  import opened Words

  const MAX_ENTRIES: nat := 0x40
  const FULL: Word := 0x3FF

  datatype Kind = Nothing | File | Pipe

  type Message = seq<Byte>

  /** An entry of the table; `buffer` identifies the kernel buffer. */
  datatype Entry = Entry(pid: Word, inode: Word, kind: Kind, name: string, buffer: Word, readOffset: Word,
    writeOffset: Word, locked: Word)

  const FREE: Entry := Entry(0, 0, Nothing, "", 0, 0, 0, 0)

  function FileEntry(pid: Word, inode: Word, name: string): Entry {
    Entry(pid, inode, File, name, 0, 0, 0, 0)
  }

  /** The creator of a pipe holds its lock; those who open it do not. */
  function PipeEntry(pid: Word, name: string, buffer: Word, locked: Word): Entry {
    Entry(pid, 0, Pipe, name, buffer, 0, 0, locked)
  }

  // ---------- inserting, locking and closing ----------

  /** The first free entry; the table panics when the scan reaches the last entry. */
  function FirstFree(t: seq<Entry>): (i: nat)
    ensures i <= |t|
    ensures i < |t| ==> t[i].pid == 0
    ensures forall k :: 0 <= k < i ==> t[k].pid != 0
  {
    if t == [] || t[0].pid == 0 then 0 else 1 + FirstFree(t[1..])
  }

  predicate Panics(t: seq<Entry>) {
    FirstFree(t) + 1 >= |t|
  }

  /** The table panics although its last entry is free: exactly when all others are in use. */
  lemma PanicsIff(t: seq<Entry>)
    requires t != []
    ensures Panics(t) <==> forall k :: 0 <= k < |t| - 1 ==> t[k].pid != 0
  {
    assert FirstFree(t) < |t| ==> t[FirstFree(t)].pid == 0;
  }

  function Inserted(t: seq<Entry>, e: Entry): seq<Entry> {
    if FirstFree(t) < |t| then t[FirstFree(t) := e] else t
  }

  /** No entry with this inode is locked. */
  predicate Available(t: seq<Entry>, inode: Word) {
    forall i :: 0 <= i < |t| && t[i].inode == inode ==> t[i].locked == 0
  }

  /** The first entry of a process for an inode, or the table's length. */
  function FirstOpen(t: seq<Entry>, pid: Word, inode: Word): (i: nat)
    ensures i <= |t|
    ensures i < |t| ==> t[i].pid == pid && t[i].inode == inode
    ensures forall k :: 0 <= k < i ==> !(t[k].pid == pid && t[k].inode == inode)
  {
    if t == [] || (t[0].pid == pid && t[0].inode == inode) then 0 else 1 + FirstOpen(t[1..], pid, inode)
  }

  function Locked(t: seq<Entry>, pid: Word, inode: Word): seq<Entry> {
    var i := FirstOpen(t, pid, inode);
    if Available(t, inode) && i < |t| then t[i := t[i].(locked := pid)] else t
  }

  function Closed(t: seq<Entry>, pid: Word): (c: seq<Entry>)
    ensures |c| == |t|
  {
    seq(|t|, i requires 0 <= i < |t| => if t[i].pid == pid then FREE else t[i])
  }

  // ---------- one writer per inode ----------

  /** At most one locked entry for every inode but 0, and free entries are empty. */
  predicate OneWriter(t: seq<Entry>) {
    && (forall i, j :: 0 <= i < j < |t| && t[i].inode == t[j].inode != 0 ==> t[i].locked == 0 || t[j].locked == 0)
    && (forall i :: 0 <= i < |t| && t[i].pid == 0 ==> t[i] == FREE)
  }

  /** What processes do to the table. */
  datatype TableOperation =
    | OpenFile(pid: Word, inode: Word, name: string, write: bool)
    | LockOpenFile(pid: Word, inode: Word)
    | CreatePipe(pid: Word, name: string, buffer: Word)
    | CloseAll(pid: Word)

  /** The table after an operation; a panic stops the system, here with the table as it was. */
  function TableStep(t: seq<Entry>, op: TableOperation): seq<Entry> {
    match op
    case OpenFile(pid, inode, name, write) =>
      if Panics(t) then t
      else
        var grown := Inserted(t, FileEntry(pid, inode, name));
        if write then Locked(grown, pid, inode) else grown
    case LockOpenFile(pid, inode) => Locked(t, pid, inode)
    case CreatePipe(pid, name, buffer) => if Panics(t) then t else Inserted(t, PipeEntry(pid, name, buffer, pid))
    case CloseAll(pid) => Closed(t, pid)
  }

  function TableRun(t: seq<Entry>, ops: seq<TableOperation>): seq<Entry>
    decreases |ops|
  {
    if ops == [] then t else TableRun(TableStep(t, ops[0]), ops[1..])
  }

  lemma InsertKeeps(t: seq<Entry>, e: Entry)
    requires OneWriter(t) && e.pid != 0 && (e.inode == 0 || e.locked == 0)
    ensures OneWriter(Inserted(t, e))
  {
  }

  lemma LockKeeps(t: seq<Entry>, pid: Word, inode: Word)
    requires OneWriter(t) && pid != 0
    ensures OneWriter(Locked(t, pid, inode))
    ensures Available(t, inode) && FirstOpen(t, pid, inode) < |t|
            ==> Locked(t, pid, inode)[FirstOpen(t, pid, inode)].locked == pid
  {
  }

  lemma CloseKeeps(t: seq<Entry>, pid: Word)
    requires OneWriter(t)
    ensures OneWriter(Closed(t, pid))
  {
  }

  /**
    * After a process has closed its files it has no entry left, no other entry has changed, and a file is available
    * again exactly when no other process has it locked.
    */
  lemma CloseFrees(t: seq<Entry>, pid: Word, inode: Word)
    requires pid != 0 && inode != 0
    ensures forall i :: 0 <= i < |t| ==> Closed(t, pid)[i].pid != pid && (t[i].pid != pid ==> Closed(t, pid)[i] == t[i])
    ensures Available(Closed(t, pid), inode)
       <==> forall i :: 0 <= i < |t| && t[i].inode == inode && t[i].pid != pid ==> t[i].locked == 0
  {
    var c := Closed(t, pid);
    assert forall i :: 0 <= i < |t| ==> c[i] == if t[i].pid == pid then FREE else t[i];
  }

  /** Over every run, at most one entry with a given inode is locked for writing. */
  lemma {:induction false} RunKeepsOneWriter(t: seq<Entry>, ops: seq<TableOperation>)
    requires OneWriter(t) && forall k :: 0 <= k < |ops| ==> ops[k].pid != 0
    ensures OneWriter(TableRun(t, ops))
    decreases |ops|
  {
    hide OneWriter, Inserted, Locked, Closed, Panics;
    if ops != [] {
      var op := ops[0];
      match op {
        case OpenFile(pid, inode, name, write) =>
          InsertKeeps(t, FileEntry(pid, inode, name));
          LockKeeps(Inserted(t, FileEntry(pid, inode, name)), pid, inode);
        case LockOpenFile(pid, inode) => LockKeeps(t, pid, inode);
        case CreatePipe(pid, name, buffer) => InsertKeeps(t, PipeEntry(pid, name, buffer, pid));
        case CloseAll(pid) => CloseKeeps(t, pid);
      }
      RunKeepsOneWriter(TableStep(t, op), ops[1..]);
    }
  }

  // ---------- the table in memory ----------

  class GlobalObjectTable {
    const entries: array<Entry>

    ghost predicate Valid()
      reads this, entries
    {
      entries.Length == MAX_ENTRIES && OneWriter(entries[..])
    }

    constructor ()
      ensures Valid() && fresh(entries) && forall i :: 0 <= i < MAX_ENTRIES ==> entries[i] == FREE
    {
      entries := new Entry[MAX_ENTRIES](i => FREE);
    }

    /** `insertGlobalObjectTableEntry`: the slot used, or a panic; a live entry is never overwritten. */
    method Insert(e: Entry) returns (panic: bool, slot: nat)
      requires Valid() && e.pid != 0 && (e.inode == 0 || e.locked == 0)
      modifies entries
      ensures Valid()
      ensures panic <==> Panics(old(entries[..]))
      ensures panic ==> entries[..] == old(entries[..])
      ensures !panic
              ==> slot < MAX_ENTRIES && old(entries[slot]) == FREE && entries[..] == Inserted(old(entries[..]), e)
    {
      hide OneWriter;
      var next, number := 0, 0;
      ghost var t := entries[..];
      while next == 0 && number < MAX_ENTRIES
        invariant 0 <= number <= MAX_ENTRIES && entries[..] == t
        invariant next == 0 ==> number < MAX_ENTRIES && forall k :: 0 <= k < number ==> t[k].pid != 0
        invariant next != 0 ==> next == number < MAX_ENTRIES && FirstFree(t) == number - 1
        decreases MAX_ENTRIES - number, if next == 0 then 1 else 0
      {
        if entries[number].pid == 0 {
          next := number + 1;
          FirstFreeAt(t, number);
        } else {
          LaterFree(t, number);
        }
        if number == MAX_ENTRIES - 1 { return true, 0; }
        number := number + 1;
      }
      slot := next - 1;
      FreeIsEmpty(t, slot);
      InsertKeeps(t, e);
      entries[slot] := e;
      panic := false;
    }

    /** `fileAvailableToBeLocked`. */
    method FileAvailable(inode: Word) returns (available: bool)
      requires Valid()
      ensures available <==> Available(entries[..], inode)
    {
      var i := 0;
      while i < MAX_ENTRIES
        invariant 0 <= i <= MAX_ENTRIES
        invariant forall k :: 0 <= k < i && entries[k].inode == inode ==> entries[k].locked == 0
      {
        if entries[i].inode == inode && entries[i].locked != 0 {
          assert entries[..][i].locked != 0;
          return false;
        }
        i := i + 1;
      }
      available := true;
    }

    /** `lockFile`: succeeds exactly when the file is available and the process has it open. */
    method LockFile(pid: Word, inode: Word) returns (locked: bool)
      requires Valid() && pid != 0
      modifies entries
      ensures Valid() && entries[..] == Locked(old(entries[..]), pid, inode)
      ensures locked <==> Available(old(entries[..]), inode)
                          && exists i :: 0 <= i < MAX_ENTRIES && old(entries[i]).pid == pid
                               && old(entries[i]).inode == inode
    {
      ghost var t := entries[..];
      LockKeeps(t, pid, inode);
      var available := FileAvailable(inode);
      if !available { return false; }
      var i := 0;
      while i < MAX_ENTRIES
        invariant 0 <= i <= MAX_ENTRIES && entries[..] == t
        invariant forall k :: 0 <= k < i ==> !(t[k].pid == pid && t[k].inode == inode)
      {
        if entries[i].inode == inode && entries[i].pid == pid {
          assert FirstOpen(t, pid, inode) == i;
          assert t[i] == old(entries[i]);
          entries[i] := entries[i].(locked := pid);
          return true;
        }
        i := i + 1;
      }
      assert forall k :: 0 <= k < MAX_ENTRIES ==> t[k] == old(entries[k]);
      locked := false;
    }

    /** `closeAllFiles`. */
    method CloseAllFiles(pid: Word)
      requires Valid()
      modifies entries
      ensures Valid() && entries[..] == Closed(old(entries[..]), pid)
    {
      ghost var t := entries[..];
      CloseKeeps(t, pid);
      var i := 0;
      while i < MAX_ENTRIES
        invariant 0 <= i <= MAX_ENTRIES
        invariant forall k :: 0 <= k < i ==> entries[k] == if t[k].pid == pid then FREE else t[k]
        invariant forall k :: i <= k < MAX_ENTRIES ==> entries[k] == t[k]
      {
        if entries[i].pid == pid { entries[i] := FREE; }
        i := i + 1;
      }
      assert entries[..] == Closed(t, pid);
    }
  }

  lemma FirstFreeAt(t: seq<Entry>, i: nat)
    requires i < |t| && t[i].pid == 0 && forall k :: 0 <= k < i ==> t[k].pid != 0
    ensures FirstFree(t) == i
  {
  }

  lemma LaterFree(t: seq<Entry>, i: nat)
    requires i < |t| && forall k :: 0 <= k <= i ==> t[k].pid != 0
    ensures FirstFree(t) > i
  {
  }

  lemma FreeIsEmpty(t: seq<Entry>, i: nat)
    requires OneWriter(t) && i < |t| && t[i].pid == 0
    ensures t[i] == FREE
  {
  }
}
