/** Named pipes: one kernel buffer shared by several entries of the object table. */
module Pipes {
  import opened Words
  import opened ObjectTable

  /** The table, the kernel buffers, and the messages so far written to and read from the buffer `watched`. */
  datatype State = State(table: seq<Entry>, buffers: map<Word, Message>, watched: Word, sent: seq<Message>,
    received: seq<Message>)

  function Buffer(s: State, buffer: Word): Message {
    if buffer in s.buffers then s.buffers[buffer] else []
  }

  /** The first entry that uses a kernel buffer, or the table's length. */
  function FirstUser(t: seq<Entry>, buffer: Word): (i: nat)
    ensures i <= |t|
    ensures i < |t| ==> t[i].buffer == buffer
    ensures forall k :: 0 <= k < i ==> t[k].buffer != buffer
  {
    if t == [] || t[0].buffer == buffer then 0 else 1 + FirstUser(t[1..], buffer)
  }

  /** The first pipe with that name, or the table's length. */
  function FindPipe(t: seq<Entry>, name: string): (i: nat)
    ensures i <= |t|
    ensures i < |t| ==> t[i].kind == Pipe && t[i].name == name
    ensures forall k :: 0 <= k < i ==> !(t[k].kind == Pipe && t[k].name == name)
  {
    if t == [] || (t[0].kind == Pipe && t[0].name == name) then 0 else 1 + FindPipe(t[1..], name)
  }

  datatype Operation =
    | Create(pid: Word, name: string, buffer: Word)
    | Open(pid: Word, name: string)
    | Write(entry: nat, message: Message)
    | Read(entry: nat)
    | CloseAll(pid: Word)

  predicate CanWrite(t: seq<Entry>, i: nat) {
    i < |t| && t[i].kind == Pipe && t[i].writeOffset != FULL
  }

  predicate CanRead(t: seq<Entry>, i: nat) {
    i < |t| && t[i].kind == Pipe && FirstUser(t, t[i].buffer) < |t| && t[FirstUser(t, t[i].buffer)].writeOffset != 0
  }

  /** The pipe branch of `sysWrite`. */
  function Written(s: State, i: nat, m: Message): State
    requires CanWrite(s.table, i)
  {
    var b := s.table[i].buffer;
    State(s.table[i := s.table[i].(writeOffset := FULL)], s.buffers[b := m], s.watched,
          if b == s.watched then s.sent + [m] else s.sent, s.received)
  }

  /** The pipe branch of `sysRead`: the reader's own entry is marked full, the first user's entry empty. */
  function ReadTable(t: seq<Entry>, i: nat): (r: seq<Entry>)
    requires CanRead(t, i)
    ensures |r| == |t|
  {
    var w := FirstUser(t, t[i].buffer);
    var marked := t[i := t[i].(writeOffset := FULL)];
    marked[w := marked[w].(readOffset := marked[i].readOffset, writeOffset := 0)]
  }

  function Consumed(s: State, i: nat): State
    requires CanRead(s.table, i)
  {
    var b := s.table[i].buffer;
    State(ReadTable(s.table, i), s.buffers, s.watched, s.sent,
          if b == s.watched then s.received + [Buffer(s, b)] else s.received)
  }

  function Step(s: State, op: Operation): State {
    match op
    case Create(pid, name, buffer) => if Panics(s.table) then s
      else s.(table := Inserted(s.table, PipeEntry(pid, name, buffer, pid)))
    case Open(pid, name) =>
      var i := FindPipe(s.table, name);
      if i == |s.table| || Panics(s.table) then s
        else s.(table := Inserted(s.table, PipeEntry(pid, name, s.table[i].buffer, 0)))
    case Write(i, m) => if CanWrite(s.table, i) then Written(s, i, m) else s
    case Read(i) => if CanRead(s.table, i) then Consumed(s, i) else s
    case CloseAll(pid) => s.(table := Closed(s.table, pid))
  }

  function Run(s: State, ops: seq<Operation>): State
    decreases |ops|
  {
    if ops == [] then s else Run(Step(s, ops[0]), ops[1..])
  }

  // ---------- a one-slot mailbox ----------

  /** The watched pipe's first entry is `w`, and what has been sent but not read is the message in its slot. */
  predicate Mailbox(s: State, w: nat) {
    && FirstUser(s.table, s.watched) == w < |s.table| && s.table[w].kind == Pipe && s.table[w].pid != 0
    && (s.table[w].writeOffset == 0 || s.table[w].writeOffset == FULL)
    && s.sent == s.received + (if s.table[w].writeOffset == FULL then [Buffer(s, s.watched)] else [])
  }

  /**
    * Writes to the watched pipe go through its first entry, new entries for it come after that one, and the
    * process of the first entry does not close its files. A pipe created on a full kernel heap has buffer 0, as
    * free entries have: for it no entry before the first may become free either.
    */
  predicate Proper(s: State, op: Operation, w: nat)
    requires w < |s.table|
  {
    match op
    case Create(_, _, buffer) => !Panics(s.table) && buffer == s.watched ==> FirstFree(s.table) > w
    case Open(_, name) => !Panics(s.table) && Opens(s, name) ==> FirstFree(s.table) > w
    case Write(i, _) => CanWrite(s.table, i) && s.table[i].buffer == s.watched ==> i == w
    case Read(_) => true
    case CloseAll(pid) => s.table[w].pid != pid && (s.watched == 0 ==> forall k :: 0 <= k < w ==> s.table[k].pid != pid)
  }

  /** Opening this name gives an entry for the watched buffer. */
  predicate Opens(s: State, name: string) {
    FindPipe(s.table, name) < |s.table| && s.table[FindPipe(s.table, name)].buffer == s.watched
  }

  predicate AllProper(s: State, ops: seq<Operation>, w: nat)
    requires w < |s.table|
    decreases |ops|
  {
    ops == [] || (Proper(s, ops[0], w) && AllProper(Step(s, ops[0]), ops[1..], w))
  }

  lemma FirstUserAt(t: seq<Entry>, buffer: Word, w: nat)
    requires w < |t| && t[w].buffer == buffer && forall k :: 0 <= k < w ==> t[k].buffer != buffer
    ensures FirstUser(t, buffer) == w
  {
  }

  lemma InsertStep(s: State, e: Entry, w: nat)
    requires Mailbox(s, w)
    ensures Mailbox(s.(table := Inserted(s.table, e)), w) <==> e.buffer != s.watched || FirstFree(s.table) > w
  {
    hide FirstUser, FirstFree;
    var f := FirstFree(s.table);
    assert f != w;
    if e.buffer != s.watched || f > w {
      FirstUserAt(Inserted(s.table, e), s.watched, w);
    } else {
      FirstUserAt(Inserted(s.table, e), s.watched, f);
    }
  }

  /** A write through another entry is lost, or overwrites the message in the slot. */
  lemma WriteStep(s: State, i: nat, m: Message, w: nat)
    requires Mailbox(s, w) && CanWrite(s.table, i)
    ensures Mailbox(Written(s, i, m), w) <==> (s.table[i].buffer == s.watched ==> i == w)
  {
    hide FirstUser;
    FirstUserAt(Written(s, i, m).table, s.watched, w);
  }

  lemma ReadStep(s: State, i: nat, w: nat)
    requires Mailbox(s, w) && CanRead(s.table, i)
    ensures Mailbox(Consumed(s, i), w)
  {
    FirstUserAt(ReadTable(s.table, i), s.watched, w);
  }

  lemma CloseStep(s: State, pid: Word, w: nat)
    requires Mailbox(s, w)
    ensures Mailbox(s.(table := Closed(s.table, pid)), w) <==> Proper(s, Operation.CloseAll(pid), w)
  {
    hide FirstUser;
    var after := Closed(s.table, pid);
    if Proper(s, Operation.CloseAll(pid), w) {
      assert forall k :: 0 <= k < w ==> after[k].buffer != s.watched;
      FirstUserAt(after, s.watched, w);
    } else if s.table[w].pid != pid {
      var k :| 0 <= k < w && s.table[k].pid == pid;
      assert after[k].buffer == s.watched;
    }
  }

  /** A step keeps the mailbox exactly when it is proper. */
  lemma MailboxStepIff(s: State, op: Operation, w: nat)
    requires Mailbox(s, w)
    ensures Mailbox(Step(s, op), w) <==> Proper(s, op, w)
  {
    hide Mailbox, Written, Consumed, Inserted, CanWrite, CanRead;
    match op {
      case Create(pid, name, buffer) => InsertStep(s, PipeEntry(pid, name, buffer, pid), w);
      case Open(pid, name) =>
        var i := FindPipe(s.table, name);
        if i < |s.table| { InsertStep(s, PipeEntry(pid, name, s.table[i].buffer, 0), w); }
      case Write(i, m) =>
        if CanWrite(s.table, i) { WriterEntry(s.table, i); WriteStep(s, i, m, w); }
      case Read(i) =>
        if CanRead(s.table, i) { ReadStep(s, i, w); }
      case CloseAll(pid) => CloseStep(s, pid, w);
    }
  }

  lemma WriterEntry(t: seq<Entry>, i: nat)
    requires CanWrite(t, i)
    ensures i < |t|
  {
  }

  /**
    * A pipe is a one-slot mailbox: over every run in which writes go through the creator's entry, and that entry
    * stays open and first, the messages read are a prefix of the messages written, with at most one in flight.
    */
  lemma {:induction false} MailboxRun(s: State, ops: seq<Operation>, w: nat)
    requires Mailbox(s, w) && AllProper(s, ops, w)
    ensures Mailbox(Run(s, ops), w)
    ensures Run(s, ops).received <= Run(s, ops).sent && |Run(s, ops).sent| <= |Run(s, ops).received| + 1
    decreases |ops|
  {
    hide Proper, Step;
    if ops != [] {
      MailboxStepIff(s, ops[0], w);
      MailboxRun(Step(s, ops[0]), ops[1..], w);
    }
  }

  /** The pipe stays a mailbox throughout a run exactly when every step of the run is proper. */
  lemma {:induction false} MailboxRunIff(s: State, ops: seq<Operation>, w: nat)
    requires Mailbox(s, w)
    ensures AllProper(s, ops, w) <==> forall k :: 0 <= k <= |ops| ==> Mailbox(Run(s, ops[..k]), w)
    decreases |ops|
  {
    assert w < |s.table|;
    hide Mailbox, Proper, Step;
    if ops == [] {
      assert ops[..0] == [];
    } else {
      MailboxStepIff(s, ops[0], w);
      RunPrefix(s, ops);
      if Proper(s, ops[0], w) {
        MailboxRunIff(Step(s, ops[0]), ops[1..], w);
        forall k | 0 <= k <= |ops|
          ensures Mailbox(Run(s, ops[..k]), w) <==> k == 0 || Mailbox(Run(Step(s, ops[0]), ops[1..][..k - 1]), w)
        {
          assert ops[..0] == [];
        }
        forall k | 0 <= k <= |ops[1..]|
          ensures Mailbox(Run(s, ops[..k + 1]), w) <==> Mailbox(Run(Step(s, ops[0]), ops[1..][..k]), w)
        {
        }
      } else {
        assert ops[1..][..0] == [];
        assert Run(s, ops[..1]) == Step(s, ops[0]);
      }
    }
  }

  lemma RunPrefix(s: State, ops: seq<Operation>)
    requires ops != []
    ensures forall k :: 0 < k <= |ops| ==> Run(s, ops[..k]) == Run(Step(s, ops[0]), ops[1..][..k - 1])
  {
    hide Step;
    forall k | 0 < k <= |ops|
      ensures Run(s, ops[..k]) == Run(Step(s, ops[0]), ops[1..][..k - 1])
    {
      assert ops[..k][1..] == ops[1..][..k - 1];
    }
  }

  // ---------- delivery ----------

  /** Entry `i` is open on the watched pipe. */
  predicate Watches(s: State, i: nat) {
    i < |s.table| && s.table[i].kind == Pipe && s.table[i].buffer == s.watched
  }

  /** Reading through any entry of a mailbox, its first one included, leaves nothing in flight. */
  lemma ReadDelivers(s: State, i: nat, w: nat)
    requires Mailbox(s, w) && Watches(s, i)
    ensures var after := Step(s, Read(i)); after.received == s.sent == after.sent
    ensures Watches(Step(s, Read(i)), i)
  {
  }

  /** With nothing in flight, the first entry's next message is taken. */
  lemma WriteAccepted(s: State, m: Message, i: nat, w: nat)
    requires Mailbox(s, w) && s.sent == s.received && Watches(s, i)
    ensures var after := Step(s, Write(w, m)); after.sent == s.sent + [m] && after.received == s.received
    ensures Watches(Step(s, Write(w, m)), i)
  {
    hide FirstUser;
    assert |s.received| == |s.sent|;
  }

  lemma {:induction false} RunAppend(s: State, ops: seq<Operation>, op: Operation)
    ensures Run(s, ops + [op]) == Step(Run(s, ops), op)
    decreases |ops|
  {
    hide Step;
    if ops == [] {
      assert ops + [op] == [op] && [op][1..] == [];
    } else {
      assert (ops + [op])[1..] == ops[1..] + [op];
      RunAppend(Step(s, ops[0]), ops[1..], op);
    }
  }

  /** After every proper run, one read through any entry still open on the pipe delivers all that was sent. */
  lemma RunDelivers(s: State, ops: seq<Operation>, i: nat, w: nat)
    requires Mailbox(s, w) && AllProper(s, ops, w) && Watches(Run(s, ops), i)
    ensures var after := Run(s, ops + [Read(i)]); after.received == after.sent == Run(s, ops).sent
  {
    hide Step, Mailbox, AllProper, Watches;
    MailboxRun(s, ops, w);
    RunAppend(s, ops, Read(i));
    ReadDelivers(Run(s, ops), i, w);
  }

  /** Each message written through entry `w` and read through entry `i`. */
  function Exchange(messages: seq<Message>, w: nat, i: nat): seq<Operation> {
    if messages == [] then [] else [Write(w, messages[0]), Read(i)] + Exchange(messages[1..], w, i)
  }

  /** Any messages exchanged in turn all arrive, in order, also when one process writes and reads. */
  lemma {:induction false} ExchangeDelivers(s: State, messages: seq<Message>, i: nat, w: nat)
    requires Mailbox(s, w) && s.sent == s.received && Watches(s, i)
    ensures var after := Run(s, Exchange(messages, w, i));
            after.sent == after.received == s.received + messages
    decreases |messages|
  {
    hide Mailbox, Step, Watches;
    if messages != [] {
      var ops, m := Exchange(messages, w, i), messages[0];
      var s1 := Step(s, Write(w, m));
      var s2 := Step(s1, Read(i));
      WriteAccepted(s, m, i, w);
      WriteThenRead(s, m, i, w);
      ReadDelivers(s1, i, w);
      ExchangeDelivers(s2, messages[1..], i, w);
      assert ops[0] == Write(w, m) && ops[1..][0] == Read(i) && ops[1..][1..] == Exchange(messages[1..], w, i);
      assert Run(s, ops) == Run(s1, ops[1..]) == Run(s2, ops[1..][1..]);
      assert s.received + [m] + messages[1..] == s.received + messages;
    }
  }

  lemma WriteThenRead(s: State, m: Message, i: nat, w: nat)
    requires Mailbox(s, w)
    ensures Mailbox(Step(s, Write(w, m)), w) && Mailbox(Step(Step(s, Write(w, m)), Read(i)), w)
  {
    MailboxStepIff(s, Write(w, m), w);
    MailboxStepIff(Step(s, Write(w, m)), Read(i), w);
  }

  /** A pipe starts as an empty mailbox at the creator's entry. */
  lemma CreatedMailbox(t: seq<Entry>, pid: Word, name: string, buffer: Word)
    requires pid != 0 && !Panics(t) && forall k :: 0 <= k < |t| ==> t[k].buffer != buffer
    ensures Mailbox(State(Inserted(t, PipeEntry(pid, name, buffer, pid)), map[], buffer, [], []), FirstFree(t))
  {
    hide FirstFree, FirstUser;
    var after := t[FirstFree(t) := PipeEntry(pid, name, buffer, pid)];
    assert forall k :: 0 <= k < FirstFree(t) ==> after[k] == t[k];
    FirstUserAt(after, buffer, FirstFree(t));
  }

  /** A process that opens a pipe by its name reads all that its creator writes, whatever else is in the table. */
  lemma OpenedByName(t: seq<Entry>, pid: Word, name: string, buffer: Word, reader: Word, messages: seq<Message>)
    requires pid != 0 && reader != 0 && !Panics(t) && !Panics(Inserted(t, PipeEntry(pid, name, buffer, pid)))
    requires forall k :: 0 <= k < |t| ==> t[k].buffer != buffer && !(t[k].kind == Pipe && t[k].name == name)
    ensures var w, i := FirstFree(t), FirstFree(Inserted(t, PipeEntry(pid, name, buffer, pid)));
            var shared := Step(Step(State(t, map[], buffer, [], []), Create(pid, name, buffer)), Open(reader, name));
            && w != i && shared.table[w].pid == pid && shared.table[i].pid == reader
            && Run(shared, Exchange(messages, w, i)).received == messages
  {
    hide FirstFree, FirstUser, Run, Exchange;
    var s := State(t, map[], buffer, [], []);
    var w := FirstFree(t);
    var created := Step(s, Create(pid, name, buffer));
    CreatedMailbox(t, pid, name, buffer);
    assert forall k :: 0 <= k < |t| && k != w ==> created.table[k] == t[k];
    assert FindPipe(created.table, name) == w;
    var i := FirstFree(created.table);
    assert i > w;
    MailboxStepIff(created, Open(reader, name), w);
    ExchangeDelivers(Step(created, Open(reader, name)), messages, i, w);
    assert [] + messages == messages;
  }

  /** Two writes through different entries: the second overwrites the first, which is never read. */
  lemma WritingThroughOpenerLoses(m1: Message, m2: Message)
    requires m1 != m2
    ensures var t := [PipeEntry(1, "p", 9, 1), PipeEntry(2, "p", 9, 0), FREE, FREE];
            var s := Run(State(t, map[], 9, [], []), [Write(0, m1), Write(1, m2), Read(1)]);
            s.sent == [m1, m2] && s.received == [m2] && !(s.received <= s.sent)
  {
    var s0 := State([PipeEntry(1, "p", 9, 1), PipeEntry(2, "p", 9, 0), FREE, FREE], map[], 9, [], []);
    var s1 := Step(s0, Write(0, m1));
    var s2 := Step(s1, Write(1, m2));
    FirstUserAt(s2.table, 9, 0);
    var s3 := Step(s2, Read(1));
    assert s3.sent == [m1, m2] && s3.received == [m2];
    assert s3.sent[0] != s3.received[0];
    RunThree(s0, Write(0, m1), Write(1, m2), Read(1));
  }

  lemma RunThree(s: State, a: Operation, b: Operation, c: Operation)
    ensures Run(s, [a, b, c]) == Step(Step(Step(s, a), b), c)
  {
    hide Step;
    assert [a, b, c][1..] == [b, c] && [b, c][1..] == [c] && [c][1..] == [];
    var s1, s2 := Step(s, a), Step(Step(s, a), b);
    assert Run(s2, [c]) == Run(Step(s2, c), []);
    assert Run(s1, [b, c]) == Run(s2, [c]);
  }

  // ---------- the system calls on the table in memory ----------

  class KernelPipes {
    const table: GlobalObjectTable
    var buffers: map<Word, Message>

    constructor (table: GlobalObjectTable)
      ensures this.table == table && buffers == map[]
    {
      this.table := table;
      buffers := map[];
    }

    /** The scan for the first entry with the same kernel buffer. */
    method FindUser(buffer: Word) returns (w: nat)
      ensures w == FirstUser(table.entries[..], buffer)
    {
      w := 0;
      while w < table.entries.Length && table.entries[w].buffer != buffer
        invariant 0 <= w <= table.entries.Length
        invariant forall k :: 0 <= k < w ==> table.entries[k].buffer != buffer
      {
        w := w + 1;
      }
      UserIs(table.entries[..], buffer, w);
    }

    /** The pipe branch of `sysWrite`: a full entry is left alone. */
    method WritePipe(i: nat, m: Message) returns (written: bool)
      requires i < table.entries.Length
      modifies this, table.entries
      ensures written == CanWrite(old(table.entries[..]), i)
      ensures !written ==> table.entries[..] == old(table.entries[..]) && buffers == old(buffers)
      ensures written ==> forall watched, sent, received ::
                var before := State(old(table.entries[..]), old(buffers), watched, sent, received);
                Written(before, i, m).table == table.entries[..] && Written(before, i, m).buffers == buffers
    {
      var e := table.entries[i];
      if e.kind != Pipe || e.writeOffset == FULL { return false; }
      written := true;
      buffers := buffers[e.buffer := m];
      table.entries[i] := e.(writeOffset := FULL);
    }

    /** The pipe branch of `sysRead`. */
    method ReadPipe(i: nat) returns (read: bool, m: Message)
      requires i < table.entries.Length
      modifies table.entries
      ensures read == CanRead(old(table.entries[..]), i)
      ensures buffers == old(buffers)
      ensures read ==> table.entries[..] == ReadTable(old(table.entries[..]), i)
      ensures read ==> var b := old(table.entries[i]).buffer; m == if b in buffers then buffers[b] else []
      ensures !read ==> table.entries[..] == old(table.entries[..])
    {
      read, m := false, [];
      var e := table.entries[i];
      if e.kind != Pipe { return; }
      var w := FindUser(e.buffer);
      UserBefore(table.entries[..], i);
      if table.entries[w].writeOffset == 0 { return; }
      m := if e.buffer in buffers then buffers[e.buffer] else [];
      table.entries[i] := e.(writeOffset := FULL);
      table.entries[w] := table.entries[w].(readOffset := e.readOffset, writeOffset := 0);
      read := true;
    }
  }

  lemma UserIs(t: seq<Entry>, buffer: Word, w: nat)
    requires w <= |t| && (w < |t| ==> t[w].buffer == buffer) && forall k :: 0 <= k < w ==> t[k].buffer != buffer
    ensures FirstUser(t, buffer) == w
  {
  }

  lemma UserBefore(t: seq<Entry>, i: nat)
    requires i < |t|
    ensures FirstUser(t, t[i].buffer) <= i
  {
  }
}
