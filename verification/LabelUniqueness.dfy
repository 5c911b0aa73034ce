/** When the labels the compiler invents are distinct. */
module LabelUniqueness {
  import opened LibcText
  import opened X86
  import opened SourceLanguage
  import opened CodeGenerator
  import opened AsmMachine
  import opened CompilerCorrectness

  /** How often a label is defined. */
  function Defs(code: seq<Asm>, name: string): nat {
    if code == [] then 0 else (if code[0] == LabelDef(name) then 1 else 0) + Defs(code[1..], name)
  }

  lemma {:induction false} DefsAppend(a: seq<Asm>, b: seq<Asm>, name: string)
    ensures Defs(a + b, name) == Defs(a, name) + Defs(b, name)
  {
    if a == [] {
      assert a + b == b;
    } else {
      assert (a + b)[1..] == a[1..] + b;
      DefsAppend(a[1..], b, name);
    }
  }

  predicate LabelFree(code: seq<Asm>) {
    forall a :: a in code ==> !a.LabelDef?
  }

  lemma {:induction false} LabelFreeDefs(code: seq<Asm>, name: string)
    requires LabelFree(code)
    ensures Defs(code, name) == 0
  {
    if code != [] { LabelFreeDefs(code[1..], name); }
  }

  lemma {:induction false} AddChainLabelFree(adds: seq<string>)
    ensures LabelFree(AddChain(adds))
  {
    if adds != [] { AddChainLabelFree(adds[1..]); }
  }

  lemma ExprLabelFree(e: Expr, syms: seq<string>, strings: seq<string>)
    ensures LabelFree(CompileExpr(e, syms, strings).code)
  {
    AddChainLabelFree(e.adds);
  }

  lemma {:induction false} ArgsLabelFree(args: seq<Expr>, syms: seq<string>, strings: seq<string>)
    ensures forall ec :: ec in CompileArgs(args, syms, strings).0 ==> LabelFree(ec.code)
    decreases |args|
  {
    if args != [] {
      ExprLabelFree(args[0], syms, strings);
      ArgsLabelFree(args[1..], CompileExpr(args[0], syms, strings).syms, strings);
    }
  }

  lemma {:induction false} PushArgsLabelFree(args: seq<ExprCode>)
    requires forall ec :: ec in args ==> LabelFree(ec.code)
    ensures LabelFree(PushArgs(args))
  {
    if args != [] { PushArgsLabelFree(args[1..]); }
  }

  // ---------- names ----------

  /** Loop and else labels say which; an end label does not say whether it ends a loop or a conditional. */
  lemma LabelNames(j: nat, k: nat)
    ensures LoopLabel(j) == LoopLabel(k) <==> j == k
    ensures ElseLabel(j) == ElseLabel(k) <==> j == k
    ensures EndLabel(j) == EndLabel(k) <==> j == k
    ensures LoopLabel(j) != ElseLabel(k) && LoopLabel(j) != EndLabel(k) && ElseLabel(j) != EndLabel(k)
  {
    assert LoopLabel(j)[0] == 'l' && ElseLabel(k)[0] == 'e' && EndLabel(k)[0] == 'e';
    assert ElseLabel(j)[1] == 'l' && EndLabel(k)[1] == 'n';
    if LoopLabel(j) == LoopLabel(k) {
      assert LoopLabel(j)[5..] == Decimal(j) && LoopLabel(k)[5..] == Decimal(k);
      NumeralInjective(j, k);
    }
    if ElseLabel(j) == ElseLabel(k) {
      assert ElseLabel(j)[5..] == Decimal(j) && ElseLabel(k)[5..] == Decimal(k);
      NumeralInjective(j, k);
    }
    if EndLabel(j) == EndLabel(k) {
      assert EndLabel(j)[4..] == Decimal(j) && EndLabel(k)[4..] == Decimal(k);
      NumeralInjective(j, k);
    }
  }

  function One(b: bool): nat { if b then 1 else 0 }

  /** The definitions of the `k`-th labels in code that moved the counters from `t` to `t'`. */
  predicate CountedDefs(code: seq<Asm>, t: Tables, t': Tables, k: nat) {
    && Defs(code, LoopLabel(k)) == One(t.loops <= k < t'.loops)
    && Defs(code, ElseLabel(k)) == One(t.ifs <= k < t'.ifs)
    && Defs(code, EndLabel(k)) == One(t.loops <= k < t'.loops) + One(t.ifs <= k < t'.ifs)
  }

  lemma CountedAppend(a: seq<Asm>, b: seq<Asm>, t: Tables, t1: Tables, t2: Tables, k: nat)
    requires Grown(t, t1) && Grown(t1, t2)
    requires CountedDefs(a, t, t1, k) && CountedDefs(b, t1, t2, k)
    ensures CountedDefs(a + b, t, t2, k)
  {
    DefsAppend(a, b, LoopLabel(k));
    DefsAppend(a, b, ElseLabel(k));
    DefsAppend(a, b, EndLabel(k));
  }

  lemma CountedNone(code: seq<Asm>, t: Tables, t': Tables, k: nat)
    requires LabelFree(code) && t.loops == t'.loops && t.ifs == t'.ifs
    ensures CountedDefs(code, t, t', k)
  {
    LabelFreeDefs(code, LoopLabel(k));
    LabelFreeDefs(code, ElseLabel(k));
    LabelFreeDefs(code, EndLabel(k));
  }

  lemma DefsSandwich(head: seq<Asm>, inner: seq<Asm>, tail: seq<Asm>, name: string)
    ensures Defs(head + inner + tail, name) == Defs(head, name) + Defs(inner, name) + Defs(tail, name)
  {
    DefsAppend(head + inner, tail, name);
    DefsAppend(head, inner, name);
  }

  lemma WhileDefs(n: nat, off: int, bound: string, inner: seq<Asm>, name: string)
    ensures Defs(WhileCode(n, off, bound, inner), name)
         == Defs(inner, name) + One(name == LoopLabel(n)) + One(name == EndLabel(n))
  {
    var head, tail := WhileHead(n, off, bound), WhileTail(n);
    DefsSandwich(head, inner, tail, name);
    LabelFreeDefs(head[1..], name);
    LabelFreeDefs([], name);
    assert tail[1..] == [LabelDef(EndLabel(n))];
    assert tail[1..][1..] == [];
  }

  lemma IfDefs(n: nat, off1: int, off2: int, first: seq<Asm>, second: seq<Asm>, name: string)
    ensures Defs(IfCode(n, off1, off2, first, second), name)
         == Defs(first, name) + Defs(second, name) + One(name == ElseLabel(n)) + One(name == EndLabel(n))
  {
    var head, middle, end := IfHead(n, off1, off2), IfMiddle(n), [LabelDef(EndLabel(n))];
    DefsSandwich(head + first + middle, second, end, name);
    DefsSandwich(head, first, middle, name);
    LabelFreeDefs(head, name);
    assert middle[1..] == [LabelDef(ElseLabel(n))] && middle[1..][1..] == [];
    assert end[1..] == [];
  }

  lemma {:induction false} StmtCounted(s: Stmt, t: Tables, k: nat)
    ensures CountedDefs(CompileStmt(s, t).code, t, CompileStmt(s, t).tables, k)
    decreases StmtSize(s), 1
  {
    match s {
      case Declare(_) => CountedNone([], t, CompileStmt(s, t).tables, k);
      case DeclareString(_, _) => CountedNone([], t, CompileStmt(s, t).tables, k);
      case DeclareInit(name, e) => ExprLabelFree(e, t.syms, t.strings);
        CountedNone(CompileStmt(s, t).code, t, CompileStmt(s, t).tables, k);
      case Assign(name, e) => ExprLabelFree(e, t.syms, t.strings);
        CountedNone(CompileStmt(s, t).code, t, CompileStmt(s, t).tables, k);
      case CallDefined(_) => CountedNone(CompileStmt(s, t).code, t, CompileStmt(s, t).tables, k);
      case CallExternal(name, args) =>
        ArgsLabelFree(args, t.syms, t.strings);
        PushArgsLabelFree(CompileArgs(args, t.syms, t.strings).0);
        CountedNone(CompileStmt(s, t).code, t, CompileStmt(s, t).tables, k);
      case While(left, bound, body) => WhileCounted(left, bound, body, t, k);
      case If(left, right, thenBlock, elseBlock) => IfCounted(left, right, thenBlock, elseBlock, t, k);
    }
  }

  lemma {:induction false} WhileCounted(left: string, bound: string, body: Block, t: Tables, k: nat)
    ensures var c := CompileStmt(While(left, bound, body), t); CountedDefs(c.code, t, c.tables, k)
    decreases StmtSize(While(left, bound, body)), 0
  {
    var t0 := t.(syms := Touch(t.syms, left), loops := t.loops + 1);
    var inner := CompileBlock(body, t0);
    BlockCounted(body, t0, k);
    BlockGrows(body, t0);
    WhileCodeCounted(OffsetOf(t.syms, left), bound, inner.code, t, t0, inner.tables, k);
  }

  lemma WhileCodeCounted(off: int, bound: string, inner: seq<Asm>, t: Tables, t0: Tables, t1: Tables, k: nat)
    requires t0.loops == t.loops + 1 && t0.ifs == t.ifs && Grown(t0, t1)
    requires CountedDefs(inner, t0, t1, k)
    ensures CountedDefs(WhileCode(t.loops, off, bound, inner), t, t1, k)
  {
    hide WhileCode, LoopLabel, ElseLabel, EndLabel, Defs;
    LabelNames(k, t.loops);
    LabelNames(t.loops, k);
    WhileDefs(t.loops, off, bound, inner, LoopLabel(k));
    WhileDefs(t.loops, off, bound, inner, ElseLabel(k));
    WhileDefs(t.loops, off, bound, inner, EndLabel(k));
  }

  lemma {:induction false} IfCounted(left: string, right: string, thenBlock: Block, elseBlock: Option<Block>, t: Tables,
                                     k: nat)
    ensures var c := CompileStmt(If(left, right, thenBlock, elseBlock), t); CountedDefs(c.code, t, c.tables, k)
    decreases StmtSize(If(left, right, thenBlock, elseBlock)), 0
  {
    var syms1 := Touch(t.syms, left);
    var t0 := t.(syms := Touch(syms1, right), ifs := t.ifs + 1);
    var t1 := CompileBlock(thenBlock, t0);
    BlockCounted(thenBlock, t0, k);
    BlockGrows(thenBlock, t0);
    var t2 := if elseBlock.Some? then CompileBlock(elseBlock.value, t1.tables) else Compiled([], t1.tables);
    if elseBlock.Some? {
      BlockCounted(elseBlock.value, t1.tables, k);
      BlockGrows(elseBlock.value, t1.tables);
    } else {
      CountedNone([], t1.tables, t1.tables, k);
    }
    IfCodeCounted(OffsetOf(t.syms, left), OffsetOf(syms1, right), t1.code, t2.code, t, t0, t1.tables, t2.tables, k);
  }

  lemma IfCodeCounted(off1: int, off2: int, first: seq<Asm>, second: seq<Asm>, t: Tables, t0: Tables, t1: Tables,
                      t2: Tables, k: nat)
    requires t0.loops == t.loops && t0.ifs == t.ifs + 1 && Grown(t0, t1) && Grown(t1, t2)
    requires CountedDefs(first, t0, t1, k) && CountedDefs(second, t1, t2, k)
    ensures CountedDefs(IfCode(t.ifs, off1, off2, first, second), t, t2, k)
  {
    hide IfCode, LoopLabel, ElseLabel, EndLabel, Defs;
    LabelNames(k, t.ifs);
    LabelNames(t.ifs, k);
    IfDefs(t.ifs, off1, off2, first, second, LoopLabel(k));
    IfDefs(t.ifs, off1, off2, first, second, ElseLabel(k));
    IfDefs(t.ifs, off1, off2, first, second, EndLabel(k));
  }

  lemma {:induction false} BlockCounted(b: Block, t: Tables, k: nat)
    ensures CountedDefs(CompileBlock(b, t).code, t, CompileBlock(b, t).tables, k)
    decreases BlockSize(b), 0
  {
    if b.Empty? {
      CountedNone([], t, t, k);
    } else {
      var first := CompileStmt(b.head, t);
      var rest := CompileBlock(b.tail, first.tables);
      StmtCounted(b.head, t, k);
      BlockCounted(b.tail, first.tables, k);
      StmtGrows(b.head, t);
      BlockGrows(b.tail, first.tables);
      CountedAppend(first.code, rest.code, t, first.tables, rest.tables, k);
    }
  }

  // ---------- no other labels ----------

  ghost predicate Invented(name: string) {
    exists k: nat :: name == LoopLabel(k) || name == ElseLabel(k) || name == EndLabel(k)
  }

  lemma NotInvented(name: string, n: nat)
    requires !Invented(name)
    ensures name != LoopLabel(n) && name != ElseLabel(n) && name != EndLabel(n)
  {
  }

  lemma PlainInvented(s: Stmt, t: Tables, name: string)
    requires !s.While? && !s.If?
    ensures Defs(CompileStmt(s, t).code, name) == 0
  {
    match s {
      case DeclareInit(_, e) => ExprLabelFree(e, t.syms, t.strings);
      case Assign(_, e) => ExprLabelFree(e, t.syms, t.strings);
      case CallExternal(_, args) =>
        ArgsLabelFree(args, t.syms, t.strings);
        PushArgsLabelFree(CompileArgs(args, t.syms, t.strings).0);
      case _ =>
    }
    LabelFreeDefs(CompileStmt(s, t).code, name);
  }

  lemma {:induction false} StmtInvented(s: Stmt, t: Tables, name: string)
    requires !Invented(name)
    ensures Defs(CompileStmt(s, t).code, name) == 0
    decreases StmtSize(s)
  {
    hide Invented, Defs, LoopLabel, ElseLabel, EndLabel, WhileCode, IfCode;
    match s {
      case While(left, bound, body) =>
        var t0 := t.(syms := Touch(t.syms, left), loops := t.loops + 1);
        BlockInvented(body, t0, name);
        NotInvented(name, t.loops);
        WhileDefs(t.loops, OffsetOf(t.syms, left), bound, CompileBlock(body, t0).code, name);
      case If(left, right, thenBlock, elseBlock) =>
        var syms1 := Touch(t.syms, left);
        var t0 := t.(syms := Touch(syms1, right), ifs := t.ifs + 1);
        var t1 := CompileBlock(thenBlock, t0);
        BlockInvented(thenBlock, t0, name);
        var second := if elseBlock.Some? then CompileBlock(elseBlock.value, t1.tables).code else [];
        if elseBlock.Some? { BlockInvented(elseBlock.value, t1.tables, name); } else { LabelFreeDefs([], name); }
        NotInvented(name, t.ifs);
        IfDefs(t.ifs, OffsetOf(t.syms, left), OffsetOf(syms1, right), t1.code, second, name);
      case _ => PlainInvented(s, t, name);
    }
  }

  lemma {:induction false} BlockInvented(b: Block, t: Tables, name: string)
    requires !Invented(name)
    ensures Defs(CompileBlock(b, t).code, name) == 0
    decreases BlockSize(b)
  {
    if b.Then? {
      var first := CompileStmt(b.head, t);
      StmtInvented(b.head, t, name);
      BlockInvented(b.tail, first.tables, name);
      DefsAppend(first.code, CompileBlock(b.tail, first.tables).code, name);
    }
  }

  // ---------- exactly when labels are unique ----------

  lemma DefsAt(code: seq<Asm>, i: nat, name: string)
    requires i < |code| && code[i] == LabelDef(name)
    ensures Defs(code, name) == Defs(code[..i], name) + 1 + Defs(code[i + 1..], name)
  {
    assert code == code[..i] + code[i..] && code[i..][1..] == code[i + 1..];
    DefsAppend(code[..i], code[i..], name);
  }

  lemma {:induction false} FirstDef(code: seq<Asm>, name: string) returns (i: nat)
    requires Defs(code, name) > 0
    ensures i < |code| && code[i] == LabelDef(name) && Defs(code[i + 1..], name) == Defs(code, name) - 1
  {
    if code[0] == LabelDef(name) {
      i := 0;
    } else {
      i := FirstDef(code[1..], name);
      i := i + 1;
      assert code[1..][i..] == code[i + 1..];
    }
  }

  lemma DefinedOnce(code: seq<Asm>, i: nat, j: nat)
    requires i < j < |code| && code[i].LabelDef? && code[j].LabelDef?
    requires Defs(code, code[i].name) <= 1
    ensures code[i].name != code[j].name
  {
    DefsAt(code, i, code[i].name);
    assert code[i + 1..][j - i - 1] == code[j];
    if code[i].name == code[j].name { DefsAt(code[i + 1..], j - i - 1, code[j].name); }
  }

  lemma UniqueBounds(code: seq<Asm>, name: string)
    requires UniqueLabels(code)
    ensures Defs(code, name) <= 1
  {
    if Defs(code, name) > 1 {
      var i := FirstDef(code, name);
      var j := FirstDef(code[i + 1..], name);
    }
  }

  lemma {:induction false} StmtCounters(s: Stmt, t: Tables)
    ensures CompileStmt(s, t).tables.loops > t.loops <==> StmtHasWhile(s)
    ensures CompileStmt(s, t).tables.ifs > t.ifs <==> StmtHasIf(s)
    decreases StmtSize(s)
  {
    match s {
      case While(left, bound, body) =>
        var t0 := t.(syms := Touch(t.syms, left), loops := t.loops + 1);
        BlockCounters(body, t0);
        BlockGrows(body, t0);
      case If(left, right, thenBlock, elseBlock) =>
        var t0 := t.(syms := Touch(Touch(t.syms, left), right), ifs := t.ifs + 1);
        var t1 := CompileBlock(thenBlock, t0).tables;
        BlockCounters(thenBlock, t0);
        BlockGrows(thenBlock, t0);
        if elseBlock.Some? { BlockCounters(elseBlock.value, t1); BlockGrows(elseBlock.value, t1); }
      case _ =>
    }
  }

  lemma {:induction false} BlockCounters(b: Block, t: Tables)
    ensures CompileBlock(b, t).tables.loops > t.loops <==> HasWhile(b)
    ensures CompileBlock(b, t).tables.ifs > t.ifs <==> HasIf(b)
    decreases BlockSize(b)
  {
    if b.Then? {
      StmtCounters(b.head, t);
      StmtGrows(b.head, t);
      BlockCounters(b.tail, CompileStmt(b.head, t).tables);
      BlockGrows(b.tail, CompileStmt(b.head, t).tables);
    }
  }

  /** Compiled from equal counters, a block's labels are distinct exactly when it does not mix `if` and `while`. */
  lemma BlockLabelsUniqueIff(b: Block, t: Tables)
    requires t.loops == t.ifs
    ensures UniqueLabels(CompileBlock(b, t).code) <==> !(HasIf(b) && HasWhile(b))
  {
    BlockCounters(b, t);
    BlockGrows(b, t);
    var code := CompileBlock(b, t).code;
    if HasIf(b) && HasWhile(b) {
      BlockCounted(b, t, t.loops);
      if UniqueLabels(code) { UniqueBounds(code, EndLabel(t.loops)); }
    } else {
      forall i, j | 0 <= i < j < |code| && code[i].LabelDef? && code[j].LabelDef?
        ensures code[i].name != code[j].name
      {
        BlockDefsBound(b, t, code[i].name);
        DefinedOnce(code, i, j);
      }
    }
  }

  lemma BlockDefsBound(b: Block, t: Tables, name: string)
    requires !(HasIf(b) && HasWhile(b))
    ensures Defs(CompileBlock(b, t).code, name) <= 1
  {
    BlockCounters(b, t);
    BlockGrows(b, t);
    if Invented(name) {
      var k: nat :| name == LoopLabel(k) || name == ElseLabel(k) || name == EndLabel(k);
      BlockCounted(b, t, k);
    } else {
      BlockInvented(b, t, name);
    }
  }
}
