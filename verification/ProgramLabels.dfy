/** When the labels of a whole program are distinct: the counters run on from function to function. */
module ProgramLabels {
  import opened SourceLanguage
  import opened CodeGenerator
  import opened AsmMachine
  import opened CompilerCorrectness
  import opened ProgramCorrectness
  import opened LabelUniqueness
  import opened Grammar
  import opened AsmPrinting
  import opened EmittedText

  /** The code of all functions, each compiled with the tables that the one before it left. */
  function CompileProgram(fs: seq<Function>, t: Tables): Compiled
    decreases |fs|
  {
    if fs == [] then Compiled([], t)
    else
      var first := CompiledFunction(fs[0], t);
      var rest := CompileProgram(fs[1..], first.tables);
      Compiled(first.code + rest.code, rest.tables)
  }

  function Labels(fs: seq<Function>): seq<string> {
    if fs == [] then [] else [FunctionLabel(fs[0])] + Labels(fs[1..])
  }

  function Count(names: seq<string>, name: string): nat {
    if names == [] then 0 else One(names[0] == name) + Count(names[1..], name)
  }

  predicate Distinct(names: seq<string>) {
    forall i, j :: 0 <= i < j < |names| ==> names[i] != names[j]
  }

  /** The compiler itself defines this label in a program with so many loops and conditionals. */
  ghost predicate Taken(name: string, loops: nat, ifs: nat) {
    exists k: nat :: (k < loops && (name == LoopLabel(k) || name == EndLabel(k)))
                     || (k < ifs && (name == ElseLabel(k) || name == EndLabel(k)))
  }

  // ---------- how often a program defines a label ----------

  lemma FunctionDefs(f: Function, t: Tables, name: string)
    ensures Defs(CompiledFunction(f, t).code, name)
         == One(FunctionLabel(f) == name) + Defs(CompileBlock(f.body, t.(syms := [])).code, name)
  {
    hide CompileBlock;
    var body := CompileBlock(f.body, t.(syms := []));
    var n := |body.tables.syms|;
    var start, label_ := (if n > 0 then Prologue(n) else []), [LabelDef(FunctionLabel(f))];
    var end := (if n > 0 then Epilogue() else []) + [Return];
    assert CompiledFunction(f, t).code == label_ + ((start + body.code) + end);
    DefsAppend(label_, (start + body.code) + end, name);
    DefsSandwich(start, body.code, end, name);
    LabelFreeDefs(start, name);
    LabelFreeDefs(end, name);
    assert label_[1..] == [];
  }

  lemma {:induction false} ProgramGrows(fs: seq<Function>, t: Tables)
    ensures t.loops <= CompileProgram(fs, t).tables.loops && t.ifs <= CompileProgram(fs, t).tables.ifs
    decreases |fs|
  {
    hide CompileBlock;
    if fs != [] {
      BlockGrows(fs[0].body, t.(syms := []));
      ProgramGrows(fs[1..], CompiledFunction(fs[0], t).tables);
    }
  }

  /** The definitions of the `k`-th labels: those of functions with that name, and the counted ones. */
  lemma {:induction false} ProgramCounted(fs: seq<Function>, t: Tables, k: nat)
    ensures var c, labels := CompileProgram(fs, t), Labels(fs);
            && Defs(c.code, LoopLabel(k)) == Count(labels, LoopLabel(k)) + One(t.loops <= k < c.tables.loops)
            && Defs(c.code, ElseLabel(k)) == Count(labels, ElseLabel(k)) + One(t.ifs <= k < c.tables.ifs)
            && Defs(c.code, EndLabel(k))
               == Count(labels, EndLabel(k)) + One(t.loops <= k < c.tables.loops) + One(t.ifs <= k < c.tables.ifs)
    decreases |fs|
  {
    hide CompileBlock, Defs, LoopLabel, ElseLabel, EndLabel, FunctionLabel;
    if fs == [] {
      LabelFreeDefs([], LoopLabel(k));
      LabelFreeDefs([], ElseLabel(k));
      LabelFreeDefs([], EndLabel(k));
    } else {
      var first := CompiledFunction(fs[0], t);
      var rest := CompileProgram(fs[1..], first.tables);
      BlockGrows(fs[0].body, t.(syms := []));
      ProgramGrows(fs[1..], first.tables);
      BlockCounted(fs[0].body, t.(syms := []), k);
      ProgramCounted(fs[1..], first.tables, k);
      FirstDefs(fs, t, LoopLabel(k));
      FirstDefs(fs, t, ElseLabel(k));
      FirstDefs(fs, t, EndLabel(k));
    }
  }

  lemma FirstDefs(fs: seq<Function>, t: Tables, name: string)
    requires fs != []
    ensures Defs(CompileProgram(fs, t).code, name)
         == One(FunctionLabel(fs[0]) == name) + Defs(CompileBlock(fs[0].body, t.(syms := [])).code, name)
            + Defs(CompileProgram(fs[1..], CompiledFunction(fs[0], t).tables).code, name)
    ensures Count(Labels(fs), name) == One(FunctionLabel(fs[0]) == name) + Count(Labels(fs[1..]), name)
  {
    hide CompileBlock, Defs, FunctionLabel, CompiledFunction;
    FunctionDefs(fs[0], t, name);
    DefsAppend(CompiledFunction(fs[0], t).code, CompileProgram(fs[1..], CompiledFunction(fs[0], t).tables).code, name);
    assert Labels(fs)[1..] == Labels(fs[1..]);
  }

  lemma {:induction false} ProgramOthers(fs: seq<Function>, t: Tables, name: string)
    requires !Invented(name)
    ensures Defs(CompileProgram(fs, t).code, name) == Count(Labels(fs), name)
    decreases |fs|
  {
    hide CompileBlock, Defs, Invented, FunctionLabel;
    if fs == [] {
      LabelFreeDefs([], name);
    } else {
      BlockInvented(fs[0].body, t.(syms := []), name);
      ProgramOthers(fs[1..], CompiledFunction(fs[0], t).tables, name);
      FirstDefs(fs, t, name);
    }
  }

  lemma {:induction false} ProgramCounters(fs: seq<Function>, t: Tables)
    ensures CompileProgram(fs, t).tables.loops > t.loops <==> exists f :: f in fs && HasWhile(f.body)
    ensures CompileProgram(fs, t).tables.ifs > t.ifs <==> exists f :: f in fs && HasIf(f.body)
    decreases |fs|
  {
    hide CompileBlock, HasWhile, HasIf;
    if fs != [] {
      var t1 := CompiledFunction(fs[0], t).tables;
      BlockCounters(fs[0].body, t.(syms := []));
      BlockGrows(fs[0].body, t.(syms := []));
      ProgramCounters(fs[1..], t1);
      ProgramGrows(fs[1..], t1);
      assert forall f :: f in fs <==> f == fs[0] || f in fs[1..];
    }
  }

  // ---------- exactly when they are distinct ----------

  lemma {:induction false} DistinctCount(names: seq<string>, name: string)
    ensures Count(names, name) > 0 <==> name in names
    ensures Distinct(names) ==> Count(names, name) <= 1
  {
    if names != [] {
      DistinctCount(names[1..], name);
      if Distinct(names) { assert forall k :: 1 <= k < |names| ==> names[k] == names[1..][k - 1] != names[0]; }
    }
  }

  lemma {:induction false} RepeatedCount(names: seq<string>, i: nat, j: nat)
    requires i < j < |names| && names[i] == names[j]
    ensures Count(names, names[i]) >= 2
  {
    if i > 0 {
      RepeatedCount(names[1..], i - 1, j - 1);
    } else {
      assert names[1..][j - 1] == names[j];
      DistinctCount(names[1..], names[j]);
    }
  }

  lemma UniqueIff(code: seq<Asm>)
    ensures UniqueLabels(code) <==> forall name :: Defs(code, name) <= 1
  {
    if UniqueLabels(code) {
      forall name ensures Defs(code, name) <= 1 { UniqueBounds(code, name); }
    } else {
      var i, j :| 0 <= i < j < |code| && code[i].LabelDef? && code[j].LabelDef? && code[i].name == code[j].name;
      var name := code[i].name;
      if Defs(code, name) <= 1 { DefinedOnce(code, i, j); }
      assert Defs(code, name) > 1;
    }
  }

  /** Every label is defined at most once if the functions' labels and the counters leave room for it. */
  lemma DefsBound(fs: seq<Function>, name: string)
    requires var t := CompileProgram(fs, NO_TABLES).tables;
             && (t.loops == 0 || t.ifs == 0) && Distinct(Labels(fs))
             && forall l :: l in Labels(fs) ==> !Taken(l, t.loops, t.ifs)
    ensures Defs(CompileProgram(fs, NO_TABLES).code, name) <= 1
  {
    hide Defs, CompileProgram, Labels, LoopLabel, ElseLabel, EndLabel;
    DistinctCount(Labels(fs), name);
    if Invented(name) {
      var k: nat :| name == LoopLabel(k) || name == ElseLabel(k) || name == EndLabel(k);
      ProgramCounted(fs, NO_TABLES, k);
    } else {
      ProgramOthers(fs, NO_TABLES, name);
    }
  }

  /** A label that a function and the compiler both define is defined twice. */
  lemma TakenTwice(fs: seq<Function>, name: string)
    requires var t := CompileProgram(fs, NO_TABLES).tables; name in Labels(fs) && Taken(name, t.loops, t.ifs)
    ensures Defs(CompileProgram(fs, NO_TABLES).code, name) >= 2
  {
    hide Defs, CompileProgram, Labels, LoopLabel, ElseLabel, EndLabel;
    var t := CompileProgram(fs, NO_TABLES).tables;
    var k: nat :| (k < t.loops && (name == LoopLabel(k) || name == EndLabel(k)))
                  || (k < t.ifs && (name == ElseLabel(k) || name == EndLabel(k)));
    DistinctCount(Labels(fs), name);
    ProgramCounted(fs, NO_TABLES, k);
  }

  lemma RepeatedTwice(fs: seq<Function>, i: nat, j: nat)
    requires i < j < |Labels(fs)| && Labels(fs)[i] == Labels(fs)[j]
    ensures Defs(CompileProgram(fs, NO_TABLES).code, Labels(fs)[i]) >= 2
  {
    hide Defs, CompileProgram, Labels, LoopLabel, ElseLabel, EndLabel;
    var name := Labels(fs)[i];
    RepeatedCount(Labels(fs), i, j);
    if Invented(name) {
      var k: nat :| name == LoopLabel(k) || name == ElseLabel(k) || name == EndLabel(k);
      ProgramCounted(fs, NO_TABLES, k);
    } else {
      ProgramOthers(fs, NO_TABLES, name);
    }
  }

  /**
    * A program's labels are distinct exactly when it does not have both loops and conditionals, anywhere, its
    * functions have different names, and none of them has a name that the compiler invents for it.
    */
  lemma ProgramLabelsUniqueIff(fs: seq<Function>)
    ensures var c := CompileProgram(fs, NO_TABLES);
            UniqueLabels(c.code)
            <==> && !((exists f :: f in fs && HasWhile(f.body)) && (exists f :: f in fs && HasIf(f.body)))
                 && Distinct(Labels(fs))
                 && forall l :: l in Labels(fs) ==> !Taken(l, c.tables.loops, c.tables.ifs)
  {
    hide Defs, CompileProgram, Labels, LoopLabel, ElseLabel, EndLabel, HasWhile, HasIf, UniqueLabels, Taken;
    var c, labels := CompileProgram(fs, NO_TABLES), Labels(fs);
    ProgramCounters(fs, NO_TABLES);
    UniqueIff(c.code);
    if UniqueLabels(c.code) {
      ProgramCounted(fs, NO_TABLES, 0);
      forall l | l in labels
        ensures !Taken(l, c.tables.loops, c.tables.ifs)
      {
        if Taken(l, c.tables.loops, c.tables.ifs) { TakenTwice(fs, l); }
      }
      forall i, j | 0 <= i < j < |labels|
        ensures labels[i] != labels[j]
      {
        if labels[i] == labels[j] { RepeatedTwice(fs, i, j); }
      }
    } else {
      var name :| Defs(c.code, name) > 1;
      if (c.tables.loops == 0 || c.tables.ifs == 0) && Distinct(labels)
         && forall l :: l in labels ==> !Taken(l, c.tables.loops, c.tables.ifs) {
        DefsBound(fs, name);
      }
    }
  }

  /** The compiler's output for a program is the text of this code. */
  lemma {:induction false} ProgramEmitted(fs: seq<Function>, o: Output)
    ensures EmitProgram(fs, o).text == o.text + Render(CompileProgram(fs, o.tables).code)
    decreases |fs|
  {
    hide CompiledFunction, Render, StringDecls;
    if fs == [] {
      NothingRendered();
      assert o.text + "" == o.text;
    } else {
      var first := CompiledFunction(fs[0], o.tables);
      var rest := CompileProgram(fs[1..], first.tables);
      ProgramEmitted(fs[1..], Emit(o, first, StringDecls(fs[0].body)));
      RenderAppend(first.code, rest.code);
      assert o.text + Render(first.code) + Render(rest.code) == o.text + (Render(first.code) + Render(rest.code));
    }
  }

  // ---------- calls of the program's own functions ----------

  /** Each function's label, and behind it the code of its body, stands in the program's code. */
  lemma {:induction false} FunctionStands(fs: seq<Function>, t: Tables, k: nat) returns (p: nat, before: Tables)
    requires k < |fs|
    ensures SegmentAt(CompileProgram(fs, t).code, p, CompiledFunction(fs[k], before).code)
    decreases |fs|
  {
    hide CompiledFunction;
    var first := CompiledFunction(fs[0], t);
    var rest := CompileProgram(fs[1..], first.tables).code;
    if k == 0 {
      p, before := 0, t;
      assert (first.code + rest)[..|first.code|] == first.code;
    } else {
      var q;
      q, before := FunctionStands(fs[1..], first.tables, k - 1);
      p := |first.code| + q;
      var part := CompiledFunction(fs[k], before).code;
      assert (first.code + rest)[p..p + |part|] == rest[q..q + |part|];
    }
  }

  /** With distinct labels, the call of a function of the program goes to that function's code. */
  lemma CallFound(fs: seq<Function>, k: nat, t: Tables) returns (before: Tables)
    requires k < |fs| && fs[k].Void? && UniqueLabels(CompileProgram(fs, NO_TABLES).code)
    ensures var code, call := CompileProgram(fs, NO_TABLES).code, CompileStmt(CallDefined(fs[k].name), t).code;
            && |call| == 1 && call[0].CallTo?
            && var p := Definition(code, call[0].target);
               SegmentAt(code, p, [LabelDef(fs[k].name)] + WrapBody(CompileBlock(fs[k].body, before.(syms := []))))
  {
    hide CompileProgram, CompileBlock, WrapBody, UniqueLabels;
    var p: nat;
    p, before := FunctionStands(fs, NO_TABLES, k);
    var code := CompileProgram(fs, NO_TABLES).code;
    var part := CompiledFunction(fs[k], before).code;
    assert part == [LabelDef(fs[k].name)] + WrapBody(CompileBlock(fs[k].body, before.(syms := [])));
    SegmentIndex(code, p, part, 0);
    UniqueDefinition(code, p);
  }
}
