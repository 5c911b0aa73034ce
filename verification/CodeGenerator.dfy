/** The assembly instructions the compiler emits for each construct. */
module CodeGenerator {
  import opened LibcText
  import opened X86
  import opened SourceLanguage

  // ---------- emitted instructions ----------

  /** Memory operands are all of the form [ebp+off]; `text` is a numeral or a name. */
  datatype Asm =
    | LabelDef(name: string)
    | MovText(r: Reg, text: string)
    | MovLoad(r: Reg, off: int)
    | MovStore(off: int, r: Reg)
    | MovReg(dst: Reg, src: Reg)
    | AddText(r: Reg, text: string)
    | SubText(r: Reg, text: string)
    | CmpText(off: int, text: string)
    | CmpLoad(r: Reg, off: int)
    | JmpTo(target: string)
    | JgeTo(target: string)
    | JeTo(target: string)
    | CallTo(target: string)
    | PushReg(r: Reg)
    | PopReg(r: Reg)
    | Return

  // ---------- symbols ----------

  /** The position of the first entry with that name, or the table's length. */
  function FirstIndex(syms: seq<string>, name: string): (i: nat)
    ensures i <= |syms|
    ensures i < |syms| ==> syms[i] == name
    ensures forall k :: 0 <= k < i ==> syms[k] != name
    ensures i == |syms| <==> name !in syms
  {
    if syms == [] || syms[0] == name then 0 else 1 + FirstIndex(syms[1..], name)
  }

  function SlotOffset(i: nat): int {
    -(i + 1) * 4
  }

  /** The table after `getSymbolOffset`, which adds an unknown name. */
  function Touch(syms: seq<string>, name: string): seq<string> {
    if name in syms then syms else syms + [name]
  }

  /** What `getSymbolOffset` returns. */
  function OffsetOf(syms: seq<string>, name: string): int {
    SlotOffset(FirstIndex(syms, name))
  }

  // ---------- labels ----------

  function Decimal(k: nat): string {
    Numeral(k, 10)
  }

  function LoopLabel(k: nat): string { "loop_" + Decimal(k) }
  function ElseLabel(k: nat): string { "else_" + Decimal(k) }

  /** Both `while` and `if` use this name, each with its own counter. */
  function EndLabel(k: nat): string { "end_" + Decimal(k) }

  // ---------- compilation ----------

  /** The compiler's tables: int symbols, string symbols, and the two label counters. */
  datatype Tables = Tables(syms: seq<string>, strings: seq<string>, loops: nat, ifs: nat)

  datatype Location = Immediate(text: string) | Slot(off: int) | DataName(name: string) | InEax

  datatype ExprCode = ExprCode(code: seq<Asm>, loc: Location, syms: seq<string>)

  datatype Compiled = Compiled(code: seq<Asm>, tables: Tables)

  function CompilePrimary(p: Primary, syms: seq<string>, strings: seq<string>): (Location, seq<string>) {
    match p
    case Number(text) => (Immediate(text), syms)
    case Variable(name) =>
      if name in strings then (DataName(name), syms)
      else (Slot(OffsetOf(syms, name)), Touch(syms, name))
  }

  /** `mov eax, <location>`. */
  function LoadEax(loc: Location): Asm {
    match loc
    case Immediate(text) => MovText(EAX, text)
    case Slot(off) => MovLoad(EAX, off)
    case DataName(name) => MovText(EAX, name)
    case InEax => MovReg(EAX, EAX)
  }

  function AddChain(adds: seq<string>): seq<Asm> {
    if adds == [] then [] else [AddText(EAX, adds[0])] + AddChain(adds[1..])
  }

  function CompileExpr(e: Expr, syms: seq<string>, strings: seq<string>): ExprCode {
    var (loc, syms') := CompilePrimary(e.first, syms, strings);
    if e.adds == [] then ExprCode([], loc, syms')
    else ExprCode([LoadEax(loc)] + AddChain(e.adds), InEax, syms')
  }

  /** Evaluate, load into eax, store into the variable's slot. */
  function StoreCode(name: string, e: Expr, syms: seq<string>, strings: seq<string>): seq<Asm> {
    var ec := CompileExpr(e, syms, strings);
    ec.code + [LoadEax(ec.loc), MovStore(OffsetOf(ec.syms, name), EAX)]
  }

  function StoreSyms(name: string, e: Expr, syms: seq<string>, strings: seq<string>): seq<string> {
    Touch(CompileExpr(e, syms, strings).syms, name)
  }

  function CompileArgs(args: seq<Expr>, syms: seq<string>, strings: seq<string>): (seq<ExprCode>, seq<string>) {
    if args == [] then ([], syms)
    else
      var ec := CompileExpr(args[0], syms, strings);
      var (rest, syms') := CompileArgs(args[1..], ec.syms, strings);
      ([ec] + rest, syms')
  }

  /** Arguments are pushed last first. */
  function PushArgs(args: seq<ExprCode>): seq<Asm> {
    if args == [] then [] else PushArgs(args[1..]) + args[0].code + [LoadEax(args[0].loc), PushReg(EAX)]
  }

  function CallCode(name: string, args: seq<ExprCode>): seq<Asm> {
    [PushReg(EAX), PushReg(ECX), PushReg(EDX)]
    + PushArgs(args)
    + [CallTo(name), AddText(ESP, Decimal(|args| * 4)), PopReg(EDX), PopReg(ECX), PopReg(EAX)]
  }

  function WhileHead(k: nat, off: int, bound: string): seq<Asm> {
    [LabelDef(LoopLabel(k)), CmpText(off, bound), JgeTo(EndLabel(k))]
  }

  function WhileTail(k: nat): seq<Asm> {
    [JmpTo(LoopLabel(k)), LabelDef(EndLabel(k))]
  }

  function IfHead(k: nat, off1: int, off2: int): seq<Asm> {
    [MovLoad(EAX, off1), CmpLoad(EAX, off2), JeTo(ElseLabel(k))]
  }

  function IfMiddle(k: nat): seq<Asm> {
    [JmpTo(EndLabel(k)), LabelDef(ElseLabel(k))]
  }

  function WhileCode(k: nat, off: int, bound: string, body: seq<Asm>): seq<Asm> {
    WhileHead(k, off, bound) + body + WhileTail(k)
  }

  function IfCode(k: nat, off1: int, off2: int, first: seq<Asm>, second: seq<Asm>): seq<Asm> {
    IfHead(k, off1, off2) + first + IfMiddle(k) + second + [LabelDef(EndLabel(k))]
  }

  function CompileStmt(s: Stmt, t: Tables): Compiled
    decreases s
  {
    match s
    case Declare(name) => Compiled([], t.(syms := t.syms + [name]))
    case DeclareInit(name, e) =>
      Compiled(StoreCode(name, e, t.syms, t.strings), t.(syms := StoreSyms(name, e, t.syms, t.strings) + [name]))
    case DeclareString(name, _) => Compiled([], t.(strings := t.strings + [name]))
    case Assign(name, e) =>
      Compiled(StoreCode(name, e, t.syms, t.strings), t.(syms := StoreSyms(name, e, t.syms, t.strings)))
    case While(left, bound, body) =>
      var inner := CompileBlock(body, t.(syms := Touch(t.syms, left), loops := t.loops + 1));
      Compiled(WhileCode(t.loops, OffsetOf(t.syms, left), bound, inner.code), inner.tables)
    case If(left, right, thenBlock, elseBlock) =>
      var syms1 := Touch(t.syms, left);
      var t1 := CompileBlock(thenBlock, t.(syms := Touch(syms1, right), ifs := t.ifs + 1));
      var t2 := if elseBlock.Some? then CompileBlock(elseBlock.value, t1.tables) else Compiled([], t1.tables);
      Compiled(IfCode(t.ifs, OffsetOf(t.syms, left), OffsetOf(syms1, right), t1.code, t2.code), t2.tables)
    case CallDefined(name) => Compiled([CallTo(name)], t)
    case CallExternal(name, args) =>
      var (codes, syms) := CompileArgs(args, t.syms, t.strings);
      Compiled(CallCode(name, codes), t.(syms := syms))
  }

  function CompileBlock(b: Block, t: Tables): Compiled
    decreases b
  {
    match b
    case Empty => Compiled([], t)
    case Then(head, tail) =>
      var first := CompileStmt(head, t);
      var rest := CompileBlock(tail, first.tables);
      Compiled(first.code + rest.code, rest.tables)
  }

  // ---------- functions ----------

  function Prologue(symbolCount: nat): seq<Asm> {
    [PushReg(EBP), MovReg(EBP, ESP), SubText(ESP, Decimal(symbolCount * 4))]
  }

  function Epilogue(): seq<Asm> {
    [MovReg(ESP, EBP), PopReg(EBP)]
  }

  /** A function body between its back-patched prologue and its epilogue, both left out without locals. */
  function WrapBody(body: Compiled): seq<Asm> {
    var n := |body.tables.syms|;
    (if n > 0 then Prologue(n) + body.code + Epilogue() else body.code) + [Return]
  }

  /** `void name() { body }` or, as `_start`, `int main() { body }`. */
  function CompileFunction(label_: string, body: Block, t: Tables): Compiled {
    var compiled := CompileBlock(body, t.(syms := []));
    Compiled([LabelDef(label_)] + WrapBody(compiled), compiled.tables)
  }
}
