/** The code emitted for statements, as a flat instruction list, together with what the compiler
    knows at each instruction (its `Note`). The machine never reads the notes.
    A note holds the slots of the scopes that are open, the variables the compiler lists, and
    whether a statement that guarantees a return has gone before. Compiling a statement is a
    function of where its code starts and of its surroundings: the innermost loop, the note there,
    and whether it is inside a function. Lemmas on the length of code let targets be computed ahead. */
module Codegen {
  import opened Syntax

  datatype Instr =
    | Enter(slot: nat)                        // slot := bread_scope_depth(); bread_push_scope()
    | PopTo(slot: nat)                        // bread_pop_to_scope_depth(slot)
    | PopToBase(slot: nat)                    // the same with the base raised to at least 1
    | Decl(name: string, isConst: bool)       // bread_var_decl
    | DeclIfMissing(name: string)             // bread_var_decl_if_missing
    | Load(name: string)                      // bread_var_load
    | Store(name: string)                     // bread_var_assign
    | Local(name: string, store: bool)        // access to a stack slot of the function
    | Invoke(func: nat)
    | Branch(yes: nat, no: nat)
    | Jump(target: nat)
    | Ret
    | Halt

  /** A variable as the compiler lists it; `site` is the address of its declaration. */
  datatype StaticVar = StaticVar(name: string, isConst: bool, depth: nat, site: nat)

  /** live: the slots of the enclosing scopes, outermost first; view: the compiler's variable list,
      newest first; dead: a statement that guarantees a return precedes this point. */
  datatype Note = Note(live: seq<nat>, view: seq<StaticVar>, dead: bool)

  datatype Cell = Cell(instr: Instr, note: Note)

  type Code = seq<Cell>

  /** The `current_loop_*` fields of the code generator, with the note at the loop statement. */
  datatype Loop = NoLoop | InLoop(exit: nat, again: nat, slot: nat, outer: Note)

  datatype Ctx = Ctx(inFn: bool, loop: Loop, note: Note)

  predicate Listed(view: seq<StaticVar>, name: string) {
    exists i :: 0 <= i < |view| && view[i].name == name
  }

  // ---------------------------------------------------------------- the variable list after a statement

  /** At top level a block's variables are gone when it ends; inside a function there is one flat
      list, to which declarations and plain first assignments add. */
  function After(s: Stmt, pc: nat, inFn: bool, note: Note): (view: seq<StaticVar>)
  {
    var view := note.view;
    if inFn then
      match s
      case VarDecl(x, k, e) => [StaticVar(x, k, 0, pc + |e|)] + view
      case Assign(x, compound, e) => if compound || Listed(view, x) then view else [StaticVar(x, false, 0, pc)] + view
      case If(c, thn, hasElse, els) =>
        var yes := pc + |c| + 1;
        var v := AfterBlock(thn, yes, inFn, note);
        if hasElse then AfterBlock(els, yes + ArmSize(thn, inFn), inFn, note.(view := v)) else v
      case While(c, body) => AfterBlock(body, pc + |c| + 1, inFn, note)
      case ForIn(_, e, isDict, body) => AfterBlock(body, pc + HeadSize(e, isDict) + 1, inFn, note)
      case _ => view
    else
      match s
      case VarDecl(x, k, e) => [StaticVar(x, k, |note.live|, pc + |e|)] + view
      case _ => view
  }

  function AfterBlock(b: Block, pc: nat, inFn: bool, note: Note): (view: seq<StaticVar>)
  {
    match b
    case Done => note.view
    case Then(s, rest) =>
      var next := note.(view := After(s, pc, inFn, note), dead := note.dead || GuaranteesReturn(s));
      AfterBlock(rest, pc + Size(s, inFn), inFn, next)
  }

  function Next(s: Stmt, pc: nat, inFn: bool, note: Note): Note {
    note.(view := After(s, pc, inFn, note), dead := note.dead || GuaranteesReturn(s))
  }

  // ---------------------------------------------------------------- sizes

  function Opening(inFn: bool): nat { if inFn then 0 else 1 }

  function Closing(b: Block, inFn: bool): nat { if EndsInJump(b) then 0 else Opening(inFn) + 1 }

  function ArmSize(b: Block, inFn: bool): nat
    decreases b, 1
  {
    Opening(inFn) + BlockSize(b, inFn) + Closing(b, inFn)
  }

  function HeadSize(e: Expr, isDict: bool): nat { |e| + (if isDict then 1 else 0) + 5 }

  function Size(s: Stmt, inFn: bool): nat
    decreases s, 0
  {
    match s
    case VarDecl(_, _, e) => |e| + 1
    case Assign(_, compound, e) => (if compound then 1 else 0) + |e| + 1
    case Eval(e) => |e|
    case If(c, thn, hasElse, els) => |c| + 1 + ArmSize(thn, inFn) + if hasElse then ArmSize(els, inFn) else 1
    case While(c, body) => |c| + 1 + ArmSize(body, inFn)
    case ForIn(_, e, isDict, body) => HeadSize(e, isDict) + ArmSize(body, inFn) + 2
    case Break => Opening(inFn) + 1
    case Continue => Opening(inFn) + 1
    case Return(e) => |e| + 2
  }

  function BlockSize(b: Block, inFn: bool): nat
    decreases b, 0
  {
    match b
    case Done => 0
    case Then(s, rest) => Size(s, inFn) + BlockSize(rest, inFn)
  }

  // ---------------------------------------------------------------- emission

  function Access(name: string, ctx: Ctx): Instr {
    if ctx.inFn && Listed(ctx.note.view, name) then Local(name, false) else Load(name)
  }

  /** Where an assignment goes. In a function a plain one to a name that is not listed makes a new local
      variable; a compound one reaches the variable of that name on the scope stack. */
  function Target(name: string, compound: bool, ctx: Ctx): Instr {
    if ctx.inFn && (Listed(ctx.note.view, name) || !compound) then Local(name, true) else Store(name)
  }

  function CompileExpr(e: Expr, ctx: Ctx): (code: Code)
    ensures |code| == |e|
  {
    if e == [] then [] else
      [Cell(if e[0].Use? then Access(e[0].name, ctx) else Invoke(e[0].func + 1), ctx.note)]
      + CompileExpr(e[1..], ctx)
  }

  function Extra(lead: Option<string>): nat { if lead.None? then 0 else 1 }

  /** A branch or loop body: at top level it gets a scope of its own whose base depth is kept in the
      slot named by the address of the `Enter`; `lead` is the loop variable assigned first. */
  function CompileArm(b: Block, lead: Option<string>, pc: nat, ctx: Ctx, loop: Loop, after: nat): (code: Code)
    decreases b, 2
  {
    var inner := Inner(pc, ctx);
    var start := pc + Opening(ctx.inFn) + Extra(lead);
    var end := inner.(view := AfterBlock(b, start, ctx.inFn, inner),
                      dead := inner.dead || BlockGuaranteesReturn(b));
    OpenArm(lead, pc, ctx)
    + CompileBlock(b, start, Ctx(ctx.inFn, loop, inner))
    + if EndsInJump(b) then [] else CloseArm(pc, ctx, end, after)
  }

  function OpenArm(lead: Option<string>, pc: nat, ctx: Ctx): Code {
    (if ctx.inFn then [] else [Cell(Enter(pc), ctx.note)])
    + if lead.None? then [] else [Cell(Store(lead.value), Inner(pc, ctx))]
  }

  lemma OpenArmLength(lead: Option<string>, pc: nat, ctx: Ctx)
    ensures |OpenArm(lead, pc, ctx)| == Opening(ctx.inFn) + Extra(lead)
  {
  }

  lemma CloseArmLength(pc: nat, ctx: Ctx, end: Note, after: nat)
    ensures |CloseArm(pc, ctx, end, after)| == Opening(ctx.inFn) + 1
  {
  }

  function CloseArm(pc: nat, ctx: Ctx, end: Note, after: nat): Code {
    (if ctx.inFn then [] else [Cell(PopTo(pc), end)]) + [Cell(Jump(after), ctx.note.(dead := end.dead))]
  }

  function Inner(pc: nat, ctx: Ctx): Note {
    if ctx.inFn then ctx.note else ctx.note.(live := ctx.note.live + [pc])
  }

  function CompileJump(ctx: Ctx, target: nat): (code: Code)
    requires ctx.loop.InLoop?
    ensures |code| == Opening(ctx.inFn) + 1
  {
    (if ctx.inFn then [] else [Cell(PopTo(ctx.loop.slot), ctx.note)])
    + [Cell(Jump(target), if ctx.inFn then ctx.note else ctx.loop.outer.(dead := ctx.note.dead))]
  }

  /** What precedes the body of a `for-in`: key extraction for a dictionary, the length test, the loop
      variable (in the scope around the loop), the loop test, and the fetch of one element. */
  function ForInHead(x: string, e: Expr, isDict: bool, pc: nat, exit: nat, ctx: Ctx): (code: Code)
    ensures |code| == HeadSize(e, isDict)
  {
    var ready := pc + 1 + |e| + if isDict then 1 else 0;
    [Cell(Jump(pc + 1), ctx.note)]
    + CompileExpr(e, ctx)
    + (if isDict then [Cell(Branch(ready, exit), ctx.note)] else [])
    + [Cell(Branch(ready + 1, exit), ctx.note), Cell(DeclIfMissing(x), ctx.note),
       Cell(Branch(ready + 3, exit), ctx.note), Cell(Branch(ready + 4, exit), ctx.note)]
  }

  /** A condition and the branch on it. */
  function Test(c: Expr, yes: nat, no: nat, ctx: Ctx): (code: Code)
    ensures |code| == |c| + 1
  {
    CompileExpr(c, ctx) + [Cell(Branch(yes, no), ctx.note)]
  }

  /** Code generation reports an error here; nothing that is run contains this filler. */
  function Rejected(n: nat, ctx: Ctx): (code: Code)
    ensures |code| == n
  {
    if n == 0 then [] else [Cell(Halt, ctx.note)] + Rejected(n - 1, ctx)
  }

  function CompileDecl(x: string, isConst: bool, e: Expr, ctx: Ctx): (code: Code)
    ensures |code| == |e| + 1
  {
    CompileExpr(e, ctx) + [Cell(if ctx.inFn then DeclIfMissing(x) else Decl(x, isConst), ctx.note)]
  }

  function CompileAssign(x: string, compound: bool, e: Expr, ctx: Ctx): (code: Code)
    ensures |code| == (if compound then 1 else 0) + |e| + 1
  {
    (if compound then [Cell(Access(x, ctx), ctx.note)] else [])
    + CompileExpr(e, ctx) + [Cell(Target(x, compound, ctx), ctx.note)]
  }

  function CompileReturn(e: Expr, ctx: Ctx): (code: Code)
    ensures |code| == |e| + 2
  {
    CompileExpr(e, ctx) + [Cell(PopToBase(0), ctx.note), Cell(Ret, ctx.note.(live := []))]
  }

  function CompileIf(s: Stmt, pc: nat, ctx: Ctx): (code: Code)
    requires s.If?
    decreases s, 0
  {
    var yes := pc + |s.cond| + 1;
    var no := yes + ArmSize(s.thn, ctx.inFn);
    var merge := pc + Size(s, ctx.inFn);
    Test(s.cond, yes, no, ctx)
    + CompileArm(s.thn, None, yes, ctx, ctx.loop, merge)
    + if s.hasElse then CompileArm(s.els, None, no, ElseCtx(s, yes, ctx), ctx.loop, merge)
      else [Cell(Jump(merge), ElseCtx(s, yes, ctx).note)]
  }

  /** Inside a function the variables of the first branch stay in the list for the second one. */
  function ElseCtx(s: Stmt, yes: nat, ctx: Ctx): (c: Ctx)
    requires s.If?
    ensures c.inFn == ctx.inFn && c.loop == ctx.loop && c.note.live == ctx.note.live && c.note.dead == ctx.note.dead
    ensures !ctx.inFn ==> c == ctx
  {
    if ctx.inFn then ctx.(note := ctx.note.(view := AfterBlock(s.thn, yes, true, ctx.note))) else ctx
  }

  function CompileWhile(s: Stmt, pc: nat, ctx: Ctx): (code: Code)
    requires s.While?
    decreases s, 0
  {
    var start := pc + |s.cond| + 1;
    var exit := pc + Size(s, ctx.inFn);
    Test(s.cond, start, exit, ctx)
    + CompileArm(s.body, None, start, ctx, InLoop(exit, pc, start, ctx.note), pc)
  }

  function CompileForIn(s: Stmt, pc: nat, ctx: Ctx): (code: Code)
    requires s.ForIn?
    decreases s, 0
  {
    var start := pc + HeadSize(s.iterable, s.isDict);
    var again := start + ArmSize(s.body, ctx.inFn) + 1;
    ForInHead(s.name, s.iterable, s.isDict, pc, again + 1, ctx)
    + CompileArm(s.body, Some(s.name), start, ctx, InLoop(again + 1, again, start, ctx.note), again)
    + [Cell(Jump(start - 2), ctx.note)]
  }

  function CompileStmt(s: Stmt, pc: nat, ctx: Ctx): (code: Code)
    decreases s, 1
  {
    match s
    case If(_, _, _, _) => CompileIf(s, pc, ctx)
    case While(_, _) => CompileWhile(s, pc, ctx)
    case ForIn(_, _, _, _) => CompileForIn(s, pc, ctx)
    case VarDecl(x, k, e) => CompileDecl(x, k, e, ctx)
    case Assign(x, compound, e) => CompileAssign(x, compound, e, ctx)
    case Eval(e) => CompileExpr(e, ctx)
    case Return(e) => CompileReturn(e, ctx)
    case Break => if ctx.loop.NoLoop? then Rejected(Opening(ctx.inFn) + 1, ctx) else CompileJump(ctx, ctx.loop.exit)
    case Continue => if ctx.loop.NoLoop? then Rejected(Opening(ctx.inFn) + 1, ctx) else CompileJump(ctx, ctx.loop.again)
  }

  function CompileBlock(b: Block, pc: nat, ctx: Ctx): (code: Code)
    decreases b, 0
  {
    match b
    case Done => []
    case Then(s, rest) =>
      CompileStmt(s, pc, ctx)
      + CompileBlock(rest, pc + Size(s, ctx.inFn), ctx.(note := Next(s, pc, ctx.inFn, ctx.note)))
  }

  // ---------------------------------------------------------------- emitted code has the planned size

  lemma {:induction false} ArmLength(b: Block, lead: Option<string>, pc: nat, ctx: Ctx, loop: Loop, after: nat)
    ensures |CompileArm(b, lead, pc, ctx, loop, after)| == ArmSize(b, ctx.inFn) + Extra(lead)
    decreases b, 2
  {
    hide AfterBlock, CompileBlock, BlockSize, OpenArm, CloseArm, BlockGuaranteesReturn;
    OpenArmLength(lead, pc, ctx);
    CloseArmLength(pc, ctx, Inner(pc, ctx).(view := AfterBlock(b, pc + Opening(ctx.inFn) + Extra(lead), ctx.inFn,
                                                               Inner(pc, ctx)),
                                            dead := ctx.note.dead || BlockGuaranteesReturn(b)), after);
    BlockLength(b, pc + Opening(ctx.inFn) + Extra(lead), Ctx(ctx.inFn, loop, Inner(pc, ctx)));
  }

  lemma {:induction false} IfLength(s: Stmt, pc: nat, ctx: Ctx)
    requires s.If?
    ensures |CompileIf(s, pc, ctx)| == Size(s, ctx.inFn)
    decreases s, 0
  {
    hide CompileArm, ArmSize;
    var yes := pc + |s.cond| + 1;
    var merge := pc + Size(s, ctx.inFn);
    ArmLength(s.thn, None, yes, ctx, ctx.loop, merge);
    if s.hasElse { ArmLength(s.els, None, yes + ArmSize(s.thn, ctx.inFn), ElseCtx(s, yes, ctx), ctx.loop, merge); }
  }

  lemma {:induction false} WhileLength(s: Stmt, pc: nat, ctx: Ctx)
    requires s.While?
    ensures |CompileWhile(s, pc, ctx)| == Size(s, ctx.inFn)
    decreases s, 0
  {
    var start := pc + |s.cond| + 1;
    ArmLength(s.body, None, start, ctx, InLoop(pc + Size(s, ctx.inFn), pc, start, ctx.note), pc);
  }

  lemma {:induction false} ForInLength(s: Stmt, pc: nat, ctx: Ctx)
    requires s.ForIn?
    ensures |CompileForIn(s, pc, ctx)| == Size(s, ctx.inFn)
    decreases s, 0
  {
    hide CompileArm, ArmSize;
    var start := pc + HeadSize(s.iterable, s.isDict);
    var again := start + ArmSize(s.body, ctx.inFn) + 1;
    ArmLength(s.body, Some(s.name), start, ctx, InLoop(again + 1, again, start, ctx.note), again);
  }

  lemma {:induction false} StmtLength(s: Stmt, pc: nat, ctx: Ctx)
    ensures |CompileStmt(s, pc, ctx)| == Size(s, ctx.inFn)
    decreases s, 1
  {
    hide CompileIf, CompileWhile, CompileForIn, ArmSize;
    match s
    case If(_, _, _, _) => hide Size; IfLength(s, pc, ctx);
    case While(_, _) => hide Size; WhileLength(s, pc, ctx);
    case ForIn(_, _, _, _) => hide Size; ForInLength(s, pc, ctx);
    case _ =>
  }

  /** The code and the size of a statement without a body. */
  lemma SimpleCode(s: Stmt, pc: nat, ctx: Ctx)
    requires !s.If? && !s.While? && !s.ForIn? && (s.Break? || s.Continue? ==> ctx.loop.InLoop?)
    ensures CompileStmt(s, pc, ctx) == match s
            case VarDecl(x, k, e) => CompileDecl(x, k, e, ctx)
            case Assign(x, compound, e) => CompileAssign(x, compound, e, ctx)
            case Eval(e) => CompileExpr(e, ctx)
            case Return(e) => CompileReturn(e, ctx)
            case Break => CompileJump(ctx, ctx.loop.exit)
            case Continue => CompileJump(ctx, ctx.loop.again)
            case _ => []
    ensures Size(s, ctx.inFn) == match s
            case VarDecl(_, _, e) => |e| + 1
            case Assign(_, compound, e) => (if compound then 1 else 0) + |e| + 1
            case Eval(e) => |e|
            case Return(e) => |e| + 2
            case Break => Opening(ctx.inFn) + 1
            case Continue => Opening(ctx.inFn) + 1
            case _ => 0
  {
    hide CompileIf, CompileWhile, CompileForIn, CompileDecl, CompileAssign, CompileExpr, CompileReturn, CompileJump;
  }

  lemma {:induction false} BlockLength(b: Block, pc: nat, ctx: Ctx)
    ensures |CompileBlock(b, pc, ctx)| == BlockSize(b, ctx.inFn)
    decreases b, 0
  {
    match b
    case Done =>
    case Then(s, rest) =>
      StmtLength(s, pc, ctx);
      BlockLength(rest, pc + Size(s, ctx.inFn), ctx.(note := Next(s, pc, ctx.inFn, ctx.note)));
  }
}
