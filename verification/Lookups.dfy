/** The searches of the semantic pass against the emitted code: the access at an address is to the
    declaration that the pass found for it, and the pass finds one declaration for each address.
    The functions collect, along the analysis of a block, each search with the address of the access
    it is made for. The lemmas go once through the forms of statement to separate the addresses, and
    once more to compare the compiler's list at each load and store with what the pass found; they
    need no machine and no placed code. */
module Lookups {
  import opened Syntax
  import opened Codegen
  import opened Analyser

  // ---------------------------------------------------------------- what the pass finds

  /** A successful search of the pass on its own list: the address of the access it is made for, the
      name, and the declaration found. */
  datatype Found = Found(pc: nat, name: string, site: nat)

  function FindAt(x: string, pc: nat, view: View, depth: nat): set<Found> {
    match FindVar(view, depth, x)
    case None => {}
    case Some(v) => {Found(pc, x, v.site)}
  }

  function ExprFinds(e: Expr, pc: nat, view: View, depth: nat): set<Found>
    decreases |e|
  {
    if e == [] then {}
    else (if e[0].Use? then FindAt(e[0].name, pc, view, depth) else {}) + ExprFinds(e[1..], pc + 1, view, depth)
  }

  function ArmFinds(b: Block, pc: nat, view: View, depth: nat): set<Found>
    decreases b, 1
  {
    BlockFinds(b, pc, view, depth + 1)
  }

  /** The searches made while a statement is analysed. A compound assignment reads its variable first. */
  function StmtFinds(s: Stmt, pc: nat, view: View, depth: nat): set<Found>
    decreases s, 0
  {
    match s
    case VarDecl(_, _, e) => ExprFinds(e, pc, view, depth)
    case Assign(x, compound, e) =>
      var first := if compound then 1 else 0;
      (if compound then FindAt(x, pc, view, depth) else {})
      + ExprFinds(e, pc + first, view, depth) + FindAt(x, pc + first + |e|, view, depth)
    case Eval(e) => ExprFinds(e, pc, view, depth)
    case If(c, thn, hasElse, els) =>
      var yes := pc + |c| + 2;
      ExprFinds(c, pc, view, depth) + ArmFinds(thn, yes, view, depth)
      + (if !hasElse then {}
         else match AnalyseArm(thn, yes, view, depth)
              case None => {}
              case Some(v) => ArmFinds(els, yes + ArmSize(thn, false), v, depth))
    case While(c, body) => ExprFinds(c, pc, view, depth) + ArmFinds(body, pc + |c| + 2, view, depth)
    case ForIn(x, e, isDict, body) =>
      ExprFinds(e, pc + 1, view, depth)
      + (match DeclareVar(view, depth + 1, x, false, pc)
         case None => {}
         case Some(v) => ArmFinds(body, pc + HeadSize(e, isDict) + 2, v, depth))
    case Break => {}
    case Continue => {}
    case Return(e) => ExprFinds(e, pc, view, depth)
  }

  function BlockFinds(b: Block, pc: nat, view: View, depth: nat): set<Found>
    decreases b, 0
  {
    match b
    case Done => {}
    case Then(s, rest) =>
      StmtFinds(s, pc, view, depth)
      + match AnalyseStmt(s, pc, view, depth)
        case None => {}
        case Some(v) => BlockFinds(rest, pc + Size(s, false), v, depth)
  }

  // ---------------------------------------------------------------- one search for each address

  /** The searches in `fs` are for addresses in the range, at most one for each. */
  predicate Single(fs: set<Found>, lo: nat, hi: nat) {
    && (forall f :: f in fs ==> lo <= f.pc < hi)
    && (forall f, g :: f in fs && g in fs && f.pc == g.pc ==> f == g)
  }

  lemma SingleJoin(a: set<Found>, b: set<Found>, lo: nat, mid: nat, mid': nat, hi: nat)
    requires Single(a, lo, mid) && Single(b, mid', hi) && lo <= mid <= mid' <= hi
    ensures Single(a + b, lo, hi)
  {
  }

  lemma NoneSingle(lo: nat, hi: nat)
    ensures Single({}, lo, hi)
  {
  }

  lemma {:induction false} ExprSingle(e: Expr, pc: nat, view: View, depth: nat)
    ensures Single(ExprFinds(e, pc, view, depth), pc, pc + |e|)
    decreases |e|
  {
    if e != [] {
      ExprSingle(e[1..], pc + 1, view, depth);
      SingleJoin(if e[0].Use? then FindAt(e[0].name, pc, view, depth) else {}, ExprFinds(e[1..], pc + 1, view, depth),
                 pc, pc + 1, pc + 1, pc + |e|);
    }
  }

  lemma {:induction false} AssignSingle(x: string, compound: bool, e: Expr, pc: nat, view: View, depth: nat)
    ensures Single(StmtFinds(Assign(x, compound, e), pc, view, depth), pc, pc + Size(Assign(x, compound, e), false))
  {
    hide Single, ExprFinds, FindVar;
    var mid := pc + if compound then 1 else 0;
    var lead := if compound then FindAt(x, pc, view, depth) else {};
    assert Single(lead, pc, mid) && Single(FindAt(x, mid + |e|, view, depth), mid + |e|, mid + |e| + 1) by {
      hide *;
      AtSingle(x, pc, view, depth);
      AtSingle(x, mid + |e|, view, depth);
      NoneSingle(pc, pc);
    }
    ExprSingle(e, mid, view, depth);
    SingleJoin(lead, ExprFinds(e, mid, view, depth), pc, mid, mid, mid + |e|);
    SingleJoin(lead + ExprFinds(e, mid, view, depth), FindAt(x, mid + |e|, view, depth),
               pc, mid + |e|, mid + |e|, mid + |e| + 1);
  }

  lemma AtSingle(x: string, pc: nat, view: View, depth: nat)
    ensures Single(FindAt(x, pc, view, depth), pc, pc + 1)
  {
  }

  lemma {:induction false} ArmSingle(b: Block, pc: nat, view: View, depth: nat, end: nat)
    requires pc + BlockSize(b, false) <= end
    ensures Single(ArmFinds(b, pc, view, depth), pc, end)
    decreases b, 1
  {
    hide BlockFinds, BlockSize, Single;
    BlockSingle(b, pc, view, depth + 1);
    Wider(BlockFinds(b, pc, view, depth + 1), pc, pc + BlockSize(b, false), end);
  }

  lemma {:induction false} IfSingle(s: Stmt, pc: nat, view: View, depth: nat)
    requires s.If?
    ensures Single(StmtFinds(s, pc, view, depth), pc, pc + Size(s, false))
    decreases s, 0
  {
    hide Single, ExprFinds, ArmFinds, AnalyseArm, BlockSize;
    var yes := pc + |s.cond| + 2;
    var no := yes + ArmSize(s.thn, false);
    var end := pc + Size(s, false);
    var c, t := ExprFinds(s.cond, pc, view, depth), ArmFinds(s.thn, yes, view, depth);
    ExprSingle(s.cond, pc, view, depth);
    ArmSingle(s.thn, yes, view, depth, no - 1);
    SingleJoin(c, t, pc, pc + |s.cond|, yes, no - 1);
    var v := AnalyseArm(s.thn, yes, view, depth);
    var e := if !s.hasElse || v.None? then {} else ArmFinds(s.els, no, v.value, depth);
    if s.hasElse && v.Some? { ArmSingle(s.els, no, v.value, depth, end); } else { NoneSingle(no - 1, end); }
    SingleJoin(c + t, e, pc, no - 1, if s.hasElse && v.Some? then no else no - 1, end);
  }

  lemma BodyFits(s: Stmt, pc: nat)
    requires s.While? || s.ForIn?
    ensures var head := if s.While? then |s.cond| else HeadSize(s.iterable, s.isDict);
            head + 2 + BlockSize(s.body, false) <= Size(s, false)
  {
    assert ArmSize(s.body, false) >= 1 + BlockSize(s.body, false);
  }

  lemma {:induction false} WhileSingle(s: Stmt, pc: nat, view: View, depth: nat)
    requires s.While?
    ensures Single(StmtFinds(s, pc, view, depth), pc, pc + Size(s, false))
    decreases s, 0
  {
    hide Single, ExprFinds, ArmFinds, BlockSize;
    var start := pc + |s.cond| + 2;
    var end := pc + Size(s, false);
    ExprSingle(s.cond, pc, view, depth);
    BodyFits(s, pc);
    ArmSingle(s.body, start, view, depth, end);
    SingleJoin(ExprFinds(s.cond, pc, view, depth), ArmFinds(s.body, start, view, depth), pc, pc + |s.cond|, start, end);
  }

  lemma {:induction false} ForInSingle(s: Stmt, pc: nat, view: View, depth: nat)
    requires s.ForIn?
    ensures Single(StmtFinds(s, pc, view, depth), pc, pc + Size(s, false))
    decreases s, 0
  {
    hide Single, ExprFinds, ArmFinds, DeclareVar, BlockSize;
    var start := pc + HeadSize(s.iterable, s.isDict) + 2;
    var end := pc + Size(s, false);
    BodyFits(s, pc);
    var v := DeclareVar(view, depth + 1, s.name, false, pc);
    var arm := if v.None? then {} else ArmFinds(s.body, start, v.value, depth);
    var head := ExprFinds(s.iterable, pc + 1, view, depth);
    ExprSingle(s.iterable, pc + 1, view, depth);
    NoneSingle(pc, pc + 1);
    SingleJoin({}, head, pc, pc + 1, pc + 1, pc + 1 + |s.iterable|);
    assert {} + head == head;
    if v.Some? { ArmSingle(s.body, start, v.value, depth, end); } else { NoneSingle(start, end); }
    SingleJoin(head, arm, pc, pc + 1 + |s.iterable|, start, end);
  }

  lemma Wider(fs: set<Found>, lo: nat, hi: nat, hi': nat)
    requires Single(fs, lo, hi) && hi <= hi'
    ensures Single(fs, lo, hi')
  {
  }

  lemma {:induction false} PlainSingle(s: Stmt, pc: nat, view: View, depth: nat)
    requires s.VarDecl? || s.Eval? || s.Return? || s.Break? || s.Continue?
    ensures Single(StmtFinds(s, pc, view, depth), pc, pc + Size(s, false))
  {
    hide ExprFinds, Single, AnalyseArm, AnalyseBlock, ArmFinds, BlockFinds, ArmSize, FindAt, DeclareVar;
    match s
    case VarDecl(_, _, e) => ExprSingleIn(e, pc, view, depth, pc + |e| + 1);
    case Eval(e) => ExprSingle(e, pc, view, depth);
    case Return(e) => ExprSingleIn(e, pc, view, depth, pc + |e| + 2);
    case Break => NoneSingle(pc, pc + Size(s, false));
    case Continue => NoneSingle(pc, pc + Size(s, false));
    case _ =>
  }

  lemma {:induction false} ExprSingleIn(e: Expr, pc: nat, view: View, depth: nat, end: nat)
    requires pc + |e| <= end
    ensures Single(ExprFinds(e, pc, view, depth), pc, end)
  {
    hide *;
    ExprSingle(e, pc, view, depth);
    Wider(ExprFinds(e, pc, view, depth), pc, pc + |e|, end);
  }

  lemma {:induction false} StmtSingle(s: Stmt, pc: nat, view: View, depth: nat)
    ensures Single(StmtFinds(s, pc, view, depth), pc, pc + Size(s, false))
    decreases s, 1
  {
    hide *;
    match s
    case If(_, _, _, _) => IfSingle(s, pc, view, depth);
    case While(_, _) => WhileSingle(s, pc, view, depth);
    case ForIn(_, _, _, _) => ForInSingle(s, pc, view, depth);
    case Assign(x, compound, e) => AssignSingle(x, compound, e, pc, view, depth);
    case _ => PlainSingle(s, pc, view, depth);
  }

  /** The pass searches at most once for each address, and only for addresses of the block. */
  lemma {:induction false} BlockSingle(b: Block, pc: nat, view: View, depth: nat)
    ensures Single(BlockFinds(b, pc, view, depth), pc, pc + BlockSize(b, false))
    decreases b, 0
  {
    hide Single, StmtFinds, AnalyseStmt, Size;
    match b
    case Done => NoneSingle(pc, pc);
    case Then(s, rest) =>
      var mid, end := pc + Size(s, false), pc + BlockSize(b, false);
      var v := AnalyseStmt(s, pc, view, depth);
      StmtSingle(s, pc, view, depth);
      if v.Some? {
        BlockSingle(rest, mid, v.value, depth);
        SingleJoin(StmtFinds(s, pc, view, depth), BlockFinds(rest, mid, v.value, depth), pc, mid, mid, end);
      } else {
        NoneSingle(mid, end);
        SingleJoin(StmtFinds(s, pc, view, depth), {}, pc, mid, mid, end);
      }
  }

  // ---------------------------------------------------------------- the accesses of the emitted code

  /** Code placed at `base`: what the compiler's list gives for each access is what the pass found. */
  predicate Accounted(c: Code, base: nat, fs: set<Found>) {
    forall i :: 0 <= i < |c| ==> Covered(c[i], base + i, fs)
  }

  predicate Covered(cell: Cell, pc: nat, fs: set<Found>) {
    cell.instr.Load? || cell.instr.Store? ==>
      FindAt(cell.instr.name, pc, cell.note.view, |cell.note.live|) <= fs
  }

  lemma AccountedJoin(a: Code, b: Code, base: nat, fs: set<Found>)
    requires Accounted(a, base, fs) && Accounted(b, base + |a|, fs)
    ensures Accounted(a + b, base, fs)
  {
    hide Covered;
    var c := a + b;
    forall i | 0 <= i < |c| ensures Covered(c[i], base + i, fs) {
      if i < |a| {
        assert c[i] == a[i];
      } else {
        assert c[i] == b[i - |a|] && Covered(b[i - |a|], base + |a| + (i - |a|), fs);
      }
    }
  }

  /** Code without loads and stores. */
  lemma AccountedFree(c: Code, base: nat, fs: set<Found>)
    requires forall i :: 0 <= i < |c| ==> !c[i].instr.Load? && !c[i].instr.Store?
    ensures Accounted(c, base, fs)
  {
  }

  lemma {:induction false} ExprAccounted(e: Expr, pc: nat, ctx: Ctx, fs: set<Found>)
    requires !ctx.inFn && ExprFinds(e, pc, ctx.note.view, |ctx.note.live|) <= fs
    ensures Accounted(CompileExpr(e, ctx), pc, fs)
    decreases |e|
  {
    hide FindAt;
    if e != [] {
      ExprAccounted(e[1..], pc + 1, ctx, fs);
      AccountedJoin([CompileExpr(e, ctx)[0]], CompileExpr(e[1..], ctx), pc, fs);
    }
  }

  lemma {:induction false} AssignAccounted(x: string, compound: bool, e: Expr, pc: nat, ctx: Ctx, fs: set<Found>)
    requires !ctx.inFn && StmtFinds(Assign(x, compound, e), pc, ctx.note.view, |ctx.note.live|) <= fs
    ensures Accounted(CompileAssign(x, compound, e, ctx), pc, fs)
  {
    hide FindAt, ExprFinds, CompileExpr;
    var lead := if compound then [Cell(Load(x), ctx.note)] else [];
    var store := [Cell(Store(x), ctx.note)];
    ExprAccounted(e, pc + |lead|, ctx, fs);
    AccountedJoin(lead, CompileExpr(e, ctx), pc, fs);
    AccountedJoin(lead + CompileExpr(e, ctx), store, pc, fs);
    assert CompileAssign(x, compound, e, ctx) == lead + CompileExpr(e, ctx) + store;
  }

  lemma {:induction false} ArmAccounted(b: Block, pc: nat, ctx: Ctx, loop: Loop, after: nat, fs: set<Found>)
    requires !ctx.inFn && SimpleBlock(b) && Shallow(ctx.note)
    requires AnalyseArm(b, pc + 1, ctx.note.view, |ctx.note.live|).Some?
    requires ArmFinds(b, pc + 1, ctx.note.view, |ctx.note.live|) <= fs
    ensures Accounted(CompileArm(b, None, pc, ctx, loop, after), pc, fs)
    decreases b, 1
  {
    hide CompileBlock, AfterBlock, BlockFinds, Accounted, SimpleBlock, AnalyseBlock, BlockSize, BlockGuaranteesReturn;
    var inner := Inner(pc, ctx);
    var open, body := OpenArm(None, pc, ctx), CompileBlock(b, pc + 1, Ctx(false, loop, inner));
    var end := inner.(view := AfterBlock(b, pc + 1, false, inner), dead := inner.dead || BlockGuaranteesReturn(b));
    var close := if EndsInJump(b) then [] else CloseArm(pc, ctx, end, after);
    BlockLength(b, pc + 1, Ctx(false, loop, inner));
    BlockAccounted(b, pc + 1, Ctx(false, loop, inner), fs);
    AccountedFree(open, pc, fs);
    AccountedFree(close, pc + 1 + |body|, fs);
    AccountedJoin(open, body, pc, fs);
    AccountedJoin(open + body, close, pc, fs);
    assert CompileArm(b, None, pc, ctx, loop, after) == open + body + close;
  }

  predicate Shallow(note: Note) {
    forall i :: 0 <= i < |note.view| ==> note.view[i].depth <= |note.live|
  }

  lemma {:induction false} TestAccounted(e: Expr, yes: nat, no: nat, pc: nat, ctx: Ctx, fs: set<Found>)
    requires !ctx.inFn && ExprFinds(e, pc, ctx.note.view, |ctx.note.live|) <= fs
    ensures Accounted(Test(e, yes, no, ctx), pc, fs)
  {
    hide CompileExpr, ExprFinds;
    ExprAccounted(e, pc, ctx, fs);
    AccountedJoin(CompileExpr(e, ctx), [Cell(Branch(yes, no), ctx.note)], pc, fs);
  }

  lemma {:induction false} IfAccounted(s: Stmt, pc: nat, ctx: Ctx, fs: set<Found>)
    requires s.If? && !ctx.inFn && Simple(s) && Shallow(ctx.note)
    requires AnalyseStmt(s, pc, ctx.note.view, |ctx.note.live|).Some?
    requires StmtFinds(s, pc, ctx.note.view, |ctx.note.live|) <= fs
    ensures Accounted(CompileIf(s, pc, ctx), pc, fs)
    decreases s, 0
  {
    hide CompileArm, AnalyseArm, ArmFinds, ExprFinds, AnalyseExpr, SimpleBlock, ArmSize, Accounted, Test;
    var yes := pc + |s.cond| + 1;
    var no := yes + ArmSize(s.thn, false);
    var merge := pc + Size(s, false);
    var test := Test(s.cond, yes, no, ctx);
    var thn := CompileArm(s.thn, None, yes, ctx, ctx.loop, merge);
    TestAccounted(s.cond, yes, no, pc, ctx, fs);
    ArmLength(s.thn, None, yes, ctx, ctx.loop, merge);
    ArmAccounted(s.thn, yes, ctx, ctx.loop, merge, fs);
    ArmKeeps(s.thn, yes + 1, ctx.note);
    AccountedJoin(test, thn, pc, fs);
    if s.hasElse {
      ArmAccounted(s.els, no, ctx, ctx.loop, merge, fs);
      AccountedJoin(test + thn, CompileArm(s.els, None, no, ctx, ctx.loop, merge), pc, fs);
    } else {
      AccountedFree([Cell(Jump(merge), ctx.note)], no, fs);
      AccountedJoin(test + thn, [Cell(Jump(merge), ctx.note)], pc, fs);
    }
  }

  lemma {:induction false} ArmKeeps(b: Block, pc: nat, note: Note)
    requires SimpleBlock(b) && Shallow(note) && AnalyseArm(b, pc, note.view, |note.live|).Some?
    ensures AnalyseArm(b, pc, note.view, |note.live|) == Some(note.view)
  {
    hide AnalyseArm, SimpleBlock;
    ArmAgrees(b, pc, note, 0);
  }

  lemma {:induction false} WhileAccounted(s: Stmt, pc: nat, ctx: Ctx, fs: set<Found>)
    requires s.While? && !ctx.inFn && Simple(s) && Shallow(ctx.note)
    requires AnalyseStmt(s, pc, ctx.note.view, |ctx.note.live|).Some?
    requires StmtFinds(s, pc, ctx.note.view, |ctx.note.live|) <= fs
    ensures Accounted(CompileWhile(s, pc, ctx), pc, fs)
    decreases s, 0
  {
    hide CompileArm, AnalyseArm, ArmFinds, ExprFinds, AnalyseExpr, SimpleBlock, ArmSize, Accounted, Test;
    var start := pc + |s.cond| + 1;
    var exit := pc + Size(s, false);
    var loop := InLoop(exit, pc, start, ctx.note);
    TestAccounted(s.cond, start, exit, pc, ctx, fs);
    ArmAccounted(s.body, start, ctx, loop, pc, fs);
    AccountedJoin(Test(s.cond, start, exit, ctx), CompileArm(s.body, None, start, ctx, loop, pc), pc, fs);
  }

  lemma {:induction false} PlainAccounted(s: Stmt, pc: nat, ctx: Ctx, fs: set<Found>)
    requires !s.If? && !s.While? && !ctx.inFn && Simple(s)
    requires StmtFinds(s, pc, ctx.note.view, |ctx.note.live|) <= fs
    ensures Accounted(CompileStmt(s, pc, ctx), pc, fs)
  {
    hide ExprFinds, CompileExpr, Accounted, FindAt, CompileAssign;
    match s
    case Assign(x, compound, e) => AssignAccounted(x, compound, e, pc, ctx, fs);
    case VarDecl(x, k, e) =>
      ExprAccounted(e, pc, ctx, fs);
      AccountedFree([Cell(Decl(x, k), ctx.note)], pc + |e|, fs);
      AccountedJoin(CompileExpr(e, ctx), [Cell(Decl(x, k), ctx.note)], pc, fs);
    case Eval(e) => ExprAccounted(e, pc, ctx, fs);
    case _ => JumpAccounted(s, pc, ctx, fs);
  }

  lemma JumpAccounted(s: Stmt, pc: nat, ctx: Ctx, fs: set<Found>)
    requires s.Break? || s.Continue?
    ensures Accounted(CompileStmt(s, pc, ctx), pc, fs)
  {
    var c := CompileStmt(s, pc, ctx);
    var n := Opening(ctx.inFn) + 1;
    if ctx.loop.NoLoop? { RejectedFree(n, ctx); }
    AccountedFree(c, pc, fs);
  }

  lemma {:induction false} RejectedFree(n: nat, ctx: Ctx)
    ensures forall i :: 0 <= i < n ==> Rejected(n, ctx)[i].instr == Halt
  {
    if n > 0 { RejectedFree(n - 1, ctx); }
  }

  lemma {:induction false} StmtAccounted(s: Stmt, pc: nat, ctx: Ctx, fs: set<Found>)
    requires !ctx.inFn && Simple(s) && Shallow(ctx.note)
    requires AnalyseStmt(s, pc, ctx.note.view, |ctx.note.live|).Some?
    requires StmtFinds(s, pc, ctx.note.view, |ctx.note.live|) <= fs
    ensures Accounted(CompileStmt(s, pc, ctx), pc, fs)
    decreases s, 1
  {
    hide *;
    if s.If? {
      IfAccounted(s, pc, ctx, fs);
      BodyCode(s, pc, ctx);
    } else if s.While? {
      WhileAccounted(s, pc, ctx, fs);
      BodyCode(s, pc, ctx);
    } else {
      PlainAccounted(s, pc, ctx, fs);
    }
  }

  lemma BodyCode(s: Stmt, pc: nat, ctx: Ctx)
    requires s.If? || s.While?
    ensures CompileStmt(s, pc, ctx) == if s.If? then CompileIf(s, pc, ctx) else CompileWhile(s, pc, ctx)
  {
    hide CompileIf, CompileWhile;
  }

  /** In the code of an accepted block, whatever variable the compiler's list gives for a load or a
      store is the one that the pass found at that address. */
  lemma {:induction false} BlockAccounted(b: Block, pc: nat, ctx: Ctx, fs: set<Found>)
    requires !ctx.inFn && SimpleBlock(b) && Shallow(ctx.note)
    requires AnalyseBlock(b, pc, ctx.note.view, |ctx.note.live|).Some?
    requires BlockFinds(b, pc, ctx.note.view, |ctx.note.live|) <= fs
    ensures Accounted(CompileBlock(b, pc, ctx), pc, fs)
    decreases b, 0
  {
    hide CompileStmt, StmtFinds, AnalyseStmt, Simple, Size, After, GuaranteesReturn, Accounted;
    match b
    case Done => AccountedFree([], pc, fs);
    case Then(s, rest) =>
      StmtAgrees(s, pc, ctx.note);
      AfterWithin(s, pc, ctx.note);
      var next := ctx.(note := Next(s, pc, false, ctx.note));
      StmtLength(s, pc, ctx);
      StmtAccounted(s, pc, ctx, fs);
      BlockAccounted(rest, pc + Size(s, false), next, fs);
      AccountedJoin(CompileStmt(s, pc, ctx), CompileBlock(rest, pc + Size(s, false), next), pc, fs);
  }
}
