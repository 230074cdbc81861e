/** In the code of an accepted top-level program, the recorded variable lists fit together: each
    instruction meets the conditions under which the scope stack mirrors the list (module Names).
    The order is that of module Flow: the condition on one instruction, then one lemma for each
    form of statement, then blocks. The verdict of the semantic pass enters here: it is what makes
    a name known and not declared twice at the point where the instruction stands. Calls,
    `for-in` and `return` are outside the programs considered. */
module NameFlow {
  import opened Syntax
  import opened Codegen
  import opened Analyser
  import opened Flow
  import opened Machine
  import opened Names

  // ---------------------------------------------------------------- static limits

  /** At most 63 blocks deep, at most 256 variables in a block, names of 1 to 254 characters. */
  predicate Fits(s: Stmt, depth: nat, used: nat) {
    match s
    case VarDecl(x, _, _) => used < MAX_VARS && 0 < |x| < 255
    case If(_, thn, hasElse, els) =>
      depth + 1 < MAX_SCOPES && BlockFits(thn, depth + 1, 0) && (hasElse ==> BlockFits(els, depth + 1, 0))
    case While(_, body) => depth + 1 < MAX_SCOPES && BlockFits(body, depth + 1, 0)
    case _ => true
  }

  predicate BlockFits(b: Block, depth: nat, used: nat) {
    match b
    case Done => true
    case Then(s, rest) => Fits(s, depth, used) && BlockFits(rest, depth, used + if s.VarDecl? then 1 else 0)
  }

  // ---------------------------------------------------------------- lists along control flow

  predicate Sees(c: Code, pc: nat, view: View) {
    pc < |c| && c[pc].note.view == view
  }

  predicate NamesOk(c: Code, pc: nat)
    requires pc < |c|
  {
    var view, depth := c[pc].note.view, |c[pc].note.live|;
    match c[pc].instr
    case Enter(_) => depth + 1 < MAX_SCOPES && Sees(c, pc + 1, view)
    case PopTo(_) =>
      && pc + 1 < |c|
      && Extends(view, c[pc + 1].note.view, |c[pc + 1].note.live| + 1)
      && forall v :: v in c[pc + 1].note.view ==> v.depth <= |c[pc + 1].note.live|
    case Decl(x, k) =>
      && 0 < |x| < 255 && !DeclaredAt(view, depth, x) && |ScopeOf(view, depth)| < MAX_VARS
      && Sees(c, pc + 1, [StaticVar(x, k, depth, pc)] + view)
    case Load(x) => FindVar(view, depth, x).Some? && Sees(c, pc + 1, view)
    case Store(x) =>
      FindVar(view, depth, x).Some? && !FindVar(view, depth, x).value.isConst && Sees(c, pc + 1, view)
    case Branch(yes, no) => Sees(c, yes, view) && Sees(c, no, view)
    case Jump(t) => Sees(c, t, view)
    case Halt => true
    case _ => false
  }

  predicate NamesRange(c: Code, lo: nat, hi: nat) {
    hi <= |c| && forall pc {:trigger NamesOk(c, pc)} :: lo <= pc < hi ==> NamesOk(c, pc)
  }

  lemma NamesJoin(c: Code, lo: nat, mid: nat, hi: nat)
    requires NamesRange(c, lo, mid) && NamesRange(c, mid, hi)
    ensures NamesRange(c, lo, hi)
  {
  }

  predicate LoopSees(c: Code, ctx: Ctx) {
    ctx.loop.InLoop? ==>
      && |ctx.loop.outer.live| < |ctx.note.live|
      && Sees(c, ctx.loop.exit, ctx.loop.outer.view)
      && Sees(c, ctx.loop.again, ctx.loop.outer.view)
      && Extends(ctx.note.view, ctx.loop.outer.view, |ctx.loop.outer.live| + 1)
      && forall v :: v in ctx.loop.outer.view ==> v.depth <= |ctx.loop.outer.live|
  }

  /** What holds where a statement or block starts: the list is well formed and the scope is not too full. */
  predicate Ready(c: Code, ctx: Ctx) {
    !ctx.inFn && WellFormed(ctx.note.view, |ctx.note.live|) && LoopSees(c, ctx)
  }

  function Used(note: Note): nat { |ScopeOf(note.view, |note.live|)| }

  lemma {:induction false} ExprNames(c: Code, e: Expr, lo: nat, ctx: Ctx)
    requires Placed(c, lo, CompileExpr(e, ctx)) && CallsExist(e, 0) && !ctx.inFn
    requires AnalyseExpr(e, ctx.note.view, |ctx.note.live|)
    requires Sees(c, lo + |e|, ctx.note.view)
    ensures NamesRange(c, lo, lo + |e|)
    ensures Sees(c, lo, ctx.note.view)
    decreases |e|
  {
    if e != [] {
      assert e[0] in e && e[0].Use?;
      var first := [Cell(Load(e[0].name), ctx.note)];
      PlacedSplit(c, lo, first, CompileExpr(e[1..], ctx));
      PlacedAt(c, lo, first, 0);
      ExprNames(c, e[1..], lo + 1, ctx);
      assert NamesOk(c, lo);
    }
  }

  lemma {:induction false} DeclNames(c: Code, x: string, k: bool, e: Expr, lo: nat, ctx: Ctx)
    requires Placed(c, lo, CompileDecl(x, k, e, ctx)) && CallsExist(e, 0) && !ctx.inFn
    requires AnalyseStmt(VarDecl(x, k, e), lo, ctx.note.view, |ctx.note.live|).Some?
    requires Fits(VarDecl(x, k, e), |ctx.note.live|, Used(ctx.note))
    requires Sees(c, lo + |e| + 1, After(VarDecl(x, k, e), lo, false, ctx.note))
    ensures NamesRange(c, lo, lo + |e| + 1)
    ensures Sees(c, lo, ctx.note.view)
  {
    var last := [Cell(Decl(x, k), ctx.note)];
    PlacedSplit(c, lo, CompileExpr(e, ctx), last);
    PlacedAt(c, lo + |e|, last, 0);
    assert NamesOk(c, lo + |e|);
    ExprNames(c, e, lo, ctx);
  }

  lemma AssignCode(x: string, compound: bool, e: Expr, ctx: Ctx)
    requires !ctx.inFn
    ensures CompileAssign(x, compound, e, ctx)
            == (if compound then [Cell(Load(x), ctx.note)] else []) + CompileExpr(e, ctx) + [Cell(Store(x), ctx.note)]
  {
  }

  lemma {:induction false} AssignNames(c: Code, x: string, compound: bool, e: Expr, lo: nat, ctx: Ctx)
    requires Placed(c, lo, CompileAssign(x, compound, e, ctx)) && CallsExist(e, 0) && !ctx.inFn
    requires AnalyseStmt(Assign(x, compound, e), lo, ctx.note.view, |ctx.note.live|).Some?
    requires Sees(c, lo + (if compound then 1 else 0) + |e| + 1, ctx.note.view)
    ensures NamesRange(c, lo, lo + (if compound then 1 else 0) + |e| + 1)
    ensures Sees(c, lo, ctx.note.view)
  {
    hide CompileExpr, Placed, AnalyseExpr, CompileAssign;
    var first := if compound then [Cell(Load(x), ctx.note)] else [];
    var last := [Cell(Store(x), ctx.note)];
    AssignCode(x, compound, e, ctx);
    PlacedSplit(c, lo, first + CompileExpr(e, ctx), last);
    PlacedSplit(c, lo, first, CompileExpr(e, ctx));
    PlacedAt(c, lo + |first| + |e|, last, 0);
    assert NamesOk(c, lo + |first| + |e|);
    ExprNames(c, e, lo + |first|, ctx);
    if compound {
      PlacedAt(c, lo, first, 0);
      assert NamesOk(c, lo);
    }
  }

  lemma {:induction false} JumpNames(c: Code, lo: nat, ctx: Ctx, target: nat)
    requires ctx.loop.InLoop? && Ready(c, ctx)
    requires target == ctx.loop.exit || target == ctx.loop.again
    requires Placed(c, lo, CompileJump(ctx, target))
    ensures NamesRange(c, lo, lo + 2)
    ensures Sees(c, lo, ctx.note.view)
  {
    PlacedAt(c, lo, CompileJump(ctx, target), 0);
    PlacedAt(c, lo, CompileJump(ctx, target), 1);
    assert NamesOk(c, lo) && NamesOk(c, lo + 1);
  }

  lemma {:induction false} TestNames(c: Code, e: Expr, lo: nat, yes: nat, no: nat, ctx: Ctx)
    requires Placed(c, lo, Test(e, yes, no, ctx)) && CallsExist(e, 0) && !ctx.inFn
    requires AnalyseExpr(e, ctx.note.view, |ctx.note.live|)
    requires Sees(c, yes, ctx.note.view) && Sees(c, no, ctx.note.view)
    ensures NamesRange(c, lo, lo + |e| + 1)
    ensures Sees(c, lo, ctx.note.view)
  {
    var last := [Cell(Branch(yes, no), ctx.note)];
    PlacedSplit(c, lo, CompileExpr(e, ctx), last);
    PlacedAt(c, lo + |e|, last, 0);
    assert NamesOk(c, lo + |e|);
    ExprNames(c, e, lo, ctx);
  }

  lemma {:induction false} ArmNames(c: Code, b: Block, lo: nat, ctx: Ctx, loop: Loop, after: nat)
    requires Placed(c, lo, CompileArm(b, None, lo, ctx, loop, after))
    requires SimpleBlock(b) && BlockFits(b, |ctx.note.live| + 1, 0) && |ctx.note.live| + 1 < MAX_SCOPES
    requires AnalyseArm(b, lo + 1, ctx.note.view, |ctx.note.live|).Some?
    requires BlockBuilds(b, false, loop.InLoop?, 0)
    requires Ready(c, ctx) && LoopSees(c, Ctx(false, loop, Inner(lo, ctx)))
    requires Sees(c, after, ctx.note.view)
    ensures NamesRange(c, lo, lo + ArmSize(b, false))
    ensures Sees(c, lo, ctx.note.view)
    decreases b, 2
  {
    hide CompileBlock, AfterBlock, BlockSize, SimpleBlock, BlockFits, NamesRange, Placed, LoopSees, AnalyseBlock,
         BlockBuilds,
         BlockGuaranteesReturn, OpenArm, CloseArm, WellFormed;
    var inner := Inner(lo, ctx);
    var start := lo + 1;
    var stop := start + BlockSize(b, false);
    var inside := Ctx(false, loop, inner);
    var end := inner.(view := AfterBlock(b, start, false, inner), dead := inner.dead || BlockGuaranteesReturn(b));
    var body := CompileBlock(b, start, inside);
    var close := if EndsInJump(b) then [] else CloseArm(lo, ctx, end, after);
    BlockLength(b, start, inside);
    OpenArmLength(None, lo, ctx);
    PlacedSplit(c, lo, OpenArm(None, lo, ctx) + body, close);
    PlacedSplit(c, lo, OpenArm(None, lo, ctx), body);
    EmptyScope(c, ctx, lo);
    InnerAnalysis(b, start, ctx, lo);
    if !EndsInJump(b) { CloseNames(c, stop, lo, ctx, end, after); }
    BlockNames(c, b, start, inside);
    OpenNames(c, lo, ctx);
    NamesJoin(c, lo, start, stop);
    if !EndsInJump(b) { NamesJoin(c, lo, stop, stop + 2); }
  }

  lemma EmptyScope(c: Code, ctx: Ctx, slot: nat)
    requires Ready(c, ctx)
    ensures Used(Inner(slot, ctx)) == 0 && WellFormed(Inner(slot, ctx).view, |Inner(slot, ctx).live|)
  {
    DeeperEmpty(ctx.note.view, |ctx.note.live| + 1);
  }

  lemma {:induction false} DeeperEmpty(view: View, d: nat)
    requires forall v :: v in view ==> v.depth < d
    ensures ScopeOf(view, d) == []
    decreases |view|
  {
    if view != [] {
      assert view[0] in view && forall v :: v in view[1..] ==> v in view;
      DeeperEmpty(view[1..], d);
    }
  }

  lemma {:induction false} InnerAnalysis(b: Block, pc: nat, ctx: Ctx, slot: nat)
    requires SimpleBlock(b) && WellFormed(ctx.note.view, |ctx.note.live|) && !ctx.inFn
    requires AnalyseArm(b, pc, ctx.note.view, |ctx.note.live|).Some?
    ensures var inner := Inner(slot, ctx);
            && AnalyseBlock(b, pc, inner.view, |inner.live|).Some?
            && Extends(AfterBlock(b, pc, false, inner), ctx.note.view, |ctx.note.live| + 1)
  {
    hide AfterBlock, AnalyseBlock, SimpleBlock;
    var inner := Inner(slot, ctx);
    BlockAgrees(b, pc, inner);
  }

  lemma CloseNames(c: Code, lo: nat, slot: nat, ctx: Ctx, end: Note, after: nat)
    requires Placed(c, lo, CloseArm(slot, ctx, end, after)) && Ready(c, ctx)
    requires Extends(end.view, ctx.note.view, |ctx.note.live| + 1)
    requires Sees(c, after, ctx.note.view)
    ensures NamesRange(c, lo, lo + 2) && Sees(c, lo, end.view)
  {
    PlacedAt(c, lo, CloseArm(slot, ctx, end, after), 0);
    PlacedAt(c, lo, CloseArm(slot, ctx, end, after), 1);
    assert NamesOk(c, lo) && NamesOk(c, lo + 1);
  }

  lemma OpenNames(c: Code, lo: nat, ctx: Ctx)
    requires Placed(c, lo, OpenArm(None, lo, ctx)) && !ctx.inFn && |ctx.note.live| + 1 < MAX_SCOPES
    requires Sees(c, lo + 1, ctx.note.view)
    ensures NamesRange(c, lo, lo + 1) && Sees(c, lo, ctx.note.view)
  {
    PlacedAt(c, lo, OpenArm(None, lo, ctx), 0);
    assert NamesOk(c, lo);
  }

  /** Everything a statement at `lo` needs from its surroundings. */
  predicate Accepted(c: Code, s: Stmt, lo: nat, ctx: Ctx) {
    && Simple(s) && StmtBuilds(s, false, ctx.loop.InLoop?, 0)
    && Ready(c, ctx) && Fits(s, |ctx.note.live|, Used(ctx.note))
    && AnalyseStmt(s, lo, ctx.note.view, |ctx.note.live|).Some?
    && (!IsJump(s) ==> Sees(c, lo + Size(s, false), After(s, lo, false, ctx.note)))
  }

  lemma IfAccepted(c: Code, s: Stmt, lo: nat, ctx: Ctx)
    requires s.If? && Accepted(c, s, lo, ctx)
    ensures var note, depth := ctx.note, |ctx.note.live|;
            var yes := lo + |s.cond| + 1;
            && CallsExist(s.cond, 0) && AnalyseExpr(s.cond, note.view, depth)
            && depth + 1 < MAX_SCOPES
            && SimpleBlock(s.thn) && BlockFits(s.thn, depth + 1, 0) && BlockBuilds(s.thn, false, ctx.loop.InLoop?, 0)
            && AnalyseArm(s.thn, yes + 1, note.view, depth).Some?
            && (s.hasElse ==>
                  && SimpleBlock(s.els) && BlockFits(s.els, depth + 1, 0)
                     && BlockBuilds(s.els, false, ctx.loop.InLoop?, 0)
                  && AnalyseArm(s.els, yes + ArmSize(s.thn, false) + 1, note.view, depth).Some?)
            && Sees(c, lo + Size(s, false), note.view)
  {
    hide SimpleBlock, BlockFits, BlockBuilds, AnalyseArm, ArmSize, AnalyseExpr, Sees, LoopSees;
    if AnalyseArm(s.thn, lo + |s.cond| + 2, ctx.note.view, |ctx.note.live|).Some? {
      ArmAgrees(s.thn, lo + |s.cond| + 2, ctx.note, 0);
    }
  }

  lemma LoopSeesInner(c: Code, ctx: Ctx, slot: nat)
    requires LoopSees(c, ctx)
    ensures LoopSees(c, ctx.(note := Inner(slot, ctx)))
  {
  }

  lemma {:induction false} IfNames(c: Code, s: Stmt, lo: nat, ctx: Ctx)
    requires s.If? && Placed(c, lo, CompileIf(s, lo, ctx)) && Accepted(c, s, lo, ctx)
    ensures NamesRange(c, lo, lo + Size(s, false))
    ensures Sees(c, lo, ctx.note.view)
    decreases s, 0
  {
    hide CompileArm, ArmSize, BlockBuilds, NamesRange, Placed, Test, BlockFits, SimpleBlock, AnalyseArm, Sees,
         AnalyseExpr, CallsExist, LoopSees,
         StmtBuilds, Simple, Fits, AnalyseStmt, WellFormed;
    IfAccepted(c, s, lo, ctx);
    var yes := lo + |s.cond| + 1;
    var no := yes + ArmSize(s.thn, false);
    var merge := lo + Size(s, false);
    var test := Test(s.cond, yes, no, ctx);
    var thn := CompileArm(s.thn, None, yes, ctx, ctx.loop, merge);
    var els := if s.hasElse then CompileArm(s.els, None, no, ctx, ctx.loop, merge) else [Cell(Jump(merge), ctx.note)];
    ArmLength(s.thn, None, yes, ctx, ctx.loop, merge);
    PlacedSplit(c, lo, test + thn, els);
    PlacedSplit(c, lo, test, thn);
    LoopSeesInner(c, ctx, yes);
    ArmNames(c, s.thn, yes, ctx, ctx.loop, merge);
    if s.hasElse {
      LoopSeesInner(c, ctx, no);
      ArmNames(c, s.els, no, ctx, ctx.loop, merge);
    } else {
      LoneJumpNames(c, no, merge, ctx.note);
    }
    TestNames(c, s.cond, lo, yes, no, ctx);
    NamesJoin(c, lo, yes, no);
    NamesJoin(c, lo, no, merge);
  }

  lemma LoneJumpNames(c: Code, pc: nat, target: nat, note: Note)
    requires Placed(c, pc, [Cell(Jump(target), note)]) && Sees(c, target, note.view)
    ensures NamesRange(c, pc, pc + 1) && Sees(c, pc, note.view)
  {
    PlacedAt(c, pc, [Cell(Jump(target), note)], 0);
  }

  lemma WhileAccepted(c: Code, s: Stmt, lo: nat, ctx: Ctx)
    requires s.While? && Accepted(c, s, lo, ctx)
    ensures var note, depth := ctx.note, |ctx.note.live|;
            && CallsExist(s.cond, 0) && AnalyseExpr(s.cond, note.view, depth)
            && depth + 1 < MAX_SCOPES
            && SimpleBlock(s.body) && BlockFits(s.body, depth + 1, 0) && BlockBuilds(s.body, false, true, 0)
            && AnalyseArm(s.body, lo + |s.cond| + 2, note.view, depth).Some?
            && Sees(c, lo + Size(s, false), note.view)
            && Extends(note.view, note.view, depth + 1)
            && forall v :: v in note.view ==> v.depth <= depth
  {
    hide SimpleBlock, BlockFits, BlockBuilds, AnalyseArm, ArmSize, AnalyseExpr, Sees, LoopSees;
  }

  lemma {:induction false} WhileNames(c: Code, s: Stmt, lo: nat, ctx: Ctx)
    requires s.While? && Placed(c, lo, CompileWhile(s, lo, ctx)) && Accepted(c, s, lo, ctx)
    ensures NamesRange(c, lo, lo + Size(s, false))
    ensures Sees(c, lo, ctx.note.view)
    decreases s, 0
  {
    hide CompileArm, ArmSize, BlockBuilds, NamesRange, CompileExpr, BlockFits, SimpleBlock, AnalyseArm, AnalyseExpr,
         CallsExist,
         StmtBuilds, Simple, Fits, AnalyseStmt, WellFormed, Extends;
    WhileAccepted(c, s, lo, ctx);
    var start := lo + |s.cond| + 1;
    var exit := lo + Size(s, false);
    var loop := InLoop(exit, lo, start, ctx.note);
    var test := Test(s.cond, start, exit, ctx);
    var arm := CompileArm(s.body, None, start, ctx, loop, lo);
    ArmLength(s.body, None, start, ctx, loop, lo);
    PlacedSplit(c, lo, test, arm);
    PlacedAt(c, lo, test, 0);
    TestNotes(s.cond, start, exit, ctx);
    ArmNames(c, s.body, start, ctx, loop, lo);
    TestNames(c, s.cond, lo, start, exit, ctx);
    NamesJoin(c, lo, start, exit);
  }

  lemma {:induction false} DeclCase(c: Code, s: Stmt, lo: nat, ctx: Ctx)
    requires s.VarDecl? && Placed(c, lo, CompileStmt(s, lo, ctx)) && Accepted(c, s, lo, ctx)
    ensures NamesRange(c, lo, lo + Size(s, false)) && Sees(c, lo, ctx.note.view)
  {
    hide CompileDecl, NamesRange, Sees, Placed, CallsExist, LoopSees, WellFormed, AnalyseStmt, Used;
    DeclNames(c, s.name, s.isConst, s.init, lo, ctx);
  }

  lemma {:induction false} AssignCase(c: Code, s: Stmt, lo: nat, ctx: Ctx)
    requires s.Assign? && Placed(c, lo, CompileStmt(s, lo, ctx)) && Accepted(c, s, lo, ctx)
    ensures NamesRange(c, lo, lo + Size(s, false)) && Sees(c, lo, ctx.note.view)
  {
    hide CompileAssign, NamesRange, Sees, Placed, CallsExist, LoopSees, WellFormed, AnalyseStmt;
    AssignNames(c, s.name, s.compound, s.value, lo, ctx);
  }

  lemma {:induction false} EvalCase(c: Code, s: Stmt, lo: nat, ctx: Ctx)
    requires s.Eval? && Placed(c, lo, CompileStmt(s, lo, ctx)) && Accepted(c, s, lo, ctx)
    ensures NamesRange(c, lo, lo + Size(s, false)) && Sees(c, lo, ctx.note.view)
  {
    hide CompileExpr, NamesRange, Sees, Placed, CallsExist, LoopSees, WellFormed, AnalyseExpr;
    ExprNames(c, s.expr, lo, ctx);
  }

  lemma {:induction false} JumpCase(c: Code, s: Stmt, lo: nat, ctx: Ctx)
    requires (s.Break? || s.Continue?) && Placed(c, lo, CompileStmt(s, lo, ctx)) && Accepted(c, s, lo, ctx)
    ensures NamesRange(c, lo, lo + Size(s, false)) && Sees(c, lo, ctx.note.view)
  {
    hide CompileStmt, Size, CompileJump, NamesRange, Sees, Placed, Ready, Fits, AnalyseStmt, After;
    ReadyTop(c, ctx);
    SimpleCode(s, lo, ctx);
    JumpNames(c, lo, ctx, if s.Break? then ctx.loop.exit else ctx.loop.again);
  }

  lemma {:induction false} StmtNames(c: Code, s: Stmt, lo: nat, ctx: Ctx)
    requires Placed(c, lo, CompileStmt(s, lo, ctx)) && Accepted(c, s, lo, ctx)
    ensures NamesRange(c, lo, lo + Size(s, false))
    ensures Sees(c, lo, ctx.note.view)
    decreases s, 1
  {
    hide CompileIf, CompileWhile, CompileForIn, Accepted, Size;
    match s
    case If(_, _, _, _) => IfNames(c, s, lo, ctx);
    case While(_, _) => WhileNames(c, s, lo, ctx);
    case VarDecl(_, _, _) => hide CompileStmt; DeclCase(c, s, lo, ctx);
    case Assign(_, _, _) => hide CompileStmt; AssignCase(c, s, lo, ctx);
    case Eval(_) => hide CompileStmt; EvalCase(c, s, lo, ctx);
    case Break => hide CompileStmt; JumpCase(c, s, lo, ctx);
    case Continue => hide CompileStmt; JumpCase(c, s, lo, ctx);
    case _ => NotAccepted(c, s, lo, ctx);
  }

  lemma NotAccepted(c: Code, s: Stmt, lo: nat, ctx: Ctx)
    requires s.ForIn? || s.Return?
    ensures !Accepted(c, s, lo, ctx)
  {
  }

  lemma DeclWellFormed(view: View, depth: nat, v: StaticVar)
    requires WellFormed(view, depth) && v.depth == depth && 0 < |v.name| < 255 && !DeclaredAt(view, depth, v.name)
    ensures WellFormed([v] + view, depth)
    ensures |ScopeOf([v] + view, depth)| == |ScopeOf(view, depth)| + 1
  {
    assert ([v] + view)[1..] == view;
  }

  lemma {:induction false} NextReady(c: Code, s: Stmt, lo: nat, ctx: Ctx)
    requires Simple(s) && Ready(c, ctx) && Fits(s, |ctx.note.live|, Used(ctx.note))
    requires AnalyseStmt(s, lo, ctx.note.view, |ctx.note.live|).Some?
    ensures AnalyseStmt(s, lo, ctx.note.view, |ctx.note.live|) == Some(After(s, lo, false, ctx.note))
    ensures var next := ctx.(note := Next(s, lo, false, ctx.note));
            Ready(c, next) && Used(next.note) == Used(ctx.note) + if s.VarDecl? then 1 else 0
  {
    hide ScopeOf, WellFormed, LoopSees;
    WithinDepth(ctx.note);
    StmtAgrees(s, lo, ctx.note);
    if s.VarDecl? {
      DeclWellFormed(ctx.note.view, |ctx.note.live|, StaticVar(s.name, s.isConst, |ctx.note.live|, lo + |s.init|));
      LoopStillSees(c, s, lo, ctx);
    } else {
      LoopSameView(c, ctx, Next(s, lo, false, ctx.note));
    }
  }

  lemma WithinDepth(note: Note)
    requires WellFormed(note.view, |note.live|)
    ensures forall i :: 0 <= i < |note.view| ==> note.view[i].depth <= |note.live|
  {
  }

  lemma LoopSameView(c: Code, ctx: Ctx, next: Note)
    requires LoopSees(c, ctx) && next.view == ctx.note.view && next.live == ctx.note.live
    ensures LoopSees(c, ctx.(note := next))
  {
  }

  lemma LoopStillSees(c: Code, s: Stmt, lo: nat, ctx: Ctx)
    requires s.VarDecl? && LoopSees(c, ctx)
    ensures LoopSees(c, ctx.(note := Next(s, lo, false, ctx.note)))
  {
    if ctx.loop.NoLoop? { return; }
    var next := Next(s, lo, false, ctx.note);
    assert Extends(next.view, ctx.note.view, |ctx.loop.outer.live| + 1);
    ExtendsTrans(next.view, ctx.note.view, ctx.loop.outer.view, |ctx.loop.outer.live| + 1);
  }

  /** Everything a block at `lo` needs from its surroundings. */
  predicate BlockAccepted(c: Code, b: Block, lo: nat, ctx: Ctx) {
    && SimpleBlock(b) && BlockBuilds(b, false, ctx.loop.InLoop?, 0)
    && Ready(c, ctx) && BlockFits(b, |ctx.note.live|, Used(ctx.note))
    && AnalyseBlock(b, lo, ctx.note.view, |ctx.note.live|).Some?
    && (!EndsInJump(b) ==> Sees(c, lo + BlockSize(b, false), AfterBlock(b, lo, false, ctx.note)))
  }

  lemma {:induction false} BlockNames(c: Code, b: Block, lo: nat, ctx: Ctx)
    requires Placed(c, lo, CompileBlock(b, lo, ctx)) && BlockAccepted(c, b, lo, ctx)
    ensures NamesRange(c, lo, lo + BlockSize(b, false))
    ensures Sees(c, lo, ctx.note.view)
    decreases b, 0
  {
    hide CompileStmt, CompileBlock, StmtBuilds, Size, GuaranteesReturn, After, NamesRange, Ready, Placed, Sees,
         Simple, Fits, AnalyseStmt, Used;
    match b
    case Done => BlockEnd(c, lo, ctx); EmptyNames(c, lo);
    case Then(s, rest) =>
      var mid := lo + Size(s, false);
      var next := ctx.(note := Next(s, lo, false, ctx.note));
      assert !ctx.inFn by { ReadyTop(c, ctx); }
      NextReady(c, s, lo, ctx);
      BlockSplit(c, s, rest, lo, ctx);
      if rest.Then? || !IsJump(s) {
        BlockNames(c, rest, mid, next);
      } else {
        BlockEnd(c, mid, next);
        EmptyNames(c, mid);
      }
      StmtNames(c, s, lo, ctx);
      NamesJoin(c, lo, mid, mid + BlockSize(rest, false));
  }

  lemma ReadyTop(c: Code, ctx: Ctx)
    requires Ready(c, ctx)
    ensures !ctx.inFn
  {
  }

  lemma EmptyNames(c: Code, pc: nat)
    requires Placed(c, pc, [])
    ensures NamesRange(c, pc, pc)
  {
  }
}
