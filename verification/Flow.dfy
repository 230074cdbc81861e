/** Every instruction that code generation emits agrees with the notes: control only passes between
    points whose notes fit, so the notes can be read as facts about the machine (module Depth).
    The predicates come first: what one instruction asks of its own note and of the notes at its
    targets. Then one lemma for each compiling function of module Codegen shows that its code meets
    them wherever it is placed, the jumps of enclosed statements included, up to the lemma on whole
    blocks. */
module Flow {
  import opened Syntax
  import opened Codegen

  // ---------------------------------------------------------------- placing code

  predicate Placed(c: Code, pc: nat, part: Code) {
    pc + |part| <= |c| && c[pc..pc + |part|] == part
  }

  lemma PlacedSplit(c: Code, pc: nat, a: Code, b: Code)
    requires Placed(c, pc, a + b)
    ensures Placed(c, pc, a) && Placed(c, pc + |a|, b)
  {
    var whole := c[pc..pc + |a + b|];
    assert whole[..|a|] == a && whole[|a|..] == b;
    assert c[pc..pc + |a|] == whole[..|a|];
    assert c[pc + |a|..pc + |a| + |b|] == whole[|a|..];
  }

  lemma PlacedWhole(c: Code)
    ensures Placed(c, 0, c)
  {
    assert c[0..|c|] == c;
  }

  lemma PlacedAt(c: Code, pc: nat, part: Code, i: nat)
    requires Placed(c, pc, part) && i < |part|
    ensures pc + i < |c| && c[pc + i] == part[i]
  {
    assert c[pc..pc + |part|][i] == part[i];
  }

  // ---------------------------------------------------------------- control flow respects the notes

  /** Control may arrive at `pc` from a point with these enclosing scopes; a live point never leads
      to a dead one. */
  predicate Lands(c: Code, pc: nat, live: seq<nat>, dead: bool) {
    pc < |c| && c[pc].note.live == live && (c[pc].note.dead ==> dead)
  }

  predicate FlowOk(c: Code, inFn: bool, funcs: nat, pc: nat)
    requires pc < |c|
  {
    var live, dead := c[pc].note.live, c[pc].note.dead;
    match c[pc].instr
    case Enter(s) => s !in live && Lands(c, pc + 1, live + [s], dead)
    case PopTo(s) => Unwinds(c, pc, s)
    case PopToBase(s) => Unwinds(c, pc, s)
    case Branch(yes, no) => Lands(c, yes, live, dead) && Lands(c, no, live, dead)
    case Jump(t) => Lands(c, t, live, dead)
    case Invoke(g) => 1 <= g <= funcs && Lands(c, pc + 1, live, dead)
    case Ret => inFn && live == []
    case Halt => !inFn && live == []
    case _ => Lands(c, pc + 1, live, dead)
  }

  predicate Unwinds(c: Code, pc: nat, slot: nat)
    requires pc < |c|
  {
    && pc + 1 < |c|
    && var live, n := c[pc].note.live, |c[pc + 1].note.live|;
       n < |live| && live[n] == slot && Lands(c, pc + 1, live[..n], c[pc].note.dead)
  }

  predicate RangeOk(c: Code, inFn: bool, funcs: nat, lo: nat, hi: nat) {
    hi <= |c| && forall pc {:trigger FlowOk(c, inFn, funcs, pc)} :: lo <= pc < hi ==> FlowOk(c, inFn, funcs, pc)
  }

  predicate LoopFits(c: Code, ctx: Ctx) {
    ctx.loop.InLoop? ==>
      && var outer, live, dead := ctx.loop.outer.live, ctx.note.live, ctx.note.dead;
      && Lands(c, ctx.loop.exit, outer, dead)
      && Lands(c, ctx.loop.again, outer, dead)
      && if ctx.inFn then outer == live
         else |outer| < |live| && live[..|outer|] == outer && live[|outer|] == ctx.loop.slot
  }

  /** Every enclosing scope was entered before `pc`; in a function there is only its own. */
  predicate Nested(ctx: Ctx, pc: nat) {
    if ctx.inFn then ctx.note.live == [0] else forall s :: s in ctx.note.live ==> s < pc
  }

  // ---------------------------------------------------------------- statements begin and end level

  /** The code of `s` starts and ends in the same scopes, and so does that of every statement inside it. */
  predicate Level(c: Code, s: Stmt, lo: nat, inFn: bool)
    decreases s, 0
  {
    && (!IsJump(s) ==>
          && lo < |c| && lo + Size(s, inFn) < |c|
          && c[lo].note.live == c[lo + Size(s, inFn)].note.live)
    && match s
       case If(e, thn, hasElse, els) =>
         var yes := lo + |e| + 1;
         && BlockLevel(c, thn, yes + Opening(inFn), inFn)
         && (hasElse ==> BlockLevel(c, els, yes + ArmSize(thn, inFn) + Opening(inFn), inFn))
       case While(e, body) => BlockLevel(c, body, lo + |e| + 1 + Opening(inFn), inFn)
       case ForIn(_, e, isDict, body) => BlockLevel(c, body, lo + HeadSize(e, isDict) + Opening(inFn) + 1, inFn)
       case _ => true
  }

  predicate BlockLevel(c: Code, b: Block, lo: nat, inFn: bool)
    decreases b, 0
  {
    match b
    case Done => true
    case Then(s, rest) => Level(c, s, lo, inFn) && BlockLevel(c, rest, lo + Size(s, inFn), inFn)
  }

  lemma {:induction false} ExprFlows(c: Code, funcs: nat, e: Expr, lo: nat, ctx: Ctx)
    requires Placed(c, lo, CompileExpr(e, ctx)) && CallsExist(e, funcs)
    requires Lands(c, lo + |e|, ctx.note.live, ctx.note.dead)
    ensures RangeOk(c, ctx.inFn, funcs, lo, lo + |e|)
    ensures Lands(c, lo, ctx.note.live, ctx.note.dead)
    decreases |e|
  {
    if e != [] {
      var first := [Cell(if e[0].Use? then Access(e[0].name, ctx) else Invoke(e[0].func + 1), ctx.note)];
      PlacedSplit(c, lo, first, CompileExpr(e[1..], ctx));
      PlacedAt(c, lo, first, 0);
      ExprFlows(c, funcs, e[1..], lo + 1, ctx);
      assert FlowOk(c, ctx.inFn, funcs, lo);
    }
  }

  lemma {:induction false} JumpFlows(c: Code, funcs: nat, lo: nat, ctx: Ctx, target: nat)
    requires ctx.loop.InLoop? && LoopFits(c, ctx)
    requires target == ctx.loop.exit || target == ctx.loop.again
    requires Placed(c, lo, CompileJump(ctx, target))
    ensures RangeOk(c, ctx.inFn, funcs, lo, lo + Opening(ctx.inFn) + 1)
    ensures Lands(c, lo, ctx.note.live, ctx.note.dead)
  {
    var part := CompileJump(ctx, target);
    PlacedAt(c, lo, part, 0);
    PlacedAt(c, lo, part, Opening(ctx.inFn));
    assert FlowOk(c, ctx.inFn, funcs, lo + Opening(ctx.inFn));
    assert FlowOk(c, ctx.inFn, funcs, lo);
  }

  lemma {:induction false} DeclFlows(c: Code, funcs: nat, x: string, k: bool, e: Expr, lo: nat, ctx: Ctx)
    requires Placed(c, lo, CompileDecl(x, k, e, ctx)) && CallsExist(e, funcs)
    requires Lands(c, lo + |e| + 1, ctx.note.live, ctx.note.dead)
    ensures RangeOk(c, ctx.inFn, funcs, lo, lo + |e| + 1)
    ensures Lands(c, lo, ctx.note.live, ctx.note.dead)
  {
    var last := [Cell(if ctx.inFn then DeclIfMissing(x) else Decl(x, k), ctx.note)];
    PlacedSplit(c, lo, CompileExpr(e, ctx), last);
    PlacedAt(c, lo + |e|, last, 0);
    assert FlowOk(c, ctx.inFn, funcs, lo + |e|);
    ExprFlows(c, funcs, e, lo, ctx);
  }

  lemma {:induction false} AssignFlows(c: Code, funcs: nat, x: string, compound: bool, e: Expr, lo: nat, ctx: Ctx)
    requires Placed(c, lo, CompileAssign(x, compound, e, ctx)) && CallsExist(e, funcs)
    requires Lands(c, lo + (if compound then 1 else 0) + |e| + 1, ctx.note.live, ctx.note.dead)
    ensures RangeOk(c, ctx.inFn, funcs, lo, lo + (if compound then 1 else 0) + |e| + 1)
    ensures Lands(c, lo, ctx.note.live, ctx.note.dead)
  {
    var first := if compound then [Cell(Access(x, ctx), ctx.note)] else [];
    var last := [Cell(Target(x, compound, ctx), ctx.note)];
    PlacedSplit(c, lo, first + CompileExpr(e, ctx), last);
    PlacedSplit(c, lo, first, CompileExpr(e, ctx));
    PlacedAt(c, lo + |first| + |e|, last, 0);
    assert FlowOk(c, ctx.inFn, funcs, lo + |first| + |e|);
    ExprFlows(c, funcs, e, lo + |first|, ctx);
    if compound {
      PlacedAt(c, lo, first, 0);
      assert FlowOk(c, ctx.inFn, funcs, lo);
    }
  }

  lemma {:induction false} ReturnFlows(c: Code, funcs: nat, e: Expr, lo: nat, ctx: Ctx)
    requires Placed(c, lo, CompileReturn(e, ctx)) && CallsExist(e, funcs)
    requires ctx.inFn && ctx.note.live == [0]
    ensures RangeOk(c, ctx.inFn, funcs, lo, lo + |e| + 2)
    ensures Lands(c, lo, ctx.note.live, ctx.note.dead)
  {
    var last := [Cell(PopToBase(0), ctx.note), Cell(Ret, ctx.note.(live := []))];
    assert CompileReturn(e, ctx) == CompileExpr(e, ctx) + last;
    PlacedSplit(c, lo, CompileExpr(e, ctx), last);
    PlacedAt(c, lo + |e|, last, 0);
    PlacedAt(c, lo + |e|, last, 1);
    assert FlowOk(c, ctx.inFn, funcs, lo + |e| + 1);
    assert FlowOk(c, ctx.inFn, funcs, lo + |e|);
    ExprFlows(c, funcs, e, lo, ctx);
  }

  /** What surrounds a statement placed at `lo`: the scopes, the loop, and where control falls through. */
  predicate Surrounds(c: Code, funcs: nat, s: Stmt, lo: nat, ctx: Ctx) {
    && StmtBuilds(s, ctx.inFn, ctx.loop.InLoop?, funcs)
    && Nested(ctx, lo)
    && LoopFits(c, ctx)
    && (!IsJump(s) ==> Lands(c, lo + Size(s, ctx.inFn), ctx.note.live, ctx.note.dead || GuaranteesReturn(s)))
  }

  lemma {:induction false} SimpleFlows(c: Code, funcs: nat, s: Stmt, lo: nat, ctx: Ctx)
    requires !s.If? && !s.While? && !s.ForIn?
    requires Placed(c, lo, CompileStmt(s, lo, ctx))
    requires Surrounds(c, funcs, s, lo, ctx)
    ensures RangeOk(c, ctx.inFn, funcs, lo, lo + Size(s, ctx.inFn))
    ensures Lands(c, lo, ctx.note.live, ctx.note.dead)
  {
    hide CompileStmt, Size, CompileDecl, CompileAssign, CompileReturn, CompileJump, CompileExpr, RangeOk, Lands,
         Placed, CallsExist, LoopFits;
    SimpleCode(s, lo, ctx);
    match s
    case VarDecl(x, k, e) => DeclFlows(c, funcs, x, k, e, lo, ctx);
    case Assign(x, compound, e) => AssignFlows(c, funcs, x, compound, e, lo, ctx);
    case Eval(e) => ExprFlows(c, funcs, e, lo, ctx);
    case Return(e) => ReturnFlows(c, funcs, e, lo, ctx);
    case Break => JumpFlows(c, funcs, lo, ctx, ctx.loop.exit);
    case Continue => JumpFlows(c, funcs, lo, ctx, ctx.loop.again);
  }

  lemma Falls(c: Code, funcs: nat, s: Stmt, lo: nat, ctx: Ctx)
    requires Surrounds(c, funcs, s, lo, ctx) && !IsJump(s)
    requires Lands(c, lo, ctx.note.live, ctx.note.dead)
    ensures lo < |c| && lo + Size(s, ctx.inFn) < |c| && c[lo].note.live == c[lo + Size(s, ctx.inFn)].note.live
  {
    hide Size, StmtBuilds, LoopFits, Nested;
  }

  lemma SimpleLevel(c: Code, funcs: nat, s: Stmt, lo: nat, ctx: Ctx)
    requires !s.If? && !s.While? && !s.ForIn?
    requires Surrounds(c, funcs, s, lo, ctx)
    requires Lands(c, lo, ctx.note.live, ctx.note.dead)
    ensures Level(c, s, lo, ctx.inFn)
  {
    hide Surrounds, Size, Lands;
    if !IsJump(s) { Falls(c, funcs, s, lo, ctx); }
  }

  lemma {:induction false} IfLevel(c: Code, funcs: nat, s: Stmt, lo: nat, ctx: Ctx)
    requires s.If? && Surrounds(c, funcs, s, lo, ctx)
    requires Lands(c, lo, ctx.note.live, ctx.note.dead)
    requires BlockLevel(c, s.thn, lo + |s.cond| + 1 + Opening(ctx.inFn), ctx.inFn)
    requires s.hasElse ==> BlockLevel(c, s.els, lo + |s.cond| + 1 + ArmSize(s.thn, ctx.inFn) + Opening(ctx.inFn),
                                      ctx.inFn)
    ensures Level(c, s, lo, ctx.inFn)
  {
    hide Surrounds, Size, Lands, BlockLevel, ArmSize;
    Falls(c, funcs, s, lo, ctx);
  }

  lemma {:induction false} TestFlows(c: Code, funcs: nat, e: Expr, lo: nat, yes: nat, no: nat, ctx: Ctx)
    requires Placed(c, lo, Test(e, yes, no, ctx)) && CallsExist(e, funcs)
    requires Lands(c, yes, ctx.note.live, ctx.note.dead) && Lands(c, no, ctx.note.live, ctx.note.dead)
    ensures RangeOk(c, ctx.inFn, funcs, lo, lo + |e| + 1)
    ensures Lands(c, lo, ctx.note.live, ctx.note.dead)
  {
    var last := [Cell(Branch(yes, no), ctx.note)];
    PlacedSplit(c, lo, CompileExpr(e, ctx), last);
    PlacedAt(c, lo + |e|, last, 0);
    assert FlowOk(c, ctx.inFn, funcs, lo + |e|);
    ExprFlows(c, funcs, e, lo, ctx);
  }

  lemma {:induction false} RangeJoin(c: Code, inFn: bool, funcs: nat, lo: nat, mid: nat, hi: nat)
    requires RangeOk(c, inFn, funcs, lo, mid) && RangeOk(c, inFn, funcs, mid, hi)
    ensures RangeOk(c, inFn, funcs, lo, hi)
  {
  }

  /** The end of an arm: leave its scope and go to `after`. */
  lemma {:induction false} CloseFlows(c: Code, funcs: nat, lo: nat, pc: nat, ctx: Ctx, end: Note, after: nat)
    requires Placed(c, lo, CloseArm(pc, ctx, end, after))
    requires end.live == Inner(pc, ctx).live
    requires Lands(c, after, ctx.note.live, end.dead)
    ensures RangeOk(c, ctx.inFn, funcs, lo, lo + Opening(ctx.inFn) + 1)
    ensures Lands(c, lo, end.live, end.dead)
  {
    var part := CloseArm(pc, ctx, end, after);
    PlacedAt(c, lo, part, 0);
    PlacedAt(c, lo, part, Opening(ctx.inFn));
    assert FlowOk(c, ctx.inFn, funcs, lo + Opening(ctx.inFn));
    if !ctx.inFn { assert end.live[..|ctx.note.live|] == ctx.note.live; }
    assert FlowOk(c, ctx.inFn, funcs, lo);
  }

  /** The start of an arm: enter its scope and, in a `for-in`, set the loop variable. */
  lemma {:induction false} OpenFlows(c: Code, funcs: nat, lo: nat, lead: Option<string>, ctx: Ctx)
    requires Placed(c, lo, OpenArm(lead, lo, ctx))
    requires Nested(ctx, lo)
    requires Lands(c, lo + Opening(ctx.inFn) + Extra(lead), Inner(lo, ctx).live, ctx.note.dead)
    ensures RangeOk(c, ctx.inFn, funcs, lo, lo + Opening(ctx.inFn) + Extra(lead))
    ensures Lands(c, lo, ctx.note.live, ctx.note.dead)
  {
    var part := OpenArm(lead, lo, ctx);
    if lead.Some? {
      PlacedAt(c, lo, part, Opening(ctx.inFn));
      assert FlowOk(c, ctx.inFn, funcs, lo + Opening(ctx.inFn));
    }
    if !ctx.inFn {
      PlacedAt(c, lo, part, 0);
      assert FlowOk(c, ctx.inFn, funcs, lo);
    }
  }

  // ---------------------------------------------------------------- compiled code is well-formed

  lemma {:induction false} ArmFlows(c: Code, funcs: nat, b: Block, lead: Option<string>, lo: nat, ctx: Ctx,
                                    loop: Loop, after: nat)
    requires Placed(c, lo, CompileArm(b, lead, lo, ctx, loop, after))
    requires BlockBuilds(b, ctx.inFn, loop.InLoop?, funcs)
    requires Nested(ctx, lo) && LoopFits(c, Ctx(ctx.inFn, loop, Inner(lo, ctx)))
    requires Lands(c, after, ctx.note.live, ctx.note.dead || BlockGuaranteesReturn(b))
    ensures RangeOk(c, ctx.inFn, funcs, lo, lo + ArmSize(b, ctx.inFn) + Extra(lead))
    ensures BlockLevel(c, b, lo + Opening(ctx.inFn) + Extra(lead), ctx.inFn)
    ensures Lands(c, lo, ctx.note.live, ctx.note.dead)
    decreases b, 2
  {
    hide CompileBlock, AfterBlock, BlockSize, BlockBuilds, BlockGuaranteesReturn, RangeOk, Placed, LoopFits, Lands,
         OpenArm, CloseArm, BlockLevel;
    var inner := Inner(lo, ctx);
    var start := lo + Opening(ctx.inFn) + Extra(lead);
    var stop := start + BlockSize(b, ctx.inFn);
    var end := inner.(view := AfterBlock(b, start, ctx.inFn, inner), dead := inner.dead || BlockGuaranteesReturn(b));
    var body := CompileBlock(b, start, Ctx(ctx.inFn, loop, inner));
    var close := if EndsInJump(b) then [] else CloseArm(lo, ctx, end, after);
    BlockLength(b, start, Ctx(ctx.inFn, loop, inner));
    PlacedSplit(c, lo, OpenArm(lead, lo, ctx) + body, close);
    PlacedSplit(c, lo, OpenArm(lead, lo, ctx), body);
    OpenArmLength(lead, lo, ctx);
    if !EndsInJump(b) {
      CloseFlows(c, funcs, stop, lo, ctx, end, after);
    }
    BlockFlows(c, funcs, b, start, Ctx(ctx.inFn, loop, inner));
    OpenFlows(c, funcs, lo, lead, ctx);
    RangeJoin(c, ctx.inFn, funcs, lo, start, stop);
    if !EndsInJump(b) {
      RangeJoin(c, ctx.inFn, funcs, lo, stop, lo + ArmSize(b, ctx.inFn) + Extra(lead));
    }
  }

  lemma IfContext(c: Code, funcs: nat, s: Stmt, lo: nat, ctx: Ctx, at: nat)
    requires s.If? && Surrounds(c, funcs, s, lo, ctx) && lo <= at
    ensures CallsExist(s.cond, funcs)
    ensures Nested(ctx, at) && LoopFits(c, Ctx(ctx.inFn, ctx.loop, Inner(at, ctx)))
    ensures var merge, live, dead := lo + Size(s, ctx.inFn), ctx.note.live, ctx.note.dead;
            && Lands(c, merge, live, dead || BlockGuaranteesReturn(s.thn))
            && Lands(c, merge, live, dead || (s.hasElse && BlockGuaranteesReturn(s.els)))
    ensures BlockBuilds(s.thn, ctx.inFn, ctx.loop.InLoop?, funcs)
    ensures s.hasElse ==> BlockBuilds(s.els, ctx.inFn, ctx.loop.InLoop?, funcs)
  {
    hide Size, BlockGuaranteesReturn, BlockBuilds;
  }

  lemma {:induction false} IfFlows(c: Code, funcs: nat, s: Stmt, lo: nat, ctx: Ctx)
    requires s.If? && Placed(c, lo, CompileIf(s, lo, ctx))
    requires Surrounds(c, funcs, s, lo, ctx)
    ensures RangeOk(c, ctx.inFn, funcs, lo, lo + Size(s, ctx.inFn))
    ensures Level(c, s, lo, ctx.inFn)
    ensures Lands(c, lo, ctx.note.live, ctx.note.dead)
    decreases s, 0
  {
    hide CompileArm, ArmSize, BlockBuilds, RangeOk, Placed, Test, BlockLevel, Level, Surrounds, Lands, LoopFits, Nested;
    var yes := lo + |s.cond| + 1;
    var no := yes + ArmSize(s.thn, ctx.inFn);
    var merge := lo + Size(s, ctx.inFn);
    var test := Test(s.cond, yes, no, ctx);
    var thn := CompileArm(s.thn, None, yes, ctx, ctx.loop, merge);
    var ctx' := ElseCtx(s, yes, ctx);
    var els := if s.hasElse then CompileArm(s.els, None, no, ctx', ctx.loop, merge) else [Cell(Jump(merge), ctx'.note)];
    ArmLength(s.thn, None, yes, ctx, ctx.loop, merge);
    PlacedSplit(c, lo, test + thn, els);
    PlacedSplit(c, lo, test, thn);
    IfContext(c, funcs, s, lo, ctx, yes);
    IfContext(c, funcs, s, lo, ctx, no);
    SameFits(c, ctx, ctx', no);
    ArmFlows(c, funcs, s.thn, None, yes, ctx, ctx.loop, merge);
    if s.hasElse {
      ArmFlows(c, funcs, s.els, None, no, ctx', ctx.loop, merge);
    } else {
      LoneJumpFlows(c, ctx.inFn, funcs, no, merge, ctx'.note);
    }
    TestFlows(c, funcs, s.cond, lo, yes, no, ctx);
    RangeJoin(c, ctx.inFn, funcs, lo, yes, no);
    RangeJoin(c, ctx.inFn, funcs, lo, no, merge);
    IfLevel(c, funcs, s, lo, ctx);
  }

  /** The flow of control does not depend on the variable list. */
  lemma SameFits(c: Code, a: Ctx, b: Ctx, at: nat)
    requires a.inFn == b.inFn && a.loop == b.loop && a.note.live == b.note.live && a.note.dead == b.note.dead
    requires Nested(a, at) && LoopFits(c, Ctx(a.inFn, a.loop, Inner(at, a)))
    ensures Nested(b, at) && LoopFits(c, Ctx(b.inFn, b.loop, Inner(at, b)))
  {
    hide Lands;
  }

  lemma LoneJumpFlows(c: Code, inFn: bool, funcs: nat, pc: nat, target: nat, note: Note)
    requires Placed(c, pc, [Cell(Jump(target), note)])
    requires Lands(c, target, note.live, note.dead)
    ensures RangeOk(c, inFn, funcs, pc, pc + 1) && Lands(c, pc, note.live, note.dead)
  {
    PlacedAt(c, pc, [Cell(Jump(target), note)], 0);
  }

  lemma SingleFlows(c: Code, inFn: bool, funcs: nat, pc: nat)
    requires pc < |c| && FlowOk(c, inFn, funcs, pc)
    ensures RangeOk(c, inFn, funcs, pc, pc + 1)
  {
  }

  lemma {:induction false} WhileFlows(c: Code, funcs: nat, s: Stmt, lo: nat, ctx: Ctx)
    requires s.While? && Placed(c, lo, CompileWhile(s, lo, ctx))
    requires Surrounds(c, funcs, s, lo, ctx)
    ensures RangeOk(c, ctx.inFn, funcs, lo, lo + Size(s, ctx.inFn))
    ensures Level(c, s, lo, ctx.inFn)
    ensures Lands(c, lo, ctx.note.live, ctx.note.dead)
    decreases s, 0
  {
    hide CompileArm, ArmSize, BlockBuilds, RangeOk, CompileExpr, BlockLevel;
    var start := lo + |s.cond| + 1;
    var exit := lo + Size(s, ctx.inFn);
    var loop := InLoop(exit, lo, start, ctx.note);
    var test := Test(s.cond, start, exit, ctx);
    var arm := CompileArm(s.body, None, start, ctx, loop, lo);
    ArmLength(s.body, None, start, ctx, loop, lo);
    PlacedSplit(c, lo, test, arm);
    PlacedAt(c, lo, test, 0);
    TestNotes(s.cond, start, exit, ctx);
    ArmFlows(c, funcs, s.body, None, start, ctx, loop, lo);
    TestFlows(c, funcs, s.cond, lo, start, exit, ctx);
    RangeJoin(c, ctx.inFn, funcs, lo, start, exit);
  }

  lemma TestNotes(e: Expr, yes: nat, no: nat, ctx: Ctx)
    ensures Test(e, yes, no, ctx)[0].note == ctx.note
  {
  }

  lemma {:induction false} ForInFlows(c: Code, funcs: nat, s: Stmt, lo: nat, ctx: Ctx)
    requires s.ForIn? && Placed(c, lo, CompileForIn(s, lo, ctx))
    requires Surrounds(c, funcs, s, lo, ctx)
    ensures RangeOk(c, ctx.inFn, funcs, lo, lo + Size(s, ctx.inFn))
    ensures Level(c, s, lo, ctx.inFn)
    ensures Lands(c, lo, ctx.note.live, ctx.note.dead)
    decreases s, 0
  {
    hide CompileArm, ArmSize, BlockBuilds, RangeOk, ForInHead, Placed, BlockLevel;
    var start := lo + HeadSize(s.iterable, s.isDict);
    var again := start + ArmSize(s.body, ctx.inFn) + 1;
    var exit := again + 1;
    var loop := InLoop(exit, again, start, ctx.note);
    var head := ForInHead(s.name, s.iterable, s.isDict, lo, exit, ctx);
    var arm := CompileArm(s.body, Some(s.name), start, ctx, loop, again);
    var back := [Cell(Jump(start - 2), ctx.note)];
    ArmLength(s.body, Some(s.name), start, ctx, loop, again);
    PlacedSplit(c, lo, head + arm, back);
    PlacedSplit(c, lo, head, arm);
    PlacedAt(c, again, back, 0);
    ArmFlows(c, funcs, s.body, Some(s.name), start, ctx, loop, again);
    HeadFlows(c, funcs, s.name, s.iterable, s.isDict, lo, exit, ctx);
    SingleFlows(c, ctx.inFn, funcs, again);
    RangeJoin(c, ctx.inFn, funcs, lo, start, again);
    RangeJoin(c, ctx.inFn, funcs, lo, again, exit);
  }

  lemma {:induction false} HeadFlows(c: Code, funcs: nat, x: string, e: Expr, isDict: bool, lo: nat, exit: nat,
                                     ctx: Ctx)
    requires Placed(c, lo, ForInHead(x, e, isDict, lo, exit, ctx)) && CallsExist(e, funcs)
    requires Lands(c, exit, ctx.note.live, ctx.note.dead)
    requires Lands(c, lo + HeadSize(e, isDict), ctx.note.live, ctx.note.dead)
    ensures RangeOk(c, ctx.inFn, funcs, lo, lo + HeadSize(e, isDict))
    ensures Lands(c, lo, ctx.note.live, ctx.note.dead)
    ensures Lands(c, lo + HeadSize(e, isDict) - 2, ctx.note.live, ctx.note.dead)
  {
    var ready := lo + 1 + |e| + if isDict then 1 else 0;
    var jump := [Cell(Jump(lo + 1), ctx.note)];
    var keys := if isDict then [Cell(Branch(ready, exit), ctx.note)] else [];
    var tests := [Cell(Branch(ready + 1, exit), ctx.note), Cell(DeclIfMissing(x), ctx.note),
                  Cell(Branch(ready + 3, exit), ctx.note), Cell(Branch(ready + 4, exit), ctx.note)];
    assert ForInHead(x, e, isDict, lo, exit, ctx) == jump + CompileExpr(e, ctx) + keys + tests;
    PlacedSplit(c, lo, jump + CompileExpr(e, ctx) + keys, tests);
    PlacedSplit(c, lo, jump + CompileExpr(e, ctx), keys);
    PlacedSplit(c, lo, jump, CompileExpr(e, ctx));
    TestsFlow(c, funcs, x, ready, exit, ctx, tests);
    if isDict {
      PlacedAt(c, ready - 1, keys, 0);
      SingleFlows(c, ctx.inFn, funcs, ready - 1);
    }
    ExprFlows(c, funcs, e, lo + 1, ctx);
    PlacedAt(c, lo, jump, 0);
    SingleFlows(c, ctx.inFn, funcs, lo);
  }

  lemma {:induction false} TestsFlow(c: Code, funcs: nat, x: string, at: nat, exit: nat, ctx: Ctx, tests: Code)
    requires tests == [Cell(Branch(at + 1, exit), ctx.note), Cell(DeclIfMissing(x), ctx.note),
                       Cell(Branch(at + 3, exit), ctx.note), Cell(Branch(at + 4, exit), ctx.note)]
    requires Placed(c, at, tests)
    requires Lands(c, exit, ctx.note.live, ctx.note.dead) && Lands(c, at + 4, ctx.note.live, ctx.note.dead)
    ensures RangeOk(c, ctx.inFn, funcs, at, at + 4)
    ensures Lands(c, at, ctx.note.live, ctx.note.dead) && Lands(c, at + 2, ctx.note.live, ctx.note.dead)
  {
    PlacedAt(c, at, tests, 0);
    PlacedAt(c, at, tests, 1);
    PlacedAt(c, at, tests, 2);
    PlacedAt(c, at, tests, 3);
    forall pc | at <= pc < at + 4 ensures FlowOk(c, ctx.inFn, funcs, pc) {
      assert pc == at || pc == at + 1 || pc == at + 2 || pc == at + 3;
    }
  }

  lemma {:induction false} StmtFlows(c: Code, funcs: nat, s: Stmt, lo: nat, ctx: Ctx)
    requires Placed(c, lo, CompileStmt(s, lo, ctx))
    requires Surrounds(c, funcs, s, lo, ctx)
    ensures RangeOk(c, ctx.inFn, funcs, lo, lo + Size(s, ctx.inFn))
    ensures Level(c, s, lo, ctx.inFn)
    ensures Lands(c, lo, ctx.note.live, ctx.note.dead)
    decreases s, 1
  {
    hide CompileIf, CompileWhile, CompileForIn, Surrounds, Size;
    match s
    case If(_, _, _, _) => IfFlows(c, funcs, s, lo, ctx);
    case While(_, _) => WhileFlows(c, funcs, s, lo, ctx);
    case ForIn(_, _, _, _) => ForInFlows(c, funcs, s, lo, ctx);
    case _ => SimpleFlows(c, funcs, s, lo, ctx); SimpleLevel(c, funcs, s, lo, ctx);
  }

  lemma BlockCode(s: Stmt, rest: Block, lo: nat, ctx: Ctx)
    ensures CompileBlock(Then(s, rest), lo, ctx)
            == CompileStmt(s, lo, ctx) + CompileBlock(rest, lo + Size(s, ctx.inFn),
                                                      ctx.(note := Next(s, lo, ctx.inFn, ctx.note)))
  {
    hide CompileStmt, Size, After, GuaranteesReturn;
  }

  lemma BlockSplit(c: Code, s: Stmt, rest: Block, lo: nat, ctx: Ctx)
    requires Placed(c, lo, CompileBlock(Then(s, rest), lo, ctx))
    ensures Placed(c, lo, CompileStmt(s, lo, ctx))
    ensures var mid := lo + Size(s, ctx.inFn);
            Placed(c, mid, CompileBlock(rest, mid, ctx.(note := Next(s, lo, ctx.inFn, ctx.note))))
  {
    hide CompileStmt, CompileBlock, Size, After, GuaranteesReturn, Placed;
    var mid := lo + Size(s, ctx.inFn);
    StmtLength(s, lo, ctx);
    BlockCode(s, rest, lo, ctx);
    PlacedSplit(c, lo, CompileStmt(s, lo, ctx), CompileBlock(rest, mid, ctx.(note := Next(s, lo, ctx.inFn, ctx.note))));
  }

  lemma BlockEnd(c: Code, lo: nat, ctx: Ctx)
    requires Placed(c, lo, CompileBlock(Done, lo, ctx))
    ensures Placed(c, lo, [])
  {
  }

  lemma {:induction false} BlockFlows(c: Code, funcs: nat, b: Block, lo: nat, ctx: Ctx)
    requires Placed(c, lo, CompileBlock(b, lo, ctx))
    requires BlockBuilds(b, ctx.inFn, ctx.loop.InLoop?, funcs)
    requires Nested(ctx, lo) && LoopFits(c, ctx)
    requires !EndsInJump(b) ==>
               Lands(c, lo + BlockSize(b, ctx.inFn), ctx.note.live, ctx.note.dead || BlockGuaranteesReturn(b))
    ensures RangeOk(c, ctx.inFn, funcs, lo, lo + BlockSize(b, ctx.inFn))
    ensures BlockLevel(c, b, lo, ctx.inFn)
    ensures Lands(c, lo, ctx.note.live, ctx.note.dead)
    decreases b, 0
  {
    hide CompileStmt, CompileBlock, StmtBuilds, Size, GuaranteesReturn, After, RangeOk, LoopFits, Nested, Placed,
         Lands, Level;
    match b
    case Done => BlockEnd(c, lo, ctx); EmptyRange(c, ctx.inFn, funcs, lo);
    case Then(s, rest) =>
      var mid := lo + Size(s, ctx.inFn);
      var next := ctx.(note := Next(s, lo, ctx.inFn, ctx.note));
      NextFits(c, s, lo, ctx);
      BlockSplit(c, s, rest, lo, ctx);
      if rest.Then? || !IsJump(s) {
        BlockFlows(c, funcs, rest, mid, next);
      } else {
        BlockEnd(c, mid, next);
        EmptyRange(c, ctx.inFn, funcs, mid);
      }
      StmtFlows(c, funcs, s, lo, ctx);
      RangeJoin(c, ctx.inFn, funcs, lo, mid, mid + BlockSize(rest, ctx.inFn));
  }

  lemma NextFits(c: Code, s: Stmt, lo: nat, ctx: Ctx)
    requires Nested(ctx, lo) && LoopFits(c, ctx)
    ensures var next := ctx.(note := Next(s, lo, ctx.inFn, ctx.note));
            Nested(next, lo + Size(s, ctx.inFn)) && LoopFits(c, next)
  {
    hide After, Size;
  }

  lemma EmptyRange(c: Code, inFn: bool, funcs: nat, pc: nat)
    requires Placed(c, pc, [])
    ensures RangeOk(c, inFn, funcs, pc, pc)
  {
  }
}
