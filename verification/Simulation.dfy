/** The emitted code of a program does what the program's text says (module Traces), wherever it is placed.
    One lemma stands for each compiling function: the code of an expression, a statement without a body, an
    arm, an `if`, a `while`, a `for-in`, a block and a function leads where the trace of the same text leads
    (module Control). The induction is the one that defines traces: over the bound on nested calls, then
    over the outcomes that are left, then over the text. Module Behaviour draws the conclusions for whole
    runs of the machine. */
module Simulation {
  import opened Syntax
  import opened Codegen
  import opened Flow
  import opened Machine
  import opened Traces
  import opened Control

  predicate InProgram(p: Program, at: Site) {
    Builds(p) && at.code == CompileProgram(p) && at.fn < |at.code|
  }

  // ---------------------------------------------------------------- expressions and calls

  /** A call that does not return: seen from the caller it is cut, or too deep, as well. */
  lemma CallStops(at: Site, callee: Site, from: Conf, mid: Conf, first: seq<Event>, t: Trace, next: nat, loop: Loop,
                  depth: nat)
    requires depth > 0 && callee.code == at.code && |callee.base| == |at.base| + 1
    requires Gets(at.code, from, mid) && mid.log == from.log + first && (t.end.Cut? || t.end.Deep?)
    requires Leads(callee, mid, t, 0, NoLoop, depth - 1)
    ensures Leads(at, from, Before(first, t), next, loop, depth)
  {
    hide Gets, Waits;
    assert from.log + (first + t.events) == mid.log + t.events;
    if t.end.Cut? {
      var k :| Gets(at.code, mid, k) && k.log == mid.log + t.events && Waits(at.code, k);
      GetsMore(at.code, from, mid, k);
    } else {
      var k :| Gets(at.code, mid, k) && k.log == mid.log + t.events && |k.spots| > |callee.base| + (depth - 1);
      GetsMore(at.code, from, mid, k);
    }
  }

  lemma CallTooDeep(at: Site, from: Conf, mid: Conf, first: seq<Event>, rest: seq<bool>, next: nat, loop: Loop)
    requires Gets(at.code, from, mid) && mid.log == from.log + first && |mid.spots| > |at.base|
    ensures Leads(at, from, Trace(first, Deep, rest), next, loop, 0)
  {
    hide Gets;
  }

  lemma {:induction false} ExprRuns(p: Program, at: Site, e: Expr, lo: nat, ctx: Ctx, outcomes: seq<bool>,
                                    log: seq<Event>,
                                    depth: nat, loop: Loop)
    requires InProgram(p, at) && Placed(Text(at), lo, CompileExpr(e, ctx)) && CallsExist(e, |p.funcs|)
    ensures Leads(at, On(at, lo, outcomes, log), ExprTrace(p, e, outcomes, depth), lo + |e|, loop, depth)
    decreases 3 * depth, |e|
  {
    hide Leads, Gets, Placed, CallTrace, Builds;
    var from := On(at, lo, outcomes, log);
    if e == [] {
      NothingRuns(at, lo, outcomes, log, loop, depth);
    } else {
      var first := [Cell(if e[0].Use? then Access(e[0].name, ctx) else Invoke(e[0].func + 1), ctx.note)];
      PlacedSplit(Text(at), lo, first, CompileExpr(e[1..], ctx));
      PlacedAt(Text(at), lo, first, 0);
      assert e[0] in e;
      match e[0]
      case Use(x) =>
        PlainMoves(at, lo, outcomes, log);
        ExprRuns(p, at, e[1..], lo + 1, ctx, outcomes, log + [Reads(x)], depth, loop);
        LeadsFrom(at, from, On(at, lo + 1, outcomes, log + [Reads(x)]), [Reads(x)],
                  ExprTrace(p, e[1..], outcomes, depth),
                  lo + |e|, loop, depth);
      case Call(f) =>
        var callee := Site(at.code, at.base + [Spot(at.fn, lo + 1)], f + 1);
        var start := On(callee, 0, outcomes, log + [Calls(f)]);
        InvokeMoves(at, lo, f, outcomes, log);
        if depth == 0 {
          CallTooDeep(at, from, start, [Calls(f)], outcomes, lo + |e|, loop);
        } else {
          CalleeInProgram(p, at, callee, f);
          CallRuns(p, callee, f, outcomes, log + [Calls(f)], depth - 1);
          var t := CallTrace(p, f, outcomes, depth - 1);
          if t.end.Returned? {
            CallReturned(at, callee, from, start, [Calls(f)], t, lo + 1, depth);
            ExprRuns(p, at, e[1..], lo + 1, ctx, t.rest, log + ([Calls(f)] + t.events), depth, loop);
            LeadsFrom(at, from, On(at, lo + 1, t.rest, log + ([Calls(f)] + t.events)), [Calls(f)] + t.events,
                      ExprTrace(p, e[1..], t.rest, depth), lo + |e|, loop, depth);
          } else {
            CallStops(at, callee, from, start, [Calls(f)], t, lo + |e|, loop, depth);
          }
        }
    }
  }

  lemma NothingRuns(at: Site, pc: nat, outcomes: seq<bool>, log: seq<Event>, loop: Loop, depth: nat)
    ensures Leads(at, On(at, pc, outcomes, log), Trace([], Normal, outcomes), pc, loop, depth)
  {
    hide Gets;
    GetsSelf(at.code, On(at, pc, outcomes, log));
    assert log + [] == log;
  }

  lemma CalleeInProgram(p: Program, at: Site, callee: Site, f: nat)
    requires InProgram(p, at) && callee.code == at.code && callee.fn == f + 1 && f < |p.funcs|
    ensures InProgram(p, callee) && Text(callee) == CompileFunc(p.funcs[f])
  {
    hide Builds, CompileFunc, CompileMain;
  }

  lemma CallReturned(at: Site, callee: Site, from: Conf, start: Conf, first: seq<Event>, t: Trace, back: nat,
                     depth: nat)
    requires depth > 0 && callee.code == at.code && callee.base == at.base + [Spot(at.fn, back)] && t.end.Returned?
    requires Gets(at.code, from, start) && start.log == from.log + first
             && Leads(callee, start, t, 0, NoLoop, depth - 1)
    ensures Gets(at.code, from, On(at, back, t.rest, from.log + (first + t.events)))
  {
    hide Gets;
    assert from.log + (first + t.events) == start.log + t.events;
    GetsMore(at.code, from, start, Conf(callee.base, t.rest, start.log + t.events));
  }

  // ---------------------------------------------------------------- functions

  lemma {:induction false} ParamsRun(at: Site, f: Func, i: nat, outcomes: seq<bool>, log: seq<Event>)
    requires Placed(Text(at), 1, ParamCode(f)) && i <= |f.params|
    ensures Gets(at.code, On(at, 1, outcomes, log), On(at, 1 + i, outcomes, log + Parameters(f.params)[..i]))
    decreases i
  {
    hide Gets, Placed, ParamView;
    if i == 0 {
      GetsSelf(at.code, On(at, 1, outcomes, log));
      assert log + Parameters(f.params)[..0] == log;
    } else {
      var so := log + Parameters(f.params)[..i - 1];
      ParamsRun(at, f, i - 1, outcomes, log);
      PlacedAt(Text(at), 1, ParamCode(f), i - 1);
      PlainMoves(at, i, outcomes, so);
      assert so + [Declares(f.params[i - 1])] == log + Parameters(f.params)[..i];
      GetsMore(at.code, On(at, 1, outcomes, log), On(at, i, outcomes, so),
               On(at, 1 + i, outcomes, log + Parameters(f.params)[..i]));
    }
  }

  /** A block that ends in a jump does not fall off its end. */
  lemma {:induction false} JumpsAway(p: Program, b: Block, outcomes: seq<bool>, depth: nat)
    requires EndsInJump(b)
    ensures !BlockTrace(p, b, outcomes, depth).end.Normal?
    decreases b
  {
    hide ExprTrace;
    var Then(s, rest) := b;
    var t := StmtTrace(p, s, outcomes, depth);
    if t.end.Normal? {
      if rest.Then? { JumpsAway(p, rest, t.rest, depth); }
    }
  }

  lemma FuncPlaced(f: Func)
    ensures var c, start := CompileFunc(f), BodyStart(f);
            && |c| > 0 && c[0].instr == Enter(0) && Placed(c, 1, ParamCode(f))
            && Placed(c, start, CompileBlock(f.body, start, Ctx(true, NoLoop, BodyNote(f))))
            && Placed(c, start + BlockSize(f.body, true), FuncTail(f))
  {
    hide CompileBlock, Placed, ParamView, EndsInJump, ParamCode, BlockSize, FuncTail;
    var start := BodyStart(f);
    var enter := [Cell(Enter(0), Note([], [], false))];
    var body := CompileBlock(f.body, start, Ctx(true, NoLoop, BodyNote(f)));
    var c := CompileFunc(f);
    BlockLength(f.body, start, Ctx(true, NoLoop, BodyNote(f)));
    PlacedWhole(c);
    PlacedSplit(c, 0, enter + ParamCode(f) + body, FuncTail(f));
    PlacedSplit(c, 0, enter + ParamCode(f), body);
    PlacedSplit(c, 0, enter, ParamCode(f));
  }

  lemma TailRuns(at: Site, f: Func, pc: nat, outcomes: seq<bool>, log: seq<Event>)
    requires !EndsInJump(f.body) && Placed(Text(at), pc, FuncTail(f))
    ensures Gets(at.code, On(at, pc, outcomes, log), Conf(at.base, outcomes, log))
  {
    hide Gets, Placed;
    PlacedAt(Text(at), pc, FuncTail(f), 0);
    PlacedAt(Text(at), pc, FuncTail(f), 1);
    PlainMoves(at, pc, outcomes, log);
    assert log + [] == log;
    RetMoves(at, pc + 1, outcomes, log);
    GetsMore(at.code, On(at, pc, outcomes, log), On(at, pc + 1, outcomes, log), Conf(at.base, outcomes, log));
  }

  lemma {:induction false} CallRuns(p: Program, at: Site, f: nat, outcomes: seq<bool>, log: seq<Event>, depth: nat)
    requires InProgram(p, at) && f < |p.funcs| && at.fn == f + 1 && Text(at) == CompileFunc(p.funcs[f])
    ensures Leads(at, On(at, 0, outcomes, log), CallTrace(p, f, outcomes, depth), 0, NoLoop, depth)
    decreases 3 * depth + 2
  {
    hide Leads, Gets, Placed, CompileFunc, CompileProgram, BlockTrace, CompileBlock, BlockSize, BlockBuilds,
         ParamCode, FuncTail, EndsInJump;
    var fn := p.funcs[f];
    var ctx := Ctx(true, NoLoop, BodyNote(fn));
    var start := BodyStart(fn);
    var params := Parameters(fn.params);
    FuncPlaced(fn);
    PlainMoves(at, 0, outcomes, log);
    assert log + [] == log;
    ParamsRun(at, fn, |fn.params|, outcomes, log);
    assert params[..|fn.params|] == params;
    GetsMore(at.code, On(at, 0, outcomes, log), On(at, 1, outcomes, log), On(at, start, outcomes, log + params));
    BlockRuns(p, at, fn.body, start, ctx, outcomes, log + params, depth);
    var b := BlockTrace(p, fn.body, outcomes, depth);
    var stop := start + BlockSize(fn.body, true);
    LeadsFrom(at, On(at, 0, outcomes, log), On(at, start, outcomes, log + params), params, b, stop, NoLoop, depth);
    if b.end.Normal? {
      if EndsInJump(fn.body) { JumpsAway(p, fn.body, outcomes, depth); }
      TailRuns(at, fn, stop, b.rest, log + (params + b.events));
    }
    BodyReturns(at, On(at, 0, outcomes, log), Before(params, b), stop, depth);
  }

  /** What falls off the end of a body, or returns, has left the activation. */
  lemma BodyReturns(at: Site, from: Conf, t: Trace, stop: nat, depth: nat)
    requires Leads(at, from, t, stop, NoLoop, depth)
    requires t.end.Normal? ==>
               Gets(at.code, On(at, stop, t.rest, from.log + t.events), Conf(at.base, t.rest, from.log + t.events))
    ensures Leads(at, from, if t.end.Cut? || t.end.Deep? then t else t.(end := Returned), 0, NoLoop, depth)
  {
    hide Gets, Waits;
    if t.end.Normal? {
      GetsMore(at.code, from, On(at, stop, t.rest, from.log + t.events), Conf(at.base, t.rest, from.log + t.events));
    }
  }

  // ---------------------------------------------------------------- statements without bodies

  /** One more access behind code that ended normally. */
  lemma AfterwardsRuns(at: Site, from: Conf, t: Trace, mid: nat, last: Event, loop: Loop, depth: nat)
    requires Leads(at, from, t, mid, loop, depth) && (t.end.Normal? || t.end.Cut? || t.end.Deep?)
    requires mid < |Text(at)| && IsPlain(Text(at)[mid].instr) && EventOf(Text(at)[mid].instr) == [last]
    ensures Leads(at, from, Afterwards(t, last), mid + 1, loop, depth)
  {
    hide Gets, Waits;
    if t.end.Normal? {
      PlainMoves(at, mid, t.rest, from.log + t.events);
      assert from.log + t.events + [last] == from.log + (t.events + [last]);
      GetsMore(at.code, from, On(at, mid, t.rest, from.log + t.events),
               On(at, mid + 1, t.rest, from.log + (t.events + [last])));
    }
  }

  lemma {:induction false} DeclRuns(p: Program, at: Site, x: string, k: bool, e: Expr, lo: nat, ctx: Ctx,
                                    outcomes: seq<bool>, log: seq<Event>, depth: nat, loop: Loop)
    requires InProgram(p, at) && Placed(Text(at), lo, CompileDecl(x, k, e, ctx)) && CallsExist(e, |p.funcs|)
    ensures Leads(at, On(at, lo, outcomes, log), Afterwards(ExprTrace(p, e, outcomes, depth), Declares(x)),
                  lo + |e| + 1, loop, depth)
    decreases 3 * depth, |e| + 1
  {
    hide Leads, Placed, ExprTrace, CompileExpr, Afterwards;
    var last := [Cell(if ctx.inFn then DeclIfMissing(x) else Decl(x, k), ctx.note)];
    PlacedSplit(Text(at), lo, CompileExpr(e, ctx), last);
    PlacedAt(Text(at), lo + |e|, last, 0);
    ExprRuns(p, at, e, lo, ctx, outcomes, log, depth, loop);
    AfterwardsRuns(at, On(at, lo, outcomes, log), ExprTrace(p, e, outcomes, depth), lo + |e|, Declares(x), loop, depth);
  }

  lemma {:induction false} AssignRuns(p: Program, at: Site, x: string, compound: bool, e: Expr, lo: nat, ctx: Ctx,
                                      outcomes: seq<bool>, log: seq<Event>, depth: nat, loop: Loop)
    requires InProgram(p, at) && Placed(Text(at), lo, CompileAssign(x, compound, e, ctx)) && CallsExist(e, |p.funcs|)
    ensures Leads(at, On(at, lo, outcomes, log),
                  Before(if compound then [Reads(x)] else [], Afterwards(ExprTrace(p, e, outcomes, depth), Writes(x))),
                  lo + (if compound then 1 else 0) + |e| + 1, loop, depth)
    decreases 3 * depth, |e| + 1
  {
    hide Leads, Placed, ExprTrace, CompileExpr, Gets, Afterwards;
    var first := if compound then [Cell(Access(x, ctx), ctx.note)] else [];
    var last := [Cell(Target(x, compound, ctx), ctx.note)];
    var read := if compound then [Reads(x)] else [];
    var mid := lo + |first|;
    PlacedSplit(Text(at), lo, first + CompileExpr(e, ctx), last);
    PlacedSplit(Text(at), lo, first, CompileExpr(e, ctx));
    PlacedAt(Text(at), mid + |e|, last, 0);
    if compound {
      PlacedAt(Text(at), lo, first, 0);
      PlainMoves(at, lo, outcomes, log);
    } else {
      GetsSelf(at.code, On(at, lo, outcomes, log));
      assert log + [] == log;
    }
    ExprRuns(p, at, e, mid, ctx, outcomes, log + read, depth, loop);
    AfterwardsRuns(at, On(at, mid, outcomes, log + read), ExprTrace(p, e, outcomes, depth), mid + |e|, Writes(x),
                   loop, depth);
    LeadsFrom(at, On(at, lo, outcomes, log), On(at, mid, outcomes, log + read), read,
              Afterwards(ExprTrace(p, e, outcomes, depth), Writes(x)), mid + |e| + 1, loop, depth);
  }

  /** Leaving the activation behind code that ended normally. */
  lemma Leaving(at: Site, from: Conf, t: Trace, pc: nat, next: nat, loop: Loop, depth: nat)
    requires Leads(at, from, t, pc, loop, depth) && (t.end.Normal? || t.end.Cut? || t.end.Deep?)
    requires pc + 1 < |Text(at)| && IsPlain(Text(at)[pc].instr) && EventOf(Text(at)[pc].instr) == []
    requires Text(at)[pc + 1].instr == Ret
    ensures Leads(at, from, if t.end.Normal? then t.(end := Returned) else t, next, loop, depth)
  {
    hide Gets, Waits;
    if t.end.Normal? {
      var so := from.log + t.events;
      PlainMoves(at, pc, t.rest, so);
      assert so + [] == so;
      RetMoves(at, pc + 1, t.rest, so);
      GetsMore(at.code, On(at, pc, t.rest, so), On(at, pc + 1, t.rest, so), Conf(at.base, t.rest, so));
      GetsMore(at.code, from, On(at, pc, t.rest, so), Conf(at.base, t.rest, so));
    }
  }

  lemma {:induction false} ReturnRuns(p: Program, at: Site, e: Expr, lo: nat, ctx: Ctx, outcomes: seq<bool>,
                                      log: seq<Event>, depth: nat, loop: Loop)
    requires InProgram(p, at) && Placed(Text(at), lo, CompileReturn(e, ctx)) && CallsExist(e, |p.funcs|)
    ensures var t := ExprTrace(p, e, outcomes, depth);
            Leads(at, On(at, lo, outcomes, log), if t.end.Normal? then t.(end := Returned) else t, lo + |e| + 2, loop,
                  depth)
    decreases 3 * depth, |e| + 1
  {
    hide Placed, ExprTrace, CompileExpr, Leads;
    var last := [Cell(PopToBase(0), ctx.note), Cell(Ret, ctx.note.(live := []))];
    assert CompileReturn(e, ctx) == CompileExpr(e, ctx) + last;
    PlacedSplit(Text(at), lo, CompileExpr(e, ctx), last);
    PlacedAt(Text(at), lo + |e|, last, 0);
    PlacedAt(Text(at), lo + |e|, last, 1);
    ExprRuns(p, at, e, lo, ctx, outcomes, log, depth, loop);
    Leaving(at, On(at, lo, outcomes, log), ExprTrace(p, e, outcomes, depth), lo + |e|, lo + |e| + 2, loop, depth);
  }

  lemma {:induction false} BreakRuns(at: Site, lo: nat, ctx: Ctx, target: nat, outcomes: seq<bool>, log: seq<Event>)
    requires ctx.loop.InLoop? && Placed(Text(at), lo, CompileJump(ctx, target))
    ensures Gets(at.code, On(at, lo, outcomes, log), On(at, target, outcomes, log))
  {
    hide Placed, Gets;
    PlacedAt(Text(at), lo, CompileJump(ctx, target), Opening(ctx.inFn));
    JumpMoves(at, lo + Opening(ctx.inFn), target, outcomes, log);
    if !ctx.inFn {
      PlacedAt(Text(at), lo, CompileJump(ctx, target), 0);
      PlainMoves(at, lo, outcomes, log);
      assert log + [] == log;
      GetsMore(at.code, On(at, lo, outcomes, log), On(at, lo + 1, outcomes, log), On(at, target, outcomes, log));
    }
  }

  lemma {:induction false} SimpleRuns(p: Program, at: Site, s: Stmt, lo: nat, ctx: Ctx, outcomes: seq<bool>,
                                      log: seq<Event>, depth: nat)
    requires InProgram(p, at) && Placed(Text(at), lo, CompileStmt(s, lo, ctx))
    requires !s.If? && !s.While? && !s.ForIn? && StmtBuilds(s, ctx.inFn, ctx.loop.InLoop?, |p.funcs|)
    ensures Leads(at, On(at, lo, outcomes, log), StmtTrace(p, s, outcomes, depth), lo + Size(s, ctx.inFn), ctx.loop,
                  depth)
    decreases 3 * depth + 1, |outcomes|, s, 0
  {
    hide CompileStmt, Size, CompileDecl, CompileAssign, CompileReturn, CompileJump, CompileExpr, Placed, CallsExist,
         Gets, ExprTrace, InProgram, BlockTrace, EnterForIn;
    SimpleCode(s, lo, ctx);
    match s
    case VarDecl(x, k, e) => hide Leads; DeclRuns(p, at, x, k, e, lo, ctx, outcomes, log, depth, ctx.loop);
    case Assign(x, compound, e) => hide Leads; AssignRuns(p, at, x, compound, e, lo, ctx, outcomes, log, depth,
                                                          ctx.loop);
    case Eval(e) => hide Leads; ExprRuns(p, at, e, lo, ctx, outcomes, log, depth, ctx.loop);
    case Return(e) => hide Leads; ReturnRuns(p, at, e, lo, ctx, outcomes, log, depth, ctx.loop);
    case Break => BreakRuns(at, lo, ctx, ctx.loop.exit, outcomes, log); assert log + [] == log;
    case Continue => BreakRuns(at, lo, ctx, ctx.loop.again, outcomes, log); assert log + [] == log;
  }

  // ---------------------------------------------------------------- branches and loops

  lemma {:induction false} OpenRuns(at: Site, lead: Option<string>, lo: nat, ctx: Ctx, outcomes: seq<bool>,
                                    log: seq<Event>)
    requires Placed(Text(at), lo, OpenArm(lead, lo, ctx))
    ensures Gets(at.code, On(at, lo, outcomes, log),
                 On(at, lo + Opening(ctx.inFn) + Extra(lead), outcomes, log + Lead(lead)))
  {
    hide Placed, Gets;
    var mid := lo + Opening(ctx.inFn);
    assert log + [] == log;
    if ctx.inFn {
      GetsSelf(at.code, On(at, lo, outcomes, log));
    } else {
      PlacedAt(Text(at), lo, OpenArm(lead, lo, ctx), 0);
      PlainMoves(at, lo, outcomes, log);
    }
    if lead.Some? {
      PlacedAt(Text(at), lo, OpenArm(lead, lo, ctx), Opening(ctx.inFn));
      PlainMoves(at, mid, outcomes, log);
      GetsMore(at.code, On(at, lo, outcomes, log), On(at, mid, outcomes, log),
               On(at, mid + 1, outcomes, log + Lead(lead)));
    }
  }

  function Lead(lead: Option<string>): seq<Event> { if lead.None? then [] else [Writes(lead.value)] }

  lemma {:induction false} CloseRuns(at: Site, pc: nat, ctx: Ctx, end: Note, after: nat, lo: nat, outcomes: seq<bool>,
                                     log: seq<Event>)
    requires Placed(Text(at), lo, CloseArm(pc, ctx, end, after))
    ensures Gets(at.code, On(at, lo, outcomes, log), On(at, after, outcomes, log))
  {
    hide Placed, Gets;
    PlacedAt(Text(at), lo, CloseArm(pc, ctx, end, after), Opening(ctx.inFn));
    JumpMoves(at, lo + Opening(ctx.inFn), after, outcomes, log);
    if !ctx.inFn {
      PlacedAt(Text(at), lo, CloseArm(pc, ctx, end, after), 0);
      PlainMoves(at, lo, outcomes, log);
      assert log + [] == log;
      GetsMore(at.code, On(at, lo, outcomes, log), On(at, lo + 1, outcomes, log), On(at, after, outcomes, log));
    }
  }

  /** Code that ends normally at `stop` and goes on to `after`. */
  lemma Onwards(at: Site, from: Conf, t: Trace, stop: nat, after: nat, loop: Loop, depth: nat)
    requires Leads(at, from, t, stop, loop, depth)
    requires t.end.Normal? ==>
               Gets(at.code, On(at, stop, t.rest, from.log + t.events), On(at, after, t.rest, from.log + t.events))
    ensures Leads(at, from, t, after, loop, depth)
  {
    hide Gets, Waits;
    if t.end.Normal? {
      GetsMore(at.code, from, On(at, stop, t.rest, from.log + t.events), On(at, after, t.rest, from.log + t.events));
    }
  }

  lemma {:induction false} ArmRuns(p: Program, at: Site, b: Block, lead: Option<string>, lo: nat, ctx: Ctx, loop: Loop,
                                   after: nat, outcomes: seq<bool>, log: seq<Event>, depth: nat)
    requires InProgram(p, at) && Placed(Text(at), lo, CompileArm(b, lead, lo, ctx, loop, after))
    requires BlockBuilds(b, ctx.inFn, loop.InLoop?, |p.funcs|)
    ensures Leads(at, On(at, lo, outcomes, log), Before(Lead(lead), BlockTrace(p, b, outcomes, depth)), after, loop,
                  depth)
    decreases 3 * depth + 1, |outcomes|, b, 1
  {
    hide CompileBlock, AfterBlock, BlockSize, BlockBuilds, BlockGuaranteesReturn, Placed, OpenArm, CloseArm, Leads,
         Gets,
         BlockTrace, InProgram, EndsInJump;
    var inner := Inner(lo, ctx);
    var start := lo + Opening(ctx.inFn) + Extra(lead);
    var stop := start + BlockSize(b, ctx.inFn);
    var end := inner.(view := AfterBlock(b, start, ctx.inFn, inner), dead := inner.dead || BlockGuaranteesReturn(b));
    var inside := Ctx(ctx.inFn, loop, inner);
    var body := CompileBlock(b, start, inside);
    var close := if EndsInJump(b) then [] else CloseArm(lo, ctx, end, after);
    BlockLength(b, start, inside);
    OpenArmLength(lead, lo, ctx);
    PlacedSplit(Text(at), lo, OpenArm(lead, lo, ctx) + body, close);
    PlacedSplit(Text(at), lo, OpenArm(lead, lo, ctx), body);
    OpenRuns(at, lead, lo, ctx, outcomes, log);
    BlockRuns(p, at, b, start, inside, outcomes, log + Lead(lead), depth);
    var t := BlockTrace(p, b, outcomes, depth);
    if t.end.Normal? {
      if EndsInJump(b) { JumpsAway(p, b, outcomes, depth); }
      CloseRuns(at, lo, ctx, end, after, stop, t.rest, log + Lead(lead) + t.events);
    }
    Onwards(at, On(at, start, outcomes, log + Lead(lead)), t, stop, after, loop, depth);
    LeadsFrom(at, On(at, lo, outcomes, log), On(at, start, outcomes, log + Lead(lead)), Lead(lead), t, after, loop,
              depth);
  }

  lemma {:induction false} TestPlaced(at: Site, c: Expr, yes: nat, no: nat, lo: nat, ctx: Ctx)
    requires Placed(Text(at), lo, Test(c, yes, no, ctx))
    ensures Placed(Text(at), lo, CompileExpr(c, ctx))
    ensures lo + |c| < |Text(at)| && Text(at)[lo + |c|].instr == Branch(yes, no)
  {
    hide Placed, CompileExpr;
    PlacedSplit(Text(at), lo, CompileExpr(c, ctx), [Cell(Branch(yes, no), ctx.note)]);
    PlacedAt(Text(at), lo + |c|, [Cell(Branch(yes, no), ctx.note)], 0);
  }

  /** An expression whose end is a test: it is cut there when no outcome is left, and otherwise goes on to the
      target that the outcome selects. */
  lemma TestRuns(at: Site, from: Conf, t: Trace, pc: nat, yes: nat, no: nat, next: nat, loop: Loop, depth: nat)
    requires Leads(at, from, t, pc, loop, depth) && (t.end.Normal? || t.end.Cut? || t.end.Deep?)
    requires pc < |Text(at)| && Text(at)[pc].instr == Branch(yes, no)
    ensures !t.end.Normal? ==> Leads(at, from, t, next, loop, depth)
    ensures t.end.Normal? && t.rest == [] ==> Leads(at, from, t.(end := Cut), next, loop, depth)
    ensures t.end.Normal? && t.rest != [] ==>
              Gets(at.code, from, On(at, if t.rest[0] then yes else no, t.rest[1..], from.log + t.events))
  {
    hide Gets, Waits;
    if t.end.Normal? {
      BranchMoves(at, pc, yes, no, t.rest, from.log + t.events);
      if t.rest != [] {
        GetsMore(at.code, from, On(at, pc, t.rest, from.log + t.events),
                 On(at, if t.rest[0] then yes else no, t.rest[1..], from.log + t.events));
      }
    }
  }

  lemma NoEvents(t: Trace)
    ensures Before([], t) == t
  {
    assert [] + t.events == t.events;
  }

  lemma {:induction false} IfRuns(p: Program, at: Site, s: Stmt, lo: nat, ctx: Ctx, outcomes: seq<bool>,
                                  log: seq<Event>,
                                  depth: nat)
    requires InProgram(p, at) && s.If? && Placed(Text(at), lo, CompileIf(s, lo, ctx))
    requires StmtBuilds(s, ctx.inFn, ctx.loop.InLoop?, |p.funcs|)
    ensures Leads(at, On(at, lo, outcomes, log), StmtTrace(p, s, outcomes, depth), lo + Size(s, ctx.inFn), ctx.loop,
                  depth)
    decreases 3 * depth + 1, |outcomes|, s, 0
  {
    hide CompileArm, ArmSize, BlockBuilds, Placed, Test, Leads, Gets, BlockTrace, ExprTrace, InProgram, CompileExpr;
    var yes := lo + |s.cond| + 1;
    var no := yes + ArmSize(s.thn, ctx.inFn);
    var merge := lo + Size(s, ctx.inFn);
    var test := Test(s.cond, yes, no, ctx);
    var thn := CompileArm(s.thn, None, yes, ctx, ctx.loop, merge);
    var ctx' := ElseCtx(s, yes, ctx);
    var els := if s.hasElse then CompileArm(s.els, None, no, ctx', ctx.loop, merge) else [Cell(Jump(merge), ctx'.note)];
    ArmLength(s.thn, None, yes, ctx, ctx.loop, merge);
    PlacedSplit(Text(at), lo, test + thn, els);
    PlacedSplit(Text(at), lo, test, thn);
    TestPlaced(at, s.cond, yes, no, lo, ctx);
    var from, t := On(at, lo, outcomes, log), ExprTrace(p, s.cond, outcomes, depth);
    ExprRuns(p, at, s.cond, lo, ctx, outcomes, log, depth, ctx.loop);
    TestRuns(at, from, t, lo + |s.cond|, yes, no, merge, ctx.loop, depth);
    if t.end.Normal? && t.rest != [] {
      var so := log + t.events;
      if t.rest[0] {
        ArmRuns(p, at, s.thn, None, yes, ctx, ctx.loop, merge, t.rest[1..], so, depth);
        NoEvents(BlockTrace(p, s.thn, t.rest[1..], depth));
        LeadsFrom(at, from, On(at, yes, t.rest[1..], so), t.events, BlockTrace(p, s.thn, t.rest[1..], depth),
                  merge, ctx.loop, depth);
      } else if s.hasElse {
        ArmRuns(p, at, s.els, None, no, ctx', ctx.loop, merge, t.rest[1..], so, depth);
        NoEvents(BlockTrace(p, s.els, t.rest[1..], depth));
        LeadsFrom(at, from, On(at, no, t.rest[1..], so), t.events, BlockTrace(p, s.els, t.rest[1..], depth),
                  merge, ctx.loop, depth);
      } else {
        SkipRuns(at, from, t, no, merge, ctx'.note, ctx.loop, depth);
      }
    }
  }

  lemma SkipRuns(at: Site, from: Conf, t: Trace, no: nat, merge: nat, note: Note, loop: Loop, depth: nat)
    requires t.end.Normal? && t.rest != [] && Placed(Text(at), no, [Cell(Jump(merge), note)])
    requires Gets(at.code, from, On(at, no, t.rest[1..], from.log + t.events))
    ensures Leads(at, from, t.(rest := t.rest[1..]), merge, loop, depth)
  {
    hide Gets, Placed;
    PlacedAt(Text(at), no, [Cell(Jump(merge), note)], 0);
    JumpMoves(at, no, merge, t.rest[1..], from.log + t.events);
    GetsMore(at.code, from, On(at, no, t.rest[1..], from.log + t.events),
             On(at, merge, t.rest[1..], from.log + t.events));
  }

  /** What a loop makes of the end of one round: the next round after a normal end or `continue`, the end of the
      loop after `break`. */
  lemma RoundEnds(at: Site, from: Conf, b: Trace, again: nat, exit: nat, loop: Loop, u: Trace, outer: Loop, depth: nat)
    requires loop.InLoop? && loop.exit == exit && loop.again == again && Leads(at, from, b, again, loop, depth)
    requires b.end.Normal? || b.end.Continued? ==>
               Leads(at, On(at, again, b.rest, from.log + b.events), u, exit, outer, depth)
    ensures Leads(at, from,
                  if b.end.Normal? || b.end.Continued? then Before(b.events, u)
                  else if b.end.Broke? then b.(end := Normal) else b,
                  exit, outer, depth)
  {
    if b.end.Normal? || b.end.Continued? {
      hide Gets;
      assert Gets(at.code, from, On(at, again, b.rest, from.log + b.events));
      hide Leads;
      LeadsFrom(at, from, On(at, again, b.rest, from.log + b.events), b.events, u, exit, outer, depth);
    } else if !b.end.Broke? {
      hide Leads;
      LeadsAnyway(at, from, b, again, loop, exit, outer, depth);
    }
  }

  lemma {:induction false} WhileRuns(p: Program, at: Site, s: Stmt, lo: nat, ctx: Ctx, outcomes: seq<bool>,
                                     log: seq<Event>, depth: nat)
    requires InProgram(p, at) && s.While? && Placed(Text(at), lo, CompileWhile(s, lo, ctx))
    requires StmtBuilds(s, ctx.inFn, ctx.loop.InLoop?, |p.funcs|)
    ensures Leads(at, On(at, lo, outcomes, log), StmtTrace(p, s, outcomes, depth), lo + Size(s, ctx.inFn), ctx.loop,
                  depth)
    decreases 3 * depth + 1, |outcomes|, s, 0
  {
    hide CompileArm, ArmSize, BlockBuilds, Placed, Test, Leads, Gets, BlockTrace, ExprTrace, InProgram, CompileExpr;
    var start := lo + |s.cond| + 1;
    var exit := lo + Size(s, ctx.inFn);
    var loop := InLoop(exit, lo, start, ctx.note);
    var arm := CompileArm(s.body, None, start, ctx, loop, lo);
    PlacedSplit(Text(at), lo, Test(s.cond, start, exit, ctx), arm);
    TestPlaced(at, s.cond, start, exit, lo, ctx);
    var from, t := On(at, lo, outcomes, log), ExprTrace(p, s.cond, outcomes, depth);
    ExprRuns(p, at, s.cond, lo, ctx, outcomes, log, depth, ctx.loop);
    TestRuns(at, from, t, lo + |s.cond|, start, exit, exit, ctx.loop, depth);
    if t.end.Normal? && t.rest != [] {
      var so := log + t.events;
      if t.rest[0] {
        var body := BlockTrace(p, s.body, t.rest[1..], depth);
        var b := Before(t.events, body);
        ArmRuns(p, at, s.body, None, start, ctx, loop, lo, t.rest[1..], so, depth);
        NoEvents(body);
        LeadsFrom(at, from, On(at, start, t.rest[1..], so), t.events, body, lo, loop, depth);
        if b.end.Normal? || b.end.Continued? { WhileRuns(p, at, s, lo, ctx, b.rest, log + b.events, depth); }
        RoundEnds(at, from, b, lo, exit, loop, StmtTrace(p, s, b.rest, depth), ctx.loop, depth);
      } else {
        Left(at, from, t, exit, ctx.loop, depth);
      }
    }
  }

  lemma Left(at: Site, from: Conf, t: Trace, exit: nat, loop: Loop, depth: nat)
    requires t.end.Normal? && t.rest != [] && Gets(at.code, from, On(at, exit, t.rest[1..], from.log + t.events))
    ensures Leads(at, from, t.(rest := t.rest[1..]), exit, loop, depth)
  {
  }

  // ---------------------------------------------------------------- for-in

  /** The four instructions before the body: the length test, the declaration, the test for one more element and
      the fetch. */
  predicate TestsAt(at: Site, pc: nat, x: string, exit: nat) {
    && pc + 4 <= |Text(at)|
    && Text(at)[pc].instr == Branch(pc + 1, exit) && Text(at)[pc + 1].instr == DeclIfMissing(x)
    && Text(at)[pc + 2].instr == Branch(pc + 3, exit) && Text(at)[pc + 3].instr == Branch(pc + 4, exit)
  }

  lemma HeadPlaced(at: Site, x: string, e: Expr, isDict: bool, lo: nat, exit: nat, ctx: Ctx)
    requires Placed(Text(at), lo, ForInHead(x, e, isDict, lo, exit, ctx))
    ensures var ready := lo + 1 + |e| + if isDict then 1 else 0;
            && lo < |Text(at)| && Text(at)[lo].instr == Jump(lo + 1)
            && Placed(Text(at), lo + 1, CompileExpr(e, ctx)) && TestsAt(at, ready, x, exit)
            && (isDict ==> ready - 1 < |Text(at)| && Text(at)[ready - 1].instr == Branch(ready, exit))
  {
    hide Placed, CompileExpr;
    var c := Text(at);
    var ready := lo + 1 + |e| + if isDict then 1 else 0;
    var jump := [Cell(Jump(lo + 1), ctx.note)];
    var keys := if isDict then [Cell(Branch(ready, exit), ctx.note)] else [];
    var tests := [Cell(Branch(ready + 1, exit), ctx.note), Cell(DeclIfMissing(x), ctx.note),
                  Cell(Branch(ready + 3, exit), ctx.note), Cell(Branch(ready + 4, exit), ctx.note)];
    assert ForInHead(x, e, isDict, lo, exit, ctx) == jump + CompileExpr(e, ctx) + keys + tests;
    PlacedSplit(c, lo, jump + CompileExpr(e, ctx) + keys, tests);
    PlacedSplit(c, lo, jump + CompileExpr(e, ctx), keys);
    PlacedSplit(c, lo, jump, CompileExpr(e, ctx));
    PlacedAt(c, lo, jump, 0);
    if isDict { PlacedAt(c, ready - 1, keys, 0); }
    PlacedAt(c, ready, tests, 0);
    PlacedAt(c, ready, tests, 1);
    PlacedAt(c, ready, tests, 2);
    PlacedAt(c, ready, tests, 3);
  }

  /** A test that stands alone. */
  lemma LoneTest(at: Site, pc: nat, yes: nat, no: nat, outcomes: seq<bool>, log: seq<Event>, next: nat, loop: Loop,
                 depth: nat)
    requires pc < |Text(at)| && Text(at)[pc].instr == Branch(yes, no)
    ensures var from := On(at, pc, outcomes, log);
            && (outcomes == [] ==> Leads(at, from, Trace([], Cut, []), next, loop, depth))
            && (outcomes != [] ==> Gets(at.code, from, On(at, if outcomes[0] then yes else no, outcomes[1..], log)))
            && (outcomes != [] && !outcomes[0] ==> Leads(at, from, Trace([], Normal, outcomes[1..]), no, loop, depth))
  {
    hide Gets, Waits;
    BranchMoves(at, pc, yes, no, outcomes, log);
    assert log + [] == log;
    if outcomes == [] { GetsSelf(at.code, On(at, pc, outcomes, log)); }
  }

  /** What the placed code of a `for-in` gives to its rounds. */
  predicate ForInAt(p: Program, at: Site, s: Stmt, lo: nat, ctx: Ctx) {
    && InProgram(p, at) && s.ForIn? && BlockBuilds(s.body, ctx.inFn, true, |p.funcs|)
    && var start := lo + HeadSize(s.iterable, s.isDict);
       var again := start + ArmSize(s.body, ctx.inFn) + 1;
       && TestsAt(at, start - 4, s.name, again + 1)
       && Placed(Text(at), start, CompileArm(s.body, Some(s.name), start, ctx,
                                             InLoop(again + 1, again, start, ctx.note), again))
       && again < |Text(at)| && Text(at)[again].instr == Jump(start - 2)
  }

  lemma {:induction false} RoundsRun(p: Program, at: Site, s: Stmt, lo: nat, ctx: Ctx, outcomes: seq<bool>,
                                     log: seq<Event>, depth: nat)
    requires ForInAt(p, at, s, lo, ctx)
    ensures Leads(at, On(at, lo + HeadSize(s.iterable, s.isDict) - 2, outcomes, log),
                  Rounds(p, s.name, s.body, outcomes, depth), lo + Size(s, ctx.inFn), ctx.loop, depth)
    decreases 3 * depth + 1, |outcomes|, s.body, 2
  {
    hide CompileArm, ArmSize, BlockBuilds, Placed, Leads, Gets, BlockTrace, InProgram;
    var start := lo + HeadSize(s.iterable, s.isDict);
    var again := start + ArmSize(s.body, ctx.inFn) + 1;
    var exit := again + 1;
    assert exit == lo + Size(s, ctx.inFn);
    var loop := InLoop(exit, again, start, ctx.note);
    var from := On(at, start - 2, outcomes, log);
    LoneTest(at, start - 2, start - 1, exit, outcomes, log, exit, ctx.loop, depth);
    if outcomes != [] && outcomes[0] {
      var rest := outcomes[1..];
      var fetch := On(at, start - 1, rest, log);
      LoneTest(at, start - 1, start, exit, rest, log, exit, ctx.loop, depth);
      assert log + [] == log;
      assert rest != [] ==> rest[1..] == outcomes[2..];
      if rest == [] {
        assert |outcomes| == 1;
        NoEvents(Trace([], Cut, []));
        LeadsFrom(at, from, fetch, [], Trace([], Cut, []), exit, ctx.loop, depth);
      } else if !rest[0] {
        assert |outcomes| > 1 && !outcomes[1];
        NoEvents(Trace([], Normal, outcomes[2..]));
        LeadsFrom(at, from, fetch, [], Trace([], Normal, rest[1..]), exit, ctx.loop, depth);
      } else {
        GetsMore(at.code, from, fetch, On(at, start, outcomes[2..], log));
        ArmRuns(p, at, s.body, Some(s.name), start, ctx, loop, again, outcomes[2..], log, depth);
        var b := Before([Writes(s.name)], BlockTrace(p, s.body, outcomes[2..], depth));
        NoEvents(b);
        LeadsFrom(at, from, On(at, start, outcomes[2..], log), [], b, again, loop, depth);
        if b.end.Normal? || b.end.Continued? {
          RoundsRun(p, at, s, lo, ctx, b.rest, log + b.events, depth);
          BackToTest(at, again, start - 2, b.rest, log + b.events, Rounds(p, s.name, s.body, b.rest, depth), exit,
                     ctx.loop, depth);
        }
        RoundEnds(at, from, b, again, exit, loop, Rounds(p, s.name, s.body, b.rest, depth), ctx.loop, depth);
      }
    }
  }

  lemma BackToTest(at: Site, pc: nat, to: nat, outcomes: seq<bool>, log: seq<Event>, t: Trace, next: nat, loop: Loop,
                   depth: nat)
    requires pc < |Text(at)| && Text(at)[pc].instr == Jump(to)
             && Leads(at, On(at, to, outcomes, log), t, next, loop, depth)
    ensures Leads(at, On(at, pc, outcomes, log), t, next, loop, depth)
  {
    hide Leads, Gets;
    JumpMoves(at, pc, to, outcomes, log);
    assert log + [] == log;
    NoEvents(t);
    LeadsFrom(at, On(at, pc, outcomes, log), On(at, to, outcomes, log), [], t, next, loop, depth);
  }

  /** From the length test on. */
  lemma {:induction false} EnterRuns(p: Program, at: Site, s: Stmt, lo: nat, ctx: Ctx, outcomes: seq<bool>,
                                     log: seq<Event>, depth: nat)
    requires ForInAt(p, at, s, lo, ctx)
    ensures Leads(at, On(at, lo + HeadSize(s.iterable, s.isDict) - 4, outcomes, log),
                  EnterForIn(p, s.name, false, s.body, outcomes, depth), lo + Size(s, ctx.inFn), ctx.loop, depth)
    decreases 3 * depth + 1, |outcomes|, s.body, 3
  {
    hide CompileArm, ArmSize, BlockBuilds, Placed, Leads, Gets, Rounds, InProgram;
    var ready := lo + HeadSize(s.iterable, s.isDict) - 4;
    var exit := lo + Size(s, ctx.inFn);
    var from := On(at, ready, outcomes, log);
    assert exit == ready + 4 + ArmSize(s.body, ctx.inFn) + 2;
    LoneTest(at, ready, ready + 1, exit, outcomes, log, exit, ctx.loop, depth);
    if outcomes != [] && outcomes[0] {
      var rest, so := outcomes[1..], log + [Declares(s.name)];
      PlainMoves(at, ready + 1, rest, log);
      GetsMore(at.code, from, On(at, ready + 1, rest, log), On(at, ready + 2, rest, so));
      RoundsRun(p, at, s, lo, ctx, rest, so, depth);
      LeadsFrom(at, from, On(at, ready + 2, rest, so), [Declares(s.name)], Rounds(p, s.name, s.body, rest, depth),
                exit, ctx.loop, depth);
    }
  }

  lemma {:induction false} ForInPlaced(p: Program, at: Site, s: Stmt, lo: nat, ctx: Ctx)
    requires InProgram(p, at) && s.ForIn? && Placed(Text(at), lo, CompileForIn(s, lo, ctx))
    requires StmtBuilds(s, ctx.inFn, ctx.loop.InLoop?, |p.funcs|)
    ensures ForInAt(p, at, s, lo, ctx)
    ensures lo < |Text(at)| && Text(at)[lo].instr == Jump(lo + 1)
            && Placed(Text(at), lo + 1, CompileExpr(s.iterable, ctx))
    ensures var ready := lo + 1 + |s.iterable|;
            s.isDict ==> ready < |Text(at)| && Text(at)[ready].instr == Branch(ready + 1, lo + Size(s, ctx.inFn))
  {
    hide CompileArm, ArmSize, BlockBuilds, Placed, ForInHead, InProgram, CompileExpr;
    var start := lo + HeadSize(s.iterable, s.isDict);
    var again := start + ArmSize(s.body, ctx.inFn) + 1;
    var exit := again + 1;
    var loop := InLoop(exit, again, start, ctx.note);
    var head := ForInHead(s.name, s.iterable, s.isDict, lo, exit, ctx);
    var arm := CompileArm(s.body, Some(s.name), start, ctx, loop, again);
    var back := [Cell(Jump(start - 2), ctx.note)];
    ArmLength(s.body, Some(s.name), start, ctx, loop, again);
    PlacedSplit(Text(at), lo, head + arm, back);
    PlacedSplit(Text(at), lo, head, arm);
    PlacedAt(Text(at), again, back, 0);
    HeadPlaced(at, s.name, s.iterable, s.isDict, lo, exit, ctx);
  }

  lemma {:induction false} ForInRuns(p: Program, at: Site, s: Stmt, lo: nat, ctx: Ctx, outcomes: seq<bool>,
                                     log: seq<Event>, depth: nat)
    requires InProgram(p, at) && s.ForIn? && Placed(Text(at), lo, CompileForIn(s, lo, ctx))
    requires StmtBuilds(s, ctx.inFn, ctx.loop.InLoop?, |p.funcs|)
    ensures Leads(at, On(at, lo, outcomes, log), StmtTrace(p, s, outcomes, depth), lo + Size(s, ctx.inFn), ctx.loop,
                  depth)
    decreases 3 * depth + 1, |outcomes|, s, 0
  {
    hide Placed, Leads, Gets, ExprTrace, InProgram, ForInAt, CompileForIn, CompileExpr, Size, EnterForIn;
    ForInPlaced(p, at, s, lo, ctx);
    var from, mid, exit := On(at, lo, outcomes, log), lo + 1 + |s.iterable|, lo + Size(s, ctx.inFn);
    var t := ExprTrace(p, s.iterable, outcomes, depth);
    JumpMoves(at, lo, lo + 1, outcomes, log);
    ExprRuns(p, at, s.iterable, lo + 1, ctx, outcomes, log, depth, ctx.loop);
    assert log + [] == log;
    NoEvents(t);
    LeadsFrom(at, from, On(at, lo + 1, outcomes, log), [], t, mid, ctx.loop, depth);
    if !t.end.Normal? {
      LeadsAnyway(at, from, t, mid, ctx.loop, exit, ctx.loop, depth);
    } else {
      var so := log + t.events;
      assert StmtBuilds(s, ctx.inFn, ctx.loop.InLoop?, |p.funcs|);
      if s.isDict {
        KeysRun(p, at, s, lo, ctx, t.rest, so, depth);
      } else {
        EnterRuns(p, at, s, lo, ctx, t.rest, so, depth);
      }
      LeadsThrough(at, from, t, mid, EnterForIn(p, s.name, s.isDict, s.body, t.rest, depth), exit, ctx.loop, depth);
    }
  }

  /** From the key extraction on. */
  lemma {:induction false} KeysRun(p: Program, at: Site, s: Stmt, lo: nat, ctx: Ctx, outcomes: seq<bool>,
                                   log: seq<Event>, depth: nat)
    requires s.ForIn? && s.isDict && ForInAt(p, at, s, lo, ctx)
    requires var ready := lo + 1 + |s.iterable|;
             ready < |Text(at)| && Text(at)[ready].instr == Branch(ready + 1, lo + Size(s, ctx.inFn))
    ensures Leads(at, On(at, lo + 1 + |s.iterable|, outcomes, log),
                  EnterForIn(p, s.name, true, s.body, outcomes, depth), lo + Size(s, ctx.inFn), ctx.loop, depth)
    decreases 3 * depth + 1, |outcomes|, s.body, 4
  {
    hide Leads, Gets, ForInAt, Size, Rounds;
    var mid, exit := lo + 1 + |s.iterable|, lo + Size(s, ctx.inFn);
    LoneTest(at, mid, mid + 1, exit, outcomes, log, exit, ctx.loop, depth);
    if outcomes != [] && outcomes[0] {
      EnterRuns(p, at, s, lo, ctx, outcomes[1..], log, depth);
      assert log + [] == log;
      NoEvents(EnterForIn(p, s.name, false, s.body, outcomes[1..], depth));
      LeadsFrom(at, On(at, mid, outcomes, log), On(at, mid + 1, outcomes[1..], log), [],
                EnterForIn(p, s.name, false, s.body, outcomes[1..], depth), exit, ctx.loop, depth);
    }
  }

  // ---------------------------------------------------------------- statements and blocks

  lemma {:induction false} StmtRuns(p: Program, at: Site, s: Stmt, lo: nat, ctx: Ctx, outcomes: seq<bool>,
                                    log: seq<Event>,
                                    depth: nat)
    requires InProgram(p, at) && Placed(Text(at), lo, CompileStmt(s, lo, ctx))
    requires StmtBuilds(s, ctx.inFn, ctx.loop.InLoop?, |p.funcs|)
    ensures Leads(at, On(at, lo, outcomes, log), StmtTrace(p, s, outcomes, depth), lo + Size(s, ctx.inFn), ctx.loop,
                  depth)
    decreases 3 * depth + 1, |outcomes|, s, 1
  {
    hide CompileIf, CompileWhile, CompileForIn, InProgram, Leads, StmtTrace, StmtBuilds, Size, Placed;
    match s
    case If(_, _, _, _) => IfRuns(p, at, s, lo, ctx, outcomes, log, depth);
    case While(_, _) => WhileRuns(p, at, s, lo, ctx, outcomes, log, depth);
    case ForIn(_, _, _, _) => ForInRuns(p, at, s, lo, ctx, outcomes, log, depth);
    case _ => hide CompileStmt; SimpleRuns(p, at, s, lo, ctx, outcomes, log, depth);
  }

  /** Wherever the code of a block stands, control does what the trace of the block says. */
  lemma {:induction false} BlockRuns(p: Program, at: Site, b: Block, lo: nat, ctx: Ctx, outcomes: seq<bool>,
                                     log: seq<Event>, depth: nat)
    requires InProgram(p, at) && Placed(Text(at), lo, CompileBlock(b, lo, ctx))
    requires BlockBuilds(b, ctx.inFn, ctx.loop.InLoop?, |p.funcs|)
    ensures Leads(at, On(at, lo, outcomes, log), BlockTrace(p, b, outcomes, depth), lo + BlockSize(b, ctx.inFn),
                  ctx.loop, depth)
    decreases 3 * depth + 1, |outcomes|, b, 0
  {
    hide CompileStmt, CompileBlock, StmtBuilds, Size, GuaranteesReturn, After, Placed, Leads, StmtTrace, InProgram;
    match b
    case Done => NothingRuns(at, lo, outcomes, log, ctx.loop, depth);
    case Then(s, rest) =>
      var mid := lo + Size(s, ctx.inFn);
      var next := ctx.(note := Next(s, lo, ctx.inFn, ctx.note));
      var from, t := On(at, lo, outcomes, log), StmtTrace(p, s, outcomes, depth);
      BlockSplit(Text(at), s, rest, lo, ctx);
      StmtRuns(p, at, s, lo, ctx, outcomes, log, depth);
      if t.end.Normal? {
        BlockRuns(p, at, rest, mid, next, t.rest, log + t.events, depth);
        LeadsThrough(at, from, t, mid, BlockTrace(p, rest, t.rest, depth), mid + BlockSize(rest, ctx.inFn), ctx.loop,
                     depth);
      } else {
        LeavesBlock(at, from, t, mid, mid + BlockSize(rest, ctx.inFn), ctx.loop, depth);
      }
  }

  lemma LeavesBlock(at: Site, from: Conf, t: Trace, mid: nat, stop: nat, loop: Loop, depth: nat)
    requires Leads(at, from, t, mid, loop, depth) && !t.end.Normal?
    ensures Leads(at, from, t, stop, loop, depth)
  {
  }
}
