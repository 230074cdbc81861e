/** Scope-depth neutrality and the return guarantee, over every run of every program that code generation accepts:
    with functions, recursion, `for-in` and any nesting, and also when the 64-scope limit makes pushes fail. */
module Depth {
  import opened Syntax
  import opened Codegen
  import opened Flow
  import opened Machine

  function Capped(n: nat): nat { if n <= MAX_SCOPES then n else MAX_SCOPES }

  // ---------------------------------------------------------------- whole programs flow well

  predicate StartsFlat(c: Code) {
    |c| > 0 && c[0].note.live == [] && !c[0].note.dead
  }

  predicate CodeOk(code: seq<Code>) {
    && |code| > 0
    && forall f {:trigger code[f]} :: 0 <= f < |code| ==>
         StartsFlat(code[f]) && RangeOk(code[f], f != 0, |code| - 1, 0, |code[f]|)
  }

  lemma {:induction false} MainFlows(b: Block, funcs: nat)
    requires BlockBuilds(b, false, false, funcs)
    ensures var c := CompileMain(b);
            StartsFlat(c) && RangeOk(c, false, funcs, 0, |c|) && BlockLevel(c, b, 0, false)
  {
    hide CompileBlock, RangeOk, BlockBuilds, BlockLevel, AfterBlock, BlockGuaranteesReturn, Placed, EndsInJump,
         BlockSize;
    var body := CompileBlock(b, 0, MainCtx());
    var halt := [Cell(Halt, TopNote.(view := AfterBlock(b, 0, false, TopNote)))];
    var c := CompileMain(b);
    BlockLength(b, 0, MainCtx());
    PlacedWhole(c);
    PlacedSplit(c, 0, body, halt);
    PlacedAt(c, |body|, halt, 0);
    SingleFlows(c, false, funcs, |body|);
    BlockFlows(c, funcs, b, 0, MainCtx());
    RangeJoin(c, false, funcs, 0, |body|, |c|);
  }

  lemma {:induction false} FuncFlows(f: Func, funcs: nat)
    requires BlockBuilds(f.body, true, false, funcs)
    ensures var c := CompileFunc(f);
            StartsFlat(c) && RangeOk(c, true, funcs, 0, |c|) && BlockLevel(c, f.body, BodyStart(f), true)
  {
    hide CompileBlock, RangeOk, BlockBuilds, BlockLevel, BlockGuaranteesReturn, Placed, ParamView, EndsInJump,
         ParamCode, Lands, BlockSize, FlowOk;
    var note := BodyNote(f);
    var end := note.(dead := BlockGuaranteesReturn(f.body));
    var ctx := Ctx(true, NoLoop, note);
    var start := BodyStart(f);
    var enter := [Cell(Enter(0), Note([], [], false))];
    var body := CompileBlock(f.body, start, ctx);
    var c := CompileFunc(f);
    BlockLength(f.body, start, ctx);
    PlacedWhole(c);
    PlacedSplit(c, 0, enter + ParamCode(f) + body, FuncTail(f));
    PlacedSplit(c, 0, enter + ParamCode(f), body);
    PlacedSplit(c, 0, enter, ParamCode(f));
    if !EndsInJump(f.body) { TailFlows(c, funcs, start + |body|, end); }
    BlockFlows(c, funcs, f.body, start, ctx);
    ParamsFlow(c, funcs, f);
    EnterFlows(c, funcs);
    RangeJoin(c, true, funcs, 0, 1, start);
    RangeJoin(c, true, funcs, 0, start, start + |body|);
    if !EndsInJump(f.body) { RangeJoin(c, true, funcs, 0, start + |body|, |c|); }
  }

  lemma EnterFlows(c: Code, funcs: nat)
    requires Placed(c, 0, [Cell(Enter(0), Note([], [], false))]) && Lands(c, 1, [0], false)
    ensures RangeOk(c, true, funcs, 0, 1) && StartsFlat(c)
  {
    PlacedAt(c, 0, [Cell(Enter(0), Note([], [], false))], 0);
    SingleFlows(c, true, funcs, 0);
  }

  lemma TailFlows(c: Code, funcs: nat, at: nat, end: Note)
    requires end.live == [0] && Placed(c, at, [Cell(PopToBase(0), end), Cell(Ret, end.(live := []))])
    ensures RangeOk(c, true, funcs, at, at + 2) && Lands(c, at, end.live, end.dead)
  {
    var tail := [Cell(PopToBase(0), end), Cell(Ret, end.(live := []))];
    PlacedAt(c, at, tail, 0);
    PlacedAt(c, at, tail, 1);
    assert FlowOk(c, true, funcs, at + 1);
    assert FlowOk(c, true, funcs, at);
  }

  lemma ParamsFlow(c: Code, funcs: nat, f: Func)
    requires Placed(c, 1, ParamCode(f))
    requires Lands(c, 1 + |f.params|, [0], false)
    ensures RangeOk(c, true, funcs, 1, 1 + |f.params|)
    ensures Lands(c, 1, [0], false)
  {
    hide ParamView;
    forall pc | 1 <= pc < 1 + |f.params|
      ensures pc < |c| && c[pc] == Cell(DeclIfMissing(f.params[pc - 1]), BodyNote(f))
    {
      PlacedAt(c, 1, ParamCode(f), pc - 1);
    }
  }

  lemma ProgramFlows(p: Program)
    requires Builds(p)
    ensures CodeOk(CompileProgram(p))
  {
    hide CompileMain, CompileFunc, RangeOk, BlockBuilds;
    var code: seq<Code> := CompileProgram(p);
    MainFlows(p.main, |p.funcs|);
    forall f | 0 < f < |code|
      ensures StartsFlat(code[f]) && RangeOk(code[f], f != 0, |code| - 1, 0, |code[f]|)
    {
      assert code[f] == CompileFunc(p.funcs[f - 1]);
      FuncFlows(p.funcs[f - 1], |p.funcs|);
    }
  }

  // ---------------------------------------------------------------- the invariant of a run

  /** The depth an activation has at its current instruction. */
  function DepthOf(code: seq<Code>, f: Frame): nat {
    if f.fn < |code| && f.pc < |code[f.fn]| then Capped(f.entry + |code[f.fn][f.pc].note.live|) else 0
  }

  predicate FrameOk(code: seq<Code>, f: Frame) {
    && f.fn < |code| && f.pc < |code[f.fn]|
    && 1 <= f.entry <= MAX_SCOPES
    && var note := code[f.fn][f.pc].note;
       && !note.dead
       && forall k :: 0 <= k < |note.live| ==> note.live[k] in f.slots && f.slots[note.live[k]] == Capped(f.entry + k)
  }

  predicate Chained(code: seq<Code>, frames: seq<Frame>) {
    && (forall i :: 0 <= i < |frames| ==> FrameOk(code, frames[i]))
    && (frames != [] ==> frames[0].fn == 0 && frames[0].entry == 1)
    && forall i :: 0 < i < |frames| ==> frames[i].fn != 0 && frames[i].entry == DepthOf(code, frames[i - 1])
  }

  predicate Inv(code: seq<Code>, st: State) {
    && Chained(code, st.frames)
    && |st.scopes| == (if st.frames == [] then 1 else DepthOf(code, st.Top()))
    && BadPopTarget !in st.errors
  }

  /** The current activation moves within its function. */
  lemma {:induction false} Moves(code: seq<Code>, frames: seq<Frame>, f: Frame)
    requires Chained(code, frames) && frames != []
    requires FrameOk(code, f) && f.fn == frames[|frames| - 1].fn && f.entry == frames[|frames| - 1].entry
    ensures Chained(code, frames[..|frames| - 1] + [f])
  {
    hide FrameOk, DepthOf;
    var n := |frames| - 1;
    var moved := frames[..n] + [f];
    forall i | 0 < i < |moved| ensures moved[i].fn != 0 && moved[i].entry == DepthOf(code, moved[i - 1]) {
      assert frames[i].entry == DepthOf(code, frames[i - 1]);
    }
  }

  lemma {:induction false} StepCall(code: seq<Code>, st: State, next: State, g: nat)
    requires CodeOk(code) && Inv(code, st) && Fetches(code, st)
    requires Fetch(code, st).instr == Invoke(g)
    requires next == Step(code, st, true) || next == Step(code, st, false)
    ensures Inv(code, next)
  {
    var f := st.Top();
    var c := code[f.fn];
    assert FlowOk(c, f.fn != 0, |code| - 1, f.pc);
    var caller := f.(pc := f.pc + 1);
    var callee := Frame(g, 0, map[], |st.scopes|);
    assert FrameOk(code, caller);
    Moves(code, st.frames, caller);
    var mid := st.frames[..|st.frames| - 1] + [caller];
    assert code[g] == code[g] && FrameOk(code, callee);
    assert next.frames == mid + [callee];
    assert forall i :: 0 <= i < |mid| ==> next.frames[i] == mid[i];
  }

  lemma {:induction false} StepRet(code: seq<Code>, st: State, next: State)
    requires CodeOk(code) && Inv(code, st) && Fetches(code, st)
    requires Fetch(code, st).instr == Ret
    requires next == Step(code, st, true) || next == Step(code, st, false)
    ensures Inv(code, next)
    ensures |st.scopes| == st.Top().entry && next.frames != [] && DepthOf(code, next.Top()) == st.Top().entry
  {
    var f := st.Top();
    var c := code[f.fn];
    assert FlowOk(c, f.fn != 0, |code| - 1, f.pc);
    var n := |st.frames| - 1;
    assert f.fn != 0 && n > 0;
    assert st.frames[n].entry == DepthOf(code, st.frames[n - 1]);
    assert forall i :: 0 <= i < n ==> next.frames[i] == st.frames[i];
  }

  /** An instruction that only moves the program counter, and perhaps records a slot. */
  lemma {:induction false} StepWithin(code: seq<Code>, st: State, f': Frame, next: State)
    requires CodeOk(code) && Inv(code, st) && st.frames != []
    requires f'.fn == st.Top().fn && f'.entry == st.Top().entry
    requires FrameOk(code, f')
    requires next.frames == st.WithTop(f').frames
    requires |next.scopes| == DepthOf(code, f')
    requires BadPopTarget !in next.errors
    ensures Inv(code, next)
  {
    hide FrameOk, Chained, CodeOk;
    Moves(code, st.frames, f');
  }

  lemma {:induction false} StepUnwind(code: seq<Code>, st: State, next: State, slot: nat)
    requires CodeOk(code) && Inv(code, st) && Fetches(code, st)
    requires Fetch(code, st).instr == PopTo(slot) || Fetch(code, st).instr == PopToBase(slot)
    requires next == Step(code, st, true) || next == Step(code, st, false)
    ensures Inv(code, next)
  {
    var f := st.Top();
    var c := code[f.fn];
    assert FlowOk(c, f.fn != 0, |code| - 1, f.pc);
    var live, n := c[f.pc].note.live, |c[f.pc + 1].note.live|;
    assert live[n] == slot && f.slots[slot] == Capped(f.entry + n);
    var f' := f.(pc := f.pc + 1);
    assert c[f.pc + 1].note.live == live[..n];
    assert FrameOk(code, f');
    StepWithin(code, st, f', next);
  }

  lemma {:induction false} StepEnter(code: seq<Code>, st: State, next: State, slot: nat)
    requires CodeOk(code) && Inv(code, st) && Fetches(code, st)
    requires Fetch(code, st).instr == Enter(slot)
    requires next == Step(code, st, true) || next == Step(code, st, false)
    ensures Inv(code, next)
  {
    var f := st.Top();
    var c := code[f.fn];
    assert FlowOk(c, f.fn != 0, |code| - 1, f.pc);
    var live := c[f.pc].note.live;
    var f' := f.(pc := f.pc + 1, slots := f.slots[slot := |st.scopes|]);
    assert c[f.pc + 1].note.live == live + [slot];
    assert FrameOk(code, f') by {
      forall k | 0 <= k <= |live|
        ensures (live + [slot])[k] in f'.slots && f'.slots[(live + [slot])[k]] == Capped(f.entry + k)
      {
        if k < |live| { assert live[k] in live; }
      }
    }
    assert st.WithTop(f.(pc := f.pc + 1)).WithTop(f').frames == st.WithTop(f').frames;
    StepWithin(code, st, f', next);
  }

  lemma {:induction false} StepPlain(code: seq<Code>, st: State, taken: bool)
    requires CodeOk(code) && Inv(code, st) && Fetches(code, st)
    requires var i := Fetch(code, st).instr;
             !i.Invoke? && !i.Ret? && !i.PopTo? && !i.PopToBase? && !i.Enter? && !i.Halt?
    ensures Inv(code, Step(code, st, taken))
  {
    hide IndexIn, Lookup, Resolve;
    var f := st.Top();
    var c := code[f.fn];
    assert FlowOk(c, f.fn != 0, |code| - 1, f.pc);
    var next := Step(code, st, taken);
    assert FrameOk(code, next.Top());
    StepWithin(code, st, next.Top(), next);
  }

  lemma {:induction false} StepHalt(code: seq<Code>, st: State, taken: bool)
    requires CodeOk(code) && Inv(code, st) && Fetches(code, st)
    requires Fetch(code, st).instr == Halt
    ensures Inv(code, Step(code, st, taken))
    ensures |st.scopes| == 1
  {
    var f := st.Top();
    assert FlowOk(code[f.fn], f.fn != 0, |code| - 1, f.pc);
    assert |st.frames| == 1;
  }

  lemma {:induction false} StepKeepsInv(code: seq<Code>, st: State, taken: bool)
    requires CodeOk(code) && Inv(code, st)
    ensures Inv(code, Step(code, st, taken))
  {
    hide CodeOk, Inv;
    if Fetches(code, st) {
      match Fetch(code, st).instr
      case Enter(s) => hide Step; StepEnter(code, st, Step(code, st, taken), s);
      case PopTo(s) => hide Step; StepUnwind(code, st, Step(code, st, taken), s);
      case PopToBase(s) => hide Step; StepUnwind(code, st, Step(code, st, taken), s);
      case Invoke(g) => hide Step; StepCall(code, st, Step(code, st, taken), g);
      case Ret => hide Step; StepRet(code, st, Step(code, st, taken));
      case Halt => hide Step; StepHalt(code, st, taken);
      case _ => hide Step; StepPlain(code, st, taken);
    }
  }

  lemma {:induction false} RunKeepsInv(code: seq<Code>, st: State, outcomes: seq<bool>)
    requires CodeOk(code) && Inv(code, st)
    ensures Inv(code, Run(code, st, outcomes))
    decreases |outcomes|
  {
    hide CodeOk, Inv, Step;
    if outcomes != [] {
      StepKeepsInv(code, st, outcomes[0]);
      RunKeepsInv(code, Step(code, st, outcomes[0]), outcomes[1..]);
    }
  }

  // ---------------------------------------------------------------- main results

  /** Statement `s` occurs in the code of `b` placed at `lo`, at address `at`; blocks inside blocks count. */
  predicate Occurs(s: Stmt, at: nat, b: Block, lo: nat, inFn: bool)
    decreases b, 1
  {
    match b
    case Done => false
    case Then(first, rest) =>
      || (s == first && at == lo)
      || OccursInside(s, at, first, lo, inFn)
      || Occurs(s, at, rest, lo + Size(first, inFn), inFn)
  }

  predicate OccursInside(s: Stmt, at: nat, t: Stmt, lo: nat, inFn: bool)
    decreases t, 0
  {
    match t
    case If(e, thn, hasElse, els) =>
      var yes := lo + |e| + 1;
      || Occurs(s, at, thn, yes + Opening(inFn), inFn)
      || (hasElse && Occurs(s, at, els, yes + ArmSize(thn, inFn) + Opening(inFn), inFn))
    case While(e, body) => Occurs(s, at, body, lo + |e| + 1 + Opening(inFn), inFn)
    case ForIn(_, e, isDict, body) => Occurs(s, at, body, lo + HeadSize(e, isDict) + Opening(inFn) + 1, inFn)
    case _ => false
  }

  lemma {:induction false} OccursLevel(c: Code, s: Stmt, at: nat, b: Block, lo: nat, inFn: bool)
    requires BlockLevel(c, b, lo, inFn) && Occurs(s, at, b, lo, inFn)
    ensures Level(c, s, at, inFn)
    decreases b, 1
  {
    hide Level, OccursInside, Size;
    var Then(first, rest) := b;
    if s == first && at == lo {
    } else if OccursInside(s, at, first, lo, inFn) {
      InsideLevel(c, s, at, first, lo, inFn);
    } else {
      OccursLevel(c, s, at, rest, lo + Size(first, inFn), inFn);
    }
  }

  lemma {:induction false} InsideLevel(c: Code, s: Stmt, at: nat, t: Stmt, lo: nat, inFn: bool)
    requires Level(c, t, lo, inFn) && OccursInside(s, at, t, lo, inFn)
    ensures Level(c, s, at, inFn)
    decreases t, 0
  {
    hide BlockLevel, Occurs, Size, ArmSize;
    match t
    case If(e, thn, hasElse, els) =>
      var yes := lo + |e| + 1;
      if Occurs(s, at, thn, yes + Opening(inFn), inFn) {
        OccursLevel(c, s, at, thn, yes + Opening(inFn), inFn);
      } else {
        OccursLevel(c, s, at, els, yes + ArmSize(thn, inFn) + Opening(inFn), inFn);
      }
    case While(e, body) => OccursLevel(c, s, at, body, lo + |e| + 1 + Opening(inFn), inFn);
    case ForIn(_, e, isDict, body) => OccursLevel(c, s, at, body, lo + HeadSize(e, isDict) + Opening(inFn) + 1, inFn);
  }

  function Reached(p: Program, outcomes: seq<bool>): State {
    Run(CompileProgram(p), Init, outcomes)
  }

  /** Statement `s` of the program (function 0 is the top level) starts at address `at`. */
  predicate IsStatement(p: Program, fn: nat, s: Stmt, at: nat) {
    if fn == 0 then Occurs(s, at, p.main, 0, false)
    else fn <= |p.funcs| && Occurs(s, at, p.funcs[fn - 1].body, BodyStart(p.funcs[fn - 1]), true)
  }

  lemma {:induction false} InitialInv(p: Program)
    requires Builds(p)
    ensures CodeOk(CompileProgram(p)) && Inv(CompileProgram(p), Init)
  {
    hide CompileMain, CompileFunc, RangeOk, Builds;
    ProgramFlows(p);
    var code: seq<Code> := CompileProgram(p);
    assert StartsFlat(code[0]);
  }

  lemma {:induction false} ReachedInv(p: Program, outcomes: seq<bool>)
    requires Builds(p)
    ensures Inv(CompileProgram(p), Reached(p, outcomes))
  {
    hide Inv, CodeOk, Builds, Run;
    InitialInv(p);
    RunKeepsInv(CompileProgram(p), Init, outcomes);
  }

  /** No run pops below the global scope or to a depth above the current one, and at least the
      global scope and at most 64 scopes exist. */
  lemma {:induction false} ScopesStayInRange(p: Program, outcomes: seq<bool>)
    requires Builds(p)
    ensures var st := Reached(p, outcomes);
            BadPopTarget !in st.errors && 1 <= |st.scopes| <= MAX_SCOPES
  {
    ReachedInv(p, outcomes);
  }

  lemma {:induction false} StatementIsLevel(p: Program, fn: nat, s: Stmt, at: nat)
    requires Builds(p) && IsStatement(p, fn, s, at) && !IsJump(s)
    ensures fn < |CompileProgram(p)|
    ensures var c: Code := CompileProgram(p)[fn];
            at < |c| && at + Size(s, fn != 0) < |c| && c[at].note.live == c[at + Size(s, fn != 0)].note.live
  {
    hide CompileMain, CompileFunc, RangeOk, BlockBuilds, Size, BlockLevel, Occurs;
    var c: Code := CompileProgram(p)[fn];
    if fn == 0 {
      MainFlows(p.main, |p.funcs|);
      OccursLevel(c, s, at, p.main, 0, false);
    } else {
      FuncFlows(p.funcs[fn - 1], |p.funcs|);
      OccursLevel(c, s, at, p.funcs[fn - 1].body, BodyStart(p.funcs[fn - 1]), true);
    }
  }

  /** Whatever happened in between (branches, loops, break, continue, calls, empty iterables, failed
      key extraction, refused pushes), control reaches the end of a statement at the depth at which
      the same activation entered it. */
  lemma {:induction false} StatementNeutral(p: Program, before: seq<bool>, after: seq<bool>, fn: nat, s: Stmt, at: nat)
    requires Builds(p) && IsStatement(p, fn, s, at)
    requires var st, st' := Reached(p, before), Reached(p, after);
             && st.frames != [] && st'.frames != []
             && st.Top().fn == st'.Top().fn == fn && st.Top().entry == st'.Top().entry
             && st.Top().pc == at && st'.Top().pc == at + Size(s, fn != 0)
    requires !IsJump(s)
    ensures |Reached(p, after).scopes| == |Reached(p, before).scopes|
  {
    hide Builds, CompileProgram, Run, Level, Size, Occurs;
    ReachedInv(p, before);
    ReachedInv(p, after);
    StatementIsLevel(p, fn, s, at);
  }

  /** When a call has come back (recursion included), the caller is at the depth it called from. */
  lemma {:induction false} CallNeutral(p: Program, before: seq<bool>, after: seq<bool>)
    requires Builds(p)
    requires var st, st' := Reached(p, before), Reached(p, after);
             && Fetches(CompileProgram(p), st) && Fetch(CompileProgram(p), st).instr.Invoke?
             && st'.frames == st.At(st.Top().pc + 1).frames
    ensures |Reached(p, after).scopes| == |Reached(p, before).scopes|
  {
    hide Builds, CompileProgram, Run;
    ReachedInv(p, before);
    ReachedInv(p, after);
    InitialInv(p);
    var st, code := Reached(p, before), CompileProgram(p);
    assert FlowOk(code[st.Top().fn], st.Top().fn != 0, |code| - 1, st.Top().pc);
  }

  /** A function accepted by the return check never runs off the end of its body: no activation, in
      any run, gets past the body's last instruction. */
  lemma {:induction false} GuaranteedReturn(p: Program, outcomes: seq<bool>, i: nat, k: nat)
    requires Builds(p) && i < |p.funcs| && BlockGuaranteesReturn(p.funcs[i].body)
    requires k < |Reached(p, outcomes).frames| && Reached(p, outcomes).frames[k].fn == i + 1
    ensures Reached(p, outcomes).frames[k].pc < BodyStart(p.funcs[i]) + BlockSize(p.funcs[i].body, true)
  {
    hide Builds, Run, BlockSize, CompileBlock, BlockGuaranteesReturn, ParamView, EndsInJump, ParamCode;
    ReachedInv(p, outcomes);
    var f := p.funcs[i];
    var fr := Reached(p, outcomes).frames[k];
    var code: seq<Code> := CompileProgram(p);
    assert FrameOk(code, fr);
    assert code[i + 1] == CompileFunc(f);
    var upTo := BodyStart(f) + BlockSize(f.body, true);
    if fr.pc >= upTo {
      TailIsDead(f, fr.pc);
    }
  }

  lemma TailIsDead(f: Func, pc: nat)
    requires BlockGuaranteesReturn(f.body)
    requires BodyStart(f) + BlockSize(f.body, true) <= pc < |CompileFunc(f)|
    ensures CompileFunc(f)[pc].note.dead
  {
    hide BlockSize, CompileBlock, BlockGuaranteesReturn, ParamView, EndsInJump, ParamCode;
    BlockLength(f.body, BodyStart(f), Ctx(true, NoLoop, BodyNote(f)));
    var upTo := BodyStart(f) + BlockSize(f.body, true);
    assert CompileFunc(f)[pc] == FuncTail(f)[pc - upTo];
  }
}
