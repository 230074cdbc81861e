/** The accesses of every run are the trace of the program under the outcomes of the run's tests, and every trace is
    the log of some run. */
module Behaviour {
  import opened Syntax
  import opened Codegen
  import opened Flow
  import opened Machine
  import opened Traces
  import opened Control
  import opened Simulation

  // ---------------------------------------------------------------- what a run does

  /** The accesses of the instruction about to be executed. */
  function Doing(code: seq<Code>, st: State): seq<Event> {
    if Fetches(code, st) then EventOf(Fetch(code, st).instr) else []
  }

  /** The outcome, if the instruction is a test. */
  function Testing(code: seq<Code>, st: State, taken: bool): seq<bool> {
    if Fetches(code, st) && Fetch(code, st).instr.Branch? then [taken] else []
  }

  /** The accesses of a run of the machine, in order. */
  function Log(code: seq<Code>, st: State, outcomes: seq<bool>): seq<Event>
    decreases |outcomes|
  {
    if outcomes == [] then [] else Doing(code, st) + Log(code, Step(code, st, outcomes[0]), outcomes[1..])
  }

  /** The outcomes that its tests had; the machine is given one for each instruction and ignores the others. */
  function Tests(code: seq<Code>, st: State, outcomes: seq<bool>): seq<bool>
    decreases |outcomes|
  {
    if outcomes == [] then []
    else Testing(code, st, outcomes[0]) + Tests(code, Step(code, st, outcomes[0]), outcomes[1..])
  }

  function Spots(st: State): seq<Spot> {
    seq(|st.frames|, i requires 0 <= i < |st.frames| => Spot(st.frames[i].fn, st.frames[i].pc))
  }

  /** One step of the machine, as far as control is concerned. */
  lemma {:induction false} StepMoves(code: seq<Code>, st: State, taken: bool, more: seq<bool>, log: seq<Event>)
    ensures Move(code, Conf(Spots(st), Testing(code, st, taken) + more, log))
            == Conf(Spots(Step(code, st, taken)), more, log + Doing(code, st))
  {
    hide Lookup, IndexIn;
    var k := Conf(Spots(st), Testing(code, st, taken) + more, log);
    assert log + [] == log && [] + more == more;
    if Fetches(code, st) {
      var n := |st.frames| - 1;
      assert Spots(st)[n] == Spot(st.Top().fn, st.Top().pc);
      assert Spots(st)[..n] == Spots(st.(frames := st.frames[..n]));
      forall f: Frame ensures Spots(st.WithTop(f)) == Spots(st)[..n] + [Spot(f.fn, f.pc)] { }
      StepFrames(code, st, taken);
    }
  }

  /** The frames after a step; scopes, errors and lookups have no part in them. */
  lemma {:induction false} StepFrames(code: seq<Code>, st: State, taken: bool)
    requires Fetches(code, st)
    ensures var f, n := st.Top(), |st.frames| - 1;
            var fs := Spots(Step(code, st, taken));
            match Fetch(code, st).instr
            case Branch(yes, no) => fs == Spots(st)[..n] + [Spot(f.fn, if taken then yes else no)]
            case Jump(t) => fs == Spots(st)[..n] + [Spot(f.fn, t)]
            case Ret => fs == Spots(st)[..n]
            case Halt => fs == []
            case Invoke(g) => fs == Spots(st)[..n] + [Spot(f.fn, f.pc + 1), Spot(g, 0)]
            case _ => fs == Spots(st)[..n] + [Spot(f.fn, f.pc + 1)]
  {
    hide Lookup, IndexIn;
    var n := |st.frames| - 1;
    assert Spots(st)[..n] == Spots(st.(frames := st.frames[..n]));
    forall f: Frame ensures Spots(st.WithTop(f)) == Spots(st)[..n] + [Spot(f.fn, f.pc)] { }
  }

  lemma {:induction false} RunMoves(code: seq<Code>, st: State, outcomes: seq<bool>, more: seq<bool>, log: seq<Event>)
    ensures Moves(code, Conf(Spots(st), Tests(code, st, outcomes) + more, log), |outcomes|)
            == Conf(Spots(Run(code, st, outcomes)), more, log + Log(code, st, outcomes))
    decreases |outcomes|
  {
    hide Move, Step, Doing, Testing;
    if outcomes == [] {
      assert [] + more == more && log + [] == log;
    } else {
      var t, next := outcomes[0], Step(code, st, outcomes[0]);
      var rest := Tests(code, next, outcomes[1..]) + more;
      assert Tests(code, st, outcomes) + more == Testing(code, st, t) + rest;
      StepMoves(code, st, t, rest, log);
      RunMoves(code, next, outcomes[1..], more, log + Doing(code, st));
      assert log + Doing(code, st) + Log(code, next, outcomes[1..]) == log + Log(code, st, outcomes);
    }
  }

  // ---------------------------------------------------------------- moves go on

  lemma {:induction false} MovesKeep(code: seq<Code>, k: Conf, n: nat)
    ensures k.log <= Moves(code, k, n).log && |Moves(code, k, n).spots| <= |k.spots| + n
    decreases n
  {
    if n > 0 {
      OneKeeps(code, k);
      MovesKeep(code, Move(code, k), n - 1);
    }
  }

  lemma OneKeeps(code: seq<Code>, k: Conf)
    ensures k.log <= Move(code, k).log && |Move(code, k).spots| <= |k.spots| + 1
  {
  }

  /** A configuration that cannot move. */
  predicate Still(code: seq<Code>, k: Conf) { Move(code, k) == k }

  lemma {:induction false} StillStays(code: seq<Code>, k: Conf, n: nat)
    requires Still(code, k)
    ensures Moves(code, k, n) == k
    decreases n
  {
    if n > 0 { StillStays(code, k, n - 1); }
  }

  // ---------------------------------------------------------------- the whole program

  const Start: Conf := Conf([Spot(0, 0)], [], [])

  /** What control has done when the trace of the program is over. */
  ghost predicate Finishes(code: seq<Code>, t: Trace, depth: nat, k: Conf) {
    && k.log == t.events
    && match t.end
       case Normal => k.spots == [] && k.outcomes == t.rest
       case Cut => Waits(code, k)
       case Deep => |k.spots| > depth
       case _ => false
  }

  lemma {:induction false} ProgramLeads(p: Program, outcomes: seq<bool>, depth: nat) returns (k: Conf)
    requires Builds(p)
    ensures Gets(CompileProgram(p), Start.(outcomes := outcomes), k)
    ensures Finishes(CompileProgram(p), ProgramTrace(p, outcomes, depth), depth, k)
  {
    hide CompileBlock, CompileFunc, BlockBuilds, BlockTrace, Placed, BlockSize, AfterBlock, Gets, Waits;
    var code: seq<Code> := CompileProgram(p);
    var at := Site(code, [], 0);
    var c := CompileMain(p.main);
    assert Text(at) == c && InProgram(p, at);
    var body := CompileBlock(p.main, 0, MainCtx());
    var halt := [Cell(Halt, TopNote.(view := AfterBlock(p.main, 0, false, TopNote)))];
    BlockLength(p.main, 0, MainCtx());
    PlacedWhole(c);
    PlacedSplit(c, 0, body, halt);
    PlacedAt(c, |body|, halt, 0);
    BlockRuns(p, at, p.main, 0, MainCtx(), outcomes, [], depth);
    var t := ProgramTrace(p, outcomes, depth);
    var from := On(at, 0, outcomes, []);
    assert from == Start.(outcomes := outcomes) && [] + t.events == t.events;
    NeverReturns(p, p.main, outcomes, depth);
    match t.end
    case Normal => k := HaltMoves(at, from, |body|, t.rest, t.events);
    case Cut => k :| Gets(code, from, k) && k.log == t.events && Waits(code, k);
    case Deep => k :| Gets(code, from, k) && k.log == t.events && |k.spots| > depth;
    case _ =>
  }

  /** At the top level there is no `return`. */
  lemma {:induction false} NeverReturns(p: Program, b: Block, outcomes: seq<bool>, depth: nat)
    requires BlockBuilds(b, false, false, |p.funcs|) || BlockBuilds(b, false, true, |p.funcs|)
    ensures !BlockTrace(p, b, outcomes, depth).end.Returned?
    decreases 3 * depth + 1, |outcomes|, b, 0
  {
    hide ExprTrace, CallsExist, StmtTrace, StmtBuilds;
    if b.Then? {
      var inLoop := !BlockBuilds(b, false, false, |p.funcs|);
      StmtNeverReturns(p, b.first, inLoop, outcomes, depth);
      var t := StmtTrace(p, b.first, outcomes, depth);
      if t.end.Normal? { NeverReturns(p, b.rest, t.rest, depth); }
    }
  }

  lemma {:induction false} StmtNeverReturns(p: Program, s: Stmt, inLoop: bool, outcomes: seq<bool>, depth: nat)
    requires StmtBuilds(s, false, inLoop, |p.funcs|)
    ensures !StmtTrace(p, s, outcomes, depth).end.Returned?
    decreases 3 * depth + 1, |outcomes|, s, 1
  {
    hide ExprTrace, CallsExist, BlockTrace, BlockBuilds, EnterForIn;
    match s
    case If(c, thn, hasElse, els) =>
      var t := ExprTrace(p, c, outcomes, depth);
      if t.end.Normal? && t.rest != [] {
        if t.rest[0] { NeverReturns(p, thn, t.rest[1..], depth); }
            else if hasElse { NeverReturns(p, els, t.rest[1..], depth); }
      }
    case While(c, body) =>
      var t := ExprTrace(p, c, outcomes, depth);
      if t.end.Normal? && t.rest != [] && t.rest[0] {
        NeverReturns(p, body, t.rest[1..], depth);
        var b := BlockTrace(p, body, t.rest[1..], depth);
        if b.end.Normal? || b.end.Continued? { StmtNeverReturns(p, s, inLoop, b.rest, depth); }
      }
    case ForIn(x, e, isDict, body) =>
      var t := ExprTrace(p, e, outcomes, depth);
      if t.end.Normal? { EnterNeverReturns(p, x, isDict, body, t.rest, depth); }
    case _ =>
  }

  

  lemma {:induction false} EnterNeverReturns(p: Program, x: string, isDict: bool, body: Block, outcomes: seq<bool>,
                                             depth: nat)
    requires BlockBuilds(body, false, true, |p.funcs|)
    ensures !EnterForIn(p, x, isDict, body, outcomes, depth).end.Returned?
    decreases 3 * depth + 1, |outcomes|, body, 2
  {
    hide BlockBuilds, Rounds;
    if outcomes != [] && outcomes[0] {
      if isDict {
        EnterNeverReturns(p, x, false, body, outcomes[1..], depth);
      } else {
        RoundsNeverReturn(p, x, body, outcomes[1..], depth);
      }
    }
  }

  lemma {:induction false} RoundsNeverReturn(p: Program, x: string, body: Block, outcomes: seq<bool>, depth: nat)
    requires BlockBuilds(body, false, true, |p.funcs|)
    ensures !Rounds(p, x, body, outcomes, depth).end.Returned?
    decreases 3 * depth + 1, |outcomes|, body, 1
  {
    hide BlockTrace, BlockBuilds;
    if |outcomes| > 1 && outcomes[0] && outcomes[1] {
      NeverReturns(p, body, outcomes[2..], depth);
      var b := BlockTrace(p, body, outcomes[2..], depth);
      if b.end.Normal? || b.end.Continued? { RoundsNeverReturn(p, x, body, b.rest, depth); }
    }
  }

  lemma HaltMoves(at: Site, from: Conf, pc: nat, outcomes: seq<bool>, log: seq<Event>) returns (k: Conf)
    requires pc < |Text(at)| && Text(at)[pc].instr == Halt && Gets(at.code, from, On(at, pc, outcomes, log))
    ensures Gets(at.code, from, k) && k == Conf([], outcomes, log)
  {
    hide Gets;
    k := Conf([], outcomes, log);
    StandsOn(at, pc, outcomes, log);
    GetsOne(at.code, On(at, pc, outcomes, log));
    GetsMore(at.code, from, On(at, pc, outcomes, log), k);
  }

  lemma FinishedIsStill(code: seq<Code>, t: Trace, depth: nat, k: Conf)
    requires Finishes(code, t, depth, k) && !t.end.Deep?
    ensures Still(code, k)
  {
  }

  // ---------------------------------------------------------------- main results

  /** For every run of the emitted program: its accesses are a beginning of the trace of the program's text under
      the outcomes of its tests, and when it has halted they are that trace, which ends normally and has used
      all outcomes. */
  lemma {:induction false} RunFollowsText(p: Program, outcomes: seq<bool>)
    requires Builds(p)
    ensures var code := CompileProgram(p);
            var t := ProgramTrace(p, Tests(code, Init, outcomes), |outcomes|);
            && Log(code, Init, outcomes) <= t.events
            && (Run(code, Init, outcomes).frames == [] ==>
                  Log(code, Init, outcomes) == t.events && t.end == Normal && t.rest == [])
  {
    hide Run, Log, Tests, CompileProgram, Builds, ProgramTrace, Moves, Finishes, Init, Move;
    var code, n := CompileProgram(p), |outcomes|;
    var tests, log, st := Tests(code, Init, outcomes), Log(code, Init, outcomes), Run(code, Init, outcomes);
    var t := ProgramTrace(p, tests, n);
    var from := Start.(outcomes := tests);
    var now := Conf(Spots(st), [], log);
    InitSpots();
    RunMoves(code, Init, outcomes, [], []);
    assert tests + [] == tests && [] + log == log;
    assert Moves(code, from, n) == now;
    var k := ProgramLeads(p, tests, n);
    var m: nat :| Moves(code, from, m) == k;
    Compare(code, from, n, now, m, k, t);
  }

  lemma InitSpots()
    ensures Spots(Init) == [Spot(0, 0)]
  {
  }

  /** After n moves there is `now`, and after m moves the trace is over. */
  lemma {:induction false} Compare(code: seq<Code>, from: Conf, n: nat, now: Conf, m: nat, k: Conf, t: Trace)
    requires |from.spots| == 1 && Moves(code, from, n) == now && Moves(code, from, m) == k && Finishes(code, t, n, k)
    requires now.outcomes == []
    ensures now.log <= t.events
    ensures now.spots == [] ==> now.log == t.events && t.end == Normal && t.rest == []
  {
    hide Moves, Move;
    if n <= m {
      MovesAdd(code, from, n, m - n);
      MovesKeep(code, now, m - n);
      if now.spots == [] {
        NobodyMoves(code, now);
        StillStays(code, now, m - n);
        assert k == now;
      }
    } else {
      MovesAdd(code, from, m, n - m);
      MovesKeep(code, from, m);
      assert |k.spots| <= 1 + m;
      FinishedIsStill(code, t, n, k);
      StillStays(code, k, n - m);
      assert k == now;
    }
  }

  lemma NobodyMoves(code: seq<Code>, k: Conf)
    requires k.spots == []
    ensures Still(code, k)
  {
  }

  /** For every trace of the program's text there is a run of the emitted program with just these accesses, under
      just these outcomes of its tests; if the trace ends normally, the run has halted. */
  lemma {:induction false} TextIsRun(p: Program, choices: seq<bool>, depth: nat) returns (outcomes: seq<bool>)
    requires Builds(p)
    ensures var code := CompileProgram(p);
            var t := ProgramTrace(p, choices, depth);
            && Log(code, Init, outcomes) == t.events
            && Tests(code, Init, outcomes) <= choices
            && (t.end == Normal ==>
                  Run(code, Init, outcomes).frames == [] && Tests(code, Init, outcomes) + t.rest == choices)
  {
    hide Run, Log, Tests, CompileProgram, Builds, ProgramTrace, Moves, Init, Spots;
    var code := CompileProgram(p);
    var k := ProgramLeads(p, choices, depth);
    InitSpots();
    var m: nat :| Moves(code, Start.(outcomes := choices), m) == k;
    outcomes := Drive(code, Init, choices, [], m);
    assert [] + Log(code, Init, outcomes) == Log(code, Init, outcomes);
    NoSpots(Run(code, Init, outcomes));
  }

  lemma NoSpots(st: State)
    ensures Spots(st) == [] ==> st.frames == []
  {
    assert |Spots(st)| == |st.frames|;
  }

  lemma RunOne(code: seq<Code>, st: State, taken: bool, rest: seq<bool>)
    ensures var next := Step(code, st, taken);
            && Run(code, st, [taken] + rest) == Run(code, next, rest)
            && Log(code, st, [taken] + rest) == Doing(code, st) + Log(code, next, rest)
            && Tests(code, st, [taken] + rest) == Testing(code, st, taken) + Tests(code, next, rest)
  {
    hide Step, Doing, Testing;
    assert ([taken] + rest)[1..] == rest;
  }

  lemma RunNone(code: seq<Code>, st: State)
    ensures Run(code, st, []) == st && Log(code, st, []) == [] && Tests(code, st, []) == []
  {
  }

  /** Outcomes that make the machine do what `m` moves of control do. */
  lemma {:induction false} Drive(code: seq<Code>, st: State, choices: seq<bool>, log: seq<Event>, m: nat)
      returns (outcomes: seq<bool>)
    ensures var k := Moves(code, Conf(Spots(st), choices, log), m);
            && Spots(Run(code, st, outcomes)) == k.spots && log + Log(code, st, outcomes) == k.log
            && Tests(code, st, outcomes) + k.outcomes == choices
    decreases m
  {
    hide Step, Doing, Testing, Move, Run, Log, Tests, Spots, Stops;
    var from := Conf(Spots(st), choices, log);
    if m == 0 || Stops(code, st, choices) {
      outcomes := [];
      RunNone(code, st);
      assert log + [] == log && [] + choices == choices;
      if m > 0 {
        StopsIsStill(code, st, choices, log);
        StillStays(code, from, m);
      }
    } else {
      var taken := choices != [] && choices[0];
      TestingUses(code, st, choices);
      var used := Testing(code, st, taken);
      var left := choices[|used|..];
      assert used + left == choices;
      StepMoves(code, st, taken, left, log);
      var rest := Drive(code, Step(code, st, taken), left, log + Doing(code, st), m - 1);
      outcomes := [taken] + rest;
      RunOne(code, st, taken, rest);
      Regroup(log, Doing(code, st), Log(code, Step(code, st, taken), rest));
      Regroup(used, Tests(code, Step(code, st, taken), rest), Moves(code, from, m).outcomes);
    }
  }

  lemma Regroup<T>(a: seq<T>, b: seq<T>, c: seq<T>)
    ensures (a + b) + c == a + (b + c)
  {
  }

  predicate Stops(code: seq<Code>, st: State, choices: seq<bool>) {
    Fetches(code, st) && Fetch(code, st).instr.Branch? && choices == []
  }

  lemma StopsIsStill(code: seq<Code>, st: State, choices: seq<bool>, log: seq<Event>)
    requires Stops(code, st, choices)
    ensures Still(code, Conf(Spots(st), choices, log))
  {
    var n := |st.frames| - 1;
    assert Spots(st)[n] == Spot(st.Top().fn, st.Top().pc);
  }

  lemma TestingUses(code: seq<Code>, st: State, choices: seq<bool>)
    requires !Stops(code, st, choices)
    ensures Testing(code, st, choices != [] && choices[0]) <= choices
  {
  }
}
