/** Where control goes in emitted code: it does not depend on scopes and values, so an activation is an
    address alone. The log of accesses is kept on the way.
    Each move executes one instruction; a branch takes the next of the given outcomes and waits when there
    is none. `Leads` says of a trace (module Traces) that control follows it from a configuration to where
    the trace's end says: behind the code, to the targets of the loop, out of the activation, to a test
    without an outcome, or beyond the bound on nested calls. The rest are its rules for composition. */
module Control {
  import opened Syntax
  import opened Codegen
  import opened Flow
  import opened Machine
  import opened Traces

  // ---------------------------------------------------------------- control

  datatype Spot = Spot(fn: nat, pc: nat)

  /** Where the activations stand, the outcomes that are left, and what has been accessed. */
  datatype Conf = Conf(spots: seq<Spot>, outcomes: seq<bool>, log: seq<Event>)

  function EventOf(i: Instr): seq<Event> {
    match i
    case Load(x) => [Reads(x)]
    case Store(x) => [Writes(x)]
    case Local(x, store) => [if store then Writes(x) else Reads(x)]
    case Decl(x, _) => [Declares(x)]
    case DeclIfMissing(x) => [Declares(x)]
    case Invoke(g) => if g > 0 then [Calls(g - 1)] else []
    case _ => []
  }

  predicate Stands(code: seq<Code>, k: Conf) {
    k.spots != [] && Last(k).fn < |code| && Last(k).pc < |code[Last(k).fn]|
  }

  function Last(k: Conf): Spot
    requires k.spots != []
  {
    k.spots[|k.spots| - 1]
  }

  function InstrAt(code: seq<Code>, k: Conf): Instr
    requires Stands(code, k)
  {
    code[Last(k).fn][Last(k).pc].instr
  }

  function GoTo(k: Conf, pc: nat): Conf
    requires k.spots != []
  {
    k.(spots := k.spots[..|k.spots| - 1] + [Spot(Last(k).fn, pc)])
  }

  /** One instruction; a branch takes the next outcome and waits when there is none. */
  function Move(code: seq<Code>, k: Conf): Conf {
    if !Stands(code, k) then k
    else
      var i, next := InstrAt(code, k), GoTo(k, Last(k).pc + 1);
      match i
      case Branch(yes, no) =>
        if k.outcomes == [] then k
        else GoTo(k, if k.outcomes[0] then yes else no).(outcomes := k.outcomes[1..])
      case Jump(t) => GoTo(k, t)
      case Ret => k.(spots := k.spots[..|k.spots| - 1])
      case Halt => k.(spots := [])
      case Invoke(g) => next.(spots := next.spots + [Spot(g, 0)], log := k.log + EventOf(i))
      case _ => next.(log := k.log + EventOf(i))
  }

  function Moves(code: seq<Code>, k: Conf, n: nat): Conf
    decreases n
  {
    if n == 0 then k else Moves(code, Move(code, k), n - 1)
  }

  ghost predicate Gets(code: seq<Code>, a: Conf, b: Conf) {
    exists n: nat :: Moves(code, a, n) == b
  }

  lemma {:induction false} MovesAdd(code: seq<Code>, k: Conf, m: nat, n: nat)
    ensures Moves(code, Moves(code, k, m), n) == Moves(code, k, m + n)
    decreases m
  {
    hide Move;
    if m > 0 { MovesAdd(code, Move(code, k), m - 1, n); }
  }

  lemma GetsSelf(code: seq<Code>, a: Conf)
    ensures Gets(code, a, a)
  {
    assert Moves(code, a, 0) == a;
  }

  lemma GetsOne(code: seq<Code>, a: Conf)
    ensures Gets(code, a, Move(code, a))
  {
    hide Move;
    assert Moves(code, Move(code, a), 0) == Move(code, a);
    assert Moves(code, a, 1) == Move(code, a);
  }

  lemma GetsMore(code: seq<Code>, a: Conf, b: Conf, c: Conf)
    requires Gets(code, a, b) && Gets(code, b, c)
    ensures Gets(code, a, c)
  {
    hide Moves;
    var m: nat :| Moves(code, a, m) == b;
    var n: nat :| Moves(code, b, n) == c;
    MovesAdd(code, a, m, n);
  }

  // ---------------------------------------------------------------- where a trace leads

  /** An activation of function `fn` above the activations in `base`. */
  datatype Site = Site(code: seq<Code>, base: seq<Spot>, fn: nat)

  function On(at: Site, pc: nat, outcomes: seq<bool>, log: seq<Event>): Conf {
    Conf(at.base + [Spot(at.fn, pc)], outcomes, log)
  }

  function Text(at: Site): Code { if at.fn < |at.code| then at.code[at.fn] else [] }

  /** A branch that finds no outcome. */
  predicate Waits(code: seq<Code>, k: Conf) {
    Stands(code, k) && InstrAt(code, k).Branch? && k.outcomes == []
  }

  /** From `from`, control does what the trace says and ends up where its end says: behind the code, at the
      targets of the loop, below the activation, at a test without an outcome, or deeper than the bound. */
  ghost predicate Leads(at: Site, from: Conf, t: Trace, next: nat, loop: Loop, depth: nat) {
    var log := from.log + t.events;
    match t.end
    case Normal => Gets(at.code, from, On(at, next, t.rest, log))
    case Broke => loop.InLoop? && Gets(at.code, from, On(at, loop.exit, t.rest, log))
    case Continued => loop.InLoop? && Gets(at.code, from, On(at, loop.again, t.rest, log))
    case Returned => Gets(at.code, from, Conf(at.base, t.rest, log))
    case Cut => exists k :: Gets(at.code, from, k) && k.log == log && Waits(at.code, k)
    case Deep => exists k :: Gets(at.code, from, k) && k.log == log && |k.spots| > |at.base| + depth
  }

  /** What happens on the way to `mid` comes before what happens from there. */
  lemma LeadsFrom(at: Site, from: Conf, mid: Conf, first: seq<Event>, t: Trace, next: nat, loop: Loop, depth: nat)
    requires Gets(at.code, from, mid) && mid.log == from.log + first && Leads(at, mid, t, next, loop, depth)
    ensures Leads(at, from, Before(first, t), next, loop, depth)
  {
    hide Gets, Waits;
    assert from.log + (first + t.events) == mid.log + t.events;
    match t.end
    case Normal => GetsMore(at.code, from, mid, On(at, next, t.rest, mid.log + t.events));
    case Broke => GetsMore(at.code, from, mid, On(at, loop.exit, t.rest, mid.log + t.events));
    case Continued => GetsMore(at.code, from, mid, On(at, loop.again, t.rest, mid.log + t.events));
    case Returned => GetsMore(at.code, from, mid, Conf(at.base, t.rest, mid.log + t.events));
    case Cut =>
      var k :| Gets(at.code, mid, k) && k.log == mid.log + t.events && Waits(at.code, k);
      GetsMore(at.code, from, mid, k);
    case Deep =>
      var k :| Gets(at.code, mid, k) && k.log == mid.log + t.events && |k.spots| > |at.base| + depth;
      GetsMore(at.code, from, mid, k);
  }

  /** A trace that ends normally at `mid` may be followed by another one. */
  lemma LeadsThrough(at: Site, from: Conf, t: Trace, mid: nat, u: Trace, next: nat, loop: Loop, depth: nat)
    requires t.end.Normal? && Leads(at, from, t, mid, loop, depth)
    requires Leads(at, On(at, mid, t.rest, from.log + t.events), u, next, loop, depth)
    ensures Leads(at, from, Before(t.events, u), next, loop, depth)
  {
    hide Gets;
    LeadsFrom(at, from, On(at, mid, t.rest, from.log + t.events), t.events, u, next, loop, depth);
  }

  /** A trace that stays inside does not depend on what surrounds its code. */
  lemma LeadsAnyway(at: Site, from: Conf, t: Trace, next: nat, loop: Loop, next': nat, loop': Loop, depth: nat)
    requires Leads(at, from, t, next, loop, depth) && (t.end.Returned? || t.end.Cut? || t.end.Deep?)
    ensures Leads(at, from, t, next', loop', depth)
  {
  }

  // ---------------------------------------------------------------- single instructions

  lemma StandsOn(at: Site, pc: nat, outcomes: seq<bool>, log: seq<Event>)
    requires pc < |Text(at)|
    ensures var k := On(at, pc, outcomes, log);
            && Stands(at.code, k) && InstrAt(at.code, k) == Text(at)[pc].instr
            && forall to :: GoTo(k, to) == On(at, to, outcomes, log)
  {
    var k := On(at, pc, outcomes, log);
    assert k.spots[..|k.spots| - 1] == at.base;
  }

  /** An instruction after which control goes on to the next one. */
  predicate IsPlain(i: Instr) {
    !i.Branch? && !i.Jump? && !i.Ret? && !i.Halt? && !i.Invoke?
  }

  lemma PlainMoves(at: Site, pc: nat, outcomes: seq<bool>, log: seq<Event>)
    requires pc < |Text(at)| && IsPlain(Text(at)[pc].instr)
    ensures Gets(at.code, On(at, pc, outcomes, log), On(at, pc + 1, outcomes, log + EventOf(Text(at)[pc].instr)))
  {
    StandsOn(at, pc, outcomes, log);
    GetsOne(at.code, On(at, pc, outcomes, log));
    hide Gets;
  }

  lemma JumpMoves(at: Site, pc: nat, to: nat, outcomes: seq<bool>, log: seq<Event>)
    requires pc < |Text(at)| && Text(at)[pc].instr == Jump(to)
    ensures Gets(at.code, On(at, pc, outcomes, log), On(at, to, outcomes, log))
  {
    StandsOn(at, pc, outcomes, log);
    GetsOne(at.code, On(at, pc, outcomes, log));
    hide Gets;
  }

  lemma BranchMoves(at: Site, pc: nat, yes: nat, no: nat, outcomes: seq<bool>, log: seq<Event>)
    requires pc < |Text(at)| && Text(at)[pc].instr == Branch(yes, no)
    ensures outcomes != [] ==>
              Gets(at.code, On(at, pc, outcomes, log), On(at, if outcomes[0] then yes else no, outcomes[1..], log))
    ensures outcomes == [] ==> Waits(at.code, On(at, pc, outcomes, log))
  {
    StandsOn(at, pc, outcomes, log);
    GetsOne(at.code, On(at, pc, outcomes, log));
    hide Gets;
  }

  lemma RetMoves(at: Site, pc: nat, outcomes: seq<bool>, log: seq<Event>)
    requires pc < |Text(at)| && Text(at)[pc].instr == Ret
    ensures Gets(at.code, On(at, pc, outcomes, log), Conf(at.base, outcomes, log))
  {
    StandsOn(at, pc, outcomes, log);
    GetsOne(at.code, On(at, pc, outcomes, log));
    assert (at.base + [Spot(at.fn, pc)])[..|at.base|] == at.base;
    hide Gets;
  }

  lemma InvokeMoves(at: Site, pc: nat, g: nat, outcomes: seq<bool>, log: seq<Event>)
    requires pc < |Text(at)| && Text(at)[pc].instr == Invoke(g + 1)
    ensures var callee := Site(at.code, at.base + [Spot(at.fn, pc + 1)], g + 1);
            Gets(at.code, On(at, pc, outcomes, log), On(callee, 0, outcomes, log + [Calls(g)]))
  {
    StandsOn(at, pc, outcomes, log);
    GetsOne(at.code, On(at, pc, outcomes, log));
    hide Gets;
  }
}
