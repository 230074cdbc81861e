/** What a program does, told from its text: the accesses it makes, in order, for given outcomes of its tests. */
module Traces {
  import opened Syntax

  /** An access: a variable read, written or declared, or a function called. */
  datatype Event = Reads(name: string) | Writes(name: string) | Declares(name: string) | Calls(func: nat)

  /** How the execution of a statement ends. `Cut`: a test found no outcome left. `Deep`: a call was nested
      deeper than the given bound. */
  datatype End = Normal | Broke | Continued | Returned | Cut | Deep

  /** rest: the outcomes that were not used. */
  datatype Trace = Trace(events: seq<Event>, end: End, rest: seq<bool>)

  function Before(first: seq<Event>, t: Trace): Trace { t.(events := first + t.events) }

  /** The accesses of an expression in evaluation order; a call runs the body of its function. */
  function ExprTrace(p: Program, e: Expr, outcomes: seq<bool>, depth: nat): (t: Trace)
    ensures |t.rest| <= |outcomes| && (t.end.Normal? || t.end.Cut? || t.end.Deep?)
    decreases 3 * depth, |e|
  {
    if e == [] then Trace([], Normal, outcomes)
    else
      match e[0]
      case Use(x) => Before([Reads(x)], ExprTrace(p, e[1..], outcomes, depth))
      case Call(f) =>
        if depth == 0 || f >= |p.funcs| then Trace([Calls(f)], Deep, outcomes)
        else
          var t := Before([Calls(f)], CallTrace(p, f, outcomes, depth - 1));
          if t.end.Returned? then Before(t.events, ExprTrace(p, e[1..], t.rest, depth)) else t
  }

  /** A call declares the parameters and runs the body; at its end it returns as well. */
  function CallTrace(p: Program, f: nat, outcomes: seq<bool>, depth: nat): (t: Trace)
    requires f < |p.funcs|
    ensures |t.rest| <= |outcomes| && (t.end.Returned? || t.end.Cut? || t.end.Deep?)
    decreases 3 * depth + 2
  {
    var t := Before(Parameters(p.funcs[f].params), BlockTrace(p, p.funcs[f].body, outcomes, depth));
    if t.end.Cut? || t.end.Deep? then t else t.(end := Returned)
  }

  function Parameters(names: seq<string>): (events: seq<Event>)
    ensures |events| == |names|
  {
    seq(|names|, i requires 0 <= i < |names| => Declares(names[i]))
  }

  /** A taken `if` runs its first branch and an untaken one its second, if there is one. A `while` tests again
      after its body and after `continue`; `break` leaves the innermost loop. */
  function StmtTrace(p: Program, s: Stmt, outcomes: seq<bool>, depth: nat): (t: Trace)
    ensures |t.rest| <= |outcomes|
    decreases 3 * depth + 1, |outcomes|, s, 1
  {
    match s
    case VarDecl(x, _, e) => Afterwards(ExprTrace(p, e, outcomes, depth), Declares(x))
    case Assign(x, compound, e) =>
      Before(if compound then [Reads(x)] else [], Afterwards(ExprTrace(p, e, outcomes, depth), Writes(x)))
    case Eval(e) => ExprTrace(p, e, outcomes, depth)
    case Return(e) =>
      var t := ExprTrace(p, e, outcomes, depth);
      if t.end.Normal? then t.(end := Returned) else t
    case Break => Trace([], Broke, outcomes)
    case Continue => Trace([], Continued, outcomes)
    case If(c, thn, hasElse, els) =>
      var t := ExprTrace(p, c, outcomes, depth);
      if !t.end.Normal? then t
      else if t.rest == [] then t.(end := Cut)
      else if t.rest[0] then Before(t.events, BlockTrace(p, thn, t.rest[1..], depth))
      else if hasElse then Before(t.events, BlockTrace(p, els, t.rest[1..], depth))
      else t.(rest := t.rest[1..])
    case While(c, body) =>
      var t := ExprTrace(p, c, outcomes, depth);
      if !t.end.Normal? then t
      else if t.rest == [] then t.(end := Cut)
      else if !t.rest[0] then t.(rest := t.rest[1..])
      else
        var b := Before(t.events, BlockTrace(p, body, t.rest[1..], depth));
        if b.end.Normal? || b.end.Continued? then Before(b.events, StmtTrace(p, s, b.rest, depth))
        else if b.end.Broke? then b.(end := Normal)
        else b
    case ForIn(x, e, isDict, body) =>
      var t := ExprTrace(p, e, outcomes, depth);
      if !t.end.Normal? then t
      else Before(t.events, EnterForIn(p, x, isDict, body, t.rest, depth))
  }

  /** An event after what ends normally. */
  function Afterwards(t: Trace, last: Event): Trace {
    if t.end.Normal? then t.(events := t.events + [last]) else t
  }

  /** Before the first round of a `for-in`: the keys of a dictionary are extracted, which may fail, and nothing
      happens for an empty iterable; otherwise the loop variable is declared. */
  function EnterForIn(p: Program, x: string, isDict: bool, body: Block, outcomes: seq<bool>, depth: nat): (t: Trace)
    ensures |t.rest| <= |outcomes|
    decreases 3 * depth + 1, |outcomes|, body, 2
  {
    if outcomes == [] then Trace([], Cut, [])
    else if !outcomes[0] then Trace([], Normal, outcomes[1..])
    else if isDict then EnterForIn(p, x, false, body, outcomes[1..], depth)
    else Before([Declares(x)], Rounds(p, x, body, outcomes[1..], depth))
  }

  /** The rounds of a `for-in`: a test for one more element, its fetch, which may fail, the assignment to the
      loop variable, and the body. */
  function Rounds(p: Program, x: string, body: Block, outcomes: seq<bool>, depth: nat): (t: Trace)
    ensures |t.rest| <= |outcomes|
    decreases 3 * depth + 1, |outcomes|, body, 1
  {
    if outcomes == [] then Trace([], Cut, [])
    else if !outcomes[0] then Trace([], Normal, outcomes[1..])
    else if |outcomes| == 1 then Trace([], Cut, [])
    else if !outcomes[1] then Trace([], Normal, outcomes[2..])
    else
      var b := Before([Writes(x)], BlockTrace(p, body, outcomes[2..], depth));
      if b.end.Normal? || b.end.Continued? then Before(b.events, Rounds(p, x, body, b.rest, depth))
      else if b.end.Broke? then b.(end := Normal)
      else b
  }

  function BlockTrace(p: Program, b: Block, outcomes: seq<bool>, depth: nat): (t: Trace)
    ensures |t.rest| <= |outcomes|
    decreases 3 * depth + 1, |outcomes|, b, 0
  {
    match b
    case Done => Trace([], Normal, outcomes)
    case Then(s, rest) =>
      var t := StmtTrace(p, s, outcomes, depth);
      if t.end.Normal? then Before(t.events, BlockTrace(p, rest, t.rest, depth)) else t
  }

  function ProgramTrace(p: Program, outcomes: seq<bool>, depth: nat): Trace { BlockTrace(p, p.main, outcomes, depth) }
}
