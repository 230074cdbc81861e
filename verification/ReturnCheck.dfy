/** The syntactic return check against what programs do: a body that passes never falls off its end, and one that
    is refused does so for some outcomes of its tests. */
module ReturnCheck {
  import opened Syntax
  import opened Traces

  // ---------------------------------------------------------------- accepted bodies return

  /** Whatever the outcomes, and whatever its calls do, a body that passes the check does not end normally. */
  lemma {:induction false} PassedReturns(p: Program, b: Block, outcomes: seq<bool>, depth: nat)
    requires BlockGuaranteesReturn(b)
    ensures !BlockTrace(p, b, outcomes, depth).end.Normal?
    decreases b
  {
    hide ExprTrace, StmtTrace;
    var Then(s, rest) := b;
    var t := StmtTrace(p, s, outcomes, depth);
    if GuaranteesReturn(s) {
      PassedStmtReturns(p, s, outcomes, depth);
    } else if t.end.Normal? {
      PassedReturns(p, rest, t.rest, depth);
    }
  }

  lemma {:induction false} PassedStmtReturns(p: Program, s: Stmt, outcomes: seq<bool>, depth: nat)
    requires GuaranteesReturn(s)
    ensures !StmtTrace(p, s, outcomes, depth).end.Normal?
    decreases s
  {
    hide ExprTrace, BlockTrace;
    if s.If? {
      var t := ExprTrace(p, s.cond, outcomes, depth);
      if t.end.Normal? && t.rest != [] {
        PassedReturns(p, if t.rest[0] then s.thn else s.els, t.rest[1..], depth);
      }
    }
  }

  // ---------------------------------------------------------------- refused bodies need not

  lemma {:induction false} PlainExpr(p: Program, e: Expr, outcomes: seq<bool>)
    requires CallsExist(e, 0)
    ensures var t := ExprTrace(p, e, outcomes, 0); t.end.Normal? && t.rest == outcomes
    decreases |e|
  {
    if e != [] {
      assert e[0] in e;
      PlainExpr(p, e[1..], outcomes);
    }
  }

  /** Outcomes that lead past a refused statement: through a branch that need not return, around every loop. */
  function Escape(s: Stmt): seq<bool> {
    match s
    case If(_, thn, hasElse, els) =>
      if !BlockGuaranteesReturn(thn) then [true] + BlockEscape(thn)
      else if hasElse then [false] + BlockEscape(els)
      else [false]
    case While(_, _) => [false]
    case ForIn(_, _, _, _) => [false]
    case _ => []
  }

  function BlockEscape(b: Block): seq<bool> {
    match b
    case Done => []
    case Then(s, rest) => Escape(s) + if Leaves(s) then [] else BlockEscape(rest)
  }

  /** On this way the statement ends in `break` or `continue`. */
  predicate Leaves(s: Stmt) {
    match s
    case Break => true
    case Continue => true
    case If(_, thn, hasElse, els) =>
      if !BlockGuaranteesReturn(thn) then BlockLeaves(thn) else hasElse && BlockLeaves(els)
    case _ => false
  }

  predicate BlockLeaves(b: Block) {
    match b
    case Done => false
    case Then(s, rest) => Leaves(s) || BlockLeaves(rest)
  }

  predicate Survives(t: Trace, leaves: bool, more: seq<bool>) {
    (if leaves then t.end.Broke? || t.end.Continued? else t.end.Normal?) && t.rest == more
  }

  lemma {:induction false} StmtSurvives(p: Program, s: Stmt, inFn: bool, inLoop: bool, more: seq<bool>)
    requires StmtBuilds(s, inFn, inLoop, 0) && !GuaranteesReturn(s)
    ensures Survives(StmtTrace(p, s, Escape(s) + more, 0), Leaves(s), more)
    ensures Leaves(s) ==> inLoop
    decreases s
  {
    hide BlockTrace, ExprTrace, CallsExist;
    var choices := Escape(s) + more;
    match s
    case VarDecl(_, _, e) => PlainExpr(p, e, choices); assert choices == more;
    case Assign(_, _, e) => PlainExpr(p, e, choices); assert choices == more;
    case Eval(e) => PlainExpr(p, e, choices); assert choices == more;
    case If(c, thn, hasElse, els) =>
      PlainExpr(p, c, choices);
      if !BlockGuaranteesReturn(thn) {
        BlockSurvives(p, thn, inFn, inLoop, more);
        assert choices[1..] == BlockEscape(thn) + more;
      } else if hasElse {
        BlockSurvives(p, els, inFn, inLoop, more);
        assert choices[1..] == BlockEscape(els) + more;
      } else {
        assert choices[1..] == more;
      }
    case While(c, _) => PlainExpr(p, c, choices); assert choices[1..] == more;
    case ForIn(x, e, isDict, body) => PlainExpr(p, e, choices); assert choices[1..] == more;
    case Break => assert choices == more;
    case Continue => assert choices == more;
    case _ =>
  }

  lemma {:induction false} BlockSurvives(p: Program, b: Block, inFn: bool, inLoop: bool, more: seq<bool>)
    requires BlockBuilds(b, inFn, inLoop, 0) && !BlockGuaranteesReturn(b)
    ensures Survives(BlockTrace(p, b, BlockEscape(b) + more, 0), BlockLeaves(b), more)
    ensures BlockLeaves(b) ==> inLoop
    decreases b
  {
    hide StmtTrace, StmtBuilds, GuaranteesReturn, Escape, Leaves;
    match b
    case Done => assert [] + more == more;
    case Then(s, rest) =>
      BlockSurvives(p, rest, inFn, inLoop, more);
      var after := if Leaves(s) then [] else BlockEscape(rest);
      StmtSurvives(p, s, inFn, inLoop, after + more);
      assert Escape(s) + (after + more) == BlockEscape(b) + more;
      assert [] + more == more;
  }

  /** For function bodies without calls the check is exact: it refuses just those that fall off their end under
      some outcomes. (A call may keep a refused body from its end by never returning.) */
  lemma {:induction false} CheckIsExact(p: Program, b: Block)
    requires BlockBuilds(b, true, false, 0)
    ensures BlockGuaranteesReturn(b) <==>
              forall outcomes, depth: nat :: !BlockTrace(p, b, outcomes, depth).end.Normal?
  {
    hide BlockTrace, BlockGuaranteesReturn, BlockBuilds;
    if BlockGuaranteesReturn(b) {
      forall outcomes, depth: nat ensures !BlockTrace(p, b, outcomes, depth).end.Normal? {
        PassedReturns(p, b, outcomes, depth);
      }
    } else {
      BlockSurvives(p, b, true, false, []);
      assert BlockTrace(p, b, BlockEscape(b) + [], 0).end.Normal?;
    }
  }
}
