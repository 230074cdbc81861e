/** What the semantic pass accepts, said of the program text alone: names are declared before they are used, once
    in a block, and constants are not assigned. */
module Acceptance {
  import opened Syntax
  import opened Codegen
  import opened Analyser

  // ---------------------------------------------------------------- the rules

  /** The names in sight, and whether each is a constant. Inner declarations hide outer ones. */
  type Sight = map<string, bool>

  predicate UsesInSight(e: Expr, sight: Sight) {
    forall a :: a in e && a.Use? ==> a.name in sight
  }

  /** What the statement declares in the block it stands in. */
  function Seen(s: Stmt, sight: Sight): Sight {
    if s.VarDecl? then sight[s.name := s.isConst] else sight
  }

  /** Every use is in sight, and every assignment is to something in sight that is no constant. */
  predicate Resolved(s: Stmt, sight: Sight) {
    match s
    case VarDecl(_, _, e) => UsesInSight(e, sight)
    case Assign(x, _, e) => x in sight && !sight[x] && UsesInSight(e, sight)
    case Eval(e) => UsesInSight(e, sight)
    case If(c, thn, hasElse, els) =>
      UsesInSight(c, sight) && BlockResolved(thn, sight) && (hasElse ==> BlockResolved(els, sight))
    case While(c, body) => UsesInSight(c, sight) && BlockResolved(body, sight)
    case ForIn(x, e, _, body) => UsesInSight(e, sight) && BlockResolved(body, sight[x := false])
    case Break => true
    case Continue => true
    case Return(e) => UsesInSight(e, sight)
  }

  predicate BlockResolved(b: Block, sight: Sight) {
    match b
    case Done => true
    case Then(s, rest) => Resolved(s, sight) && BlockResolved(rest, Seen(s, sight))
  }

  /** The names that a block declares itself, nested blocks left out. */
  function Declared(b: Block): seq<string> {
    match b
    case Done => []
    case Then(s, rest) => (if s.VarDecl? then [s.name] else []) + Declared(rest)
  }

  predicate Distinct(xs: seq<string>) { forall i, j :: 0 <= i < j < |xs| ==> xs[i] != xs[j] }

  /** No block declares a name twice; the variable of a `for-in` belongs to its body. */
  predicate NoneTwice(b: Block)
    decreases b, 1
  {
    Distinct(Declared(b)) && InnerNoneTwice(b)
  }

  predicate InnerNoneTwice(b: Block)
    decreases b, 0
  {
    match b
    case Done => true
    case Then(s, rest) => StmtNoneTwice(s) && InnerNoneTwice(rest)
  }

  predicate StmtNoneTwice(s: Stmt)
    decreases s, 0
  {
    match s
    case If(_, thn, hasElse, els) => NoneTwice(thn) && (hasElse ==> NoneTwice(els))
    case While(_, body) => NoneTwice(body)
    case ForIn(x, _, _, body) => NoneTwice(body) && x !in Declared(body)
    case _ => true
  }

  // ---------------------------------------------------------------- the list and the names in sight

  /** The list finds exactly the names in sight, with their constness. */
  ghost predicate Shows(view: View, depth: nat, sight: Sight) {
    && (forall i :: 0 <= i < |view| ==> view[i].depth <= depth)
    && forall x :: match FindVar(view, depth, x)
                   case None => x !in sight
                   case Some(v) => x in sight && sight[x] == v.isConst
  }

  /** The names declared at this depth so far. */
  ghost predicate Has(view: View, depth: nat, own: set<string>) {
    forall x :: DeclaredAt(view, depth, x) <==> x in own
  }

  lemma UsesAgree(e: Expr, view: View, depth: nat, sight: Sight)
    requires Shows(view, depth, sight)
    ensures AnalyseExpr(e, view, depth) <==> UsesInSight(e, sight)
  {
    hide FindVar;
    forall a | a in e && a.Use? ensures FindVar(view, depth, a.name).Some? <==> a.name in sight { }
  }

  lemma DeclaredShows(view: View, depth: nat, sight: Sight, own: set<string>, v: StaticVar)
    requires Shows(view, depth, sight) && Has(view, depth, own) && v.depth == depth
    ensures Shows([v] + view, depth, sight[v.name := v.isConst]) && Has([v] + view, depth, own + {v.name})
  {
    var now := [v] + view;
    assert now[1..] == view;
    forall x ensures DeclaredAt(now, depth, x) <==> x in own + {v.name} {
      if DeclaredAt(view, depth, x) {
        var i :| 0 <= i < |view| && view[i].depth == depth && view[i].name == x;
        assert now[i + 1] == view[i];
      }
      if x == v.name { assert now[0].name == x; }
    }
  }

  lemma {:induction false} DeeperFinds(view: View, depth: nat, x: string)
    requires forall i :: 0 <= i < |view| ==> view[i].depth <= depth
    ensures FindVar(view, depth + 1, x) == FindVar(view, depth, x)
    decreases |view|
  {
    if view != [] { DeeperFinds(view[1..], depth, x); }
  }

  lemma DeeperShows(view: View, depth: nat, sight: Sight)
    requires Shows(view, depth, sight)
    ensures Shows(view, depth + 1, sight) && Has(view, depth + 1, {})
  {
    hide FindVar;
    forall x ensures FindVar(view, depth + 1, x) == FindVar(view, depth, x) { DeeperFinds(view, depth, x); }
  }

  // ---------------------------------------------------------------- what analysing leaves behind

  lemma {:induction false} StmtExtends(s: Stmt, pc: nat, view: View, depth: nat)
    requires (forall i :: 0 <= i < |view| ==> view[i].depth <= depth) && AnalyseStmt(s, pc, view, depth).Some?
    ensures var now := AnalyseStmt(s, pc, view, depth).value;
            && Extends(now, view, depth) && (forall i :: 0 <= i < |now| ==> now[i].depth <= depth)
            && now == if s.VarDecl? then [StaticVar(s.name, s.isConst, depth, pc + |s.init|)] + view else view
    decreases s, 0
  {
    hide AnalyseArm, AnalyseExpr, DeclaredAt, ArmSize, FindVar;
    match s
    case If(c, thn, hasElse, els) =>
      ArmRestores(thn, pc + |c| + 2, view, view, depth);
      if hasElse { ArmRestores(els, pc + |c| + 2 + ArmSize(thn, false), view, view, depth); }
    case While(c, body) => ArmRestores(body, pc + |c| + 2, view, view, depth);
    case ForIn(x, e, isDict, body) =>
      var now := [StaticVar(x, false, depth + 1, pc)] + view;
      assert now[1..] == view;
      ArmRestores(body, pc + HeadSize(e, isDict) + 2, now, view, depth);
    case _ =>
  }

  lemma {:induction false} ArmRestores(b: Block, pc: nat, view: View, was: View, depth: nat)
    requires (forall i :: 0 <= i < |was| ==> was[i].depth <= depth) && Extends(view, was, depth + 1)
    requires (forall i :: 0 <= i < |view| ==> view[i].depth <= depth + 1) && AnalyseArm(b, pc, view, depth).Some?
    ensures AnalyseArm(b, pc, view, depth) == Some(was)
    decreases b, 1
  {
    hide AnalyseBlock;
    BlockExtends(b, pc, view, depth + 1);
    var now := AnalyseBlock(b, pc, view, depth + 1).value;
    ExtendsTrans(now, view, was, depth + 1);
    LeaveRestores(now, was, depth + 1);
  }

  lemma {:induction false} BlockExtends(b: Block, pc: nat, view: View, depth: nat)
    requires (forall i :: 0 <= i < |view| ==> view[i].depth <= depth) && AnalyseBlock(b, pc, view, depth).Some?
    ensures Extends(AnalyseBlock(b, pc, view, depth).value, view, depth)
    decreases b, 0
  {
    hide AnalyseStmt, Size;
    match b
    case Done =>
    case Then(s, rest) =>
      StmtExtends(s, pc, view, depth);
      var now := AnalyseStmt(s, pc, view, depth).value;
      BlockExtends(rest, pc + Size(s, false), now, depth);
      ExtendsTrans(AnalyseBlock(b, pc, view, depth).value, now, view, depth);
  }

  // ---------------------------------------------------------------- acceptance, exactly

  /** What a block may still declare: nothing twice, and nothing of what is there already. */
  predicate Fresh(b: Block, own: set<string>) {
    && Distinct(Declared(b)) && InnerNoneTwice(b)
    && forall x :: x in Declared(b) ==> x !in own
  }

  lemma {:induction false} ArmIff(b: Block, pc: nat, view: View, depth: nat, sight: Sight, own: set<string>)
    requires Shows(view, depth + 1, sight) && Has(view, depth + 1, own)
    ensures AnalyseArm(b, pc, view, depth).Some? <==> BlockResolved(b, sight) && Fresh(b, own)
    decreases b, 1
  {
    hide AnalyseBlock, BlockResolved, Fresh, Shows, Has, LeaveScope;
    BlockIff(b, pc, view, depth + 1, sight, own);
  }

  lemma {:induction false} StmtIff(s: Stmt, pc: nat, view: View, depth: nat, sight: Sight, own: set<string>)
    requires Shows(view, depth, sight) && Has(view, depth, own)
    ensures AnalyseStmt(s, pc, view, depth).Some? <==>
              Resolved(s, sight) && StmtNoneTwice(s) && (s.VarDecl? ==> s.name !in own)
    decreases s, 0
  {
    hide AnalyseArm, AnalyseExpr, DeclaredAt, BlockResolved, UsesInSight, FindVar, ArmSize, Distinct, InnerNoneTwice,
         Declared;
    if s.If? {
      UsesAgree(s.cond, view, depth, sight);
      DeeperShows(view, depth, sight);
      ArmIff(s.thn, pc + |s.cond| + 2, view, depth, sight, {});
      if AnalyseArm(s.thn, pc + |s.cond| + 2, view, depth).Some? {
        SelfExtends(view, depth);
        ArmRestores(s.thn, pc + |s.cond| + 2, view, view, depth);
      }
      if s.hasElse { ArmIff(s.els, pc + |s.cond| + 2 + ArmSize(s.thn, false), view, depth, sight, {}); }
    } else if s.While? {
      UsesAgree(s.cond, view, depth, sight);
      DeeperShows(view, depth, sight);
      ArmIff(s.body, pc + |s.cond| + 2, view, depth, sight, {});
    } else if s.ForIn? {
      UsesAgree(s.iterable, view, depth, sight);
      DeeperShows(view, depth, sight);
      var v := StaticVar(s.name, false, depth + 1, pc);
      DeclaredShows(view, depth + 1, sight, {}, v);
      ArmIff(s.body, pc + HeadSize(s.iterable, s.isDict) + 2, [v] + view, depth, sight[s.name := false], {} + {s.name});
    } else if s.VarDecl? {
      UsesAgree(s.init, view, depth, sight);
    } else if s.Assign? {
      UsesAgree(s.value, view, depth, sight);
    } else if s.Eval? {
      UsesAgree(s.expr, view, depth, sight);
    } else if s.Return? {
      UsesAgree(s.value, view, depth, sight);
    }
  }

  lemma SelfExtends(view: View, depth: nat)
    ensures Extends(view, view, depth + 1)
  {
  }

  lemma {:induction false} BlockIff(b: Block, pc: nat, view: View, depth: nat, sight: Sight, own: set<string>)
    requires Shows(view, depth, sight) && Has(view, depth, own)
    ensures AnalyseBlock(b, pc, view, depth).Some? <==> BlockResolved(b, sight) && Fresh(b, own)
    decreases b, 0
  {
    hide AnalyseStmt, Resolved, StmtNoneTwice, Size, Shows, Has, DeclaredAt;
    match b
    case Done =>
    case Then(s, rest) =>
      StmtIff(s, pc, view, depth, sight, own);
      FreshRest(s, rest, own);
      if AnalyseStmt(s, pc, view, depth).Some? {
        ShowsNext(s, pc, view, depth, sight, own);
        var now := AnalyseStmt(s, pc, view, depth).value;
        BlockIff(rest, pc + Size(s, false), now, depth, Seen(s, sight), if s.VarDecl? then own + {s.name} else own);
      }
  }

  lemma ShowsNext(s: Stmt, pc: nat, view: View, depth: nat, sight: Sight, own: set<string>)
    requires Shows(view, depth, sight) && Has(view, depth, own) && AnalyseStmt(s, pc, view, depth).Some?
    ensures var now := AnalyseStmt(s, pc, view, depth).value;
            Shows(now, depth, Seen(s, sight)) && Has(now, depth, if s.VarDecl? then own + {s.name} else own)
  {
    hide AnalyseStmt, FindVar, DeclaredAt;
    StmtExtends(s, pc, view, depth);
    if s.VarDecl? { DeclaredShows(view, depth, sight, own, StaticVar(s.name, s.isConst, depth, pc + |s.init|)); }
  }

  lemma FreshRest(s: Stmt, rest: Block, own: set<string>)
    ensures Fresh(Then(s, rest), own) <==>
              && StmtNoneTwice(s) && (s.VarDecl? ==> s.name !in own)
              && Fresh(rest, if s.VarDecl? then own + {s.name} else own)
  {
    hide StmtNoneTwice;
    var all, more := Declared(Then(s, rest)), Declared(rest);
    if s.VarDecl? {
      assert all == [s.name] + more;
      assert forall i :: 0 < i < |all| ==> all[i] == more[i - 1];
      if Distinct(all) {
        forall i, j | 0 <= i < j < |more| ensures more[i] != more[j] { assert all[i + 1] != all[j + 1]; }
        forall x | x in more ensures x != s.name {
          var i :| 0 <= i < |more| && more[i] == x;
          assert all[0] != all[i + 1];
        }
      }
    } else {
      assert all == more;
    }
  }

  /** The pass accepts a program exactly if every use is in sight, every assignment is to a variable in sight,
      and no block declares a name twice. */
  lemma {:induction false} AcceptedIff(b: Block)
    ensures AnalyseBlock(b, 0, [], 0).Some? <==> BlockResolved(b, map[]) && NoneTwice(b)
  {
    hide AnalyseBlock, BlockResolved, InnerNoneTwice, Distinct, Declared;
    assert Shows([], 0, map[]) && Has([], 0, {});
    BlockIff(b, 0, [], 0, map[], {});
  }
}
