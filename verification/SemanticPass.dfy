/** The semantic pass in its own form: a scope depth and one list of variables, both changed as the
    statements are visited, tied to the functions of module Analyser; `finds` records what its searches
    for the variables of the program find (module Lookups). */
module SemanticPass {
  import opened Syntax
  import opened Codegen
  import opened Analyser
  import opened Lookups

  lemma {:induction false} FindStep(view: View, i: nat, depth: nat, name: string)
    requires i < |view|
    ensures FindVar(view[i..], depth, name) ==
            if view[i].name == name && view[i].depth <= depth then Some(view[i])
                else FindVar(view[i + 1..], depth, name)
    ensures LeaveScope(view[i..], depth) ==
            (if view[i].depth >= depth then [] else [view[i]]) + LeaveScope(view[i + 1..], depth)
  {
    assert view[i..][0] == view[i] && view[i..][1..] == view[i + 1..];
  }

  lemma NothingLeft(depth: nat)
    ensures LeaveScope([], depth) == []
  {
  }

  class Pass {
    var depth: nat
    var vars: View
    ghost var finds: set<Found>

    constructor ()
      ensures depth == 0 && vars == [] && finds == {}
    {
      depth, vars, finds := 0, [], {};
    }

    method EnterScope()
      modifies `depth
      ensures depth == old(depth) + 1
    {
      depth := depth + 1;
    }

    /** Unlinks every variable declared at the current depth or deeper. */
    method LeaveScopes()
      modifies `depth, `vars
      ensures vars == LeaveScope(old(vars), old(depth))
      ensures depth == if old(depth) > 0 then old(depth) - 1 else 0
    {
      hide LeaveScope;
      var i: nat := 0;
      while i < |vars|
        invariant i <= |vars| && depth == old(depth)
        invariant vars[..i] + LeaveScope(vars[i..], depth) == LeaveScope(old(vars), depth)
        decreases |vars| - i
      {
        i := UnlinkOrPass(i);
      }
      assert vars[..i] == vars && vars[i..] == [];
      NothingLeft(depth);
      if depth > 0 {
        depth := depth - 1;
      }
    }

    method UnlinkOrPass(i: nat) returns (i': nat)
      requires i < |vars|
      modifies `vars
      ensures i' <= |vars| && |vars| - i' < old(|vars|) - i
      ensures vars[..i'] + LeaveScope(vars[i'..], depth) == old(vars[..i]) + LeaveScope(old(vars[i..]), depth)
    {
      hide LeaveScope;
      FindStep(vars, i, depth, "");
      if vars[i].depth >= depth {
        ghost var was := vars;
        vars := vars[..i] + vars[i + 1..];
        assert vars[..i] == was[..i] && vars[i..] == was[i + 1..];
        i' := i;
      } else {
        assert vars[..i] + [vars[i]] == vars[..i + 1];
        i' := i + 1;
      }
    }

    method Declare(name: string, isConst: bool, site: nat) returns (ok: bool)
      modifies `vars
      ensures ok <==> DeclareVar(old(vars), depth, name, isConst, site).Some?
      ensures if ok then Some(vars) == DeclareVar(old(vars), depth, name, isConst, site) else vars == old(vars)
    {
      var i := 0;
      while i < |vars|
        invariant i <= |vars|
        invariant forall j :: 0 <= j < i ==> !(vars[j].depth == depth && vars[j].name == name)
      {
        if vars[i].depth == depth && vars[i].name == name {
          return false;
        }
        i := i + 1;
      }
      vars := [StaticVar(name, isConst, depth, site)] + vars;
      return true;
    }

    method FindInScope(name: string) returns (v: Option<StaticVar>)
      ensures v == FindVar(vars, depth, name)
    {
      var i := 0;
      while i < |vars|
        invariant i <= |vars| && FindVar(vars[i..], depth, name) == FindVar(vars, depth, name)
      {
        FindStep(vars, i, depth, name);
        if vars[i].name == name && vars[i].depth <= depth {
          return Some(vars[i]);
        }
        i := i + 1;
      }
      return None;
    }

    /** The search for a variable that the access at `pc` names. */
    method Search(name: string, ghost pc: nat) returns (v: Option<StaticVar>)
      modifies `finds
      ensures v == FindVar(vars, depth, name)
      ensures finds == old(finds) + FindAt(name, pc, vars, depth)
    {
      v := FindInScope(name);
      finds := finds + FindAt(name, pc, vars, depth);
    }

    method AnalyzeExpr(e: Expr, ghost pc: nat) returns (ok: bool)
      modifies `finds
      ensures ok <==> AnalyseExpr(e, vars, depth)
      ensures ok ==> finds == old(finds) + ExprFinds(e, pc, vars, depth)
    {
      hide FindAt;
      var i := 0;
      while i < |e|
        invariant i <= |e| && vars == old(vars) && depth == old(depth)
        invariant forall j :: 0 <= j < i && e[j].Use? ==> FindVar(vars, depth, e[j].name).Some?
        invariant finds + ExprFinds(e[i..], pc + i, vars, depth) == old(finds) + ExprFinds(e, pc, vars, depth)
      {
        assert e[i..][0] == e[i] && e[i..][1..] == e[i + 1..];
        if e[i].Use? {
          var v := Search(e[i].name, pc + i);
          if v.None? {
            assert e[i] in e;
            return false;
          }
        }
        i := i + 1;
      }
      return true;
    }

    /** The list and the depth have become what `r` says and the searches so far found `fs`, or there
        is an error. */
    ghost predicate Became(ok: bool, r: Option<View>, d: nat, fs: set<Found>)
      reads this
    {
      (ok <==> r.Some?) && (ok ==> vars == r.value && depth == d && finds == fs)
    }

    method AnalyzeStmt(s: Stmt, pc: nat) returns (ok: bool)
      modifies this
      ensures Became(ok, AnalyseStmt(s, pc, old(vars), old(depth)), old(depth),
                     old(finds) + StmtFinds(s, pc, old(vars), old(depth)))
      decreases s, 1
    {
      hide AnalyseStmt, StmtFinds, Became;
      match s
      case VarDecl(_, _, _) => ok := AnalyzeDecl(s, pc);
      case Assign(_, _, _) => ok := AnalyzeAssign(s, pc);
      case If(_, _, _, _) => ok := AnalyzeIf(s, pc);
      case While(_, _) => ok := AnalyzeLoop(s, pc);
      case ForIn(_, _, _, _) => ok := AnalyzeLoop(s, pc);
      case _ => ok := AnalyzeOther(s, pc);
    }

    method AnalyzeDecl(s: Stmt, pc: nat) returns (ok: bool)
      requires s.VarDecl?
      modifies this
      ensures Became(ok, AnalyseStmt(s, pc, old(vars), old(depth)), old(depth),
                     old(finds) + StmtFinds(s, pc, old(vars), old(depth)))
    {
      hide AnalyseExpr, DeclareVar, ExprFinds;
      ok := AnalyzeExpr(s.init, pc);
      if ok { ok := Declare(s.name, s.isConst, pc + |s.init|); }
    }

    /** The variable is searched for once; the store, and the load of a compound assignment, are accesses to
        what that search finds. */
    method AnalyzeAssign(s: Stmt, pc: nat) returns (ok: bool)
      requires s.Assign?
      modifies this
      ensures Became(ok, AnalyseStmt(s, pc, old(vars), old(depth)), old(depth),
                     old(finds) + StmtFinds(s, pc, old(vars), old(depth)))
    {
      hide AnalyseExpr, FindVar, ExprFinds;
      ghost var value := pc + if s.compound then 1 else 0;
      var v := Search(s.name, value + |s.value|);
      if v.None? || v.value.isConst {
        return false;
      }
      if s.compound { finds := finds + FindAt(s.name, pc, vars, depth); }
      ok := AnalyzeExpr(s.value, value);
    }

    method AnalyzeOther(s: Stmt, pc: nat) returns (ok: bool)
      requires s.Eval? || s.Return? || s.Break? || s.Continue?
      modifies this
      ensures Became(ok, AnalyseStmt(s, pc, old(vars), old(depth)), old(depth),
                     old(finds) + StmtFinds(s, pc, old(vars), old(depth)))
    {
      hide AnalyseExpr, ExprFinds;
      ok := true;
      if s.Eval? { ok := AnalyzeExpr(s.expr, pc); }
      if s.Return? { ok := AnalyzeExpr(s.value, pc); }
    }

    method AnalyzeIf(s: Stmt, pc: nat) returns (ok: bool)
      requires s.If?
      modifies this
      ensures Became(ok, AnalyseStmt(s, pc, old(vars), old(depth)), old(depth),
                     old(finds) + StmtFinds(s, pc, old(vars), old(depth)))
      decreases s, 0
    {
      hide AnalyseArm, AnalyseExpr, ArmSize, ArmFinds, ExprFinds;
      ok := AnalyzeExpr(s.cond, pc);
      if !ok { return; }
      ok := AnalyzeArm(s.thn, pc + |s.cond| + 2);
      if ok && s.hasElse { ok := AnalyzeArm(s.els, pc + |s.cond| + 2 + ArmSize(s.thn, false)); }
    }

    method AnalyzeLoop(s: Stmt, pc: nat) returns (ok: bool)
      requires s.While? || s.ForIn?
      modifies this
      ensures Became(ok, AnalyseStmt(s, pc, old(vars), old(depth)), old(depth),
                     old(finds) + StmtFinds(s, pc, old(vars), old(depth)))
      decreases s, 0
    {
      hide AnalyseArm, AnalyseExpr, DeclareVar, ArmFinds, ExprFinds;
      if s.While? {
        ok := AnalyzeExpr(s.cond, pc);
        if ok { ok := AnalyzeArm(s.body, pc + |s.cond| + 2); }
      } else {
        ok := AnalyzeExpr(s.iterable, pc + 1);
        if ok { ok := AnalyzeForIn(s.name, s.body, pc, pc + HeadSize(s.iterable, s.isDict) + 2); }
      }
    }

    /** A branch or a loop body, in a scope of its own. */
    method AnalyzeArm(b: Block, pc: nat) returns (ok: bool)
      modifies this
      ensures Became(ok, AnalyseArm(b, pc, old(vars), old(depth)), old(depth),
                     old(finds) + ArmFinds(b, pc, old(vars), old(depth)))
      decreases b, 1
    {
      hide AnalyseBlock, LeaveScope, BlockFinds;
      EnterScope();
      ok := AnalyzeBlock(b, pc);
      if ok { LeaveScopes(); }
    }

    /** The loop variable is declared in the scope of the body. */
    method AnalyzeForIn(x: string, b: Block, site: nat, pc: nat) returns (ok: bool)
      modifies this
      ensures var v := DeclareVar(old(vars), old(depth) + 1, x, false, site);
              Became(ok, if v.None? then None else AnalyseArm(b, pc, v.value, old(depth)), old(depth),
                     old(finds) + if v.None? then {} else ArmFinds(b, pc, v.value, old(depth)))
      decreases b, 1
    {
      hide AnalyseBlock, LeaveScope, DeclaredAt, BlockFinds;
      EnterScope();
      ok := Declare(x, false, site);
      if ok {
        ok := AnalyzeBlock(b, pc);
        if ok { LeaveScopes(); }
      }
    }

    method AnalyzeBlock(b: Block, pc: nat) returns (ok: bool)
      modifies this
      ensures Became(ok, AnalyseBlock(b, pc, old(vars), old(depth)), old(depth),
                     old(finds) + BlockFinds(b, pc, old(vars), old(depth)))
      decreases b, 0
    {
      hide AnalyseStmt, Size, StmtFinds;
      var cur, at: nat := b, pc;
      while cur.Then?
        invariant cur == b || cur < b
        invariant depth == old(depth) && AnalyseBlock(cur, at, vars, depth)
                  == AnalyseBlock(b, pc, old(vars), old(depth))
        invariant finds + BlockFinds(cur, at, vars, depth) == old(finds) + BlockFinds(b, pc, old(vars), old(depth))
        decreases cur
      {
        ok := AnalyzeStmt(cur.first, at);
        if !ok { return; }
        cur, at := cur.rest, at + Size(cur.first, false);
      }
      ok := true;
    }
  }
}
