/** The semantic pass over scopes: one list of variables, newest first, each tagged with the depth at
    which it was declared. */
module Analyser {
  import opened Syntax
  import opened Codegen

  type View = seq<StaticVar>

  function FindVar(view: View, depth: nat, name: string): (found: Option<StaticVar>)
    ensures found.Some? ==> found.value.name == name && found.value.depth <= depth && found.value in view
  {
    if view == [] then None
    else if view[0].name == name && view[0].depth <= depth then Some(view[0])
    else FindVar(view[1..], depth, name)
  }

  predicate DeclaredAt(view: View, depth: nat, name: string) {
    exists i :: 0 <= i < |view| && view[i].depth == depth && view[i].name == name
  }

  function DeclareVar(view: View, depth: nat, name: string, isConst: bool, site: nat): Option<View> {
    if DeclaredAt(view, depth, name) then None else Some([StaticVar(name, isConst, depth, site)] + view)
  }

  /** Drops what was declared at `depth` or deeper. */
  function LeaveScope(view: View, depth: nat): View {
    if view == [] then []
    else if view[0].depth >= depth then LeaveScope(view[1..], depth)
    else [view[0]] + LeaveScope(view[1..], depth)
  }

  predicate AnalyseExpr(e: Expr, view: View, depth: nat) {
    forall a :: a in e && a.Use? ==> FindVar(view, depth, a.name).Some?
  }

  function AnalyseArm(b: Block, pc: nat, view: View, depth: nat): Option<View>
    decreases b, 1
  {
    match AnalyseBlock(b, pc, view, depth + 1)
    case None => None
    case Some(v) => Some(LeaveScope(v, depth + 1))
  }

  /** The variable list after the statement, or None when it is rejected. The address `pc` only serves
      to name declarations. */
  function AnalyseStmt(s: Stmt, pc: nat, view: View, depth: nat): Option<View>
    decreases s, 0
  {
    match s
    case VarDecl(x, k, e) => if AnalyseExpr(e, view, depth) then DeclareVar(view, depth, x, k, pc + |e|) else None
    case Assign(x, _, e) =>
      (match FindVar(view, depth, x)
       case None => None
       case Some(v) => if v.isConst || !AnalyseExpr(e, view, depth) then None else Some(view))
    case Eval(e) => if AnalyseExpr(e, view, depth) then Some(view) else None
    case If(c, thn, hasElse, els) =>
      if !AnalyseExpr(c, view, depth) then None
      else (match AnalyseArm(thn, pc + |c| + 2, view, depth)
            case None => None
            case Some(v) =>
              if hasElse then AnalyseArm(els, pc + |c| + 2 + ArmSize(thn, false), v, depth) else Some(v))
    case While(c, body) =>
      if AnalyseExpr(c, view, depth) then AnalyseArm(body, pc + |c| + 2, view, depth) else None
    case ForIn(x, e, isDict, body) =>
      if !AnalyseExpr(e, view, depth) then None
      else (match DeclareVar(view, depth + 1, x, false, pc)
            case None => None
            case Some(v) => AnalyseArm(body, pc + HeadSize(e, isDict) + 2, v, depth))
    case Break => Some(view)
    case Continue => Some(view)
    case Return(e) => if AnalyseExpr(e, view, depth) then Some(view) else None
  }

  function AnalyseBlock(b: Block, pc: nat, view: View, depth: nat): Option<View>
    decreases b, 0
  {
    match b
    case Done => Some(view)
    case Then(s, rest) =>
      match AnalyseStmt(s, pc, view, depth)
      case None => None
      case Some(v) => AnalyseBlock(rest, pc + Size(s, false), v, depth)
  }

  // ---------------------------------------------------------------- what the list looks like

  /** Newest first means deepest first; no name twice at one depth; nothing deeper than `depth`. */
  predicate WellFormed(view: View, depth: nat) {
    && (forall i :: 0 <= i < |view| ==> view[i].depth <= depth && 0 < |view[i].name| < 255)
    && (forall i, j :: 0 <= i < j < |view| ==> view[j].depth <= view[i].depth)
    && (forall i, j :: 0 <= i < j < |view| ==> !(view[i].depth == view[j].depth && view[i].name == view[j].name))
  }

  /** `now` is `was` with newer variables in front, all of them at `depth` or deeper. */
  predicate Extends(now: View, was: View, depth: nat) {
    && |was| <= |now| && now[|now| - |was|..] == was
    && forall i :: 0 <= i < |now| - |was| ==> now[i].depth >= depth
  }

  lemma ExtendsTrans(c: View, b: View, a: View, depth: nat)
    requires Extends(c, b, depth) && Extends(b, a, depth)
    ensures Extends(c, a, depth)
  {
    var n := |c| - |b|;
    assert c[n..] == b;
    assert forall i :: n <= i < |c| ==> c[i] == b[i - n];
    assert c[|c| - |a|..] == b[|b| - |a|..];
  }

  /** Leaving a scope gives back the list as it was on entry. */
  lemma {:induction false} LeaveRestores(now: View, was: View, depth: nat)
    requires Extends(now, was, depth) && forall i :: 0 <= i < |was| ==> was[i].depth < depth
    ensures LeaveScope(now, depth) == was
    decreases |now|
  {
    if |now| == |was| {
      assert now == was;
      LeaveKeeps(was, depth);
    } else {
      assert now[1..][|now[1..]| - |was|..] == now[|now| - |was|..];
      assert Extends(now[1..], was, depth);
      LeaveRestores(now[1..], was, depth);
    }
  }

  lemma {:induction false} LeaveKeeps(view: View, depth: nat)
    requires forall i :: 0 <= i < |view| ==> view[i].depth < depth
    ensures LeaveScope(view, depth) == view
    decreases |view|
  {
    if view != [] { LeaveKeeps(view[1..], depth); }
  }

  // ---------------------------------------------------------------- the pass agrees with code generation

  /** No `for-in`, no `return`, no calls. */
  predicate Simple(s: Stmt) {
    match s
    case VarDecl(_, _, e) => CallsExist(e, 0)
    case Assign(_, _, e) => CallsExist(e, 0)
    case Eval(e) => CallsExist(e, 0)
    case If(e, thn, hasElse, els) => CallsExist(e, 0) && SimpleBlock(thn) && (hasElse ==> SimpleBlock(els))
    case While(e, body) => CallsExist(e, 0) && SimpleBlock(body)
    case Break => true
    case Continue => true
    case _ => false
  }

  predicate SimpleBlock(b: Block) {
    match b
    case Done => true
    case Then(s, rest) => Simple(s) && SimpleBlock(rest)
  }

  lemma {:induction false} ArmAgrees(b: Block, pc: nat, note: Note, slot: nat)
    requires SimpleBlock(b) && forall i :: 0 <= i < |note.view| ==> note.view[i].depth <= |note.live|
    requires AnalyseArm(b, pc, note.view, |note.live|).Some?
    ensures AnalyseArm(b, pc, note.view, |note.live|) == Some(note.view)
    ensures AnalyseBlock(b, pc, note.view, |note.live| + 1) == Some(AfterBlock(b, pc, false,
                                                                               note.(live := note.live + [slot])))
    decreases b, 1
  {
    var inner := note.(live := note.live + [slot]);
    BlockAgrees(b, pc, inner);
    LeaveRestores(AfterBlock(b, pc, false, inner), note.view, |note.live| + 1);
  }

  lemma {:induction false} StmtAgrees(s: Stmt, pc: nat, note: Note)
    requires Simple(s) && forall i :: 0 <= i < |note.view| ==> note.view[i].depth <= |note.live|
    requires AnalyseStmt(s, pc, note.view, |note.live|).Some?
    ensures AnalyseStmt(s, pc, note.view, |note.live|) == Some(After(s, pc, false, note))
    ensures Extends(After(s, pc, false, note), note.view, |note.live|)
    decreases s, 0
  {
    hide AnalyseArm, ArmSize, AnalyseExpr, SimpleBlock;
    match s
    case If(c, thn, hasElse, els) =>
      ArmAgrees(thn, pc + |c| + 2, note, 0);
      if hasElse { ArmAgrees(els, pc + |c| + 2 + ArmSize(thn, false), note, 0); }
    case While(c, body) => ArmAgrees(body, pc + |c| + 2, note, 0);
    case _ =>
  }

  /** The list that code generation records at each point is the analyser's list there, and a block
      only puts variables of its own depth in front. */
  lemma {:induction false} BlockAgrees(b: Block, pc: nat, note: Note)
    requires SimpleBlock(b) && forall i :: 0 <= i < |note.view| ==> note.view[i].depth <= |note.live|
    requires AnalyseBlock(b, pc, note.view, |note.live|).Some?
    ensures AnalyseBlock(b, pc, note.view, |note.live|) == Some(AfterBlock(b, pc, false, note))
    ensures Extends(AfterBlock(b, pc, false, note), note.view, |note.live|)
    decreases b, 0
  {
    hide Simple, AnalyseStmt, Size, After, GuaranteesReturn;
    match b
    case Done =>
    case Then(s, rest) =>
      StmtAgrees(s, pc, note);
      AfterWithin(s, pc, note);
      var next := Next(s, pc, false, note);
      BlockAgrees(rest, pc + Size(s, false), next);
      ExtendsTrans(AfterBlock(b, pc, false, note), next.view, note.view, |note.live|);
  }

  lemma AfterWithin(s: Stmt, pc: nat, note: Note)
    requires forall i :: 0 <= i < |note.view| ==> note.view[i].depth <= |note.live|
    ensures var v := After(s, pc, false, note); forall i :: 0 <= i < |v| ==> v[i].depth <= |note.live|
  {
  }
}
