/** Code generation in its own form: a builder that appends instructions, keeps the state of the
    innermost loop and of the compiler's variable list, and saves and restores both around branches
    and loop bodies. It emits exactly the code of module Codegen, and refuses exactly what does not build. */
module Building {
  import opened Syntax
  import opened Codegen
  import opened Machine

  /** What the compiler knows at the end of a block. */
  function BlockNote(b: Block, pc: nat, inFn: bool, note: Note): Note {
    note.(view := AfterBlock(b, pc, inFn, note), dead := note.dead || BlockGuaranteesReturn(b))
  }

  function BodyAt(lead: Option<string>, pc: nat, ctx: Ctx): nat { pc + Opening(ctx.inFn) + Extra(lead) }

  /** Outside a branch or loop body again: at top level its variables are gone. */
  function Resumed(b: Block, lead: Option<string>, pc: nat, ctx: Ctx): Note {
    if ctx.inFn then ctx.note.(view := AfterBlock(b, BodyAt(lead, pc, ctx), true, ctx.note)) else ctx.note
  }

  /** Everything but the mark that a return precedes. */
  function Mid(s: Stmt, pc: nat, ctx: Ctx): Note { ctx.note.(view := After(s, pc, ctx.inFn, ctx.note)) }

  lemma {:induction false} ExprStep(e: Expr, i: nat, ctx: Ctx)
    requires i < |e|
    ensures CompileExpr(e[i..], ctx)
            == [Cell(if e[i].Use? then Access(e[i].name, ctx) else Invoke(e[i].func + 1), ctx.note)]
                + CompileExpr(e[i + 1..], ctx)
  {
    assert e[i..][1..] == e[i + 1..] && e[i..][0] == e[i];
  }

  class Builder {
    const inFn: bool
    const funcs: nat
    var code: Code
    var loop: Loop
    var note: Note

    constructor (inFn: bool, funcs: nat, note: Note)
      ensures this.inFn == inFn && this.funcs == funcs && this.note == note && code == [] && loop == NoLoop
    {
      this.inFn, this.funcs, this.note, code, loop := inFn, funcs, note, [], NoLoop;
    }

    function Context(): Ctx
      reads this
    {
      Ctx(inFn, loop, note)
    }

    method Emit(i: Instr)
      modifies `code
      ensures code == old(code) + [Cell(i, note)]
    {
      code := code + [Cell(i, note)];
    }

    /** Calls of unknown functions are refused. */
    method BuildExpr(e: Expr) returns (ok: bool)
      modifies `code
      ensures ok <==> CallsExist(e, funcs)
      ensures ok ==> code == old(code) + CompileExpr(e, Context())
    {
      var i := 0;
      while i < |e|
        invariant i <= |e|
        invariant forall j :: 0 <= j < i && e[j].Call? ==> e[j].func < funcs
        invariant code + CompileExpr(e[i..], Context()) == old(code) + CompileExpr(e, Context())
      {
        if e[i].Call? && e[i].func >= funcs {
          assert e[i] in e;
          return false;
        }
        ExprStep(e, i, Context());
        Emit(if e[i].Use? then Access(e[i].name, Context()) else Invoke(e[i].func + 1));
        i := i + 1;
      }
      assert e[i..] == [];
      return true;
    }

    /** A condition and the branch on it. */
    method BuildTest(e: Expr, yes: nat, no: nat) returns (ok: bool)
      modifies `code
      ensures ok <==> CallsExist(e, funcs)
      ensures ok ==> code == old(code) + Test(e, yes, no, Context())
    {
      ok := BuildExpr(e);
      if ok { Emit(Branch(yes, no)); }
    }

    // ------------------------------------------------------------ statements without bodies

    method BuildDecl(x: string, isConst: bool, e: Expr) returns (ok: bool)
      modifies `code
      ensures ok <==> CallsExist(e, funcs)
      ensures ok ==> code == old(code) + CompileDecl(x, isConst, e, Context())
    {
      ok := BuildExpr(e);
      if ok { Emit(if inFn then DeclIfMissing(x) else Decl(x, isConst)); }
    }

    method BuildAssign(x: string, compound: bool, e: Expr) returns (ok: bool)
      modifies `code
      ensures ok <==> CallsExist(e, funcs)
      ensures ok ==> code == old(code) + CompileAssign(x, compound, e, Context())
    {
      if compound { Emit(Access(x, Context())); }
      ok := BuildExpr(e);
      if ok { Emit(Target(x, compound, Context())); }
    }

    method BuildReturn(e: Expr) returns (ok: bool)
      modifies `code
      ensures ok <==> inFn && CallsExist(e, funcs)
      ensures ok ==> code == old(code) + CompileReturn(e, Context())
    {
      ok := BuildExpr(e);
      if !ok || !inFn { return false; }
      Emit(PopToBase(0));
      code := code + [Cell(Ret, note.(live := []))];
    }

    /** `break` and `continue`: leave the scopes of the loop body and go. */
    method BuildJump(target: nat)
      requires loop.InLoop?
      modifies `code
      ensures code == old(code) + CompileJump(Context(), target)
    {
      if inFn {
        Emit(Jump(target));
      } else {
        Emit(PopTo(loop.slot));
        code := code + [Cell(Jump(target), loop.outer.(dead := note.dead))];
      }
    }

    method BuildSimple(s: Stmt) returns (ok: bool)
      requires !s.If? && !s.While? && !s.ForIn?
      modifies `code, `note
      ensures ok <==> StmtBuilds(s, inFn, loop.InLoop?, funcs)
      ensures ok ==> code == old(code) + CompileStmt(s, old(|code|), old(Context()))
      ensures ok ==> note == Mid(s, old(|code|), old(Context()))
    {
      hide CompileExpr, CompileJump, CompileDecl, CompileAssign, CompileReturn, CallsExist;
      var pc := |code|;
      match s
      case VarDecl(x, k, e) =>
        ok := BuildDecl(x, k, e);
        note := note.(view := [StaticVar(x, k, if inFn then 0 else |note.live|, pc + |e|)] + note.view);
      case Assign(x, compound, e) =>
        ok := BuildAssign(x, compound, e);
        if inFn && !compound && !Listed(note.view, x) {
          note := note.(view := [StaticVar(x, false, 0, pc)] + note.view);
        }
      case Eval(e) => ok := BuildExpr(e);
      case Return(e) => ok := BuildReturn(e);
      case Break =>
        ok := loop.InLoop?;
        if ok { BuildJump(loop.exit); }
      case Continue =>
        ok := loop.InLoop?;
        if ok { BuildJump(loop.again); }
    }

    // ------------------------------------------------------------ branches and loop bodies

    /** Pushes a scope at top level and makes it the current one. */
    method EnterScope(lead: Option<string>) returns (at: nat)
      modifies `code, `note
      ensures at == old(|code|) && note == Inner(at, old(Context()))
      ensures code == old(code) + OpenArm(lead, at, old(Context()))
    {
      at := |code|;
      if !inFn {
        Emit(Enter(at));
        note := note.(live := note.live + [at]);
      }
      if lead.Some? { Emit(Store(lead.value)); }
    }

    /** Ends an arm that does not already end in a jump: pops its scope and branches to `after`. */
    method LeaveScope(at: nat, ghost ctx: Ctx, outer: Note, after: nat)
      requires ctx.inFn == inFn && ctx.note == outer
      modifies `code
      ensures code == old(code) + CloseArm(at, ctx, note, after)
    {
      if !inFn { Emit(PopTo(at)); }
      code := code + [Cell(Jump(after), outer.(dead := note.dead))];
    }

    /** A branch or loop body, with `inner` as the innermost loop. Afterwards the loop state and the live
        scopes are the ones around it. */
    method BuildArm(b: Block, lead: Option<string>, inner: Loop, after: nat) returns (ok: bool)
      modifies this
      ensures ok <==> BlockBuilds(b, inFn, inner.InLoop?, funcs)
      ensures ok ==> code == old(code) + CompileArm(b, lead, old(|code|), old(Context()), inner, after)
      ensures ok ==> loop == old(loop) && note == Resumed(b, lead, old(|code|), old(Context()))
      decreases b, 1
    {
      hide AfterBlock, BlockGuaranteesReturn, CompileBlock, BlockBuilds, OpenArm, CloseArm;
      ghost var ctx := Context();
      var outer, saved := note, loop;
      var at := EnterScope(lead);
      OpenArmLength(lead, at, ctx);
      loop := inner;
      ok := BuildBlock(b);
      if ok {
        loop := saved;
        if !EndsInJump(b) { LeaveScope(at, ctx, outer, after); }
        note := if inFn then outer.(view := note.view) else outer;
      }
    }

    method BuildBlock(b: Block) returns (ok: bool)
      modifies this
      ensures ok <==> BlockBuilds(b, inFn, old(loop).InLoop?, funcs)
      ensures ok ==> code == old(code) + CompileBlock(b, old(|code|), old(Context())) && loop == old(loop)
      ensures ok ==> note == BlockNote(b, old(|code|), inFn, old(note))
      decreases b, 0
    {
      hide CompileStmt, StmtBuilds, After, Size, GuaranteesReturn;
      match b
      case Done => ok := true;
      case Then(s, rest) =>
        StmtLength(s, |code|, Context());
        ok := BuildStmt(s);
        if ok { ok := BuildBlock(rest); }
    }

    method BuildStmt(s: Stmt) returns (ok: bool)
      modifies this
      ensures ok <==> StmtBuilds(s, inFn, old(loop).InLoop?, funcs)
      ensures ok ==> code == old(code) + CompileStmt(s, old(|code|), old(Context())) && loop == old(loop)
      ensures ok ==> note == Next(s, old(|code|), inFn, old(note))
      decreases s, 1
    {
      hide StmtBuilds, GuaranteesReturn, After, CompileIf, CompileWhile, CompileForIn;
      match s {
        case If(_, _, _, _) => ok := BuildIf(s);
        case While(_, _) => ok := BuildWhile(s);
        case ForIn(_, _, _, _) => ok := BuildForIn(s);
        case _ => hide CompileStmt; ok := BuildSimple(s);
      }
      note := note.(dead := note.dead || GuaranteesReturn(s));
    }

    method BuildIf(s: Stmt) returns (ok: bool)
      requires s.If?
      modifies this
      ensures ok <==> StmtBuilds(s, inFn, old(loop).InLoop?, funcs)
      ensures ok ==> code == old(code) + CompileIf(s, old(|code|), old(Context())) && loop == old(loop)
      ensures ok ==> note == Mid(s, old(|code|), old(Context()))
      decreases s, 0
    {
      hide CallsExist, BlockBuilds, AfterBlock, ArmSize, CompileArm, Test;
      ghost var ctx := Context();
      var yes := |code| + |s.cond| + 1;
      var no := yes + ArmSize(s.thn, inFn);
      var merge := |code| + Size(s, inFn);
      ok := BuildTest(s.cond, yes, no);
      if !ok { return; }
      ArmLength(s.thn, None, yes, ctx, loop, merge);
      ok := BuildArm(s.thn, None, loop, merge);
      if !ok { return; }
      assert Context() == ElseCtx(s, yes, ctx);
      if s.hasElse {
        ok := BuildArm(s.els, None, loop, merge);
      } else {
        Emit(Jump(merge));
      }
    }

    method BuildWhile(s: Stmt) returns (ok: bool)
      requires s.While?
      modifies this
      ensures ok <==> StmtBuilds(s, inFn, old(loop).InLoop?, funcs)
      ensures ok ==> code == old(code) + CompileWhile(s, old(|code|), old(Context())) && loop == old(loop)
      ensures ok ==> note == Mid(s, old(|code|), old(Context()))
      decreases s, 0
    {
      hide CallsExist, BlockBuilds, AfterBlock, ArmSize, CompileArm, Test;
      var start := |code| + |s.cond| + 1;
      var exit := |code| + Size(s, inFn);
      var inner := InLoop(exit, |code|, start, note);
      var again := |code|;
      ok := BuildTest(s.cond, start, exit);
      if !ok { return; }
      ok := BuildArm(s.body, None, inner, again);
    }

    method BuildForIn(s: Stmt) returns (ok: bool)
      requires s.ForIn?
      modifies this
      ensures ok <==> StmtBuilds(s, inFn, old(loop).InLoop?, funcs)
      ensures ok ==> code == old(code) + CompileForIn(s, old(|code|), old(Context())) && loop == old(loop)
      ensures ok ==> note == Mid(s, old(|code|), old(Context()))
      decreases s, 0
    {
      hide CallsExist, BlockBuilds, AfterBlock, ArmSize, CompileArm, ForInHead;
      var outer := note;
      var start := |code| + HeadSize(s.iterable, s.isDict);
      var again := start + ArmSize(s.body, inFn) + 1;
      ok := BuildForInHead(s.name, s.iterable, s.isDict, again + 1);
      if !ok { return; }
      ok := BuildArm(s.body, Some(s.name), InLoop(again + 1, again, start, note), again);
      if !ok { return; }
      code := code + [Cell(Jump(start - 2), outer)];
    }

    /** Key extraction, the length test, the loop variable, the loop test and the fetch. */
    method BuildForInHead(x: string, e: Expr, isDict: bool, exit: nat) returns (ok: bool)
      modifies `code
      ensures ok <==> CallsExist(e, funcs)
      ensures ok ==> code == old(code) + ForInHead(x, e, isDict, old(|code|), exit, Context())
    {
      hide CompileExpr, CallsExist;
      var ready := |code| + 1 + |e| + if isDict then 1 else 0;
      Emit(Jump(|code| + 1));
      ok := BuildExpr(e);
      if !ok { return; }
      if isDict { Emit(Branch(ready, exit)); }
      Emit(Branch(ready + 1, exit));
      Emit(DeclIfMissing(x));
      Emit(Branch(ready + 3, exit));
      Emit(Branch(ready + 4, exit));
    }
  }

  // -------------------------------------------------------------- functions and programs

  /** The prologue: the scope of the function and its parameters. */
  method BuildPrologue(f: Func, funcs: nat) returns (b: Builder)
    ensures fresh(b) && b.inFn && b.funcs == funcs && b.loop == NoLoop && b.note == BodyNote(f)
    ensures b.code == [Cell(Enter(0), Note([], [], false))] + ParamCode(f)
  {
    b := new Builder(true, funcs, Note([], [], false));
    b.Emit(Enter(0));
    b.note := BodyNote(f);
    var i := 0;
    while i < |f.params|
      invariant i <= |f.params| && b.loop == NoLoop && b.note == BodyNote(f)
      invariant b.code == [Cell(Enter(0), Note([], [], false))] + ParamCode(f)[..i]
    {
      b.Emit(DeclIfMissing(f.params[i]));
      assert ParamCode(f)[..i + 1] == ParamCode(f)[..i] + [ParamCode(f)[i]];
      i := i + 1;
    }
    assert ParamCode(f)[..i] == ParamCode(f);
  }

  /** A body that falls off its end gets the epilogue that an explicit `return` would have had. */
  method BuildFunction(f: Func, funcs: nat) returns (ok: bool, code: Code)
    ensures ok <==> BlockBuilds(f.body, true, false, funcs)
    ensures ok ==> code == CompileFunc(f)
  {
    hide BlockBuilds, CompileBlock, ParamCode, EndsInJump, BlockGuaranteesReturn, AfterBlock;
    var b := BuildPrologue(f, funcs);
    code := [];
    ok := b.BuildBlock(f.body);
    if !ok { return; }
    if !EndsInJump(f.body) {
      b.note := BodyNote(f).(dead := b.note.dead);
      b.Emit(PopToBase(0));
      b.code := b.code + [Cell(Ret, b.note.(live := []))];
    }
    code := b.code;
  }

  method BuildProgram(p: Program) returns (ok: bool, code: seq<Code>)
    ensures ok <==> Builds(p)
    ensures ok ==> code == CompileProgram(p)
  {
    hide BlockBuilds, CompileBlock, CompileFunc, AfterBlock;
    code := [];
    var b := new Builder(false, |p.funcs|, TopNote);
    ok := b.BuildBlock(p.main);
    if !ok { return; }
    b.note := b.note.(dead := false);
    b.Emit(Halt);
    assert b.code == CompileMain(p.main);
    code := [b.code];
    var i := 0;
    while i < |p.funcs|
      invariant i <= |p.funcs|
      invariant forall j :: 0 <= j < i ==> BlockBuilds(p.funcs[j].body, true, false, |p.funcs|)
      invariant |code| == i + 1 && code[0] == CompileMain(p.main)
      invariant forall j :: 0 <= j < i ==> code[j + 1] == CompileFunc(p.funcs[j])
    {
      var c;
      ok, c := BuildFunction(p.funcs[i], |p.funcs|);
      if !ok { return; }
      code := code + [c];
      i := i + 1;
    }
    assert code == CompileProgram(p);
  }
}
