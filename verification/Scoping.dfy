/** Static and dynamic scoping agree, over every run. */
module Scoping {
  import opened Syntax
  import opened Codegen
  import opened Analyser
  import opened Flow
  import opened Machine
  import opened Depth
  import opened Names
  import opened NameFlow
  import opened Lookups

  /** What the analyser accepts, within the limits of the runtime. */
  predicate Admitted(b: Block) {
    && SimpleBlock(b)
    && BlockBuilds(b, false, false, 0)
    && AnalyseBlock(b, 0, [], 0).Some?
    && BlockFits(b, 0, 0)
  }

  /** The lookup at `hit.pc` reached the declaration that the compiler's list gives there. */
  predicate HitAgrees(c: Code, hit: Hit) {
    && hit.pc < |c|
    && var note := c[hit.pc].note;
       && (c[hit.pc].instr == Load(hit.name) || c[hit.pc].instr == Store(hit.name))
       && FindVar(note.view, |note.live|, hit.name).Some?
       && FindVar(note.view, |note.live|, hit.name).value.site == hit.site
  }

  predicate Agrees(c: Code, st: State) {
    && st.errors == []
    && (forall h :: h in st.hits ==> HitAgrees(c, h))
    && |st.frames| <= 1
    && (st.frames != [] ==>
          && st.Top().fn == 0 && st.Top().pc < |c|
          && var note := c[st.Top().pc].note;
             WellFormed(note.view, |note.live|) && Mirrors(st.scopes, note.view, |note.live|))
  }

  lemma {:induction false} MainNames(b: Block)
    requires Admitted(b)
    ensures NamesRange(CompileMain(b), 0, |CompileMain(b)|)
    ensures |CompileMain(b)| > 0 && CompileMain(b)[0].note == TopNote
  {
    hide CompileBlock, NamesRange, BlockBuilds, AfterBlock, Placed, EndsInJump, BlockSize, BlockFits, SimpleBlock,
         AnalyseBlock;
    var body := CompileBlock(b, 0, MainCtx());
    var halt := [Cell(Halt, TopNote.(view := AfterBlock(b, 0, false, TopNote)))];
    var c := CompileMain(b);
    BlockLength(b, 0, MainCtx());
    PlacedWhole(c);
    PlacedSplit(c, 0, body, halt);
    PlacedAt(c, |body|, halt, 0);
    HaltNames(c, |body|);
    BlockNames(c, b, 0, MainCtx());
    NamesJoin(c, 0, |body|, |c|);
    MainFlows(b, 0);
  }

  lemma HaltNames(c: Code, pc: nat)
    requires pc + 1 == |c| && c[pc].instr == Halt
    ensures NamesRange(c, pc, |c|)
  {
  }

  /** The facts about the current instruction that a step may use. */
  predicate Facts(c: Code, st: State) {
    && CodeOk([c]) && Inv([c], st) && Agrees(c, st)
    && Fetches([c], st)
    && FlowOk(c, false, 0, st.Top().pc) && NamesOk(c, st.Top().pc)
    && st.Top().entry == 1 && |st.scopes| == |c[st.Top().pc].note.live| + 1
  }

  lemma {:induction false} GetFacts(c: Code, st: State)
    requires CodeOk([c]) && Inv([c], st) && Agrees(c, st) && NamesRange(c, 0, |c|) && st.frames != []
    ensures Facts(c, st)
  {
    var code := [c];
    assert code[0] == c;
    assert st.Top() == st.frames[0];
    assert FlowOk(c, false, 0, st.Top().pc);
    assert NamesOk(c, st.Top().pc);
  }

  lemma {:induction false} EnterAgrees(c: Code, st: State, slot: nat, taken: bool)
    requires Facts(c, st) && Fetch([c], st).instr == Enter(slot)
    ensures Agrees(c, Step([c], st, taken))
  {
    hide CodeOk, Inv, HitAgrees, WellFormed;
    var note := c[st.Top().pc].note;
    var next := Step([c], st, taken);
    assert next.scopes == st.scopes + [[]];
    WithinInRange(note);
    DeeperEmpty(note.view, |note.live| + 1);
    DeeperWellFormed(note.view, |note.live|);
  }

  lemma WithinInRange(note: Note)
    requires WellFormed(note.view, |note.live|)
    ensures forall v :: v in note.view ==> v.depth <= |note.live|
  {
  }

  lemma DeeperWellFormed(view: View, depth: nat)
    requires WellFormed(view, depth)
    ensures WellFormed(view, depth + 1)
  {
  }

  lemma {:induction false} PopAgrees(c: Code, st: State, slot: nat, taken: bool)
    requires Facts(c, st) && Fetch([c], st).instr == PopTo(slot)
    ensures Agrees(c, Step([c], st, taken))
  {
    hide CodeOk, HitAgrees, WellFormed, ScopeOf, Extends;
    var pc := st.Top().pc;
    var note, note' := c[pc].note, c[pc + 1].note;
    assert FrameOk([c], st.frames[0]);
    assert note.live[|note'.live|] == slot && st.Top().slots[slot] == Capped(1 + |note'.live|);
    UnwindMirrors(st.scopes, note.view, |note.live|, note'.view, |note'.live|);
  }

  lemma {:induction false} DeclAgrees(c: Code, st: State, x: string, k: bool, taken: bool)
    requires Facts(c, st) && Fetch([c], st).instr == Decl(x, k)
    ensures Agrees(c, Step([c], st, taken))
  {
    hide CodeOk, Inv, HitAgrees, WellFormed, DeclaredAt;
    var pc := st.Top().pc;
    var note := c[pc].note;
    ScopeNames(note.view, |note.live|, x);
    DeclareMirrors(st.scopes, note.view, |note.live|, StaticVar(x, k, |note.live|, pc));
  }

  lemma {:induction false} AccessAgrees(c: Code, st: State, x: string, taken: bool)
    requires Facts(c, st) && (Fetch([c], st).instr == Load(x) || Fetch([c], st).instr == Store(x))
    ensures Agrees(c, Step([c], st, taken))
  {
    hide CodeOk, Inv, Resolve, Mirrors;
    var pc := st.Top().pc;
    var note := c[pc].note;
    LookupsAgree(st.scopes, note.view, |note.live|, x);
    assert HitAgrees(c, Hit(pc, x, FindVar(note.view, |note.live|, x).value.site));
  }

  lemma {:induction false} StepAgrees(c: Code, st: State, taken: bool)
    requires CodeOk([c]) && Inv([c], st) && Agrees(c, st) && NamesRange(c, 0, |c|)
    ensures Agrees(c, Step([c], st, taken))
  {
    if st.frames != [] {
      GetFacts(c, st);
      hide CodeOk, Inv, NamesRange;
      match Fetch([c], st).instr
      case Enter(s) => hide Facts, Agrees, Step; EnterAgrees(c, st, s, taken);
      case PopTo(s) => hide Facts, Agrees, Step; PopAgrees(c, st, s, taken);
      case Decl(x, k) => hide Facts, Agrees, Step; DeclAgrees(c, st, x, k, taken);
      case Load(x) => hide Facts, Agrees, Step; AccessAgrees(c, st, x, taken);
      case Store(x) => hide Facts, Agrees, Step; AccessAgrees(c, st, x, taken);
      case _ => hide HitAgrees, Mirrors, WellFormed;
    }
  }

  lemma {:induction false} RunAgrees(c: Code, st: State, outcomes: seq<bool>)
    requires CodeOk([c]) && Inv([c], st) && Agrees(c, st) && NamesRange(c, 0, |c|)
    ensures Agrees(c, Run([c], st, outcomes))
    decreases |outcomes|
  {
    hide CodeOk, Inv, Agrees, Step, NamesRange;
    if outcomes != [] {
      StepAgrees(c, st, outcomes[0]);
      StepKeepsInv([c], st, outcomes[0]);
      RunAgrees(c, Step([c], st, outcomes[0]), outcomes[1..]);
    }
  }

  // ---------------------------------------------------------------- main result

  /** The pass made exactly one search for the access at `hit.pc`, for that name, and found the
      declaration that the run reached. */
  predicate HitFound(b: Block, hit: Hit) {
    var fs := BlockFinds(b, 0, [], 0);
    && Found(hit.pc, hit.name, hit.site) in fs
    && forall f :: f in fs && f.pc == hit.pc ==> f == Found(hit.pc, hit.name, hit.site)
  }

  lemma {:induction false} MainAccounted(b: Block)
    requires Admitted(b)
    ensures Accounted(CompileMain(b), 0, BlockFinds(b, 0, [], 0))
  {
    hide CompileBlock, BlockFinds, AfterBlock, Accounted, AnalyseBlock, BlockFits, BlockBuilds, SimpleBlock;
    var fs := BlockFinds(b, 0, [], 0);
    var body := CompileBlock(b, 0, MainCtx());
    var halt := [Cell(Halt, TopNote.(view := AfterBlock(b, 0, false, TopNote)))];
    hide Accounted;
    BlockAccounted(b, 0, MainCtx(), fs);
    AccountedFree(halt, |body|, fs);
    AccountedJoin(body, halt, 0, fs);
  }

  lemma HitIsFound(b: Block, c: Code, hit: Hit)
    requires Accounted(c, 0, BlockFinds(b, 0, [], 0)) && Single(BlockFinds(b, 0, [], 0), 0, BlockSize(b, false))
    requires HitAgrees(c, hit)
    ensures HitFound(b, hit)
  {
    hide BlockFinds, BlockSize, FindVar;
    assert Covered(c[hit.pc], 0 + hit.pc, BlockFinds(b, 0, [], 0));
    assert Found(hit.pc, hit.name, hit.site) in FindAt(hit.name, hit.pc, c[hit.pc].note.view, |c[hit.pc].note.live|);
  }

  lemma {:induction false} ReachedAgrees(b: Block, outcomes: seq<bool>)
    requires Admitted(b)
    ensures Agrees(CompileMain(b), Reached(Program(b, []), outcomes))
  {
    hide CodeOk, Inv, Run, NamesRange, CompileMain, AnalyseBlock, BlockFits;
    var p := Program(b, []);
    var c := CompileMain(b);
    assert CompileProgram(p) == [c];
    MainNames(b);
    InitialInv(p);
    StartAgrees(c);
    RunAgrees(c, Init, outcomes);
  }

  lemma AgreesMeans(c: Code, st: State)
    requires Agrees(c, st)
    ensures st.errors == [] && forall h :: h in st.hits ==> HitAgrees(c, h)
  {
  }

  /** An admitted program, in any run, meets no unknown name, duplicate declaration, assignment to a
      constant, scope overflow or underflow; and each lookup that has happened reached the very
      declaration that the semantic pass had found, on its own list, when it analysed that access. */
  lemma {:induction false} StaticMeetsDynamic(b: Block, outcomes: seq<bool>)
    requires Admitted(b)
    ensures var st := Reached(Program(b, []), outcomes);
            && st.errors == []
            && forall h :: h in st.hits ==> HitFound(b, h)
  {
    hide *;
    var c, st := CompileMain(b), Reached(Program(b, []), outcomes);
    ReachedAgrees(b, outcomes);
    AgreesMeans(c, st);
    MainAccounted(b);
    BlockSingle(b, 0, [], 0);
    forall h | h in st.hits ensures HitFound(b, h) { HitIsFound(b, c, h); }
  }

  lemma StartAgrees(c: Code)
    requires |c| > 0 && c[0].note == TopNote
    ensures Agrees(c, Init)
  {
  }
}
