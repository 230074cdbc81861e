/** A name reaches the running program through a global found by the name's 32-bit hash alone: it is
    emitted as the first string of the module with that hash. Static and dynamic scoping still agree
    exactly as long as the emitted names keep the variables in sight apart. */
module Spelling {
  import opened Syntax
  import opened Codegen
  import opened Analyser
  import opened Machine
  import opened Depth
  import opened Flow
  import opened Names
  import opened NameFlow
  import opened Lookups
  import opened Scoping

  /** FNV-1a on the bytes of a string. */
  function Hash(x: string): bv32 { Fnv(2166136261, x) }

  function Fnv(h: bv32, x: string): bv32
    decreases |x|
  {
    if x == "" then h else Fnv(Absorb(h, x[0]), x[1..])
  }

  function Absorb(h: bv32, c: char): bv32 { (h ^ ByteOf(c)) * 16777619 }

  function ByteOf(c: char): bv32 { c as bv32 & 255 }

  /** `strings`: every string the module mentions, in the order of first mention. */
  function Emitted(strings: seq<string>, x: string): (y: string)
    ensures y == x || (y in strings && Hash(y) == Hash(x))
  {
    if strings == [] then x
    else if Hash(strings[0]) == Hash(x) then strings[0]
    else Emitted(strings[1..], x)
  }

  predicate CollisionFree(strings: seq<string>) {
    forall x, y :: x in strings && y in strings && Hash(x) == Hash(y) ==> x == y
  }

  function Respell(i: Instr, strings: seq<string>): Instr {
    match i
    case Decl(x, k) => Decl(Emitted(strings, x), k)
    case DeclIfMissing(x) => DeclIfMissing(Emitted(strings, x))
    case Load(x) => Load(Emitted(strings, x))
    case Store(x) => Store(Emitted(strings, x))
    case _ => i
  }

  function RespellCode(c: Code, strings: seq<string>): (c': Code)
    ensures |c'| == |c|
    ensures forall i :: 0 <= i < |c| ==> c'[i] == c[i].(instr := Respell(c[i].instr, strings))
  {
    if c == [] then []
    else [c[0].(instr := Respell(c[0].instr, strings))] + RespellCode(c[1..], strings)
  }

  predicate Mentions(i: Instr, x: string) {
    match i
    case Decl(y, _) => x == y
    case DeclIfMissing(y) => x == y
    case Load(y) => x == y
    case Store(y) => x == y
    case _ => false
  }

  /** Every name that the code hands to the runtime is a string of the module. */
  ghost predicate Covers(strings: seq<string>, c: Code) {
    forall i, x :: 0 <= i < |c| && Mentions(c[i].instr, x) ==> x in strings
  }

  /** Strings reach the program unchanged exactly when none collides with another. */
  lemma {:induction false} SpelledAsWritten(strings: seq<string>)
    ensures CollisionFree(strings) <==> forall x :: x in strings ==> Emitted(strings, x) == x
  {
    forall x, y | x in strings && Hash(x) == Hash(y) && y in strings
      ensures Emitted(strings, x) == Emitted(strings, y)
    {
      SameHash(strings, x, y);
    }
    if !CollisionFree(strings) {
      var x, y :| x in strings && y in strings && Hash(x) == Hash(y) && x != y;
      SameHash(strings, x, y);
    }
  }

  lemma {:induction false} SameHash(strings: seq<string>, x: string, y: string)
    requires Hash(x) == Hash(y) && x in strings && y in strings
    ensures Emitted(strings, x) == Emitted(strings, y)
    decreases |strings|
  {
    if Hash(strings[0]) != Hash(x) { SameHash(strings[1..], x, y); }
  }

  lemma {:induction false} CollisionFreeAgreement(b: Block, strings: seq<string>, outcomes: seq<bool>)
    requires Admitted(b)
    requires Covers(strings, CompileMain(b)) && CollisionFree(strings)
    ensures var st := Run([RespellCode(CompileMain(b), strings)], Init, outcomes);
            && st.errors == []
            && forall h :: h in st.hits ==> HitFound(b, h)
  {
    hide CompileMain, Run;
    var c := CompileMain(b);
    SpelledAsWritten(strings);
    forall i | 0 <= i < |c| ensures Respell(c[i].instr, strings) == c[i].instr {
      KeepsInstr(strings, c, i);
    }
    assert RespellCode(c, strings) == c;
    StaticMeetsDynamic(b, outcomes);
    assert CompileProgram(Program(b, [])) == [c];
  }

  lemma KeepsInstr(strings: seq<string>, c: Code, i: nat)
    requires Covers(strings, c) && i < |c|
    requires forall x :: x in strings ==> Emitted(strings, x) == x
    ensures Respell(c[i].instr, strings) == c[i].instr
  {
    hide Emitted;
    match c[i].instr
    case Decl(x, k) => assert Mentions(c[i].instr, x);
    case DeclIfMissing(x) => assert Mentions(c[i].instr, x);
    case Load(x) => assert Mentions(c[i].instr, x);
    case Store(x) => assert Mentions(c[i].instr, x);
    case _ =>
  }

  // ---------------------------------------------------------------- exactly when the agreement survives

  function SpellVar(strings: seq<string>, v: Var): Var { v.(name := Emitted(strings, v.name)) }

  function SpellScope(strings: seq<string>, s: Scope): Scope {
    seq(|s|, i requires 0 <= i < |s| => SpellVar(strings, s[i]))
  }

  function SpellScopes(strings: seq<string>, scopes: seq<Scope>): seq<Scope> {
    seq(|scopes|, d requires 0 <= d < |scopes| => SpellScope(strings, scopes[d]))
  }

  function SpellHits(strings: seq<string>, hits: seq<Hit>): seq<Hit> {
    seq(|hits|, i requires 0 <= i < |hits| => hits[i].(name := Emitted(strings, hits[i].name)))
  }

  /** The same state with every name as it is emitted. */
  function Spelled(strings: seq<string>, st: State): State {
    st.(scopes := SpellScopes(strings, st.scopes), hits := SpellHits(strings, st.hits))
  }

  /** The scope stack that the compiler's list stands for. */
  function StackOf(note: Note): seq<Scope> {
    seq(|note.live| + 1, d requires 0 <= d < |note.live| + 1 => ScopeOf(note.view, d))
  }

  /** With the emitted names, a declaration is not taken for another one of its scope, and a search
      for a variable still stops at that variable. */
  predicate SpellsApart(strings: seq<string>, cell: Cell) {
    var stack := SpellScopes(strings, StackOf(cell.note));
    match cell.instr
    case Decl(x, _) =>
      var top := stack[|stack| - 1];
      IndexIn(top, Emitted(strings, x)) == |top|
    case Load(x) => StopsRight(strings, cell.note, x)
    case Store(x) => StopsRight(strings, cell.note, x)
    case _ => true
  }

  predicate StopsRight(strings: seq<string>, note: Note, x: string) {
    match FindVar(note.view, |note.live|, x)
    case None => true
    case Some(v) =>
      var u := Resolve(SpellScopes(strings, StackOf(note)), Emitted(strings, x));
      u.Some? && u.value.site == v.site
  }

  /** No error, and every lookup has reached the declaration that the pass found for that access. */
  predicate Agreed(b: Block, st: State) {
    && st.errors == []
    && forall h :: h in st.hits ==> exists f :: f in BlockFinds(b, 0, [], 0) && f.pc == h.pc && f.site == h.site
  }

  /** Emitting copies as many characters as the name has, so colliding strings of different lengths
      leave the language. */
  predicate SameLengths(strings: seq<string>) {
    forall x, y :: x in strings && y in strings && Hash(x) == Hash(y) ==> |x| == |y|
  }

  /** Every variable of a scope was declared by the instruction at its site. */
  predicate Sited(c: Code, scopes: seq<Scope>) {
    forall d, i :: 0 <= d < |scopes| && 0 <= i < |scopes[d]| ==> DeclaredBy(c, scopes[d][i])
  }

  predicate DeclaredBy(c: Code, v: Var) {
    v.site < |c| && c[v.site].instr == Decl(v.name, v.isConst)
  }

  lemma {:induction false} StepSited(c: Code, st: State, taken: bool)
    requires Facts(c, st) && Sited(c, st.scopes)
    ensures Sited(c, Step([c], st, taken).scopes)
  {
    hide CodeOk, Inv, Agrees, IndexIn, Lookup, FlowOk;
    var st' := Step([c], st, taken);
    var note := Fetch([c], st);
    match note.instr
    case Decl(x, k) =>
      var n := |st.scopes| - 1;
      if st'.scopes != st.scopes {
        assert st'.scopes == st.scopes[n := st.scopes[n] + [Var(x, k, st.Top().pc)]];
      }
    case _ =>
  }

  lemma {:induction false} ResolveSpelled(strings: seq<string>, c: Code, scopes: seq<Scope>, name: string)
    requires Sited(c, scopes)
    ensures var u := Resolve(SpellScopes(strings, scopes), name);
            u.Some? ==> exists v :: DeclaredBy(c, v) && u.value == SpellVar(strings, v)
    decreases |scopes|
  {
    if scopes != [] {
      var n := |scopes| - 1;
      var s := SpellScopes(strings, scopes)[n];
      var i := IndexIn(s, name);
      assert SpellScopes(strings, scopes)[..n] == SpellScopes(strings, scopes[..n]);
      if i < |s| {
        assert s[i] == SpellVar(strings, scopes[n][i]) && DeclaredBy(c, scopes[n][i]);
      } else {
        ResolveSpelled(strings, c, scopes[..n], name);
      }
    }
  }

  lemma {:induction false} ResolveSited(c: Code, scopes: seq<Scope>, name: string)
    requires Sited(c, scopes)
    ensures var v := Resolve(scopes, name); v.Some? ==> DeclaredBy(c, v.value) && v.value.name == name
    decreases |scopes|
  {
    if scopes != [] { ResolveSited(c, scopes[..|scopes| - 1], name); }
  }

  lemma DeclareSpelled(strings: seq<string>, st: State, x: string, k: bool, site: nat)
    requires st.scopes != [] && |x| < 255 && |Emitted(strings, x)| == |x|
    requires var s := st.scopes[|st.scopes| - 1];
             |s| < MAX_VARS && IndexIn(s, x) == |s| && IndexIn(SpellScope(strings, s), Emitted(strings, x)) == |s|
    ensures Declare(Spelled(strings, st), Emitted(strings, x), k, site) == Spelled(strings, Declare(st, x, k, site))
  {
    hide IndexIn, Emitted;
    var n := |st.scopes| - 1;
    var s := st.scopes[n];
    var spelled := Spelled(strings, st);
    assert spelled.scopes[n] == SpellScope(strings, s);
    assert SpellScope(strings, s + [Var(x, k, site)]) == SpellScope(strings, s) + [SpellVar(strings, Var(x, k, site))];
    assert SpellScopes(strings, st.scopes[n := s + [Var(x, k, site)]])
           == SpellScopes(strings, st.scopes)[n := SpellScope(strings, s + [Var(x, k, site)])];
  }

  lemma TouchSpelled(strings: seq<string>, c: Code, st: State, pc: nat, x: string, store: bool)
    requires Sited(c, st.scopes) && |Emitted(strings, x)| == |x|
    requires Lookup(st.scopes, x).Some? && !(store && Lookup(st.scopes, x).value.isConst)
    requires var u := Resolve(SpellScopes(strings, st.scopes), Emitted(strings, x));
             u.Some? && u.value.site == Lookup(st.scopes, x).value.site
    ensures Touch(Spelled(strings, st), pc, Emitted(strings, x), store) == Spelled(strings, Touch(st, pc, x, store))
  {
    hide Resolve, Emitted, Sited;
    ResolveSpelled(strings, c, st.scopes, Emitted(strings, x));
    ResolveSited(c, st.scopes, x);
    var hit := Hit(pc, x, Lookup(st.scopes, x).value.site);
    assert SpellHits(strings, st.hits + [hit]) == SpellHits(strings, st.hits) + [hit.(name := Emitted(strings, x))];
  }

  lemma FactsStack(c: Code, st: State)
    requires Facts(c, st)
    ensures st.scopes == StackOf(c[st.Top().pc].note)
    ensures WellFormed(c[st.Top().pc].note.view, |c[st.Top().pc].note.live|)
    ensures st.scopes != [] && NamesOk(c, st.Top().pc) && st.errors == []
  {
    hide CodeOk, Inv, NamesOk, WellFormed, ScopeOf;
  }

  lemma SpelledLength(strings: seq<string>, x: string)
    requires SameLengths(strings) && x in strings
    ensures |Emitted(strings, x)| == |x|
  {
  }

  lemma {:induction false} DeclSpelled(c: Code, strings: seq<string>, st: State, x: string, k: bool, taken: bool)
    requires Facts(c, st) && Covers(strings, c) && SameLengths(strings)
    requires Fetch([c], st).instr == Decl(x, k)
    ensures var st' := Step([RespellCode(c, strings)], Spelled(strings, st), taken);
            if SpellsApart(strings, Fetch([c], st)) then st' == Spelled(strings, Step([c], st, taken))
                else st'.errors != []
  {
    hide CodeOk, Inv, Agrees, Hash, Emitted, SameLengths, FlowOk, WellFormed, ScopeOf, IndexIn;
    var pc := st.Top().pc;
    var note := c[pc].note;
    FactsStack(c, st);
    assert Mentions(c[pc].instr, x);
    SpelledLength(strings, x);
    ScopeNames(note.view, |note.live|, x);
    var next := st.At(pc + 1);
    assert Spelled(strings, st).At(pc + 1) == Spelled(strings, next);
    if SpellsApart(strings, c[pc]) { DeclareSpelled(strings, next, x, k, pc); }
  }

  lemma {:induction false} AccessSpelled(c: Code, strings: seq<string>, st: State, x: string, taken: bool)
    requires Facts(c, st) && Sited(c, st.scopes) && Covers(strings, c) && SameLengths(strings)
    requires Fetch([c], st).instr == Load(x) || Fetch([c], st).instr == Store(x)
    ensures var st' := Step([RespellCode(c, strings)], Spelled(strings, st), taken);
            var pc := st.Top().pc;
            var v := FindVar(c[pc].note.view, |c[pc].note.live|, x);
            if SpellsApart(strings, Fetch([c], st)) then st' == Spelled(strings, Step([c], st, taken))
            else st'.errors != [] || exists h :: h in st'.hits && h.pc == pc && v.Some? && h.site != v.value.site
  {
    hide CodeOk, Inv, Agrees, Hash, Emitted, SameLengths, FlowOk, ScopeOf, IndexIn, Resolve, Sited;
    var pc := st.Top().pc;
    var note := c[pc].note;
    FactsStack(c, st);
    FactsLookup(c, st, x);
    assert Mentions(c[pc].instr, x);
    SpelledLength(strings, x);
    var next := st.At(pc + 1);
    var v := FindVar(note.view, |note.live|, x).value;
    var store := c[pc].instr.Store?;
    assert Spelled(strings, st).At(pc + 1) == Spelled(strings, next);
    if SpellsApart(strings, c[pc]) {
      TouchSpelled(strings, c, next, pc, x, store);
    } else {
      var u := Resolve(SpellScopes(strings, st.scopes), Emitted(strings, x));
      var st' := Step([RespellCode(c, strings)], Spelled(strings, st), taken);
      if u.Some? && st'.errors == [] {
        var h := Hit(pc, Emitted(strings, x), u.value.site);
        assert st'.hits == SpellHits(strings, st.hits) + [h];
        assert st'.hits[|st'.hits| - 1] == h;
        assert h in st'.hits;
      }
    }
  }

  lemma FactsLookup(c: Code, st: State, x: string)
    requires Facts(c, st) && (Fetch([c], st).instr == Load(x) || Fetch([c], st).instr == Store(x))
    ensures var pc := st.Top().pc;
            var v := FindVar(c[pc].note.view, |c[pc].note.live|, x);
            && v.Some? && Lookup(st.scopes, x) == Some(ToVar(v.value)) && 0 < |x| < 255
            && (c[pc].instr.Store? ==> !v.value.isConst)
  {
    hide CodeOk, Inv, Mirrors, Resolve, HitAgrees;
    var pc := st.Top().pc;
    LookupsAgree(st.scopes, c[pc].note.view, |c[pc].note.live|, x);
  }

  lemma {:induction false} PlainSpelled(c: Code, strings: seq<string>, st: State, taken: bool)
    requires Facts(c, st)
    requires var i := Fetch([c], st).instr; !i.Decl? && !i.Load? && !i.Store?
    ensures Step([RespellCode(c, strings)], Spelled(strings, st), taken) == Spelled(strings, Step([c], st, taken))
  {
    hide CodeOk, Inv, Agrees, Emitted, FlowOk, ScopeOf;
    FactsStack(c, st);
    var pc := st.Top().pc;
    assert Spelled(strings, st).Top() == st.Top();
    match c[pc].instr
    case Enter(s) =>
      var none: Scope := [];
      assert SpellScope(strings, none) == none;
      assert SpellScopes(strings, st.scopes + [none]) == SpellScopes(strings, st.scopes) + [none];
    case PopTo(s) =>
      var t := SlotValue(st.Top(), s);
      if 1 <= t <= |st.scopes| {
        assert SpellScopes(strings, st.scopes[..t]) == SpellScopes(strings, st.scopes)[..t];
      }
    case _ =>
  }

  /** What one step does to the spelled state, whatever the instruction. */
  lemma {:induction false} StepSpelled(c: Code, strings: seq<string>, st: State, taken: bool)
    requires Facts(c, st) && Sited(c, st.scopes) && Covers(strings, c) && SameLengths(strings)
    requires SpellsApart(strings, Fetch([c], st))
    ensures Step([RespellCode(c, strings)], Spelled(strings, st), taken) == Spelled(strings, Step([c], st, taken))
  {
    hide *;
    FactsFetch(c, st);
    match Fetch([c], st).instr
    case Decl(x, k) => DeclSpelled(c, strings, st, x, k, taken);
    case Load(x) => AccessSpelled(c, strings, st, x, taken);
    case Store(x) => AccessSpelled(c, strings, st, x, taken);
    case _ => PlainSpelled(c, strings, st, taken);
  }

  lemma {:induction false} RunThenStep(code: seq<Code>, st: State, outcomes: seq<bool>, taken: bool)
    ensures Run(code, st, outcomes + [taken]) == Step(code, Run(code, st, outcomes), taken)
    decreases |outcomes|
  {
    hide Step;
    if outcomes == [] {
      assert [taken][1..] == [];
    } else {
      assert (outcomes + [taken])[1..] == outcomes[1..] + [taken];
      RunThenStep(code, Step(code, st, outcomes[0]), outcomes[1..], taken);
    }
  }

  // ---------------------------------------------------------------- whole runs

  function Original(b: Block, outcomes: seq<bool>): State { Run([CompileMain(b)], Init, outcomes) }

  function Emission(b: Block, strings: seq<string>, outcomes: seq<bool>): State {
    Run([RespellCode(CompileMain(b), strings)], Init, outcomes)
  }

  /** The state has halted, or its next instruction spells its name apart. */
  predicate NextApart(b: Block, strings: seq<string>, st: State) {
    var c := CompileMain(b);
    st.frames != [] && Fetches([c], st) ==> SpellsApart(strings, Fetch([c], st))
  }

  lemma {:induction false} OriginalFacts(b: Block, outcomes: seq<bool>)
    requires Admitted(b)
    ensures var st := Original(b, outcomes); st.frames != [] ==> Facts(CompileMain(b), st)
  {
    hide *;
    var p := Program(b, []);
    var c := CompileMain(b);
    OnlyMain(b, outcomes);
    MainNames(b);
    MainBuilds(b);
    InitialInv(p);
    ReachedInv(p, outcomes);
    ReachedAgrees(b, outcomes);
    if Original(b, outcomes).frames != [] { GetFacts(c, Original(b, outcomes)); }
  }

  lemma OnlyMain(b: Block, outcomes: seq<bool>)
    ensures CompileProgram(Program(b, [])) == [CompileMain(b)]
    ensures Reached(Program(b, []), outcomes) == Original(b, outcomes)
  {
    hide Run, CompileMain;
    assert CompileProgram(Program(b, [])) == [CompileMain(b)];
  }

  lemma MainBuilds(b: Block)
    requires Admitted(b)
    ensures Builds(Program(b, []))
  {
  }

  lemma {:induction false} OriginalSited(b: Block, outcomes: seq<bool>)
    requires Admitted(b)
    ensures Sited(CompileMain(b), Original(b, outcomes).scopes)
    decreases |outcomes|
  {
    if outcomes != [] {
      var n := |outcomes| - 1;
      var before := Original(b, outcomes[..n]);
      assert outcomes == outcomes[..n] + [outcomes[n]];
      RunThenStep([CompileMain(b)], Init, outcomes[..n], outcomes[n]);
      OriginalSited(b, outcomes[..n]);
      OriginalFacts(b, outcomes[..n]);
      hide *;
      if before.frames != [] {
        StepSited(CompileMain(b), before, outcomes[n]);
      } else {
        Halted([CompileMain(b)], before, outcomes[n]);
      }
    }
  }

  lemma Halted(code: seq<Code>, st: State, taken: bool)
    requires st.frames == []
    ensures Step(code, st, taken) == st
  {
  }

  /** As long as names are spelled apart, the emitted program is in the spelled state of the original. */
  lemma {:induction false} Lockstep(b: Block, strings: seq<string>, outcomes: seq<bool>)
    requires Admitted(b) && Covers(strings, CompileMain(b)) && SameLengths(strings)
    requires forall k :: 0 <= k < |outcomes| ==> NextApart(b, strings, Original(b, outcomes[..k]))
    ensures Emission(b, strings, outcomes) == Spelled(strings, Original(b, outcomes))
    decreases |outcomes|
  {
    hide CompileMain, RespellCode, SpellsApart, Facts, Covers, SameLengths, Step, Admitted, Sited, Fetches;
    var c := CompileMain(b);
    if outcomes != [] {
      var n := |outcomes| - 1;
      var o, t := outcomes[..n], outcomes[n];
      assert outcomes == o + [t];
      assert forall k :: 0 <= k < n ==> o[..k] == outcomes[..k];
      Lockstep(b, strings, o);
      RunThenStep([c], Init, o, t);
      RunThenStep([RespellCode(c, strings)], Init, o, t);
      OriginalFacts(b, o);
      OriginalSited(b, o);
      var st := Original(b, o);
      hide Run;
      if st.frames != [] {
        FactsFetch(c, st);
        StepSpelled(c, strings, st, t);
      } else {
        Halted([c], st, t);
        Halted([RespellCode(c, strings)], Spelled(strings, st), t);
      }
    }
  }

  lemma FactsFetch(c: Code, st: State)
    requires Facts(c, st)
    ensures Fetches([c], st) && st.frames != []
  {
  }

  lemma {:induction false} SpelledAgrees(b: Block, strings: seq<string>, outcomes: seq<bool>)
    requires Admitted(b)
    ensures Agreed(b, Spelled(strings, Original(b, outcomes)))
  {
    hide Admitted, CompileMain, Run, BlockFinds, Emitted;
    var st := Original(b, outcomes);
    OnlyMain(b, outcomes);
    StaticMeetsDynamic(b, outcomes);
    forall i | 0 <= i < |st.hits|
      ensures exists f :: f in BlockFinds(b, 0, [], 0) && f.pc == st.hits[i].pc && f.site == st.hits[i].site
    {
      assert HitFound(b, st.hits[i]);
    }
  }

  /** Where names are not spelled apart, the next step of the emitted program disagrees. */
  lemma {:induction false} StepDisagrees(b: Block, strings: seq<string>, st: State, taken: bool)
    requires var c := CompileMain(b); Facts(c, st) && Sited(c, st.scopes) && Covers(strings, c)
    requires Admitted(b) && SameLengths(strings) && !SpellsApart(strings, Fetch([CompileMain(b)], st))
    ensures !Agreed(b, Step([RespellCode(CompileMain(b), strings)], Spelled(strings, st), taken))
  {
    hide *;
    var c := CompileMain(b);
    var st' := Step([RespellCode(c, strings)], Spelled(strings, st), taken);
    FactsFetch(c, st);
    match Fetch([c], st).instr
    case Decl(x, k) => DeclSpelled(c, strings, st, x, k, taken); ErrorDisagrees(b, st');
    case Load(x) => AccessSpelled(c, strings, st, x, taken); AccessDisagrees(b, st, st', x);
    case Store(x) => AccessSpelled(c, strings, st, x, taken); AccessDisagrees(b, st, st', x);
    case _ => PlainApart(strings, Fetch([c], st));
  }

  lemma PlainApart(strings: seq<string>, cell: Cell)
    requires !cell.instr.Decl? && !cell.instr.Load? && !cell.instr.Store?
    ensures SpellsApart(strings, cell)
  {
  }

  lemma ErrorDisagrees(b: Block, st: State)
    requires st.errors != []
    ensures !Agreed(b, st)
  {
  }

  lemma AccessDisagrees(b: Block, st: State, st': State, x: string)
    requires Admitted(b) && Facts(CompileMain(b), st)
    requires var i := Fetch([CompileMain(b)], st).instr; i == Load(x) || i == Store(x)
    requires var pc := st.Top().pc;
             var note := CompileMain(b)[pc].note;
             var v := FindVar(note.view, |note.live|, x);
             st'.errors != [] || exists h :: h in st'.hits && h.pc == pc && v.Some? && h.site != v.value.site
    ensures !Agreed(b, st')
  {
    hide Admitted, CompileMain, Facts, FindVar, BlockFinds, BlockSize;
    var c, fs := CompileMain(b), BlockFinds(b, 0, [], 0);
    FactsFetch(c, st);
    var pc := st.Top().pc;
    var v := FindVar(c[pc].note.view, |c[pc].note.live|, x);
    if st'.errors == [] {
      var h :| h in st'.hits && h.pc == pc && v.Some? && h.site != v.value.site;
      MainAccounted(b);
      BlockSingle(b, 0, [], 0);
      assert Covered(c[pc], 0 + pc, fs);
      assert Found(pc, x, v.value.site) in FindAt(x, pc, c[pc].note.view, |c[pc].note.live|);
      assert Found(pc, x, v.value.site) in fs;
    }
  }

  lemma {:induction false} FirstDisagreement(b: Block, strings: seq<string>, outcomes: seq<bool>)
      returns (run: seq<bool>)
    requires Admitted(b) && Covers(strings, CompileMain(b)) && SameLengths(strings)
    requires !NextApart(b, strings, Original(b, outcomes))
    ensures !Agreed(b, Emission(b, strings, run))
    decreases |outcomes|
  {
    hide CompileMain, RespellCode, SpellsApart, Facts, Covers, SameLengths, Step, Admitted, Sited, Agreed, Run, Fetches;
    if k :| 0 <= k < |outcomes| && !NextApart(b, strings, Original(b, outcomes[..k])) {
      run := FirstDisagreement(b, strings, outcomes[..k]);
    } else {
      var st := Original(b, outcomes);
      run := outcomes + [true];
      OriginalFacts(b, outcomes);
      OriginalSited(b, outcomes);
      Lockstep(b, strings, outcomes);
      RunThenStep([RespellCode(CompileMain(b), strings)], Init, outcomes, true);
      StepDisagrees(b, strings, st, true);
    }
  }

  /** Some run of the program as written comes to this instruction. */
  ghost predicate Visited(b: Block, pc: nat) {
    exists outcomes :: var st := Original(b, outcomes); st.frames != [] && st.Top().pc == pc
  }

  /** The agreement survives emission, in all runs, if and only if every instruction that the program
      can come to spells its name apart: no emitted name is taken for another declaration of its
      scope, and none hides the variable meant. */
  lemma {:induction false} AgreementIff(b: Block, strings: seq<string>)
    requires Admitted(b) && Covers(strings, CompileMain(b)) && SameLengths(strings)
    ensures (forall outcomes :: Agreed(b, Emission(b, strings, outcomes)))
            <==> forall pc :: 0 <= pc < |CompileMain(b)| && Visited(b, pc) ==> SpellsApart(strings, CompileMain(b)[pc])
  {
    hide CompileMain, RespellCode, SpellsApart, Facts, Covers, SameLengths, Step, Admitted, Agreed, Run;
    var c := CompileMain(b);
    if forall pc :: 0 <= pc < |c| && Visited(b, pc) ==> SpellsApart(strings, c[pc]) {
      forall outcomes ensures Agreed(b, Emission(b, strings, outcomes)) {
        forall k | 0 <= k < |outcomes| ensures NextApart(b, strings, Original(b, outcomes[..k])) {
          VisitedHere(b, outcomes[..k]);
        }
        Lockstep(b, strings, outcomes);
        SpelledAgrees(b, strings, outcomes);
      }
    }
    if pc :| 0 <= pc < |c| && Visited(b, pc) && !SpellsApart(strings, c[pc]) {
      var outcomes :| var st := Original(b, outcomes); st.frames != [] && st.Top().pc == pc;
      VisitedHere(b, outcomes);
      var run := FirstDisagreement(b, strings, outcomes);
    }
  }

  lemma {:induction false} VisitedHere(b: Block, outcomes: seq<bool>)
    requires Admitted(b)
    ensures var c, st := CompileMain(b), Original(b, outcomes);
            st.frames != [] ==>
              Fetches([c], st) && Visited(b, st.Top().pc) && st.Top().pc < |c| && Fetch([c], st) == c[st.Top().pc]
  {
    hide CompileMain, Run, Admitted, Facts;
    OriginalFacts(b, outcomes);
    if Original(b, outcomes).frames != [] { FactsHere(CompileMain(b), Original(b, outcomes)); }
  }

  lemma FactsHere(c: Code, st: State)
    requires Facts(c, st)
    ensures Fetches([c], st) && st.Top().pc < |c| && Fetch([c], st) == c[st.Top().pc]
  {
  }

  // ---------------------------------------------------------------- a collision

  function TwoDecls(x: string, y: string): Block {
    Then(VarDecl(x, false, []), Then(VarDecl(y, false, []), Done))
  }

  /** `let x; let y` with colliding names of one length is accepted, and its only run reports a duplicate
      declaration. */
  lemma {:induction false} CollisionBreaksAgreement(x: string, y: string)
    requires 0 < |x| == |y| < 255 && x != y && Hash(x) == Hash(y)
    ensures var b := TwoDecls(x, y);
            && Admitted(b)
            && Covers([x, y], CompileMain(b))
            && Run([RespellCode(CompileMain(b), [x, y])], Init, [true, true]).errors == [Duplicate]
  {
    var second := Then(VarDecl(y, false, []), Done);
    var b := Then(VarDecl(x, false, []), second);
    var n1 := TopNote.(view := [StaticVar(x, false, 0, 0)]);
    var n2 := TopNote.(view := [StaticVar(y, false, 0, 1), StaticVar(x, false, 0, 0)]);
    var c := [Cell(Decl(x, false), TopNote), Cell(Decl(y, false), n1), Cell(Halt, n2)];
    TwoDeclsAdmitted(x, y);
    TwoDeclsCode(x, y);
    assert CompileMain(b) == c;
    var code: seq<Code> := [RespellCode(c, [x, y])];
    assert Emitted([x, y], x) == x && Emitted([x, y], y) == x;
    assert code[0][0].instr == Decl(x, false) && code[0][1].instr == Decl(x, false);
    var st1 := Step(code, Init, true);
    assert Init.At(1).frames == [Frame(0, 1, map[], 1)];
    var one: Scope := [] + [Var(x, false, 0)];
    assert one == [Var(x, false, 0)] && Init.scopes[0 := one] == [one];
    assert st1 == State([Frame(0, 1, map[], 1)], [[Var(x, false, 0)]], [], []);
    var st2 := Step(code, st1, true);
    assert IndexIn([Var(x, false, 0)], x) == 0;
    assert st2.errors == [Duplicate];
    assert Run(code, Init, [true, true]) == Run(code, st1, [true]) by { assert [true, true][1..] == [true]; }
    assert Run(code, st1, [true]) == Run(code, st2, []) by { assert [true][1..] == []; }
  }

  lemma TwoDeclsAdmitted(x: string, y: string)
    requires 0 < |x| < 255 && 0 < |y| < 255 && x != y
    ensures Admitted(Then(VarDecl(x, false, []), Then(VarDecl(y, false, []), Done)))
  {
    var second := Then(VarDecl(y, false, []), Done);
    var v := [StaticVar(x, false, 0, 0)];
    assert v + [] == v;
    assert AnalyseStmt(VarDecl(x, false, []), 0, [], 0) == Some(v);
    assert !DeclaredAt(v, 0, y);
    assert AnalyseStmt(VarDecl(y, false, []), 1, v, 0).Some?;
    assert AnalyseBlock(Done, 2, AnalyseStmt(VarDecl(y, false, []), 1, v, 0).value, 0).Some?;
    assert AnalyseBlock(second, 1, v, 0).Some?;
    assert SimpleBlock(second) && BlockBuilds(second, false, false, 0) && BlockFits(second, 0, 1) by {
      assert SimpleBlock(Done) && BlockBuilds(Done, false, false, 0) && BlockFits(Done, 0, 2);
    }
  }

  lemma TwoDeclsCode(x: string, y: string)
    ensures var n1 := TopNote.(view := [StaticVar(x, false, 0, 0)]);
            var n2 := TopNote.(view := [StaticVar(y, false, 0, 1), StaticVar(x, false, 0, 0)]);
            CompileMain(Then(VarDecl(x, false, []), Then(VarDecl(y, false, []), Done)))
            == [Cell(Decl(x, false), TopNote), Cell(Decl(y, false), n1), Cell(Halt, n2)]
  {
    var second := Then(VarDecl(y, false, []), Done);
    var n1 := TopNote.(view := [StaticVar(x, false, 0, 0)]);
    var n2 := TopNote.(view := [StaticVar(y, false, 0, 1), StaticVar(x, false, 0, 0)]);
    OneDecl(x, 0, TopNote);
    OneDecl(y, 1, n1);
    assert n1.view == [StaticVar(x, false, 0, 0)] + [];
    assert n2.view == [StaticVar(y, false, 0, 1)] + n1.view;
    hide CompileStmt, After;
    assert CompileBlock(Done, 2, Ctx(false, NoLoop, n2)) == [];
    assert CompileBlock(second, 1, Ctx(false, NoLoop, n1)) == [Cell(Decl(y, false), n1)];
    assert AfterBlock(Done, 2, false, n2) == n2.view;
    assert AfterBlock(second, 1, false, n1) == n2.view;
  }

  lemma OneDecl(x: string, pc: nat, note: Note)
    ensures CompileStmt(VarDecl(x, false, []), pc, Ctx(false, NoLoop, note)) == [Cell(Decl(x, false), note)]
    ensures Size(VarDecl(x, false, []), false) == 1
    ensures Next(VarDecl(x, false, []), pc, false, note) == note.(view := [StaticVar(x, false, |note.live|, pc)]
                                                                  + note.view)
  {
    hide CompileIf, CompileWhile, CompileForIn;
  }

  lemma FnvStep(h: bv32, x: string, i: nat)
    requires i < |x|
    ensures Fnv(h, x[i..]) == Fnv(Absorb(h, x[i]), x[i + 1..])
  {
    hide Absorb;
    assert x[i..][1..] == x[i + 1..];
  }

  lemma FnvEnd(h: bv32, x: string)
    ensures Fnv(h, x[|x|..]) == h && Hash(x) == Fnv(2166136261, x[0..])
  {
    assert x[0..] == x;
  }

  lemma Letters()
    ensures ByteOf('a') == 97
            && ByteOf('c') == 99
            && ByteOf('d') == 100
            && ByteOf('e') == 101
            && ByteOf('i') == 105
            && ByteOf('l') == 108
            && ByteOf('m') == 109
            && ByteOf('n') == 110
            && ByteOf('s') == 115
            && ByteOf('t') == 116
            && ByteOf('u') == 117
  {
  }

  lemma HashOfDeclinate()
    ensures Hash("declinate") == 0xe20e47d2
  {
    hide Fnv, Hash, ByteOf;
    Letters();
    var w := "declinate";
    FnvStep(0x811c9dc5, w, 0);
    assert Absorb(0x811c9dc5, 'd') == 0xe10c2473;
    FnvStep(0xe10c2473, w, 1);
    assert Absorb(0xe10c2473, 'e') == 0x5c1ccea2;
    FnvStep(0x5c1ccea2, w, 2);
    assert Absorb(0x5c1ccea2, 'c') == 0xc25979d3;
    FnvStep(0xc25979d3, w, 3);
    assert Absorb(0xc25979d3, 'l') == 0xb1daa7ad;
    FnvStep(0xb1daa7ad, w, 4);
    assert Absorb(0xb1daa7ad, 'i') == 0xbf36198c;
    FnvStep(0xbf36198c, w, 5);
    assert Absorb(0xbf36198c, 'n') == 0xe42abec6;
    FnvStep(0xe42abec6, w, 6);
    assert Absorb(0xe42abec6, 'a') == 0xd64a20e5;
    FnvStep(0xd64a20e5, w, 7);
    assert Absorb(0xd64a20e5, 't') == 0xe7b14443;
    FnvStep(0xe7b14443, w, 8);
    assert Absorb(0xe7b14443, 'e') == 0xe20e47d2;
    FnvEnd(0xe20e47d2, w);
  }

  lemma HashOfMacallums()
    ensures Hash("macallums") == 0xe20e47d2
  {
    hide Fnv, Hash, ByteOf;
    Letters();
    var w := "macallums";
    FnvStep(0x811c9dc5, w, 0);
    assert Absorb(0x811c9dc5, 'm') == 0xe80c2f78;
    FnvStep(0xe80c2f78, w, 1);
    assert Absorb(0xe80c2f78, 'a') == 0x642e245b;
    FnvStep(0x642e245b, w, 2);
    assert Absorb(0x642e245b, 'c') == 0xeca30428;
    FnvStep(0xeca30428, w, 3);
    assert Absorb(0xeca30428, 'a') == 0xcd9fbeeb;
    FnvStep(0xcd9fbeeb, w, 4);
    assert Absorb(0xcd9fbeeb, 'l') == 0x3978ee85;
    FnvStep(0x3978ee85, w, 5);
    assert Absorb(0x3978ee85, 'l') == 0x626018cb;
    FnvStep(0x626018cb, w, 6);
    assert Absorb(0x626018cb, 'u') == 0x9b46f31a;
    FnvStep(0x9b46f31a, w, 7);
    assert Absorb(0x9b46f31a, 'm') == 0xe7b14455;
    FnvStep(0xe7b14455, w, 8);
    assert Absorb(0xe7b14455, 's') == 0xe20e47d2;
    FnvEnd(0xe20e47d2, w);
  }

  lemma LengthsAre(x: string, y: string)
    requires |x| == |y|
    ensures SameLengths([x, y])
  {
  }

  /** Two names of nine letters with one hash: declaring both is accepted and fails at run time. */
  lemma {:induction false} RealCollision()
    ensures var x, y := "declinate", "macallums";
            && Hash(x) == Hash(y) && SameLengths([x, y])
            && Admitted(TwoDecls(x, y))
            && Run([RespellCode(CompileMain(TwoDecls(x, y)), [x, y])], Init, [true, true]).errors == [Duplicate]
  {
    hide *;
    var x, y := "declinate", "macallums";
    assert |x| == 9 && |y| == 9 && x[0] != y[0];
    HashOfDeclinate();
    HashOfMacallums();
    LengthsAre(x, y);
    CollisionBreaksAgreement(x, y);
  }
}
