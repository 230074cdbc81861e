/** The operations of the runtime's scope stack, told by what is declared where. */
module ScopeLaws {
  import opened Syntax
  import opened Codegen
  import opened Machine

  predicate HasName(s: Scope, name: string) { exists i :: 0 <= i < |s| && s[i].name == name }

  /** `v` is the first variable of that name in the innermost scope that has one. */
  ghost predicate Innermost(scopes: seq<Scope>, name: string, v: Var) {
    exists d: nat, i: nat ::
      && d < |scopes| && i < |scopes[d]| && scopes[d][i] == v && v.name == name
      && (forall j :: 0 <= j < i ==> scopes[d][j].name != name)
      && forall e :: d < e < |scopes| ==> !HasName(scopes[e], name)
  }

  predicate Usable(name: string) { 0 < |name| < 255 }

  lemma {:induction false} IndexIff(s: Scope, name: string)
    ensures IndexIn(s, name) < |s| <==> HasName(s, name)
  {
  }

  lemma TopIsInnermost(scopes: seq<Scope>, s: Scope, name: string, i: nat)
    requires scopes != [] && scopes[|scopes| - 1] == s && i < |s| && s[i].name == name
    requires forall j :: 0 <= j < i ==> s[j].name != name
    ensures Innermost(scopes, name, s[i])
  {
    hide HasName;
    assert scopes[|scopes| - 1][i] == s[i];
  }

  lemma StillInnermost(scopes: seq<Scope>, name: string, v: Var)
    requires scopes != [] && !HasName(scopes[|scopes| - 1], name) && Innermost(scopes[..|scopes| - 1], name, v)
    ensures Innermost(scopes, name, v)
  {
    hide HasName;
    var n := |scopes| - 1;
    var below := scopes[..n];
    var d: nat, i: nat :| d < |below| && i < |below[d]| && below[d][i] == v && v.name == name
      && (forall j :: 0 <= j < i ==> below[d][j].name != name)
      && forall e :: d < e < |below| ==> !HasName(below[e], name);
    assert below[d] == scopes[d];
    forall e | d < e < |scopes| ensures !HasName(scopes[e], name) {
      if e < n { assert below[e] == scopes[e]; }
    }
  }

  /** The lookup finds the innermost variable, and nothing exactly if no scope has the name. */
  lemma {:induction false} ResolveIff(scopes: seq<Scope>, name: string)
    ensures Resolve(scopes, name).None? <==> forall d :: 0 <= d < |scopes| ==> !HasName(scopes[d], name)
    ensures Resolve(scopes, name).Some? ==> Innermost(scopes, name, Resolve(scopes, name).value)
    decreases |scopes|
  {
    hide HasName, Innermost, IndexIn;
    if scopes != [] {
      var n := |scopes| - 1;
      var s, below := scopes[n], scopes[..n];
      IndexIff(s, name);
      ResolveIff(below, name);
      assert forall d :: 0 <= d < n ==> below[d] == scopes[d];
      if IndexIn(s, name) < |s| {
        TopIsInnermost(scopes, s, name, IndexIn(s, name));
      } else if Resolve(below, name).Some? {
        StillInnermost(scopes, name, Resolve(below, name).value);
      }
    }
  }

  /** A load or an assignment is refused exactly if the name is unusable, no scope has it, or it is an assignment
      to a constant; otherwise it is recorded with the declaration of the innermost variable. */
  lemma {:induction false} TouchIff(st: State, pc: nat, name: string, store: bool)
    ensures var st' := Touch(st, pc, name, store);
            var known := Usable(name) && exists d :: 0 <= d < |st.scopes| && HasName(st.scopes[d], name);
            && st'.scopes == st.scopes && st'.frames == st.frames
            && (!known ==> st' == st.(errors := st.errors + [UnknownName]))
            && (known ==>
                  exists v :: Innermost(st.scopes, name, v)
                              && st' == if store && v.isConst then st.(errors := st.errors + [ConstAssign])
                                        else st.(hits := st.hits + [Hit(pc, name, v.site)]))
  {
    hide Resolve, Innermost, HasName;
    ResolveIff(st.scopes, name);
  }

  /** A declaration is refused exactly if the name is taken in the top scope, the scope is full, or the name is
      too long; otherwise the name then means the new variable, and every other name what it meant before. */
  lemma {:induction false} DeclareIff(st: State, name: string, isConst: bool, site: nat, other: string)
    requires st.scopes != []
    ensures var st', top := Declare(st, name, isConst, site), st.scopes[|st.scopes| - 1];
            && st'.frames == st.frames && st'.hits == st.hits
            && (st'.errors == st.errors <==> !HasName(top, name) && |top| < MAX_VARS && |name| < 255)
            && (st'.errors != st.errors ==> st'.scopes == st.scopes && |st'.errors| == |st.errors| + 1)
            && (st'.errors == st.errors ==>
                  && Resolve(st'.scopes, name) == Some(Var(name, isConst, site))
                  && (other != name ==> Resolve(st'.scopes, other) == Resolve(st.scopes, other)))
  {
    var n := |st.scopes| - 1;
    var top, v := st.scopes[n], Var(name, isConst, site);
    var st' := Declare(st, name, isConst, site);
    IndexIff(top, name);
    if st'.errors == st.errors {
      assert st'.scopes == st.scopes[n := top + [v]];
      assert st'.scopes[..n] == st.scopes[..n];
      LastIndex(top, v, name);
      LastIndex(top, v, other);
    }
  }

  lemma {:induction false} LastIndex(s: Scope, v: Var, name: string)
    ensures IndexIn(s + [v], name) == if IndexIn(s, name) < |s| then IndexIn(s, name)
                                      else if v.name == name then |s| else |s| + 1
  {
    var i, j := IndexIn(s + [v], name), IndexIn(s, name);
    assert forall k :: 0 <= k < |s| ==> (s + [v])[k] == s[k];
    assert (s + [v])[|s|] == v;
    if j < |s| { assert (s + [v])[j].name == name; }
  }

  /** Declaring what is missing: a name that some scope has is left alone, and no duplicate is ever reported. */
  lemma {:induction false} MissingIff(code: seq<Code>, st: State, name: string, taken: bool)
    requires Fetches(code, st) && Fetch(code, st).instr == DeclIfMissing(name) && st.scopes != [] && Usable(name)
    ensures var st' := Step(code, st, taken);
            && (Resolve(st.scopes, name).Some? ==> st'.scopes == st.scopes && st'.errors == st.errors)
            && (Resolve(st.scopes, name).None? ==>
                  var full := |st.scopes[|st.scopes| - 1]| >= MAX_VARS;
                  st'.errors == st.errors + if full then [TooManyVars] else [])
            && (st'.errors == st.errors ==> Resolve(st'.scopes, name).Some?)
  {
    var next := st.At(st.Top().pc + 1);
    ResolveIff(st.scopes, name);
    DeclareIff(next, name, false, st.Top().pc, name);
    hide Resolve, IndexIn, HasName;
  }

  /** Pushing hides nothing, and popping to a depth brings back the meaning that names had there. */
  lemma {:induction false} PushThenUnwind(st: State, name: string)
    requires 0 < |st.scopes| < MAX_SCOPES
    ensures Push(st).errors == st.errors && Resolve(Push(st).scopes, name) == Resolve(st.scopes, name)
    ensures Unwind(Push(st), |st.scopes|) == st
  {
    assert (st.scopes + [[]])[..|st.scopes|] == st.scopes;
    assert Push(st).scopes[|st.scopes|] == [];
  }
}
