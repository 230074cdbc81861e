/** Static and dynamic scoping agree: what the semantic pass accepts runs without a scope error, and
    every lookup reaches the declaration the pass found. Top-level code without calls and `for-in`.
    This module relates the two data structures. The scope stack mirrors the pass's list when each scope
    holds the listed variables of its depth, oldest first. Searching, declaring, entering and leaving
    scopes then keep that relation, and the searches agree although one goes from the newest variable
    and the other from the oldest of each scope. */
module Names {
  import opened Syntax
  import opened Codegen
  import opened Analyser
  import opened Flow
  import opened Machine
  import opened Depth

  // ---------------------------------------------------------------- the list and the stack

  function ToVar(v: StaticVar): Var { Var(v.name, v.isConst, v.site) }

  /** The runtime scope at depth `d`: the listed variables of that depth, oldest first. */
  function ScopeOf(view: View, d: nat): Scope {
    if view == [] then []
    else if view[0].depth == d then ScopeOf(view[1..], d) + [ToVar(view[0])]
    else ScopeOf(view[1..], d)
  }

  predicate Mirrors(scopes: seq<Scope>, view: View, depth: nat) {
    |scopes| == depth + 1 && forall d :: 0 <= d <= depth ==> scopes[d] == ScopeOf(view, d)
  }

  lemma {:induction false} IndexInLast(s: Scope, v: Var, name: string)
    ensures IndexIn(s + [v], name) == if IndexIn(s, name) < |s| then IndexIn(s, name)
                                      else if v.name == name then |s| else |s| + 1
  {
    var i := IndexIn(s + [v], name);
    var j := IndexIn(s, name);
    assert forall k :: 0 <= k < |s| ==> (s + [v])[k] == s[k];
    assert (s + [v])[|s|] == v;
    if j < |s| { assert (s + [v])[j].name == name; }
  }

  lemma {:induction false} ScopeNames(view: View, d: nat, name: string)
    ensures IndexIn(ScopeOf(view, d), name) < |ScopeOf(view, d)| <==> DeclaredAt(view, d, name)
    decreases |view|
  {
    if view != [] {
      ScopeNames(view[1..], d, name);
      if view[0].depth == d { IndexInLast(ScopeOf(view[1..], d), ToVar(view[0]), name); }
      if DeclaredAt(view[1..], d, name) {
        var i :| 0 <= i < |view[1..]| && view[1..][i].depth == d && view[1..][i].name == name;
        assert view[i + 1].depth == d && view[i + 1].name == name;
      }
      if DeclaredAt(view, d, name) && !(view[0].depth == d && view[0].name == name) {
        var i :| 0 <= i < |view| && view[i].depth == d && view[i].name == name;
        assert view[1..][i - 1].depth == d && view[1..][i - 1].name == name;
      }
    }
  }

  lemma WellFormedTail(view: View, depth: nat)
    requires WellFormed(view, depth) && view != []
    ensures WellFormed(view[1..], depth)
  {
    var t := view[1..];
    assert forall i :: 0 <= i < |t| ==> t[i] == view[i + 1];
  }

  /** Searching one scope from its oldest variable finds what searching the list from its newest
      variable finds, because no name occurs twice at one depth. */
  lemma {:induction false} InnermostScope(view: View, depth: nat, name: string)
    requires WellFormed(view, depth)
    ensures var s, i := ScopeOf(view, depth), IndexIn(ScopeOf(view, depth), name);
            match FindVar(view, depth, name)
            case Some(v) => (if v.depth == depth then i < |s| && s[i] == ToVar(v) else i == |s|)
            case None => i == |s|
    decreases |view|
  {
    ScopeNames(view, depth, name);
    if view != [] {
      WellFormedTail(view, depth);
      InnermostScope(view[1..], depth, name);
      var t := ScopeOf(view[1..], depth);
      if view[0].depth == depth {
        IndexInLast(t, ToVar(view[0]), name);
        if view[0].name == name {
          ScopeNames(view[1..], depth, name);
          assert !DeclaredAt(view[1..], depth, name);
        }
      } else if view[0].name == name {
        assert !DeclaredAt(view, depth, name);
      }
    }
  }

  /** The part of the list below a depth, and the lookups and scopes it keeps. */
  lemma {:induction false} Below(view: View, depth: nat, name: string)
    requires WellFormed(view, depth) && depth > 0
    ensures WellFormed(LeaveScope(view, depth), depth - 1)
    ensures forall d :: 0 <= d < depth ==> ScopeOf(LeaveScope(view, depth), d) == ScopeOf(view, d)
    ensures match FindVar(view, depth, name)
            case Some(v) => v.depth < depth ==> FindVar(LeaveScope(view, depth), depth - 1, name) == Some(v)
            case None => FindVar(LeaveScope(view, depth), depth - 1, name) == None
    decreases |view|
  {
    if view != [] {
      WellFormedTail(view, depth);
      if view[0].depth == depth {
        Below(view[1..], depth, name);
      } else {
        assert forall i :: 0 <= i < |view| ==> view[i].depth < depth;
        LeaveKeeps(view, depth);
        FindShallow(view, depth, name);
      }
    }
  }

  lemma {:induction false} FindShallow(view: View, depth: nat, name: string)
    requires depth > 0 && forall i :: 0 <= i < |view| ==> view[i].depth < depth
    ensures FindVar(view, depth, name) == FindVar(view, depth - 1, name)
    ensures FindVar(view, depth, name).Some? ==> FindVar(view, depth, name).value.depth < depth
    decreases |view|
  {
    if view != [] { FindShallow(view[1..], depth, name); }
  }

  /** The runtime lookup, from the top of the scope stack down, reaches the declaration found in the list. */
  lemma {:induction false} LookupsAgree(scopes: seq<Scope>, view: View, depth: nat, name: string)
    requires WellFormed(view, depth) && Mirrors(scopes, view, depth)
    ensures Resolve(scopes, name) == match FindVar(view, depth, name) case None => None case Some(v) => Some(ToVar(v))
    decreases depth
  {
    hide ScopeOf, IndexIn, FindVar, LeaveScope, WellFormed;
    InnermostScope(view, depth, name);
    var rest := scopes[..|scopes| - 1];
    if depth > 0 {
      Below(view, depth, name);
      LookupsAgree(rest, LeaveScope(view, depth), depth - 1, name);
    } else {
      assert Resolve(rest, name) == None;
    }
  }

  lemma {:induction false} DeclareMirrors(scopes: seq<Scope>, view: View, depth: nat, v: StaticVar)
    requires WellFormed(view, depth) && Mirrors(scopes, view, depth)
    requires v.depth == depth && 0 < |v.name| < 255 && !DeclaredAt(view, depth, v.name)
    ensures WellFormed([v] + view, depth)
    ensures Mirrors(scopes[depth := scopes[depth] + [ToVar(v)]], [v] + view, depth)
  {
    assert ([v] + view)[1..] == view;
  }

  lemma {:induction false} UnwindMirrors(scopes: seq<Scope>, now: View, depth: nat, was: View, depth': nat)
    requires WellFormed(now, depth) && Mirrors(scopes, now, depth)
    requires depth' < depth && Extends(now, was, depth' + 1) && forall i :: 0 <= i < |was| ==> was[i].depth <= depth'
    ensures WellFormed(was, depth')
    ensures Mirrors(scopes[..depth' + 1], was, depth')
  {
    var n := |now| - |was|;
    assert forall i :: 0 <= i < |was| ==> was[i] == now[i + n];
    forall d | 0 <= d <= depth' ensures ScopeOf(was, d) == ScopeOf(now, d) {
      ExtensionKeepsScope(now, was, depth' + 1, d);
    }
  }

  lemma {:induction false} ExtensionKeepsScope(now: View, was: View, depth: nat, d: nat)
    requires Extends(now, was, depth) && d < depth
    ensures ScopeOf(was, d) == ScopeOf(now, d)
    decreases |now|
  {
    if |now| == |was| {
      assert now == was;
    } else {
      assert now[1..][|now[1..]| - |was|..] == now[|now| - |was|..];
      ExtensionKeepsScope(now[1..], was, depth, d);
    }
  }
}
