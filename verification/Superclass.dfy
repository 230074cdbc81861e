/** The class of an array literal: the search for a common superclass, and its fold over the elements.
    A registry lists the declared classes; a parent that is not registered ends the walk. */
module Superclass {
  import opened Syntax

  datatype Class = Class(name: string, parent: Option<string>)

  type Registry = seq<Class>

  /** Class `i` is the first of its name. */
  predicate IsFirst(h: Registry, i: nat, name: string) {
    i < |h| && h[i].name == name && forall j :: 0 <= j < i ==> h[j].name != name
  }

  function Find(h: Registry, name: string): (c: Option<Class>)
    ensures c.Some? ==> c.value in h && c.value.name == name
  {
    if h == [] then None else if h[0].name == name then Some(h[0]) else Find(h[1..], name)
  }

  function Parent(h: Registry, name: string): (c: Option<Class>)
  {
    match Find(h, name)
    case None => None
    case Some(c) => if c.parent.None? then None else Find(h, c.parent.value)
  }

  /** Every class ranks above its registered parent, so no chain of parents comes back. */
  ghost predicate Ranked(h: Registry, rank: map<string, nat>) {
    forall x :: Find(h, x).Some? ==>
      x in rank && (Parent(h, x).Some? ==> Parent(h, x).value.name in rank && rank[Parent(h, x).value.name] < rank[x])
  }

  /** The class itself and its ancestors, nearest first. */
  ghost function Ancestors(h: Registry, rank: map<string, nat>, x: string): (s: seq<string>)
    requires Ranked(h, rank)
    ensures s == [] <==> Find(h, x).None?
    decreases if x in rank then rank[x] else 0
  {
    if Find(h, x).None? then []
    else [x] + if Parent(h, x).None? then [] else Ancestors(h, rank, Parent(h, x).value.name)
  }

  /** The search finds the first class of the name, and nothing exactly if there is none. */
  lemma {:induction false} FindIff(h: Registry, name: string)
    ensures Find(h, name).None? <==> forall i :: 0 <= i < |h| ==> h[i].name != name
    ensures forall i: nat :: IsFirst(h, i, name) ==> Find(h, name) == Some(h[i])
    ensures Find(h, name).Some? ==> exists i: nat :: IsFirst(h, i, name)
    decreases |h|
  {
    if h != [] && h[0].name == name {
      assert IsFirst(h, 0, name);
    } else if h != [] {
      var t := h[1..];
      FindIff(t, name);
      assert forall i :: 0 <= i < |t| ==> t[i] == h[i + 1];
      if Find(h, name).Some? {
        var i: nat :| IsFirst(t, i, name);
        assert IsFirst(h, i + 1, name);
      }
      forall i: nat | IsFirst(h, i, name) ensures Find(h, name) == Some(h[i]) {
        assert IsFirst(t, i - 1, name);
      }
    }
  }

  /** The first class of name `x` names `y` as its parent, and `y` is registered. */
  ghost predicate Extends(h: Registry, x: string, y: string) {
    && (exists i: nat :: IsFirst(h, i, x) && h[i].parent == Some(y))
    && exists i :: 0 <= i < |h| && h[i].name == y
  }

  lemma ExtendsIff(h: Registry, x: string, y: string)
    ensures Extends(h, x, y) <==> Parent(h, x).Some? && Parent(h, x).value.name == y
  {
    FindIff(h, x);
    FindIff(h, y);
  }

  /** `path` goes up from `x` to `a`, one parent at a time. */
  ghost predicate IsLine(h: Registry, path: seq<string>, x: string, a: string) {
    && path != [] && path[0] == x && path[|path| - 1] == a
    && forall i :: 0 <= i < |path| - 1 ==> Extends(h, path[i], path[i + 1])
  }

  /** The ancestors of a registered class are what the parent relation reaches from it. */
  lemma {:induction false} AncestorsIff(h: Registry, rank: map<string, nat>, x: string, a: string)
    requires Ranked(h, rank)
    ensures a in Ancestors(h, rank, x) <==>
              (exists i :: 0 <= i < |h| && h[i].name == x) && exists path :: IsLine(h, path, x, a)
  {
    FindIff(h, x);
    if a in Ancestors(h, rank, x) { var path := LineTo(h, rank, x, a); }
    if path :| IsLine(h, path, x, a) {
      if Find(h, x).Some? { LineReaches(h, rank, path, x, a); }
    }
  }

  lemma {:induction false} LineTo(h: Registry, rank: map<string, nat>, x: string, a: string) returns (path: seq<string>)
    requires Ranked(h, rank) && a in Ancestors(h, rank, x)
    ensures IsLine(h, path, x, a)
    decreases rank[x]
  {
    hide Extends;
    if a == x {
      path := [x];
    } else {
      var y := Parent(h, x).value.name;
      var rest := LineTo(h, rank, y, a);
      ExtendsIff(h, x, y);
      path := [x] + rest;
      assert forall i :: 0 < i < |path| ==> path[i] == rest[i - 1];
      forall i | 0 <= i < |path| - 1 ensures Extends(h, path[i], path[i + 1]) {
        if i > 0 { assert Extends(h, rest[i - 1], rest[i - 1 + 1]); }
      }
    }
  }

  lemma {:induction false} LineReaches(h: Registry, rank: map<string, nat>, path: seq<string>, x: string, a: string)
    requires Ranked(h, rank) && Find(h, x).Some? && IsLine(h, path, x, a)
    ensures a in Ancestors(h, rank, x)
    decreases |path|
  {
    hide Extends;
    if |path| > 1 {
      assert Extends(h, path[0], path[0 + 1]);
      ExtendsIff(h, x, path[1]);
      var rest := path[1..];
      forall i | 0 <= i < |rest| - 1 ensures Extends(h, rest[i], rest[i + 1]) {
        assert Extends(h, path[i + 1], path[i + 1 + 1]);
      }
      FindIff(h, path[1]);
      LineReaches(h, rank, rest, path[1], a);
    }
  }

  // ---------------------------------------------------------------- the order of inheritance

  lemma {:induction false} AncestorsRegistered(h: Registry, rank: map<string, nat>, x: string, a: string)
    requires Ranked(h, rank) && a in Ancestors(h, rank, x)
    ensures Find(h, a).Some? && Find(h, x).Some? && a in Ancestors(h, rank, a)
    ensures a != x ==> rank[a] < rank[x]
    decreases rank[x]
  {
    if a == x {
    } else {
      AncestorsRegistered(h, rank, Parent(h, x).value.name, a);
    }
  }

  lemma {:induction false} Transitive(h: Registry, rank: map<string, nat>, x: string, a: string, b: string)
    requires Ranked(h, rank) && a in Ancestors(h, rank, x) && b in Ancestors(h, rank, a)
    ensures b in Ancestors(h, rank, x)
    decreases rank[x]
  {
    if a != x { Transitive(h, rank, Parent(h, x).value.name, a, b); }
  }

  /** With single inheritance the ancestors of one class form a chain. */
  lemma {:induction false} Chain(h: Registry, rank: map<string, nat>, x: string, a: string, b: string)
    requires Ranked(h, rank) && a in Ancestors(h, rank, x) && b in Ancestors(h, rank, x)
    ensures a in Ancestors(h, rank, b) || b in Ancestors(h, rank, a)
    decreases rank[x]
  {
    if a != x && b != x { Chain(h, rank, Parent(h, x).value.name, a, b); }
  }

  ghost predicate Common(h: Registry, rank: map<string, nat>, xs: seq<string>, a: string)
    requires Ranked(h, rank)
  {
    forall x :: x in xs ==> a in Ancestors(h, rank, x)
  }

  /** The common ancestor below all the others. */
  ghost predicate Least(h: Registry, rank: map<string, nat>, xs: seq<string>, a: string)
    requires Ranked(h, rank)
  {
    Common(h, rank, xs, a) && forall b :: Common(h, rank, xs, b) ==> b in Ancestors(h, rank, a)
  }

  lemma {:induction false} LeastIsUnique(h: Registry, rank: map<string, nat>, xs: seq<string>, a: string, b: string)
    requires Ranked(h, rank) && Least(h, rank, xs, a) && Least(h, rank, xs, b)
    ensures a == b
  {
    AncestorsRegistered(h, rank, a, b);
    AncestorsRegistered(h, rank, b, a);
  }

  // ---------------------------------------------------------------- the search

  /** What the search for two classes has to find. */
  ghost predicate Answers(h: Registry, rank: map<string, nat>, a: string, b: string, r: Option<string>)
    requires Ranked(h, rank)
  {
    match r
    case Some(c) => Least(h, rank, [a, b], c)
    case None => forall c :: !Common(h, rank, [a, b], c)
  }

  method FindClass(h: Registry, name: string) returns (c: Option<Class>)
    ensures c == Find(h, name)
    ensures c.None? <==> forall i :: 0 <= i < |h| ==> h[i].name != name
    ensures forall i: nat :: IsFirst(h, i, name) ==> c == Some(h[i])
  {
    FindIff(h, name);
    var i := 0;
    while i < |h|
      invariant i <= |h| && Find(h[i..], name) == Find(h, name)
    {
      if h[i].name == name {
        return Some(h[i]);
      }
      assert h[i..][1..] == h[i + 1..];
      i := i + 1;
    }
    return None;
  }

  method ParentOf(h: Registry, c: Class) returns (p: Option<Class>)
    requires Find(h, c.name) == Some(c)
    ensures p == Parent(h, c.name)
  {
    p := None;
    if c.parent.Some? {
      p := FindClass(h, c.parent.value);
    }
  }

  /** The ancestors still to be visited from a position of a walk. */
  ghost function From(h: Registry, rank: map<string, nat>, at: Option<Class>): seq<string>
    requires Ranked(h, rank)
  {
    if at.None? then [] else Ancestors(h, rank, at.value.name)
  }

  /** Walks up from `b` looking for `x`. */
  method IsAncestor(h: Registry, ghost rank: map<string, nat>, x: string, b: Class) returns (yes: bool)
    requires Ranked(h, rank) && Find(h, b.name) == Some(b)
    ensures yes <==> x in Ancestors(h, rank, b.name)
  {
    var at := Some(b);
    while at.Some?
      invariant at.Some? ==> Find(h, at.value.name) == at
      invariant x in Ancestors(h, rank, b.name) <==> x in From(h, rank, at)
      decreases at.Some?, if at.Some? then rank[at.value.name] else 0
    {
      if at.value.name == x {
        return true;
      }
      var up := ParentOf(h, at.value);
      at := up;
    }
    return false;
  }

  /** For each ancestor of `a`, nearest first, walks the ancestors of `b`. */
  method CommonSuperclass(h: Registry, ghost rank: map<string, nat>, a: string, b: string) returns (r: Option<string>)
    requires Ranked(h, rank)
    ensures Answers(h, rank, a, b, r)
  {
    var first := FindClass(h, a);
    var other := FindClass(h, b);
    if first.None? || other.None? {
      assert forall c :: Common(h, rank, [a, b], c) ==> a in [a, b] && b in [a, b];
      return None;
    }
    var at := first;
    while at.Some?
      invariant at.Some? ==> Find(h, at.value.name) == at && at.value.name in Ancestors(h, rank, a)
      invariant forall c :: c in Ancestors(h, rank, a) && c in Ancestors(h, rank, b) ==> c in From(h, rank, at)
      decreases at.Some?, if at.Some? then rank[at.value.name] else 0
    {
      var found := IsAncestor(h, rank, at.value.name, other.value);
      if found {
        Nearest(h, rank, a, b, at.value.name);
        return Some(at.value.name);
      }
      var up := ParentOf(h, at.value);
      if up.Some? {
        assert up.value.name in Ancestors(h, rank, up.value.name);
        Transitive(h, rank, a, at.value.name, up.value.name);
      }
      at := up;
    }
    assert forall c :: Common(h, rank, [a, b], c) ==> a in [a, b] && b in [a, b];
    return None;
  }

  lemma Nearest(h: Registry, rank: map<string, nat>, a: string, b: string, c: string)
    requires Ranked(h, rank) && c in Ancestors(h, rank, a) && c in Ancestors(h, rank, b)
    requires forall d :: d in Ancestors(h, rank, a) && d in Ancestors(h, rank, b) ==> d in Ancestors(h, rank, c)
    ensures Least(h, rank, [a, b], c)
  {
    forall d | Common(h, rank, [a, b], d) ensures d in Ancestors(h, rank, c) {
      assert a in [a, b] && b in [a, b];
    }
  }

  // ---------------------------------------------------------------- array literals

  /** A struct type may name a class: the type parser does not know which names are classes. */
  datatype Desc = ClassType(name: string) | StructType(name: string) | Plain(id: nat)

  predicate Nominal(d: Desc) { !d.Plain? }

  ghost predicate AllSame(ds: seq<Desc>) { forall d, e :: d in ds && e in ds ==> d == e }

  ghost predicate Shared(h: Registry, rank: map<string, nat>, ds: seq<Desc>, a: string)
    requires Ranked(h, rank)
  {
    forall d :: d in ds ==> Nominal(d) && a in Ancestors(h, rank, d.name)
  }

  /** The element type of a literal: the type of its elements if they all have the same one, otherwise
      the class that is the least common ancestor of all of them; none if there is no such class. */
  ghost predicate ElementType(h: Registry, rank: map<string, nat>, ds: seq<Desc>, r: Option<Desc>)
    requires Ranked(h, rank) && ds != []
  {
    if AllSame(ds) then r == Some(ds[0])
    else
      match r
      case None => forall a :: !Shared(h, rank, ds, a)
      case Some(t) =>
        t.ClassType? && Shared(h, rank, ds, t.name)
        && forall b :: Shared(h, rank, ds, b) ==> b in Ancestors(h, rank, t.name)
  }

  method Infer(h: Registry, ghost rank: map<string, nat>, ds: seq<Desc>) returns (r: Option<Desc>)
    requires Ranked(h, rank) && ds != []
    ensures ElementType(h, rank, ds, r)
  {
    hide ElementType, Answers, AllSame, Shared, Ranked, Ancestors;
    var elem := ds[0];
    var i := 1;
    assert ds[..1] == [ds[0]];
    OneElement(h, rank, ds[0]);
    while i < |ds|
      invariant 1 <= i <= |ds|
      invariant ElementType(h, rank, ds[..i], Some(elem))
    {
      assert ds[..i + 1] == ds[..i] + [ds[i]];
      if elem == ds[i] {
        SameElement(h, rank, ds[..i], elem);
      } else {
        var common := None;
        if Nominal(elem) && Nominal(ds[i]) {
          common := CommonSuperclass(h, rank, elem.name, ds[i].name);
        }
        NewElement(h, rank, ds[..i], elem, ds[i], common);
        if common.None? {
          NoLater(h, rank, ds[..i + 1], ds);
          return None;
        }
        elem := ClassType(common.value);
      }
      i := i + 1;
    }
    assert ds[..i] == ds;
    return Some(elem);
  }

  lemma OneElement(h: Registry, rank: map<string, nat>, d: Desc)
    requires Ranked(h, rank)
    ensures ElementType(h, rank, [d], Some(d))
  {
  }

  lemma StillDiffer(ds: seq<Desc>, es: seq<Desc>)
    requires !AllSame(ds) && forall d :: d in ds ==> d in es
    ensures !AllSame(es)
  {
    var d, e :| d in ds && e in ds && d != e;
    assert d in es && e in es;
  }

  lemma SharedByFewer(h: Registry, rank: map<string, nat>, ds: seq<Desc>, es: seq<Desc>, b: string)
    requires Ranked(h, rank) && Shared(h, rank, es, b) && forall d :: d in ds ==> d in es
    ensures Shared(h, rank, ds, b)
  {
    hide Ranked, Ancestors;
  }

  lemma {:induction false} SameElement(h: Registry, rank: map<string, nat>, ds: seq<Desc>, elem: Desc)
    requires Ranked(h, rank) && ds != [] && ElementType(h, rank, ds, Some(elem))
    ensures ElementType(h, rank, ds + [elem], Some(elem))
  {
    var es := ds + [elem];
    assert es[0] == ds[0] && ds[0] in ds;
    assert forall d :: d in es <==> d in ds || d == elem;
    if !AllSame(ds) {
      StillDiffer(ds, es);
      assert Shared(h, rank, es, elem.name) by {
        SelfAncestor(h, rank, ds, elem);
        hide Ranked, Ancestors, AllSame;
      }
      hide Ranked, Ancestors, AllSame, Shared;
      forall b | Shared(h, rank, es, b) ensures b in Ancestors(h, rank, elem.name) {
        SharedByFewer(h, rank, ds, es, b);
      }
    }
  }

  lemma SelfAncestor(h: Registry, rank: map<string, nat>, ds: seq<Desc>, elem: Desc)
    requires Ranked(h, rank) && ds != [] && elem.ClassType? && Shared(h, rank, ds, elem.name)
    ensures elem.name in Ancestors(h, rank, elem.name)
  {
    assert ds[0] in ds;
    AncestorsRegistered(h, rank, ds[0].name, elem.name);
  }

  lemma {:induction false} NowDiffer(ds: seq<Desc>, elem: Desc, d: Desc)
    requires ds != [] && elem != d && (AllSame(ds) ==> elem == ds[0])
    ensures !AllSame(ds + [d])
  {
    var es := ds + [d];
    assert d in es && ds[0] in es by { assert es[|ds|] == d && es[0] == ds[0]; }
    if !AllSame(ds) {
      var x, y :| x in ds && y in ds && x != y;
      assert x in es && y in es;
    }
  }

  lemma CommonOfTwo(h: Registry, rank: map<string, nat>, x: string, y: string, b: string)
    requires Ranked(h, rank)
    ensures Common(h, rank, [x, y], b) <==> b in Ancestors(h, rank, x) && b in Ancestors(h, rank, y)
  {
    assert x in [x, y] && y in [x, y];
  }

  lemma {:induction false} NewElement(h: Registry, rank: map<string, nat>, ds: seq<Desc>, elem: Desc, d: Desc,
                                      common: Option<string>)
    requires Ranked(h, rank) && ds != [] && ElementType(h, rank, ds, Some(elem)) && elem != d
    requires if Nominal(elem) && Nominal(d) then Answers(h, rank, elem.name, d.name, common) else common.None?
    ensures !AllSame(ds + [d])
    ensures ElementType(h, rank, ds + [d], if common.None? then None else Some(ClassType(common.value)))
  {
    NowDiffer(ds, elem, d);
    forall b { SharedByMore(h, rank, ds, elem, d, b); }
    if Nominal(elem) && Nominal(d) {
      forall b { CommonOfTwo(h, rank, elem.name, d.name, b); }
    }
    hide Ranked, Ancestors, AllSame, Shared, Common;
  }

  lemma {:induction false} SharedByMore(h: Registry, rank: map<string, nat>, ds: seq<Desc>, elem: Desc, d: Desc,
                                        b: string)
    requires Ranked(h, rank) && ds != [] && ElementType(h, rank, ds, Some(elem))
    ensures Shared(h, rank, ds + [d], b) <==>
            Nominal(elem) && Nominal(d) && b in Ancestors(h, rank, elem.name) && b in Ancestors(h, rank, d.name)
  {
    var es := ds + [d];
    assert forall e :: e in es <==> e in ds || e == d;
    assert d in es && ds[0] in ds;
    if Nominal(elem) && b in Ancestors(h, rank, elem.name) {
      forall e | e in ds ensures Nominal(e) && b in Ancestors(h, rank, e.name) {
        if AllSame(ds) {
          assert e == elem;
        } else {
          Transitive(h, rank, e.name, elem.name, b);
        }
      }
    }
    if Shared(h, rank, es, b) {
      assert Shared(h, rank, ds, b);
    }
  }

  lemma {:induction false} NoLater(h: Registry, rank: map<string, nat>, ds: seq<Desc>, es: seq<Desc>)
    requires Ranked(h, rank) && ds != [] && !AllSame(ds) && ElementType(h, rank, ds, None) && ds <= es
    ensures ElementType(h, rank, es, None)
  {
    assert forall d :: d in ds ==> d in es;
    StillDiffer(ds, es);
    forall a ensures !Shared(h, rank, es, a) {
      if Shared(h, rank, es, a) { SharedByFewer(h, rank, ds, es, a); }
    }
  }

  /** The outcome does not depend on the order of the elements (nor on how often one occurs). */
  lemma {:induction false} OrderIrrelevant(h: Registry, rank: map<string, nat>, ds: seq<Desc>, es: seq<Desc>,
                                           r: Option<Desc>, s: Option<Desc>)
    requires Ranked(h, rank) && ds != [] && es != []
    requires forall d :: d in ds <==> d in es
    requires ElementType(h, rank, ds, r) && ElementType(h, rank, es, s)
    ensures r == s
  {
    assert ds[0] in ds && es[0] in es;
    forall a ensures Shared(h, rank, ds, a) <==> Shared(h, rank, es, a) { }
    if !AllSame(ds) && r.Some? && s.Some? {
      var a, b := r.value.name, s.value.name;
      AncestorsRegistered(h, rank, a, b);
      AncestorsRegistered(h, rank, b, a);
    }
  }
}
