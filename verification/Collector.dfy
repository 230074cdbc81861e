/** One run of the collector: every tracked object with a positive count is a root, then the registered
    roots are marked, then the unmarked objects whose count is zero are freed. */
module Collector {
  import opened Syntax
  import opened Store
  import opened Ownership
  import opened Marking

  // ---------------------------------------------------------------- the two root loops and the sweep

  function CountOf(objs: Objs, x: nat): nat { if x < |objs| then objs[x].rc else 0 }

  function MarkCounted(objs: Objs, tracked: set<nat>, marked: set<nat>, xs: seq<nat>): set<nat>
    decreases |xs|
  {
    if xs == [] then marked
    else MarkCounted(objs, tracked,
                     if CountOf(objs, xs[0]) > 0 then MarkFrom(objs, tracked, marked, xs[0]) else marked, xs[1..])
  }

  function MarkRoots(objs: Objs, tracked: set<nat>, marked: set<nat>, roots: seq<nat>): set<nat>
    decreases |roots|
  {
    if roots == [] then marked else MarkRoots(objs, tracked, MarkFrom(objs, tracked, marked, roots[0]), roots[1..])
  }

  function AsSet(xs: seq<nat>): set<nat> { set x | x in xs }

  function Marks(objs: Objs, xs: seq<nat>, roots: seq<nat>): set<nat> {
    MarkRoots(objs, AsSet(xs), MarkCounted(objs, AsSet(xs), {}, xs), roots)
  }

  predicate Kept(objs: Objs, marked: set<nat>, x: nat) { x in marked || CountOf(objs, x) > 0 }

  /** The tracked list after the sweep. */
  function Sweep(objs: Objs, marked: set<nat>, xs: seq<nat>): seq<nat> {
    if xs == [] then []
    else (if Kept(objs, marked, xs[0]) then [xs[0]] else []) + Sweep(objs, marked, xs[1..])
  }

  function FreeAll(objs: Objs, marked: set<nat>, xs: seq<nat>): Objs
    decreases |xs|
  {
    if xs == [] then objs
    else if !Kept(objs, marked, xs[0]) && xs[0] < |objs|
    then FreeAll(objs[xs[0] := objs[xs[0]].(live := false)], marked, xs[1..])
    else FreeAll(objs, marked, xs[1..])
  }

  function Collect(objs: Objs, xs: seq<nat>, roots: seq<nat>): Objs {
    FreeAll(objs, Marks(objs, xs, roots), xs)
  }

  // ---------------------------------------------------------------- what the loops compute

  lemma {:induction false} Sweeps(objs: Objs, marked: set<nat>, xs: seq<nat>)
    ensures forall x :: x in Sweep(objs, marked, xs) <==> x in xs && Kept(objs, marked, x)
    decreases |xs|
  {
    if xs != [] { Sweeps(objs, marked, xs[1..]); }
  }

  lemma {:induction false} Frees(objs: Objs, marked: set<nat>, xs: seq<nat>)
    ensures var res := FreeAll(objs, marked, xs);
            && |res| == |objs|
            && forall x :: 0 <= x < |objs| ==>
                 res[x] == if x in xs && !Kept(objs, marked, x) then objs[x].(live := false) else objs[x]
    decreases |xs|
  {
    if xs != [] {
      var y := xs[0];
      if !Kept(objs, marked, y) && y < |objs| {
        Frees(objs[y := objs[y].(live := false)], marked, xs[1..]);
      } else {
        Frees(objs, marked, xs[1..]);
      }
    }
  }

  lemma {:induction false} MarkFromGrows(objs: Objs, tracked: set<nat>, marked: set<nat>, root: nat)
    ensures marked <= MarkFrom(objs, tracked, marked, root)
    ensures root in tracked ==> root in MarkFrom(objs, tracked, marked, root)
  {
    hide Reaches;
    if root in tracked && root !in marked {
      ReachesSelf(objs, tracked, root);
      MarkLoopSound(objs, tracked, marked, [root], root);
      assert root in [root];
    }
  }

  lemma {:induction false} CountedAreMarked(objs: Objs, tracked: set<nat>, marked: set<nat>, xs: seq<nat>)
    requires forall x :: x in xs ==> x in tracked
    ensures marked <= MarkCounted(objs, tracked, marked, xs)
    ensures forall x :: x in xs && CountOf(objs, x) > 0 ==> x in MarkCounted(objs, tracked, marked, xs)
    decreases |xs|
  {
    hide MarkFrom;
    if xs != [] {
      var next := if CountOf(objs, xs[0]) > 0 then MarkFrom(objs, tracked, marked, xs[0]) else marked;
      MarkFromGrows(objs, tracked, marked, xs[0]);
      CountedAreMarked(objs, tracked, next, xs[1..]);
    }
  }

  lemma {:induction false} RootsGrow(objs: Objs, tracked: set<nat>, marked: set<nat>, roots: seq<nat>)
    ensures marked <= MarkRoots(objs, tracked, marked, roots)
    decreases |roots|
  {
    hide MarkFrom;
    if roots != [] {
      MarkFromGrows(objs, tracked, marked, roots[0]);
      RootsGrow(objs, tracked, MarkFrom(objs, tracked, marked, roots[0]), roots[1..]);
    }
  }

  /** Whatever the bounded stack dropped, every tracked object with a positive count ends up marked,
      so what is unmarked has count zero, and exactly that is freed. */
  lemma {:induction false} CountedStay(objs: Objs, xs: seq<nat>, roots: seq<nat>)
    ensures forall x :: x in xs && CountOf(objs, x) > 0 ==> x in Marks(objs, xs, roots)
    ensures forall x :: x in xs ==> (Kept(objs, Marks(objs, xs, roots), x) <==> x in Marks(objs, xs, roots))
    ensures |Collect(objs, xs, roots)| == |objs|
    ensures forall x :: 0 <= x < |objs| && objs[x].live ==>
              (Collect(objs, xs, roots)[x].live <==> x !in xs || x in Marks(objs, xs, roots))
  {
    var tracked := AsSet(xs);
    CountedAreMarked(objs, tracked, {}, xs);
    RootsGrow(objs, tracked, MarkCounted(objs, tracked, {}, xs), roots);
    Frees(objs, Marks(objs, xs, roots), xs);
  }

  // ---------------------------------------------------------------- safety

  lemma {:induction false} EdgeIsCounted(objs: Objs, handles: multiset<nat>, tracked: set<nat>, x: nat, y: nat)
    requires Counted(objs, handles) && Edge(objs, tracked, x, y) && CountOf(objs, x) > 0
    ensures CountOf(objs, y) > 0
  {
    OwnersUpdate(objs, x, objs[x], y);
  }

  lemma {:induction false} PathIsCounted(objs: Objs, handles: multiset<nat>, tracked: set<nat>, path: seq<nat>)
    requires Counted(objs, handles) && IsPath(objs, tracked, path) && CountOf(objs, path[0]) > 0
    ensures CountOf(objs, path[|path| - 1]) > 0
    decreases |path|
  {
    hide Counted, Edge;
    if |path| > 1 {
      var n := |path| - 1;
      assert forall i :: 0 <= i < n - 1 ==> Edge(objs, tracked, path[i], path[i + 1]);
      PathIsCounted(objs, handles, tracked, path[..n]);
      assert Edge(objs, tracked, path[n - 1], path[n - 1 + 1]);
      EdgeIsCounted(objs, handles, tracked, path[n - 1], path[n]);
    }
  }

  /** No object that a handle reaches is freed, however many children the bounded stack dropped. */
  lemma {:induction false} ReachableIsNeverFreed(objs: Objs, handles: multiset<nat>, xs: seq<nat>, roots: seq<nat>,
                                                 h: nat, x: nat)
    requires Counted(objs, handles) && h in handles && Reaches(objs, AsSet(xs), h, x)
    ensures |Collect(objs, xs, roots)| == |objs|
    ensures x < |objs| && objs[x].live && Collect(objs, xs, roots)[x] == objs[x]
  {
    hide Counted;
    HandleIsCounted(objs, h, handles);
    var path :| IsPath(objs, AsSet(xs), path) && path[0] == h && path[|path| - 1] == x;
    PathIsCounted(objs, handles, AsSet(xs), path);
    CountedLives(objs, handles, x);
    Frees(objs, Marks(objs, xs, roots), xs);
  }

  lemma CountedLives(objs: Objs, handles: multiset<nat>, x: nat)
    requires Counted(objs, handles) && CountOf(objs, x) > 0
    ensures x < |objs| && objs[x].live
  {
  }

  // ---------------------------------------------------------------- what is freed

  /** `x` is reached from a tracked object with a positive count or from a registered root. */
  ghost predicate Rooted(objs: Objs, xs: seq<nat>, roots: seq<nat>, x: nat) {
    exists r :: r in xs && (CountOf(objs, r) > 0 || r in roots) && Reaches(objs, AsSet(xs), r, x)
  }

  /** The list of all marking roots of one collection, in order. */
  function AllRoots(objs: Objs, xs: seq<nat>, roots: seq<nat>): seq<nat> {
    if xs == [] then roots
    else (if CountOf(objs, xs[0]) > 0 then [xs[0]] else []) + AllRoots(objs, xs[1..], roots)
  }

  /** What the marking runs of one collection drop. */
  function RootDrops(objs: Objs, tracked: set<nat>, marked: set<nat>, roots: seq<nat>): set<nat>
    decreases |roots|
  {
    if roots == [] then {}
    else DropsFrom(objs, tracked, marked, roots[0])
         + RootDrops(objs, tracked, MarkFrom(objs, tracked, marked, roots[0]), roots[1..])
  }

  function CollectDrops(objs: Objs, xs: seq<nat>, roots: seq<nat>): set<nat> {
    RootDrops(objs, AsSet(xs), {}, AllRoots(objs, xs, roots))
  }

  lemma {:induction false} RootsInOrder(objs: Objs, tracked: set<nat>, marked: set<nat>, xs: seq<nat>, roots: seq<nat>)
    ensures MarkRoots(objs, tracked, MarkCounted(objs, tracked, marked, xs), roots)
            == MarkRoots(objs, tracked, marked, AllRoots(objs, xs, roots))
    decreases |xs|
  {
    hide MarkFrom;
    if xs != [] {
      var rest := AllRoots(objs, xs[1..], roots);
      if CountOf(objs, xs[0]) > 0 {
        RootsInOrder(objs, tracked, MarkFrom(objs, tracked, marked, xs[0]), xs[1..], roots);
        assert AllRoots(objs, xs, roots)[1..] == rest;
      } else {
        RootsInOrder(objs, tracked, marked, xs[1..], roots);
        assert [] + rest == rest;
      }
    }
  }

  lemma {:induction false} AllRootsAre(objs: Objs, xs: seq<nat>, roots: seq<nat>)
    ensures forall r :: r in AllRoots(objs, xs, roots) <==> (r in xs && CountOf(objs, r) > 0) || r in roots
    decreases |xs|
  {
    if xs != [] { AllRootsAre(objs, xs[1..], roots); }
  }

  ghost predicate From(objs: Objs, tracked: set<nat>, done: set<nat>, x: nat) {
    exists r :: r in done && r in tracked && Reaches(objs, tracked, r, x)
  }

  /** After marking from the roots in `done`: every mark and every drop has a root, every root is
      marked, and only dropped children are missing. */
  ghost predicate MarkedFrom(objs: Objs, tracked: set<nat>, marked: set<nat>, done: set<nat>, dropped: set<nat>) {
    && Frontier(objs, tracked, marked, [], dropped)
    && (forall r :: r in done && r in tracked ==> r in marked)
    && (forall x :: x in marked || x in dropped ==> x in tracked && From(objs, tracked, done, x))
  }

  lemma FromMore(objs: Objs, tracked: set<nat>, done: set<nat>, root: nat, x: nat)
    requires From(objs, tracked, done, x) || (root in tracked && Reaches(objs, tracked, root, x))
    ensures From(objs, tracked, done + {root}, x)
  {
    hide Reaches;
    if From(objs, tracked, done, x) {
      var r :| r in done && r in tracked && Reaches(objs, tracked, r, x);
      assert r in done + {root};
    } else {
      assert root in done + {root};
    }
  }

  lemma {:induction false} MarkOneMore(objs: Objs, tracked: set<nat>, marked: set<nat>, done: set<nat>,
                                       dropped: set<nat>, root: nat)
    requires MarkedFrom(objs, tracked, marked, done, dropped)
    ensures MarkedFrom(objs, tracked, MarkFrom(objs, tracked, marked, root), done + {root},
                       dropped + DropsFrom(objs, tracked, marked, root))
  {
    hide Frontier, Reaches, From, MarkFrom, DropsFrom;
    var next := MarkFrom(objs, tracked, marked, root);
    var lost := DropsFrom(objs, tracked, marked, root);
    MarkFromFrontier(objs, tracked, marked, root, dropped);
    if root !in tracked { Untracked(objs, tracked, marked, root); }
    forall x | x in next || x in dropped + lost ensures x in tracked && From(objs, tracked, done + {root}, x) {
      FromMore(objs, tracked, done, root, x);
    }
  }

  lemma Untracked(objs: Objs, tracked: set<nat>, marked: set<nat>, root: nat)
    requires root !in tracked
    ensures MarkFrom(objs, tracked, marked, root) == marked && DropsFrom(objs, tracked, marked, root) == {}
  {
  }

  lemma {:induction false} MarkAllRoots(objs: Objs, tracked: set<nat>, marked: set<nat>, done: set<nat>,
                                        dropped: set<nat>, roots: seq<nat>)
    requires MarkedFrom(objs, tracked, marked, done, dropped)
    ensures MarkedFrom(objs, tracked, MarkRoots(objs, tracked, marked, roots), done + AsSet(roots),
                       dropped + RootDrops(objs, tracked, marked, roots))
    decreases |roots|
  {
    hide MarkedFrom, MarkFrom, DropsFrom;
    if roots == [] {
      assert done + AsSet(roots) == done && dropped + {} == dropped;
    } else {
      var next := MarkFrom(objs, tracked, marked, roots[0]);
      var lost := DropsFrom(objs, tracked, marked, roots[0]);
      MarkOneMore(objs, tracked, marked, done, dropped, roots[0]);
      MarkAllRoots(objs, tracked, next, done + {roots[0]}, dropped + lost, roots[1..]);
      assert done + {roots[0]} + AsSet(roots[1..]) == done + AsSet(roots);
      assert dropped + lost + RootDrops(objs, tracked, next, roots[1..])
             == dropped + RootDrops(objs, tracked, marked, roots);
    }
  }

  lemma {:induction false} CompleteIff(objs: Objs, tracked: set<nat>, marked: set<nat>, done: set<nat>,
                                       dropped: set<nat>)
    requires MarkedFrom(objs, tracked, marked, done, dropped)
    ensures (forall x :: x in marked <==> From(objs, tracked, done, x)) <==> dropped <= marked
  {
    hide Reaches, Edge;
    if dropped <= marked {
      assert Closed(objs, tracked, marked);
      forall x | From(objs, tracked, done, x) ensures x in marked {
        var r :| r in done && r in tracked && Reaches(objs, tracked, r, x);
        ClosedHasReached(objs, tracked, marked, r, x);
      }
    }
  }

  lemma {:induction false} MarksTrace(objs: Objs, xs: seq<nat>, roots: seq<nat>)
    ensures MarkedFrom(objs, AsSet(xs), Marks(objs, xs, roots), AsSet(AllRoots(objs, xs, roots)),
                       CollectDrops(objs, xs, roots))
  {
    hide Reaches, RootDrops, Edge, MarkRoots, MarkCounted, AllRoots;
    var tracked, all := AsSet(xs), AllRoots(objs, xs, roots);
    RootsInOrder(objs, tracked, {}, xs, roots);
    assert MarkedFrom(objs, tracked, {}, {}, {});
    hide MarkedFrom;
    MarkAllRoots(objs, tracked, {}, {}, {}, all);
    assert {} + AsSet(all) == AsSet(all) && {} + CollectDrops(objs, xs, roots) == CollectDrops(objs, xs, roots);
  }

  lemma {:induction false} MarksAre(objs: Objs, xs: seq<nat>, roots: seq<nat>)
    ensures (forall x :: x in Marks(objs, xs, roots) <==> Rooted(objs, xs, roots, x))
            <==> CollectDrops(objs, xs, roots) <= Marks(objs, xs, roots)
  {
    hide *;
    var done := AsSet(AllRoots(objs, xs, roots));
    MarksTrace(objs, xs, roots);
    CompleteIff(objs, AsSet(xs), Marks(objs, xs, roots), done, CollectDrops(objs, xs, roots));
    forall x ensures Rooted(objs, xs, roots, x) <==> From(objs, AsSet(xs), done, x) { RootedIs(objs, xs, roots, x); }
  }

  lemma {:induction false} MarksTracked(objs: Objs, xs: seq<nat>, roots: seq<nat>)
    ensures forall x :: x in Marks(objs, xs, roots) || Rooted(objs, xs, roots, x) ==> x in xs
  {
    hide Marks, CollectDrops, AllRoots, Frontier, Reaches, From;
    MarksTrace(objs, xs, roots);
    forall x | Rooted(objs, xs, roots, x) ensures x in xs {
      var r :| r in xs && Reaches(objs, AsSet(xs), r, x);
      ReachedTracked(objs, AsSet(xs), r, x);
    }
  }

  lemma ReachedTracked(objs: Objs, tracked: set<nat>, r: nat, x: nat)
    requires Reaches(objs, tracked, r, x)
    ensures x in tracked
  {
    var path :| IsPath(objs, tracked, path) && path[0] == r && path[|path| - 1] == x;
    PathEndsTracked(objs, tracked, path);
  }

  lemma {:induction false} RootedIs(objs: Objs, xs: seq<nat>, roots: seq<nat>, x: nat)
    ensures From(objs, AsSet(xs), AsSet(AllRoots(objs, xs, roots)), x) <==> Rooted(objs, xs, roots, x)
  {
    hide Reaches, CountOf, AllRoots;
    AllRootsAre(objs, xs, roots);
  }

  /** A collection keeps exactly the tracked objects that something with a positive count or a
      registered root reaches, if and only if every child that ever found the mark stack full gets
      marked by the end. */
  lemma {:induction false} CollectIsExactIff(objs: Objs, xs: seq<nat>, roots: seq<nat>)
    requires forall x :: x in xs ==> x < |objs| && objs[x].live
    ensures |Collect(objs, xs, roots)| == |objs|
    ensures (forall x :: x in xs ==> (Collect(objs, xs, roots)[x].live <==> Rooted(objs, xs, roots, x)))
            <==> CollectDrops(objs, xs, roots) <= Marks(objs, xs, roots)
  {
    hide Rooted, Marks, Collect, CollectDrops;
    CountedStay(objs, xs, roots);
    MarksAre(objs, xs, roots);
    MarksTracked(objs, xs, roots);
  }

  /** When no child finds the stack full, that is so: a collection is exact. */
  lemma {:induction false} CollectIsExact(objs: Objs, xs: seq<nat>, roots: seq<nat>, x: nat)
    requires forall y :: y in xs ==> y < |objs| && objs[y].live
    requires CollectDrops(objs, xs, roots) == {} && x in xs
    ensures |Collect(objs, xs, roots)| == |objs|
    ensures Collect(objs, xs, roots)[x].live <==> Rooted(objs, xs, roots, x)
  {
    hide Rooted, Marks, Collect, CollectDrops;
    CollectIsExactIff(objs, xs, roots);
  }

  lemma {:induction false} WorkShrinks(objs: Objs, tracked: set<nat>, few: set<nat>, many: set<nat>, xs: seq<nat>)
    requires few <= many
    ensures Work(objs, tracked, many, xs) <= Work(objs, tracked, few, xs)
    decreases |xs|
  {
    if xs != [] { WorkShrinks(objs, tracked, few, many, xs[1..]); }
  }

  lemma {:induction false} FewReferencesCollected(objs: Objs, xs: seq<nat>, marked: set<nat>, roots: seq<nat>)
    requires Lists(xs, AsSet(xs)) && Work(objs, AsSet(xs), marked, xs) < MAX_STACK
    ensures RootDrops(objs, AsSet(xs), marked, roots) == {}
    decreases |roots|
  {
    hide Work, MarkFrom, DropsFrom, Lists, AsSet;
    if roots != [] {
      var next := MarkFrom(objs, AsSet(xs), marked, roots[0]);
      FewReferencesFit(objs, AsSet(xs), marked, roots[0], xs);
      MarkFromGrows(objs, AsSet(xs), marked, roots[0]);
      WorkShrinks(objs, AsSet(xs), marked, next, xs);
      FewReferencesCollected(objs, xs, next, roots[1..]);
    }
  }

  /** Fewer than 8192 references between tracked objects are always few enough. */
  lemma {:induction false} SmallHeapsAreExact(objs: Objs, xs: seq<nat>, roots: seq<nat>, x: nat)
    requires Lists(xs, AsSet(xs)) && Work(objs, AsSet(xs), {}, xs) < MAX_STACK
    requires x in xs && forall y :: y in xs ==> y < |objs| && objs[y].live
    ensures |Collect(objs, xs, roots)| == |objs|
    ensures Collect(objs, xs, roots)[x].live <==> Rooted(objs, xs, roots, x)
  {
    hide Rooted, Marks, Collect, Work;
    FewReferencesCollected(objs, xs, {}, AllRoots(objs, xs, roots));
    CollectIsExact(objs, xs, roots, x);
  }

  // ---------------------------------------------------------------- cycles are never collected

  /** With every count right and no object waiting at zero, the collector changes nothing at all:
      whatever forms a cycle keeps its counts positive and stays. */
  lemma {:induction false} CollectorKeepsCycles(st: State, xs: seq<nat>, roots: seq<nat>)
    requires Owned(st) && forall x :: x in xs ==> x < |st.objs| && st.objs[x].live
    ensures Collect(st.objs, xs, roots) == st.objs
    ensures Sweep(st.objs, Marks(st.objs, xs, roots), xs) == xs
  {
    hide Counted;
    Frees(st.objs, Marks(st.objs, xs, roots), xs);
    KeepsAll(st.objs, Marks(st.objs, xs, roots), xs);
  }

  lemma {:induction false} KeepsAll(objs: Objs, marked: set<nat>, xs: seq<nat>)
    requires forall x :: x in xs ==> Kept(objs, marked, x)
    ensures Sweep(objs, marked, xs) == xs
    decreases |xs|
  {
    if xs != [] {
      KeepsAll(objs, marked, xs[1..]);
      assert xs == [xs[0]] + xs[1..];
    }
  }

  /** An array that contains itself and that no handle reaches is not freed by the collector. */
  lemma {:induction false} GarbageCycleStays()
    ensures var loop := [Obj(true, 1, Arr(TRef(KArr), [Ref(KArr, 0)]))];
            Owned(State(loop, multiset{})) && Collect(loop, [0], []) == loop
  {
    var items := [Ref(KArr, 0)];
    var o := Obj(true, 1, Arr(TRef(KArr), items));
    var objs := [o];
    assert items[1..] == [];
    assert RefsOf(items) == multiset{0};
    assert objs[..0] == [];
    forall x: nat ensures Owners(objs, x) == if x == 0 then 1 else 0 {
      assert Owners(objs, x) == Owners(objs[..0], x) + Held(o)[x];
    }
    CollectorKeepsCycles(State(objs, multiset{}), [0], []);
  }

  ghost predicate HandleReaches(st: State, x: nat) {
    exists h :: h in st.handles && Reaches(st.objs, AllOf(|st.objs|), h, x)
  }

  /** A live object that no handle reaches: counted, hence never freed, and of no use to anyone. */
  ghost predicate Leaked(st: State, x: nat) {
    x < |st.objs| && st.objs[x].live && !HandleReaches(st, x)
  }

  /** Live objects without handles that only each other's slots hold. */
  predicate Abandoned(st: State, s: set<nat>) {
    && s != {}
    && forall x :: x in s ==>
         && x < |st.objs| && st.objs[x].live && x !in st.handles
         && forall c :: 0 <= c < |st.objs| && st.objs[c].live && x in RefsOf(Slots(st.objs[c].body)) ==> c in s
  }

  lemma {:induction false} PathStaysOutside(st: State, s: set<nat>, path: seq<nat>)
    requires Owned(st) && Abandoned(st, s) && IsPath(st.objs, AllOf(|st.objs|), path) && path[0] in st.handles
    ensures path[|path| - 1] !in s && CountOf(st.objs, path[|path| - 1]) > 0
    decreases |path|
  {
    hide Owners, RefsOf, Children, Counted;
    var n := |path| - 1;
    if n == 0 {
      HandleIsCounted(st.objs, path[0], st.handles);
    } else {
      var x, y := path[n - 1], path[n];
      assert forall i :: 0 <= i < n - 1 ==> Edge(st.objs, AllOf(|st.objs|), path[i], path[i + 1]);
      PathStaysOutside(st, s, path[..n]);
      assert Edge(st.objs, AllOf(|st.objs|), x, path[n - 1 + 1]);
      EdgeIsCounted(st.objs, st.handles, AllOf(|st.objs|), x, y);
      CountedLives(st.objs, st.handles, x);
      EdgeIsSlot(st.objs, AllOf(|st.objs|), x, y);
    }
  }

  lemma EdgeIsSlot(objs: Objs, tracked: set<nat>, x: nat, y: nat)
    requires Edge(objs, tracked, x, y) && x < |objs|
    ensures y in RefsOf(Slots(objs[x].body))
  {
  }

  /** What counts leak, exactly: some live object is out of reach of all handles if and only if a
      non-empty set of live objects without handles has all its owners inside itself. */
  lemma {:induction false} LeaksIff(st: State)
    requires Owned(st)
    ensures (exists x :: Leaked(st, x)) <==> (exists s :: Abandoned(st, s))
  {
    hide Reaches, Owners, RefsOf, Counted;
    var objs, all := st.objs, AllOf(|st.objs|);
    if x :| Leaked(st, x) {
      var s := set y | y in all && Leaked(st, y);
      assert x in s;
      forall y | y in s ensures y !in st.handles {
        if y in st.handles { ReachesSelf(objs, all, y); }
      }
      forall y, c | y in s && 0 <= c < |objs| && objs[c].live && y in RefsOf(Slots(objs[c].body)) ensures c in s {
        if HandleReaches(st, c) {
          var h :| h in st.handles && Reaches(objs, all, h, c);
          assert Edge(objs, all, c, y);
          ReachesStep(objs, all, h, c, y);
        }
      }
      assert Abandoned(st, s);
    }
    if s :| Abandoned(st, s) {
      var x :| x in s;
      if HandleReaches(st, x) {
        var h :| h in st.handles && Reaches(objs, all, h, x);
        ReachedOutside(st, s, h, x);
      }
      assert Leaked(st, x);
    }
  }

  lemma ReachedOutside(st: State, s: set<nat>, h: nat, x: nat)
    requires Owned(st) && Abandoned(st, s) && h in st.handles && Reaches(st.objs, AllOf(|st.objs|), h, x)
    ensures x !in s
  {
    hide Owned, Abandoned;
    var path :| IsPath(st.objs, AllOf(|st.objs|), path) && path[0] == h && path[|path| - 1] == x;
    PathStaysOutside(st, s, path);
  }

  /** Slots only lead downwards in `rank`: there is no cycle. */
  ghost predicate Ranked(objs: Objs, rank: seq<nat>) {
    && |rank| == |objs|
    && forall c, x: nat :: 0 <= c < |objs| && x < |objs| && x in RefsOf(Slots(objs[c].body)) ==> rank[x] < rank[c]
  }

  /** So only cycles leak: in a store without them, some handle reaches every live object. */
  lemma {:induction false} AcyclicNeverLeaks(st: State, rank: seq<nat>, top: nat, x: nat)
    requires Owned(st) && Ranked(st.objs, rank) && x < |st.objs| && st.objs[x].live
    requires forall c :: 0 <= c < |rank| ==> rank[c] <= top
    ensures HandleReaches(st, x)
    decreases top - rank[x]
  {
    hide Reaches, Owners;
    var objs, all := st.objs, AllOf(|st.objs|);
    if x in st.handles {
      ReachesSelf(objs, all, x);
    } else {
      assert objs[x].rc == Owners(objs, x);
      var c := HasOwner(objs, x);
      assert rank[x] < rank[c];
      AcyclicNeverLeaks(st, rank, top, c);
      var h :| h in st.handles && Reaches(objs, all, h, c);
      assert Edge(objs, all, c, x);
      ReachesStep(objs, all, h, c, x);
    }
  }

  function AllOf(n: nat): (s: set<nat>)
    ensures forall x: nat :: x in s <==> x < n
  {
    if n == 0 then {} else AllOf(n - 1) + {n - 1}
  }
}
