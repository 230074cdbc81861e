/** Marking with a bounded work stack: what one `mark_reachable` computes, when it is exact, and what
    a dropped child costs. `tracked` is the set of objects on the tracked-object list. */
module Marking {
  import opened Syntax
  import opened Store

  const MAX_STACK: nat := 8192

  /** A child is pushed if there is room, it is tracked, and it is not marked yet. */
  function PushChild(tracked: set<nat>, marked: set<nat>, stack: seq<nat>, v: Value): seq<nat> {
    if |stack| < MAX_STACK && v.Ref? && v.at in tracked && v.at !in marked then stack + [v.at] else stack
  }

  function PushAll(tracked: set<nat>, marked: set<nat>, stack: seq<nat>, vs: seq<Value>): (res: seq<nat>)
    ensures |stack| <= MAX_STACK ==> |res| <= MAX_STACK
    decreases |vs|
  {
    if vs == [] then stack
    else PushAll(tracked, marked, PushChild(tracked, marked, stack, vs[0]), vs[1..])
  }

  function Children(objs: Objs, x: nat): seq<Value> {
    if x < |objs| then Slots(objs[x].body) else []
  }

  function MarkLoop(objs: Objs, tracked: set<nat>, marked: set<nat>, stack: seq<nat>): set<nat>
    requires forall x :: x in stack ==> x in tracked
    decreases |tracked - marked|, |stack|
  {
    if stack == [] then marked
    else
      var n := |stack| - 1;
      var cur, rest := stack[n], stack[..n];
      if cur in marked then MarkLoop(objs, tracked, marked, rest)
      else
        var marked' := marked + {cur};
        Fewer(tracked, marked, cur);
        PushedTracked(tracked, marked', rest, Children(objs, cur));
        MarkLoop(objs, tracked, marked', PushAll(tracked, marked', rest, Children(objs, cur)))
  }

  lemma Fewer(tracked: set<nat>, marked: set<nat>, x: nat)
    requires x in tracked && x !in marked
    ensures |tracked - (marked + {x})| < |tracked - marked|
  {
    assert tracked - (marked + {x}) == (tracked - marked) - {x};
  }

  lemma {:induction false} PushedTracked(tracked: set<nat>, marked: set<nat>, stack: seq<nat>, vs: seq<Value>)
    requires forall x :: x in stack ==> x in tracked
    ensures forall x :: x in PushAll(tracked, marked, stack, vs) ==> x in tracked
    decreases |vs|
  {
    if vs != [] { PushedTracked(tracked, marked, PushChild(tracked, marked, stack, vs[0]), vs[1..]); }
  }

  /** Nothing happens for an untracked or an already marked root. */
  function MarkFrom(objs: Objs, tracked: set<nat>, marked: set<nat>, root: nat): set<nat> {
    if root in tracked && root !in marked then MarkLoop(objs, tracked, marked, [root]) else marked
  }

  // ---------------------------------------------------------------- reachability

  predicate Edge(objs: Objs, tracked: set<nat>, x: nat, y: nat) {
    x in tracked && y in tracked && y in RefsOf(Children(objs, x))
  }

  /** `path` leads from its first to its last object along slots. */
  predicate IsPath(objs: Objs, tracked: set<nat>, path: seq<nat>) {
    && path != [] && path[0] in tracked
    && forall i :: 0 <= i < |path| - 1 ==> Edge(objs, tracked, path[i], path[i + 1])
  }

  ghost predicate Reaches(objs: Objs, tracked: set<nat>, x: nat, y: nat) {
    exists path :: IsPath(objs, tracked, path) && path[0] == x && path[|path| - 1] == y
  }

  ghost predicate Closed(objs: Objs, tracked: set<nat>, marked: set<nat>) {
    forall x, y :: x in marked && y in tracked && Edge(objs, tracked, x, y) ==> y in marked
  }

  lemma ReachesSelf(objs: Objs, tracked: set<nat>, x: nat)
    requires x in tracked
    ensures Reaches(objs, tracked, x, x)
  {
    assert IsPath(objs, tracked, [x]);
  }

  lemma ReachesStep(objs: Objs, tracked: set<nat>, r: nat, x: nat, y: nat)
    requires Reaches(objs, tracked, r, x) && Edge(objs, tracked, x, y)
    ensures Reaches(objs, tracked, r, y)
  {
    var path :| IsPath(objs, tracked, path) && path[0] == r && path[|path| - 1] == x;
    var longer := path + [y];
    forall i | 0 <= i < |longer| - 1 ensures Edge(objs, tracked, longer[i], longer[i + 1]) {
      if i < |path| - 1 { assert Edge(objs, tracked, path[i], path[i + 1]); }
    }
    assert IsPath(objs, tracked, longer);
  }

  lemma {:induction false} ClosedHasPath(objs: Objs, tracked: set<nat>, marked: set<nat>, path: seq<nat>)
    requires Closed(objs, tracked, marked) && IsPath(objs, tracked, path) && path[0] in marked
    ensures path[|path| - 1] in marked
    decreases |path|
  {
    if |path| > 1 {
      var n := |path| - 1;
      assert forall i :: 0 <= i < n - 1 ==> Edge(objs, tracked, path[i], path[i + 1]);
      ClosedHasPath(objs, tracked, marked, path[..n]);
      assert Edge(objs, tracked, path[n - 1], path[n]);
    }
  }

  lemma {:induction false} ChildIsRef(vs: seq<Value>, i: nat)
    requires i < |vs| && vs[i].Ref?
    ensures vs[i].at in RefsOf(vs)
    decreases |vs|
  {
    if i > 0 { ChildIsRef(vs[1..], i - 1); }
  }

  // ---------------------------------------------------------------- what is pushed

  lemma {:induction false} PushedKeeps(tracked: set<nat>, marked: set<nat>, stack: seq<nat>, vs: seq<Value>)
    ensures stack <= PushAll(tracked, marked, stack, vs)
    ensures forall x :: x in PushAll(tracked, marked, stack, vs) ==> x in stack || (x in tracked && x in RefsOf(vs))
    ensures |PushAll(tracked, marked, stack, vs)| <= |stack| + |vs|
    decreases |vs|
  {
    if vs != [] {
      var next := PushChild(tracked, marked, stack, vs[0]);
      PushedKeeps(tracked, marked, next, vs[1..]);
    }
  }

  // ---------------------------------------------------------------- sound in all cases

  lemma {:induction false} StackReached(objs: Objs, tracked: set<nat>, marked: set<nat>, stack: seq<nat>, root: nat)
    requires stack != [] && forall x :: x in stack ==> x in tracked && Reaches(objs, tracked, root, x)
    ensures var n := |stack| - 1;
            forall x :: x in PushAll(tracked, marked, stack[..n], Children(objs, stack[n]))
                        ==> x in tracked && Reaches(objs, tracked, root, x)
  {
    hide Reaches;
    var n := |stack| - 1;
    var cur, rest := stack[n], stack[..n];
    var next := PushAll(tracked, marked, rest, Children(objs, cur));
    PushedKeeps(tracked, marked, rest, Children(objs, cur));
    forall x | x in next ensures x in tracked && Reaches(objs, tracked, root, x) {
      if x !in rest {
        assert Edge(objs, tracked, cur, x);
        ReachesStep(objs, tracked, root, cur, x);
      } else {
        assert x in stack;
      }
    }
  }

  /** Marks only grow, the stack's objects end up marked, and whatever is newly marked is reachable
      from something on the stack, however many children were dropped. */
  lemma {:induction false} MarkLoopSound(objs: Objs, tracked: set<nat>, marked: set<nat>, stack: seq<nat>, root: nat)
    requires forall x :: x in stack ==> x in tracked && Reaches(objs, tracked, root, x)
    ensures var res := MarkLoop(objs, tracked, marked, stack);
            && marked <= res
            && (forall x :: x in stack ==> x in res)
            && forall x :: x in res && x !in marked ==> x in tracked && Reaches(objs, tracked, root, x)
    decreases |tracked - marked|, |stack|
  {
    hide Reaches, RefsOf, Children, PushAll;
    if stack != [] {
      var n := |stack| - 1;
      var cur, rest := stack[n], stack[..n];
      assert stack == rest + [cur];
      if cur in marked {
        MarkLoopSound(objs, tracked, marked, rest, root);
      } else {
        var marked' := marked + {cur};
        Fewer(tracked, marked, cur);
        var next := PushAll(tracked, marked', rest, Children(objs, cur));
        PushedKeeps(tracked, marked', rest, Children(objs, cur));
        StackReached(objs, tracked, marked', stack, root);
        MarkLoopSound(objs, tracked, marked', next, root);
        assert forall x :: x in rest ==> x in next;
      }
    }
  }

  // ---------------------------------------------------------------- exact unless a dropped child stays unmarked

  /** The tracked, unmarked children that one push finds no room for. */
  function DropChild(tracked: set<nat>, marked: set<nat>, stack: seq<nat>, v: Value): set<nat> {
    if |stack| >= MAX_STACK && v.Ref? && v.at in tracked && v.at !in marked then {v.at} else {}
  }

  function DropAll(tracked: set<nat>, marked: set<nat>, stack: seq<nat>, vs: seq<Value>): set<nat>
    decreases |vs|
  {
    if vs == [] then {}
    else DropChild(tracked, marked, stack, vs[0])
         + DropAll(tracked, marked, PushChild(tracked, marked, stack, vs[0]), vs[1..])
  }

  /** Everything that `MarkLoop` drops; the stack is never full for a child exactly if this is empty. */
  function Drops(objs: Objs, tracked: set<nat>, marked: set<nat>, stack: seq<nat>): set<nat>
    requires forall x :: x in stack ==> x in tracked
    decreases |tracked - marked|, |stack|
  {
    if stack == [] then {}
    else
      var n := |stack| - 1;
      var cur, rest := stack[n], stack[..n];
      if cur in marked then Drops(objs, tracked, marked, rest)
      else
        var marked' := marked + {cur};
        Fewer(tracked, marked, cur);
        PushedTracked(tracked, marked', rest, Children(objs, cur));
        DropAll(tracked, marked', rest, Children(objs, cur))
        + Drops(objs, tracked, marked', PushAll(tracked, marked', rest, Children(objs, cur)))
  }

  function DropsFrom(objs: Objs, tracked: set<nat>, marked: set<nat>, root: nat): set<nat> {
    if root in tracked && root !in marked then Drops(objs, tracked, marked, [root]) else {}
  }

  /** A child is pushed, dropped, or of no interest. */
  lemma {:induction false} PushedOrDropped(tracked: set<nat>, marked: set<nat>, stack: seq<nat>, vs: seq<Value>)
    ensures forall y :: y in RefsOf(vs) && y in tracked && y !in marked
                        ==> y in PushAll(tracked, marked, stack, vs) || y in DropAll(tracked, marked, stack, vs)
    ensures forall y :: y in DropAll(tracked, marked, stack, vs) ==> y in RefsOf(vs) && y in tracked
    decreases |vs|
  {
    if vs != [] {
      var next := PushChild(tracked, marked, stack, vs[0]);
      PushedOrDropped(tracked, marked, next, vs[1..]);
      PushedKeeps(tracked, marked, next, vs[1..]);
      var all := PushAll(tracked, marked, stack, vs);
      if vs[0].Ref? && vs[0].at in tracked && vs[0].at !in marked && |stack| < MAX_STACK {
        assert next[|stack|] == vs[0].at && all[|stack|] == vs[0].at;
      }
    }
  }

  /** The marked objects' children are marked, or wait on the stack, or have been dropped. */
  ghost predicate Frontier(objs: Objs, tracked: set<nat>, marked: set<nat>, stack: seq<nat>, dropped: set<nat>) {
    forall x, y :: x in marked && y in tracked && Edge(objs, tracked, x, y) ==>
      y in marked || y in stack || y in dropped
  }

  lemma {:induction false} MarkLoopFrontier(objs: Objs, tracked: set<nat>, marked: set<nat>, stack: seq<nat>,
                                            dropped: set<nat>)
    requires forall x :: x in stack ==> x in tracked
    requires Frontier(objs, tracked, marked, stack, dropped)
    ensures Frontier(objs, tracked, MarkLoop(objs, tracked, marked, stack), [],
                     dropped + Drops(objs, tracked, marked, stack))
    decreases |tracked - marked|, |stack|
  {
    hide Edge, RefsOf, Children;
    if stack != [] {
      var n := |stack| - 1;
      var cur, rest := stack[n], stack[..n];
      assert stack == rest + [cur];
      if cur in marked {
        MarkLoopFrontier(objs, tracked, marked, rest, dropped);
      } else {
        var marked' := marked + {cur};
        var vs := Children(objs, cur);
        var next := PushAll(tracked, marked', rest, vs);
        var dropped' := dropped + DropAll(tracked, marked', rest, vs);
        Fewer(tracked, marked, cur);
        FrontierKept(objs, tracked, marked, stack, dropped);
        PushedTracked(tracked, marked', rest, vs);
        MarkLoopFrontier(objs, tracked, marked', next, dropped');
        hide Frontier, MarkLoop;
        assert dropped' + Drops(objs, tracked, marked', next) == dropped + Drops(objs, tracked, marked, stack);
      }
    }
  }

  lemma FrontierKept(objs: Objs, tracked: set<nat>, marked: set<nat>, stack: seq<nat>, dropped: set<nat>)
    requires stack != [] && Frontier(objs, tracked, marked, stack, dropped)
    ensures var n := |stack| - 1;
            var cur, rest := stack[n], stack[..n];
            Frontier(objs, tracked, marked + {cur}, PushAll(tracked, marked + {cur}, rest, Children(objs, cur)),
                     dropped + DropAll(tracked, marked + {cur}, rest, Children(objs, cur)))
  {
    hide RefsOf, Children, PushAll, DropAll;
    var n := |stack| - 1;
    var cur, rest := stack[n], stack[..n];
    var vs := Children(objs, cur);
    var next := PushAll(tracked, marked + {cur}, rest, vs);
    PushedOrDropped(tracked, marked + {cur}, rest, vs);
    PushedKeeps(tracked, marked + {cur}, rest, vs);
    assert stack == rest + [cur];
    assert forall y :: y in rest ==> y in next;
  }

  lemma {:induction false} DropsReached(objs: Objs, tracked: set<nat>, marked: set<nat>, stack: seq<nat>, root: nat)
    requires forall x :: x in stack ==> x in tracked && Reaches(objs, tracked, root, x)
    ensures forall y :: y in Drops(objs, tracked, marked, stack) ==> y in tracked && Reaches(objs, tracked, root, y)
    decreases |tracked - marked|, |stack|
  {
    hide Reaches, RefsOf, Children;
    if stack != [] {
      var n := |stack| - 1;
      var cur, rest := stack[n], stack[..n];
      if cur in marked {
        DropsReached(objs, tracked, marked, rest, root);
      } else {
        var marked' := marked + {cur};
        var vs := Children(objs, cur);
        Fewer(tracked, marked, cur);
        StackReached(objs, tracked, marked', stack, root);
        DropsReached(objs, tracked, marked', PushAll(tracked, marked', rest, vs), root);
        PushedOrDropped(tracked, marked', rest, vs);
        forall y | y in DropAll(tracked, marked', rest, vs) ensures Reaches(objs, tracked, root, y) {
          assert Edge(objs, tracked, cur, y);
          ReachesStep(objs, tracked, root, cur, y);
        }
      }
    }
  }

  /** One marking, from marks that may already lack dropped children: what it adds and what it leaves open. */
  lemma {:induction false} MarkFromFrontier(objs: Objs, tracked: set<nat>, marked: set<nat>, root: nat,
                                            dropped: set<nat>)
    requires Frontier(objs, tracked, marked, [], dropped)
    ensures var res := MarkFrom(objs, tracked, marked, root);
            var lost := DropsFrom(objs, tracked, marked, root);
            && Frontier(objs, tracked, res, [], dropped + lost)
            && marked <= res && (root in tracked ==> root in res)
            && (forall x :: x in res && x !in marked ==> x in tracked && Reaches(objs, tracked, root, x))
            && (forall x :: x in lost ==> x in tracked && Reaches(objs, tracked, root, x))
  {
    hide Reaches, Edge, MarkLoop, Drops;
    if root in tracked && root !in marked {
      ReachesSelf(objs, tracked, root);
      assert root in [root];
      MarkLoopSound(objs, tracked, marked, [root], root);
      DropsReached(objs, tracked, marked, [root], root);
      assert Frontier(objs, tracked, marked, [root], dropped);
      MarkLoopFrontier(objs, tracked, marked, [root], dropped);
    } else {
      assert dropped + {} == dropped;
    }
  }

  /** With closed marks beforehand, marking adds exactly what the root reaches, whatever cycles and
      sharing exist, if and only if every child that found the stack full ends up marked all the same. */
  lemma {:induction false} MarkingIsExactIff(objs: Objs, tracked: set<nat>, marked: set<nat>, root: nat)
    requires Closed(objs, tracked, marked) && root in tracked
    ensures var res := MarkFrom(objs, tracked, marked, root);
            && ((forall x :: x in res <==> x in marked || Reaches(objs, tracked, root, x))
                <==> DropsFrom(objs, tracked, marked, root) <= res)
            && (DropsFrom(objs, tracked, marked, root) <= res ==> Closed(objs, tracked, res))
  {
    hide Edge, MarkFrom, DropsFrom;
    var res := MarkFrom(objs, tracked, marked, root);
    var lost := DropsFrom(objs, tracked, marked, root);
    assert Frontier(objs, tracked, marked, [], {});
    MarkFromFrontier(objs, tracked, marked, root, {});
    assert {} + lost == lost;
    if lost <= res {
      assert Closed(objs, tracked, res);
      forall x | Reaches(objs, tracked, root, x) ensures x in res { ClosedHasReached(objs, tracked, res, root, x); }
    }
  }

  lemma ClosedHasReached(objs: Objs, tracked: set<nat>, marked: set<nat>, root: nat, x: nat)
    requires Closed(objs, tracked, marked) && root in marked && Reaches(objs, tracked, root, x)
    ensures x in marked
  {
    var path :| IsPath(objs, tracked, path) && path[0] == root && path[|path| - 1] == x;
    ClosedHasPath(objs, tracked, marked, path);
  }

  /** When no child finds the stack full, marking is exact and leaves the marks closed. */
  lemma {:induction false} MarkingIsExact(objs: Objs, tracked: set<nat>, marked: set<nat>, root: nat)
    requires Closed(objs, tracked, marked) && root in tracked
    requires DropsFrom(objs, tracked, marked, root) == {}
    ensures forall x :: x in MarkFrom(objs, tracked, marked, root)
                        <==> x in marked || Reaches(objs, tracked, root, x)
    ensures Closed(objs, tracked, MarkFrom(objs, tracked, marked, root))
  {
    hide Reaches, Closed, MarkFrom, DropsFrom;
    MarkingIsExactIff(objs, tracked, marked, root);
  }

  // ---------------------------------------------------------------- few slots never fill the stack

  /** The references to tracked objects among the slots of the objects in `xs` that are not marked. */
  function Work(objs: Objs, tracked: set<nat>, marked: set<nat>, xs: seq<nat>): nat {
    if xs == [] then 0
    else (if xs[0] in marked then 0 else Targets(tracked, Children(objs, xs[0]))) + Work(objs, tracked, marked, xs[1..])
  }

  function Targets(tracked: set<nat>, vs: seq<Value>): nat {
    if vs == [] then 0 else (if vs[0].Ref? && vs[0].at in tracked then 1 else 0) + Targets(tracked, vs[1..])
  }

  ghost predicate Lists(xs: seq<nat>, tracked: set<nat>) {
    && (forall x :: x in xs <==> x in tracked)
    && forall i, j :: 0 <= i < j < |xs| ==> xs[i] != xs[j]
  }

  lemma {:induction false} WorkSame(objs: Objs, tracked: set<nat>, marked: set<nat>, xs: seq<nat>, x: nat)
    requires x !in xs
    ensures Work(objs, tracked, marked + {x}, xs) == Work(objs, tracked, marked, xs)
    decreases |xs|
  {
    if xs != [] { WorkSame(objs, tracked, marked, xs[1..], x); }
  }

  lemma {:induction false} WorkFalls(objs: Objs, tracked: set<nat>, marked: set<nat>, xs: seq<nat>, x: nat)
    requires x in xs && x !in marked && forall i, j :: 0 <= i < j < |xs| ==> xs[i] != xs[j]
    ensures Work(objs, tracked, marked + {x}, xs)
            == Work(objs, tracked, marked, xs) - Targets(tracked, Children(objs, x))
    decreases |xs|
  {
    hide Targets, Children;
    if xs[0] == x {
      assert x !in xs[1..];
      WorkSame(objs, tracked, marked, xs[1..], x);
    } else {
      WorkFalls(objs, tracked, marked, xs[1..], x);
    }
  }

  lemma {:induction false} RoomForAll(tracked: set<nat>, marked: set<nat>, stack: seq<nat>, vs: seq<Value>)
    requires |stack| + Targets(tracked, vs) <= MAX_STACK
    ensures DropAll(tracked, marked, stack, vs) == {}
    ensures |PushAll(tracked, marked, stack, vs)| <= |stack| + Targets(tracked, vs)
    decreases |vs|
  {
    if vs != [] { RoomForAll(tracked, marked, PushChild(tracked, marked, stack, vs[0]), vs[1..]); }
  }

  lemma {:induction false} NothingDropped(objs: Objs, tracked: set<nat>, marked: set<nat>, stack: seq<nat>,
                                          xs: seq<nat>)
    requires Lists(xs, tracked) && forall x :: x in stack ==> x in tracked
    requires |stack| + Work(objs, tracked, marked, xs) <= MAX_STACK
    ensures Drops(objs, tracked, marked, stack) == {}
    decreases |tracked - marked|, |stack|
  {
    hide Targets, Children, Work;
    if stack != [] {
      var n := |stack| - 1;
      var cur, rest := stack[n], stack[..n];
      if cur in marked {
        NothingDropped(objs, tracked, marked, rest, xs);
      } else {
        var marked' := marked + {cur};
        var vs := Children(objs, cur);
        Fewer(tracked, marked, cur);
        WorkFalls(objs, tracked, marked, xs, cur);
        RoomForAll(tracked, marked', rest, vs);
        PushedTracked(tracked, marked', rest, vs);
        NothingDropped(objs, tracked, marked', PushAll(tracked, marked', rest, vs), xs);
      }
    }
  }

  /** A bound that can be read off the heap: if the unmarked tracked objects hold fewer than 8192
      references to tracked objects between them, no child ever finds the stack full. */
  lemma {:induction false} FewReferencesFit(objs: Objs, tracked: set<nat>, marked: set<nat>, root: nat, xs: seq<nat>)
    requires Lists(xs, tracked) && Work(objs, tracked, marked, xs) < MAX_STACK
    ensures DropsFrom(objs, tracked, marked, root) == {}
  {
    hide Work;
    if root in tracked && root !in marked { NothingDropped(objs, tracked, marked, [root], xs); }
  }

  // ---------------------------------------------------------------- inexact when it does not

  /** An array of n distinct strings: object 0 holds objects 1 to n. */
  function Leaves(n: nat): seq<Value> { seq(n, i requires 0 <= i < n => Ref(KStr, i + 1)) }

  function Star(n: nat): Objs {
    [Obj(true, 1, Arr(TRef(KStr), Leaves(n)))] + seq(n, _ => Obj(true, 1, Str("")))
  }

  function UpTo(n: nat): (s: set<nat>)
    ensures forall x: nat :: x in s <==> x <= n
  {
    if n == 0 then {0} else UpTo(n - 1) + {n}
  }

  /** The first k leaves that fit on the stack, in order. */
  function Pushed(k: nat): seq<nat> {
    var m := if k <= MAX_STACK then k else MAX_STACK;
    seq(m, i requires 0 <= i < m => i + 1)
  }

  lemma {:induction false} LeavesPushed(n: nat, k: nat)
    requires k <= n
    ensures PushAll(UpTo(n), {0}, Pushed(k), Leaves(n)[k..]) == Pushed(n)
    decreases n - k
  {
    if k < n {
      var vs := Leaves(n)[k..];
      assert vs[0] == Ref(KStr, k + 1) && vs[1..] == Leaves(n)[k + 1..];
      assert PushChild(UpTo(n), {0}, Pushed(k), vs[0]) == Pushed(k + 1);
      LeavesPushed(n, k + 1);
    }
  }

  lemma {:induction false} LeavesMarked(n: nat, marked: set<nat>, stack: seq<nat>)
    requires forall x :: x in stack ==> 1 <= x <= n
    ensures MarkLoop(Star(n), UpTo(n), marked, stack) == marked + set x | x in stack
    decreases |stack|
  {
    if stack != [] {
      var m := |stack| - 1;
      var cur, rest := stack[m], stack[..m];
      assert stack == rest + [cur] && cur in stack;
      assert Star(n)[cur] == Obj(true, 1, Str(""));
      assert PushAll(UpTo(n), marked + {cur}, rest, []) == rest;
      assert forall x :: x in rest ==> x in stack;
      LeavesMarked(n, if cur in marked then marked else marked + {cur}, rest);
    }
  }

  lemma {:induction false} StarMarked(n: nat)
    ensures forall x: nat :: x in MarkFrom(Star(n), UpTo(n), {}, 0) <==> x <= n && x <= MAX_STACK
  {
    hide UpTo, Leaves;
    var all, objs := UpTo(n), Star(n);
    assert Children(objs, 0) == Leaves(n);
    assert Leaves(n)[0..] == Leaves(n) && Pushed(0) == [];
    LeavesPushed(n, 0);
    assert [0][..0] == [] && {} + {0} == {0};
    assert [0][0] == 0;
    Fewer(all, {}, 0);
    forall x | x in Pushed(n) ensures 1 <= x <= n { }
    assert MarkLoop(objs, all, {}, [0]) == MarkLoop(objs, all, {0}, Pushed(n));
    LeavesMarked(n, {0}, Pushed(n));
    forall x: nat ensures (x == 0 || x in Pushed(n)) <==> x <= n && x <= MAX_STACK {
      if 1 <= x <= n && x <= MAX_STACK { assert Pushed(n)[x - 1] == x; }
    }
  }

  lemma {:induction false} PathEndsTracked(objs: Objs, tracked: set<nat>, path: seq<nat>)
    requires IsPath(objs, tracked, path)
    ensures path[|path| - 1] in tracked
  {
    var n := |path| - 1;
    if n > 0 { assert Edge(objs, tracked, path[n - 1], path[n - 1 + 1]); }
  }

  lemma {:induction false} StarReaches(n: nat, x: nat)
    ensures Reaches(Star(n), UpTo(n), 0, x) <==> x <= n
  {
    hide UpTo;
    var objs, all := Star(n), UpTo(n);
    if x <= n {
      ReachesSelf(objs, all, 0);
      if x > 0 {
        assert Leaves(n)[x - 1] == Ref(KStr, x);
        ChildIsRef(Leaves(n), x - 1);
        assert Children(objs, 0) == Leaves(n);
        ReachesStep(objs, all, 0, 0, x);
      }
    }
    if Reaches(objs, all, 0, x) {
      var path :| IsPath(objs, all, path) && path[0] == 0 && path[|path| - 1] == x;
      PathEndsTracked(objs, all, path);
    }
  }

  /** Marking the array reaches all n strings but marks only the first 8192 of them: it is exact for
      this store exactly when the slots fit the stack. */
  lemma {:induction false} WideArrayMarked(n: nat)
    ensures var res := MarkFrom(Star(n), UpTo(n), {}, 0);
            && (forall x: nat :: x in res <==> x <= n && x <= MAX_STACK)
            && ((forall x: nat :: x in res <==> Reaches(Star(n), UpTo(n), 0, x)) <==> n <= MAX_STACK)
  {
    hide Reaches, MarkFrom, Star;
    StarMarked(n);
    forall x: nat ensures Reaches(Star(n), UpTo(n), 0, x) <==> x <= n { StarReaches(n, x); }
    if n > MAX_STACK {
      assert n !in MarkFrom(Star(n), UpTo(n), {}, 0) && Reaches(Star(n), UpTo(n), 0, n);
    }
  }
}
