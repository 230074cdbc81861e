/** The memory manager at work: the tracked-object list with its mark flags, the array-backed mark stack
    and the loops that mark, sweep and release, each tied to the function that says what it computes.
    The mark stack holds indices into the list of nodes; a ghost sequence of objects stands for them
    (`Stands`), so that the loops can be compared with the functions of modules Marking and Collector.
    Releasing recurses through slots as module Store does, and the manager's invariant, that the
    tracked objects are just the live ones, holds again at the end of each release. */
module Heap {
  import opened Syntax
  import opened Store
  import opened Marking
  import opened Collector

  const DEFAULT_THRESHOLD: nat := 1000

  datatype Node = Node(target: nat, marked: bool)

  function Objects(nodes: seq<Node>): seq<nat> { seq(|nodes|, i requires 0 <= i < |nodes| => nodes[i].target) }

  function MarkedIn(nodes: seq<Node>): set<nat> { set n | n in nodes && n.marked :: n.target }

  predicate Distinct(nodes: seq<Node>) {
    forall i, j :: 0 <= i < j < |nodes| ==> nodes[i].target != nodes[j].target
  }

  /** The node indices on `stack` stand for the objects in `objects`. */
  predicate Stands(nodes: seq<Node>, stack: seq<nat>, objects: seq<nat>) {
    |stack| == |objects| && forall i :: 0 <= i < |stack| ==> stack[i] < |nodes| && nodes[stack[i]].target == objects[i]
  }

  lemma MarkOne(nodes: seq<Node>, k: nat)
    requires Distinct(nodes) && k < |nodes| && !nodes[k].marked
    ensures MarkedIn(nodes[k := nodes[k].(marked := true)]) == MarkedIn(nodes) + {nodes[k].target}
    ensures Objects(nodes[k := nodes[k].(marked := true)]) == Objects(nodes)
    ensures nodes[k].target !in MarkedIn(nodes)
  {
    var res := nodes[k := nodes[k].(marked := true)];
    forall x: nat ensures x in MarkedIn(res) <==> x in MarkedIn(nodes) + {nodes[k].target} {
      if x in MarkedIn(res) {
        var n :| n in res && n.marked && n.target == x;
        var i :| 0 <= i < |res| && res[i] == n;
        assert i != k ==> nodes[i] in nodes;
      }
      if x in MarkedIn(nodes) {
        var n :| n in nodes && n.marked && n.target == x;
        var i :| 0 <= i < |nodes| && nodes[i] == n;
        assert res[i] in res;
      }
      assert res[k] in res;
    }
  }

  lemma MarkedIff(nodes: seq<Node>, k: nat)
    requires Distinct(nodes) && k < |nodes|
    ensures nodes[k].target in MarkedIn(nodes) <==> nodes[k].marked
    ensures nodes[k].target in AsSet(Objects(nodes))
  {
    assert Objects(nodes)[k] == nodes[k].target;
  }

  lemma SameTarget(nodes: seq<Node>, k: nat, marked: bool)
    requires k < |nodes|
    ensures Objects(nodes[k := nodes[k].(marked := marked)]) == Objects(nodes)
  {
  }

  lemma SameObjects(a: seq<Node>, b: seq<Node>)
    requires Objects(a) == Objects(b) && Distinct(a)
    ensures Distinct(b)
  {
    assert forall i :: 0 <= i < |a| ==> Objects(a)[i] == a[i].target && Objects(b)[i] == b[i].target;
  }

  lemma Unlinked(nodes: seq<Node>, i: nat)
    requires Distinct(nodes) && i < |nodes|
    ensures var rest := nodes[..i] + nodes[i + 1..];
            && Distinct(rest) && rest[..i] == nodes[..i] && rest[i..] == nodes[i + 1..]
            && forall x :: x in AsSet(Objects(rest)) <==> x in AsSet(Objects(nodes)) && x != nodes[i].target
  {
    var rest := nodes[..i] + nodes[i + 1..];
    forall x ensures x in Objects(rest) <==> x in Objects(nodes) && x != nodes[i].target {
      if x in Objects(nodes) && x != nodes[i].target {
        var j :| 0 <= j < |nodes| && nodes[j].target == x;
        assert Objects(rest)[if j < i then j else j - 1] == x;
      }
      if x in Objects(rest) {
        var j :| 0 <= j < |rest| && rest[j].target == x;
        assert Objects(nodes)[if j < i then j else j + 1] == x;
      }
    }
  }

  lemma PopStands(nodes: seq<Node>, stack: seq<nat>, waiting: seq<nat>)
    requires Stands(nodes, stack, waiting) && stack != []
    ensures var n := |stack| - 1;
            |waiting| == n + 1 && stack[n] < |nodes| && nodes[stack[n]].target == waiting[n]
            && Stands(nodes, stack[..n], waiting[..n])
  {
  }

  lemma KeepStands(a: seq<Node>, b: seq<Node>, stack: seq<nat>, waiting: seq<nat>)
    requires Stands(a, stack, waiting) && Objects(a) == Objects(b)
    ensures Stands(b, stack, waiting)
  {
    assert forall i :: 0 <= i < |a| ==> Objects(a)[i] == a[i].target && Objects(b)[i] == b[i].target;
  }

  /** One turn of the marking loop. */
  lemma MarkTurn(objs: Objs, tracked: set<nat>, marked: set<nat>, waiting: seq<nat>)
    requires waiting != [] && forall x :: x in waiting ==> x in tracked
    ensures var n := |waiting| - 1;
            var cur, rest := waiting[n], waiting[..n];
            var next := PushAll(tracked, marked + {cur}, rest, Children(objs, cur));
            if cur in marked then
              (forall x :: x in rest ==> x in tracked)
              && MarkLoop(objs, tracked, marked, waiting) == MarkLoop(objs, tracked, marked, rest)
            else
              && |tracked - (marked + {cur})| < |tracked - marked|
              && (forall x :: x in next ==> x in tracked)
              && MarkLoop(objs, tracked, marked, waiting) == MarkLoop(objs, tracked, marked + {cur}, next)
  {
    var n := |waiting| - 1;
    if waiting[n] !in marked {
      Fewer(tracked, marked, waiting[n]);
      PushedTracked(tracked, marked + {waiting[n]}, waiting[..n], Children(objs, waiting[n]));
    }
  }

  lemma MarkDone(objs: Objs, tracked: set<nat>, marked: set<nat>)
    ensures MarkLoop(objs, tracked, marked, []) == marked
  {
  }

  lemma SweepDone(counts: Objs, objs: Objs, marked: set<nat>)
    ensures Sweep(counts, marked, []) == [] && FreeAll(objs, marked, []) == objs
    ensures Objects([]) == []
  {
  }

  lemma SweepTurn(counts: Objs, objs: Objs, marked: set<nat>, nodes: seq<Node>, i: nat)
    requires i < |nodes| && nodes[i].target < |objs|
    ensures var x := nodes[i].target;
            && Sweep(counts, marked, Objects(nodes[i..]))
               == (if Kept(counts, marked, x) then [x] else []) + Sweep(counts, marked, Objects(nodes[i + 1..]))
            && FreeAll(objs, marked, Objects(nodes[i..]))
               == FreeAll(if Kept(objs, marked, x) then objs else objs[x := objs[x].(live := false)], marked,
                          Objects(nodes[i + 1..]))
            && Objects(nodes[..i + 1]) == Objects(nodes[..i]) + [x]
  {
    var xs := Objects(nodes[i..]);
    assert xs[0] == nodes[i].target && xs[1..] == Objects(nodes[i + 1..]);
  }

  lemma InFront(x: nat, xs: seq<nat>)
    ensures AsSet([x] + xs) == {x} + AsSet(xs)
  {
    assert forall i :: 0 <= i < |xs| ==> ([x] + xs)[i + 1] == xs[i];
    assert ([x] + xs)[0] == x;
  }

  lemma {:induction false} SweepNoLonger(objs: Objs, marked: set<nat>, xs: seq<nat>)
    ensures |Sweep(objs, marked, xs)| <= |xs|
    decreases |xs|
  {
    if xs != [] { SweepNoLonger(objs, marked, xs[1..]); }
  }

  class Manager {
    var objs: Objs
    var nodes: seq<Node>
    var roots: seq<nat>
    var enabled: bool
    var threshold: nat

    constructor ()
      ensures Valid() && objs == [] && nodes == [] && roots == [] && !enabled && threshold == DEFAULT_THRESHOLD
    {
      objs, nodes, roots := [], [], [];
      enabled, threshold := false, DEFAULT_THRESHOLD;
    }

    /** The tracked objects are exactly the live ones, each tracked once. */
    ghost predicate Valid()
      reads this
    {
      && Distinct(nodes)
      && forall x: nat :: x in AsSet(Objects(nodes)) <==> x < |objs| && objs[x].live
    }

    ghost function Tracked(): set<nat>
      reads this
    {
      AsSet(Objects(nodes))
    }

    method FindNode(target: nat) returns (k: nat)
      ensures k <= |nodes|
      ensures k < |nodes| ==> nodes[k].target == target
      ensures k == |nodes| <==> target !in Tracked()
    {
      k := 0;
      while k < |nodes|
        invariant k <= |nodes|
        invariant forall i :: 0 <= i < k ==> nodes[i].target != target
      {
        if nodes[k].target == target {
          assert Objects(nodes)[k] == target;
          return;
        }
        k := k + 1;
      }
      assert forall i :: 0 <= i < |nodes| ==> Objects(nodes)[i] == nodes[i].target;
    }

    /** Pushes the node of the object in one slot, if there is room; never writes outside the stack. */
    method MarkValue(v: Value, stack: array<nat>, top: nat, ghost waiting: seq<nat>)
        returns (top': nat, ghost waiting': seq<nat>)
      requires Valid() && stack.Length == MAX_STACK && top <= MAX_STACK
      requires Stands(nodes, stack[..top], waiting)
      modifies stack
      ensures top' <= MAX_STACK && Stands(nodes, stack[..top'], waiting')
      ensures waiting' == PushChild(Tracked(), MarkedIn(nodes), waiting, v)
    {
      top', waiting' := top, waiting;
      if top >= MAX_STACK || !v.Ref? {
        return;
      }
      var k := FindNode(v.at);
      if k < |nodes| && !nodes[k].marked {
        stack[top'] := k;
        top' := top' + 1;
        waiting' := waiting + [v.at];
        assert stack[..top'] == stack[..top] + [k];
      }
      if k < |nodes| { MarkedIff(nodes, k); }
    }

    /** Pushes the children of the object that node `k` tracks. */
    method PushChildren(k: nat, stack: array<nat>, top: nat, ghost waiting: seq<nat>)
        returns (top': nat, ghost waiting': seq<nat>)
      requires Valid() && k < |nodes| && stack.Length == MAX_STACK && top <= MAX_STACK
      requires Stands(nodes, stack[..top], waiting)
      modifies stack
      ensures top' <= MAX_STACK && Stands(nodes, stack[..top'], waiting')
      ensures waiting' == PushAll(Tracked(), MarkedIn(nodes), waiting, Children(objs, nodes[k].target))
    {
      MarkedIff(nodes, k);
      var slots := Slots(objs[nodes[k].target].body);
      ghost var tracked, marked := Tracked(), MarkedIn(nodes);
      top', waiting' := top, waiting;
      var i := 0;
      while i < |slots|
        invariant i <= |slots| && top' <= MAX_STACK
        invariant Stands(nodes, stack[..top'], waiting')
        invariant PushAll(tracked, marked, waiting', slots[i..]) == PushAll(tracked, marked, waiting, slots)
      {
        top', waiting' := MarkValue(slots[i], stack, top', waiting');
        assert slots[i..][1..] == slots[i + 1..];
        i := i + 1;
      }
      assert slots[i..] == [];
    }

    /** Pops one node; if it is not marked yet, marks it and pushes its children. */
    method MarkNext(stack: array<nat>, top: nat, ghost waiting: seq<nat>)
        returns (top': nat, ghost waiting': seq<nat>)
      requires Valid() && stack.Length == MAX_STACK && 0 < top <= MAX_STACK
      requires Stands(nodes, stack[..top], waiting) && forall x :: x in waiting ==> x in Tracked()
      modifies `nodes, stack
      ensures Valid() && Objects(nodes) == old(Objects(nodes))
      ensures top' <= MAX_STACK && Stands(nodes, stack[..top'], waiting')
      ensures forall x :: x in waiting' ==> x in old(Tracked())
      ensures MarkLoop(objs, old(Tracked()), MarkedIn(nodes), waiting')
              == MarkLoop(objs, old(Tracked()), old(MarkedIn(nodes)), waiting)
      ensures var was, left := |Tracked() - old(MarkedIn(nodes))|, |Tracked() - MarkedIn(nodes)|;
              left < was || (left == was && top' < top)
    {
      hide PushAll, Children, AsSet, MarkedIn, MarkLoop, Stands, Distinct, Objects;
      PopStands(nodes, stack[..top], waiting);
      MarkTurn(objs, Tracked(), MarkedIn(nodes), waiting);
      top' := top - 1;
      assert stack[..top][..top'] == stack[..top'];
      waiting' := waiting[..top'];
      var k := stack[top'];
      MarkedIff(nodes, k);
      if !nodes[k].marked {
        MarkOne(nodes, k);
        var nodes' := nodes[k := nodes[k].(marked := true)];
        SameObjects(nodes, nodes');
        KeepStands(nodes, nodes', stack[..top'], waiting');
        nodes := nodes';
        top', waiting' := PushChildren(k, stack, top', waiting');
      }
    }

    method MarkReachable(root: nat)
      requires Valid()
      modifies `nodes
      ensures Valid() && Objects(nodes) == old(Objects(nodes))
      ensures MarkedIn(nodes) == MarkFrom(objs, Tracked(), old(MarkedIn(nodes)), root)
    {
      hide AsSet, MarkedIn, MarkLoop, Distinct;
      var start := FindNode(root);
      if start == |nodes| || nodes[start].marked {
        if start < |nodes| { MarkedIff(nodes, start); }
        return;
      }
      MarkedIff(nodes, start);
      var stack := new nat[MAX_STACK];
      stack[0] := start;
      var top: nat := 1;
      ghost var waiting := [root];
      assert stack[..1] == [start];
      while top > 0
        invariant top <= MAX_STACK && Stands(nodes, stack[..top], waiting)
        invariant Valid() && Objects(nodes) == old(Objects(nodes))
        invariant forall x :: x in waiting ==> x in Tracked()
        invariant MarkLoop(objs, Tracked(), MarkedIn(nodes), waiting)
                  == MarkLoop(objs, Tracked(), old(MarkedIn(nodes)), [root])
        decreases |Tracked() - MarkedIn(nodes)|, top
      {
        top, waiting := MarkNext(stack, top, waiting);
      }
      assert waiting == [];
      MarkDone(objs, Tracked(), MarkedIn(nodes));
    }

    /** Clears every mark. */
    method ClearMarks()
      requires Valid()
      modifies `nodes
      ensures Valid() && Objects(nodes) == old(Objects(nodes)) && MarkedIn(nodes) == {}
    {
      var i := 0;
      while i < |nodes|
        invariant i <= |nodes| && Objects(nodes) == old(Objects(nodes)) && |nodes| == old(|nodes|) && objs == old(objs)
        invariant forall j :: 0 <= j < i ==> !nodes[j].marked
      {
        SameTarget(nodes, i, false);
        nodes := nodes[i := nodes[i].(marked := false)];
        i := i + 1;
      }
      SameObjects(old(nodes), nodes);
    }

    /** The first `i` nodes have been swept; the rest carry the original marks and counts. */
    ghost predicate Sweeping(counts: Objs, marked: set<nat>, i: nat)
      reads this
    {
      && i <= |nodes| && |objs| == |counts|
      && (forall j :: i <= j < |nodes| ==> (nodes[j].marked <==> nodes[j].target in marked))
      && (forall x :: 0 <= x < |objs| ==> objs[x].rc == counts[x].rc)
    }

    /** Unlinks and frees node `i`, or passes over it. */
    method SweepNext(i: nat, ghost counts: Objs, ghost marked: set<nat>) returns (i': nat)
      requires Valid() && Sweeping(counts, marked, i) && i < |nodes|
      modifies `nodes, `objs
      ensures Valid() && Sweeping(counts, marked, i') && |nodes| - i' < old(|nodes|) - i
      ensures Objects(nodes[..i']) + Sweep(counts, marked, Objects(nodes[i'..]))
              == old(Objects(nodes[..i]) + Sweep(counts, marked, Objects(nodes[i..])))
      ensures FreeAll(objs, marked, Objects(nodes[i'..])) == old(FreeAll(objs, marked, Objects(nodes[i..])))
    {
      var x := nodes[i].target;
      MarkedIff(nodes, i);
      SweepTurn(counts, objs, marked, nodes, i);
      if !nodes[i].marked && objs[x].rc == 0 {
        Unlinked(nodes, i);
        hide Sweep, FreeAll, AsSet, Objects, Distinct;
        nodes := nodes[..i] + nodes[i + 1..];
        objs := objs[x := objs[x].(live := false)];
        i' := i;
      } else {
        hide Sweep, FreeAll, AsSet, Objects, Distinct;
        i' := i + 1;
      }
    }

    /** Unlinks and frees every unmarked object whose count is zero. */
    method SweepUnreachable()
      requires Valid()
      modifies `nodes, `objs
      ensures Valid()
      ensures Objects(nodes) == Sweep(old(objs), old(MarkedIn(nodes)), old(Objects(nodes)))
      ensures objs == FreeAll(old(objs), old(MarkedIn(nodes)), old(Objects(nodes)))
    {
      forall j | 0 <= j < |nodes| { MarkedIff(nodes, j); }
      hide Sweep, FreeAll, AsSet, Objects, Distinct, MarkedIn;
      ghost var counts, marked := objs, MarkedIn(nodes);
      SweepDone(counts, counts, marked);
      assert nodes[..0] == [] && nodes[0..] == nodes;
      var i: nat := 0;
      while i < |nodes|
        invariant Valid() && i <= |nodes| && Sweeping(counts, marked, i)
        invariant Objects(nodes[..i]) + Sweep(counts, marked, Objects(nodes[i..]))
                  == Sweep(counts, marked, old(Objects(nodes)))
        invariant FreeAll(objs, marked, Objects(nodes[i..])) == FreeAll(counts, marked, old(Objects(nodes)))
        decreases |nodes| - i
      {
        i := SweepNext(i, counts, marked);
      }
      assert nodes[..i] == nodes && nodes[i..] == [];
      SweepDone(counts, objs, marked);
    }

    /** Nothing happens while collection is disabled. A run that frees less than a tenth of the
        threshold raises it by half. */
    method CollectCycles()
      requires Valid()
      modifies `nodes, `objs, `threshold
      ensures Valid()
      ensures !enabled ==> objs == old(objs) && nodes == old(nodes) && threshold == old(threshold)
      ensures enabled ==> objs == Collect(old(objs), old(Objects(nodes)), roots)
      ensures enabled ==>
                Objects(nodes) == Sweep(old(objs), Marks(old(objs), old(Objects(nodes)), roots), old(Objects(nodes)))
      ensures enabled ==> |nodes| <= old(|nodes|)
      ensures enabled ==>
                threshold == if old(|nodes|) - |nodes| < old(threshold) / 10 then old(threshold) * 3 / 2
                    else old(threshold)
    {
      if !enabled {
        return;
      }
      var before := |nodes|;
      ClearMarks();
      var xs := Objects(nodes);
      ghost var tracked := AsSet(xs);
      var i := 0;
      while i < |nodes|
        invariant i <= |nodes| && Valid() && objs == old(objs) && Objects(nodes) == xs && threshold == old(threshold)
        invariant MarkCounted(objs, tracked, MarkedIn(nodes), xs[i..]) == MarkCounted(objs, tracked, {}, xs)
      {
        assert xs[i] == nodes[i].target && xs[i..][1..] == xs[i + 1..];
        MarkedIff(nodes, i);
        if objs[nodes[i].target].rc > 0 {
          MarkReachable(nodes[i].target);
        }
        i := i + 1;
      }
      assert xs[i..] == [];
      var j := 0;
      while j < |roots|
        invariant j <= |roots| && Valid() && objs == old(objs) && Objects(nodes) == xs && threshold == old(threshold)
        invariant MarkRoots(objs, tracked, MarkedIn(nodes), roots[j..]) == Marks(objs, xs, roots)
      {
        assert roots[j..][1..] == roots[j + 1..];
        MarkReachable(roots[j]);
        j := j + 1;
      }
      assert roots[j..] == [];
      SweepUnreachable();
      SweepNoLonger(old(objs), Marks(old(objs), xs, roots), xs);
      if before - |nodes| < threshold / 10 {
        threshold := threshold * 3 / 2;
      }
    }

    // -------------------------------------------------------------- objects come and change

    /** A new object, tracked at the front of the list, with one owner: the caller. */
    method Alloc(b: Body) returns (at: nat)
      requires Valid()
      modifies `objs, `nodes
      ensures Valid() && at == old(|objs|) && objs == old(objs) + [Obj(true, 1, b)]
      ensures Objects(nodes) == [at] + old(Objects(nodes))
    {
      at := |objs|;
      ghost var was := nodes;
      forall i | 0 <= i < |nodes| ensures nodes[i].target != at { MarkedIff(nodes, i); }
      objs := objs + [Obj(true, 1, b)];
      nodes := [Node(at, false)] + nodes;
      assert Objects(nodes) == [at] + Objects(was);
      InFront(at, Objects(was));
    }

    method Retain(v: Value)
      requires Valid()
      modifies `objs
      ensures Valid() && objs == Store.Retain(old(objs), v)
    {
      if v.Ref? && v.at < |objs| && objs[v.at].rc < MAX_REFCOUNT {
        objs := objs[v.at := objs[v.at].(rc := objs[v.at].rc + 1)];
      }
    }

    /** What the slots of an object hold has changed. */
    method SetBody(at: nat, b: Body)
      requires Valid() && at < |objs|
      modifies `objs
      ensures Valid() && objs == old(objs)[at := old(objs)[at].(body := b)]
    {
      objs := objs[at := objs[at].(body := b)];
    }

    /** `bread_value_release` on a slot that holds `v`. */
    method ReleaseValue(v: Value)
      requires Valid()
      modifies `objs, `nodes
      ensures Valid() && objs == if v.Ref? then Store.Release(old(objs), v.at) else old(objs)
    {
      if v.Ref? {
        Release(v.at);
      }
    }

    // -------------------------------------------------------------- releasing

    method Untrack(target: nat)
      modifies `nodes
      requires Distinct(nodes)
      ensures Distinct(nodes)
      ensures forall x :: x in AsSet(Objects(nodes)) <==> x in AsSet(old(Objects(nodes))) && x != target
    {
      var k := FindNode(target);
      if k < |nodes| {
        Unlinked(nodes, k);
        nodes := nodes[..k] + nodes[k + 1..];
      }
    }

    /** Gives up one reference. The last one releases every slot and then frees the object. */
    method Release(r: nat)
      requires Valid()
      modifies `objs, `nodes
      ensures Valid() && objs == Store.Release(old(objs), r)
      decreases SumRc(objs)
    {
      hide AsSet, Objects, Distinct, SumRc, Slots;
      if r >= |objs| || objs[r].rc == 0 {
        return;
      }
      SumRcUpdate(objs, r, objs[r].(rc := objs[r].rc - 1));
      objs := objs[r := objs[r].(rc := objs[r].rc - 1)];
      if objs[r].rc > 0 {
        return;
      }
      var slots := Slots(objs[r].body);
      ghost var start := objs;
      var i := 0;
      while i < |slots|
        invariant 0 <= i <= |slots| && Valid()
        invariant ReleaseAll(objs, slots[i..]) == ReleaseAll(start, slots) && SumRc(objs) <= SumRc(start)
      {
        assert slots[i..][1..] == slots[i + 1..];
        if slots[i].Ref? {
          Release(slots[i].at);
        }
        i := i + 1;
      }
      assert slots[i..] == [];
      Untrack(r);
      objs := objs[r := objs[r].(live := false)];
    }
  }
}
