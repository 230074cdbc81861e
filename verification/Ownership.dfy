/** The container operations as ownership transfers, and the invariant that every run keeps: each
    count equals the number of holding slots and handles. The caller owns what it passes. */
module Ownership {
  import opened Syntax
  import opened Store

  datatype Outcome = Outcome(objs: Objs, ok: bool)

  function WithBody(objs: Objs, a: nat, b: Body): Objs
    requires a < |objs|
  {
    objs[a := objs[a].(body := b)]
  }

  function Alloc(objs: Objs, b: Body): Objs { objs + [Obj(true, 1, b)] }

  function ReleaseValue(objs: Objs, v: Value): (res: Objs)
    ensures |res| == |objs|
  {
    if v.Ref? then Release(objs, v.at) else objs
  }

  /** Replaces what one slot of `a` holds: the old value is taken out and released, then the new one is
      cloned in. `hole` and `full` are the body with the slot empty and with the new value in it. */
  function Swap(objs: Objs, a: nat, hole: Body, was: Value, full: Body, v: Value): Objs
    requires a < |objs|
  {
    WithBody(Retain(ReleaseValue(WithBody(objs, a, hole), was), v), a, full)
  }

  // ---------------------------------------------------------------- arrays

  function ElemType(elem: Type, items: seq<Value>, v: Value): Type {
    if elem == TNil && items == [] then TypeOf(v) else elem
  }

  function Append(objs: Objs, a: nat, v: Value): Outcome
    requires a < |objs| && objs[a].body.Arr?
  {
    var Arr(elem, items) := objs[a].body;
    if elem != TNil && elem != TypeOf(v) then Outcome(objs, false)
    else Outcome(WithBody(Retain(objs, v), a, Arr(ElemType(elem, items, v), items + [v])), true)
  }

  function Index(index: int, count: nat): int { if index < 0 then count + index else index }

  function Insert(objs: Objs, a: nat, v: Value, index: int): Outcome
    requires a < |objs| && objs[a].body.Arr?
  {
    var Arr(elem, items) := objs[a].body;
    var i := Index(index, |items|);
    if i < 0 || i > |items| then Outcome(objs, false)
    else if elem != TNil && elem != TypeOf(v) then Outcome(objs, false)
    else Outcome(WithBody(Retain(objs, v), a, Arr(ElemType(elem, items, v), items[..i] + [v] + items[i..])), true)
  }

  function SetItem(objs: Objs, a: nat, i: int, v: Value): Outcome
    requires a < |objs| && objs[a].body.Arr?
  {
    var Arr(elem, items) := objs[a].body;
    if i < 0 || i >= |items| then Outcome(objs, false)
    else if elem != TNil && elem != TypeOf(v) then Outcome(objs, false)
    else Outcome(Swap(objs, a, Arr(elem, items[i := Nil]), items[i], Arr(elem, items[i := v]), v), true)
  }

  /** The removed value is cloned for the caller, then its slot is released and closed. */
  function RemoveAt(objs: Objs, a: nat, index: int): (res: (Objs, Value))
    requires a < |objs| && objs[a].body.Arr?
  {
    var Arr(elem, items) := objs[a].body;
    var i := Index(index, |items|);
    if i < 0 || i >= |items| then (objs, Nil)
    else
      var objs1 := WithBody(Retain(objs, items[i]), a, Arr(elem, items[i := Nil]));
      (WithBody(ReleaseValue(objs1, items[i]), a, Arr(elem, items[..i] + items[i + 1..])), items[i])
  }

  // ---------------------------------------------------------------- structs and dictionaries

  function FieldIndex(names: seq<string>, name: string): (i: nat)
    ensures i <= |names|
    ensures i < |names| ==> names[i] == name
    ensures forall j :: 0 <= j < i ==> names[j] != name
  {
    if names == [] || names[0] == name then 0 else 1 + FieldIndex(names[1..], name)
  }

  function StructSet(objs: Objs, s: nat, name: string, v: Value): Objs
    requires s < |objs| && objs[s].body.Struct?
  {
    var Struct(names, values) := objs[s].body;
    var i := FieldIndex(names, name);
    if i < |names| && i < |values|
    then Swap(objs, s, Struct(names, values[i := Nil]), values[i], Struct(names, values[i := v]), v)
    else objs
  }

  predicate IsText(objs: Objs, v: Value, text: string) {
    v.Ref? && v.kind == KStr && v.at < |objs| && objs[v.at].body == Str(text)
  }

  function EntryIndex(objs: Objs, es: seq<Entry>, text: string): (i: nat)
    ensures i <= |es|
  {
    if es == [] || IsText(objs, es[0].key, text) then 0 else 1 + EntryIndex(objs, es[1..], text)
  }

  /** The key string is allocated first; it is released again unless it becomes the key of a new entry. */
  function DictSet(objs: Objs, d: nat, text: string, v: Value): Outcome
    requires d < |objs| && objs[d].body.Dict?
  {
    var k := |objs|;
    var objs1 := Alloc(objs, Str(text));
    var Dict(kt, vt, es) := objs[d].body;
    if (kt != TNil && kt != TRef(KStr)) || (vt != TNil && vt != TypeOf(v)) then Outcome(Release(objs1, k), false)
    else
      var kt' := if kt == TNil && es == [] then TRef(KStr) else kt;
      var vt' := if vt == TNil && es == [] then TypeOf(v) else vt;
      var i := EntryIndex(objs1, es, text);
      if i < |es| then
        var hole := Dict(kt', vt', es[i := Entry(es[i].key, Nil)]);
        var full := Dict(kt', vt', es[i := Entry(es[i].key, v)]);
        Outcome(Release(Swap(objs1, d, hole, es[i].value, full, v), k), true)
      else Outcome(WithBody(Retain(objs1, v), d, Dict(kt', vt', es + [Entry(Ref(KStr, k), v)])), true)
  }

  // ---------------------------------------------------------------- operations as steps

  datatype Op =
    | New(body: Body)
    | NewSome(v: Value)
    | Share(v: Value)
    | Drop(r: nat)
    | AppendTo(a: nat, v: Value)
    | InsertInto(a: nat, v: Value, index: int)
    | SetIn(a: nat, i: int, v: Value)
    | RemoveFrom(a: nat, index: int)
    | SetKey(d: nat, text: string, v: Value)
    | SetField(s: nat, name: string, v: Value)

  /** handles: the references that the program itself holds, each counted. */
  datatype State = State(objs: Objs, handles: multiset<nat>)

  /** The caller holds `v` and one more reference to it can be counted. */
  predicate MayShare(st: State, v: Value) {
    v.Ref? ==> v.at in st.handles && v.at < |st.objs| && st.objs[v.at].rc < MAX_REFCOUNT
  }

  predicate Holds(st: State, a: nat) {
    a in st.handles && a < |st.objs|
  }

  predicate Legal(st: State, op: Op) {
    match op
    case New(b) => RefsOf(Slots(b)) == multiset{}
    case NewSome(v) => MayShare(st, v)
    case Share(v) => MayShare(st, v)
    case Drop(r) => Holds(st, r)
    case AppendTo(a, v) => Holds(st, a) && st.objs[a].body.Arr? && MayShare(st, v)
    case InsertInto(a, v, _) => Holds(st, a) && st.objs[a].body.Arr? && MayShare(st, v)
    case SetIn(a, _, v) => Holds(st, a) && st.objs[a].body.Arr? && MayShare(st, v)
    case RemoveFrom(a, index) =>
      && Holds(st, a) && st.objs[a].body.Arr?
      && var items := st.objs[a].body.items;
         var i := Index(index, |items|);
         0 <= i < |items| && items[i].Ref? ==> items[i].at < |st.objs| && st.objs[items[i].at].rc < MAX_REFCOUNT
    case SetKey(d, _, v) => Holds(st, d) && st.objs[d].body.Dict? && MayShare(st, v)
    case SetField(s, _, v) => Holds(st, s) && st.objs[s].body.Struct? && MayShare(st, v)
  }

  function HandleOn(v: Value): multiset<nat> { RefsOf([v]) }

  function Apply(st: State, op: Op): State
    requires Legal(st, op)
  {
    match op
    case New(b) => State(Alloc(st.objs, b), st.handles + multiset{|st.objs|})
    case NewSome(v) => State(Alloc(Retain(st.objs, v), Opt(Some(v))), st.handles + multiset{|st.objs|})
    case Share(v) => State(Retain(st.objs, v), st.handles + HandleOn(v))
    case Drop(r) => State(Release(st.objs, r), st.handles - multiset{r})
    case AppendTo(a, v) => st.(objs := Append(st.objs, a, v).objs)
    case InsertInto(a, v, index) => st.(objs := Insert(st.objs, a, v, index).objs)
    case SetIn(a, i, v) => st.(objs := SetItem(st.objs, a, i, v).objs)
    case RemoveFrom(a, index) =>
      var (objs, v) := RemoveAt(st.objs, a, index);
      State(objs, st.handles + HandleOn(v))
    case SetKey(d, text, v) => st.(objs := DictSet(st.objs, d, text, v).objs)
    case SetField(s, name, v) => st.(objs := StructSet(st.objs, s, name, v))
  }

  ghost predicate Owned(st: State) {
    Counted(st.objs, st.handles) && AllOwned(st.objs)
  }

  // ---------------------------------------------------------------- the building blocks keep the counts

  lemma {:induction false} RetainCounted(objs: Objs, v: Value, handles: multiset<nat>)
    requires Counted(objs, handles) && AllOwned(objs)
    requires v.Ref? ==> v.at < |objs| && 0 < objs[v.at].rc < MAX_REFCOUNT
    ensures Counted(Retain(objs, v), handles + RefsOf([v])) && AllOwned(Retain(objs, v))
  {
    hide Slots, Owners;
    var res := Retain(objs, v);
    if v.Ref? {
      assert RefsOf([v]) == multiset{v.at} by { assert [v][1..] == []; }
      hide RefsOf;
      forall x: nat ensures Owners(res, x) == Owners(objs, x) { OwnersUpdate(objs, v.at, res[v.at], x); }
    } else {
      assert handles + RefsOf([v]) == handles by { assert [v][1..] == []; }
    }
  }

  /** A saturated count is the one case in which a clone is not counted. */
  lemma {:induction false} RetainCountsUnlessSaturated(objs: Objs, v: Value, handles: multiset<nat>)
    requires Counted(objs, handles) && AllOwned(objs) && v.Ref? && v.at < |objs| && objs[v.at].rc > 0
    ensures Counted(Retain(objs, v), handles + multiset{v.at}) <==> objs[v.at].rc < MAX_REFCOUNT
  {
    assert RefsOf([v]) == multiset{v.at} by { assert [v][1..] == []; }
    hide Slots, Owners, RefsOf;
    if objs[v.at].rc < MAX_REFCOUNT { RetainCounted(objs, v, handles); }
  }

  /** Slots of `a` change hands: what the old body and the old handles held, the new ones hold. */
  lemma {:induction false} BodyCounted(objs: Objs, a: nat, b: Body, handles: multiset<nat>, handles': multiset<nat>)
    requires Counted(objs, handles) && AllOwned(objs) && a < |objs| && objs[a].rc > 0
    requires forall x: nat :: RefsOf(Slots(objs[a].body))[x] + handles[x] == RefsOf(Slots(b))[x] + handles'[x]
    ensures Counted(WithBody(objs, a, b), handles') && AllOwned(WithBody(objs, a, b))
  {
    hide Slots, Owners, RefsOf;
    var res := WithBody(objs, a, b);
    forall x: nat
      ensures Owners(res, x) + RefsOf(Slots(objs[a].body))[x] == Owners(objs, x) + RefsOf(Slots(b))[x]
      ensures RefsOf(Slots(objs[a].body))[x] <= Owners(objs, x)
    {
      OwnersUpdate(objs, a, res[a], x);
    }
  }

  lemma {:induction false} AllocCounted(objs: Objs, b: Body, handles: multiset<nat>, handles': multiset<nat>)
    requires Counted(objs, handles) && AllOwned(objs)
    requires forall x: nat :: handles'[x] + RefsOf(Slots(b))[x] == handles[x] + if x == |objs| then 1 else 0
    ensures Counted(Alloc(objs, b), handles') && AllOwned(Alloc(objs, b))
  {
    hide Slots, RefsOf;
    var res := Alloc(objs, b);
    assert res[..|objs|] == objs;
    forall x: nat ensures Owners(res, x) == Owners(objs, x) + RefsOf(Slots(b))[x] { }
  }

  lemma {:induction false} ReleaseValueCounted(objs: Objs, v: Value, handles: multiset<nat>)
    requires Counted(objs, handles + RefsOf([v])) && AllOwned(objs)
    ensures Counted(ReleaseValue(objs, v), handles) && AllOwned(ReleaseValue(objs, v))
    ensures Shrinks(objs, ReleaseValue(objs, v))
  {
    hide Counted;
    if v.Ref? {
      assert RefsOf([v]) == multiset{v.at} by { assert [v][1..] == []; }
      ReleaseCounted(objs, v.at, handles + RefsOf([v]));
      ReleaseShrinks(objs, v.at);
      assert handles + RefsOf([v]) - multiset{v.at} == handles;
    } else {
      assert handles + RefsOf([v]) == handles by { assert [v][1..] == []; }
    }
  }

  lemma HandleLives(objs: Objs, r: nat, handles: multiset<nat>)
    requires Counted(objs, handles) && r in handles
    ensures r < |objs| && objs[r].rc > 0
  {
  }

  lemma {:induction false} SwapCounted(objs: Objs, a: nat, hole: Body, was: Value, full: Body, v: Value,
                                       handles: multiset<nat>)
    requires Counted(objs, handles) && AllOwned(objs) && a in handles && a < |objs|
    requires v.Ref? ==> v.at in handles && v.at < |objs| && objs[v.at].rc < MAX_REFCOUNT
    requires forall x: nat :: RefsOf(Slots(objs[a].body))[x] == RefsOf(Slots(hole))[x] + RefsOf([was])[x]
    requires forall x: nat :: RefsOf(Slots(full))[x] == RefsOf(Slots(hole))[x] + RefsOf([v])[x]
    ensures Counted(Swap(objs, a, hole, was, full, v), handles) && AllOwned(Swap(objs, a, hole, was, full, v))
  {
    hide Slots, RefsOf, Counted;
    HandleLives(objs, a, handles);
    var objs1 := WithBody(objs, a, hole);
    BodyCounted(objs, a, hole, handles, handles + RefsOf([was]));
    var objs2 := ReleaseValue(objs1, was);
    ReleaseValueCounted(objs1, was, handles);
    HandleLives(objs2, a, handles);
    if v.Ref? { HandleLives(objs2, v.at, handles); }
    var objs3 := Retain(objs2, v);
    RetainCounted(objs2, v, handles);
    assert objs3[a].body == hole;
    BodyCounted(objs3, a, full, handles + RefsOf([v]), handles);
  }

  // ---------------------------------------------------------------- slots under sequence operations

  lemma {:induction false} RefsOfUpdate(vs: seq<Value>, i: nat, v: Value, x: nat)
    requires i < |vs|
    ensures RefsOf(vs[i := v])[x] + RefsOf([vs[i]])[x] == RefsOf(vs)[x] + RefsOf([v])[x]
  {
    assert vs == vs[..i] + [vs[i]] + vs[i + 1..];
    assert vs[i := v] == vs[..i] + [v] + vs[i + 1..];
    RefsOfConcat(vs[..i] + [vs[i]], vs[i + 1..]);
    RefsOfConcat(vs[..i], [vs[i]]);
    RefsOfConcat(vs[..i] + [v], vs[i + 1..]);
    RefsOfConcat(vs[..i], [v]);
  }

  lemma {:induction false} RefsOfHole(vs: seq<Value>, i: nat, v: Value, x: nat)
    requires i < |vs|
    ensures RefsOf(vs)[x] == RefsOf(vs[i := Nil])[x] + RefsOf([vs[i]])[x]
    ensures RefsOf(vs[i := v])[x] == RefsOf(vs[i := Nil])[x] + RefsOf([v])[x]
  {
    RefsOfUpdate(vs, i, Nil, x);
    RefsOfUpdate(vs, i, v, x);
    assert RefsOf([Nil]) == multiset{} by { assert [Nil][1..] == []; }
  }

  lemma {:induction false} RefsOfSplice(vs: seq<Value>, i: nat, v: Value)
    requires i <= |vs|
    ensures RefsOf(vs[..i] + [v] + vs[i..]) == RefsOf(vs) + RefsOf([v])
  {
    assert vs == vs[..i] + vs[i..];
    RefsOfConcat(vs[..i] + [v], vs[i..]);
    RefsOfConcat(vs[..i], [v]);
    RefsOfConcat(vs[..i], vs[i..]);
  }

  lemma {:induction false} FlattenConcat(a: seq<Entry>, b: seq<Entry>)
    ensures Flatten(a + b) == Flatten(a) + Flatten(b)
    decreases |a|
  {
    if a == [] {
      assert a + b == b;
    } else {
      assert (a + b)[1..] == a[1..] + b;
      FlattenConcat(a[1..], b);
    }
  }

  lemma {:induction false} EntryRefs(e: Entry)
    ensures RefsOf(Flatten([e])) == RefsOf([e.key]) + RefsOf([e.value])
  {
    assert [e][1..] == [];
    assert Flatten([e]) == [e.key] + [e.value];
    RefsOfConcat([e.key], [e.value]);
  }

  lemma {:induction false} RefsOfEntry(es: seq<Entry>, i: nat, v: Value, x: nat)
    requires i < |es|
    ensures RefsOf(Flatten(es[i := Entry(es[i].key, v)]))[x]
            == RefsOf(Flatten(es[..i]))[x] + RefsOf([es[i].key])[x] + RefsOf([v])[x] + RefsOf(Flatten(es[i + 1..]))[x]
  {
    hide RefsOf, Flatten;
    var e := Entry(es[i].key, v);
    assert es[i := e] == es[..i] + [e] + es[i + 1..];
    FlattenConcat(es[..i] + [e], es[i + 1..]);
    FlattenConcat(es[..i], [e]);
    RefsOfConcat(Flatten(es[..i]) + Flatten([e]), Flatten(es[i + 1..]));
    RefsOfConcat(Flatten(es[..i]), Flatten([e]));
    EntryRefs(e);
  }

  lemma {:induction false} RefsOfEntryHole(es: seq<Entry>, i: nat, v: Value, x: nat)
    requires i < |es|
    ensures RefsOf(Flatten(es))[x] == RefsOf(Flatten(es[i := Entry(es[i].key, Nil)]))[x] + RefsOf([es[i].value])[x]
    ensures RefsOf(Flatten(es[i := Entry(es[i].key, v)]))[x]
            == RefsOf(Flatten(es[i := Entry(es[i].key, Nil)]))[x] + RefsOf([v])[x]
  {
    hide Flatten, RefsOf;
    RefsOfEntry(es, i, es[i].value, x);
    assert es[i := Entry(es[i].key, es[i].value)] == es;
    RefsOfEntry(es, i, Nil, x);
    RefsOfEntry(es, i, v, x);
    NoRefs();
  }

  // ---------------------------------------------------------------- every operation keeps the invariant

  lemma {:induction false} AddSlot(st: State, a: nat, b: Body, v: Value)
    requires Owned(st) && Holds(st, a) && MayShare(st, v)
    requires RefsOf(Slots(b)) == RefsOf(Slots(st.objs[a].body)) + RefsOf([v])
    ensures Owned(st.(objs := WithBody(Retain(st.objs, v), a, b)))
  {
    hide Slots, RefsOf, Counted;
    if v.Ref? { HandleLives(st.objs, v.at, st.handles); }
    RetainCounted(st.objs, v, st.handles);
    var objs1 := Retain(st.objs, v);
    assert a in st.handles + RefsOf([v]);
    HandleLives(objs1, a, st.handles + RefsOf([v]));
    BodyCounted(objs1, a, b, st.handles + RefsOf([v]), st.handles);
  }

  lemma {:induction false} ArrayAddOwned(st: State, op: Op)
    requires Owned(st) && Legal(st, op) && (op.AppendTo? || op.InsertInto?)
    ensures Owned(Apply(st, op))
  {
    hide RefsOf, Counted;
    var Arr(elem, items) := st.objs[op.a].body;
    var i := if op.AppendTo? then |items| else Index(op.index, |items|);
    if 0 <= i <= |items| {
      RefsOfSplice(items, i, op.v);
      assert op.AppendTo? ==> items[..i] + [op.v] + items[i..] == items + [op.v];
      AddSlot(st, op.a, Arr(ElemType(elem, items, op.v), items[..i] + [op.v] + items[i..]), op.v);
    }
  }

  lemma {:induction false} SetOwned(st: State, op: Op)
    requires Owned(st) && Legal(st, op) && (op.SetIn? || op.SetField?)
    ensures Owned(Apply(st, op))
  {
    hide RefsOf, Counted;
    if op.SetIn? {
      var Arr(elem, items) := st.objs[op.a].body;
      if 0 <= op.i < |items| {
        forall x: nat { RefsOfHole(items, op.i, op.v, x); }
        SwapCounted(st.objs, op.a, Arr(elem, items[op.i := Nil]), items[op.i], Arr(elem, items[op.i := op.v]), op.v,
                    st.handles);
      }
    } else {
      var Struct(names, values) := st.objs[op.s].body;
      var i := FieldIndex(names, op.name);
      if i < |names| && i < |values| {
        forall x: nat { RefsOfHole(values, i, op.v, x); }
        SwapCounted(st.objs, op.s, Struct(names, values[i := Nil]), values[i], Struct(names, values[i := op.v]),
                    op.v, st.handles);
      }
    }
  }

  lemma {:induction false} RemoveOwned(st: State, op: Op)
    requires Owned(st) && Legal(st, op) && op.RemoveFrom?
    ensures Owned(Apply(st, op))
  {
    hide RefsOf, Counted;
    var Arr(elem, items) := st.objs[op.a].body;
    var i := Index(op.index, |items|);
    if 0 <= i < |items| {
      var v := items[i];
      var extra := RefsOf([v]);
      HandleLives(st.objs, op.a, st.handles);
      ItemLives(st.objs, op.a, i, st.handles);
      RetainCounted(st.objs, v, st.handles);
      var objs0 := Retain(st.objs, v);
      var hole := Arr(elem, items[i := Nil]);
      forall x: nat { RefsOfHole(items, i, v, x); }
      assert op.a in st.handles + extra;
      HandleLives(objs0, op.a, st.handles + extra);
      BodyCounted(objs0, op.a, hole, st.handles + extra, st.handles + extra + extra);
      var objs1 := WithBody(objs0, op.a, hole);
      ReleaseValueCounted(objs1, v, st.handles + extra);
      var objs2 := ReleaseValue(objs1, v);
      HandleLives(objs2, op.a, st.handles + extra);
      RefsOfClosed(items, i);
      BodyCounted(objs2, op.a, Arr(elem, items[..i] + items[i + 1..]), st.handles + extra, st.handles + extra);
    } else {
      NoRefs();
      assert st.handles + HandleOn(Nil) == st.handles;
    }
  }

  lemma NoRefs()
    ensures RefsOf([Nil]) == multiset{}
  {
    assert [Nil][1..] == [];
  }

  lemma {:induction false} RefsOfClosed(vs: seq<Value>, i: nat)
    requires i < |vs|
    ensures RefsOf(vs[i := Nil]) == RefsOf(vs[..i] + vs[i + 1..])
  {
    assert vs[i := Nil] == vs[..i] + ([Nil] + vs[i + 1..]);
    RefsOfConcat(vs[..i], [Nil] + vs[i + 1..]);
    RefsOfConcat([Nil], vs[i + 1..]);
    RefsOfConcat(vs[..i], vs[i + 1..]);
    NoRefs();
  }

  lemma {:induction false} ItemLives(objs: Objs, a: nat, i: nat, handles: multiset<nat>)
    requires Counted(objs, handles) && a < |objs| && objs[a].rc > 0 && objs[a].body.Arr? && i < |objs[a].body.items|
    ensures var v := objs[a].body.items[i]; v.Ref? ==> v.at < |objs| && objs[v.at].rc > 0
  {
    var items := objs[a].body.items;
    if items[i].Ref? {
      RefsOfUpdate(items, i, Nil, items[i].at);
      assert RefsOf([items[i]]) == multiset{items[i].at} by { assert [items[i]][1..] == []; }
      NoRefs();
      OwnersUpdate(objs, a, objs[a], items[i].at);
    }
  }

  lemma {:induction false} KeyAllocated(st: State, text: string)
    requires Owned(st)
    ensures Owned(State(Alloc(st.objs, Str(text)), st.handles + multiset{|st.objs|}))
  {
    StrHoldsNothing(text);
    hide RefsOf, Counted, Slots;
    AllocCounted(st.objs, Str(text), st.handles, st.handles + multiset{|st.objs|});
  }

  lemma StrHoldsNothing(text: string)
    ensures RefsOf(Slots(Str(text))) == multiset{}
  {
  }

  lemma {:induction false} DropOwned(st: State, r: nat)
    requires Owned(st) && r in st.handles
    ensures Owned(State(Release(st.objs, r), st.handles - multiset{r}))
  {
    hide Counted;
    ReleaseCounted(st.objs, r, st.handles);
    ReleaseShrinks(st.objs, r);
  }

  lemma {:induction false} ReplaceEntryOwned(st: State, d: nat, kt: Type, vt: Type, i: nat, v: Value)
    requires Owned(st) && Holds(st, d) && MayShare(st, v) && st.objs[d].body.Dict? && i < |st.objs[d].body.entries|
    ensures var es := st.objs[d].body.entries;
            var hole := Dict(kt, vt, es[i := Entry(es[i].key, Nil)]);
            var full := Dict(kt, vt, es[i := Entry(es[i].key, v)]);
            Owned(st.(objs := Swap(st.objs, d, hole, es[i].value, full, v)))
  {
    hide RefsOf, Counted, Flatten;
    var es := st.objs[d].body.entries;
    forall x: nat { RefsOfEntryHole(es, i, v, x); }
    SwapCounted(st.objs, d, Dict(kt, vt, es[i := Entry(es[i].key, Nil)]), es[i].value,
                Dict(kt, vt, es[i := Entry(es[i].key, v)]), v, st.handles);
  }

  lemma {:induction false} NewEntryOwned(st: State, d: nat, kt: Type, vt: Type, k: nat, v: Value)
    requires Owned(st) && Holds(st, d) && MayShare(st, v) && st.objs[d].body.Dict?
    requires d in st.handles - multiset{k} && k in st.handles
    ensures var es := st.objs[d].body.entries;
            Owned(State(WithBody(Retain(st.objs, v), d, Dict(kt, vt, es + [Entry(Ref(KStr, k), v)])),
                        st.handles - multiset{k}))
  {
    hide RefsOf, Counted, Flatten;
    var es := st.objs[d].body.entries;
    if v.Ref? { HandleLives(st.objs, v.at, st.handles); }
    RetainCounted(st.objs, v, st.handles);
    var objs := Retain(st.objs, v);
    HandleLives(st.objs, d, st.handles);
    forall x: nat { RefsOfNewEntry(es, k, v, x); }
    BodyCounted(objs, d, Dict(kt, vt, es + [Entry(Ref(KStr, k), v)]), st.handles + RefsOf([v]),
                st.handles - multiset{k});
  }

  lemma {:induction false} RefsOfNewEntry(es: seq<Entry>, k: nat, v: Value, x: nat)
    ensures RefsOf(Flatten(es + [Entry(Ref(KStr, k), v)]))[x] == RefsOf(Flatten(es))[x] + multiset{k}[x]
            + RefsOf([v])[x]
  {
    var e := Entry(Ref(KStr, k), v);
    FlattenConcat(es, [e]);
    RefsOfConcat(Flatten(es), Flatten([e]));
    EntryRefs(e);
    assert [e.key][1..] == [];
  }

  lemma {:induction false} SetKeyOwned(st: State, op: Op)
    requires Owned(st) && Legal(st, op) && op.SetKey?
    ensures Owned(Apply(st, op))
  {
    hide RefsOf, Owned, Flatten, Release, Swap, Slots;
    var SetKey(d, text, v) := op;
    var k := |st.objs|;
    var st1 := State(Alloc(st.objs, Str(text)), st.handles + multiset{k});
    KeyAllocated(st, text);
    assert st1.handles - multiset{k} == st.handles;
    var Dict(kt, vt, es) := st.objs[d].body;
    if (kt != TNil && kt != TRef(KStr)) || (vt != TNil && vt != TypeOf(v)) {
      DropOwned(st1, k);
    } else {
      var kt' := if kt == TNil && es == [] then TRef(KStr) else kt;
      var vt' := if vt == TNil && es == [] then TypeOf(v) else vt;
      var i := EntryIndex(st1.objs, es, text);
      if i < |es| {
        ReplaceEntryOwned(st1, d, kt', vt', i, v);
        var hole := Dict(kt', vt', es[i := Entry(es[i].key, Nil)]);
        var full := Dict(kt', vt', es[i := Entry(es[i].key, v)]);
        DropOwned(st1.(objs := Swap(st1.objs, d, hole, es[i].value, full, v)), k);
      } else {
        NewEntryOwned(st1, d, kt', vt', k, v);
      }
    }
  }

  lemma {:induction false} ShareOwned(st: State, v: Value)
    requires Owned(st) && MayShare(st, v)
    ensures Owned(State(Retain(st.objs, v), st.handles + HandleOn(v)))
  {
    hide Counted, RefsOf;
    if v.Ref? { HandleLives(st.objs, v.at, st.handles); }
    RetainCounted(st.objs, v, st.handles);
  }

  lemma {:induction false} NewSomeOwned(st: State, v: Value)
    requires Owned(st) && MayShare(st, v)
    ensures Owned(State(Alloc(Retain(st.objs, v), Opt(Some(v))), st.handles + multiset{|st.objs|}))
  {
    hide Counted, RefsOf;
    ShareOwned(st, v);
    AllocCounted(Retain(st.objs, v), Opt(Some(v)), st.handles + HandleOn(v), st.handles + multiset{|st.objs|});
  }

  lemma {:induction false} SomeOwned(st: State, op: Op)
    requires Owned(st) && Legal(st, op) && (op.NewSome? || op.New? || op.Share? || op.Drop?)
    ensures Owned(Apply(st, op))
  {
    hide Counted, RefsOf, Slots, Release, Retain, HandleOn;
    match op
    case New(b) => AllocCounted(st.objs, b, st.handles, st.handles + multiset{|st.objs|});
    case NewSome(v) => NewSomeOwned(st, v);
    case Share(v) => ShareOwned(st, v);
    case Drop(r) => DropOwned(st, r);
  }

  lemma {:induction false} ApplyOwned(st: State, op: Op)
    requires Owned(st) && Legal(st, op)
    ensures Owned(Apply(st, op))
  {
    hide Owned, Legal, Apply;
    match op
    case AppendTo(_, _) => ArrayAddOwned(st, op);
    case InsertInto(_, _, _) => ArrayAddOwned(st, op);
    case SetIn(_, _, _) => SetOwned(st, op);
    case SetField(_, _, _) => SetOwned(st, op);
    case RemoveFrom(_, _) => RemoveOwned(st, op);
    case SetKey(_, _, _) => SetKeyOwned(st, op);
    case _ => SomeOwned(st, op);
  }

  // ---------------------------------------------------------------- what an operation writes

  function Target(op: Op): Option<nat> {
    match op
    case AppendTo(a, _) => Some(a)
    case InsertInto(a, _, _) => Some(a)
    case SetIn(a, _, _) => Some(a)
    case RemoveFrom(a, _) => Some(a)
    case SetKey(d, _, _) => Some(d)
    case SetField(s, _, _) => Some(s)
    case _ => None
  }

  predicate ArrayTakes(b: Body, v: Value)
    requires b.Arr?
  {
    b.elem == TNil || b.elem == TypeOf(v)
  }

  /** The contents of the container afterwards, seen as a list of items, of entries or of fields. */
  function Written(st: State, op: Op): Body
    requires Legal(st, op) && Target(op).Some?
  {
    var b := st.objs[Target(op).value].body;
    match op
    case AppendTo(_, v) => if ArrayTakes(b, v) then Arr(ElemType(b.elem, b.items, v), b.items + [v]) else b
    case InsertInto(_, v, index) =>
      var i := Index(index, |b.items|);
      if ArrayTakes(b, v) && 0 <= i <= |b.items|
      then Arr(ElemType(b.elem, b.items, v), b.items[..i] + [v] + b.items[i..]) else b
    case SetIn(_, i, v) => if ArrayTakes(b, v) && 0 <= i < |b.items| then Arr(b.elem, b.items[i := v]) else b
    case RemoveFrom(_, index) =>
      var i := Index(index, |b.items|);
      if 0 <= i < |b.items| then Arr(b.elem, b.items[..i] + b.items[i + 1..]) else b
    case SetKey(_, text, v) =>
      if (b.keyType != TNil && b.keyType != TRef(KStr)) || (b.valueType != TNil && b.valueType != TypeOf(v)) then b
      else
        var kt := if b.keyType == TNil && b.entries == [] then TRef(KStr) else b.keyType;
        var vt := if b.valueType == TNil && b.entries == [] then TypeOf(v) else b.valueType;
        var i := EntryIndex(Alloc(st.objs, Str(text)), b.entries, text);
        Dict(kt, vt, if i < |b.entries| then b.entries[i := Entry(b.entries[i].key, v)]
                     else b.entries + [Entry(Ref(KStr, |st.objs|), v)])
    case SetField(_, name, v) =>
      var i := FieldIndex(b.names, name);
      if i < |b.names| && i < |b.values| then Struct(b.names, b.values[i := v]) else b
  }

  lemma {:induction false} SwapWrites(objs: Objs, a: nat, hole: Body, was: Value, full: Body, v: Value)
    requires a < |objs|
    ensures var res := Swap(objs, a, hole, was, full, v);
            |res| == |objs| && res[a].body == full
            && forall x :: 0 <= x < |objs| && x != a ==> res[x].body == objs[x].body
  {
    if was.Ref? { ReleaseShrinks(WithBody(objs, a, hole), was.at); }
  }

  /** The store `res` differs from the one before only in the slots of the operation's container. */
  predicate Writes(st: State, op: Op, res: Objs)
    requires Legal(st, op)
  {
    && |st.objs| <= |res|
    && forall x :: 0 <= x < |st.objs| ==> res[x].body == if Some(x) == Target(op) then Written(st, op)
       else st.objs[x].body
  }

  /** However far the releases cascade, an operation rewrites the slots of its own container alone. */
  lemma {:induction false} OnlyTheContainerChanges(st: State, op: Op)
    requires Legal(st, op)
    ensures Writes(st, op, Apply(st, op).objs)
  {
    hide Legal, Apply, Writes;
    match op
    case SetIn(_, _, _) => SetInWrites(st, op);
    case SetField(_, _, _) => SetFieldWrites(st, op);
    case RemoveFrom(_, _) => RemoveWrites(st, op);
    case SetKey(_, _, _) => SetKeyWrites(st, op);
    case AppendTo(_, _) => AddWrites(st, op);
    case InsertInto(_, _, _) => AddWrites(st, op);
    case _ => WritesNothing(st, op);
  }

  lemma AddWrites(st: State, op: Op)
    requires Legal(st, op) && (op.AppendTo? || op.InsertInto?)
    ensures Writes(st, op, Apply(st, op).objs)
  {
  }

  lemma {:induction false} WritesNothing(st: State, op: Op)
    requires Legal(st, op) && Target(op).None?
    ensures Writes(st, op, Apply(st, op).objs)
  {
    hide Release, Slots, RefsOf;
    if op.Drop? { ReleaseShrinks(st.objs, op.r); }
  }

  lemma {:induction false} SetInWrites(st: State, op: Op)
    requires Legal(st, op) && op.SetIn?
    ensures Writes(st, op, Apply(st, op).objs)
  {
    hide Release, Swap;
    var SetIn(a, i, v) := op;
    var Arr(elem, items) := st.objs[a].body;
    if 0 <= i < |items| { SwapWrites(st.objs, a, Arr(elem, items[i := Nil]), items[i], Arr(elem, items[i := v]), v); }
  }

  lemma {:induction false} SetFieldWrites(st: State, op: Op)
    requires Legal(st, op) && op.SetField?
    ensures Writes(st, op, Apply(st, op).objs)
  {
    hide Release, Swap;
    var SetField(s, name, v) := op;
    var Struct(names, values) := st.objs[s].body;
    var i := FieldIndex(names, name);
    if i < |names| && i < |values| {
      SwapWrites(st.objs, s, Struct(names, values[i := Nil]), values[i], Struct(names, values[i := v]), v);
    }
  }

  lemma {:induction false} RemoveWrites(st: State, op: Op)
    requires Legal(st, op) && op.RemoveFrom?
    ensures Writes(st, op, Apply(st, op).objs)
  {
    hide Release;
    var RemoveFrom(a, index) := op;
    var Arr(elem, items) := st.objs[a].body;
    var i := Index(index, |items|);
    if 0 <= i < |items| && items[i].Ref? {
      ReleaseShrinks(WithBody(Retain(st.objs, items[i]), a, Arr(elem, items[i := Nil])), items[i].at);
    }
  }

  lemma {:induction false} SetKeyWrites(st: State, op: Op)
    requires Legal(st, op) && op.SetKey?
    ensures Writes(st, op, Apply(st, op).objs)
  {
    hide Release, Swap, EntryIndex;
    var SetKey(d, text, v) := op;
    var k := |st.objs|;
    var objs1 := Alloc(st.objs, Str(text));
    var Dict(kt, vt, es) := st.objs[d].body;
    var kt' := if kt == TNil && es == [] then TRef(KStr) else kt;
    var vt' := if vt == TNil && es == [] then TypeOf(v) else vt;
    var i := EntryIndex(objs1, es, text);
    ReleaseShrinks(objs1, k);
    if i < |es| {
      var hole := Dict(kt', vt', es[i := Entry(es[i].key, Nil)]);
      var full := Dict(kt', vt', es[i := Entry(es[i].key, v)]);
      SwapWrites(objs1, d, hole, es[i].value, full, v);
      ReleaseShrinks(Swap(objs1, d, hole, es[i].value, full, v), k);
    }
  }

  // ---------------------------------------------------------------- main result

  predicate LegalRun(st: State, ops: seq<Op>)
    decreases |ops|
  {
    ops != [] ==> Legal(st, ops[0]) && LegalRun(Apply(st, ops[0]), ops[1..])
  }

  function RunOps(st: State, ops: seq<Op>): State
    requires LegalRun(st, ops)
    decreases |ops|
  {
    if ops == [] then st else RunOps(Apply(st, ops[0]), ops[1..])
  }

  lemma {:induction false} RunKeepsOwned(st: State, ops: seq<Op>)
    requires Owned(st) && LegalRun(st, ops)
    ensures Owned(RunOps(st, ops))
    decreases |ops|
  {
    hide Owned, Legal, Apply;
    if ops != [] {
      ApplyOwned(st, ops[0]);
      RunKeepsOwned(Apply(st, ops[0]), ops[1..]);
    }
  }

  /** From the empty store, every run of owned operations keeps each count equal to the slots and
      handles that hold the object, and leaves no object waiting at zero. */
  lemma {:induction false} EveryRunIsOwned(ops: seq<Op>)
    requires LegalRun(State([], multiset{}), ops)
    ensures Owned(RunOps(State([], multiset{}), ops))
  {
    assert Owned(State([], multiset{}));
    hide Owned, LegalRun, RunOps;
    RunKeepsOwned(State([], multiset{}), ops);
  }
}
