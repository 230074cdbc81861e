/** The objects of the runtime: reference counts, the slots through which objects hold each other,
    and the release that cascades through them. An address is an index; an object that has been freed
    keeps its index and is no longer `live`. */
module Store {
  import opened Syntax

  const MAX_REFCOUNT: nat := 0xFFFF_FFFF

  datatype Kind = KStr | KArr | KDict | KOpt | KStruct

  datatype Type = TNil | TInt | TBool | TDouble | TRef(kind: Kind)

  datatype Value = Nil | Int(n: int) | Bool(b: bool) | Double(bits: int) | Ref(kind: Kind, at: nat)

  datatype Entry = Entry(key: Value, value: Value)

  datatype Body =
    | Str(text: string)
    | Arr(elem: Type, items: seq<Value>)
    | Dict(keyType: Type, valueType: Type, entries: seq<Entry>)
    | Opt(content: Option<Value>)
    | Struct(names: seq<string>, values: seq<Value>)

  datatype Obj = Obj(live: bool, rc: nat, body: Body)

  type Objs = seq<Obj>

  function TypeOf(v: Value): Type {
    match v
    case Nil => TNil
    case Int(_) => TInt
    case Bool(_) => TBool
    case Double(_) => TDouble
    case Ref(k, _) => TRef(k)
  }

  function Flatten(es: seq<Entry>): seq<Value> {
    if es == [] then [] else [es[0].key, es[0].value] + Flatten(es[1..])
  }

  /** The value slots of an object in the order in which its release visits them. */
  function Slots(b: Body): seq<Value> {
    match b
    case Str(_) => []
    case Arr(_, items) => items
    case Dict(_, _, es) => Flatten(es)
    case Opt(None) => []
    case Opt(Some(v)) => [v]
    case Struct(_, vs) => vs
  }

  // ---------------------------------------------------------------- retain and release

  function Retain(objs: Objs, v: Value): Objs {
    if v.Ref? && v.at < |objs| && objs[v.at].rc < MAX_REFCOUNT
    then objs[v.at := objs[v.at].(rc := objs[v.at].rc + 1)]
    else objs
  }

  function SumRc(objs: Objs): nat {
    if objs == [] then 0 else SumRc(objs[..|objs| - 1]) + objs[|objs| - 1].rc
  }

  lemma {:induction false} SumRcUpdate(objs: Objs, i: nat, o: Obj)
    requires i < |objs|
    ensures SumRc(objs[i := o]) == SumRc(objs) - objs[i].rc + o.rc
    decreases |objs|
  {
    var n := |objs| - 1;
    if i == n {
      assert objs[i := o][..n] == objs[..n];
    } else {
      assert objs[i := o][..n] == objs[..n][i := o];
      SumRcUpdate(objs[..n], i, o);
    }
  }

  /** A zero count is left alone; a count that falls to zero releases the slots and frees the object. */
  function Release(objs: Objs, r: nat): (res: Objs)
    ensures |res| == |objs| && SumRc(res) <= SumRc(objs)
    decreases SumRc(objs), 0
  {
    if r >= |objs| || objs[r].rc == 0 then objs
    else
      var objs1 := objs[r := objs[r].(rc := objs[r].rc - 1)];
      SumRcUpdate(objs, r, objs1[r]);
      if objs1[r].rc > 0 then objs1
      else
        var objs2 := ReleaseAll(objs1, Slots(objs[r].body));
        SumRcUpdate(objs2, r, objs2[r].(live := false));
        objs2[r := objs2[r].(live := false)]
  }

  function ReleaseAll(objs: Objs, vs: seq<Value>): (res: Objs)
    ensures |res| == |objs| && SumRc(res) <= SumRc(objs)
    decreases SumRc(objs), |vs| + 1
  {
    if vs == [] then objs
    else ReleaseAll(if vs[0].Ref? then Release(objs, vs[0].at) else objs, vs[1..])
  }

  /** Some release in the cascade meets an object whose count is already zero. */
  predicate MeetsZero(objs: Objs, r: nat)
    decreases SumRc(objs), 0
  {
    if r >= |objs| || objs[r].rc == 0 then true
    else
      var objs1 := objs[r := objs[r].(rc := objs[r].rc - 1)];
      SumRcUpdate(objs, r, objs1[r]);
      objs1[r].rc == 0 && MeetsZeroIn(objs1, Slots(objs[r].body))
  }

  predicate MeetsZeroIn(objs: Objs, vs: seq<Value>)
    decreases SumRc(objs), |vs| + 1
  {
    vs != [] &&
    if vs[0].Ref? then MeetsZero(objs, vs[0].at) || MeetsZeroIn(Release(objs, vs[0].at), vs[1..])
    else MeetsZeroIn(objs, vs[1..])
  }

  // ---------------------------------------------------------------- counting owners

  function RefsOf(vs: seq<Value>): multiset<nat> {
    if vs == [] then multiset{}
    else (if vs[0].Ref? then multiset{vs[0].at} else multiset{}) + RefsOf(vs[1..])
  }

  /** What an object holds while it is alive; an object whose count has reached zero holds nothing. */
  function Held(o: Obj): multiset<nat> {
    if o.rc > 0 then RefsOf(Slots(o.body)) else multiset{}
  }

  /** How many slots of counted objects hold `x`. */
  function Owners(objs: Objs, x: nat): nat {
    if objs == [] then 0 else Owners(objs[..|objs| - 1], x) + Held(objs[|objs| - 1])[x]
  }

  /** Each count is the number of slots of counted objects plus the number of handles that hold the
      object; freed objects count zero; nothing points outside the store. */
  ghost predicate Counted(objs: Objs, handles: multiset<nat>) {
    && (forall x :: 0 <= x < |objs| ==> objs[x].rc == Owners(objs, x) + handles[x])
    && (forall x :: 0 <= x < |objs| && !objs[x].live ==> objs[x].rc == 0)
    && (forall x: nat :: x >= |objs| ==> Owners(objs, x) == 0 && x !in handles)
  }

  /** No object waits to be freed. */
  predicate AllOwned(objs: Objs) {
    forall x :: 0 <= x < |objs| && objs[x].live ==> objs[x].rc > 0
  }

  lemma {:induction false} RefsOfConcat(a: seq<Value>, b: seq<Value>)
    ensures RefsOf(a + b) == RefsOf(a) + RefsOf(b)
    decreases |a|
  {
    if a == [] {
      assert a + b == b;
    } else {
      assert (a + b)[1..] == a[1..] + b;
      RefsOfConcat(a[1..], b);
    }
  }

  lemma {:induction false} OwnersUpdate(objs: Objs, i: nat, o: Obj, x: nat)
    requires i < |objs|
    ensures Owners(objs[i := o], x) == Owners(objs, x) - Held(objs[i])[x] + Held(o)[x]
    ensures Held(objs[i])[x] <= Owners(objs, x)
    decreases |objs|
  {
    hide Held;
    var n := |objs| - 1;
    if i == n {
      assert objs[i := o][..n] == objs[..n];
    } else {
      assert objs[i := o][..n] == objs[..n][i := o];
      OwnersUpdate(objs[..n], i, o, x);
    }
  }

  lemma {:induction false} HasOwner(objs: Objs, x: nat) returns (c: nat)
    requires Owners(objs, x) > 0
    ensures c < |objs| && objs[c].rc > 0 && x in RefsOf(Slots(objs[c].body))
    decreases |objs|
  {
    var n := |objs| - 1;
    if x in Held(objs[n]) {
      c := n;
    } else {
      c := HasOwner(objs[..n], x);
    }
  }

  // ---------------------------------------------------------------- a release only takes away

  /** Counts fall or stay, bodies stay, freed objects stay freed, and no object is left waiting at
      zero that was not waiting before. */
  predicate Shrinks(objs: Objs, res: Objs) {
    && |res| == |objs|
    && forall x :: 0 <= x < |objs| ==>
         && res[x].rc <= objs[x].rc && res[x].body == objs[x].body && (res[x].live ==> objs[x].live)
         && (res[x].live && res[x].rc == 0 ==> objs[x].rc == 0)
  }

  lemma {:induction false} ReleaseShrinks(objs: Objs, r: nat)
    ensures Shrinks(objs, Release(objs, r))
    decreases SumRc(objs), 0
  {
    if r < |objs| && objs[r].rc > 0 {
      var objs1 := objs[r := objs[r].(rc := objs[r].rc - 1)];
      SumRcUpdate(objs, r, objs1[r]);
      if objs1[r].rc == 0 { ReleaseAllShrinks(objs1, Slots(objs[r].body)); }
    }
  }

  lemma {:induction false} ReleaseAllShrinks(objs: Objs, vs: seq<Value>)
    ensures Shrinks(objs, ReleaseAll(objs, vs))
    decreases SumRc(objs), |vs| + 1
  {
    if vs != [] {
      if vs[0].Ref? { ReleaseShrinks(objs, vs[0].at); }
      ReleaseAllShrinks(if vs[0].Ref? then Release(objs, vs[0].at) else objs, vs[1..]);
    }
  }

  // ---------------------------------------------------------------- a release keeps the counts right

  lemma HandleIsCounted(objs: Objs, r: nat, handles: multiset<nat>)
    requires Counted(objs, handles) && r in handles
    ensures r < |objs| && objs[r].rc > 0 && objs[r].live
  {
  }

  /** Giving up the last handle turns what the object held into references still to be released. */
  lemma {:induction false} DyingCounted(objs: Objs, r: nat, handles: multiset<nat>)
    requires Counted(objs, handles) && r in handles && r < |objs| && objs[r].rc == 1
    ensures Counted(objs[r := objs[r].(rc := 0)], handles - multiset{r} + RefsOf(Slots(objs[r].body)))
  {
    hide RefsOf, Slots, Owners;
    var objs1 := objs[r := objs[r].(rc := 0)];
    forall x: nat ensures Owners(objs1, x) + RefsOf(Slots(objs[r].body))[x] == Owners(objs, x) {
      OwnersUpdate(objs, r, objs1[r], x);
    }
  }

  lemma {:induction false} DecrementCounted(objs: Objs, r: nat, handles: multiset<nat>)
    requires Counted(objs, handles) && r in handles && r < |objs| && objs[r].rc > 1
    ensures Counted(objs[r := objs[r].(rc := objs[r].rc - 1)], handles - multiset{r})
  {
    hide RefsOf, Slots, Owners;
    var objs1 := objs[r := objs[r].(rc := objs[r].rc - 1)];
    forall x: nat ensures Owners(objs1, x) == Owners(objs, x) { OwnersUpdate(objs, r, objs1[r], x); }
  }

  lemma {:induction false} FreedCounted(objs: Objs, r: nat, handles: multiset<nat>)
    requires Counted(objs, handles) && r < |objs| && objs[r].rc == 0
    ensures Counted(objs[r := objs[r].(live := false)], handles)
  {
    hide RefsOf, Slots, Owners;
    var objs1 := objs[r := objs[r].(live := false)];
    forall x: nat ensures Owners(objs1, x) == Owners(objs, x) { OwnersUpdate(objs, r, objs1[r], x); }
  }

  /** Releasing an object that the caller has a handle on consumes that handle, keeps every count
      right, and nowhere in the cascade meets a zero count. */
  lemma {:induction false} ReleaseCounted(objs: Objs, r: nat, handles: multiset<nat>)
    requires Counted(objs, handles) && r in handles
    ensures Counted(Release(objs, r), handles - multiset{r})
    ensures !MeetsZero(objs, r)
    decreases SumRc(objs), 0
  {
    hide Counted, RefsOf, Slots;
    HandleIsCounted(objs, r, handles);
    var objs1 := objs[r := objs[r].(rc := objs[r].rc - 1)];
    SumRcUpdate(objs, r, objs1[r]);
    if objs1[r].rc > 0 {
      DecrementCounted(objs, r, handles);
    } else {
      var slots := Slots(objs[r].body);
      DyingCounted(objs, r, handles);
      var owed := handles - multiset{r} + RefsOf(slots);
      ReleaseAllCounted(objs1, slots, owed);
      ReleaseAllShrinks(objs1, slots);
      assert owed - RefsOf(slots) == handles - multiset{r};
      FreedCounted(ReleaseAll(objs1, slots), r, handles - multiset{r});
    }
  }

  lemma {:induction false} ReleaseAllCounted(objs: Objs, vs: seq<Value>, handles: multiset<nat>)
    requires Counted(objs, handles) && RefsOf(vs) <= handles
    ensures Counted(ReleaseAll(objs, vs), handles - RefsOf(vs))
    ensures !MeetsZeroIn(objs, vs)
    decreases SumRc(objs), |vs| + 1
  {
    hide Counted;
    if vs == [] {
      assert handles - RefsOf(vs) == handles;
    } else if vs[0].Ref? {
      var r := vs[0].at;
      assert r in RefsOf(vs);
      ReleaseCounted(objs, r, handles);
      assert RefsOf(vs[1..]) <= handles - multiset{r};
      ReleaseAllCounted(Release(objs, r), vs[1..], handles - multiset{r});
      assert handles - multiset{r} - RefsOf(vs[1..]) == handles - RefsOf(vs);
    } else {
      assert RefsOf(vs) == RefsOf(vs[1..]);
      ReleaseAllCounted(objs, vs[1..], handles);
    }
  }

  // ---------------------------------------------------------------- exactly the ownerless are freed

  /** A set of objects that keeps itself alive: each member has a handle or is held by a member. */
  ghost predicate Supported(objs: Objs, handles: multiset<nat>, s: set<nat>) {
    forall x :: x in s ==>
      && x < |objs| && objs[x].live && objs[x].rc > 0
      && (x in handles || exists c :: c in s && c < |objs| && x in RefsOf(Slots(objs[c].body)))
  }

  lemma {:induction false} SupportedTwice(objs: Objs, r: nat, handles: multiset<nat>, s: set<nat>)
    requires Counted(objs, handles) && r in handles && Supported(objs, handles - multiset{r}, s) && r in s
    ensures objs[r].rc > 1
  {
    if r !in handles - multiset{r} {
      var c :| c in s && c < |objs| && r in RefsOf(Slots(objs[c].body));
      OwnersUpdate(objs, c, objs[c], r);
    }
  }

  lemma SupportedKept(objs: Objs, res: Objs, handles: multiset<nat>, s: set<nat>)
    requires Supported(objs, handles, s) && |res| == |objs|
    requires forall x :: x in s ==> x < |objs| && res[x].live && res[x].rc > 0 && res[x].body == objs[x].body
    ensures Supported(res, handles, s)
  {
    forall x | x in s
      ensures x in handles || exists c :: c in s && c < |res| && x in RefsOf(Slots(res[c].body))
    {
      if x !in handles {
        var c :| c in s && c < |objs| && x in RefsOf(Slots(objs[c].body));
        assert x in RefsOf(Slots(res[c].body));
      }
    }
  }

  lemma {:induction false} ReleaseSpares(objs: Objs, r: nat, handles: multiset<nat>, s: set<nat>)
    requires Counted(objs, handles) && r in handles && Supported(objs, handles - multiset{r}, s)
    ensures Supported(Release(objs, r), handles - multiset{r}, s)
    decreases SumRc(objs), 0
  {
    hide Counted, Supported;
    HandleIsCounted(objs, r, handles);
    var objs1 := objs[r := objs[r].(rc := objs[r].rc - 1)];
    SumRcUpdate(objs, r, objs1[r]);
    if r in s { SupportedTwice(objs, r, handles, s); }
    SupportedMembers(objs, handles - multiset{r}, s);
    SupportedKept(objs, objs1, handles - multiset{r}, s);
    if objs1[r].rc == 0 {
      var slots := Slots(objs[r].body);
      DyingCounted(objs, r, handles);
      var owed := handles - multiset{r} + RefsOf(slots);
      assert owed - RefsOf(slots) == handles - multiset{r};
      ReleaseAllSpares(objs1, slots, owed, s);
      var objs2 := ReleaseAll(objs1, slots);
      SupportedMembers(objs2, handles - multiset{r}, s);
      SupportedKept(objs2, Release(objs, r), handles - multiset{r}, s);
    }
  }

  lemma SupportedMembers(objs: Objs, handles: multiset<nat>, s: set<nat>)
    requires Supported(objs, handles, s)
    ensures forall x :: x in s ==> x < |objs| && objs[x].live && objs[x].rc > 0
  {
  }

  lemma {:induction false} ReleaseAllSpares(objs: Objs, vs: seq<Value>, handles: multiset<nat>, s: set<nat>)
    requires Counted(objs, handles) && RefsOf(vs) <= handles && Supported(objs, handles - RefsOf(vs), s)
    ensures Supported(ReleaseAll(objs, vs), handles - RefsOf(vs), s)
    decreases SumRc(objs), |vs| + 1
  {
    hide Counted, Supported;
    if vs == [] {
    } else if vs[0].Ref? {
      var r := vs[0].at;
      assert r in RefsOf(vs);
      var rest := RefsOf(vs[1..]);
      assert handles - multiset{r} - rest == handles - RefsOf(vs);
      assert rest <= handles - multiset{r};
      MoreHandles(objs, handles - RefsOf(vs), handles - multiset{r}, s);
      ReleaseCounted(objs, r, handles);
      ReleaseSpares(objs, r, handles, s);
      ReleaseShrinks(objs, r);
      SupportedMembers(Release(objs, r), handles - multiset{r}, s);
      SupportedKept(objs, Release(objs, r), handles - RefsOf(vs), s);
      ReleaseAllSpares(Release(objs, r), vs[1..], handles - multiset{r}, s);
    } else {
      assert RefsOf(vs) == RefsOf(vs[1..]);
      ReleaseAllSpares(objs, vs[1..], handles, s);
    }
  }

  lemma MoreHandles(objs: Objs, few: multiset<nat>, many: multiset<nat>, s: set<nat>)
    requires Supported(objs, few, s) && few <= many
    ensures Supported(objs, many, s)
  {
    forall x | x in s && x in few ensures x in many { assert few[x] <= many[x]; }
  }

  /** An object survives the release of a handle exactly when it belongs to a set of objects that the
      remaining handles and the members of the set keep alive. */
  lemma {:induction false} ReleaseFreesExactlyTheOwnerless(objs: Objs, r: nat, handles: multiset<nat>, x: nat)
    requires Counted(objs, handles) && AllOwned(objs) && r in handles
    requires x < |objs| && objs[x].live
    ensures AllOwned(Release(objs, r))
    ensures Release(objs, r)[x].live <==> exists s :: x in s && Supported(objs, handles - multiset{r}, s)
  {
    hide Counted, Supported;
    var res := Release(objs, r);
    ReleaseShrinks(objs, r);
    if exists s :: x in s && Supported(objs, handles - multiset{r}, s) {
      var s :| x in s && Supported(objs, handles - multiset{r}, s);
      ReleaseSpares(objs, r, handles, s);
      SupportedMembers(res, handles - multiset{r}, s);
    }
    if res[x].live {
      var s := set y | 0 <= y < |res| && res[y].live;
      ReleaseCounted(objs, r, handles);
      SurvivorsSupported(res, handles - multiset{r}, s);
      SupportedBefore(objs, res, handles - multiset{r}, s);
    }
  }

  lemma {:induction false} SurvivorsSupported(objs: Objs, handles: multiset<nat>, s: set<nat>)
    requires Counted(objs, handles) && AllOwned(objs)
    requires s == set y | 0 <= y < |objs| && objs[y].live
    ensures Supported(objs, handles, s)
  {
    forall x | x in s
      ensures x in handles || exists c :: c in s && c < |objs| && x in RefsOf(Slots(objs[c].body))
    {
      if x !in handles {
        var c := HasOwner(objs, x);
        assert c in s;
      }
    }
  }

  lemma SupportedBefore(objs: Objs, res: Objs, handles: multiset<nat>, s: set<nat>)
    requires Shrinks(objs, res) && Supported(res, handles, s)
    ensures Supported(objs, handles, s)
  {
    forall x | x in s
      ensures x in handles || exists c :: c in s && c < |objs| && x in RefsOf(Slots(objs[c].body))
    {
      if x !in handles {
        var c :| c in s && c < |res| && x in RefsOf(Slots(res[c].body));
        assert x in RefsOf(Slots(objs[c].body));
      }
    }
  }
}
