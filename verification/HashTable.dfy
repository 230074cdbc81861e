/** The open-addressing dictionary as functions on its table: the probe that stops at the first free slot,
    the first tombstone or the key itself, the growth by rehashing, and the operations built on them. */
module HashTable {
  import opened Syntax
  import Store

  // ---------------------------------------------------------------- keys and hashing

  /** A byte of a NUL-free string. */
  type Byte = n: int | 0 < n < 256 witness 1

  datatype Key = IntKey(n: int) | BoolKey(b: bool) | NilKey | TextKey(text: seq<Byte>)

  function KeyType(k: Key): Store.Type {
    match k
    case IntKey(_) => Store.TInt
    case BoolKey(_) => Store.TBool
    case NilKey => Store.TNil
    case TextKey(_) => Store.TRef(Store.KStr)
  }

  function Mix(x: bv32): bv32 { ((x >> 16) ^ x) * 0x45d9f3b }

  /** The byte as a C `char` widened to 32 bits: the upper half is sign-extended. */
  function Widen(b: Byte): bv32 { if b < 128 then b as bv32 else 0xFFFF_FF00 | (b as bv32) }

  function Fnv(hash: bv32, text: seq<Byte>): bv32
    decreases |text|
  {
    if text == [] then hash else Fnv((hash ^ Widen(text[0])) * 16777619, text[1..])
  }

  function Hash(k: Key): bv32 {
    match k
    case IntKey(n) => var x := Mix(Mix((n % 0x1_0000_0000) as bv32)); (x >> 16) ^ x
    case BoolKey(b) => if b then 1 else 0
    case NilKey => 0
    case TextKey(text) => Fnv(2166136261, text)
  }

  function Home(k: Key, n: nat): (h: nat)
    requires n > 0
    ensures h < n
  {
    (Hash(k) as nat) % n
  }

  // ---------------------------------------------------------------- the table

  datatype Slot = Free | Tomb | Live(key: Key, value: Store.Value)

  type Table = seq<Slot>

  /** The slot `d` steps after `h`, cyclically. */
  function At(h: nat, d: nat, n: nat): (i: nat)
    requires h < n && d < n
    ensures i < n
  {
    if h + d < n then h + d else h + d - n
  }

  /** How many steps after `h` slot `i` lies. */
  function Dist(h: nat, i: nat, n: nat): (d: nat)
    requires h < n && i < n
    ensures d < n && At(h, d, n) == i
  {
    if i >= h then i - h else i - h + n
  }

  predicate Stops(s: Slot, k: Key) { !s.Live? || s.key == k }

  function OnPath(t: Table, k: Key, d: nat): Slot
    requires d < |t|
  {
    t[At(Home(k, |t|), d, |t|)]
  }

  function Probe(t: Table, k: Key, d: nat): int
    requires d <= |t|
    decreases |t| - d
  {
    if d == |t| then -1
    else if Stops(OnPath(t, k, d), k) then At(Home(k, |t|), d, |t|)
    else Probe(t, k, d + 1)
  }

  /** Minus one when every slot is live with another key. */
  function FindSlot(t: Table, k: Key): int { Probe(t, k, 0) }

  function Lives(t: Table): nat {
    if t == [] then 0 else Lives(t[..|t| - 1]) + if t[|t| - 1].Live? then 1 else 0
  }

  datatype State = State(slots: Table, count: int, keyType: Store.Type, valueType: Store.Type)

  function Empty(n: nat): Table { seq(n, _ => Free) }

  /** Reinserts the live entries of `from` from index `i` on. */
  function Reinsert(from: Table, i: nat, t: Table, count: int): (Table, int)
    requires i <= |from|
    decreases |from| - i
  {
    if i == |from| then (t, count)
    else if !from[i].Live? then Reinsert(from, i + 1, t, count)
    else
      var slot := FindSlot(t, from[i].key);
      if 0 <= slot < |t| then Reinsert(from, i + 1, t[slot := from[i]], count + 1) else Reinsert(from, i + 1, t, count)
  }

  function Resize(st: State, n: nat): State {
    if n == 0 then st
    else
      var (t, count) := Reinsert(st.slots, 0, Empty(n), 0);
      st.(slots := t, count := count)
  }

  function Accepts(declared: Store.Type, given: Store.Type): bool { declared == Store.TNil || declared == given }

  function Grown(st: State): State {
    if |st.slots| == 0 then Resize(st, 8)
    else if 4 * (st.count + 1) > 3 * |st.slots| then Resize(st, 2 * |st.slots|)
    else st
  }

  function Typed(st: State, k: Key, v: Store.Value): State {
    st.(keyType := if st.keyType == Store.TNil && st.count == 0 then KeyType(k) else st.keyType,
        valueType := if st.valueType == Store.TNil && st.count == 0 then Store.TypeOf(v) else st.valueType)
  }

  function Put(st: State, k: Key, v: Store.Value): (State, bool) {
    var slot := FindSlot(st.slots, k);
    if !(0 <= slot < |st.slots|) then (st, false)
    else if st.slots[slot].Live? then (st.(slots := st.slots[slot := Live(st.slots[slot].key, v)]), true)
    else (st.(slots := st.slots[slot := Live(k, v)], count := st.count + 1), true)
  }

  function Set(st: State, k: Key, v: Store.Value): (State, bool) {
    if !Accepts(st.keyType, KeyType(k)) || !Accepts(st.valueType, Store.TypeOf(v)) then (st, false)
    else Put(Grown(Typed(st, k, v)), k, v)
  }

  /** The slot of a live entry with the key, if the probe ends at one. */
  function LiveSlot(st: State, k: Key): Option<nat> {
    var slot := FindSlot(st.slots, k);
    if Accepts(st.keyType, KeyType(k)) && 0 <= slot < |st.slots| && st.slots[slot].Live? then Some(slot) else None
  }

  function Get(st: State, k: Key): Option<Store.Value> {
    match LiveSlot(st, k)
    case Some(slot) => if slot < |st.slots| && st.slots[slot].Live? then Some(st.slots[slot].value) else None
    case None => None
  }

  function Remove(st: State, k: Key): State {
    match LiveSlot(st, k)
    case Some(slot) => if slot < |st.slots| then st.(slots := st.slots[slot := Tomb], count := st.count - 1) else st
    case None => st
  }

  function Clear(st: State): State { st.(slots := Empty(|st.slots|), count := 0) }

  // ---------------------------------------------------------------- the probe finds the first stop

  /** The first `d` slots on the key's path are live with other keys. */
  predicate Passes(t: Table, k: Key, d: nat)
    requires d <= |t|
  {
    forall e :: 0 <= e < d ==> !Stops(OnPath(t, k, e), k)
  }

  lemma {:induction false} ProbeEnds(t: Table, k: Key, d: nat)
    requires d <= |t| && Passes(t, k, d)
    ensures var r := Probe(t, k, d);
            && (r == -1 ==> Passes(t, k, |t|))
            && (r != -1 ==> 0 <= r < |t| && Stops(t[r], k) && Passes(t, k, Dist(Home(k, |t|), r, |t|)))
    decreases |t| - d
  {
    hide Home;
    if d < |t| && !Stops(OnPath(t, k, d), k) {
      assert Passes(t, k, d + 1);
      ProbeEnds(t, k, d + 1);
    }
  }

  lemma {:induction false} ProbeIs(t: Table, k: Key, d: nat, e: nat)
    requires d <= e < |t| && Passes(t, k, e) && Stops(OnPath(t, k, e), k)
    ensures Probe(t, k, d) == At(Home(k, |t|), e, |t|)
    decreases e - d
  {
    hide Home;
    if d < e { ProbeIs(t, k, d + 1, e); }
  }

  /** The probe ends at slot `i` exactly when `i` is a stop and all slots before it on the path are live
      with other keys. */
  lemma {:induction false} FindSlotIff(t: Table, k: Key, i: nat)
    requires i < |t|
    ensures FindSlot(t, k) == i <==> Stops(t[i], k) && Passes(t, k, Dist(Home(k, |t|), i, |t|))
    ensures FindSlot(t, k) == -1 <==> forall j :: 0 <= j < |t| ==> !Stops(t[j], k)
    ensures -1 <= FindSlot(t, k) < |t|
  {
    hide Home;
    var d := Dist(Home(k, |t|), i, |t|);
    ProbeEnds(t, k, 0);
    if Stops(t[i], k) && Passes(t, k, d) { ProbeIs(t, k, 0, d); }
    if FindSlot(t, k) == -1 {
      forall j | 0 <= j < |t| ensures !Stops(t[j], k) {
        assert !Stops(OnPath(t, k, Dist(Home(k, |t|), j, |t|)), k);
      }
    }
  }

  // ---------------------------------------------------------------- the map a table stands for

  /** Every live entry can be reached: its path leads over live entries with other keys. */
  predicate Probed(t: Table) {
    forall i {:trigger t[i]} :: 0 <= i < |t| && t[i].Live? ==> Passes(t, t[i].key, Dist(Home(t[i].key, |t|), i, |t|))
  }

  predicate Tombless(t: Table) { forall i :: 0 <= i < |t| ==> !t[i].Tomb? }

  predicate HasKey(t: Table, k: Key) { exists i :: 0 <= i < |t| && t[i].Live? && t[i].key == k }

  ghost predicate Rep(t: Table, m: map<Key, Store.Value>) {
    && (forall i :: 0 <= i < |t| && t[i].Live? ==> t[i].key in m && m[t[i].key] == t[i].value)
    && forall k :: k in m ==> HasKey(t, k)
  }

  predicate DistinctKeys(t: Table) {
    forall i, j :: 0 <= i < j < |t| && t[i].Live? && t[j].Live? ==> t[i].key != t[j].key
  }

  ghost predicate Refines(st: State, m: map<Key, Store.Value>) {
    && Tombless(st.slots) && Probed(st.slots) && Rep(st.slots, m)
    && st.count == |m| == Lives(st.slots) && 4 * st.count <= 3 * |st.slots|
  }

  lemma {:induction false} LivesUpdate(t: Table, i: nat, s: Slot)
    requires i < |t|
    ensures Lives(t[i := s]) == Lives(t) - (if t[i].Live? then 1 else 0) + (if s.Live? then 1 else 0)
    decreases |t|
  {
    var n := |t| - 1;
    if i == n {
      assert t[i := s][..n] == t[..n];
    } else {
      assert t[i := s][..n] == t[..n][i := s];
      LivesUpdate(t[..n], i, s);
    }
  }

  lemma {:induction false} HasRoom(t: Table) returns (i: nat)
    requires Lives(t) < |t|
    ensures i < |t| && !t[i].Live?
    decreases |t|
  {
    var n := |t| - 1;
    if t[n].Live? { i := HasRoom(t[..n]); } else { i := n; }
  }

  lemma {:induction false} LivesAtMost(t: Table)
    ensures Lives(t) <= |t|
    decreases |t|
  {
    if t != [] { LivesAtMost(t[..|t| - 1]); }
  }

  lemma {:induction false} OnePlace(t: Table, k: Key, i: nat, j: nat)
    requires i < |t| && j < |t| && Stops(t[i], k) && Stops(t[j], k)
    requires Passes(t, k, Dist(Home(k, |t|), i, |t|)) && Passes(t, k, Dist(Home(k, |t|), j, |t|))
    ensures i == j
  {
    hide Home;
    var di, dj := Dist(Home(k, |t|), i, |t|), Dist(Home(k, |t|), j, |t|);
    assert OnPath(t, k, di) == t[i] && OnPath(t, k, dj) == t[j];
  }

  lemma {:induction false} ProbedAreDistinct(t: Table)
    requires Probed(t)
    ensures DistinctKeys(t)
  {
    hide Home, Passes;
    forall i, j | 0 <= i < j < |t| && t[i].Live? && t[j].Live? ensures t[i].key != t[j].key {
      if t[i].key == t[j].key { OnePlace(t, t[i].key, i, j); }
    }
  }

  /** On a tombstone-free probed table with room, the probe ends at the key's own slot if it has one and at
      a free slot if it has none. */
  lemma {:induction false} FindsKey(t: Table, k: Key)
    requires Tombless(t) && Probed(t) && Lives(t) < |t|
    ensures 0 <= FindSlot(t, k) < |t|
    ensures HasKey(t, k) ==> t[FindSlot(t, k)].Live? && t[FindSlot(t, k)].key == k
    ensures !HasKey(t, k) ==> t[FindSlot(t, k)].Free? && Passes(t, k, Dist(Home(k, |t|), FindSlot(t, k), |t|))
  {
    hide Home, Passes, Lives, FindSlot;
    var room := HasRoom(t);
    FindSlotIff(t, k, room);
    FindSlotIff(t, k, FindSlot(t, k));
    if HasKey(t, k) {
      var i :| 0 <= i < |t| && t[i].Live? && t[i].key == k;
      FindSlotIff(t, k, i);
    }
  }

  // ---------------------------------------------------------------- inserting and overwriting

  lemma {:induction false} PassesKept(t: Table, slot: nat, s: Slot, k: Key, d: nat)
    requires slot < |t| && d <= |t| && Passes(t, k, d) && Stops(t[slot], k)
    ensures Passes(t[slot := s], k, d)
  {
    hide Home;
    var t' := t[slot := s];
    forall e | 0 <= e < d ensures !Stops(OnPath(t', k, e), k) {
      assert !Stops(OnPath(t, k, e), k);
    }
  }

  lemma {:induction false} Inserted(t: Table, slot: nat, k: Key, v: Store.Value, m: map<Key, Store.Value>)
    requires slot < |t| && t[slot].Free? && Tombless(t) && Probed(t) && Rep(t, m) && k !in m
    requires Passes(t, k, Dist(Home(k, |t|), slot, |t|))
    ensures var t' := t[slot := Live(k, v)];
            Tombless(t') && Probed(t') && Rep(t', m[k := v]) && Lives(t') == Lives(t) + 1
  {
    hide Home, Passes, Lives;
    var t' := t[slot := Live(k, v)];
    LivesUpdate(t, slot, Live(k, v));
    forall i {:trigger t'[i]} | 0 <= i < |t'| && t'[i].Live?
      ensures Passes(t', t'[i].key, Dist(Home(t'[i].key, |t'|), i, |t'|))
    {
      if i != slot { assert t[i].Live?; }
      PassesKept(t, slot, Live(k, v), t'[i].key, Dist(Home(t'[i].key, |t'|), i, |t'|));
    }
    InsertedRep(t, slot, k, v, m);
  }

  lemma {:induction false} InsertedRep(t: Table, slot: nat, k: Key, v: Store.Value, m: map<Key, Store.Value>)
    requires slot < |t| && !t[slot].Live? && Rep(t, m) && k !in m
    ensures Rep(t[slot := Live(k, v)], m[k := v])
  {
    var t' := t[slot := Live(k, v)];
    forall x | x in m[k := v] ensures HasKey(t', x) {
      if x == k {
        assert t'[slot].key == k;
      } else {
        var i :| 0 <= i < |t| && t[i].Live? && t[i].key == x;
        assert t'[i] == t[i];
      }
    }
  }

  lemma {:induction false} SameKeysPass(t: Table, slot: nat, v: Store.Value, k: Key, d: nat)
    requires slot < |t| && t[slot].Live? && d <= |t| && Passes(t, k, d)
    ensures Passes(t[slot := Live(t[slot].key, v)], k, d)
  {
    hide Home;
    var t' := t[slot := Live(t[slot].key, v)];
    forall e | 0 <= e < d ensures !Stops(OnPath(t', k, e), k) {
      assert !Stops(OnPath(t, k, e), k);
    }
  }

  lemma {:induction false} Overwritten(t: Table, slot: nat, k: Key, v: Store.Value, m: map<Key, Store.Value>)
    requires slot < |t| && t[slot].Live? && t[slot].key == k && Tombless(t) && Probed(t) && Rep(t, m)
    ensures var t' := t[slot := Live(k, v)];
            Tombless(t') && Probed(t') && Rep(t', m[k := v]) && Lives(t') == Lives(t)
  {
    hide Home, Passes, Lives;
    var t' := t[slot := Live(k, v)];
    LivesUpdate(t, slot, Live(k, v));
    ProbedAreDistinct(t);
    forall i {:trigger t'[i]} | 0 <= i < |t'| && t'[i].Live?
      ensures Passes(t', t'[i].key, Dist(Home(t'[i].key, |t'|), i, |t'|))
    {
      assert t[i].Live? && t[i].key == t'[i].key;
      SameKeysPass(t, slot, v, t'[i].key, Dist(Home(t'[i].key, |t'|), i, |t'|));
    }
    forall x | x in m[k := v] ensures HasKey(t', x) {
      var i :| 0 <= i < |t| && t[i].Live? && t[i].key == x;
      assert t'[i].key == x;
    }
  }

  // ---------------------------------------------------------------- rehashing

  lemma {:induction false} EmptyTable(n: nat)
    ensures Tombless(Empty(n)) && Probed(Empty(n)) && Rep(Empty(n), map[]) && Lives(Empty(n)) == 0
  {
    if n > 0 {
      assert Empty(n)[..n - 1] == Empty(n - 1);
      EmptyTable(n - 1);
    }
  }

  lemma RepIsUnique(t: Table, a: map<Key, Store.Value>, b: map<Key, Store.Value>)
    requires Rep(t, a) && Rep(t, b)
    ensures a == b
  {
    forall k ensures k in a <==> k in b { }
    forall k | k in a ensures a[k] == b[k] { assert HasKey(t, k); }
  }

  lemma {:induction false} RepExtends(from: Table, i: nat, m: map<Key, Store.Value>)
    requires i < |from| && Rep(from[..i], m) && DistinctKeys(from)
    ensures from[i].Live? ==> from[i].key !in m && Rep(from[..i + 1], m[from[i].key := from[i].value])
    ensures !from[i].Live? ==> Rep(from[..i + 1], m)
    ensures Lives(from[..i + 1]) == Lives(from[..i]) + if from[i].Live? then 1 else 0
  {
    var s := from[..i + 1];
    assert s[..i] == from[..i];
    var m' := if from[i].Live? then m[from[i].key := from[i].value] else m;
    assert from[i].Live? ==> !HasKey(from[..i], from[i].key) by {
      assert forall j :: 0 <= j < i ==> from[..i][j] == from[j];
    }
    forall x | x in m' ensures HasKey(s, x) {
      if from[i].Live? && x == from[i].key {
        assert s[i].key == x;
      } else {
        var j :| 0 <= j < |from[..i]| && from[..i][j].Live? && from[..i][j].key == x;
        assert s[j] == from[..i][j];
      }
    }
  }

  lemma {:induction false} LivesPrefix(t: Table, i: nat)
    requires i <= |t|
    ensures Lives(t[..i]) <= Lives(t)
    decreases |t|
  {
    if i < |t| {
      assert t[..|t| - 1][..i] == t[..i];
      LivesPrefix(t[..|t| - 1], i);
    } else {
      assert t[..i] == t;
    }
  }

  lemma {:induction false} Reinserts(from: Table, i: nat, t: Table, count: int, m: map<Key, Store.Value>,
                                     all: map<Key, Store.Value>)
    requires i <= |from| && DistinctKeys(from) && Rep(from, all) && Lives(from) <= |t|
    requires Tombless(t) && Probed(t) && Rep(t, m) && Rep(from[..i], m)
    requires count == |m| == Lives(t) == Lives(from[..i])
    ensures var (t', count') := Reinsert(from, i, t, count);
            && |t'| == |t| && Tombless(t') && Probed(t') && Rep(t', all) && count' == |all| == Lives(t') == Lives(from)
    decreases |from| - i
  {
    hide DistinctKeys, Probed, Tombless, Rep, Lives, FindSlot;
    if i == |from| {
      assert from[..i] == from;
      RepIsUnique(from, m, all);
    } else {
      RepExtends(from, i, m);
      LivesPrefix(from, i + 1);
      if from[i].Live? {
        FindsKey(t, from[i].key);
        NoSuchKey(t, m, from[i].key);
        var slot := FindSlot(t, from[i].key);
        Inserted(t, slot, from[i].key, from[i].value, m);
        Reinserts(from, i + 1, t[slot := from[i]], count + 1, m[from[i].key := from[i].value], all);
      } else {
        Reinserts(from, i + 1, t, count, m, all);
      }
    }
  }

  lemma NoSuchKey(t: Table, m: map<Key, Store.Value>, k: Key)
    requires Rep(t, m)
    ensures HasKey(t, k) <==> k in m
  {
  }

  /** From any table with distinct live keys, tombstones anywhere, and room for them, resizing yields a
      tombstone-free probed table with the same map and the right count. */
  lemma {:induction false} ResizeRebuilds(st: State, n: nat, m: map<Key, Store.Value>)
    requires n > 0 && DistinctKeys(st.slots) && Rep(st.slots, m) && Lives(st.slots) <= n
    ensures var res := Resize(st, n);
            && |res.slots| == n && Tombless(res.slots) && Probed(res.slots) && Rep(res.slots, m)
            && res.count == |m| == Lives(res.slots) == Lives(st.slots)
  {
    EmptyTable(n);
    assert st.slots[..0] == [];
    Reinserts(st.slots, 0, Empty(n), 0, map[], m);
  }

  // ---------------------------------------------------------------- the operations refine a map

  lemma {:induction false} GrownRefines(st: State, m: map<Key, Store.Value>)
    requires Refines(st, m)
    ensures Refines(Grown(st), m) && 4 * (Grown(st).count + 1) <= 3 * |Grown(st).slots|
  {
    hide Probed, Tombless, Rep, Lives, Resize;
    ProbedAreDistinct(st.slots);
    LivesAtMost(st.slots);
    if |st.slots| == 0 {
      ResizeRebuilds(st, 8, m);
    } else if 4 * (st.count + 1) > 3 * |st.slots| {
      ResizeRebuilds(st, 2 * |st.slots|, m);
    }
  }

  lemma {:induction false} PutRefines(st: State, m: map<Key, Store.Value>, k: Key, v: Store.Value)
    requires Refines(st, m) && 4 * (st.count + 1) <= 3 * |st.slots|
    ensures Put(st, k, v).1 && Refines(Put(st, k, v).0, m[k := v])
  {
    hide Probed, Tombless, Rep, Lives, FindSlot;
    FindsKey(st.slots, k);
    NoSuchKey(st.slots, m, k);
    var slot := FindSlot(st.slots, k);
    if k in m {
      Overwritten(st.slots, slot, k, v, m);
      assert m[k := v].Keys == m.Keys;
    } else {
      Inserted(st.slots, slot, k, v, m);
    }
  }

  /** Setting a key of an accepted type always succeeds and updates the map at that key alone; a rejected
      one changes nothing. */
  lemma {:induction false} SetRefines(st: State, m: map<Key, Store.Value>, k: Key, v: Store.Value)
    requires Refines(st, m)
    ensures var (st', ok) := Set(st, k, v);
            && (ok <==> Accepts(st.keyType, KeyType(k)) && Accepts(st.valueType, Store.TypeOf(v)))
            && Refines(st', if ok then m[k := v] else m)
            && (!ok ==> st' == st)
  {
    hide Grown, Put;
    if Accepts(st.keyType, KeyType(k)) && Accepts(st.valueType, Store.TypeOf(v)) {
      var typed := Typed(st, k, v);
      GrownRefines(typed, m);
      PutRefines(Grown(typed), m, k, v);
    }
  }

  /** Looking a key up returns what the map holds for it, or nothing for a key of a rejected type. */
  lemma {:induction false} GetRefines(st: State, m: map<Key, Store.Value>, k: Key)
    requires Refines(st, m)
    ensures Get(st, k) == if k in m && Accepts(st.keyType, KeyType(k)) then Some(m[k]) else None
  {
    hide Probed, Tombless, Lives;
    if st.slots != [] {
      hide FindSlot;
      FindsKey(st.slots, k);
      NoSuchKey(st.slots, m, k);
    }
  }

  lemma {:induction false} ClearRefines(st: State)
    ensures Refines(Clear(st), map[])
  {
    EmptyTable(|st.slots|);
  }

  // ---------------------------------------------------------------- what a removal breaks

  /** No tombstone lies on the way from the key's home slot to slot `i`. */
  predicate NoTombBefore(t: Table, k: Key, i: nat)
    requires i < |t|
  {
    forall e :: 0 <= e < Dist(Home(k, |t|), i, |t|) ==> !OnPath(t, k, e).Tomb?
  }

  /** As `Probed`, but the path may also lead over tombstones. */
  predicate TombProbed(t: Table) {
    forall i, e :: 0 <= i < |t| && t[i].Live? && 0 <= e < Dist(Home(t[i].key, |t|), i, |t|) ==>
      var s := OnPath(t, t[i].key, e); s.Tomb? || !Stops(s, t[i].key)
  }

  /** A live entry is found exactly when no tombstone lies before it on its path. */
  lemma {:induction false} FoundIff(t: Table, i: nat)
    requires TombProbed(t) && i < |t| && t[i].Live?
    ensures FindSlot(t, t[i].key) == i <==> NoTombBefore(t, t[i].key, i)
  {
    hide Home, FindSlot;
    var k, d := t[i].key, Dist(Home(t[i].key, |t|), i, |t|);
    FindSlotIff(t, k, i);
    forall e | 0 <= e < d
      ensures !Stops(OnPath(t, k, e), k) <==> !OnPath(t, k, e).Tomb?
    {
    }
  }

  lemma {:induction false} RemovedStaysProbed(t: Table, slot: nat)
    requires TombProbed(t) && slot < |t|
    ensures TombProbed(t[slot := Tomb])
  {
    hide Home;
    var t' := t[slot := Tomb];
    forall i, e | 0 <= i < |t'| && t'[i].Live? && 0 <= e < Dist(Home(t'[i].key, |t'|), i, |t'|)
      ensures var s := OnPath(t', t'[i].key, e); s.Tomb? || !Stops(s, t'[i].key)
    {
      assert t[i] == t'[i];
      var was := OnPath(t, t[i].key, e);
      assert was.Tomb? || !Stops(was, t[i].key);
    }
  }

  /** After removing one key from a table that refines a map, another key of the map is still found
      exactly when the removed slot does not lie before it on its path. */
  lemma {:induction false} RemoveHides(st: State, m: map<Key, Store.Value>, gone: Key, k: Key, slot: nat, i: nat)
    requires Refines(st, m) && LiveSlot(st, gone) == Some(slot) && slot < |st.slots|
    requires i < |st.slots| && st.slots[i].Live? && st.slots[i].key == k && k != gone && Accepts(st.keyType, KeyType(k))
    ensures var h, n := Home(k, |st.slots|), |st.slots|;
            Get(Remove(st, gone), k) == Some(m[k]) <==> !(Dist(h, slot, n) < Dist(h, i, n))
    ensures Get(Remove(st, gone), k) == Some(m[k]) || Get(Remove(st, gone), k) == None
  {
    hide Home, FindSlot, Lives;
    var t := st.slots;
    var t' := t[slot := Tomb];
    var h := Home(k, |t|);
    FindSlotIff(t, gone, slot);
    assert TombProbed(t) by { ProbedIsTombProbed(t); }
    RemovedStaysProbed(t, slot);
    assert t'[i] == t[i];
    FoundIff(t', i);
    OneTomb(t, slot, k, i);
    FindSlotIff(t', k, i);
    ProbedAreDistinct(t);
    var r := FindSlot(t', k);
    if 0 <= r < |t'| && r != i {
      FindSlotIff(t', k, r);
      assert !t'[r].Live?;
    }
  }

  lemma {:induction false} ProbedIsTombProbed(t: Table)
    requires Probed(t)
    ensures TombProbed(t)
  {
    hide Home;
  }

  lemma {:induction false} OneTomb(t: Table, slot: nat, k: Key, i: nat)
    requires Tombless(t) && slot < |t| && i < |t|
    ensures NoTombBefore(t[slot := Tomb], k, i) <==> !(Dist(Home(k, |t|), slot, |t|) < Dist(Home(k, |t|), i, |t|))
  {
    hide Home;
    var t' := t[slot := Tomb];
    var h := Home(k, |t|);
    assert OnPath(t', k, Dist(h, slot, |t|)) == Tomb;
    forall e | 0 <= e < Dist(h, i, |t|) ensures OnPath(t', k, e).Tomb? <==> e == Dist(h, slot, |t|) {
      assert OnPath(t, k, e) in t;
    }
  }

  /** The integers 0 and 2 share the first of eight slots. */
  lemma ZeroAndTwoCollide()
    ensures Home(IntKey(0), 8) == 0 && Home(IntKey(2), 8) == 0
  {
    assert (0 % 0x1_0000_0000) as bv32 == 0;
    assert Mix(0) == 0;
    assert Hash(IntKey(0)) == 0;
    assert (2 % 0x1_0000_0000) as bv32 == 2;
    assert Mix(2) == 0x8bb3e76;
  }

  /** Set 0, set 2, remove 0: the tombstone hides 2, and setting 2 once more stores it a second time. */
  lemma {:induction false} RemoveThenSetDuplicates()
    ensures var zero, two := IntKey(0), IntKey(2);
            var full := State([Live(zero, Store.Int(10)), Live(two, Store.Int(20))] + Empty(6), 2, Store.TInt,
                              Store.TInt);
            && Refines(full, map[zero := Store.Int(10), two := Store.Int(20)])
            && Get(full, two) == Some(Store.Int(20))
            && Get(Remove(full, zero), two) == None
            && Set(Remove(full, zero), two, Store.Int(21)).0.slots
               == [Live(two, Store.Int(21)), Live(two, Store.Int(20))] + Empty(6)
  {
    hide Home, FindSlot, Lives;
    ZeroAndTwoCollide();
    var zero, two, a, b := IntKey(0), IntKey(2), Store.Int(10), Store.Int(20);
    var t0, t1, t2 := Empty(8), [Live(zero, a)] + Empty(7), [Live(zero, a), Live(two, b)] + Empty(6);
    EmptyTable(8);
    Inserted(t0, 0, zero, a, map[]);
    assert t0[0 := Live(zero, a)] == t1;
    Inserted(t1, 1, two, b, map[zero := a]);
    assert t1[1 := Live(two, b)] == t2;
    FindSlotIff(t2, zero, 0);
    FindSlotIff(t2, two, 1);
    var gone := [Tomb, Live(two, b)] + Empty(6);
    assert t2[0 := Tomb] == gone;
    FindSlotIff(gone, two, 0);
    assert gone[0 := Live(two, Store.Int(21))] == [Live(two, Store.Int(21)), Live(two, b)] + Empty(6);
  }

  // ---------------------------------------------------------------- runs

  datatype Op = SetKey(k: Key, v: Store.Value) | GetKey(k: Key) | RemoveKey(k: Key) | Reset

  function Apply(st: State, op: Op): State {
    match op
    case SetKey(k, v) => Set(st, k, v).0
    case GetKey(_) => st
    case RemoveKey(k) => Remove(st, k)
    case Reset => Clear(st)
  }

  function Run(st: State, ops: seq<Op>): State
    decreases |ops|
  {
    if ops == [] then st else Run(Apply(st, ops[0]), ops[1..])
  }

  /** The map after the same run, where a rejected key or value, and the removal of a key that is not
      found, leave it as it was. */
  function Model(st: State, m: map<Key, Store.Value>, ops: seq<Op>): map<Key, Store.Value>
    decreases |ops|
  {
    if ops == [] then m
    else
      var m' := match ops[0]
                case SetKey(k, v) => if Set(st, k, v).1 then m[k := v] else m
                case GetKey(_) => m
                case RemoveKey(k) => if LiveSlot(st, k).Some? then m - {k} else m
                case Reset => map[];
      Model(Apply(st, ops[0]), m', ops[1..])
  }

  /** Over every run of set, get and clear the table refines the map: distinct probed keys, no tombstone,
      the count of the map's keys and a load of at most three quarters. */
  lemma {:induction false} EveryRunRefines(st: State, m: map<Key, Store.Value>, ops: seq<Op>)
    requires Refines(st, m) && forall op :: op in ops ==> !op.RemoveKey?
    ensures Refines(Run(st, ops), Model(st, m, ops))
    decreases |ops|
  {
    hide Refines, Set, Clear;
    if ops != [] {
      assert !ops[0].RemoveKey?;
      match ops[0] {
        case RemoveKey(_) =>
        case SetKey(k, v) =>
          SetRefines(st, m, k, v);
          EveryRunRefines(Set(st, k, v).0, if Set(st, k, v).1 then m[k := v] else m, ops[1..]);
        case GetKey(_) => EveryRunRefines(st, m, ops[1..]);
        case Reset =>
          ClearRefines(st);
          EveryRunRefines(Clear(st), map[], ops[1..]);
      }
    }
  }

  lemma NewRefines(capacity: nat, keyType: Store.Type, valueType: Store.Type)
    ensures Refines(State(Empty(capacity), 0, keyType, valueType), map[])
  {
    EmptyTable(capacity);
  }

  // ---------------------------------------------------------------- runs with removals

  /** As `Refines`, with tombstones: entries stay where they are, but the probe may stop before them. */
  ghost predicate Holds(st: State, m: map<Key, Store.Value>) {
    && TombProbed(st.slots) && Rep(st.slots, m)
    && st.count == |m| == Lives(st.slots) && 4 * st.count <= 3 * |st.slots|
  }

  lemma RefinesHolds(st: State, m: map<Key, Store.Value>)
    requires Refines(st, m)
    ensures Holds(st, m)
  {
    hide Probed, TombProbed, Rep;
    ProbedIsTombProbed(st.slots);
  }

  /** The table has the key, and the probe does not get to it. */
  predicate Hides(t: Table, k: Key) {
    HasKey(t, k) && !(0 <= FindSlot(t, k) < |t| && t[FindSlot(t, k)].Live?)
  }

  lemma {:induction false} TombProbedAreDistinct(t: Table)
    requires TombProbed(t)
    ensures DistinctKeys(t)
  {
    hide Home;
    forall i, j | 0 <= i < j < |t| && t[i].Live? && t[j].Live? ensures t[i].key != t[j].key {
      var h, n := Home(t[i].key, |t|), |t|;
      assert OnPath(t, t[i].key, Dist(h, i, n)) == t[i] && OnPath(t, t[i].key, Dist(h, j, n)) == t[j];
    }
  }

  lemma {:induction false} FindsSomething(t: Table, k: Key)
    requires Lives(t) < |t|
    ensures var r := FindSlot(t, k);
            0 <= r < |t| && Stops(t[r], k) && Passes(t, k, Dist(Home(k, |t|), r, |t|))
  {
    hide Home, Passes, Lives, FindSlot;
    var room := HasRoom(t);
    FindSlotIff(t, k, room);
    FindSlotIff(t, k, FindSlot(t, k));
  }

  /** Filling a stop of the path of `k` with an entry of key `k` keeps the paths, if no other slot has
      that key. */
  lemma {:induction false} FilledStaysProbed(t: Table, slot: nat, k: Key, v: Store.Value)
    requires TombProbed(t) && slot < |t| && Stops(t[slot], k) && Passes(t, k, Dist(Home(k, |t|), slot, |t|))
    requires forall i :: 0 <= i < |t| && t[i].Live? && t[i].key == k ==> i == slot
    ensures TombProbed(t[slot := Live(k, v)])
  {
    hide Home;
    var t' := t[slot := Live(k, v)];
    forall i, e | 0 <= i < |t'| && t'[i].Live? && 0 <= e < Dist(Home(t'[i].key, |t'|), i, |t'|)
      ensures var s := OnPath(t', t'[i].key, e); s.Tomb? || !Stops(s, t'[i].key)
    {
      if i == slot {
        assert !Stops(OnPath(t, k, e), k);
        assert At(Home(k, |t|), e, |t|) != slot;
      } else {
        assert t[i] == t'[i];
        var was := OnPath(t, t[i].key, e);
        assert was.Tomb? || !Stops(was, t[i].key);
      }
    }
  }

  lemma {:induction false} PutHolds(st: State, m: map<Key, Store.Value>, k: Key, v: Store.Value)
    requires Holds(st, m) && 4 * (st.count + 1) <= 3 * |st.slots| && !Hides(st.slots, k)
    ensures Put(st, k, v).1 && Holds(Put(st, k, v).0, m[k := v])
  {
    hide Home, Passes, Lives, FindSlot, TombProbed;
    var t := st.slots;
    FindsSomething(t, k);
    NoSuchKey(t, m, k);
    TombProbedAreDistinct(t);
    var slot := FindSlot(t, k);
    FilledStaysProbed(t, slot, k, v);
    LivesUpdate(t, slot, Live(k, v));
    if t[slot].Live? {
      assert HasKey(t, k) && m[k := v].Keys == m.Keys;
      OverwrittenRep(t, slot, k, v, m);
    } else {
      InsertedRep(t, slot, k, v, m);
    }
  }

  lemma {:induction false} OverwrittenRep(t: Table, slot: nat, k: Key, v: Store.Value, m: map<Key, Store.Value>)
    requires slot < |t| && t[slot].Live? && t[slot].key == k && DistinctKeys(t) && Rep(t, m)
    ensures Rep(t[slot := Live(k, v)], m[k := v])
  {
    var t' := t[slot := Live(k, v)];
    forall x | x in m[k := v] ensures HasKey(t', x) {
      var i :| 0 <= i < |t| && t[i].Live? && t[i].key == x;
      assert t'[i].key == x;
    }
  }

  /** A hidden key is stored a second time. */
  lemma {:induction false} PutDuplicates(st: State, m: map<Key, Store.Value>, k: Key, v: Store.Value)
    requires Lives(st.slots) < |st.slots| && Hides(st.slots, k)
    ensures !Holds(Put(st, k, v).0, m)
  {
    hide Home, Passes, Lives, FindSlot, TombProbed;
    var t := st.slots;
    FindsSomething(t, k);
    var i :| 0 <= i < |t| && t[i].Live? && t[i].key == k;
    var slot := FindSlot(t, k);
    var t' := t[slot := Live(k, v)];
    assert t'[i].key == k && t'[slot].key == k && i != slot;
    if TombProbed(t') { TombProbedAreDistinct(t'); }
  }

  lemma {:induction false} GrownHolds(st: State, m: map<Key, Store.Value>)
    requires Holds(st, m)
    ensures Holds(Grown(st), m) && 4 * (Grown(st).count + 1) <= 3 * |Grown(st).slots|
  {
    hide TombProbed, Rep, Lives, Resize;
    LivesAtMost(st.slots);
    if |st.slots| == 0 {
      RebuiltRefines(st, 8, m);
      RefinesHolds(Resize(st, 8), m);
    } else if 4 * (st.count + 1) > 3 * |st.slots| {
      RebuiltRefines(st, 2 * |st.slots|, m);
      RefinesHolds(Resize(st, 2 * |st.slots|), m);
    }
  }

  /** Whatever tombstones there are, resizing makes the table refine its map again. */
  lemma {:induction false} RebuiltRefines(st: State, n: nat, m: map<Key, Store.Value>)
    requires Holds(st, m) && n > 0 && 4 * st.count <= 3 * n
    ensures Refines(Resize(st, n), m) && |Resize(st, n).slots| == n
  {
    hide TombProbed, Probed, Tombless, Rep, Lives, Resize;
    TombProbedAreDistinct(st.slots);
    ResizeRebuilds(st, n, m);
  }

  /** An accepted set keeps the table right if and only if the key is not hidden when the value is put;
      a rejected one changes nothing. */
  lemma {:induction false} SetHoldsIff(st: State, m: map<Key, Store.Value>, k: Key, v: Store.Value)
    requires Holds(st, m)
    ensures var (st', ok) := Set(st, k, v);
            && (!ok ==> st' == st)
            && (ok <==> Accepts(st.keyType, KeyType(k)) && Accepts(st.valueType, Store.TypeOf(v)))
            && (ok ==> ((exists m' :: Holds(st', m')) <==> !Hides(Grown(Typed(st, k, v)).slots, k)))
            && (ok && !Hides(Grown(Typed(st, k, v)).slots, k) ==> Holds(st', m[k := v]))
  {
    hide Grown, Put, TombProbed, Rep, Lives, Hides;
    if Accepts(st.keyType, KeyType(k)) && Accepts(st.valueType, Store.TypeOf(v)) {
      var typed := Typed(st, k, v);
      GrownHolds(typed, m);
      if Hides(Grown(typed).slots, k) {
        forall m' ensures !Holds(Put(Grown(typed), k, v).0, m') { PutDuplicates(Grown(typed), m', k, v); }
        PutSucceeds(Grown(typed), k, v);
      } else {
        PutHolds(Grown(typed), m, k, v);
      }
    }
  }

  lemma PutSucceeds(st: State, k: Key, v: Store.Value)
    requires Lives(st.slots) < |st.slots|
    ensures Put(st, k, v).1
  {
    hide FindSlot;
    FindsSomething(st.slots, k);
  }

  lemma {:induction false} RemovedRep(t: Table, slot: nat, k: Key, m: map<Key, Store.Value>)
    requires slot < |t| && t[slot].Live? && t[slot].key == k && DistinctKeys(t) && Rep(t, m)
    ensures Rep(t[slot := Tomb], m - {k}) && k in m && |m - {k}| == |m| - 1
  {
    var t' := t[slot := Tomb];
    forall x | x in m - {k} ensures HasKey(t', x) {
      var i :| 0 <= i < |t| && t[i].Live? && t[i].key == x;
      assert t'[i] == t[i];
    }
    assert m.Keys == (m - {k}).Keys + {k};
  }

  lemma {:induction false} RemoveHolds(st: State, m: map<Key, Store.Value>, k: Key)
    requires Holds(st, m)
    ensures Holds(Remove(st, k), if LiveSlot(st, k).Some? then m - {k} else m)
  {
    hide Home, Passes, Lives, FindSlot, TombProbed, Rep, DistinctKeys;
    var t := st.slots;
    if LiveSlot(st, k).Some? {
      var slot := LiveSlot(st, k).value;
      FindSlotIff(t, k, slot);
      RemovedStaysProbed(t, slot);
      LivesUpdate(t, slot, Tomb);
      TombProbedAreDistinct(t);
      RemovedRep(t, slot, k, m);
    }
  }

  /** A lookup gives the value of the map or nothing, and the value exactly if no tombstone lies before
      the entry on its path. */
  lemma {:induction false} LookupIff(st: State, m: map<Key, Store.Value>, k: Key)
    requires Holds(st, m)
    ensures k !in m ==> Get(st, k) == None
    ensures k in m ==> (Get(st, k) == Some(m[k]) || Get(st, k) == None)
    ensures Accepts(st.keyType, KeyType(k)) ==>
              forall i :: 0 <= i < |st.slots| && st.slots[i].Live? && st.slots[i].key == k ==>
                (Get(st, k) == Some(m[k]) <==> NoTombBefore(st.slots, k, i))
  {
    hide Home, Passes, Lives, FindSlot, TombProbed, NoTombBefore;
    var t := st.slots;
    NoSuchKey(t, m, k);
    TombProbedAreDistinct(t);
    if 0 <= FindSlot(t, k) < |t| { FindSlotIff(t, k, FindSlot(t, k)); }
    forall i | 0 <= i < |t| && t[i].Live? && t[i].key == k ensures FindSlot(t, k) == i <==> NoTombBefore(t, k, i) {
      FoundIff(t, i);
    }
  }

  predicate SetsVisible(st: State, k: Key, v: Store.Value) {
    Accepts(st.keyType, KeyType(k)) && Accepts(st.valueType, Store.TypeOf(v)) ==>
      !Hides(Grown(Typed(st, k, v)).slots, k)
  }

  /** No set of the run puts a value under a key that is hidden at that moment. */
  predicate NeverHidden(st: State, ops: seq<Op>)
    decreases |ops|
  {
    ops != [] ==>
      && (match ops[0]
          case SetKey(k, v) => SetsVisible(st, k, v)
          case _ => true)
      && NeverHidden(Apply(st, ops[0]), ops[1..])
  }

  /** Over every run of set, get, remove and clear that sets no hidden key, the table holds the map:
      distinct keys, right count, load at most three quarters. */
  lemma {:induction false} EveryRunHolds(st: State, m: map<Key, Store.Value>, ops: seq<Op>)
    requires Holds(st, m) && NeverHidden(st, ops)
    ensures Holds(Run(st, ops), Model(st, m, ops))
    decreases |ops|
  {
    hide Holds, Set, Clear, Remove, LiveSlot, Hides, Grown;
    if ops != [] {
      match ops[0] {
        case SetKey(k, v) =>
          SetHoldsIff(st, m, k, v);
          EveryRunHolds(Set(st, k, v).0, if Set(st, k, v).1 then m[k := v] else m, ops[1..]);
        case GetKey(_) => EveryRunHolds(st, m, ops[1..]);
        case RemoveKey(k) =>
          RemoveHolds(st, m, k);
          EveryRunHolds(Remove(st, k), if LiveSlot(st, k).Some? then m - {k} else m, ops[1..]);
        case Reset =>
          ClearRefines(st);
          RefinesHolds(Clear(st), map[]);
          EveryRunHolds(Clear(st), map[], ops[1..]);
      }
    }
  }

  // ---------------------------------------------------------------- what is accepted

  lemma {:induction false} TypesStay(st: State, ops: seq<Op>)
    requires st.keyType != Store.TNil && st.valueType != Store.TNil
    ensures Run(st, ops).keyType == st.keyType && Run(st, ops).valueType == st.valueType
    decreases |ops|
  {
    hide FindSlot, Lives;
    if ops != [] { TypesStay(Apply(st, ops[0]), ops[1..]); }
  }

  /** In a new dictionary without declared types the first entry declares them: it is accepted, and from then on,
      over every run of set, get and clear, a set is accepted exactly if its key and value have these types. */
  lemma {:induction false} FirstTypesDecide(n: nat, first: Key, v: Store.Value, ops: seq<Op>, k: Key, w: Store.Value)
    requires KeyType(first) != Store.TNil && v != Store.Nil && forall op :: op in ops ==> !op.RemoveKey?
    ensures var one := Set(State(Empty(n), 0, Store.TNil, Store.TNil), first, v);
            && one.1
            && (Set(Run(one.0, ops), k, w).1 <==> KeyType(k) == KeyType(first) && Store.TypeOf(w) == Store.TypeOf(v))
  {
    var st := State(Empty(n), 0, Store.TNil, Store.TNil);
    var one := Set(st, first, v).0;
    NewRefines(n, Store.TNil, Store.TNil);
    SetRefines(st, map[], first, v);
    EveryRunRefines(one, map[first := v], ops);
    SetTypes(st, first, v);
    TypesStay(one, ops);
    hide Refines, Set;
    SetRefines(Run(one, ops), Model(one, map[first := v], ops), k, w);
  }

  lemma SetTypes(st: State, k: Key, v: Store.Value)
    requires st.keyType == st.valueType == Store.TNil && st.count == 0
    ensures Set(st, k, v).0.keyType == KeyType(k) && Set(st, k, v).0.valueType == Store.TypeOf(v)
  {
    hide FindSlot, Lives, Reinsert;
  }
}
