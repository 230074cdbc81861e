/** A dictionary with string keys, read as its list of texts and values: setting a key updates that list as an
    ordered map, over every run of owned operations, and no release touches the strings that are its keys. */
module OwnedDict {
  import opened Syntax
  import opened Store
  import opened Ownership
  import H = HashTable
  import opened OrderedMap

  // ---------------------------------------------------------------- the list a dictionary stands for

  predicate IsString(objs: Objs, v: Value) {
    v.Ref? && v.kind == KStr && v.at < |objs| && objs[v.at].body.Str?
  }

  predicate Keyed(objs: Objs, es: seq<Entry>) {
    forall i :: 0 <= i < |es| ==> IsString(objs, es[i].key)
  }

  function TextOf(objs: Objs, v: Value): string
    requires IsString(objs, v)
  {
    objs[v.at].body.text
  }

  function PairsOf(objs: Objs, es: seq<Entry>): (ps: seq<Pair<string>>)
    requires Keyed(objs, es)
    ensures |ps| == |es|
  {
    seq(|es|, i requires 0 <= i < |es| => Pair(TextOf(objs, es[i].key), es[i].value))
  }

  predicate IsTextDict(objs: Objs, d: nat) {
    d < |objs| && objs[d].body.Dict? && Keyed(objs, objs[d].body.entries)
  }

  function ContentOf(objs: Objs, d: nat): Content<string>
    requires IsTextDict(objs, d)
  {
    var Dict(kt, vt, es) := objs[d].body;
    Content(PairsOf(objs, es), kt, vt)
  }

  /** Strings are what they were. */
  predicate StringsStay(was: Objs, now: Objs) {
    |was| <= |now| && forall x :: 0 <= x < |was| && was[x].body.Str? ==> now[x].body == was[x].body
  }

  lemma PairsStay(was: Objs, now: Objs, es: seq<Entry>)
    requires StringsStay(was, now) && Keyed(was, es)
    ensures Keyed(now, es) && PairsOf(now, es) == PairsOf(was, es)
  {
    forall i | 0 <= i < |es| ensures IsString(now, es[i].key) && TextOf(now, es[i].key) == TextOf(was, es[i].key) {
      assert IsString(was, es[i].key);
    }
  }

  // ---------------------------------------------------------------- one set

  /** The scan stops at the first entry whose key is the text, or behind the last. */
  lemma {:induction false} ScanFinds(objs: Objs, es: seq<Entry>, text: string)
    requires Keyed(objs, es)
    ensures var i := EntryIndex(objs, es, text);
            && (i < |es| ==> TextOf(objs, es[i].key) == text)
            && forall j :: 0 <= j < i ==> TextOf(objs, es[j].key) != text
    decreases |es|
  {
    if es != [] {
      assert IsString(objs, es[0].key);
      forall i | 0 <= i < |es[1..]| ensures IsString(objs, es[1..][i].key) { assert IsString(objs, es[i + 1].key); }
      if !IsText(objs, es[0].key, text) {
        ScanFinds(objs, es[1..], text);
        var n := EntryIndex(objs, es[1..], text);
        forall j | 0 <= j < n + 1 ensures TextOf(objs, es[j].key) != text {
          if j > 0 { assert TextOf(objs, es[1..][j - 1].key) != text; }
        }
      }
    }
  }

  /** Writing the value of an entry, or a new entry behind the others, is an upsert of the list. */
  lemma {:induction false} WrittenPairs(objs: Objs, es: seq<Entry>, text: string, v: Value, k: Value)
    requires Keyed(objs, es) && IsString(objs, k) && TextOf(objs, k) == text
    ensures var i := EntryIndex(objs, es, text);
            var es' := if i < |es| then es[i := Entry(es[i].key, v)] else es + [Entry(k, v)];
            Keyed(objs, es') && PairsOf(objs, es') == Upsert(PairsOf(objs, es), text, v)
  {
    var i := EntryIndex(objs, es, text);
    var ps := PairsOf(objs, es);
    ScanFinds(objs, es, text);
    forall j | 0 <= j < i ensures ps[j].text != text { assert TextOf(objs, es[j].key) != text; }
    UpsertAt(ps, i, text, v);
    if i < |es| {
      assert PairsOf(objs, es[i := Entry(es[i].key, v)]) == ps[i := Pair(text, v)];
    } else {
      assert PairsOf(objs, es + [Entry(k, v)]) == ps + [Pair(text, v)];
    }
  }

  lemma {:induction false} SetStores(st: State, op: Op)
    requires Legal(st, op) && op.SetKey?
    ensures var res := Apply(st, op).objs; |res| == |st.objs| + 1 && res[|st.objs|].body == Str(op.text)
  {
    hide EntryIndex, Release;
    var SetKey(d, text, v) := op;
    var k := |st.objs|;
    var objs1 := Alloc(st.objs, Str(text));
    var Dict(kt, vt, es) := st.objs[d].body;
    var i := EntryIndex(objs1, es, text);
    ReleaseShrinks(objs1, k);
    if i < |es| {
      var kt' := if kt == TNil && es == [] then TRef(KStr) else kt;
      var vt' := if vt == TNil && es == [] then TypeOf(v) else vt;
      var hole := Dict(kt', vt', es[i := Entry(es[i].key, Nil)]);
      var full := Dict(kt', vt', es[i := Entry(es[i].key, v)]);
      hide Swap;
      SwapWrites(objs1, d, hole, es[i].value, full, v);
      ReleaseShrinks(Swap(objs1, d, hole, es[i].value, full, v), k);
    }
  }

  /** Whatever an operation does, strings keep their text. */
  lemma {:induction false} OpKeepsStrings(st: State, op: Op)
    requires Legal(st, op)
    ensures StringsStay(st.objs, Apply(st, op).objs)
  {
    OnlyTheContainerChanges(st, op);
    hide Apply, Written, MayShare;
  }

  /** Setting a key of a text dictionary is putting the pair into its content, types and rejections included. */
  lemma {:induction false} SetPuts(st: State, op: Op)
    requires Legal(st, op) && op.SetKey? && IsTextDict(st.objs, op.d)
    ensures var res := Apply(st, op).objs;
            IsTextDict(res, op.d) && ContentOf(res, op.d) == PutPair(ContentOf(st.objs, op.d), op.text, op.v)
  {
    var SetKey(d, text, v) := op;
    var res := Apply(st, op).objs;
    var es := st.objs[d].body.entries;
    OnlyTheContainerChanges(st, op);
    SetStores(st, op);
    OpKeepsStrings(st, op);
    var objs1 := Alloc(st.objs, Str(text));
    PairsStay(st.objs, objs1, es);
    PairsStay(st.objs, res, es);
    WrittenPairs(objs1, es, text, v, Ref(KStr, |st.objs|));
    hide Apply, EntryIndex, PairsOf, Upsert;
    assert StringsStay(objs1, res);
    if Takes(ContentOf(st.objs, d), v) { PairsStay(objs1, res, res[d].body.entries); }
  }

  // ---------------------------------------------------------------- runs

  /** The pairs that a run sets in dictionary `d`, in order. */
  function SetsOn(d: nat, ops: seq<Op>): seq<Pair<string>>
    decreases |ops|
  {
    if ops == [] then []
    else (if ops[0].SetKey? && ops[0].d == d then [Pair(ops[0].text, ops[0].v)] else []) + SetsOn(d, ops[1..])
  }

  lemma {:induction false} OtherOpsKeep(st: State, op: Op, d: nat)
    requires Legal(st, op) && IsTextDict(st.objs, d) && !(op.SetKey? && op.d == d)
    ensures IsTextDict(Apply(st, op).objs, d) && ContentOf(Apply(st, op).objs, d) == ContentOf(st.objs, d)
  {
    OnlyTheContainerChanges(st, op);
    OpKeepsStrings(st, op);
    hide Apply, Written, MayShare;
    PairsStay(st.objs, Apply(st, op).objs, st.objs[d].body.entries);
  }

  /** Over every run, the content of a text dictionary is what the sets of the run put into it, whatever else
      is shared, dropped, released or changed in between. */
  lemma {:induction false} EveryRunPuts(st: State, ops: seq<Op>, d: nat)
    requires LegalRun(st, ops) && IsTextDict(st.objs, d)
    ensures var res := RunOps(st, ops).objs;
            IsTextDict(res, d) && ContentOf(res, d) == PutPairs(ContentOf(st.objs, d), SetsOn(d, ops))
    decreases |ops|
  {
    hide Apply, ContentOf, IsTextDict, Legal, PutPair;
    if ops != [] {
      var op, next := ops[0], Apply(st, ops[0]);
      if op.SetKey? && op.d == d {
        SetPuts(st, op);
        assert ([Pair(op.text, op.v)] + SetsOn(d, ops[1..]))[1..] == SetsOn(d, ops[1..]);
      } else {
        OtherOpsKeep(st, op, d);
        assert [] + SetsOn(d, ops[1..]) == SetsOn(d, ops[1..]);
      }
      EveryRunPuts(next, ops[1..], d);
    }
  }

  /** After every run no text occurs twice, the texts are in the order in which they were first set, and each
      has the value it was last given. */
  lemma {:induction false} EveryRunIsOrderedMap(st: State, ops: seq<Op>, d: nat, text: string)
    requires LegalRun(st, ops) && IsTextDict(st.objs, d) && Distinct(KeysOf(ContentOf(st.objs, d).pairs))
    ensures IsTextDict(RunOps(st, ops).objs, d)
    ensures var was, ps := ContentOf(st.objs, d), ContentOf(RunOps(st, ops).objs, d).pairs;
            var sets := Taken(was, SetsOn(d, ops));
            && Distinct(KeysOf(ps)) && KeysOf(ps) == FirstSeen(KeysOf(was.pairs), sets)
            && LookUp(ps, text) == if LastValue(sets, text).Some? then LastValue(sets, text)
               else LookUp(was.pairs, text)
  {
    hide RunOps, ContentOf, IsTextDict, LegalRun, Taken, SetsOn;
    EveryRunPuts(st, ops, d);
    var was := ContentOf(st.objs, d);
    RunIsOrderedMap(was, SetsOn(d, ops), text);
    FirstSeenDistinct(KeysOf(was.pairs), Taken(was, SetsOn(d, ops)));
  }

  /** One set: the text has the new value, every other text keeps its own. */
  lemma {:induction false} SetThenLookUp(st: State, op: Op, other: string)
    requires Legal(st, op) && op.SetKey? && IsTextDict(st.objs, op.d) && Takes(ContentOf(st.objs, op.d), op.v)
    ensures var res := Apply(st, op).objs;
            && IsTextDict(res, op.d)
            && LookUp(ContentOf(res, op.d).pairs, other)
               == if other == op.text then Some(op.v) else LookUp(ContentOf(st.objs, op.d).pairs, other)
  {
    hide Apply, ContentOf, IsTextDict, Legal, LookUp, Upsert;
    SetPuts(st, op);
    UpsertLookUp(ContentOf(st.objs, op.d).pairs, op.text, op.v, other);
  }

  /** With the counts right, the keys of a counted dictionary are alive. */
  lemma {:induction false} KeysAreAlive(st: State, d: nat, i: nat)
    requires Owned(st) && IsTextDict(st.objs, d) && st.objs[d].rc > 0 && i < |st.objs[d].body.entries|
    ensures st.objs[st.objs[d].body.entries[i].key.at].live
  {
    var es := st.objs[d].body.entries;
    var k := es[i].key.at;
    assert IsString(st.objs, es[i].key);
    KeyIsHeld(es, i);
    OwnersUpdate(st.objs, d, st.objs[d], k);
  }

  lemma {:induction false} KeyIsHeld(es: seq<Entry>, i: nat)
    requires i < |es| && es[i].key.Ref?
    ensures es[i].key.at in RefsOf(Flatten(es))
    decreases |es|
  {
    var first := [es[0].key, es[0].value];
    RefsOfConcat(first, Flatten(es[1..]));
    if i == 0 {
      assert first[0] == es[0].key;
    } else {
      KeyIsHeld(es[1..], i - 1);
    }
  }
}
