/** Lists of pairs in the order in which their keys first appeared: the map that a scanned dictionary stands
    for, whatever its keys are. */
module OrderedMap {
  import opened Syntax
  import Store
  import H = HashTable

  datatype Pair<T> = Pair(text: T, value: Store.Value)

  // ---------------------------------------------------------------- the list of pairs

  function LookUp<T(==)>(ps: seq<Pair<T>>, text: T): Option<Store.Value> {
    if ps == [] then None
    else if ps[0].text == text then Some(ps[0].value)
    else LookUp(ps[1..], text)
  }

  /** Overwrites the value of the key in place, or appends the pair. */
  function Upsert<T(==)>(ps: seq<Pair<T>>, text: T, v: Store.Value): seq<Pair<T>> {
    if ps == [] then [Pair(text, v)]
    else if ps[0].text == text then [Pair(text, v)] + ps[1..]
    else [ps[0]] + Upsert(ps[1..], text, v)
  }

  function KeysOf<T(==)>(ps: seq<Pair<T>>): seq<T> { if ps == [] then [] else [ps[0].text] + KeysOf(ps[1..]) }

  function AddKey<T(==)>(ks: seq<T>, text: T): seq<T> { if text in ks then ks else ks + [text] }

  lemma {:induction false} UpsertLookUp<T>(ps: seq<Pair<T>>, text: T, v: Store.Value, other: T)
    ensures LookUp(Upsert(ps, text, v), other) == if other == text then Some(v) else LookUp(ps, other)
    decreases |ps|
  {
    if ps != [] && ps[0].text != text {
      assert Upsert(ps, text, v)[1..] == Upsert(ps[1..], text, v);
      UpsertLookUp(ps[1..], text, v, other);
    } else if ps != [] {
      assert Upsert(ps, text, v)[1..] == ps[1..];
    } else {
      assert [Pair(text, v)][1..] == [];
    }
  }

  lemma {:induction false} UpsertKeys<T>(ps: seq<Pair<T>>, text: T, v: Store.Value)
    ensures KeysOf(Upsert(ps, text, v)) == AddKey(KeysOf(ps), text)
    decreases |ps|
  {
    if ps == [] {
      assert [Pair(text, v)][1..] == [];
    } else if ps[0].text == text {
      assert Upsert(ps, text, v)[1..] == ps[1..];
    } else {
      assert Upsert(ps, text, v)[1..] == Upsert(ps[1..], text, v);
      UpsertKeys(ps[1..], text, v);
      assert KeysOf(ps)[1..] == KeysOf(ps[1..]);
    }
  }

  lemma {:induction false} UpsertAt<T>(ps: seq<Pair<T>>, i: nat, text: T, v: Store.Value)
    requires i <= |ps| && forall j :: 0 <= j < i ==> ps[j].text != text
    requires i < |ps| ==> ps[i].text == text
    ensures Upsert(ps, text, v) == if i < |ps| then ps[i := Pair(text, v)] else ps + [Pair(text, v)]
    decreases |ps|
  {
    var p := Pair(text, v);
    if ps == [] {
      assert ps + [p] == [p];
    } else if i == 0 {
      assert [p] + ps[1..] == ps[0 := p];
    } else {
      UpsertAt(ps[1..], i - 1, text, v);
      assert ps == [ps[0]] + ps[1..];
      if i < |ps| {
        assert [ps[0]] + ps[1..][i - 1 := p] == ps[i := p];
      } else {
        assert [ps[0]] + (ps[1..] + [p]) == ps + [p];
      }
    }
  }

  lemma {:induction false} LookUpAt<T>(ps: seq<Pair<T>>, i: nat, text: T)
    requires i <= |ps| && forall j :: 0 <= j < i ==> ps[j].text != text
    requires i < |ps| ==> ps[i].text == text
    ensures LookUp(ps, text) == if i < |ps| then Some(ps[i].value) else None
    decreases |ps|
  {
    if i > 0 { LookUpAt(ps[1..], i - 1, text); }
  }

  lemma {:induction false} KeysAt<T>(ps: seq<Pair<T>>)
    ensures |KeysOf(ps)| == |ps| && forall i :: 0 <= i < |ps| ==> KeysOf(ps)[i] == ps[i].text
    decreases |ps|
  {
    if ps != [] { KeysAt(ps[1..]); }
  }

  predicate Distinct<T(==)>(ks: seq<T>) { forall i, j :: 0 <= i < j < |ks| ==> ks[i] != ks[j] }

  // ---------------------------------------------------------------- runs of set

  datatype Content<T> = Content(pairs: seq<Pair<T>>, keyType: Store.Type, valueType: Store.Type)

  predicate Takes<T>(c: Content<T>, v: Store.Value) {
    H.Accepts(c.keyType, Store.TRef(Store.KStr)) && H.Accepts(c.valueType, Store.TypeOf(v))
  }

  function PutPair<T(==)>(c: Content<T>, text: T, v: Store.Value): Content<T> {
    if !Takes(c, v) then c
    else
      Content(Upsert(c.pairs, text, v),
              if c.keyType == Store.TNil && c.pairs == [] then Store.TRef(Store.KStr) else c.keyType,
              if c.valueType == Store.TNil && c.pairs == [] then Store.TypeOf(v) else c.valueType)
  }

  function PutPairs<T(==)>(c: Content<T>, ps: seq<Pair<T>>): Content<T>
    decreases |ps|
  {
    if ps == [] then c else PutPairs(PutPair(c, ps[0].text, ps[0].value), ps[1..])
  }

  /** The pairs of the run that are not rejected for their type. */
  function Taken<T(==)>(c: Content<T>, ps: seq<Pair<T>>): seq<Pair<T>>
    decreases |ps|
  {
    if ps == [] then []
    else (if Takes(c, ps[0].value) then [ps[0]] else []) + Taken(PutPair(c, ps[0].text, ps[0].value), ps[1..])
  }

  function FirstSeen<T(==)>(ks: seq<T>, ps: seq<Pair<T>>): seq<T>
    decreases |ps|
  {
    if ps == [] then ks else FirstSeen(AddKey(ks, ps[0].text), ps[1..])
  }

  function LastValue<T(==)>(ps: seq<Pair<T>>, text: T): Option<Store.Value> {
    if ps == [] then None
    else if ps[|ps| - 1].text == text then Some(ps[|ps| - 1].value)
    else LastValue(ps[..|ps| - 1], text)
  }

  lemma {:induction false} LastOfConcat<T>(p: Pair<T>, ps: seq<Pair<T>>, text: T)
    ensures LastValue([p] + ps, text)
            == if LastValue(ps, text).Some? then LastValue(ps, text) else if p.text == text then Some(p.value) else None
    decreases |ps|
  {
    var all := [p] + ps;
    if ps == [] {
      assert all == [p] && [p][..0] == [];
    } else {
      assert all[..|all| - 1] == [p] + ps[..|ps| - 1];
      LastOfConcat(p, ps[..|ps| - 1], text);
    }
  }

  /** After any run of sets: the keys are those of the accepted pairs in first-seen order, and every key has
      the value it was last given. */
  lemma {:induction false} RunIsOrderedMap<T>(c: Content<T>, ps: seq<Pair<T>>, text: T)
    ensures var res := PutPairs(c, ps);
            && KeysOf(res.pairs) == FirstSeen(KeysOf(c.pairs), Taken(c, ps))
            && LookUp(res.pairs, text)
               == if LastValue(Taken(c, ps), text).Some? then LastValue(Taken(c, ps), text) else LookUp(c.pairs, text)
    decreases |ps|
  {
    if ps != [] {
      var p, next := ps[0], PutPair(c, ps[0].text, ps[0].value);
      var rest := Taken(next, ps[1..]);
      RunIsOrderedMap(next, ps[1..], text);
      if Takes(c, p.value) {
        UpsertKeys(c.pairs, p.text, p.value);
        UpsertLookUp(c.pairs, p.text, p.value, text);
        LastOfConcat(p, rest, text);
        assert ([p] + rest)[1..] == rest;
      } else {
        assert Taken(c, ps) == rest;
      }
    }
  }

  /** First-seen order repeats no key. */
  lemma {:induction false} FirstSeenDistinct<T>(ks: seq<T>, ps: seq<Pair<T>>)
    requires Distinct(ks)
    ensures Distinct(FirstSeen(ks, ps))
    ensures forall t :: t in FirstSeen(ks, ps) <==> t in ks || t in KeysOf(ps)
    decreases |ps|
  {
    if ps != [] { FirstSeenDistinct(AddKey(ks, ps[0].text), ps[1..]); }
  }

  // ---------------------------------------------------------------- what is taken

  function OfType<T>(ps: seq<Pair<T>>, t: Store.Type): seq<Pair<T>>
    decreases |ps|
  {
    if ps == [] then [] else (if Store.TypeOf(ps[0].value) == t then [ps[0]] else []) + OfType(ps[1..], t)
  }

  lemma {:induction false} TakenAre<T>(c: Content<T>, ps: seq<Pair<T>>)
    requires c.keyType == Store.TRef(Store.KStr) && c.valueType != Store.TNil
    ensures Taken(c, ps) == OfType(ps, c.valueType)
    decreases |ps|
  {
    if ps != [] { TakenAre(PutPair(c, ps[0].text, ps[0].value), ps[1..]); }
  }

  /** In a new dictionary without declared types the first value declares them: it is taken, and after it just
      the values of its type. */
  lemma {:induction false} FirstTypeDecides<T>(text: T, v: Store.Value, ps: seq<Pair<T>>)
    requires v != Store.Nil
    ensures Taken(Content([], Store.TNil, Store.TNil), [Pair(text, v)] + ps)
            == [Pair(text, v)] + OfType(ps, Store.TypeOf(v))
  {
    var c := Content<T>.Content([], Store.TNil, Store.TNil);
    var all := [Pair(text, v)] + ps;
    assert all[1..] == ps;
    TakenAre(PutPair(c, text, v), ps);
  }
}
