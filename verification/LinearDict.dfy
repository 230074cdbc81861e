/** The dictionary the language uses: the same entry table filled from the front, searched by scanning.
    It refines a list of pairs in the order in which the keys first appeared. */
module LinearDict {
  import opened Syntax
  import Store
  import opened H = HashTable
  import opened OrderedMap

  type Text = seq<Byte>

  type TextPair = Pair<Text>

  // ---------------------------------------------------------------- the table

  function Filled(ps: seq<TextPair>): Table {
    seq(|ps|, i requires 0 <= i < |ps| => Live(TextKey(ps[i].text), ps[i].value))
  }

  lemma FilledAppend(ps: seq<TextPair>, p: TextPair)
    ensures Filled(ps + [p]) == Filled(ps) + [Live(TextKey(p.text), p.value)]
  {
  }

  lemma FilledUpdate(ps: seq<TextPair>, i: nat, p: TextPair)
    requires i < |ps|
    ensures Filled(ps[i := p]) == Filled(ps)[i := Live(TextKey(p.text), p.value)]
  {
  }

  lemma {:induction false} NotBefore(ps: seq<TextPair>, i: nat)
    requires i < |ps| && Distinct(KeysOf(ps))
    ensures ps[i].text !in KeysOf(ps[..i]) && ps[..i] + [ps[i]] == ps[..i + 1]
  {
    KeysAt(ps);
    KeysAt(ps[..i]);
  }

  class ScannedDict {
    var entries: array<Slot>
    var count: int
    var keyType: Store.Type
    var valueType: Store.Type
    ghost var pairs: seq<TextPair>

    /** The live entries are the first `count` slots and the rest of the table is free. */
    ghost predicate Valid()
      reads this, entries
    {
      && count == |pairs| <= entries.Length
      && entries[..] == Filled(pairs) + Empty(entries.Length - |pairs|)
      && Distinct(KeysOf(pairs))
    }

    ghost function Abstract(): Content<Text>
      reads this
    {
      Content(pairs, keyType, valueType)
    }

    constructor (capacity: nat, keyType: Store.Type, valueType: Store.Type)
      ensures Valid() && fresh(entries) && Abstract() == Content([], keyType, valueType)
    {
      this.entries := new Slot[capacity](_ => Free);
      this.count, this.keyType, this.valueType, this.pairs := 0, keyType, valueType, [];
      new;
      assert entries[..] == Filled([]) + Empty(capacity);
    }

    lemma SlotIs(i: nat)
      requires Valid() && i < entries.Length
      ensures i < |pairs| ==> entries[i] == Live(TextKey(pairs[i].text), pairs[i].value)
      ensures i >= |pairs| ==> entries[i] == Free
    {
      assert entries[i] == entries[..][i];
    }

    /** The first live slot with the key, or the capacity. */
    method Scan(text: Text) returns (i: nat)
      requires Valid()
      ensures i == entries.Length || i < |pairs|
      ensures forall j :: 0 <= j < i && j < |pairs| ==> pairs[j].text != text
      ensures i < entries.Length ==> pairs[i].text == text
    {
      i := 0;
      while i < entries.Length
        invariant 0 <= i <= entries.Length
        invariant forall j :: 0 <= j < i && j < |pairs| ==> pairs[j].text != text
      {
        SlotIs(i);
        if entries[i].Live? && entries[i].key == TextKey(text) {
          return;
        }
        i := i + 1;
      }
    }

    method Get(text: Text) returns (found: Option<Store.Value>)
      requires Valid()
      ensures found == LookUp(pairs, text)
    {
      var i := Scan(text);
      if i < entries.Length {
        SlotIs(i);
        LookUpAt(pairs, i, text);
        return Some(entries[i].value);
      }
      LookUpAt(pairs, |pairs|, text);
      return None;
    }

    /** The first slot that is not live. */
    method FirstOpen() returns (i: nat)
      requires Valid()
      ensures i == |pairs| <= entries.Length
    {
      i := 0;
      while i < entries.Length
        invariant 0 <= i <= |pairs|
      {
        SlotIs(i);
        if !entries[i].Live? {
          return;
        }
        i := i + 1;
      }
    }

    /** Puts one live entry behind the others. */
    method Append(e: Slot, ghost p: TextPair)
      requires Valid() && |pairs| < entries.Length && p.text !in KeysOf(pairs)
      requires e == Live(TextKey(p.text), p.value)
      modifies this`count, this`pairs, entries
      ensures Valid() && pairs == old(pairs) + [p] && entries == old(entries)
    {
      var slot := FirstOpen();
      ghost var t := entries[..];
      FilledAppend(pairs, p);
      AppendKeys(pairs, p);
      entries[slot] := e;
      assert entries[..] == t[slot := e];
      count := count + 1;
      pairs := pairs + [p];
    }

    /** Moves every entry into a table of twice the capacity, in order. */
    method Grow()
      requires Valid()
      modifies this`entries, this`count, this`pairs
      ensures Valid() && pairs == old(pairs) && fresh(entries)
      ensures entries.Length == if old(entries.Length) == 0 then 8 else 2 * old(entries.Length)
    {
      var from, n := entries, if entries.Length == 0 then 8 else 2 * entries.Length;
      ghost var all := pairs;
      forall j | 0 <= j < from.Length { SlotIs(j); }
      entries := new Slot[n](_ => Free);
      count, pairs := 0, [];
      assert entries[..] == Filled([]) + Empty(n);
      hide Filled, Empty, KeysOf, Distinct;
      var i := 0;
      while i < from.Length
        invariant 0 <= i <= from.Length && fresh(entries) && entries.Length == n
        invariant Valid() && pairs == all[..if i < |all| then i else |all|]
        modifies this`count, this`pairs, entries
      {
        if from[i].Live? {
          NotBefore(all, i);
          Append(from[i], all[i]);
        }
        i := i + 1;
      }
      assert all[..|all|] == all;
    }

    /** Stores the value under the key. Fails only for a type the dictionary does not accept. */
    method Set(text: Text, v: Store.Value) returns (ok: bool)
      requires Valid()
      modifies this, entries
      ensures Valid() && Abstract() == PutPair(old(Abstract()), text, v)
      ensures ok <==> Takes(old(Abstract()), v)
      ensures entries == old(entries) || fresh(entries)
    {
      if !Accepts(keyType, Store.TRef(Store.KStr)) || !Accepts(valueType, Store.TypeOf(v)) {
        return false;
      }
      Declare(Store.TypeOf(v));
      ok := true;
      var i := Scan(text);
      if i < entries.Length {
        Overwrite(i, v);
      } else {
        Insert(text, v);
      }
    }

    /** An undeclared type is fixed by the first entry. */
    method Declare(value: Store.Type)
      modifies `keyType, `valueType
      ensures keyType == if old(keyType) == Store.TNil && count == 0 then Store.TRef(Store.KStr) else old(keyType)
      ensures valueType == if old(valueType) == Store.TNil && count == 0 then value else old(valueType)
    {
      if keyType == Store.TNil && count == 0 {
        keyType := Store.TRef(Store.KStr);
      }
      if valueType == Store.TNil && count == 0 {
        valueType := value;
      }
    }

    /** Adds a key that is not there, growing a table that is three quarters full first. */
    method Insert(text: Text, v: Store.Value)
      requires Valid() && forall j :: 0 <= j < |pairs| ==> pairs[j].text != text
      modifies this`entries, this`count, this`pairs, entries
      ensures Valid() && pairs == Upsert(old(pairs), text, v)
      ensures entries == old(entries) || fresh(entries)
    {
      UpsertAt(pairs, |pairs|, text, v);
      KeysAt(pairs);
      hide KeysOf, Upsert, Filled, Empty;
      if 4 * count >= 3 * entries.Length {
        Grow();
      }
      Append(Live(TextKey(text), v), Pair(text, v));
    }

    method Overwrite(i: nat, v: Store.Value)
      requires Valid() && i < |pairs|
      modifies this`pairs, entries
      ensures Valid() && pairs == Upsert(old(pairs), old(pairs)[i].text, v)
    {
      SlotIs(i);
      KeysAt(pairs);
      UpsertAt(pairs, i, pairs[i].text, v);
      UpsertKeys(pairs, pairs[i].text, v);
      assert pairs[i].text in KeysOf(pairs) by { assert KeysOf(pairs)[i] == pairs[i].text; }
      ghost var t, p := entries[..], Pair(pairs[i].text, v);
      entries[i] := Live(entries[i].key, v);
      assert entries[..] == t[i := Live(TextKey(p.text), v)];
      FilledUpdate(pairs, i, p);
      pairs := pairs[i := p];
    }

    /** The keys in the order in which they were first set. */
    method Keys() returns (ks: seq<Key>)
      requires Valid()
      ensures |ks| == |KeysOf(pairs)| && forall i :: 0 <= i < |ks| ==> ks[i] == TextKey(KeysOf(pairs)[i])
    {
      KeysAt(pairs);
      ks := [];
      var i := 0;
      while i < entries.Length
        invariant 0 <= i <= entries.Length
        invariant |ks| == if i < |pairs| then i else |pairs|
        invariant forall j :: 0 <= j < |ks| ==> ks[j] == TextKey(pairs[j].text)
      {
        SlotIs(i);
        if entries[i].Live? {
          ks := ks + [entries[i].key];
        }
        i := i + 1;
      }
    }
  }

  lemma {:induction false} AppendKeys(ps: seq<TextPair>, p: TextPair)
    ensures KeysOf(ps + [p]) == KeysOf(ps) + [p.text]
    decreases |ps|
  {
    if ps == [] {
      assert [] + [p] == [p] && [p][1..] == [];
    } else {
      assert (ps + [p])[1..] == ps[1..] + [p];
      AppendKeys(ps[1..], p);
    }
  }
}
