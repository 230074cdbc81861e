/** The open-addressing dictionary in its own form: an entry array replaced on growth, a probe loop and
    counters updated in place. Each method computes the function of the same name on the table.
    The probe loop ends when it is back at the slot where it began; its invariant is that probing on from
    the current slot finds what probing from the first one finds. Resizing moves the live entries of the
    old array into a new one in the order of their slots. The properties of the functions, and so of the
    class, are proved in module HashTable. */
module HashDict {
  import opened Syntax
  import Store
  import opened H = HashTable

  lemma NextSlot(slot: nat, n: nat)
    requires slot < n
    ensures (slot + 1) % n == if slot + 1 == n then 0 else slot + 1
  {
  }

  class HashedDict {
    var entries: array<Slot>
    var count: int
    var keyType: Store.Type
    var valueType: Store.Type

    constructor (capacity: nat, keyType: Store.Type, valueType: Store.Type)
      ensures Abstract() == State(Empty(capacity), 0, keyType, valueType)
      ensures Refines(Abstract(), map[]) && fresh(entries)
    {
      this.entries := new Slot[capacity](_ => Free);
      this.count, this.keyType, this.valueType := 0, keyType, valueType;
      new;
      assert entries[..] == Empty(capacity);
      NewRefines(capacity, keyType, valueType);
    }

    ghost function Abstract(): State
      reads this, entries
    {
      State(entries[..], count, keyType, valueType)
    }

    /** Follows the key's path until a slot that is free, deleted or holds the key; back at the start the
        table is full. */
    method FindSlot(k: Key) returns (slot: int)
      ensures slot == H.FindSlot(entries[..], k) && -1 <= slot < entries.Length
    {
      hide Home;
      var n := entries.Length;
      if n == 0 {
        return -1;
      }
      var start := Home(k, n);
      slot := start;
      var d := 0;
      ghost var t := entries[..];
      while true
        invariant 0 <= d < n && slot == At(start, d, n)
        invariant Probe(t, k, d) == H.FindSlot(t, k)
        decreases n - d
      {
        assert OnPath(t, k, d) == entries[slot];
        if Stops(entries[slot], k) {
          return;
        }
        NextSlot(slot, n);
        slot := (slot + 1) % n;
        d := d + 1;
        if slot == start {
          return -1;
        }
      }
    }

    method Resize(n: nat)
      modifies this
      ensures Abstract() == H.Resize(old(Abstract()), n)
      ensures entries == old(entries) || fresh(entries)
    {
      if n == 0 {
        return;
      }
      hide H.FindSlot;
      var from := entries;
      ghost var was := from[..];
      entries := new Slot[n](_ => Free);
      count := 0;
      assert entries[..] == Empty(n);
      var i := 0;
      while i < from.Length
        invariant 0 <= i <= from.Length && from[..] == was && fresh(entries) && entries.Length == n
        invariant keyType == old(keyType) && valueType == old(valueType)
        invariant Reinsert(was, i, entries[..], count) == Reinsert(was, 0, Empty(n), 0)
        modifies this, entries
      {
        if from[i].Live? {
          var slot := FindSlot(from[i].key);
          if slot >= 0 {
            ghost var t := entries[..];
            entries[slot] := from[i];
            count := count + 1;
            assert entries[..] == t[slot := was[i]];
          }
        }
        i := i + 1;
      }
    }

    /** Doubles the table when one more entry would load it beyond three quarters. */
    method Grow()
      modifies this
      ensures Abstract() == Grown(old(Abstract()))
      ensures entries == old(entries) || fresh(entries)
    {
      hide H.Resize;
      if entries.Length == 0 {
        Resize(8);
      } else if 4 * (count + 1) > 3 * entries.Length {
        Resize(2 * entries.Length);
      }
    }

    method Put(k: Key, v: Store.Value) returns (ok: bool)
      modifies this, entries
      ensures (Abstract(), ok) == H.Put(old(Abstract()), k, v)
      ensures entries == old(entries)
    {
      hide H.FindSlot;
      ghost var t := entries[..];
      var slot := FindSlot(k);
      if slot < 0 {
        return false;
      }
      if entries[slot].Live? {
        entries[slot] := Live(entries[slot].key, v);
        assert entries[..] == t[slot := Live(t[slot].key, v)];
      } else {
        entries[slot] := Live(k, v);
        count := count + 1;
        assert entries[..] == t[slot := Live(k, v)];
      }
      ok := true;
    }

    method SetSafe(k: Key, v: Store.Value) returns (ok: bool)
      modifies this, entries
      ensures (Abstract(), ok) == H.Set(old(Abstract()), k, v)
      ensures entries == old(entries) || fresh(entries)
    {
      hide H.Put, Grown, KeyType, Store.TypeOf;
      ghost var st := Abstract();
      if !Accepts(keyType, KeyType(k)) || !Accepts(valueType, Store.TypeOf(v)) {
        return false;
      }
      Declare(KeyType(k), Store.TypeOf(v));
      assert Abstract() == Typed(st, k, v);
      Grow();
      ok := Put(k, v);
    }

    /** An undeclared type is fixed by the first entry. */
    method Declare(key: Store.Type, value: Store.Type)
      modifies `keyType, `valueType
      ensures keyType == if old(keyType) == Store.TNil && count == 0 then key else old(keyType)
      ensures valueType == if old(valueType) == Store.TNil && count == 0 then value else old(valueType)
    {
      if keyType == Store.TNil && count == 0 {
        keyType := key;
      }
      if valueType == Store.TNil && count == 0 {
        valueType := value;
      }
    }

    method GetSafe(k: Key) returns (found: Option<Store.Value>)
      ensures found == Get(Abstract(), k)
    {
      if !Accepts(keyType, KeyType(k)) {
        return None;
      }
      var slot := FindSlot(k);
      if slot >= 0 && entries[slot].Live? {
        return Some(entries[slot].value);
      }
      return None;
    }

    method ContainsKey(k: Key) returns (found: bool)
      ensures found <==> Get(Abstract(), k).Some?
    {
      if !Accepts(keyType, KeyType(k)) {
        return false;
      }
      var slot := FindSlot(k);
      found := slot >= 0 && entries[slot].Live?;
    }

    /** Leaves a tombstone. */
    method Remove(k: Key) returns (removed: Option<Store.Value>)
      modifies this, entries
      ensures Abstract() == H.Remove(old(Abstract()), k) && entries == old(entries)
      ensures removed == Get(old(Abstract()), k)
    {
      hide H.FindSlot;
      removed := None;
      if !Accepts(keyType, KeyType(k)) {
        return;
      }
      ghost var t := entries[..];
      var slot := FindSlot(k);
      if slot >= 0 && entries[slot].Live? {
        removed := Some(entries[slot].value);
        entries[slot] := Tomb;
        count := count - 1;
        assert entries[..] == t[slot := Tomb];
      }
    }

    method Clear()
      modifies this, entries
      ensures Abstract() == H.Clear(old(Abstract())) && Refines(Abstract(), map[])
      ensures entries == old(entries)
    {
      var i := 0;
      while i < entries.Length
        invariant 0 <= i <= entries.Length && entries == old(entries)
        invariant keyType == old(keyType) && valueType == old(valueType)
        invariant forall j :: 0 <= j < i ==> entries[j] == Free
      {
        entries[i] := Free;
        i := i + 1;
      }
      count := 0;
      assert entries[..] == Empty(entries.Length);
      ClearRefines(old(Abstract()));
    }
  }
}
