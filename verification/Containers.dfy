/** Arrays and structs as the runtime changes them: a growing buffer of slots with its count, the loops
    that shift the slots, and the counts of what goes in and out. Each operation changes the store as
    the function of the same name in module Ownership does, so the ownership invariant holds of it. */
module Containers {
  import opened Syntax
  import opened Store
  import Ownership
  import opened Heap

  const FIRST_CAPACITY: nat := 8

  class ArrayObject {
    const at: nat
    var items: array<Value>
    var count: nat
    var elem: Type

    /** The slots in use, as the store knows them. */
    function Body(): Body
      requires count <= items.Length
      reads this, items
    {
      Arr(elem, items[..count])
    }

    ghost predicate Valid(m: Manager)
      reads this, items, m
    {
      m.Valid() && count <= items.Length && at < |m.objs| && m.objs[at].body == Body()
    }

    constructor (m: Manager, elem: Type)
      requires m.Valid()
      modifies m`objs, m`nodes
      ensures Valid(m) && fresh(items) && this.elem == elem && count == 0
      ensures m.objs == Ownership.Alloc(old(m.objs), Arr(elem, []))
    {
      var a := m.Alloc(Arr(elem, []));
      at, this.elem, count := a, elem, 0;
      items := new Value[0];
      new;
      assert items[..0] == [];
    }

    /** Doubles a full buffer. */
    method EnsureRoom()
      requires count <= items.Length
      modifies this`items
      ensures count < items.Length && items[..count] == old(items[..count])
      ensures items == old(items) || fresh(items)
      ensures items.Length == if old(items.Length) > count then old(items.Length)
                              else if count == 0 then FIRST_CAPACITY else 2 * count
    {
      if count < items.Length {
        return;
      }
      var bigger := new Value[if items.Length == 0 then FIRST_CAPACITY else 2 * items.Length](_ => Nil);
      var i: nat := 0;
      while i < count
        invariant i <= count && items == old(items) && bigger[..i] == items[..i]
      {
        bigger[i] := items[i];
        i := i + 1;
      }
      items := bigger;
    }

    method Append(m: Manager, v: Value) returns (ok: bool)
      requires Valid(m)
      modifies this, items, m`objs
      ensures Valid(m) && (items == old(items) || fresh(items))
      ensures Ownership.Append(old(m.objs), at, v) == Ownership.Outcome(m.objs, ok)
    {
      if elem != TNil && elem != TypeOf(v) {
        return false;
      }
      ghost var was := items[..count];
      if elem == TNil && count == 0 {
        elem := TypeOf(v);
      }
      EnsureRoom();
      m.Retain(v);
      items[count] := v;
      count := count + 1;
      assert items[..count] == was + [v];
      m.SetBody(at, Body());
      return true;
    }

    /** Moves the slots from `i` on one place up. */
    method ShiftUp(i: nat)
      requires i <= count < items.Length
      modifies items
      ensures items[..i] == old(items[..i]) && items[i + 1..count + 1] == old(items[i..count])
    {
      var k := count;
      while k > i
        invariant i <= k <= count
        invariant items[..k] == old(items[..k]) && items[k + 1..count + 1] == old(items[k..count])
      {
        items[k] := items[k - 1];
        k := k - 1;
      }
    }

    method Insert(m: Manager, v: Value, index: int) returns (ok: bool)
      requires Valid(m)
      modifies this, items, m`objs
      ensures Valid(m) && (items == old(items) || fresh(items))
      ensures Ownership.Insert(old(m.objs), at, v, index) == Ownership.Outcome(m.objs, ok)
    {
      var i := if index < 0 then count + index else index;
      if i < 0 || i > count || (elem != TNil && elem != TypeOf(v)) {
        return false;
      }
      ghost var was := items[..count];
      if elem == TNil && count == 0 {
        elem := TypeOf(v);
      }
      EnsureRoom();
      m.Retain(v);
      OpenSlot(i, v);
      m.SetBody(at, Body());
      return true;
    }

    method OpenSlot(i: nat, v: Value)
      requires i <= count < items.Length
      modifies this`count, items
      ensures count == old(count) + 1 && items[..count] == old(items[..count][..i] + [v] + items[..count][i..])
    {
      assert items[..count][..i] == items[..i] && items[..count][i..] == items[i..count];
      ShiftUp(i);
      items[i] := v;
      count := count + 1;
      assert items[..count] == items[..i] + [v] + items[i + 1..count];
    }

    /** The old value leaves its slot and is released before the new one is cloned into it. */
    method Replace(m: Manager, i: nat, v: Value)
      requires Valid(m) && i < count
      modifies items, m`objs, m`nodes
      ensures Valid(m)
      ensures var was := old(items[..count]);
              m.objs == Ownership.Swap(old(m.objs), at, Arr(elem, was[i := Nil]), was[i], Arr(elem, was[i := v]), v)
    {
      ghost var was := items[..count];
      var old' := items[i];
      items[i] := Nil;
      assert items[..count] == was[i := Nil];
      m.SetBody(at, Body());
      m.ReleaseValue(old');
      m.Retain(v);
      items[i] := v;
      assert items[..count] == was[i := v];
      m.SetBody(at, Body());
    }

    method Set(m: Manager, i: int, v: Value) returns (ok: bool)
      requires Valid(m)
      modifies items, m`objs, m`nodes
      ensures Valid(m)
      ensures Ownership.SetItem(old(m.objs), at, i, v) == Ownership.Outcome(m.objs, ok)
    {
      if i < 0 || i >= count || (elem != TNil && elem != TypeOf(v)) {
        return false;
      }
      Replace(m, i, v);
      return true;
    }

    /** Negative indices count from the end. */
    method SetSafe(m: Manager, index: int, v: Value) returns (ok: bool)
      requires Valid(m)
      modifies items, m`objs, m`nodes
      ensures Valid(m)
      ensures Ownership.SetItem(old(m.objs), at, Ownership.Index(index, count), v) == Ownership.Outcome(m.objs, ok)
    {
      ok := Set(m, if index < 0 then count + index else index, v);
    }

    /** Moves the slots after `i` one place down. */
    method ShiftDown(i: nat)
      requires i < count <= items.Length
      modifies items
      ensures items[..count - 1] == old(items[..i] + items[i + 1..count])
    {
      var k := i;
      while k < count - 1
        invariant i <= k <= count - 1
        invariant items[..k] == old(items[..i] + items[i + 1..k + 1])
        invariant items[k + 1..count] == old(items[k + 1..count])
      {
        assert items[k + 1] == items[k + 1..count][0];
        items[k] := items[k + 1];
        k := k + 1;
      }
    }

    method CloseSlot(i: nat)
      requires i < count <= items.Length
      modifies this`count, items
      ensures count == old(count) - 1 && items[..count] == old(items[..count][..i] + items[..count][i + 1..])
    {
      assert items[..count][..i] == items[..i] && items[..count][i + 1..] == items[i + 1..count];
      ShiftDown(i);
      count := count - 1;
    }

    method ClearSlot(i: nat)
      requires i < count <= items.Length
      modifies items
      ensures items[..count] == old(items[..count])[i := Nil]
    {
      items[i] := Nil;
    }

    /** The caller gets its own reference to the removed value; the one of the slot is released. */
    method RemoveAt(m: Manager, index: int) returns (v: Value)
      requires Valid(m)
      modifies this`count, items, m`objs, m`nodes
      ensures Valid(m) && (m.objs, v) == Ownership.RemoveAt(old(m.objs), at, index)
    {
      hide Store.Release;
      var i := if index < 0 then count + index else index;
      if i < 0 || i >= count {
        return Nil;
      }
      ghost var was := items[..count];
      v := items[i];
      m.Retain(v);
      ClearSlot(i);
      m.SetBody(at, Body());
      m.ReleaseValue(v);
      assert was[i := Nil][..i] + was[i := Nil][i + 1..] == was[..i] + was[i + 1..];
      CloseSlot(i);
      m.SetBody(at, Body());
    }
  }

  class StructObject {
    const at: nat
    const names: seq<string>
    const values: array<Value>

    function Body(): Body
      reads values
    {
      Struct(names, values[..])
    }

    ghost predicate Valid(m: Manager)
      reads values, m
    {
      m.Valid() && |names| == values.Length && at < |m.objs| && m.objs[at].body == Body()
    }

    /** All fields start out nil. */
    constructor (m: Manager, names: seq<string>)
      requires m.Valid()
      modifies m`objs, m`nodes
      ensures Valid(m) && fresh(values) && this.names == names && forall v :: v in values[..] ==> v == Nil
      ensures m.objs == Ownership.Alloc(old(m.objs), Struct(names, values[..]))
    {
      var vs := new Value[|names|](_ => Nil);
      var a := m.Alloc(Struct(names, vs[..]));
      at, this.names, values := a, names, vs;
    }

    method FindFieldIndex(name: string) returns (i: nat)
      ensures i == Ownership.FieldIndex(names, name)
    {
      i := 0;
      while i < |names|
        invariant i <= |names| && Ownership.FieldIndex(names, name) == i + Ownership.FieldIndex(names[i..], name)
      {
        if names[i] == name {
          return;
        }
        assert names[i..][1..] == names[i + 1..];
        i := i + 1;
      }
    }

    /** An unknown field is ignored. */
    method SetField(m: Manager, name: string, v: Value)
      requires Valid(m)
      modifies values, m`objs, m`nodes
      ensures Valid(m) && m.objs == Ownership.StructSet(old(m.objs), at, name, v)
    {
      var i := FindFieldIndex(name);
      if i < |names| {
        ghost var was := values[..];
        var old' := values[i];
        values[i] := Nil;
        assert values[..] == was[i := Nil];
        m.SetBody(at, Body());
        m.ReleaseValue(old');
        m.Retain(v);
        values[i] := v;
        assert values[..] == was[i := v];
        m.SetBody(at, Body());
      }
    }
  }

  /** `bread_optional_new_some`: the optional owns its own reference to the value. */
  method NewSome(m: Manager, v: Value) returns (at: nat)
    requires m.Valid()
    modifies m`objs, m`nodes
    ensures m.Valid() && at == old(|m.objs|)
    ensures m.objs == Ownership.Alloc(Store.Retain(old(m.objs), v), Opt(Some(v)))
  {
    m.Retain(v);
    at := m.Alloc(Opt(Some(v)));
  }

  // ---------------------------------------------------------------- what one operation undoes

  /** Taking out what was put in gives back the array as it was; the caller is left with the one new
      reference that it asked for. */
  lemma {:induction false} RemoveUndoesInsert(objs: Objs, a: nat, v: Value, index: int)
    requires a < |objs| && objs[a].body.Arr? && Ownership.Insert(objs, a, v, index).ok
    requires v.Ref? ==> v.at < |objs| && 0 < objs[v.at].rc && objs[v.at].rc + 1 < MAX_REFCOUNT
    ensures var items := objs[a].body.items;
            Ownership.RemoveAt(Ownership.Insert(objs, a, v, index).objs, a, Ownership.Index(index, |items|))
            == (Ownership.WithBody(Store.Retain(objs, v), a,
                                   Arr(Ownership.ElemType(objs[a].body.elem, items, v), items)), v)
  {
    var Arr(elem, items) := objs[a].body;
    var i := Ownership.Index(index, |items|);
    var objs1 := Ownership.Insert(objs, a, v, index).objs;
    var full := items[..i] + [v] + items[i..];
    assert full[i] == v && full[..i] == items[..i] && full[i + 1..] == items[i..];
    assert items[..i] + items[i..] == items;
    var res := Ownership.RemoveAt(objs1, a, i);
    if v.Ref? {
      var held := Ownership.WithBody(Store.Retain(objs1, v), a, Arr(objs1[a].body.elem, full[i := Nil]));
      assert held[v.at].rc > 1;
      assert Store.Release(held, v.at) == held[v.at := held[v.at].(rc := held[v.at].rc - 1)];
    }
    assert res.0 == Ownership.WithBody(Store.Retain(objs, v), a, Arr(objs1[a].body.elem, items));
  }

  /** Negative indices count from the end: -k means the k-th item from the last one. Beyond either end there
      is nothing to remove, and an insertion is refused. */
  lemma {:induction false} NegativeIndices(objs: Objs, a: nat, v: Value, k: nat)
    requires a < |objs| && objs[a].body.Arr? && k > 0
    requires objs[a].body.elem == TNil || objs[a].body.elem == TypeOf(v)
    ensures var items := objs[a].body.items;
            var put, got := Ownership.Insert(objs, a, v, 0 - k), Ownership.RemoveAt(objs, a, 0 - k);
            && (k <= |items| ==>
                  && put.ok && put.objs[a].body.Arr? && |put.objs[a].body.items| == |items| + 1
                  && put.objs[a].body.items[|items| - k] == v
                  && put.objs[a].body.items[|items| - k + 1] == items[|items| - k]
                  && got.1 == items[|items| - k]
                  && got == Ownership.RemoveAt(objs, a, |items| - k))
            && (k > |items| ==> put == Ownership.Outcome(objs, false) && got == (objs, Nil))
  {
    hide Ownership.ReleaseValue;
  }

  /** So -1 takes the last item and inserts in front of it. */
  lemma {:induction false} MinusOneIsLast(objs: Objs, a: nat, v: Value)
    requires a < |objs| && objs[a].body.Arr? && objs[a].body.items != []
    requires objs[a].body.elem == TNil || objs[a].body.elem == TypeOf(v)
    ensures var items := objs[a].body.items;
            var n := |items| - 1;
            && Ownership.RemoveAt(objs, a, -1).1 == items[n]
            && Ownership.Insert(objs, a, v, -1).objs[a].body.Arr?
            && Ownership.Insert(objs, a, v, -1).objs[a].body.items == items[..n] + [v, items[n]]
  {
    hide Ownership.ReleaseValue;
    var items := objs[a].body.items;
    var n := |items| - 1;
    assert items[n..] == [items[n]];
  }
}
