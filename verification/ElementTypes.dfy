/** What arrays and dictionaries hold: once a type is declared, by the first element or from the start, everything
    inside has it, over every run. After nil, a container stays undeclared and takes anything. */
module ElementTypes {
  import opened Syntax
  import opened Store
  import opened Ownership
  import OwnedDict

  predicate AllOf(vs: seq<Value>, t: Type) { forall i :: 0 <= i < |vs| ==> TypeOf(vs[i]) == t }

  function KeysIn(es: seq<Entry>): seq<Value> { seq(|es|, i requires 0 <= i < |es| => es[i].key) }

  function ValuesIn(es: seq<Entry>): seq<Value> { seq(|es|, i requires 0 <= i < |es| => es[i].value) }

  /** A declared type holds of everything inside; with `strict`, only an empty container is undeclared. */
  predicate Typed(b: Body, strict: bool) {
    match b
    case Arr(elem, items) => Holds(elem, items, strict)
    case Dict(kt, vt, es) => Holds(kt, KeysIn(es), strict) && Holds(vt, ValuesIn(es), strict)
    case _ => true
  }

  predicate Holds(declared: Type, vs: seq<Value>, strict: bool) {
    && (declared != TNil ==> AllOf(vs, declared))
    && (strict && declared == TNil ==> vs == [])
  }

  predicate AllTyped(objs: Objs, strict: bool) {
    forall x :: 0 <= x < |objs| ==> Typed(objs[x].body, strict)
  }

  /** New containers start typed; with `strict`, nothing stores nil in an array or a dictionary. */
  predicate Keeps(op: Op, strict: bool) {
    match op
    case New(b) => Typed(b, strict)
    case AppendTo(_, v) => strict ==> v != Nil
    case InsertInto(_, v, _) => strict ==> v != Nil
    case SetIn(_, _, v) => strict ==> v != Nil
    case SetKey(_, _, v) => strict ==> v != Nil
    case _ => true
  }

  function Declared(declared: Type, vs: seq<Value>, v: Value): Type {
    if declared == TNil && vs == [] then TypeOf(v) else declared
  }

  lemma AddKeeps(declared: Type, vs: seq<Value>, i: nat, v: Value, strict: bool)
    requires Holds(declared, vs, strict) && i <= |vs| && (declared == TNil || declared == TypeOf(v))
    requires strict ==> v != Nil
    ensures Holds(Declared(declared, vs, v), vs[..i] + [v] + vs[i..], strict)
  {
  }

  lemma UpdateKeeps(declared: Type, vs: seq<Value>, i: nat, v: Value, strict: bool)
    requires Holds(declared, vs, strict) && i < |vs| && (declared == TNil || declared == TypeOf(v))
    ensures Holds(declared, vs[i := v], strict)
  {
  }

  lemma RemoveKeeps(declared: Type, vs: seq<Value>, i: nat, strict: bool)
    requires Holds(declared, vs, strict) && i < |vs|
    ensures Holds(declared, vs[..i] + vs[i + 1..], strict)
  {
  }

  lemma {:induction false} WrittenIsTyped(st: State, op: Op, strict: bool)
    requires Legal(st, op) && Target(op).Some? && Keeps(op, strict) && Typed(st.objs[Target(op).value].body, strict)
    ensures Typed(Written(st, op), strict)
  {
    hide EntryIndex, FieldIndex, MayShare, Holds;
    var b := st.objs[Target(op).value].body;
    match op
    case AppendTo(_, v) =>
      if ArrayTakes(b, v) {
        AddKeeps(b.elem, b.items, |b.items|, v, strict);
        assert b.items[..|b.items|] + [v] + b.items[|b.items|..] == b.items + [v];
      }
    case InsertInto(_, v, index) =>
      var i := Index(index, |b.items|);
      if ArrayTakes(b, v) && 0 <= i <= |b.items| { AddKeeps(b.elem, b.items, i, v, strict); }
    case SetIn(_, i, v) => if ArrayTakes(b, v) && 0 <= i < |b.items| { UpdateKeeps(b.elem, b.items, i, v, strict); }
    case RemoveFrom(_, index) =>
      var i := Index(index, |b.items|);
      if 0 <= i < |b.items| { RemoveKeeps(b.elem, b.items, i, strict); }
    case SetKey(_, _, _) => KeyIsTyped(st, op, strict);
    case SetField(_, _, _) =>
    case _ =>
  }

  lemma {:induction false} KeyIsTyped(st: State, op: Op, strict: bool)
    requires Legal(st, op) && op.SetKey? && Keeps(op, strict) && Typed(st.objs[op.d].body, strict)
    ensures Typed(Written(st, op), strict)
  {
    hide EntryIndex, MayShare, Holds;
    var Dict(kt, vt, es) := st.objs[op.d].body;
    var k, n := Ref(KStr, |st.objs|), |es|;
    var i := EntryIndex(Alloc(st.objs, Str(op.text)), es, op.text);
    assert es == [] <==> KeysIn(es) == [];
    assert es == [] <==> ValuesIn(es) == [];
    if (kt == TNil || kt == TRef(KStr)) && (vt == TNil || vt == TypeOf(op.v)) {
      if i < n {
        var es' := es[i := Entry(es[i].key, op.v)];
        assert KeysIn(es') == KeysIn(es) && ValuesIn(es') == ValuesIn(es)[i := op.v];
        UpdateKeeps(vt, ValuesIn(es), i, op.v, strict);
      } else {
        var es' := es + [Entry(k, op.v)];
        assert KeysIn(es') == KeysIn(es)[..n] + [k] + KeysIn(es)[n..];
        assert ValuesIn(es') == ValuesIn(es)[..n] + [op.v] + ValuesIn(es)[n..];
        AddKeeps(kt, KeysIn(es), n, k, strict);
        AddKeeps(vt, ValuesIn(es), n, op.v, strict);
      }
    }
  }

  /** What is allocated on the way is a string, an optional or the container asked for. */
  lemma {:induction false} NewBodies(st: State, op: Op, x: nat)
    requires Legal(st, op) && |st.objs| <= x < |Apply(st, op).objs|
    ensures var b := Apply(st, op).objs[x].body; b.Str? || b.Opt? || (op.New? && b == op.body)
  {
    match op
    case SetKey(_, _, _) => OwnedDict.SetStores(st, op);
    case _ => hide Release, Index, FieldIndex, MayShare; Lengths(st, op);
  }

  lemma {:induction false} Lengths(st: State, op: Op)
    requires Legal(st, op) && !op.SetKey?
    ensures |Apply(st, op).objs| == |st.objs| + if op.New? || op.NewSome? then 1 else 0
  {
    hide Release, Index, FieldIndex, MayShare;
  }

  lemma {:induction false} OpKeepsTyped(st: State, op: Op, strict: bool)
    requires Legal(st, op) && AllTyped(st.objs, strict) && Keeps(op, strict)
    ensures AllTyped(Apply(st, op).objs, strict)
  {
    OnlyTheContainerChanges(st, op);
    hide Legal, Apply, Written, Typed;
    var res := Apply(st, op).objs;
    forall x | 0 <= x < |res| ensures Typed(res[x].body, strict) {
      if x >= |st.objs| {
        NewBodies(st, op, x);
        NoContainer(res[x].body, strict);
        KeepsNew(op, strict);
      } else if Some(x) == Target(op) {
        WrittenIsTyped(st, op, strict);
      }
    }
  }

  lemma NoContainer(b: Body, strict: bool)
    ensures b.Str? || b.Opt? ==> Typed(b, strict)
  {
  }

  lemma KeepsNew(op: Op, strict: bool)
    requires Keeps(op, strict)
    ensures op.New? ==> Typed(op.body, strict)
  {
    hide Typed;
  }

  /** Over every run, a declared array or dictionary holds nothing but its type; and if nil is never stored, every
      container that is not empty is declared. */
  lemma {:induction false} EveryRunIsTyped(st: State, ops: seq<Op>, strict: bool)
    requires LegalRun(st, ops) && AllTyped(st.objs, strict) && forall op :: op in ops ==> Keeps(op, strict)
    ensures AllTyped(RunOps(st, ops).objs, strict)
    decreases |ops|
  {
    hide Apply, AllTyped, Keeps, Legal;
    if ops != [] {
      OpKeepsTyped(st, ops[0], strict);
      EveryRunIsTyped(Apply(st, ops[0]), ops[1..], strict);
    }
  }

  /** A value of another type than the declared one is refused, and nothing but that and the index is. */
  lemma {:induction false} AppendIff(objs: Objs, a: nat, v: Value)
    requires a < |objs| && objs[a].body.Arr?
    ensures Append(objs, a, v).ok <==> objs[a].body.elem == TNil || TypeOf(v) == objs[a].body.elem
    ensures !Append(objs, a, v).ok ==> Append(objs, a, v).objs == objs
  {
  }

  /** The first element declares the type of an empty array: afterwards just its type is taken. */
  lemma {:induction false} FirstDeclares(objs: Objs, a: nat, v: Value, w: Value)
    requires a < |objs| && objs[a].body == Arr(TNil, []) && v != Nil
    ensures var one := Append(objs, a, v);
            && one.ok && a < |one.objs| && one.objs[a].body.Arr? && one.objs[a].body.elem == TypeOf(v)
            && (Append(one.objs, a, w).ok <==> TypeOf(w) == TypeOf(v))
  {
  }

  /** Unless it is nil: then the array takes an integer, and a string behind it. */
  lemma {:induction false} NilDeclaresNothing()
    ensures var objs := [Obj(true, 1, Arr(TNil, [])), Obj(true, 1, Str("s"))];
            var three := Append(Append(Append(objs, 0, Nil).objs, 0, Int(1)).objs, 0, Ref(KStr, 1));
            three.ok && three.objs[0].body == Arr(TNil, [Nil, Int(1), Ref(KStr, 1)])
  {
  }
}
