/** The compilation of expressions onto raw machine values: straight-line code in which each instruction
    adds one register, with the runtime operators as the fallback. */
module Unboxing {
  import opened Values

  // ---------------------------------------------------------------- code

  datatype Kind = KInt | KDouble | KBool | KBoxed

  datatype Cell<D> = I64(n: int) | F64(d: D) | I1(b: bool) | Ptr(v: Value<D>)

  datatype Instr<D> =
    | ConstInt(n: int)
    | ConstDouble(d: D)
    | ConstBool(bit: bool)
    | LoadRaw(name: string)
    | LoadBoxed(name: string)
    | EvalOther(v: Value<D>)
    | Ints(op: Op, a: nat, b: nat)
    | Doubles(op: Op, a: nat, b: nat)
    | NegInt(a: nat)
    | NegDouble(a: nat)
    | Flip(a: nat)
    | BoxUp(a: nat)
    | CallBinary(op: Op, a: nat, b: nat)
    | CallNot(a: nat)
    | EmptySlot

  type Code<D> = seq<Instr<D>>

  /** The static kind of each local variable that lives unboxed; the others are boxed. */
  type Kinds = map<string, Kind>

  function KindOf(kinds: Kinds, name: string): Kind { if name in kinds then kinds[name] else KBoxed }

  predicate CanUnbox<D>(e: Expr<D>) {
    match e
    case Other(_) => false
    case Binary(_, l, r) => CanUnbox(l) && CanUnbox(r)
    case Minus(x) => CanUnbox(x)
    case Not(x) => CanUnbox(x)
    case _ => true
  }

  /** What compiling an expression yields: its code, the kind of its result and the result's register. */
  datatype Compiled<D> = Compiled(code: Code<D>, kind: Kind, reg: nat)

  function Boxed<D>(c: Compiled<D>, base: nat): Compiled<D> {
    if c.kind == KBoxed then c else Compiled(c.code + [BoxUp(c.reg)], KBoxed, base + |c.code|)
  }

  function IntKind(op: Op): Kind { if op.Eq? || op.Lt? || op.Gt? then KBool else KInt }

  predicate IntFast(op: Op) { op.Add? || op.Sub? || op.Mul? || op.Div? || op.Mod? || op.Eq? || op.Lt? || op.Gt? }

  function DoubleKind(op: Op): Kind { if op.Eq? || op.Lt? || op.Gt? then KBool else KDouble }

  predicate DoubleFast(op: Op) { op.Add? || op.Sub? || op.Mul? || op.Div? || op.Eq? || op.Lt? || op.Gt? }

  function Compile<D>(kinds: Kinds, e: Expr<D>, base: nat): Compiled<D>
    decreases e
  {
    match e
    case IntLit(n) => Compiled([ConstInt(n)], KInt, base)
    case BoolLit(b) => Compiled([ConstBool(b)], KBool, base)
    case DoubleLit(d) => Compiled([ConstDouble(d)], KDouble, base)
    case Var(x) =>
      if KindOf(kinds, x) == KBoxed then Compiled([LoadBoxed(x)], KBoxed, base)
      else Compiled([LoadRaw(x)], KindOf(kinds, x), base)
    case Other(v) => Compiled([EvalOther(v)], KBoxed, base)
    case Binary(op, l, r) =>
      if CanUnbox(e) then
        var cl := Compile(kinds, l, base);
        var cr := Compile(kinds, r, base + |cl.code|);
        CompileUnboxed(op, cl, cr, base)
      else
        var cl := Boxed(Compile(kinds, l, base), base);
        var cr := Boxed(Compile(kinds, r, base + |cl.code|), base + |cl.code|);
        CompileCall(op, cl, cr, base)
    case Minus(x) =>
      var c := Compile(kinds, x, base);
      if CanUnbox(x) then CompileMinus(c, base) else CompileSubtract(Boxed(c, base), base)
    case Not(x) => CompileNot(CanUnbox(x), Compile(kinds, x, base), base)
  }

  function CompileCall<D>(op: Op, cl: Compiled<D>, cr: Compiled<D>, base: nat): Compiled<D> {
    var code := cl.code + cr.code;
    Compiled(code + [CallBinary(op, cl.reg, cr.reg)], KBoxed, base + |code|)
  }

  /** Negation by the runtime: zero minus the operand. */
  function CompileSubtract<D>(cx: Compiled<D>, base: nat): Compiled<D> {
    var n := base + |cx.code|;
    Compiled(cx.code + [ConstInt(0), BoxUp(n), CallBinary(Sub, n + 1, cx.reg)], KBoxed, n + 2)
  }

  function CompileNot<D>(raw: bool, c: Compiled<D>, base: nat): Compiled<D> {
    if raw && c.kind == KBool then Compiled(c.code + [Flip(c.reg)], KBool, base + |c.code|)
    else
      var cx := Boxed(c, base);
      Compiled(cx.code + [CallNot(cx.reg)], KBoxed, base + |cx.code|)
  }

  /** Two operands already compiled one after the other: raw code if both are raw of one kind and the
      operator has a raw form, otherwise both are boxed and the runtime is called. */
  function CompileUnboxed<D>(op: Op, cl: Compiled<D>, cr: Compiled<D>, base: nat): Compiled<D> {
    var code := cl.code + cr.code;
    var n := base + |code|;
    if cl.kind == KInt && cr.kind == KInt && IntFast(op)
    then Compiled(code + [Ints(op, cl.reg, cr.reg)], IntKind(op), n)
    else if cl.kind == KDouble && cr.kind == KDouble && DoubleFast(op)
    then Compiled(code + [Doubles(op, cl.reg, cr.reg)], DoubleKind(op), n)
    else
      var bl := Boxed(Compiled(code, cl.kind, cl.reg), base);
      var br := Boxed(Compiled(bl.code, cr.kind, cr.reg), base);
      Compiled(br.code + [CallBinary(op, bl.reg, br.reg)], KBoxed, base + |br.code|)
  }

  /** A boxed or boolean operand leaves the result slot empty. */
  function CompileMinus<D>(c: Compiled<D>, base: nat): Compiled<D> {
    if c.kind == KInt then Compiled(c.code + [NegInt(c.reg)], KInt, base + |c.code|)
    else if c.kind == KDouble then Compiled(c.code + [NegDouble(c.reg)], KDouble, base + |c.code|)
    else
      var cx := Boxed(c, base);
      Compiled(cx.code + [EmptySlot], KBoxed, base + |cx.code|)
  }

  // ---------------------------------------------------------------- machine

  /** 64-bit two's complement. */
  function Wrap(n: int): int { (n + 0x8000_0000_0000_0000) % 0x1_0000_0000_0000_0000 - 0x8000_0000_0000_0000 }

  function RunInts<D>(op: Op, a: int, b: int): Cell<D> {
    match op
    case Add => I64(Wrap(a + b))
    case Sub => I64(Wrap(a - b))
    case Mul => I64(Wrap(a * b))
    case Div => I64(if b == 0 then 0 else Wrap(Quot(a, b)))
    case Mod => I64(if b == 0 then 0 else Rem(a, b))
    case Eq => I1(a == b)
    case Lt => I1(a < b)
    case Gt => I1(a > b)
    case _ => Ptr(Nil)
  }

  function RunDoubles<D>(fl: Floats<D>, op: Op, a: D, b: D): Cell<D> {
    match op
    case Add => F64(fl.add(a, b))
    case Sub => F64(fl.sub(a, b))
    case Mul => F64(fl.mul(a, b))
    case Div => F64(fl.div(a, b))
    case Eq => I1(fl.eq(a, b))
    case Lt => I1(fl.lt(a, b))
    case Gt => I1(fl.lt(b, a))
    case _ => Ptr(Nil)
  }

  function Box<D>(c: Cell<D>): Value<D> {
    match c
    case I64(n) => Int(n)
    case F64(d) => Double(d)
    case I1(b) => Bool(b)
    case Ptr(v) => v
  }

  type Vals<D> = map<string, Value<D>>

  function ValueOf<D>(vals: Vals<D>, name: string): Value<D> { if name in vals then vals[name] else Nil }

  function Raw<D>(v: Value<D>): Cell<D> {
    match v
    case Int(n) => I64(n)
    case Double(d) => F64(d)
    case Bool(b) => I1(b)
    case _ => Ptr(v)
  }

  function At<D>(regs: seq<Cell<D>>, i: nat): Cell<D> { if i < |regs| then regs[i] else Ptr(Nil) }

  function Step<D>(fl: Floats<D>, vals: Vals<D>, i: Instr<D>, regs: seq<Cell<D>>): Cell<D> {
    match i
    case ConstInt(n) => I64(n)
    case ConstDouble(d) => F64(d)
    case ConstBool(b) => I1(b)
    case LoadRaw(x) => Raw(ValueOf(vals, x))
    case LoadBoxed(x) => Ptr(ValueOf(vals, x))
    case EvalOther(v) => Ptr(v)
    case Ints(op, a, b) =>
      if At(regs, a).I64? && At(regs, b).I64? then RunInts(op, At(regs, a).n, At(regs, b).n) else Ptr(Nil)
    case Doubles(op, a, b) =>
      if At(regs, a).F64? && At(regs, b).F64? then RunDoubles(fl, op, At(regs, a).d, At(regs, b).d) else Ptr(Nil)
    case NegInt(a) => if At(regs, a).I64? then I64(Wrap(0 - At(regs, a).n)) else Ptr(Nil)
    case NegDouble(a) => if At(regs, a).F64? then F64(fl.neg(At(regs, a).d)) else Ptr(Nil)
    case Flip(a) => if At(regs, a).I1? then I1(!At(regs, a).b) else Ptr(Nil)
    case BoxUp(a) => Ptr(Box(At(regs, a)))
    case CallBinary(op, a, b) => Ptr(Slot(BinaryOp(fl, op, Box(At(regs, a)), Box(At(regs, b)))))
    case CallNot(a) => Ptr(Slot(UnaryNot(Box(At(regs, a)))))
    case EmptySlot => Ptr(Nil)
  }

  function Exec<D>(fl: Floats<D>, vals: Vals<D>, code: Code<D>, regs: seq<Cell<D>>): seq<Cell<D>>
    decreases |code|
  {
    if code == [] then regs else Exec(fl, vals, code[1..], regs + [Step(fl, vals, code[0], regs)])
  }

  lemma {:induction false} ExecConcat<D>(fl: Floats<D>, vals: Vals<D>, a: Code<D>, b: Code<D>, regs: seq<Cell<D>>)
    ensures Exec(fl, vals, a + b, regs) == Exec(fl, vals, b, Exec(fl, vals, a, regs))
    decreases |a|
  {
    hide Step;
    if a == [] {
      assert a + b == b;
    } else {
      assert (a + b)[1..] == a[1..] + b;
      ExecConcat(fl, vals, a[1..], b, regs + [Step(fl, vals, a[0], regs)]);
    }
  }

  lemma {:induction false} ExecExtends<D>(fl: Floats<D>, vals: Vals<D>, code: Code<D>, regs: seq<Cell<D>>)
    ensures regs <= Exec(fl, vals, code, regs) && |Exec(fl, vals, code, regs)| == |regs| + |code|
    decreases |code|
  {
    hide Step;
    if code != [] { ExecExtends(fl, vals, code[1..], regs + [Step(fl, vals, code[0], regs)]); }
  }

  /** One more instruction. */
  lemma {:induction false} ExecOne<D>(fl: Floats<D>, vals: Vals<D>, code: Code<D>, i: Instr<D>, regs: seq<Cell<D>>)
    ensures var mid := Exec(fl, vals, code, regs);
            Exec(fl, vals, code + [i], regs) == mid + [Step(fl, vals, i, mid)]
  {
    hide Step;
    ExecConcat(fl, vals, code, [i], regs);
    var mid := Exec(fl, vals, code, regs);
    assert [i][1..] == [];
    assert Exec(fl, vals, [], mid + [Step(fl, vals, i, mid)]) == mid + [Step(fl, vals, i, mid)];
  }

  // ---------------------------------------------------------------- reference semantics

  /** Bottom-up evaluation with the runtime's operators on boxed values. */
  function Eval<D>(fl: Floats<D>, vals: Vals<D>, e: Expr<D>): Value<D> {
    match e
    case IntLit(n) => Int(n)
    case BoolLit(b) => Bool(b)
    case DoubleLit(d) => Double(d)
    case Var(x) => ValueOf(vals, x)
    case Other(v) => v
    case Binary(op, l, r) => Slot(BinaryOp(fl, op, Eval(fl, vals, l), Eval(fl, vals, r)))
    case Minus(x) => Slot(BinaryOp(fl, Sub, Int(0), Eval(fl, vals, x)))
    case Not(x) => Slot(UnaryNot(Eval(fl, vals, x)))
  }

  predicate FitsOp<D>(fl: Floats<D>, op: Op, l: Value<D>, r: Value<D>) {
    && (l.Int? && r.Int? ==>
          && (op.Add? ==> InRange(l.n + r.n))
          && (op.Sub? ==> InRange(l.n - r.n))
          && (op.Mul? ==> InRange(l.n * r.n))
          && (op.Div? || op.Mod? ==> r.n != 0 && InRange(Quot(l.n, r.n))))
    && (l.Double? && r.Double? && op.Div? ==> !fl.eq(r.d, fl.ofInt(0)))
  }

  /** The run meets no 64-bit overflow and no zero divisor. */
  predicate Tame<D>(fl: Floats<D>, vals: Vals<D>, e: Expr<D>) {
    match e
    case IntLit(n) => InRange(n)
    case Binary(op, l, r) => Tame(fl, vals, l) && Tame(fl, vals, r)
        && FitsOp(fl, op, Eval(fl, vals, l), Eval(fl, vals, r))
    case Minus(x) =>
      var v := Eval(fl, vals, x);
      Tame(fl, vals, x) && (v.Int? ==> InRange(-v.n))
    case Not(x) => Tame(fl, vals, x)
    case _ => true
  }

  /** The kind of an expression's result, which the variables' kinds alone decide. */
  function StaticKind<D>(kinds: Kinds, e: Expr<D>): Kind {
    match e
    case IntLit(_) => KInt
    case BoolLit(_) => KBool
    case DoubleLit(_) => KDouble
    case Var(x) => KindOf(kinds, x)
    case Other(_) => KBoxed
    case Binary(op, l, r) => if CanUnbox(e) then BinaryKind(op, StaticKind(kinds, l), StaticKind(kinds, r)) else KBoxed
    case Minus(x) => if CanUnbox(x) && StaticKind(kinds, x) != KBool then StaticKind(kinds, x) else KBoxed
    case Not(x) => if CanUnbox(x) && StaticKind(kinds, x) == KBool then KBool else KBoxed
  }

  function BinaryKind(op: Op, l: Kind, r: Kind): Kind {
    if l == KInt && r == KInt && IntFast(op) then IntKind(op)
    else if l == KDouble && r == KDouble && DoubleFast(op) then DoubleKind(op)
    else KBoxed
  }

  /** What a unary minus on the operand `x` needs on the raw path: a raw double is one that negation and
      subtraction from zero treat alike, and a boxed operand is no number. */
  ghost predicate NegatesAlike<D>(fl: Floats<D>, kinds: Kinds, vals: Vals<D>, x: Expr<D>) {
    CanUnbox(x) ==>
      var v := Eval(fl, vals, x);
      match StaticKind(kinds, x)
      case KDouble => v.Double? ==> fl.neg(v.d) == fl.sub(fl.ofInt(0), v.d)
      case KBoxed => !IsNumber(TypeOf(v))
      case _ => true
  }

  /** Every unary minus of the expression has what it needs. */
  ghost predicate MinusesAlike<D>(fl: Floats<D>, kinds: Kinds, vals: Vals<D>, e: Expr<D>) {
    match e
    case Binary(_, l, r) => MinusesAlike(fl, kinds, vals, l) && MinusesAlike(fl, kinds, vals, r)
    case Minus(x) => MinusesAlike(fl, kinds, vals, x) && NegatesAlike(fl, kinds, vals, x)
    case Not(x) => MinusesAlike(fl, kinds, vals, x)
    case _ => true
  }

  ghost predicate Holds<D>(k: Kind, c: Cell<D>, v: Value<D>) {
    match k
    case KInt => c.I64? && v == Int(c.n) && InRange(c.n)
    case KDouble => c.F64? && v == Double(c.d)
    case KBool => c.I1? && v == Bool(c.b)
    case KBoxed => c == Ptr(v)
  }

  /** Unboxed locals hold values of their kind. */
  ghost predicate WellKinded<D>(kinds: Kinds, vals: Vals<D>) {
    forall x :: x in kinds && kinds[x] != KBoxed ==> Holds(kinds[x], Raw(ValueOf(vals, x)), ValueOf(vals, x))
  }

  // ---------------------------------------------------------------- the fast path agrees

  /** After the code of a part has run, its register holds the part's value. */
  ghost predicate Done<D>(fl: Floats<D>, vals: Vals<D>, c: Compiled<D>, regs: seq<Cell<D>>, v: Value<D>) {
    var out := Exec(fl, vals, c.code, regs);
    c.reg < |out| && Holds(c.kind, out[c.reg], v)
  }

  lemma {:induction false} BoxedDone<D>(fl: Floats<D>, vals: Vals<D>, c: Compiled<D>, regs: seq<Cell<D>>, v: Value<D>)
    requires Done(fl, vals, c, regs, v)
    ensures Boxed(c, |regs|).kind == KBoxed && Done(fl, vals, Boxed(c, |regs|), regs, v)
  {
    hide Exec;
    ExecOne(fl, vals, c.code, BoxUp(c.reg), regs);
    ExecExtends(fl, vals, c.code, regs);
  }

  /** Code that is appended later leaves a register as it was. */
  lemma {:induction false} DoneLater<D>(fl: Floats<D>, vals: Vals<D>, c: Compiled<D>, more: Code<D>,
                                        regs: seq<Cell<D>>, v: Value<D>)
    requires Done(fl, vals, c, regs, v)
    ensures Done(fl, vals, Compiled(c.code + more, c.kind, c.reg), regs, v)
  {
    hide Exec, Holds;
    ExecConcat(fl, vals, c.code, more, regs);
    ExecExtends(fl, vals, more, Exec(fl, vals, c.code, regs));
  }

  lemma {:induction false} DoneAfter<D>(fl: Floats<D>, vals: Vals<D>, first: Code<D>, c: Compiled<D>,
                                        regs: seq<Cell<D>>, v: Value<D>)
    requires Done(fl, vals, c, Exec(fl, vals, first, regs), v)
    ensures Done(fl, vals, Compiled(first + c.code, c.kind, c.reg), regs, v)
  {
    hide Exec, Holds;
    ExecConcat(fl, vals, first, c.code, regs);
  }

  /** One instruction whose result holds the value. */
  lemma {:induction false} DoneBy<D>(fl: Floats<D>, vals: Vals<D>, code: Code<D>, i: Instr<D>, k: Kind,
                                     regs: seq<Cell<D>>, v: Value<D>)
    requires Holds(k, Step(fl, vals, i, Exec(fl, vals, code, regs)), v)
    ensures Done(fl, vals, Compiled(code + [i], k, |regs| + |code|), regs, v)
  {
    hide Exec, Holds, Step;
    ExecOne(fl, vals, code, i, regs);
    ExecExtends(fl, vals, code, regs);
  }

  lemma {:induction false} WrapFits(n: int)
    requires InRange(n)
    ensures Wrap(n) == n
  {
  }

  lemma {:induction false} RemFits(a: int, b: int)
    requires InRange(a) && InRange(b) && b != 0
    ensures InRange(Rem(a, b))
  {
    QuotRem(a, b);
  }

  lemma {:induction false} IntsAgree<D>(fl: Floats<D>, op: Op, a: int, b: int)
    requires IntFast(op) && InRange(a) && InRange(b) && FitsOp(fl, op, Int(a), Int(b))
    ensures Holds(IntKind(op), RunInts<D>(op, a, b), Slot(BinaryOp(fl, op, Int(a), Int(b))))
  {
    hide Wrap, Quot, Rem;
    match op
    case Add => WrapFits(a + b);
    case Sub => WrapFits(a - b);
    case Mul => WrapFits(a * b);
    case Div => WrapFits(Quot(a, b));
    case Mod => RemFits(a, b);
    case _ =>
  }

  lemma {:induction false} DoublesAgree<D>(fl: Floats<D>, op: Op, a: D, b: D)
    requires DoubleFast(op) && FitsOp(fl, op, Double(a), Double(b))
    ensures Holds(DoubleKind(op), RunDoubles(fl, op, a, b), Slot(BinaryOp(fl, op, Double(a), Double(b))))
  {
  }

  lemma {:induction false} UnboxedDone<D>(fl: Floats<D>, vals: Vals<D>, op: Op, cl: Compiled<D>, cr: Compiled<D>,
                                          regs: seq<Cell<D>>, l: Value<D>, r: Value<D>)
    requires Done(fl, vals, Compiled(cl.code + cr.code, cl.kind, cl.reg), regs, l)
    requires Done(fl, vals, Compiled(cl.code + cr.code, cr.kind, cr.reg), regs, r)
    requires FitsOp(fl, op, l, r)
    ensures Done(fl, vals, CompileUnboxed(op, cl, cr, |regs|), regs, Slot(BinaryOp(fl, op, l, r)))
  {
    hide Exec, BinaryOp, FitsOp, RunInts, RunDoubles;
    var code, base := cl.code + cr.code, |regs|;
    var v := Slot(BinaryOp(fl, op, l, r));
    if cl.kind == KInt && cr.kind == KInt && IntFast(op) {
      IntsAgree(fl, op, l.n, r.n);
      DoneBy(fl, vals, code, Ints(op, cl.reg, cr.reg), IntKind(op), regs, v);
    } else if cl.kind == KDouble && cr.kind == KDouble && DoubleFast(op) {
      DoublesAgree(fl, op, l.d, r.d);
      DoneBy(fl, vals, code, Doubles(op, cl.reg, cr.reg), DoubleKind(op), regs, v);
    } else {
      var bl := Boxed(Compiled(code, cl.kind, cl.reg), base);
      BoxedDone(fl, vals, Compiled(code, cl.kind, cl.reg), regs, l);
      LaterBox(fl, vals, code, cl, cr, regs, r);
      var br := Boxed(Compiled(bl.code, cr.kind, cr.reg), base);
      BoxedDone(fl, vals, Compiled(bl.code, cr.kind, cr.reg), regs, r);
      LaterBox(fl, vals, bl.code, Compiled(bl.code, cr.kind, cr.reg), bl, regs, l);
      CalledDone(fl, vals, op, br.code, bl.reg, br.reg, regs, l, r);
    }
  }

  /** Boxing one operand leaves the other's register as it was. */
  lemma {:induction false} LaterBox<D>(fl: Floats<D>, vals: Vals<D>, code: Code<D>, boxed: Compiled<D>,
                                       kept: Compiled<D>,
                                       regs: seq<Cell<D>>, v: Value<D>)
    requires Done(fl, vals, Compiled(code, kept.kind, kept.reg), regs, v)
    ensures Done(fl, vals, Compiled(Boxed(Compiled(code, boxed.kind, boxed.reg), |regs|).code, kept.kind, kept.reg),
                 regs, v)
  {
    hide Exec, Holds;
    if boxed.kind != KBoxed {
      DoneLater(fl, vals, Compiled(code, kept.kind, kept.reg), [BoxUp(boxed.reg)], regs, v);
    }
  }

  lemma {:induction false} KindIsStatic<D>(kinds: Kinds, e: Expr<D>, base: nat)
    ensures Compile(kinds, e, base).kind == StaticKind(kinds, e)
    decreases e
  {
    hide CompileUnboxed, CompileMinus, CompileCall, CompileSubtract, CompileNot, Boxed, KindOf, CanUnbox;
    match e
    case Binary(op, l, r) =>
      if CanUnbox(e) {
        var cl := Compile(kinds, l, base);
        KindIsStatic(kinds, l, base);
        KindIsStatic(kinds, r, base + |cl.code|);
        PartKinds(op, cl, Compile(kinds, r, base + |cl.code|), base);
      } else {
        var bl := Boxed(Compile(kinds, l, base), base);
        var mid := base + |bl.code|;
        PartKinds(op, bl, Boxed(Compile(kinds, r, mid), mid), base);
      }
    case Minus(x) =>
      KindIsStatic(kinds, x, base);
      PartKind(CanUnbox(x), Compile(kinds, x, base), base);
    case Not(x) =>
      KindIsStatic(kinds, x, base);
      PartKind(CanUnbox(x), Compile(kinds, x, base), base);
    case _ =>
  }

  lemma PartKinds<D>(op: Op, cl: Compiled<D>, cr: Compiled<D>, base: nat)
    ensures CompileUnboxed(op, cl, cr, base).kind == BinaryKind(op, cl.kind, cr.kind)
    ensures CompileCall(op, cl, cr, base).kind == KBoxed
  {
  }

  lemma PartKind<D>(raw: bool, c: Compiled<D>, base: nat)
    ensures CompileMinus(c, base).kind == if c.kind == KBool then KBoxed else c.kind
    ensures CompileSubtract(Boxed(c, base), base).kind == KBoxed
    ensures CompileNot(raw, c, base).kind == if raw && c.kind == KBool then KBool else KBoxed
  {
  }

  /** On every tame run the compiled code leaves, once boxed, the value of bottom-up evaluation with the
      runtime's operators, if each unary minus is one that negates alike. */
  lemma {:induction false} FastPathAgrees<D>(fl: Floats<D>, kinds: Kinds, vals: Vals<D>, e: Expr<D>, regs: seq<Cell<D>>)
    requires WellKinded(kinds, vals) && Tame(fl, vals, e) && MinusesAlike(fl, kinds, vals, e)
    ensures Done(fl, vals, Compile(kinds, e, |regs|), regs, Eval(fl, vals, e))
    decreases e
  {
    hide Exec, BinaryOp, FitsOp, Holds, Step, Done, WellKinded, StaticKind, UnaryNot, CanUnbox;
    hide CompileUnboxed, CompileMinus, CompileCall, CompileSubtract, CompileNot, Boxed;
    match e
    case Binary(op, l, r) =>
      FastPathAgrees(fl, kinds, vals, l, regs);
      var vl, vr, cl := Eval(fl, vals, l), Eval(fl, vals, r), Compile(kinds, l, |regs|);
      if CanUnbox(e) {
        var mid := Exec(fl, vals, cl.code, regs);
        ExecExtends(fl, vals, cl.code, regs);
        FastPathAgrees(fl, kinds, vals, r, mid);
        PairDone(fl, vals, cl, Compile(kinds, r, |mid|), regs, vl, vr);
        UnboxedDone(fl, vals, op, cl, Compile(kinds, r, |mid|), regs, vl, vr);
      } else {
        var bl := Boxed(cl, |regs|);
        BoxedDone(fl, vals, cl, regs, vl);
        var mid := Exec(fl, vals, bl.code, regs);
        ExecExtends(fl, vals, bl.code, regs);
        FastPathAgrees(fl, kinds, vals, r, mid);
        BoxedDone(fl, vals, Compile(kinds, r, |mid|), mid, vr);
        var br := Boxed(Compile(kinds, r, |mid|), |mid|);
        PairDone(fl, vals, bl, br, regs, vl, vr);
        CalledDone(fl, vals, op, bl.code + br.code, bl.reg, br.reg, regs, vl, vr);
        CallIs(op, bl, br, |regs|);
      }
    case Minus(x) =>
      FastPathAgrees(fl, kinds, vals, x, regs);
      MinusIff(fl, kinds, vals, x, regs);
    case Not(x) =>
      FastPathAgrees(fl, kinds, vals, x, regs);
      NotDone(fl, vals, CanUnbox(x), Compile(kinds, x, |regs|), regs, Eval(fl, vals, x));
    case _ => LeafDone(fl, kinds, vals, e, regs);
  }

  lemma CallIs<D>(op: Op, cl: Compiled<D>, cr: Compiled<D>, base: nat)
    ensures CompileCall(op, cl, cr, base)
            == Compiled(cl.code + cr.code + [CallBinary(op, cl.reg, cr.reg)], KBoxed, base + |cl.code + cr.code|)
  {
  }

  lemma {:induction false} LeafDone<D>(fl: Floats<D>, kinds: Kinds, vals: Vals<D>, e: Expr<D>, regs: seq<Cell<D>>)
    requires WellKinded(kinds, vals) && !e.Binary? && !e.Minus? && !e.Not? && (e.IntLit? ==> InRange(e.n))
    ensures Done(fl, vals, Compile(kinds, e, |regs|), regs, Eval(fl, vals, e))
  {
    hide Exec;
    var c := Compile(kinds, e, |regs|);
    assert c.code == [] + [c.code[0]];
    DoneBy(fl, vals, [], c.code[0], c.kind, regs, Eval(fl, vals, e));
  }

  lemma {:induction false} PairDone<D>(fl: Floats<D>, vals: Vals<D>, cl: Compiled<D>, cr: Compiled<D>,
                                       regs: seq<Cell<D>>,
                                       l: Value<D>, r: Value<D>)
    requires Done(fl, vals, cl, regs, l) && Done(fl, vals, cr, Exec(fl, vals, cl.code, regs), r)
    ensures Done(fl, vals, Compiled(cl.code + cr.code, cl.kind, cl.reg), regs, l)
    ensures Done(fl, vals, Compiled(cl.code + cr.code, cr.kind, cr.reg), regs, r)
  {
    hide Done, Exec;
    DoneLater(fl, vals, cl, cr.code, regs, l);
    DoneAfter(fl, vals, cl.code, cr, regs, r);
  }

  lemma {:induction false} CalledDone<D>(fl: Floats<D>, vals: Vals<D>, op: Op, code: Code<D>, a: nat, b: nat,
                                         regs: seq<Cell<D>>, l: Value<D>, r: Value<D>)
    requires Done(fl, vals, Compiled(code, KBoxed, a), regs, l) && Done(fl, vals, Compiled(code, KBoxed, b), regs, r)
    ensures Done(fl, vals, Compiled(code + [CallBinary(op, a, b)], KBoxed, |regs| + |code|), regs,
                 Slot(BinaryOp(fl, op, l, r)))
  {
    hide Exec, BinaryOp;
    DoneBy(fl, vals, code, CallBinary(op, a, b), KBoxed, regs, Slot(BinaryOp(fl, op, l, r)));
  }

  lemma {:induction false} NotDone<D>(fl: Floats<D>, vals: Vals<D>, raw: bool, c: Compiled<D>, regs: seq<Cell<D>>,
                                      v: Value<D>)
    requires Done(fl, vals, c, regs, v)
    ensures Done(fl, vals, CompileNot(raw, c, |regs|), regs, Slot(UnaryNot(v)))
  {
    hide Exec;
    if raw && c.kind == KBool {
      DoneBy(fl, vals, c.code, Flip(c.reg), KBool, regs, Slot(UnaryNot(v)));
    } else {
      BoxedDone(fl, vals, c, regs, v);
      var cx := Boxed(c, |regs|);
      DoneBy(fl, vals, cx.code, CallNot(cx.reg), KBoxed, regs, Slot(UnaryNot(v)));
    }
  }

  /** The three ways in which the raw path negates an operand that has been computed right. */
  lemma {:induction false} RawMinusIff<D>(fl: Floats<D>, vals: Vals<D>, c: Compiled<D>, regs: seq<Cell<D>>, v: Value<D>)
    requires Done(fl, vals, c, regs, v) && (v.Int? ==> InRange(-v.n))
    ensures Done(fl, vals, CompileMinus(c, |regs|), regs, Slot(BinaryOp(fl, Sub, Int(0), v))) <==>
              match c.kind
              case KDouble => v.Double? ==> fl.neg(v.d) == fl.sub(fl.ofInt(0), v.d)
              case KBoxed => !IsNumber(TypeOf(v))
              case _ => true
  {
    hide Exec, Wrap;
    var cx := if c.kind == KBool then Boxed(c, |regs|) else c;
    var i := if c.kind == KInt then NegInt(c.reg) else if c.kind == KDouble then NegDouble(c.reg) else EmptySlot;
    if c.kind == KInt { WrapFits(0 - v.n); }
    assert CompileMinus(c, |regs|).code == cx.code + [i];
    ExecOne(fl, vals, cx.code, i, regs);
    ExecExtends(fl, vals, cx.code, regs);
  }

  /** Negation of an operand that has been computed right is right if and only if it negates alike. */
  lemma {:induction false} MinusIff<D>(fl: Floats<D>, kinds: Kinds, vals: Vals<D>, x: Expr<D>, regs: seq<Cell<D>>)
    requires Done(fl, vals, Compile(kinds, x, |regs|), regs, Eval(fl, vals, x))
    requires Eval(fl, vals, x).Int? ==> InRange(-Eval(fl, vals, x).n)
    ensures Done(fl, vals, Compile(kinds, Minus(x), |regs|), regs, Eval(fl, vals, Minus(x)))
            <==> NegatesAlike(fl, kinds, vals, x)
  {
    hide Exec, BinaryOp, Done, CompileMinus, CompileSubtract, StaticKind, CanUnbox, Boxed;
    var c, v := Compile(kinds, x, |regs|), Eval(fl, vals, x);
    KindIsStatic(kinds, x, |regs|);
    if CanUnbox(x) {
      RawMinusIff(fl, vals, c, regs, v);
    } else {
      BoxedDone(fl, vals, c, regs, v);
      SubtractDone(fl, vals, Boxed(c, |regs|), regs, v);
    }
  }

  lemma {:induction false} SubtractDone<D>(fl: Floats<D>, vals: Vals<D>, cx: Compiled<D>, regs: seq<Cell<D>>,
                                           v: Value<D>)
    requires Done(fl, vals, cx, regs, v) && cx.kind == KBoxed
    ensures Done(fl, vals, CompileSubtract(cx, |regs|), regs, Slot(BinaryOp(fl, Sub, Int(0), v)))
  {
    hide Exec, BinaryOp;
    var n := |regs| + |cx.code|;
    var one, two := cx.code + [ConstInt(0)], cx.code + [ConstInt(0)] + [BoxUp(n)];
    ExecExtends(fl, vals, cx.code, regs);
    ExecOne(fl, vals, cx.code, ConstInt(0), regs);
    ExecOne(fl, vals, one, BoxUp(n), regs);
    DoneLater(fl, vals, cx, [ConstInt(0)], regs, v);
    DoneLater(fl, vals, Compiled(one, KBoxed, cx.reg), [BoxUp(n)], regs, v);
    CalledDone(fl, vals, Sub, two, n + 1, cx.reg, regs, Int(0), v);
    assert cx.code + [ConstInt(0), BoxUp(n), CallBinary(Sub, n + 1, cx.reg)] == two + [CallBinary(Sub, n + 1, cx.reg)];
  }

  // ---------------------------------------------------------------- the fast path is taken

  /** Works on machine values alone. */
  predicate IsRaw<D>(i: Instr<D>) {
    !i.LoadBoxed? && !i.EvalOther? && !i.BoxUp? && !i.CallBinary? && !i.CallNot? && !i.EmptySlot?
  }

  predicate AllRaw<D>(code: Code<D>) { forall i :: 0 <= i < |code| ==> IsRaw(code[i]) }

  /** Integer arithmetic over literals and unboxed integer variables. */
  predicate IntsOnly<D>(kinds: Kinds, e: Expr<D>) {
    match e
    case IntLit(_) => true
    case Var(x) => x in kinds && kinds[x] == KInt
    case Binary(op, l, r) =>
      (op.Add? || op.Sub? || op.Mul? || op.Div? || op.Mod?) && IntsOnly(kinds, l) && IntsOnly(kinds, r)
    case Minus(x) => IntsOnly(kinds, x)
    case _ => false
  }

  /** The same over doubles; there is no raw remainder of doubles. */
  predicate DoublesOnly<D>(kinds: Kinds, e: Expr<D>) {
    match e
    case DoubleLit(_) => true
    case Var(x) => x in kinds && kinds[x] == KDouble
    case Binary(op, l, r) => (op.Add? || op.Sub? || op.Mul? || op.Div?) && DoublesOnly(kinds, l)
        && DoublesOnly(kinds, r)
    case Minus(x) => DoublesOnly(kinds, x)
    case _ => false
  }

  /** Conditions: boolean literals and variables, negations, and raw comparisons. */
  predicate TestsOnly<D>(kinds: Kinds, e: Expr<D>) {
    match e
    case BoolLit(_) => true
    case Var(x) => x in kinds && kinds[x] == KBool
    case Binary(op, l, r) =>
      (op.Eq? || op.Lt? || op.Gt?) &&
      ((IntsOnly(kinds, l) && IntsOnly(kinds, r)) || (DoublesOnly(kinds, l) && DoublesOnly(kinds, r)))
    case Not(x) => TestsOnly(kinds, x)
    case _ => false
  }

  lemma RawBinary<D>(op: Op, cl: Compiled<D>, cr: Compiled<D>, base: nat)
    requires AllRaw(cl.code) && AllRaw(cr.code)
    requires (cl.kind == cr.kind == KInt && IntFast(op)) || (cl.kind == cr.kind == KDouble && DoubleFast(op))
    ensures var c := CompileUnboxed(op, cl, cr, base);
            AllRaw(c.code) && c.kind == if cl.kind == KInt then IntKind(op) else DoubleKind(op)
  {
    hide Boxed;
  }

  lemma RawUnary<D>(c: Compiled<D>, base: nat)
    requires AllRaw(c.code)
    ensures c.kind == KInt || c.kind == KDouble ==>
              AllRaw(CompileMinus(c, base).code) && CompileMinus(c, base).kind == c.kind
    ensures c.kind == KBool ==> AllRaw(CompileNot(true, c, base).code) && CompileNot(true, c, base).kind == KBool
  {
    hide Boxed;
  }

  lemma {:induction false} IntsStayRaw<D>(kinds: Kinds, e: Expr<D>, base: nat)
    requires IntsOnly(kinds, e)
    ensures CanUnbox(e) && Compile(kinds, e, base).kind == KInt && AllRaw(Compile(kinds, e, base).code)
    decreases e
  {
    hide CompileUnboxed, CompileMinus, CompileCall, CompileSubtract, CompileNot, Boxed;
    match e
    case Binary(op, l, r) =>
      var mid := base + |Compile(kinds, l, base).code|;
      IntsStayRaw(kinds, l, base);
      IntsStayRaw(kinds, r, mid);
      RawBinary(op, Compile(kinds, l, base), Compile(kinds, r, mid), base);
    case Minus(x) =>
      IntsStayRaw(kinds, x, base);
      RawUnary(Compile(kinds, x, base), base);
    case _ =>
  }

  lemma {:induction false} DoublesStayRaw<D>(kinds: Kinds, e: Expr<D>, base: nat)
    requires DoublesOnly(kinds, e)
    ensures CanUnbox(e) && Compile(kinds, e, base).kind == KDouble && AllRaw(Compile(kinds, e, base).code)
    decreases e
  {
    hide CompileUnboxed, CompileMinus, CompileCall, CompileSubtract, CompileNot, Boxed;
    match e
    case Binary(op, l, r) =>
      var mid := base + |Compile(kinds, l, base).code|;
      DoublesStayRaw(kinds, l, base);
      DoublesStayRaw(kinds, r, mid);
      RawBinary(op, Compile(kinds, l, base), Compile(kinds, r, mid), base);
    case Minus(x) =>
      DoublesStayRaw(kinds, x, base);
      RawUnary(Compile(kinds, x, base), base);
    case _ =>
  }

  /** Conditions over integers and doubles, and their operands, never touch a boxed value or the runtime. */
  lemma {:induction false} TestsStayRaw<D>(kinds: Kinds, e: Expr<D>, base: nat)
    requires TestsOnly(kinds, e)
    ensures CanUnbox(e) && Compile(kinds, e, base).kind == KBool && AllRaw(Compile(kinds, e, base).code)
    decreases e
  {
    hide CompileUnboxed, CompileMinus, CompileCall, CompileSubtract, CompileNot, Boxed;
    match e
    case Binary(op, l, r) =>
      var mid := base + |Compile(kinds, l, base).code|;
      if IntsOnly(kinds, l) && IntsOnly(kinds, r) {
        IntsStayRaw(kinds, l, base);
        IntsStayRaw(kinds, r, mid);
      } else {
        DoublesStayRaw(kinds, l, base);
        DoublesStayRaw(kinds, r, mid);
      }
      RawBinary(op, Compile(kinds, l, base), Compile(kinds, r, mid), base);
    case Not(x) =>
      TestsStayRaw(kinds, x, base);
      RawUnary(Compile(kinds, x, base), base);
    case _ =>
  }

  // ---------------------------------------------------------------- where the fast path differs

  lemma NegatedIsNil<D>(fl: Floats<D>, v: Value<D>)
    ensures Slot(BinaryOp(fl, Sub, Int(0), v)) == Nil <==> !IsNumber(TypeOf(v))
  {
  }

  /** Unary minus on a boxed operand inside raw code yields nil, whatever the operand has become: that is
      the value of the failing operator exactly if the operand's value is no number. */
  lemma {:induction false} BoxedMinusAgreesIff<D>(fl: Floats<D>, kinds: Kinds, vals: Vals<D>, x: Expr<D>,
                                                  regs: seq<Cell<D>>)
    requires CanUnbox(x) && StaticKind(kinds, x) == KBoxed
    ensures Done(fl, vals, Compile(kinds, Minus(x), |regs|), regs, Eval(fl, vals, Minus(x)))
            <==> !IsNumber(TypeOf(Eval(fl, vals, x)))
  {
    hide Exec, CanUnbox, StaticKind, BinaryOp;
    var c := Compile(kinds, x, |regs|);
    KindIsStatic(kinds, x, |regs|);
    NegatedIsNil(fl, Eval(fl, vals, x));
    ExecOne(fl, vals, c.code, EmptySlot, regs);
    ExecExtends(fl, vals, c.code, regs);
  }

  /** Doubles without rounding: the reals, and a second, negative zero. */
  datatype Signed = Number(r: real) | NegZero

  function Real(x: Signed): real { if x.Number? then x.r else 0.0 }

  /** The sign bit. */
  predicate Below(x: Signed) { x.NegZero? || x.r < 0.0 }

  function WithSign(r: real, negative: bool): Signed { if r == 0.0 && negative then NegZero else Number(r) }

  function SignedZeros(): Floats<Signed> {
    Floats((x, y) => WithSign(Real(x) + Real(y), x.NegZero? && y.NegZero?),
           (x, y) => WithSign(Real(x) - Real(y), x.NegZero? && y == Number(0.0)),
           (x, y) => WithSign(Real(x) * Real(y), Below(x) != Below(y)),
           (x, y) => if Real(y) == 0.0 then Number(0.0) else WithSign(Real(x) / Real(y), Below(x) != Below(y)),
           x => WithSign(-Real(x), !Below(x)),
           n => Number(n as real),
           (x, y) => Real(x) == Real(y), (x, y) => Real(x) < Real(y), (x, y) => Real(x) <= Real(y))
  }

  /** The one double on which raw negation and zero minus operand differ is 0.0: negation gives -0.0, the
      subtraction 0.0. On -0.0 they agree. */
  lemma {:induction false} NegatedZeroDiffers(d: Signed)
    ensures var fl := SignedZeros(); fl.neg(d) == fl.sub(fl.ofInt(0), d) <==> d != Number(0.0)
    ensures var fl, e := SignedZeros(), Minus(DoubleLit(d));
            Done(fl, map[], Compile(map[], e, 0), [], Eval(fl, map[], e)) <==> d != Number(0.0)
  {
    hide Exec, BinaryOp, Done, Compile;
    var fl := SignedZeros();
    assert fl.neg(d) == WithSign(-Real(d), !Below(d));
    assert fl.sub(fl.ofInt(0), d) == WithSign(0.0 - Real(d), false);
    LeafDone(fl, map[], map[], DoubleLit(d), []);
    MinusIff(fl, map[], map[], DoubleLit(d), []);
  }

  // ---------------------------------------------------------------- boxing and unboxing

  /** Reading a boxed value at a declared primitive type. */
  function Unboxed<D>(fl: Floats<D>, k: Kind, v: Value<D>): Cell<D> {
    match k
    case KInt => I64(if v.Int? then v.n else 0)
    case KDouble => F64(match v case Double(d) => d case Int(n) => fl.ofInt(n) case _ => fl.ofInt(0))
    case KBool => I1(v.Bool? && v.b)
    case KBoxed => Ptr(v)
  }

  /** Unboxing at a type and boxing again gives the value back exactly when it is of that type. */
  lemma UnboxThenBoxIff<D>(fl: Floats<D>, k: Kind, v: Value<D>)
    ensures Box(Unboxed(fl, k, v)) == v <==>
              (k == KBoxed || (k == KInt && v.Int?) || (k == KDouble && v.Double?) || (k == KBool && v.Bool?))
  {
  }

  // ---------------------------------------------------------------- the emitter

  /** The instruction builder: every emission appends and its result is the new register. */
  class Emitter<D> {
    var code: Code<D>

    constructor ()
      ensures code == []
    {
      code := [];
    }

    method Emit(i: Instr<D>) returns (reg: nat)
      modifies this
      ensures code == old(code) + [i] && reg == old(|code|)
    {
      reg := |code|;
      code := code + [i];
    }

    method EnsureBoxed(ghost prefix: Code<D>, ghost c: Compiled<D>, kind: Kind, reg: nat) returns (boxed: nat)
      requires code == prefix + c.code && kind == c.kind && reg == c.reg
      modifies this
      ensures var cx := Boxed(c, |prefix|);
              code == prefix + cx.code && boxed == cx.reg && cx.kind == KBoxed
    {
      if kind == KBoxed {
        boxed := reg;
      } else {
        boxed := Emit(BoxUp(reg));
      }
    }

    /** Emits the raw form of a binary operator if there is one, otherwise boxes both and calls the runtime. */
    method BuildBinary(ghost prefix: Code<D>, ghost cl: Compiled<D>, ghost cr: Compiled<D>,
                       op: Op, lk: Kind, l: nat, rk: Kind, r: nat) returns (kind: Kind, reg: nat)
      requires code == prefix + (cl.code + cr.code)
      requires lk == cl.kind && l == cl.reg && rk == cr.kind && r == cr.reg
      modifies this
      ensures var c := CompileUnboxed(op, cl, cr, |prefix|);
              code == prefix + c.code && kind == c.kind && reg == c.reg
    {
      if lk == KInt && rk == KInt && IntFast(op) {
        reg := Emit(Ints(op, l, r));
        kind := IntKind(op);
      } else if lk == KDouble && rk == KDouble && DoubleFast(op) {
        reg := Emit(Doubles(op, l, r));
        kind := DoubleKind(op);
      } else {
        ghost var bl := Boxed(Compiled(cl.code + cr.code, lk, l), |prefix|);
        ghost var br := Boxed(Compiled(bl.code, rk, r), |prefix|);
        var lb := EnsureBoxed(prefix, Compiled(cl.code + cr.code, lk, l), lk, l);
        var rb := EnsureBoxed(prefix, Compiled(bl.code, rk, r), rk, r);
        reg := Emit(CallBinary(op, lb, rb));
        assert prefix + br.code + [CallBinary(op, lb, rb)] == prefix + (br.code + [CallBinary(op, lb, rb)]);
        kind := KBoxed;
      }
    }

    /** Appends the code of an expression. */
    method Build(kinds: Kinds, e: Expr<D>) returns (kind: Kind, reg: nat)
      modifies this
      ensures var c := Compile(kinds, e, |old(code)|);
              code == old(code) + c.code && kind == c.kind && reg == c.reg
      decreases e
    {
      hide CompileUnboxed, CompileCall, CompileMinus, CompileSubtract, CompileNot, Boxed, CanUnbox;
      ghost var prefix, base := code, |code|;
      match e {
        case Binary(op, left, right) =>
          ghost var cl := Compile(kinds, left, base);
          var lk, l := Build(kinds, left);
          if CanUnbox(e) {
            var rk, r := Build(kinds, right);
            kind, reg := BuildBinary(prefix, cl, Compile(kinds, right, base + |cl.code|), op, lk, l, rk, r);
          } else {
            var lb := EnsureBoxed(prefix, cl, lk, l);
            ghost var bl := Boxed(cl, base);
            var rk, r := Build(kinds, right);
            kind, reg := BuildCall(prefix, bl, Compile(kinds, right, base + |bl.code|), op, lb, rk, r);
          }
        case Minus(x) =>
          ghost var c := Compile(kinds, x, base);
          var xk, xr := Build(kinds, x);
          kind, reg := BuildMinus(prefix, c, CanUnbox(x), xk, xr);
        case Not(x) =>
          ghost var c := Compile(kinds, x, base);
          var xk, xr := Build(kinds, x);
          kind, reg := BuildNot(prefix, c, CanUnbox(x), xk, xr);
        case _ => kind, reg := BuildLeaf(kinds, e);
      }
    }

    method BuildLeaf(kinds: Kinds, e: Expr<D>) returns (kind: Kind, reg: nat)
      requires !e.Binary? && !e.Minus? && !e.Not?
      modifies this
      ensures var c := Compile(kinds, e, |old(code)|);
              code == old(code) + c.code && kind == c.kind && reg == c.reg
    {
      match e {
        case IntLit(n) => reg := Emit(ConstInt(n)); kind := KInt;
        case BoolLit(b) => reg := Emit(ConstBool(b)); kind := KBool;
        case DoubleLit(d) => reg := Emit(ConstDouble(d)); kind := KDouble;
        case Var(x) =>
          kind := KindOf(kinds, x);
          if kind == KBoxed { reg := Emit(LoadBoxed(x)); } else { reg := Emit(LoadRaw(x)); }
        case Other(v) => reg := Emit(EvalOther(v)); kind := KBoxed;
      }
    }

    method BuildCall(ghost prefix: Code<D>, ghost bl: Compiled<D>, ghost cr: Compiled<D>, op: Op, lb: nat, rk: Kind,
                     r: nat)
        returns (kind: Kind, reg: nat)
      requires code == prefix + bl.code + cr.code && lb == bl.reg && rk == cr.kind && r == cr.reg
      modifies this
      ensures var c := CompileCall(op, bl, Boxed(cr, |prefix| + |bl.code|), |prefix|);
              code == prefix + c.code && kind == c.kind && reg == c.reg
    {
      hide Boxed;
      ghost var br := Boxed(cr, |prefix| + |bl.code|);
      var rb := EnsureBoxed(prefix + bl.code, cr, rk, r);
      reg := Emit(CallBinary(op, lb, rb));
      assert prefix + bl.code + br.code + [CallBinary(op, lb, rb)] == prefix
             + (bl.code + br.code + [CallBinary(op, lb, rb)]);
      kind := KBoxed;
    }

    method BuildNot(ghost prefix: Code<D>, ghost c: Compiled<D>, raw: bool, xk: Kind, xr: nat)
        returns (kind: Kind, reg: nat)
      requires code == prefix + c.code && xk == c.kind && xr == c.reg
      modifies this
      ensures var m := CompileNot(raw, c, |prefix|);
              code == prefix + m.code && kind == m.kind && reg == m.reg
    {
      hide Boxed;
      if raw && xk == KBool {
        reg := Emit(Flip(xr));
        kind := KBool;
      } else {
        var b := EnsureBoxed(prefix, c, xk, xr);
        reg := Emit(CallNot(b));
        kind := KBoxed;
      }
    }

    method BuildMinus(ghost prefix: Code<D>, ghost c: Compiled<D>, raw: bool, xk: Kind, xr: nat)
        returns (kind: Kind, reg: nat)
      requires code == prefix + c.code && xk == c.kind && xr == c.reg
      modifies this
      ensures var m := if raw then CompileMinus(c, |prefix|) else CompileSubtract(Boxed(c, |prefix|), |prefix|);
              code == prefix + m.code && kind == m.kind && reg == m.reg
    {
      hide Boxed;
      if raw && xk == KInt {
        reg := Emit(NegInt(xr));
        kind := KInt;
      } else if raw && xk == KDouble {
        reg := Emit(NegDouble(xr));
        kind := KDouble;
      } else {
        kind := KBoxed;
        var b := EnsureBoxed(prefix, c, xk, xr);
        if raw {
          reg := Emit(EmptySlot);
        } else {
          var zero := Emit(ConstInt(0));
          var boxedZero := Emit(BoxUp(zero));
          reg := Emit(CallBinary(Sub, boxedZero, b));
        }
      }
    }
  }
}
