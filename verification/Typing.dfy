/** Type inference for expressions against their evaluation by the runtime's operators, which stops at the
    first operator that fails. */
module Typing {
  import opened Syntax
  import opened V = Values

  // ---------------------------------------------------------------- inference

  predicate IsArithmetic(op: Op) { op.Add? || op.Sub? || op.Mul? || op.Div? || op.Mod? }

  function InferBinary(op: Op, l: Type, r: Type): Option<Type> {
    if IsArithmetic(op) then
      if op.Add? && l == TStr && r == TStr then Some(TStr)
      else if l != r || !IsNumber(l) then None
      else Some(if l == TInt then TInt else TDouble)
    else if IsComparison(op) then Some(TBool)
    else if l == TBool && r == TBool then Some(TBool)
    else None
  }

  type Types = map<string, Type>

  function Infer<D>(types: Types, e: V.Expr<D>): Option<Type> {
    match e
    case IntLit(_) => Some(TInt)
    case BoolLit(_) => Some(TBool)
    case DoubleLit(_) => Some(TDouble)
    case Var(x) => if x in types then Some(types[x]) else None
    case Other(v) => Some(TypeOf(v))
    case Binary(op, l, r) =>
      var tl, tr := Infer(types, l), Infer(types, r);
      if tl.None? || tr.None? then None else InferBinary(op, tl.value, tr.value)
    case Minus(x) =>
      var t := Infer(types, x);
      if t.None? || !IsNumber(t.value) then None else Some(if t.value == TInt then TInt else TDouble)
    case Not(x) => if Infer(types, x) == Some(TBool) then Some(TBool) else None
  }

  /** The typing rules: sums of strings, arithmetic on two integers, two floats or two doubles, comparisons of
      anything that has a type, logic on booleans. */
  ghost predicate HasType<D>(types: Types, e: V.Expr<D>, t: Type) {
    match e
    case IntLit(_) => t == TInt
    case BoolLit(_) => t == TBool
    case DoubleLit(_) => t == TDouble
    case Var(x) => x in types && t == types[x]
    case Other(v) => t == TypeOf(v)
    case Binary(op, l, r) =>
      || (op.Add? && t == TStr && HasType(types, l, TStr) && HasType(types, r, TStr))
      || (IsArithmetic(op) && t == TInt && HasType(types, l, TInt) && HasType(types, r, TInt))
      || (IsArithmetic(op) && t == TDouble && HasType(types, l, TFloat) && HasType(types, r, TFloat))
      || (IsArithmetic(op) && t == TDouble && HasType(types, l, TDouble) && HasType(types, r, TDouble))
      || (IsComparison(op) && t == TBool && (exists u :: HasType(types, l, u)) && exists u :: HasType(types, r, u))
      || ((op.And? || op.Or?) && t == TBool && HasType(types, l, TBool) && HasType(types, r, TBool))
    case Minus(x) =>
      || (t == TInt && HasType(types, x, TInt))
      || (t == TDouble && (HasType(types, x, TFloat) || HasType(types, x, TDouble)))
    case Not(x) => t == TBool && HasType(types, x, TBool)
  }

  /** Inference gives exactly the types that the rules derive, so at most one, and none exactly if no rule
      applies. */
  lemma {:induction false} InferIff<D>(types: Types, e: V.Expr<D>)
    ensures forall t :: HasType(types, e, t) <==> Infer(types, e) == Some(t)
    decreases e
  {
    match e
    case Binary(op, l, r) => InferIff(types, l); InferIff(types, r);
    case Minus(x) => InferIff(types, x);
    case Not(x) => InferIff(types, x);
    case _ =>
  }

  // ---------------------------------------------------------------- evaluation

  function Run<D>(fl: Floats<D>, vals: map<string, Value<D>>, e: V.Expr<D>): Result<Value<D>> {
    match e
    case IntLit(n) => Ok(Int(n))
    case BoolLit(b) => Ok(Bool(b))
    case DoubleLit(d) => Ok(Double(d))
    case Var(x) => Ok(if x in vals then vals[x] else Nil)
    case Other(v) => Ok(v)
    case Binary(op, l, r) =>
      var vl := Run(fl, vals, l);
      if vl.Err? then vl
      else
        var vr := Run(fl, vals, r);
        if vr.Err? then vr else BinaryOp(fl, op, vl.value, vr.value)
    case Minus(x) =>
      var v := Run(fl, vals, x);
      if v.Err? then v else BinaryOp(fl, Sub, Int(0), v.value)
    case Not(x) =>
      var v := Run(fl, vals, x);
      if v.Err? then v else UnaryNot(v.value)
  }

  predicate Typed<D>(types: Types, vals: map<string, Value<D>>) {
    forall x :: x in types ==> x in vals && TypeOf(vals[x]) == types[x]
  }

  // ---------------------------------------------------------------- what an operator demands

  /** The operand types an operator accepts. */
  predicate Accepts(op: Op, l: Type, r: Type) {
    match op
    case Add => (l == TStr && r == TStr) || (IsNumber(l) && IsNumber(r))
    case Mod => l == TInt && r == TInt
    case And => l == TBool && r == TBool
    case Or => l == TBool && r == TBool
    case Eq => l == r && l != TNil
    case Ne => l == r && l != TNil
    case _ => if IsArithmetic(op) then IsNumber(l) && IsNumber(r) else l == r && l != TNil && !l.TObject?
  }

  /** The operand types alone decide whether an operator ends in a type mismatch. */
  lemma {:induction false} MismatchIff<D>(fl: Floats<D>, op: Op, l: Value<D>, r: Value<D>)
    ensures BinaryOp(fl, op, l, r) == Err(Mismatch) <==> !Accepts(op, TypeOf(l), TypeOf(r))
    ensures BinaryOp(fl, op, l, r).Ok? || BinaryOp(fl, op, l, r) == Err(Mismatch) || BinaryOp(fl, op, l, r)
            == Err(ZeroDivisor)
  {
  }

  /** Whatever an operator returns has the type that inference gives it, if it gives one. */
  lemma {:induction false} OperatorKeepsType<D>(fl: Floats<D>, op: Op, l: Value<D>, r: Value<D>)
    requires BinaryOp(fl, op, l, r).Ok? && InferBinary(op, TypeOf(l), TypeOf(r)).Some?
    ensures TypeOf(BinaryOp(fl, op, l, r).value) == InferBinary(op, TypeOf(l), TypeOf(r)).value
  {
  }

  // ---------------------------------------------------------------- soundness

  /** What inference leaves unchecked: a comparison needs operands of one type, not nil, and of an ordered
      one unless it is equality; `%` needs integers. */
  predicate Guarded<D>(types: Types, e: V.Expr<D>) {
    match e
    case Binary(op, l, r) =>
      && Guarded(types, l) && Guarded(types, r)
      && (Infer(types, l).Some? && Infer(types, r).Some? && (IsComparison(op) || op.Mod?) ==>
            Accepts(op, Infer(types, l).value, Infer(types, r).value))
    case Minus(x) => Guarded(types, x)
    case Not(x) => Guarded(types, x)
    case _ => true
  }

  lemma {:induction false} ValueHasType<D>(fl: Floats<D>, types: Types, vals: map<string, Value<D>>, e: V.Expr<D>)
    requires Typed(types, vals) && Infer(types, e).Some? && Run(fl, vals, e).Ok?
    ensures TypeOf(Run(fl, vals, e).value) == Infer(types, e).value
    decreases e
  {
    hide BinaryOp, InferBinary;
    match e
    case Binary(op, l, r) =>
      ValueHasType(fl, types, vals, l);
      ValueHasType(fl, types, vals, r);
      OperatorKeepsType(fl, op, Run(fl, vals, l).value, Run(fl, vals, r).value);
    case Minus(x) =>
      ValueHasType(fl, types, vals, x);
      MinusType(fl, Run(fl, vals, x).value);
    case Not(x) => ValueHasType(fl, types, vals, x);
    case _ =>
  }

  lemma MinusType<D>(fl: Floats<D>, v: Value<D>)
    requires IsNumber(TypeOf(v))
    ensures var r := BinaryOp(fl, Sub, Int(0), v); r.Ok? && TypeOf(r.value) == if v.Int? then TInt else TDouble
  {
  }

  /** Soundness: an expression of inferred type T that is guarded evaluates to a value of type T or stops at
      a zero divisor. The guard is exact: an unguarded expression never evaluates to anything. */
  lemma {:induction false} InferenceIsSound<D>(fl: Floats<D>, types: Types, vals: map<string, Value<D>>, e: V.Expr<D>)
    requires Typed(types, vals) && Infer(types, e).Some?
    ensures var r := Run(fl, vals, e);
            if Guarded(types, e) then (r.Ok? && TypeOf(r.value) == Infer(types, e).value) || r == Err(ZeroDivisor)
            else r.Err?
    decreases e
  {
    hide BinaryOp, InferBinary, Accepts;
    match e
    case Binary(op, l, r) =>
      InferenceIsSound(fl, types, vals, l);
      InferenceIsSound(fl, types, vals, r);
      if Run(fl, vals, l).Ok? && Run(fl, vals, r).Ok? {
        ValueHasType(fl, types, vals, l);
        ValueHasType(fl, types, vals, r);
        MismatchIff(fl, op, Run(fl, vals, l).value, Run(fl, vals, r).value);
        if !IsComparison(op) && !op.Mod? { InferredIsAccepted(op, Infer(types, l).value, Infer(types, r).value); }
        if Run(fl, vals, e).Ok? { ValueHasType(fl, types, vals, e); }
      }
    case Minus(x) =>
      InferenceIsSound(fl, types, vals, x);
      if Run(fl, vals, x).Ok? {
        ValueHasType(fl, types, vals, x);
        MinusType(fl, Run(fl, vals, x).value);
      }
    case Not(x) => InferenceIsSound(fl, types, vals, x);
    case _ =>
  }

  lemma InferredIsAccepted(op: Op, l: Type, r: Type)
    requires InferBinary(op, l, r).Some? && !IsComparison(op) && !op.Mod?
    ensures Accepts(op, l, r)
  {
  }

  /** Inference accepts a comparison of an integer with a boolean and a remainder of doubles; the runtime
      refuses both. */
  lemma UnguardedFails<D>(fl: Floats<D>, d: D)
    ensures var cmp := V.Expr<D>.Binary(Lt, IntLit(1), BoolLit(true));
            Infer(map[], cmp) == Some(TBool) && Run(fl, map[], cmp) == Err(Mismatch)
    ensures var mod := V.Expr.Binary(Mod, DoubleLit(d), DoubleLit(d));
            Infer(map[], mod) == Some(TDouble) && Run(fl, map[], mod) == Err(Mismatch)
  {
  }
}
