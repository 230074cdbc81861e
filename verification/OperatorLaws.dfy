/** What the runtime's operators mean: laws that relate them to each other and to the values they work on. */
module OperatorLaws {
  import opened Values

  // ---------------------------------------------------------------- logic

  lemma NotIsInvolution<D>(v: Value<D>)
    ensures UnaryNot(v).Ok? <==> v.Bool?
    ensures v.Bool? ==> UnaryNot(v).value != v && UnaryNot(v).value.Bool? && UnaryNot(UnaryNot(v).value) == Ok(v)
  {
  }

  /** Conjunction is true exactly if both operands are, and defined exactly on two booleans. */
  lemma AndIsBoth<D>(fl: Floats<D>, l: Value<D>, r: Value<D>)
    ensures BinaryOp(fl, And, l, r).Ok? <==> l.Bool? && r.Bool?
    ensures BinaryOp(fl, And, l, r).Ok? ==> BinaryOp(fl, And, l, r).value.Bool?
    ensures BinaryOp(fl, And, l, r) == Ok(Bool(true)) <==> l == Bool(true) && r == Bool(true)
  {
  }

  /** Disjunction is the dual of conjunction: true exactly if some operand is. */
  lemma OrIsDual<D>(fl: Floats<D>, l: Value<D>, r: Value<D>)
    ensures BinaryOp(fl, Or, l, r).Ok? <==> l.Bool? && r.Bool?
    ensures l.Bool? && r.Bool? ==>
              UnaryNot(BinaryOp(fl, Or, l, r).value) == BinaryOp(fl, And, UnaryNot(l).value, UnaryNot(r).value)
    ensures l.Bool? && r.Bool? ==>
              (BinaryOp(fl, Or, l, r) == Ok(Bool(true)) <==> l == Bool(true) || r == Bool(true))
  {
  }

  // ---------------------------------------------------------------- the six comparisons

  predicate IsTrue<D>(r: Result<Value<D>>) { r.Ok? && r.value.Bool? && r.value.b }

  /** A comparison that is defined gives a boolean. */
  lemma ComparesToBool<D>(fl: Floats<D>, op: Op, l: Value<D>, r: Value<D>)
    requires IsComparison(op) && BinaryOp(fl, op, l, r).Ok?
    ensures BinaryOp(fl, op, l, r).value.Bool?
  {
  }

  /** On values of any type `!=` negates `==`. */
  lemma UnequalIsNotEqual<D>(fl: Floats<D>, l: Value<D>, r: Value<D>)
    ensures BinaryOp(fl, Eq, l, r).Ok? == BinaryOp(fl, Ne, l, r).Ok?
    ensures BinaryOp(fl, Eq, l, r).Ok? ==> UnaryNot(BinaryOp(fl, Eq, l, r).value) == BinaryOp(fl, Ne, l, r)
  {
  }

  /** An order with its operands exchanged is the reverse order. */
  lemma GreaterIsLess<D>(fl: Floats<D>, l: Value<D>, r: Value<D>)
    ensures IsTrue(BinaryOp(fl, Gt, l, r)) <==> IsTrue(BinaryOp(fl, Lt, r, l))
    ensures BinaryOp(fl, Gt, l, r).Ok? == BinaryOp(fl, Lt, r, l).Ok?
  {
    if l.Str? && r.Str? { TextAntisymmetric(l.s, r.s); }
  }

  lemma AtLeastIsAtMost<D>(fl: Floats<D>, l: Value<D>, r: Value<D>)
    ensures IsTrue(BinaryOp(fl, Ge, l, r)) <==> IsTrue(BinaryOp(fl, Le, r, l))
    ensures BinaryOp(fl, Ge, l, r).Ok? == BinaryOp(fl, Le, r, l).Ok?
  {
    if l.Str? && r.Str? { TextAntisymmetric(l.s, r.s); }
  }

  /** Types whose values the machine orders without rounding. */
  predicate Ordered<D>(v: Value<D>) { v.Int? || v.Bool? || v.Str? }

  /** On integers, booleans and strings `<=` is `<` or `==`, exactly one of `<`, `==` and `>` holds, and `==` is
      equality of values. */
  lemma {:induction false} OrderIsTotal<D>(fl: Floats<D>, l: Value<D>, r: Value<D>)
    requires Ordered(l) && TypeOf(l) == TypeOf(r)
    ensures IsTrue(BinaryOp(fl, Eq, l, r)) <==> l == r
    ensures IsTrue(BinaryOp(fl, Le, l, r)) <==> IsTrue(BinaryOp(fl, Lt, l, r)) || l == r
    ensures IsTrue(BinaryOp(fl, Lt, l, r)) ==> l != r && !IsTrue(BinaryOp(fl, Gt, l, r))
    ensures l != r ==> IsTrue(BinaryOp(fl, Lt, l, r)) || IsTrue(BinaryOp(fl, Gt, l, r))
    ensures forall op :: IsComparison(op) ==> BinaryOp(fl, op, l, r).Ok?
  {
    if l.Str? { TextZero(l.s, r.s); TextAntisymmetric(l.s, r.s); }
  }

  lemma {:induction false} OrderIsTransitive<D>(fl: Floats<D>, x: Value<D>, y: Value<D>, z: Value<D>)
    requires Ordered(x) && TypeOf(x) == TypeOf(y) == TypeOf(z)
    requires IsTrue(BinaryOp(fl, Lt, x, y)) && IsTrue(BinaryOp(fl, Lt, y, z))
    ensures IsTrue(BinaryOp(fl, Lt, x, z))
  {
    if x.Str? { TextTransitive(x.s, y.s, z.s); }
  }

  lemma IntOrder<D>(fl: Floats<D>, a: int, b: int)
    ensures IsTrue(BinaryOp(fl, Eq, Int(a), Int(b))) <==> a == b
    ensures IsTrue(BinaryOp(fl, Ne, Int(a), Int(b))) <==> a != b
    ensures IsTrue(BinaryOp(fl, Lt, Int(a), Int(b))) <==> a < b
    ensures IsTrue(BinaryOp(fl, Le, Int(a), Int(b))) <==> a <= b
    ensures IsTrue(BinaryOp(fl, Gt, Int(a), Int(b))) <==> a > b
    ensures IsTrue(BinaryOp(fl, Ge, Int(a), Int(b))) <==> a >= b
  {
  }

  lemma BoolOrder<D>(fl: Floats<D>, a: bool, b: bool)
    ensures IsTrue(BinaryOp(fl, Lt, Bool(a), Bool(b))) <==> !a && b
    ensures IsTrue(BinaryOp(fl, Le, Bool(a), Bool(b))) <==> (a ==> b)
  {
  }

  /** Doubles, and floats likewise, are compared by the double operations. */
  lemma DoubleOrder<D>(fl: Floats<D>, a: D, b: D, single: bool)
    ensures var l, r := if single then Float(a) else Double(a), if single then Float(b) else Double(b);
            && (IsTrue(BinaryOp(fl, Eq, l, r)) <==> fl.eq(a, b))
            && (IsTrue(BinaryOp(fl, Lt, l, r)) <==> fl.lt(a, b))
            && (IsTrue(BinaryOp(fl, Le, l, r)) <==> fl.le(a, b))
  {
  }

  /** Objects of one kind can only be told apart: they are equal exactly if they are one object. Objects of
      different kinds, and values of different types, cannot be compared. */
  lemma ObjectsCompare<D>(fl: Floats<D>, l: Value<D>, r: Value<D>, op: Op)
    requires IsComparison(op)
    ensures l.Object? && r.Object? ==>
              (BinaryOp(fl, op, l, r).Ok? <==> l.kind == r.kind && (op == Eq || op == Ne))
    ensures l.Object? && r.Object? && l.kind == r.kind ==> (IsTrue(BinaryOp(fl, Eq, l, r)) <==> l == r)
    ensures TypeOf(l) != TypeOf(r) || l.Nil? ==> BinaryOp(fl, op, l, r) == Err(Mismatch)
  {
  }

  // ---------------------------------------------------------------- the order of strings

  lemma {:induction false} TextZero(a: string, b: string)
    ensures CompareText(a, b) == 0 <==> a == b
    decreases |a|
  {
    if a != "" && b != "" && a[0] == b[0] {
      TextZero(a[1..], b[1..]);
      assert a == [a[0]] + a[1..] && b == [b[0]] + b[1..];
    }
  }

  lemma {:induction false} TextAntisymmetric(a: string, b: string)
    ensures CompareText(a, b) == -CompareText(b, a)
    decreases |a|
  {
    if a != "" && b != "" && a[0] == b[0] { TextAntisymmetric(a[1..], b[1..]); }
  }

  lemma {:induction false} TextTransitive(a: string, b: string, c: string)
    requires CompareText(a, b) < 0 && CompareText(b, c) < 0
    ensures CompareText(a, c) < 0
    decreases |a|
  {
    if a != "" && b != "" && c != "" && a[0] == b[0] == c[0] { TextTransitive(a[1..], b[1..], c[1..]); }
  }

  /** A proper prefix comes first. */
  lemma {:induction false} PrefixIsLess(a: string, more: string)
    requires more != ""
    ensures CompareText(a, a + more) < 0
    decreases |a|
  {
    if a == "" {
      assert a + more == more;
    } else {
      assert (a + more)[1..] == a[1..] + more;
      PrefixIsLess(a[1..], more);
    }
  }

  /** Otherwise the first character that differs decides. */
  lemma {:induction false} FirstDifferenceDecides(common: string, a: string, b: string)
    requires a != "" && b != "" && a[0] < b[0]
    ensures CompareText(common + a, common + b) < 0
    decreases |common|
  {
    if common == "" {
      assert common + a == a && common + b == b;
    } else {
      assert (common + a)[1..] == common[1..] + a && (common + b)[1..] == common[1..] + b;
      FirstDifferenceDecides(common[1..], a, b);
    }
  }

  // ---------------------------------------------------------------- arithmetic

  /** `+` on strings puts the left text in front of the right one. */
  lemma StringSum<D>(fl: Floats<D>, a: string, b: string)
    ensures var r := BinaryOp(fl, Add, Str(a), Str(b));
            r.Ok? && r.value.Str? && a <= r.value.s && r.value.s[|a|..] == b
  {
  }

  /** Integer sums, differences and products obey the ring laws that determine them. */
  lemma IntegerArithmetic<D>(fl: Floats<D>, a: int, b: int)
    ensures BinaryOp(fl, Add, Int(a), Int(b)) == BinaryOp(fl, Add, Int(b), Int(a))
    ensures BinaryOp(fl, Add, Int(a), Int(0)) == Ok(Int(a)) && BinaryOp(fl, Mul, Int(a), Int(1)) == Ok(Int(a))
    ensures BinaryOp(fl, Add, Int(a), Int(b + 1)) == BinaryOp(fl, Add, Int(a + 1), Int(b))
    ensures Slot(BinaryOp(fl, Sub, Slot(BinaryOp(fl, Add, Int(a), Int(b))), Int(b))) == Int(a)
    ensures Slot(BinaryOp(fl, Mul, Int(a), Int(b + 1)))
            == Slot(BinaryOp(fl, Add, Slot(BinaryOp(fl, Mul, Int(a), Int(b))), Int(a)))
    ensures BinaryOp(fl, Mul, Int(a), Int(0)) == Ok(Int(0))
  {
    assert a * (b + 1) == a * b + a;
  }

  /** Quotient and remainder exist exactly for a non-zero divisor, and together give back the dividend. */
  lemma IntegerDivision<D>(fl: Floats<D>, a: int, b: int)
    ensures b == 0 ==> BinaryOp(fl, Div, Int(a), Int(b)) == BinaryOp(fl, Mod, Int(a), Int(b)) == Err(ZeroDivisor)
    ensures b != 0 ==>
              var q, r := BinaryOp(fl, Div, Int(a), Int(b)), BinaryOp(fl, Mod, Int(a), Int(b));
              && q.Ok? && q.value.Int? && r.Ok? && r.value.Int?
              && q.value.n * b + r.value.n == a && Abs(r.value.n) < Abs(b)
              && (r.value.n == 0 || (r.value.n < 0) == (a < 0))
  {
    if b != 0 { QuotRem(a, b); }
  }

  /** The double that a number becomes beside a double or a float. */
  ghost predicate Promotes<D>(fl: Floats<D>, v: Value<D>, d: D) {
    match v
    case Int(n) => d == fl.ofInt(n)
    case Float(f) => d == f
    case Double(x) => d == x
    case _ => false
  }

  /** Numbers that are not both integers are promoted, and the double operation is applied to them in order. */
  lemma MixedArithmetic<D>(fl: Floats<D>, l: Value<D>, r: Value<D>, x: D, y: D)
    requires Promotes(fl, l, x) && Promotes(fl, r, y) && !(l.Int? && r.Int?)
    ensures BinaryOp(fl, Add, l, r) == Ok(Double(fl.add(x, y)))
    ensures BinaryOp(fl, Sub, l, r) == Ok(Double(fl.sub(x, y)))
    ensures BinaryOp(fl, Mul, l, r) == Ok(Double(fl.mul(x, y)))
    ensures BinaryOp(fl, Div, l, r) == if fl.eq(y, fl.ofInt(0)) then Err(ZeroDivisor) else Ok(Double(fl.div(x, y)))
    ensures BinaryOp(fl, Mod, l, r) == Err(Mismatch)
  {
  }

  /** Nothing else can be added, and only numbers can be subtracted, multiplied and divided. */
  lemma ArithmeticDomain<D>(fl: Floats<D>, l: Value<D>, r: Value<D>, op: Op)
    requires op.Add? || op.Sub? || op.Mul? || op.Div? || op.Mod?
    ensures !(IsNumber(TypeOf(l)) && IsNumber(TypeOf(r))) ==>
              (BinaryOp(fl, op, l, r).Ok? <==> op.Add? && l.Str? && r.Str?)
  {
  }
}
