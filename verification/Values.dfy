/** The runtime's operators on boxed values. Floating-point arithmetic is a parameter: both the compiled
    fast path and the runtime use the same operations. */
module Values {
  // ---------------------------------------------------------------- values

  /** The double operations of the machine. `Float` values are held at double precision. */
  datatype Floats<!D> = Floats(
    add: (D, D) -> D, sub: (D, D) -> D, mul: (D, D) -> D, div: (D, D) -> D, neg: D -> D,
    ofInt: int -> D, eq: (D, D) -> bool, lt: (D, D) -> bool, le: (D, D) -> bool)

  datatype Value<D> =
    | Nil
    | Bool(b: bool)
    | Int(n: int)
    | Float(f: D)
    | Double(d: D)
    | Str(s: string)
    | Object(kind: nat, at: nat)

  datatype Type = TNil | TBool | TInt | TFloat | TDouble | TStr | TObject(kind: nat)

  function TypeOf<D>(v: Value<D>): Type {
    match v
    case Nil => TNil
    case Bool(_) => TBool
    case Int(_) => TInt
    case Float(_) => TFloat
    case Double(_) => TDouble
    case Str(_) => TStr
    case Object(k, _) => TObject(k)
  }

  datatype Op = Add | Sub | Mul | Div | Mod | Eq | Ne | Lt | Gt | Le | Ge | And | Or

  datatype Error = Mismatch | ZeroDivisor

  datatype Result<T> = Ok(value: T) | Err(error: Error)

  predicate IsNumber(t: Type) { t == TInt || t == TFloat || t == TDouble }

  predicate IsComparison(op: Op) { op.Eq? || op.Ne? || op.Lt? || op.Gt? || op.Le? || op.Ge? }

  // ---------------------------------------------------------------- integers

  const INT_MIN: int := -0x8000_0000_0000_0000
  const INT_MAX: int := 0x7FFF_FFFF_FFFF_FFFF

  predicate InRange(n: int) { INT_MIN <= n <= INT_MAX }

  function Abs(n: int): nat { if n < 0 then -n else n }

  /** Division truncates toward zero, and the remainder takes the sign of the dividend. */
  function Quot(a: int, b: int): int
    requires b != 0
  {
    if (a < 0) == (b < 0) then Abs(a) / Abs(b) else -(Abs(a) / Abs(b))
  }

  function Rem(a: int, b: int): int
    requires b != 0
  {
    if a < 0 then -(Abs(a) % Abs(b)) else Abs(a) % Abs(b)
  }

  /** Truncating division is the one with a remainder smaller than the divisor and of the dividend's sign. */
  lemma {:induction false} QuotRem(a: int, b: int)
    requires b != 0
    ensures Quot(a, b) * b + Rem(a, b) == a
    ensures Abs(Rem(a, b)) < Abs(b) && (Rem(a, b) == 0 || (Rem(a, b) < 0) == (a < 0))
  {
    var q, r := Abs(a) / Abs(b), Abs(a) % Abs(b);
    assert q * Abs(b) + r == Abs(a);
    if a < 0 {
      assert Quot(a, b) * b == -(q * Abs(b));
    } else {
      assert Quot(a, b) * b == q * Abs(b);
    }
  }

  // ---------------------------------------------------------------- operators

  function AsDouble<D>(fl: Floats<D>, v: Value<D>): D {
    match v
    case Double(d) => d
    case Float(f) => f
    case Int(n) => fl.ofInt(n)
    case _ => fl.ofInt(0)
  }

  function AddValues<D>(fl: Floats<D>, l: Value<D>, r: Value<D>): Result<Value<D>> {
    if l.Str? || r.Str? then (if l.Str? && r.Str? then Ok(Str(l.s + r.s)) else Err(Mismatch))
    else if !IsNumber(TypeOf(l)) || !IsNumber(TypeOf(r)) then Err(Mismatch)
    else if l.Int? && r.Int? then Ok(Int(l.n + r.n))
    else Ok(Double(fl.add(AsDouble(fl, l), AsDouble(fl, r))))
  }

  function Arithmetic<D>(fl: Floats<D>, op: Op, l: Value<D>, r: Value<D>): Result<Value<D>>
    requires op.Sub? || op.Mul? || op.Div? || op.Mod?
  {
    if !IsNumber(TypeOf(l)) || !IsNumber(TypeOf(r)) then Err(Mismatch)
    else if l.Int? && r.Int? then
      if (op.Div? || op.Mod?) && r.n == 0 then Err(ZeroDivisor)
      else
        Ok(Int(match op
               case Sub => l.n - r.n
               case Mul => l.n * r.n
               case Div => Quot(l.n, r.n)
               case Mod => Rem(l.n, r.n)))
    else if op.Mod? then Err(Mismatch)
    else
      var x, y := AsDouble(fl, l), AsDouble(fl, r);
      if op.Div? && fl.eq(y, fl.ofInt(0)) then Err(ZeroDivisor)
      else Ok(Double(match op case Sub => fl.sub(x, y) case Mul => fl.mul(x, y) case Div => fl.div(x, y)))
  }

  /** Byte-wise order of strings. */
  function CompareText(a: string, b: string): int {
    if a == [] && b == [] then 0
    else if a == [] then -1
    else if b == [] then 1
    else if a[0] != b[0] then (if a[0] < b[0] then -1 else 1)
    else CompareText(a[1..], b[1..])
  }

  function OrderOf(op: Op, order: int): bool
    requires IsComparison(op)
  {
    match op
    case Eq => order == 0
    case Ne => order != 0
    case Lt => order < 0
    case Gt => order > 0
    case Le => order <= 0
    case Ge => order >= 0
  }

  function CompareDoubles<D>(fl: Floats<D>, op: Op, x: D, y: D): bool
    requires IsComparison(op)
  {
    match op
    case Eq => fl.eq(x, y)
    case Ne => !fl.eq(x, y)
    case Lt => fl.lt(x, y)
    case Gt => fl.lt(y, x)
    case Le => fl.le(x, y)
    case Ge => fl.le(y, x)
  }

  function BoolAsInt(b: bool): int { if b then 1 else 0 }

  function Compare<D>(fl: Floats<D>, op: Op, l: Value<D>, r: Value<D>): Result<bool>
    requires IsComparison(op)
  {
    match (l, r)
    case (Int(a), Int(b)) => Ok(OrderOf(op, a - b))
    case (Double(a), Double(b)) => Ok(CompareDoubles(fl, op, a, b))
    case (Float(a), Float(b)) => Ok(CompareDoubles(fl, op, a, b))
    case (Bool(a), Bool(b)) => Ok(OrderOf(op, BoolAsInt(a) - BoolAsInt(b)))
    case (Str(a), Str(b)) => Ok(OrderOf(op, CompareText(a, b)))
    case (Object(k, a), Object(m, b)) =>
      if k != m || !(op.Eq? || op.Ne?) then Err(Mismatch) else Ok(OrderOf(op, a - b))
    case _ => Err(Mismatch)
  }

  function BinaryOp<D>(fl: Floats<D>, op: Op, l: Value<D>, r: Value<D>): Result<Value<D>> {
    match op
    case Add => AddValues(fl, l, r)
    case Sub => Arithmetic(fl, op, l, r)
    case Mul => Arithmetic(fl, op, l, r)
    case Div => Arithmetic(fl, op, l, r)
    case Mod => Arithmetic(fl, op, l, r)
    case And => if l.Bool? && r.Bool? then Ok(Bool(l.b && r.b)) else Err(Mismatch)
    case Or => if l.Bool? && r.Bool? then Ok(Bool(l.b || r.b)) else Err(Mismatch)
    case _ =>
      match Compare(fl, op, l, r) {
        case Ok(b) => Ok(Bool(b))
        case Err(e) => Err(e)
      }
  }

  function UnaryNot<D>(v: Value<D>): Result<Value<D>> { if v.Bool? then Ok(Bool(!v.b)) else Err(Mismatch) }

  /** What the result slot holds afterwards: it starts as nil and a failing operator leaves it so. */
  function Slot<D>(r: Result<Value<D>>): Value<D> { if r.Ok? then r.value else Nil }

  // ---------------------------------------------------------------- expressions

  datatype Expr<D> =
    | IntLit(n: int)
    | BoolLit(b: bool)
    | DoubleLit(d: D)
    | Var(name: string)
    | Other(v: Value<D>)
    | Binary(op: Op, left: Expr<D>, right: Expr<D>)
    | Minus(operand: Expr<D>)
    | Not(operand: Expr<D>)
}
