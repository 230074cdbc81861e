/** The statements of a BreadLang program, seen from the scope stack: an expression is the list of
    variable loads and user-function calls that its evaluation performs, in evaluation order
    (both operands of `&&` and `||` are always evaluated, so the list does not depend on values). */
module Syntax {

  datatype Option<+T> = None | Some(value: T)

  datatype Action = Use(name: string) | Call(func: nat)

  type Expr = seq<Action>

  /** A statement list is linked through `next` pointers; `Done` is the null pointer. */
  datatype Block = Done | Then(first: Stmt, rest: Block)

  datatype Stmt =
    | VarDecl(name: string, isConst: bool, init: Expr)
    | Assign(name: string, compound: bool, value: Expr)
    | Eval(expr: Expr)
    | If(cond: Expr, thn: Block, hasElse: bool, els: Block)
    | While(cond: Expr, body: Block)
    | ForIn(name: string, iterable: Expr, isDict: bool, body: Block)
    | Break
    | Continue
    | Return(value: Expr)

  datatype Func = Func(params: seq<string>, body: Block)

  datatype Program = Program(main: Block, funcs: seq<Func>)

  predicate IsJump(s: Stmt) {
    s.Break? || s.Continue? || s.Return?
  }

  /** True when the basic block being filled already has its terminator once `b` has been emitted. */
  predicate EndsInJump(b: Block) {
    match b
    case Done => false
    case Then(s, Done) => IsJump(s)
    case Then(_, rest) => EndsInJump(rest)
  }

  /** The syntactic "every path returns" test. */
  predicate GuaranteesReturn(s: Stmt) {
    match s
    case Return(_) => true
    case If(_, thn, hasElse, els) => hasElse && BlockGuaranteesReturn(thn) && BlockGuaranteesReturn(els)
    case _ => false
  }

  predicate BlockGuaranteesReturn(b: Block) {
    match b
    case Done => false
    case Then(s, rest) => GuaranteesReturn(s) || BlockGuaranteesReturn(rest)
  }

  predicate CallsExist(e: Expr, funcs: nat) {
    forall a :: a in e && a.Call? ==> a.func < funcs
  }

  /** Code generation succeeds: jumps are inside a loop, `return` is inside a function, and every
      called function is known. */
  predicate StmtBuilds(s: Stmt, inFn: bool, inLoop: bool, funcs: nat) {
    match s
    case VarDecl(_, _, e) => CallsExist(e, funcs)
    case Assign(_, _, e) => CallsExist(e, funcs)
    case Eval(e) => CallsExist(e, funcs)
    case If(c, thn, hasElse, els) =>
      && CallsExist(c, funcs)
      && BlockBuilds(thn, inFn, inLoop, funcs)
      && (hasElse ==> BlockBuilds(els, inFn, inLoop, funcs))
    case While(c, body) => CallsExist(c, funcs) && BlockBuilds(body, inFn, true, funcs)
    case ForIn(_, e, _, body) => CallsExist(e, funcs) && BlockBuilds(body, inFn, true, funcs)
    case Break => inLoop
    case Continue => inLoop
    case Return(e) => inFn && CallsExist(e, funcs)
  }

  predicate BlockBuilds(b: Block, inFn: bool, inLoop: bool, funcs: nat) {
    match b
    case Done => true
    case Then(s, rest) => StmtBuilds(s, inFn, inLoop, funcs) && BlockBuilds(rest, inFn, inLoop, funcs)
  }

  predicate Builds(p: Program) {
    && BlockBuilds(p.main, false, false, |p.funcs|)
    && forall i :: 0 <= i < |p.funcs| ==> BlockBuilds(p.funcs[i].body, true, false, |p.funcs|)
  }
}
