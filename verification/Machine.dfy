/** The scope stack of the running program and the machine that executes emitted code. An operation
    of the runtime that fails records an error and leaves the stack alone; the emitted code ignores
    the failure and goes on. Branch outcomes come from outside. */
module Machine {
  import opened Syntax
  import opened Codegen

  const MAX_SCOPES: nat := 64
  const MAX_VARS: nat := 256

  datatype Var = Var(name: string, isConst: bool, site: nat)

  type Scope = seq<Var>

  datatype Error =
    | UnknownName | Duplicate | ConstAssign | TooManyVars | NameTooLong
    | ScopeOverflow | BadPopTarget

  /** One lookup that succeeded: the instruction, the name, and the declaration it reached. */
  datatype Hit = Hit(pc: nat, name: string, site: nat)

  /** `entry` is the scope depth at which the activation began; the machine does not read it. */
  datatype Frame = Frame(fn: nat, pc: nat, slots: map<nat, nat>, entry: nat)

  datatype State = State(frames: seq<Frame>, scopes: seq<Scope>, errors: seq<Error>, hits: seq<Hit>) {
    function Fail(e: Error): State { this.(errors := errors + [e]) }
    function Top(): Frame requires frames != [] { frames[|frames| - 1] }
    function WithTop(f: Frame): State requires frames != [] { this.(frames := frames[..|frames| - 1] + [f]) }
    function At(pc: nat): State requires frames != [] { WithTop(Top().(pc := pc)) }
  }

  // ---------------------------------------------------------------- scope stack operations

  /** Index in the scope of the first variable of that name, or |s|. */
  function IndexIn(s: Scope, name: string): (i: nat)
    ensures i <= |s|
    ensures i < |s| ==> s[i].name == name
    ensures forall j :: 0 <= j < i ==> s[j].name != name
  {
    if s == [] || s[0].name == name then 0 else 1 + IndexIn(s[1..], name)
  }

  /** Innermost scope first, oldest variable first. */
  function Resolve(scopes: seq<Scope>, name: string): Option<Var> {
    if scopes == [] then None
    else
      var s := scopes[|scopes| - 1];
      var i := IndexIn(s, name);
      if i < |s| then Some(s[i]) else Resolve(scopes[..|scopes| - 1], name)
  }

  /** A name of length 0 or of 255 characters and more is never found. */
  function Lookup(scopes: seq<Scope>, name: string): Option<Var> {
    if 0 < |name| < 255 then Resolve(scopes, name) else None
  }

  function Declare(st: State, name: string, isConst: bool, site: nat): State {
    if st.scopes == [] then st.Fail(BadPopTarget)
    else
      var n := |st.scopes| - 1;
      var s := st.scopes[n];
      if IndexIn(s, name) < |s| then st.Fail(Duplicate)
      else if |s| >= MAX_VARS then st.Fail(TooManyVars)
      else if |name| >= 255 then st.Fail(NameTooLong)
      else st.(scopes := st.scopes[n := s + [Var(name, isConst, site)]])
  }

  function Touch(st: State, pc: nat, name: string, store: bool): State {
    match Lookup(st.scopes, name)
    case None => st.Fail(UnknownName)
    case Some(v) =>
      if store && v.isConst then st.Fail(ConstAssign)
      else st.(hits := st.hits + [Hit(pc, name, v.site)])
  }

  function Push(st: State): State {
    if |st.scopes| >= MAX_SCOPES then st.Fail(ScopeOverflow) else st.(scopes := st.scopes + [[]])
  }

  function Unwind(st: State, target: int): State {
    if target < 1 || target > |st.scopes| then st.Fail(BadPopTarget)
    else st.(scopes := st.scopes[..target])
  }

  // ---------------------------------------------------------------- one instruction

  predicate Fetches(code: seq<Code>, st: State) {
    st.frames != [] && st.Top().fn < |code| && st.Top().pc < |code[st.Top().fn]|
  }

  function Fetch(code: seq<Code>, st: State): Cell
    requires Fetches(code, st)
  {
    code[st.Top().fn][st.Top().pc]
  }

  function SlotValue(f: Frame, slot: nat): nat {
    if slot in f.slots then f.slots[slot] else 0
  }

  function Step(code: seq<Code>, st: State, taken: bool): State {
    if !Fetches(code, st) then st else
      var f := st.Top();
      var next := st.At(f.pc + 1);
      match Fetch(code, st).instr
      case Enter(s) => Push(next.WithTop(f.(pc := f.pc + 1, slots := f.slots[s := |st.scopes|])))
      case PopTo(s) => Unwind(next, SlotValue(f, s))
      case PopToBase(s) => Unwind(next, if SlotValue(f, s) >= 1 then SlotValue(f, s) else 1)
      case Decl(x, k) => Declare(next, x, k, f.pc)
      case DeclIfMissing(x) => if Lookup(st.scopes, x).Some? then next else Declare(next, x, false, f.pc)
      case Load(x) => Touch(next, f.pc, x, false)
      case Store(x) => Touch(next, f.pc, x, true)
      case Local(_, _) => next
      case Invoke(g) => next.(frames := next.frames + [Frame(g, 0, map[], |st.scopes|)])
      case Branch(yes, no) => st.At(if taken then yes else no)
      case Jump(t) => st.At(t)
      case Ret => st.(frames := st.frames[..|st.frames| - 1])
      case Halt => st.(frames := [])
  }

  function Run(code: seq<Code>, st: State, outcomes: seq<bool>): State
    decreases |outcomes|
  {
    if outcomes == [] then st else Run(code, Step(code, st, outcomes[0]), outcomes[1..])
  }

  /** `init_variables` leaves one empty scope; the program starts at the top of `main`. */
  const Init := State([Frame(0, 0, map[], 1)], [[]], [], [])

  // ---------------------------------------------------------------- the emitted program

  const TopNote := Note([], [], false)

  function MainCtx(): Ctx { Ctx(false, NoLoop, TopNote) }

  function CompileMain(b: Block): Code {
    CompileBlock(b, 0, MainCtx()) + [Cell(Halt, TopNote.(view := AfterBlock(b, 0, false, TopNote)))]
  }

  function ParamView(params: seq<string>): seq<StaticVar> {
    if params == [] then []
    else [StaticVar(params[|params| - 1], false, 0, 0)] + ParamView(params[..|params| - 1])
  }

  function BodyStart(f: Func): nat { 1 + |f.params| }

  function BodyNote(f: Func): Note { Note([0], ParamView(f.params), false) }

  function ParamCode(f: Func): (code: Code)
    ensures |code| == |f.params|
  {
    seq(|f.params|, i requires 0 <= i < |f.params| => Cell(DeclIfMissing(f.params[i]), BodyNote(f)))
  }

  /** Emitted when the last basic block of the body has no terminator. */
  function FuncTail(f: Func): (code: Code) {
    var end := BodyNote(f).(dead := BlockGuaranteesReturn(f.body));
    if EndsInJump(f.body) then [] else [Cell(PopToBase(0), end), Cell(Ret, end.(live := []))]
  }

  function CompileFunc(f: Func): Code {
    [Cell(Enter(0), Note([], [], false))]
    + ParamCode(f)
    + CompileBlock(f.body, BodyStart(f), Ctx(true, NoLoop, BodyNote(f)))
    + FuncTail(f)
  }

  function CompileProgram(p: Program): seq<Code> {
    [CompileMain(p.main)] + seq(|p.funcs|, i requires 0 <= i < |p.funcs| => CompileFunc(p.funcs[i]))
  }
}
