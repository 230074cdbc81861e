/** The language as it is written: a second printer, which takes nothing from the parser. Operators have their
    source spelling, and parentheses stand only where precedence, or grouping to the left, demands them. */
module Source {
  import opened Parser
  import opened Reading

  // ---------------------------------------------------------------- trees

  /** Digits with one dot, which does not stand alone. */
  predicate IsDecimal(t: string) {
    && |t| < MAX_TOKEN && (exists i :: 0 <= i < |t| && t[i] == '.' && AllDigits(t[..i]) && AllDigits(t[i + 1..]))
    && (IsDigit(t[0]) || (|t| > 1 && IsDigit(t[1])))
  }

  predicate AllDigits(t: string) { forall i :: 0 <= i < |t| ==> IsDigit(t[i]) }

  predicate Tree(e: Ast) {
    match e
    case NilLit => true
    case BoolLit(_) => true
    case IntLit(n) => n < INT_LIMIT
    case DoubleLit(t) => t != "" && IsDecimal(t)
    case StrLit(s) => '\0' !in s
    case Var(x) => IsName(x) && !IsReserved(x)
    case Self => true
    case Super => true
    case Binary(op, l, r) => IsOperator(op) && Tree(l) && Tree(r)
    case Unary(op, x) => (op == '-' || op == '!') && Tree(x)
    case Call(f, args) => IsName(f) && !IsReserved(f) && AllTrees(args)
    case Array(items) => AllTrees(items)
    case Dict(pairs) => PairTrees(pairs)
    case Index(t, i) => Tree(t) && Tree(i)
    case Member(t, m, _) => Tree(t) && IsName(m)
    case Method(t, m, args, _) => Tree(t) && IsName(m) && AllTrees(args)
    case Struct(name, fields) => IsName(name) && !IsReserved(name) && FieldTrees(fields)
  }

  predicate AllTrees(es: Asts) { es.MoreAsts? ==> Tree(es.head) && AllTrees(es.tail) }

  predicate PairTrees(ps: Pairs) { ps.MorePairs? ==> Tree(ps.key) && Tree(ps.value) && PairTrees(ps.rest) }

  predicate FieldTrees(fs: Fields) { fs.MoreFields? ==> IsName(fs.field) && Tree(fs.value) && FieldTrees(fs.rest) }

  // ---------------------------------------------------------------- the printer

  /** The operators as they are written. */
  function Written(op: char): string {
    if op == 'l' then "<=" else if op == 'g' then ">=" else if op == '=' then "==" else if op == '!' then "!="
    else if op == '|' then "||" else if op == '&' then "&&" else [op]
  }

  /** How tightly an operator binds: `||`, `&&`, comparisons, sums, products. */
  function Binding(op: char): nat {
    if op == '|' then 1 else if op == '&' then 2 else if op == '+' || op == '-' then 4
    else if op == '*' || op == '/' || op == '%' then 5 else 3
  }

  function Level(e: Ast): nat {
    match e
    case Binary(op, _, _) => Binding(op)
    case Unary(_, _) => 6
    case _ => 7
  }

  /** What the left operand must bind like: the operators group to the left, and comparisons do not chain. */
  function LeftLevel(op: char): nat { if Binding(op) == 3 then 4 else Binding(op) }

  /** An expression where one that binds at least like `k` is needed. */
  function Put(e: Ast, k: nat): string
    decreases e, 1
  {
    if Level(e) >= k then Show(e) else "(" + Show(e) + ")"
  }

  /** What stands before a dot: a number would take the dot for its own. */
  function Target(t: Ast, chained: bool): string
    decreases t, 2
  {
    if t.IntLit? && !chained then "(" + Show(t) + ")" else Put(t, 7)
  }

  function Show(e: Ast): string
    decreases e, 0
  {
    match e
    case NilLit => "nil"
    case BoolLit(b) => if b then "true" else "false"
    case IntLit(n) => Decimal(n)
    case DoubleLit(t) => t
    case StrLit(s) => "\"" + Escapes(s) + "\""
    case Var(x) => x
    case Self => "self"
    case Super => "super"
    case Binary(op, l, r) => Put(l, LeftLevel(op)) + (Written(op) + Put(r, Binding(op) + 1))
    case Unary(op, x) => [op] + Put(x, 6)
    case Call(f, args) => f + "(" + ShowAll(args) + ")"
    case Array(items) => "[" + ShowAll(items) + "]"
    case Dict(pairs) => if pairs.NoPairs? then "[:]" else "[" + ShowPairs(pairs) + "]"
    case Index(t, i) => Put(t, 7) + "[" + Show(i) + "]"
    case Member(t, m, chained) => Target(t, chained) + Dot(chained) + m
    case Method(t, m, args, chained) => Target(t, chained) + Dot(chained) + m + "(" + ShowAll(args) + ")"
    case Struct(name, fields) => name + "{" + ShowFields(fields) + "}"
  }

  function ShowAll(es: Asts): string {
    match es
    case NoAsts => ""
    case MoreAsts(e, more) => Show(e) + if more.NoAsts? then "" else "," + ShowAll(more)
  }

  function ShowPairs(ps: Pairs): string {
    match ps
    case NoPairs => ""
    case MorePairs(k, v, more) => Show(k) + ":" + Show(v) + if more.NoPairs? then "" else "," + ShowPairs(more)
  }

  function ShowFields(fs: Fields): string {
    match fs
    case NoFields => ""
    case MoreFields(name, v, more) => name + ":" + Show(v) + if more.NoFields? then "" else "," + ShowFields(more)
  }

  /** A character inside a string literal. */
  function EscapeOf(c: char): string {
    if c == '"' then "\\\"" else if c == '\\' then "\\\\" else if c == '\n' then "\\n" else if c == '\t' then "\\t"
    else if c == '\r' then "\\r" else if c == 8 as char then "\\b" else if c == 12 as char then "\\f" else [c]
  }

  function Escapes(s: string): string { if s == "" then "" else EscapeOf(s[0]) + Escapes(s[1..]) }

  // ---------------------------------------------------------------- string literals

  /** What a backslash and the character behind it stand for. */
  function Meaning(c: char): string {
    if c == 'n' then "\n" else if c == 't' then "\t" else if c == 'r' then "\r" else if c == 'b' then [8 as char]
    else if c == 'f' then [12 as char] else if c == '"' then "\"" else if c == '\\' then "\\" else if c == '/' then "/"
    else ['\\', c]
  }

  /** `text`, between quotes, is a way to write the string `s`. */
  predicate Writes(text: string, s: string)
    decreases |text|
  {
    if text == "" then s == ""
    else if text[0] == '\\' then
      && |text| >= 2 && text[1] != '('
      && Meaning(text[1]) <= s && Writes(text[2..], s[|Meaning(text[1])|..])
    else text[0] != '"' && s != "" && s[0] == text[0] && Writes(text[1..], s[1..])
  }

  lemma {:induction false} EscapesWrite(s: string)
    ensures Writes(Escapes(s), s)
    decreases |s|
  {
    if s != "" {
      EscapesWrite(s[1..]);
      var head, text := EscapeOf(s[0]), Escapes(s);
      assert text[|head|..] == Escapes(s[1..]);
      assert s == [s[0]] + s[1..];
    }
  }

  lemma NoPrefix(a: string, s: string, i: nat)
    requires i < |a| && i < |s| && a[i] != s[i]
    ensures !(a <= s)
  {
  }

  lemma PlainStep(c: char, tail: string, buffer: string, left: Ast, hasLeft: bool)
    requires c != '"' && c != '\\'
    ensures StringLoop([c] + tail, buffer, left, hasLeft) == StringLoop(tail, buffer + [c], left, hasLeft)
  {
    hide ParseExpr;
    assert ([c] + tail)[1..] == tail;
  }

  lemma EscapeStep(c: char, tail: string, buffer: string, left: Ast, hasLeft: bool)
    requires c != '('
    ensures StringLoop(['\\', c] + tail, buffer, left, hasLeft) == StringLoop(tail, buffer + Meaning(c), left, hasLeft)
  {
    hide ParseExpr;
    var s := ['\\', c] + tail;
    assert s[0] == '\\' && s[1] == c && s[2..] == tail;
    NoPrefix("\\(", s, 1);
  }

  /** The reader of a literal goes over any way to write a string and has the string in its buffer. */
  lemma {:induction false} WritesRead(text: string, s: string, buffer: string, left: Ast, hasLeft: bool, more: string)
    requires Writes(text, s) && more != "" && (more[0] == '"' || "\\(" <= more)
    ensures StringLoop(text + more, buffer, left, hasLeft) == StringLoop(more, buffer + s, left, hasLeft)
    decreases |text|
  {
    hide StringLoop, Meaning;
    if text == "" {
      assert text + more == more && buffer + s == buffer;
    } else if text[0] == '\\' {
      var m := Meaning(text[1]);
      assert text + more == ['\\', text[1]] + (text[2..] + more);
      EscapeStep(text[1], text[2..] + more, buffer, left, hasLeft);
      WritesRead(text[2..], s[|m|..], buffer + m, left, hasLeft, more);
      assert buffer + m + s[|m|..] == buffer + s;
    } else {
      assert text + more == [text[0]] + (text[1..] + more);
      PlainStep(text[0], text[1..] + more, buffer, left, hasLeft);
      WritesRead(text[1..], s[1..], buffer + [text[0]], left, hasLeft, more);
      assert buffer + [text[0]] + s[1..] == buffer + s;
    }
  }

  /** However a string is written, its literal is read as the string. */
  lemma {:induction false} LiteralReads(text: string, s: string, rest: string)
    requires Writes(text, s)
    ensures ParsePrimary("\"" + text + "\"" + rest) == Done(StrLit(s), rest)
  {
    hide ParsePrimary, ParseExpr, Starts;
    var close := "\"" + rest;
    assert "\"" + text + "\"" + rest == "\"" + (text + close);
    QuotePrimary(text + close);
    WritesRead(text, s, "", NilLit, false, close);
    assert "" + s == s && close[1..] == rest;
  }

  // ---------------------------------------------------------------- interpolation

  /** A literal with expressions inside: text, a hole, and so on, up to the last text. */
  datatype Template = Last(text: string) | Hole(text: string, e: Ast, more: Template)

  predicate TemplateTrees(t: Template) {
    match t
    case Last(_) => true
    case Hole(_, e, more) => Tree(e) && TemplateTrees(more)
  }

  /** The literal behind its opening quote. */
  function ShowTemplate(t: Template): string {
    match t
    case Last(s) => Escapes(s) + "\""
    case Hole(s, e, more) => Escapes(s) + ("\\(" + (Show(e) + (")" + ShowTemplate(more))))
  }

  /** What the literal joins: its texts, the empty ones left out, and its expressions as strings. */
  function Parts(t: Template): seq<Ast> {
    match t
    case Last(s) => TextPart(s)
    case Hole(s, e, more) => TextPart(s) + [Call("str", MoreAsts(e, NoAsts))] + Parts(more)
  }

  function TextPart(s: string): seq<Ast> { if s == "" then [] else [StrLit(s)] }

  /** The sum of the parts from left to right; of none, the empty string. */
  function Sum(parts: seq<Ast>): Ast {
    if parts == [] then StrLit("")
    else if |parts| == 1 then parts[0]
    else Binary('+', Sum(parts[..|parts| - 1]), parts[|parts| - 1])
  }
}
