/** The expression grammar: a recursive-descent parser over what is left of the source text, and the
    printer of the syntax tree.
    One function stands for each level of the grammar, from logical-or down to postfix and primary
    expressions. Each takes the rest of the text and gives a tree with what is left after it, or
    fails. The rest never grows, which is why the mutual recursion ends; module RoundTrip relates
    parser and printer, and module Reader has the same parser with a moving cursor. */
module Parser {
  // ---------------------------------------------------------------- trees

  datatype Ast =
    | NilLit
    | BoolLit(b: bool)
    | IntLit(n: nat)
    | DoubleLit(text: string)
    | StrLit(s: string)
    | Var(name: string)
    | Self
    | Super
    | Binary(op: char, left: Ast, right: Ast)
    | Unary(op: char, operand: Ast)
    | Call(name: string, args: Asts)
    | Array(items: Asts)
    | Dict(pairs: Pairs)
    | Index(target: Ast, at: Ast)
    | Member(target: Ast, name: string, chained: bool)
    | Method(target: Ast, name: string, args: Asts, chained: bool)
    | Struct(name: string, fields: Fields)

  datatype Asts = NoAsts | MoreAsts(head: Ast, tail: Asts)
  datatype Pairs = NoPairs | MorePairs(key: Ast, value: Ast, rest: Pairs)
  datatype Fields = NoFields | MoreFields(field: string, value: Ast, rest: Fields)

  // ---------------------------------------------------------------- characters

  predicate IsSpace(c: char) { c == ' ' || '\t' <= c <= '\r' }
  predicate IsDigit(c: char) { '0' <= c <= '9' }
  predicate IsIdentStart(c: char) { 'a' <= c <= 'z' || 'A' <= c <= 'Z' || c == '_' }
  predicate IsIdentChar(c: char) { IsIdentStart(c) || IsDigit(c) }

  /** The character at the cursor; the terminator at the end. */
  function Peek(s: string): char { if s == "" then '\0' else s[0] }

  function DropLine(s: string): (r: string)
    ensures |r| <= |s|
  {
    if s == "" || s[0] == '\n' then s else DropLine(s[1..])
  }

  /** Skips white space and line comments. */
  function Skip(s: string): (r: string)
    ensures |r| <= |s|
    decreases |s|
  {
    if s != "" && IsSpace(s[0]) then Skip(s[1..])
    else if |s| >= 2 && s[0] == '/' && s[1] == '/' then Skip(DropLine(s[2..]))
    else s
  }

  function IdentLength(s: string): (n: nat)
    ensures n <= |s|
  {
    if s == "" || !IsIdentChar(s[0]) then 0 else 1 + IdentLength(s[1..])
  }

  /** The keyword stands at the cursor and is not the beginning of a longer name. */
  predicate AtKeyword(s: string, word: string) { word <= s && !IsIdentChar(Peek(s[|word|..])) }

  // ---------------------------------------------------------------- literals

  datatype Parsed = Fail | Done(e: Ast, rest: string)

  /** Digits and at most one dot. */
  function NumberLength(s: string, dotted: bool): (n: nat)
    ensures n <= |s|
  {
    if s == "" || !(IsDigit(s[0]) || s[0] == '.') || (s[0] == '.' && dotted) then 0
    else 1 + NumberLength(s[1..], dotted || s[0] == '.')
  }

  function Value(digits: string): nat {
    if digits == "" then 0
    else
      var last := digits[|digits| - 1];
      10 * Value(digits[..|digits| - 1]) + if IsDigit(last) then (last - '0') as nat else 0
  }

  const MAX_TOKEN: nat := 1024

  function ParseNumber(s: string): (r: Parsed)
    ensures r.Done? ==> |r.rest| < |s|
  {
    var n := NumberLength(s, false);
    if n == 0 || n >= MAX_TOKEN then Fail
    else Done(if '.' in s[..n] then DoubleLit(s[..n]) else IntLit(Value(s[..n])), s[n..])
  }

  /** What an escape stands for; an unknown one keeps its backslash. */
  function Escaped(c: char): string {
    if c == 'n' then "\n" else if c == 't' then "\t" else if c == 'r' then "\r"
    else if c == 'b' then [8 as char] else if c == 'f' then [12 as char]
    else if c == '"' || c == '\\' || c == '/' || c == '(' then [c]
    else ['\\', c]
  }

  /** The pieces of an interpolated string are concatenated with `+`. */
  function Joined(left: Ast, hasLeft: bool, right: Ast): Ast { if hasLeft then Binary('+', left, right) else right }

  // ---------------------------------------------------------------- expressions

  function ParseExpr(s: string): (r: Parsed)
    ensures r.Done? ==> |r.rest| < |s|
    decreases |s|, 10
  {
    ParseOr(s)
  }

  function ParseOr(s: string): (r: Parsed)
    ensures r.Done? ==> |r.rest| < |s|
    decreases |s|, 9
  {
    match ParseAnd(s) case Fail => Fail case Done(left, rest) => OrLoop(left, Skip(rest))
  }

  function OrLoop(left: Ast, s: string): (r: Parsed)
    ensures r.Done? ==> |r.rest| <= |s|
    decreases |s|, 9
  {
    if "||" <= s then
      match ParseAnd(s[2..]) case Fail => Fail case Done(right, rest) => OrLoop(Binary('|', left, right), Skip(rest))
    else Done(left, s)
  }

  function ParseAnd(s: string): (r: Parsed)
    ensures r.Done? ==> |r.rest| < |s|
    decreases |s|, 8
  {
    match ParseComparison(s) case Fail => Fail case Done(left, rest) => AndLoop(left, Skip(rest))
  }

  function AndLoop(left: Ast, s: string): (r: Parsed)
    ensures r.Done? ==> |r.rest| <= |s|
    decreases |s|, 8
  {
    if "&&" <= s then
      match ParseComparison(s[2..])
      case Fail => Fail
      case Done(right, rest) => AndLoop(Binary('&', left, right), Skip(rest))
    else Done(left, s)
  }

  /** One comparison at most. */
  function ParseComparison(s: string): (r: Parsed)
    ensures r.Done? ==> |r.rest| < |s|
    decreases |s|, 7
  {
    match ParseTerm(s)
    case Fail => Fail
    case Done(left, rest) =>
      var t := Skip(rest);
      if "==" <= t || "!=" <= t || "<=" <= t || ">=" <= t then
        var op := if t[0] == '<' then 'l' else if t[0] == '>' then 'g' else t[0];
        match ParseTerm(t[2..]) case Fail => Fail case Done(right, more) => Done(Binary(op, left, right), more)
      else if Peek(t) == '<' || Peek(t) == '>' then
        match ParseTerm(t[1..]) case Fail => Fail case Done(right, more) => Done(Binary(t[0], left, right), more)
      else Done(left, t)
  }

  function ParseTerm(s: string): (r: Parsed)
    ensures r.Done? ==> |r.rest| < |s|
    decreases |s|, 6
  {
    match ParseFactor(s) case Fail => Fail case Done(left, rest) => TermLoop(left, Skip(rest))
  }

  function TermLoop(left: Ast, s: string): (r: Parsed)
    ensures r.Done? ==> |r.rest| <= |s|
    decreases |s|, 6
  {
    if Peek(s) == '+' || Peek(s) == '-' then
      match ParseFactor(s[1..])
      case Fail => Fail
      case Done(right, rest) => TermLoop(Binary(s[0], left, right), Skip(rest))
    else Done(left, s)
  }

  function ParseFactor(s: string): (r: Parsed)
    ensures r.Done? ==> |r.rest| < |s|
    decreases |s|, 5
  {
    match ParseUnary(s) case Fail => Fail case Done(left, rest) => FactorLoop(left, Skip(rest))
  }

  function FactorLoop(left: Ast, s: string): (r: Parsed)
    ensures r.Done? ==> |r.rest| <= |s|
    decreases |s|, 5
  {
    if Peek(s) == '*' || Peek(s) == '/' || Peek(s) == '%' then
      match ParseUnary(s[1..])
      case Fail => Fail
      case Done(right, rest) => FactorLoop(Binary(s[0], left, right), Skip(rest))
    else Done(left, s)
  }

  function ParseUnary(s: string): (r: Parsed)
    ensures r.Done? ==> |r.rest| < |s|
    decreases |s|, 4
  {
    var t := Skip(s);
    if Peek(t) == '!' || Peek(t) == '-' then
      match ParseUnary(t[1..]) case Fail => Fail case Done(x, rest) => Done(Unary(t[0], x), rest)
    else
      match ParsePrimary(t) case Fail => Fail case Done(base, rest) => PostfixLoop(base, rest)
  }

  function ParsePrimary(s: string): (r: Parsed)
    ensures r.Done? ==> |r.rest| < |s|
    decreases |s|, 3
  {
    var t := Skip(s);
    if AtKeyword(t, "nil") then Done(NilLit, t[3..])
    else if AtKeyword(t, "true") then Done(BoolLit(true), t[4..])
    else if AtKeyword(t, "false") then Done(BoolLit(false), t[5..])
    else if Peek(t) == '(' then
      match ParseExpr(t[1..])
      case Fail => Fail
      case Done(inner, rest) => var u := Skip(rest); if Peek(u) == ')' then Done(inner, u[1..]) else Fail
    else if Peek(t) == '"' then StringLoop(t[1..], "", NilLit, false)
    else if IsDigit(Peek(t)) || (Peek(t) == '.' && IsDigit(Peek(t[1..]))) then ParseNumber(t)
    else if Peek(t) == '[' then ParseBracket(t[1..])
    else if IsIdentStart(Peek(t)) then ParseIdent(t)
    else Fail
  }

  /** The rest of a string literal; `left` holds the pieces before, if any. */
  function StringLoop(s: string, buffer: string, left: Ast, hasLeft: bool): (r: Parsed)
    ensures r.Done? ==> |r.rest| <= |s|
    decreases |s|, 2
  {
    if s == "" then Fail
    else if s[0] == '"' then
      Done(if buffer != "" || !hasLeft then Joined(left, hasLeft, StrLit(buffer)) else left, s[1..])
    else if "\\(" <= s then
      match ParseExpr(s[2..])
      case Fail => Fail
      case Done(inner, rest) =>
        var u := Skip(rest);
        if Peek(u) != ')' then Fail
        else
          var before := if buffer != "" then Joined(left, hasLeft, StrLit(buffer)) else left;
          var all := Joined(before, hasLeft || buffer != "", Call("str", MoreAsts(inner, NoAsts)));
          StringLoop(u[1..], "", all, true)
    else if s[0] == '\\' && |s| >= 2 then StringLoop(s[2..], buffer + Escaped(s[1]), left, hasLeft)
    else StringLoop(s[1..], buffer + [s[0]], left, hasLeft)
  }

  /** A name, a call or a struct literal. */
  function ParseIdent(s: string): (r: Parsed)
    requires IsIdentStart(Peek(s))
    ensures r.Done? ==> |r.rest| < |s|
    decreases |s|, 2
  {
    var n := 1 + IdentLength(s[1..]);
    var name, t := s[..n], Skip(s[n..]);
    if name == "self" then Done(Self, s[n..])
    else if name == "super" then Done(Super, s[n..])
    else if Peek(t) == '{' then
      match FieldLoop(Skip(t[1..])) case NoneParsed => Fail case SomeFields(fs, rest) => Done(Struct(name, fs), rest)
    else if Peek(t) == '(' then
      match ParseArguments(t[1..]) case NoArgs => Fail case SomeArgs(args, rest) => Done(Call(name, args), rest)
    else Done(Var(name), t)
  }

  datatype ParsedFields = NoneParsed | SomeFields(fs: Fields, rest: string)

  function FieldLoop(s: string): (r: ParsedFields)
    ensures r.SomeFields? ==> |r.rest| <= |s|
    decreases |s|, 1
  {
    if s == "" then NoneParsed
    else if s[0] == '}' then SomeFields(NoFields, s[1..])
    else if !IsIdentStart(s[0]) then NoneParsed
    else
      var n := 1 + IdentLength(s[1..]);
      var t := Skip(s[n..]);
      if Peek(t) != ':' then NoneParsed
      else
        match ParseExpr(t[1..])
        case Fail => NoneParsed
        case Done(v, rest) =>
          FieldEnd(s[..n], v, Skip(rest))
  }

  /** After a field: a comma and more, or the closing brace. */
  function FieldEnd(name: string, v: Ast, u: string): (r: ParsedFields)
    ensures r.SomeFields? ==> |r.rest| <= |u|
    decreases |u|, 2
  {
    if Peek(u) == ',' then
      match FieldLoop(Skip(u[1..]))
      case NoneParsed => NoneParsed
      case SomeFields(fs, more) => SomeFields(MoreFields(name, v, fs), more)
    else if Peek(u) == '}' then SomeFields(MoreFields(name, v, NoFields), u[1..])
    else NoneParsed
  }

  datatype ParsedArgs = NoArgs | SomeArgs(args: Asts, rest: string)

  function ParseArguments(s: string): (r: ParsedArgs)
    ensures r.SomeArgs? ==> |r.rest| <= |s|
    decreases |s|, 12
  {
    ArgLoop(Skip(s))
  }

  function ArgLoop(s: string): (r: ParsedArgs)
    ensures r.SomeArgs? ==> |r.rest| <= |s|
    decreases |s|, 11
  {
    if s == "" then NoArgs
    else if s[0] == ')' then SomeArgs(NoAsts, s[1..])
    else
      match ParseExpr(s)
      case Fail => NoArgs
      case Done(a, rest) =>
        var u := Skip(rest);
        if Peek(u) == ',' then
          match ArgLoop(Skip(u[1..])) case NoArgs => NoArgs case SomeArgs(more, end) => SomeArgs(MoreAsts(a, more), end)
        else if Peek(u) == ')' then SomeArgs(MoreAsts(a, NoAsts), u[1..])
        else NoArgs
  }

  datatype ParsedItems = NoItems | SomeItems(items: Asts, pairs: Pairs, dict: bool, rest: string)

  /** An array or a dictionary, after the opening bracket. */
  function ParseBracket(s: string): (r: Parsed)
    ensures r.Done? ==> |r.rest| <= |s|
    decreases |s|, 12
  {
    var t := Skip(s);
    if Peek(t) == ':' then
      var u := Skip(t[1..]);
      if Peek(u) == ']' then Done(Dict(NoPairs), u[1..]) else Fail
    else
      match ItemLoop(t, false)
      case NoItems => Fail
      case SomeItems(items, pairs, dict, rest) => Done(if dict then Dict(pairs) else Array(items), rest)
  }

  /** The first colon makes the literal a dictionary, and from then on every element needs one. */
  function ItemLoop(s: string, dict: bool): (r: ParsedItems)
    ensures r.SomeItems? ==> |r.rest| <= |s|
    decreases |s|, 11
  {
    if s == "" then NoItems
    else if s[0] == ']' then SomeItems(NoAsts, NoPairs, dict, s[1..])
    else
      match ParseExpr(s)
      case Fail => NoItems
      case Done(first, rest) =>
        var u := Skip(rest);
        if Peek(u) == ':' then
          match ParseExpr(u[1..])
          case Fail => NoItems
          case Done(v, more) =>
            (match ItemEnd(Skip(more), true)
             case NoItems => NoItems
             case SomeItems(items, pairs, d, end) => SomeItems(items, MorePairs(first, v, pairs), d, end))
        else if dict then NoItems
        else
          match ItemEnd(u, false)
          case NoItems => NoItems
          case SomeItems(items, pairs, d, end) => SomeItems(MoreAsts(first, items), pairs, d, end)
  }

  /** After an element: a comma and more, or the closing bracket. */
  function ItemEnd(u: string, dict: bool): (r: ParsedItems)
    ensures r.SomeItems? ==> |r.rest| <= |u|
    decreases |u|, 12
  {
    if Peek(u) == ',' then ItemLoop(Skip(u[1..]), dict)
    else if Peek(u) == ']' then SomeItems(NoAsts, NoPairs, dict, u[1..])
    else NoItems
  }

  /** Index, member and method suffixes. */
  function PostfixLoop(base: Ast, s: string): (r: Parsed)
    ensures r.Done? ==> |r.rest| <= |s|
    decreases |s|, 3
  {
    var t := Skip(s);
    if Peek(t) == '[' then
      match ParseExpr(t[1..])
      case Fail => Fail
      case Done(i, rest) => var u := Skip(rest); if Peek(u) == ']' then PostfixLoop(Index(base, i), u[1..]) else Fail
    else if "?." <= t then MemberSuffix(base, Skip(t[2..]), true)
    else if Peek(t) == '.' then MemberSuffix(base, Skip(t[1..]), false)
    else Done(base, t)
  }

  function MemberSuffix(base: Ast, s: string, chained: bool): (r: Parsed)
    ensures r.Done? ==> |r.rest| <= |s|
    decreases |s|, 4
  {
    if !IsIdentStart(Peek(s)) then Fail
    else
      var n := 1 + IdentLength(s[1..]);
      var name, t := s[..n], Skip(s[n..]);
      if Peek(t) == '(' then
        match ParseArguments(t[1..])
        case NoArgs => Fail
        case SomeArgs(args, rest) => PostfixLoop(Method(base, name, args, chained), rest)
      else PostfixLoop(Member(base, name, chained), t)
  }

  // ---------------------------------------------------------------- the printer

  function Digit(d: nat): char
    requires d < 10
  {
    "0123456789"[d]
  }

  function Decimal(n: nat): string { if n < 10 then [Digit(n)] else Decimal(n / 10) + [Digit(n % 10)] }

  function Dump(e: Ast): string {
    match e
    case NilLit => "nil"
    case BoolLit(b) => if b then "true" else "false"
    case IntLit(n) => Decimal(n)
    case DoubleLit(text) => text
    case StrLit(s) => "\"" + s + "\""
    case Var(x) => x
    case Self => "<expr>"
    case Super => "<expr>"
    case Binary(op, l, r) => "(" + Dump(l) + " " + [op] + " " + Dump(r) + ")"
    case Unary(op, x) => "(" + [op] + Dump(x) + ")"
    case Call(f, args) => f + "(" + DumpAll(args) + ")"
    case Array(items) => "[" + DumpAll(items) + "]"
    case Dict(pairs) => "[" + DumpPairs(pairs) + "]"
    case Index(t, i) => Dump(t) + "[" + Dump(i) + "]"
    case Member(t, m, chained) => Dump(t) + Dot(chained) + m
    case Method(t, m, args, chained) => Dump(t) + Dot(chained) + m + "(" + DumpAll(args) + ")"
    case Struct(_, _) => "<expr>"
  }

  function Dot(chained: bool): string { if chained then "?." else "." }

  function DumpAll(es: Asts): string {
    match es
    case NoAsts => ""
    case MoreAsts(e, NoAsts) => Dump(e)
    case MoreAsts(e, more) => Dump(e) + ", " + DumpAll(more)
  }

  function DumpPairs(ps: Pairs): string {
    match ps
    case NoPairs => ""
    case MorePairs(k, v, NoPairs) => Dump(k) + ": " + Dump(v)
    case MorePairs(k, v, more) => Dump(k) + ": " + Dump(v) + ", " + DumpPairs(more)
  }
}
