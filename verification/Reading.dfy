/** Reading printed text: what the parser does with the text of a tree, in front of any text that may
    follow it.
    First which trees and which following texts are meant, then tokens, precedence levels and single
    forms of expression. Two inductions over trees rest on these: a tree that prints faithfully is read
    back with nothing else consumed, and the text of a tree with an operator code, a dot after a number
    or `<expr>` in it makes the parser fail or stop. Module RoundTrip has what follows. */
module Reading {
  import opened Parser

  // ---------------------------------------------------------------- the trees

  predicate IsName(x: string) { x != "" && IsIdentStart(x[0]) && forall i :: 0 <= i < |x| ==> IsIdentChar(x[i]) }

  predicate IsReserved(x: string) { x == "nil" || x == "true" || x == "false" || x == "self" || x == "super" }

  predicate IsPrinted(op: char) {
    op == '+' || op == '-' || op == '*' || op == '/' || op == '%' || op == '<' || op == '>'
  }

  /** Every operator of the language, by the character that stands for it in the tree: `l`, `g`, `=`, `!`,
      `|` and `&` are the codes of `<=`, `>=`, `==`, `!=`, `||` and `&&`. */
  predicate IsOperator(op: char) {
    IsPrinted(op) || op == 'l' || op == 'g' || op == '=' || op == '!' || op == '|' || op == '&'
  }

  const INT_LIMIT: nat := 0x8000_0000

  /** The trees that survive printing: the operators that print as they are written, non-negative integers,
      plain strings, names that are no keywords, non-empty dictionaries, and no `.` right after a number. */
  predicate Good(e: Ast) {
    match e
    case NilLit => true
    case BoolLit(_) => true
    case IntLit(n) => n < INT_LIMIT
    case StrLit(s) => '"' !in s && '\\' !in s && '\0' !in s
    case Var(x) => IsName(x) && !IsReserved(x)
    case Binary(op, l, r) => IsPrinted(op) && Good(l) && Good(r)
    case Unary(op, x) => (op == '-' || op == '!') && Good(x)
    case Call(f, args) => IsName(f) && !IsReserved(f) && GoodAll(args)
    case Array(items) => GoodAll(items)
    case Dict(pairs) => pairs.MorePairs? && GoodPairs(pairs)
    case Index(t, i) => Good(t) && Good(i)
    case Member(t, m, chained) => Good(t) && IsName(m) && (t.IntLit? ==> chained)
    case Method(t, m, args, chained) => Good(t) && IsName(m) && GoodAll(args) && (t.IntLit? ==> chained)
    case _ => false
  }

  predicate GoodAll(es: Asts) { es.MoreAsts? ==> Good(es.head) && GoodAll(es.tail) }

  predicate GoodPairs(ps: Pairs) { ps.MorePairs? ==> Good(ps.key) && Good(ps.value) && GoodPairs(ps.rest) }

  /** The same with all thirteen operators, with `.` after a number, and with the trees that print as
      `<expr>`: `self`, `super` and struct literals. */
  predicate Loose(e: Ast) {
    match e
    case Binary(op, l, r) => IsOperator(op) && Loose(l) && Loose(r)
    case Unary(op, x) => (op == '-' || op == '!') && Loose(x)
    case Call(f, args) => IsName(f) && !IsReserved(f) && LooseAll(args)
    case Array(items) => LooseAll(items)
    case Dict(pairs) => pairs.MorePairs? && LoosePairs(pairs)
    case Index(t, i) => Loose(t) && Loose(i)
    case Member(t, m, _) => Loose(t) && IsName(m)
    case Method(t, m, args, _) => Loose(t) && IsName(m) && LooseAll(args)
    case Self => true
    case Super => true
    case Struct(_, _) => true
    case _ => Good(e)
  }

  predicate LooseAll(es: Asts) { es.MoreAsts? ==> Loose(es.head) && LooseAll(es.tail) }

  predicate LoosePairs(ps: Pairs) { ps.MorePairs? ==> Loose(ps.key) && Loose(ps.value) && LoosePairs(ps.rest) }

  // ---------------------------------------------------------------- what may follow

  /** Text that ends an expression. */
  predicate Closes(rest: string) { rest == "" || rest[0] == ')' || rest[0] == ']' || rest[0] == ',' || rest[0] == ':' }

  /** A printed operator between blanks. */
  predicate StartsOp(rest: string) { |rest| >= 3 && rest[0] == ' ' && IsOperator(rest[1]) && rest[2] == ' ' }

  predicate StartsSuffix(rest: string) { rest != "" && (rest[0] == '[' || rest[0] == '.' || rest[0] == '?') }

  /** An operator without a blank before it, or the end of a struct literal. */
  predicate StartsBare(rest: string) {
    rest != "" && !("//" <= rest) &&
    var c := rest[0];
    || c == '+' || c == '-' || c == '*' || c == '/' || c == '%' || c == '<' || c == '>'
    || c == '=' || c == '!' || c == '&' || c == '|' || c == '}'
  }

  predicate Follows(rest: string) { Closes(rest) || StartsOp(rest) || StartsSuffix(rest) || StartsBare(rest) }

  function AfterBlank(rest: string): string { if StartsOp(rest) then rest[1..] else rest }

  lemma SkipFollow(rest: string)
    requires Follows(rest)
    ensures Skip(rest) == AfterBlank(rest) && Skip(AfterBlank(rest)) == AfterBlank(rest)
    ensures !IsIdentChar(Peek(rest)) && Peek(AfterBlank(rest)) != '(' && Peek(AfterBlank(rest)) != '{'
  {
    if StartsOp(rest) {
      assert rest[1..][0] == rest[1] && rest[1..][1] == rest[2];
    }
  }

  /** A printed expression starts with a character that the parser does not skip or take for an operator. */
  predicate Starts(s: string) {
    s != "" && (IsIdentStart(s[0]) || IsDigit(s[0]) || s[0] == '"' || s[0] == '(' || s[0] == '[' || s[0] == '<'
                || s[0] == '.')
  }

  lemma SkipStart(s: string)
    requires Starts(s)
    ensures Skip(s) == s && Skip(" " + s) == s
  {
    assert (" " + s)[1..] == s;
  }

  lemma {:induction false} DumpStarts(e: Ast)
    requires Loose(e)
    ensures Starts(Dump(e))
    decreases e
  {
    match e
    case IntLit(n) => DecimalStarts(n);
    case Index(t, _) => DumpStarts(t);
    case Member(t, _, _) => DumpStarts(t);
    case Method(t, _, _, _) => DumpStarts(t);
    case _ =>
  }

  lemma {:induction false} DecimalStarts(n: nat)
    ensures Decimal(n) != "" && forall i :: 0 <= i < |Decimal(n)| ==> IsDigit(Decimal(n)[i])
    decreases n
  {
    if n >= 10 { DecimalStarts(n / 10); }
  }

  // ---------------------------------------------------------------- tokens

  lemma {:induction false} IdentSpan(x: string, rest: string)
    requires forall i :: 0 <= i < |x| ==> IsIdentChar(x[i])
    requires !IsIdentChar(Peek(rest))
    ensures IdentLength(x + rest) == |x|
    decreases |x|
  {
    if x == "" {
      assert x + rest == rest;
    } else {
      assert (x + rest)[1..] == x[1..] + rest;
      IdentSpan(x[1..], rest);
    }
  }

  /** The parser reads exactly the name. */
  lemma {:induction false} NameSpan(x: string, rest: string)
    requires IsName(x) && !IsIdentChar(Peek(rest))
    ensures 1 + IdentLength((x + rest)[1..]) == |x| && (x + rest)[..|x|] == x && (x + rest)[|x|..] == rest
  {
    assert (x + rest)[1..] == x[1..] + rest;
    IdentSpan(x[1..], rest);
  }

  /** A name is taken for a keyword only if it is that keyword. */
  lemma {:induction false} NotKeyword(x: string, rest: string, word: string)
    requires IsName(x) && !IsIdentChar(Peek(rest)) && IsName(word) && x != word
    ensures !AtKeyword(x + rest, word)
  {
    var s := x + rest;
    if AtKeyword(s, word) {
      assert s == word + s[|word|..];
      IdentSpan(word, s[|word|..]);
      IdentSpan(x, rest);
    }
  }

  lemma {:induction false} DecimalSpan(n: nat, rest: string, dotted: bool)
    requires !IsDigit(Peek(rest)) && Peek(rest) != '.'
    ensures NumberLength(Decimal(n) + rest, dotted) == |Decimal(n)|
  {
    DecimalStarts(n);
    DigitSpan(Decimal(n), rest, dotted);
  }

  lemma {:induction false} DigitSpan(d: string, rest: string, dotted: bool)
    requires forall i :: 0 <= i < |d| ==> IsDigit(d[i])
    requires !IsDigit(Peek(rest)) && Peek(rest) != '.'
    ensures NumberLength(d + rest, dotted) == |d|
    decreases |d|
  {
    if d == "" {
      assert d + rest == rest;
    } else {
      assert (d + rest)[1..] == d[1..] + rest;
      DigitSpan(d[1..], rest, dotted);
    }
  }

  lemma {:induction false} DecimalValue(n: nat)
    ensures Value(Decimal(n)) == n
    decreases n
  {
    if n >= 10 {
      DecimalValue(n / 10);
      var d := Decimal(n);
      assert d[..|d| - 1] == Decimal(n / 10);
    } else {
      var d := Decimal(n);
      assert d[..|d| - 1] == "";
    }
  }

  function Power(k: nat): nat { if k == 0 then 1 else 10 * Power(k - 1) }

  lemma {:induction false} DecimalShort(n: nat, k: nat)
    requires k > 0 && n < Power(k)
    ensures |Decimal(n)| <= k
    decreases k
  {
    if n >= 10 { DecimalShort(n / 10, k - 1); }
  }

  lemma TenDigits()
    ensures INT_LIMIT <= Power(10)
  {
    assert Power(5) == 100000;
    assert Power(10) == 100000 * Power(5);
  }

  // ---------------------------------------------------------------- up the precedence levels

  lemma {:induction false} LevelsUp(s: string, e: Ast, rest: string)
    requires ParseUnary(s) == Done(e, rest) && Closes(rest)
    ensures ParseExpr(s) == Done(e, rest)
  {
    hide ParseUnary;
    SkipFollow(rest);
    assert ParseFactor(s) == Done(e, rest);
    assert ParseTerm(s) == Done(e, rest);
    assert ParseComparison(s) == Done(e, rest);
    assert ParseAnd(s) == Done(e, rest);
    assert ParseOr(s) == Done(e, rest);
  }

  lemma {:induction false} BinaryUp(s: string, l: Ast, op: char, right: string, r: Ast, rest: string)
    requires IsPrinted(op) && ParseUnary(s) == Done(l, [op] + right) && right != "" && right[0] == ' '
    requires ParseUnary(right) == Done(r, rest) && Closes(rest)
    ensures ParseExpr(s) == Done(Binary(op, l, r), rest)
  {
    hide ParseUnary;
    var t := [op] + right;
    var e := Binary(op, l, r);
    SkipFollow(rest);
    assert t[1..] == right && Skip(t) == t;
    assert ParseFactor(right) == Done(r, rest);
    assert ParseTerm(right) == Done(r, rest);
    if op == '*' || op == '/' || op == '%' {
      assert FactorLoop(e, rest) == Done(e, rest);
      assert FactorLoop(l, t) == FactorLoop(Binary(t[0], l, r), Skip(rest));
      assert ParseFactor(s) == Done(e, rest);
      assert ParseTerm(s) == Done(e, rest);
      assert ParseComparison(s) == Done(e, rest);
    } else if op == '+' || op == '-' {
      assert ParseFactor(s) == Done(l, t);
      assert TermLoop(e, rest) == Done(e, rest);
      assert TermLoop(l, t) == TermLoop(Binary(t[0], l, r), Skip(rest));
      assert ParseTerm(s) == Done(e, rest);
      assert ParseComparison(s) == Done(e, rest);
    } else {
      assert ParseFactor(s) == Done(l, t);
      assert ParseTerm(s) == Done(l, t);
      assert ParseComparison(s) == Done(e, rest);
    }
    assert ParseAnd(s) == Done(e, rest);
    assert ParseOr(s) == Done(e, rest);
  }

  // ---------------------------------------------------------------- leaves

  /** Parsing `s` up to here has read `e`; only suffixes may extend it. */
  predicate Reads(s: string, e: Ast, rest: string) { ParseUnary(s) == PostfixLoop(e, rest) }

  lemma {:induction false} SkipTwice(e: Ast, rest: string)
    requires Follows(rest)
    ensures PostfixLoop(e, AfterBlank(rest)) == PostfixLoop(e, rest)
  {
    SkipFollow(rest);
  }

  lemma FromPrimary(s: string, e: Ast, rest: string)
    requires Starts(s) && Follows(rest)
    requires ParsePrimary(s) == Done(e, rest) || ParsePrimary(s) == Done(e, AfterBlank(rest))
    ensures Reads(s, e, rest)
  {
    hide ParsePrimary, PostfixLoop, Skip;
    SkipStart(s);
    SkipTwice(e, rest);
  }

  lemma NoKeyword(s: string)
    requires Starts(s) && !IsIdentStart(s[0])
    ensures !AtKeyword(s, "nil") && !AtKeyword(s, "true") && !AtKeyword(s, "false")
  {
  }

  /** The digits of a number, as the number parser takes them. */
  lemma {:induction false} NumberSpan(n: nat, rest: string)
    requires n < INT_LIMIT && !IsDigit(Peek(rest)) && Peek(rest) != '.'
    ensures ParseNumber(Decimal(n) + rest) == Done(IntLit(n), rest)
  {
    var s, d := Decimal(n) + rest, Decimal(n);
    DecimalStarts(n);
    DecimalSpan(n, rest, false);
    DecimalValue(n);
    TenDigits();
    DecimalShort(n, 10);
    assert s[..|d|] == d && s[|d|..] == rest;
  }

  lemma {:induction false} IntReads(n: nat, rest: string)
    requires n < INT_LIMIT && Follows(rest) && Peek(rest) != '.'
    ensures Reads(Decimal(n) + rest, IntLit(n), rest)
  {
    hide ParseExpr, StringLoop, ParseBracket, ParseIdent, PostfixLoop, ParseNumber, ParseUnary, Decimal, AtKeyword;
    var s := Decimal(n) + rest;
    DecimalStarts(n);
    SkipStart(s);
    NoKeyword(s);
    NumberSpan(n, rest);
    assert ParsePrimary(s) == ParseNumber(s);
    FromPrimary(s, IntLit(n), rest);
  }

  lemma {:induction false} KeywordPrimary(e: Ast, rest: string)
    requires (e.NilLit? || e.BoolLit?) && !IsIdentChar(Peek(rest))
    ensures ParsePrimary(Dump(e) + rest) == Done(e, rest) && Starts(Dump(e) + rest)
  {
    hide ParseExpr, StringLoop, ParseBracket, ParseIdent, PostfixLoop, ParseNumber;
    var s := Dump(e) + rest;
    assert s[|Dump(e)|..] == rest;
    assert Starts(s);
    SkipStart(s);
    var word := if e.NilLit? then "nil" else if e.b then "true" else "false";
    assert Dump(e) == word && AtKeyword(s, word);
  }

  lemma {:induction false} WordReads(e: Ast, rest: string)
    requires (e.NilLit? || e.BoolLit?) && Follows(rest)
    ensures Reads(Dump(e) + rest, e, rest)
  {
    hide Dump, ParsePrimary, ParseUnary, Starts;
    SkipFollow(rest);
    KeywordPrimary(e, rest);
    FromPrimary(Dump(e) + rest, e, rest);
  }

  lemma {:induction false} PlainString(text: string, buffer: string, rest: string)
    requires '"' !in text && '\\' !in text
    ensures StringLoop(text + "\"" + rest, buffer, NilLit, false) == Done(StrLit(buffer + text), rest)
    decreases |text|
  {
    var s := text + "\"" + rest;
    if text == "" {
      assert s == "\"" + rest && s[1..] == rest && buffer + text == buffer;
    } else {
      assert s[1..] == text[1..] + "\"" + rest;
      assert buffer + [text[0]] + text[1..] == buffer + text;
      PlainString(text[1..], buffer + [text[0]], rest);
    }
  }

  lemma QuotePrimary(text: string)
    ensures ParsePrimary("\"" + text) == StringLoop(text, "", NilLit, false) && Starts("\"" + text)
  {
    hide ParseExpr, StringLoop, ParseBracket, ParseIdent, PostfixLoop, ParseNumber;
    var s := "\"" + text;
    NoKeyword(s);
    SkipStart(s);
    assert s[1..] == text;
  }

  lemma {:induction false} StringReads(text: string, rest: string)
    requires '"' !in text && '\\' !in text && Follows(rest)
    ensures Reads(Dump(StrLit(text)) + rest, StrLit(text), rest)
  {
    hide ParsePrimary, StringLoop, PostfixLoop, ParseUnary, Follows, Starts;
    var s := "\"" + (text + "\"" + rest);
    assert Dump(StrLit(text)) + rest == s;
    PlainString(text, "", rest);
    assert "" + text == text;
    QuotePrimary(text + "\"" + rest);
    FromPrimary(s, StrLit(text), rest);
  }

  /** A name that is no keyword is handed to the identifier parser. */
  lemma {:induction false} NamePrimary(x: string, rest: string)
    requires IsName(x) && !IsReserved(x) && !IsIdentChar(Peek(rest))
    ensures Starts(x + rest) && ParsePrimary(x + rest) == ParseIdent(x + rest)
  {
    var s := x + rest;
    SkipStart(s);
    NotKeyword(x, rest, "nil");
    NotKeyword(x, rest, "true");
    NotKeyword(x, rest, "false");
    hide ParseExpr, StringLoop, ParseBracket, ParseIdent, ParseNumber;
  }

  lemma {:induction false} VarReads(x: string, rest: string)
    requires IsName(x) && !IsReserved(x) && Follows(rest)
    ensures Reads(x + rest, Var(x), rest)
  {
    var s := x + rest;
    SkipFollow(rest);
    NamePrimary(x, rest);
    NameSpan(x, rest);
    assert ParseIdent(s) == Done(Var(x), AfterBlank(rest));
    FromPrimary(s, Var(x), rest);
  }

  // ---------------------------------------------------------------- suffixes

  /** A postfix loop that meets a printed member name. */
  lemma {:induction false} MemberReads(t: Ast, m: string, chained: bool, rest: string)
    requires IsName(m) && Follows(rest)
    ensures PostfixLoop(t, Dot(chained) + m + rest) == PostfixLoop(Member(t, m, chained), rest)
  {
    SkipFollow(rest);
    DotSpan(t, m, rest, chained);
    NameSpan(m, rest);
    SkipTwice(Member(t, m, chained), rest);
    hide PostfixLoop, Skip;
  }

  lemma {:induction false} MethodReads(t: Ast, m: string, args: Asts, chained: bool, text: string, rest: string)
    requires IsName(m) && text != "" && text[0] == '(' && ParseArguments(text[1..]) == SomeArgs(args, rest)
    ensures PostfixLoop(t, Dot(chained) + m + text) == PostfixLoop(Method(t, m, args, chained), rest)
  {
    DotSpan(t, m, text, chained);
    NameSpan(m, text);
    assert Skip(text) == text;
    hide PostfixLoop, Skip, ParseArguments;
  }

  lemma {:induction false} DotSpan(t: Ast, m: string, rest: string, chained: bool)
    requires IsName(m)
    ensures PostfixLoop(t, Dot(chained) + m + rest) == MemberSuffix(t, m + rest, chained)
  {
    hide MemberSuffix;
    var s := Dot(chained) + m + rest;
    assert s == Dot(chained) + (m + rest);
    SkipStart(m + rest);
    if chained {
      assert s[2..] == m + rest;
    } else {
      assert s[1..] == m + rest;
    }
  }

  lemma {:induction false} GoodIsLoose(e: Ast)
    requires Good(e)
    ensures Loose(e)
    decreases e
  {
    match e
    case Binary(_, l, r) => GoodIsLoose(l); GoodIsLoose(r);
    case Unary(_, x) => GoodIsLoose(x);
    case Call(_, args) => GoodAllIsLoose(args);
    case Array(items) => GoodAllIsLoose(items);
    case Dict(pairs) => GoodPairsAreLoose(pairs);
    case Index(t, i) => GoodIsLoose(t); GoodIsLoose(i);
    case Member(t, _, _) => GoodIsLoose(t);
    case Method(t, _, args, _) => GoodIsLoose(t); GoodAllIsLoose(args);
    case _ =>
  }

  lemma {:induction false} GoodAllIsLoose(es: Asts)
    requires GoodAll(es)
    ensures LooseAll(es)
    decreases es
  {
    if es.MoreAsts? { GoodIsLoose(es.head); GoodAllIsLoose(es.tail); }
  }

  lemma {:induction false} GoodPairsAreLoose(ps: Pairs)
    requires GoodPairs(ps)
    ensures LoosePairs(ps)
    decreases ps
  {
    if ps.MorePairs? { GoodIsLoose(ps.key); GoodIsLoose(ps.value); GoodPairsAreLoose(ps.rest); }
  }

  lemma GoodStarts(e: Ast)
    requires Good(e)
    ensures Starts(Dump(e))
  {
    GoodIsLoose(e);
    DumpStarts(e);
  }

  lemma GoodAllStart(es: Asts, rest: string)
    requires GoodAll(es) && (Peek(rest) == ')' || Peek(rest) == ']')
    ensures Skip(DumpAll(es) + rest) == DumpAll(es) + rest && Peek(DumpAll(es) + rest) != ':'
    ensures es.MoreAsts? ==> Starts(DumpAll(es) + rest)
  {
    GoodAllIsLoose(es);
    AllStarts(es, rest);
  }

  lemma GoodPairsStart(ps: Pairs, rest: string)
    requires GoodPairs(ps) && ps.MorePairs?
    ensures Skip(DumpPairs(ps) + rest) == DumpPairs(ps) + rest && Starts(DumpPairs(ps) + rest)
  {
    GoodPairsAreLoose(ps);
    PairsStart(ps, rest);
  }

  // ---------------------------------------------------------------- the induction

  lemma BlankUnary(s: string)
    requires Starts(s)
    ensures ParseUnary(" " + s) == ParseUnary(s)
  {
    hide ParsePrimary, PostfixLoop;
    SkipStart(s);
  }

  lemma StartsMore(s: string, t: string)
    requires Starts(s)
    ensures Starts(s + t)
  {
  }

  lemma {:induction false} Ends(e: Ast, rest: string)
    requires Closes(rest) || StartsOp(rest)
    ensures PostfixLoop(e, rest) == Done(e, AfterBlank(rest))
  {
    SkipFollow(rest);
  }

  /** The printed expression, before a closing character, is read back with nothing else consumed. */
  lemma {:induction false} ExprReads(e: Ast, rest: string)
    requires Good(e) && Closes(rest)
    ensures ParseExpr(Dump(e) + rest) == Done(e, rest)
    ensures ParseExpr(" " + Dump(e) + rest) == Done(e, rest)
    decreases e, 1
  {
    hide ParseUnary, ParseExpr, PostfixLoop, Dump;
    var s := Dump(e) + rest;
    assert " " + Dump(e) + rest == " " + s;
    GoodStarts(e);
    DumpReads(e, rest);
    Ends(e, rest);
    BlankUnary(s);
    LevelsUp(s, e, rest);
    LevelsUp(" " + s, e, rest);
  }

  /** What is left to read after a printed expression is read is what followed it. */
  lemma {:induction false} DumpReads(e: Ast, rest: string)
    requires Good(e) && Follows(rest) && (e.IntLit? ==> Peek(rest) != '.')
    ensures Reads(Dump(e) + rest, e, rest)
    decreases e, 0, 1
  {
    hide Reads, Follows, Skip;
    match e
    case NilLit => WordReads(e, rest);
    case BoolLit(_) => WordReads(e, rest);
    case IntLit(n) => IntReads(n, rest);
    case StrLit(t) => StringReads(t, rest);
    case Var(x) => VarReads(x, rest);
    case Binary(op, l, r) => BinaryReads(op, l, r, rest);
    case Unary(op, x) => UnaryReads(op, x, rest);
    case Call(f, args) =>
      ArgumentsRead(args, rest);
      CallReads(f, args, DumpAll(args) + ")" + rest, rest);
      CallText(f, args, rest);
    case Array(items) => ItemsRead(items, rest); ArrayReads(items, rest);
    case Dict(pairs) => PairsRead(pairs, rest, false); DictReads(pairs, rest);
    case Index(t, i) => TargetIndexReads(t, i, rest);
    case Member(t, m, chained) => TargetMemberReads(t, m, chained, rest);
    case Method(t, m, args, chained) => TargetMethodReads(t, m, args, chained, rest);
    case _ =>
  }

  // How the text of a compound expression, followed by more text, splits.

  lemma CallText(f: string, args: Asts, rest: string)
    ensures Dump(Call(f, args)) + rest == f + ("(" + (DumpAll(args) + ")" + rest))
  {
    hide DumpAll;
    assert Dump(Call(f, args)) == f + "(" + DumpAll(args) + ")";
  }

  lemma Regroup(a: string, b: string, c: string, d: string, rest: string)
    ensures a + b + c + d + rest == a + (b + c + d + rest)
    ensures a + b + c + rest == a + (b + (c + rest))
  {
  }

  lemma IndexText(t: Ast, i: Ast, rest: string)
    ensures Dump(Index(t, i)) + rest == Dump(t) + ("[" + Dump(i) + "]" + rest)
  {
    assert Dump(Index(t, i)) == Dump(t) + "[" + Dump(i) + "]";
    Regroup(Dump(t), "[", Dump(i), "]", rest);
  }

  lemma MemberText(t: Ast, m: string, chained: bool, rest: string)
    ensures Dump(Member(t, m, chained)) + rest == Dump(t) + (Dot(chained) + m + rest)
  {
    assert Dump(Member(t, m, chained)) == Dump(t) + Dot(chained) + m;
  }

  lemma RegroupMethod(t: string, dot: string, m: string, args: string, rest: string)
    ensures t + dot + m + "(" + args + ")" + rest == t + (dot + m + ("(" + (args + ")" + rest)))
  {
    var text := "(" + (args + ")" + rest);
    assert t + dot + m + "(" + args + ")" + rest == t + dot + m + text;
    assert t + dot + m + text == t + (dot + m + text);
  }

  lemma MethodText(t: Ast, m: string, args: Asts, chained: bool, rest: string)
    ensures Dump(Method(t, m, args, chained)) + rest == Dump(t)
            + (Dot(chained) + m + ("(" + (DumpAll(args) + ")" + rest)))
  {
    hide DumpAll;
    assert Dump(Method(t, m, args, chained)) == Dump(t) + Dot(chained) + m + "(" + DumpAll(args) + ")";
    RegroupMethod(Dump(t), Dot(chained), m, DumpAll(args), rest);
  }

  lemma RegroupBinary(l: string, op: char, r: string, rest: string)
    ensures "(" + l + " " + [op] + " " + r + ")" + rest == "(" + (l + (" " + ([op] + (" " + (r + (")" + rest))))))
  {
  }

  lemma BinaryText(op: char, l: Ast, r: Ast, rest: string)
    ensures Dump(Binary(op, l, r)) + rest == "(" + (Dump(l) + (" " + ([op] + (" " + (Dump(r) + (")" + rest))))))
  {
    assert Dump(Binary(op, l, r)) == "(" + Dump(l) + " " + [op] + " " + Dump(r) + ")";
    RegroupBinary(Dump(l), op, Dump(r), rest);
  }

  lemma UnaryText(op: char, x: Ast, rest: string)
    ensures Dump(Unary(op, x)) + rest == "(" + ([op] + (Dump(x) + (")" + rest)))
  {
    assert Dump(Unary(op, x)) == "(" + [op] + Dump(x) + ")";
  }

  lemma {:induction false} TargetIndexReads(t: Ast, i: Ast, rest: string)
    requires Good(t) && Good(i) && Follows(rest)
    ensures Reads(Dump(Index(t, i)) + rest, Index(t, i), rest)
    decreases Index(t, i), 0, 0
  {
    hide Reads, ParseExpr, PostfixLoop, Skip, Dump, Good;
    var suffix := "[" + Dump(i) + "]" + rest;
    assert Dump(i) + "]" + rest == Dump(i) + ("]" + rest);
    ExprReads(i, "]" + rest);
    DumpReads(t, suffix);
    IndexReads(t, i, rest);
    IndexText(t, i, rest);
    Chain(Dump(t) + suffix, t, suffix, Index(t, i), rest);
  }

  lemma {:induction false} TargetMemberReads(t: Ast, m: string, chained: bool, rest: string)
    requires Good(t) && IsName(m) && (t.IntLit? ==> chained) && Follows(rest)
    ensures Reads(Dump(Member(t, m, chained)) + rest, Member(t, m, chained), rest)
    decreases Member(t, m, chained), 0, 0
  {
    hide Reads, ParseExpr, PostfixLoop, Skip, Dump, Good, IsName;
    var suffix := Dot(chained) + m + rest;
    DumpReads(t, suffix);
    MemberReads(t, m, chained, rest);
    MemberText(t, m, chained, rest);
    Chain(Dump(t) + suffix, t, suffix, Member(t, m, chained), rest);
  }

  lemma {:induction false} TargetMethodReads(t: Ast, m: string, args: Asts, chained: bool, rest: string)
    requires Good(t) && IsName(m) && GoodAll(args) && (t.IntLit? ==> chained) && Follows(rest)
    ensures Reads(Dump(Method(t, m, args, chained)) + rest, Method(t, m, args, chained), rest)
    decreases Method(t, m, args, chained), 0, 0
  {
    hide Reads, ParseExpr, PostfixLoop, ParseArguments, Skip, Dump, DumpAll, Good, GoodAll, IsName;
    var text := "(" + (DumpAll(args) + ")" + rest);
    var suffix := Dot(chained) + m + text;
    ArgumentsRead(args, rest);
    assert text[1..] == DumpAll(args) + ")" + rest;
    DumpReads(t, suffix);
    MethodReads(t, m, args, chained, text, rest);
    MethodText(t, m, args, chained, rest);
    Chain(Dump(t) + suffix, t, suffix, Method(t, m, args, chained), rest);
  }

  lemma Chain(s: string, t: Ast, suffix: string, e: Ast, rest: string)
    requires Reads(s, t, suffix) && PostfixLoop(t, suffix) == PostfixLoop(e, rest)
    ensures Reads(s, e, rest)
  {
    hide ParseUnary, PostfixLoop;
  }

  lemma {:induction false} IndexReads(t: Ast, i: Ast, rest: string)
    requires ParseExpr(Dump(i) + ("]" + rest)) == Done(i, "]" + rest)
    ensures PostfixLoop(t, "[" + Dump(i) + "]" + rest) == PostfixLoop(Index(t, i), rest)
  {
    hide ParseExpr, MemberSuffix, Dump;
    var s := "[" + Dump(i) + "]" + rest;
    assert s[1..] == Dump(i) + ("]" + rest);
    assert Skip(s) == s && Skip("]" + rest) == "]" + rest && ("]" + rest)[1..] == rest;
  }

  lemma {:induction false} CallReads(f: string, args: Asts, text: string, rest: string)
    requires IsName(f) && !IsReserved(f) && Follows(rest)
    requires ParseArguments(text) == SomeArgs(args, rest)
    ensures Reads(f + ("(" + text), Call(f, args), rest)
  {
    hide ParseArguments, PostfixLoop, ParseExpr;
    var t := "(" + text;
    assert t[1..] == text && Skip(t) == t;
    NamePrimary(f, t);
    NameSpan(f, t);
    assert ParseIdent(f + t) == Done(Call(f, args), rest);
    FromPrimary(f + t, Call(f, args), rest);
  }

  /** A bracketed or parenthesized text is read by the matching branch of the primary parser. */
  lemma {:induction false} GroupPrimary(text: string)
    ensures ParsePrimary("[" + text) == ParseBracket(text)
    ensures match ParseExpr(text)
            case Fail => ParsePrimary("(" + text) == Fail
            case Done(e, rest) => Peek(rest) == ')' ==> ParsePrimary("(" + text) == Done(e, rest[1..])
  {
    hide ParseExpr, StringLoop, ParseBracket, ParseIdent, ParseNumber;
    NoKeyword("[" + text);
    NoKeyword("(" + text);
    SkipStart("[" + text);
    SkipStart("(" + text);
    assert ("[" + text)[1..] == text && ("(" + text)[1..] == text;
  }

  lemma {:induction false} ArrayReads(items: Asts, rest: string)
    requires Follows(rest) && GoodAll(items)
    requires ItemLoop(DumpAll(items) + "]" + rest, false) == SomeItems(items, NoPairs, false, rest)
    ensures Reads(Dump(Array(items)) + rest, Array(items), rest)
  {
    hide ParseExpr, PostfixLoop, ParsePrimary, ItemLoop, ParseUnary, DumpAll;
    var text := DumpAll(items) + "]" + rest;
    GroupPrimary(text);
    GoodAllStart(items, "]" + rest);
    assert DumpAll(items) + ("]" + rest) == text;
    assert Dump(Array(items)) + rest == "[" + text;
    assert ParseBracket(text) == Done(Array(items), rest);
    FromPrimary("[" + text, Array(items), rest);
  }

  lemma {:induction false} DictReads(pairs: Pairs, rest: string)
    requires Follows(rest) && GoodPairs(pairs) && pairs.MorePairs?
    requires ItemLoop(DumpPairs(pairs) + "]" + rest, false) == SomeItems(NoAsts, pairs, true, rest)
    ensures Reads(Dump(Dict(pairs)) + rest, Dict(pairs), rest)
  {
    hide ParseExpr, PostfixLoop, ParsePrimary, ItemLoop, ParseUnary, DumpPairs;
    var text := DumpPairs(pairs) + "]" + rest;
    GroupPrimary(text);
    GoodPairsStart(pairs, "]" + rest);
    assert DumpPairs(pairs) + ("]" + rest) == text;
    assert Dump(Dict(pairs)) + rest == "[" + text;
    assert ParseBracket(text) == Done(Dict(pairs), rest);
    FromPrimary("[" + text, Dict(pairs), rest);
  }

  lemma {:induction false} BinaryReads(op: char, l: Ast, r: Ast, rest: string)
    requires Good(l) && Good(r) && IsPrinted(op) && Follows(rest)
    ensures Reads(Dump(Binary(op, l, r)) + rest, Binary(op, l, r), rest)
    decreases Binary(op, l, r), 0, 0
  {
    hide ParseUnary, ParseExpr, PostfixLoop, ParsePrimary, Skip, Reads, Dump, Good, Starts;
    var close := ")" + rest;
    var right := " " + (Dump(r) + close);
    var after := " " + ([op] + right);
    GoodStarts(r);
    DumpReads(r, close);
    Ends(r, close);
    StartsMore(Dump(r), close);
    BlankUnary(Dump(r) + close);
    UnaryDone(Dump(r) + close, r, close, close);
    DumpReads(l, after);
    Ends(l, after);
    assert after[1..] == [op] + right;
    UnaryDone(Dump(l) + after, l, after, [op] + right);
    BinaryUp(Dump(l) + after, l, op, right, r, close);
    BinaryText(op, l, r, rest);
    GroupReads(Dump(l) + after, Binary(op, l, r), rest);
  }

  /** A parenthesized expression. */
  lemma GroupReads(text: string, e: Ast, rest: string)
    requires Follows(rest) && ParseExpr(text) == Done(e, ")" + rest)
    ensures Reads("(" + text, e, rest)
  {
    hide ParseUnary, ParseExpr, PostfixLoop, ParsePrimary, Reads, Skip, Follows;
    GroupPrimary(text);
    assert (")" + rest)[1..] == rest;
    FromPrimary("(" + text, e, rest);
  }

  lemma UnaryDone(s: string, e: Ast, rest: string, end: string)
    requires Reads(s, e, rest) && PostfixLoop(e, rest) == Done(e, end)
    ensures ParseUnary(s) == Done(e, end)
  {
    hide ParseUnary, PostfixLoop;
  }

  lemma {:induction false} UnaryReads(op: char, x: Ast, rest: string)
    requires Good(x) && (op == '-' || op == '!') && Follows(rest)
    ensures Reads(Dump(Unary(op, x)) + rest, Unary(op, x), rest)
    decreases Unary(op, x), 0, 0
  {
    hide ParseUnary, ParseExpr, PostfixLoop, ParsePrimary, Reads, Skip, Good, Starts, Dump;
    var close := ")" + rest;
    var s := Dump(x) + close;
    DumpReads(x, close);
    Ends(x, close);
    UnaryDone(s, x, close, close);
    SignReads(op, s, x, close);
    LevelsUp([op] + s, Unary(op, x), close);
    UnaryText(op, x, rest);
    GroupReads([op] + s, Unary(op, x), rest);
  }

  lemma {:induction false} SignReads(op: char, s: string, x: Ast, rest: string)
    requires (op == '-' || op == '!') && ParseUnary(s) == Done(x, rest)
    ensures ParseUnary([op] + s) == Done(Unary(op, x), rest)
  {
    hide ParsePrimary, PostfixLoop;
    var t := [op] + s;
    assert Skip(t) == t && t[1..] == s;
  }

  // ---------------------------------------------------------------- lists

  lemma {:induction false} AllStarts(es: Asts, rest: string)
    requires LooseAll(es) && (Peek(rest) == ')' || Peek(rest) == ']')
    ensures Skip(DumpAll(es) + rest) == DumpAll(es) + rest && Peek(DumpAll(es) + rest) != ':'
    ensures es.MoreAsts? ==> Starts(DumpAll(es) + rest)
  {
    if es.MoreAsts? {
      DumpStarts(es.head);
      SkipStart(DumpAll(es) + rest);
    } else {
      assert DumpAll(es) + rest == rest;
    }
  }

  lemma {:induction false} PairsStart(ps: Pairs, rest: string)
    requires LoosePairs(ps) && ps.MorePairs?
    ensures Skip(DumpPairs(ps) + rest) == DumpPairs(ps) + rest && Starts(DumpPairs(ps) + rest)
  {
    DumpStarts(ps.key);
    SkipStart(DumpPairs(ps) + rest);
  }

  lemma {:induction false} ArgumentsRead(es: Asts, rest: string)
    requires GoodAll(es)
    ensures ParseArguments(DumpAll(es) + ")" + rest) == SomeArgs(es, rest)
    decreases es, 3
  {
    GoodAllStart(es, ")" + rest);
    assert DumpAll(es) + (")" + rest) == DumpAll(es) + ")" + rest;
    ArgsRead(es, rest);
  }

  lemma {:induction false} ArgsRead(es: Asts, rest: string)
    requires GoodAll(es)
    ensures ArgLoop(DumpAll(es) + ")" + rest) == SomeArgs(es, rest)
    decreases es, 2
  {
    hide ParseExpr, Dump;
    var s := DumpAll(es) + ")" + rest;
    match es
    case NoAsts => assert s == ")" + rest && s[1..] == rest;
    case MoreAsts(e, NoAsts) =>
      var u := ")" + rest;
      assert s == Dump(e) + u;
      ExprReads(e, u);
      GoodStarts(e);
      assert Skip(u) == u && u[1..] == rest;
    case MoreAsts(e, more) =>
      var next := DumpAll(more) + ")" + rest;
      var u := ", " + next;
      assert s == Dump(e) + u;
      ExprReads(e, u);
      GoodStarts(e);
      GoodAllStart(more, ")" + rest);
      assert DumpAll(more) + (")" + rest) == next;
      SkipStart(next);
      assert Skip(u) == u && u[1..] == " " + next;
      ArgsRead(more, rest);
  }

  lemma {:induction false} ItemsRead(es: Asts, rest: string)
    requires GoodAll(es)
    ensures ItemLoop(DumpAll(es) + "]" + rest, false) == SomeItems(es, NoPairs, false, rest)
    decreases es, 2
  {
    hide ParseExpr, Dump, Good;
    var s := DumpAll(es) + "]" + rest;
    match es
    case NoAsts => assert s == "]" + rest && s[1..] == rest;
    case MoreAsts(e, NoAsts) =>
      var u := "]" + rest;
      assert s == Dump(e) + u;
      ExprReads(e, u);
      GoodStarts(e);
      assert Skip(u) == u && u[1..] == rest;
    case MoreAsts(e, more) =>
      var next := DumpAll(more) + "]" + rest;
      var u := ", " + next;
      assert s == Dump(e) + u;
      ExprReads(e, u);
      GoodStarts(e);
      GoodAllStart(more, "]" + rest);
      assert DumpAll(more) + ("]" + rest) == next;
      SkipStart(next);
      assert Skip(u) == u && u[1..] == " " + next;
      ItemsRead(more, rest);
  }

  /** What follows a printed pair. */
  function AfterPair(more: Pairs, rest: string): string {
    if more.NoPairs? then "]" + rest else ", " + (DumpPairs(more) + "]" + rest)
  }

  lemma {:induction false} PairsRead(ps: Pairs, rest: string, dict: bool)
    requires GoodPairs(ps) && ps.MorePairs?
    ensures ItemLoop(DumpPairs(ps) + "]" + rest, dict) == SomeItems(NoAsts, ps, true, rest)
    decreases ps, 2
  {
    hide ParseExpr, Dump, DumpPairs, ItemLoop, ItemEnd, Skip, Good, Starts, AfterPair;
    var u := AfterPair(ps.rest, rest);
    var colon := ": " + Dump(ps.value) + u;
    PairText(ps, rest);
    ExprReads(ps.key, colon);
    ExprReads(ps.value, u);
    GoodStarts(ps.key);
    if ps.rest.MorePairs? { PairsRead(ps.rest, rest, true); }
    AfterPairReads(ps.rest, rest);
    PairStep(ps, Dump(ps.key) + colon, u, rest, dict);
  }

  lemma {:induction false} PairText(ps: Pairs, rest: string)
    requires ps.MorePairs?
    ensures DumpPairs(ps) + "]" + rest == Dump(ps.key) + (": " + Dump(ps.value) + AfterPair(ps.rest, rest))
    ensures Closes(AfterPair(ps.rest, rest))
    ensures Closes(": " + Dump(ps.value) + AfterPair(ps.rest, rest))
  {
    hide Dump;
    if ps.rest.NoPairs? {
      assert DumpPairs(ps) == Dump(ps.key) + ": " + Dump(ps.value);
    } else {
      assert DumpPairs(ps) == Dump(ps.key) + ": " + Dump(ps.value) + ", " + DumpPairs(ps.rest);
    }
  }

  lemma {:induction false} AfterPairReads(more: Pairs, rest: string)
    requires GoodPairs(more)
    requires more.MorePairs? ==> ItemLoop(DumpPairs(more) + "]" + rest, true) == SomeItems(NoAsts, more, true, rest)
    ensures Skip(AfterPair(more, rest)) == AfterPair(more, rest)
    ensures ItemEnd(AfterPair(more, rest), true) == SomeItems(NoAsts, more, true, rest)
  {
    hide ItemLoop, DumpPairs;
    var u := AfterPair(more, rest);
    if more.MorePairs? {
      var next := DumpPairs(more) + "]" + rest;
      GoodPairsStart(more, "]" + rest);
      assert DumpPairs(more) + ("]" + rest) == next;
      SkipStart(next);
      assert u[1..] == " " + next;
    } else {
      assert u[1..] == rest;
    }
  }

  lemma {:induction false} PairStep(ps: Pairs, s: string, u: string, rest: string, dict: bool)
    requires ps.MorePairs? && Starts(Dump(ps.key))
    requires s == Dump(ps.key) + (": " + Dump(ps.value) + u)
    requires ParseExpr(s) == Done(ps.key, ": " + Dump(ps.value) + u)
    requires ParseExpr(" " + Dump(ps.value) + u) == Done(ps.value, u)
    requires Skip(u) == u && ItemEnd(u, true) == SomeItems(NoAsts, ps.rest, true, rest)
    ensures ItemLoop(s, dict) == SomeItems(NoAsts, ps, true, rest)
  {
    hide ParseExpr, Dump, ItemEnd;
    var colon := ": " + Dump(ps.value) + u;
    assert Skip(colon) == colon && colon[1..] == " " + Dump(ps.value) + u;
  }

  // ---------------------------------------------------------------- other trees are rejected

  /** Reading fails, or it stops before a name, which no rule of the grammar takes there. */
  predicate Stuck(p: Parsed) { p.Fail? || IsIdentStart(Peek(p.rest)) }

  lemma StuckStays(p: Parsed)
    requires Stuck(p) && p.Done?
    ensures Skip(p.rest) == p.rest && p.rest != "" && !Closes(p.rest) && Peek(p.rest) != ')' && Peek(p.rest) != ']'
    ensures Peek(p.rest) != ',' && Peek(p.rest) != ':' && Peek(p.rest) != '}'
  {
    SkipStart(p.rest);
  }

  lemma NameIsNoOperator(t: string)
    requires IsIdentStart(Peek(t))
    ensures !("||" <= t) && !("&&" <= t) && !("==" <= t) && !("!=" <= t) && !("<=" <= t) && !(">=" <= t)
  {
  }

  lemma FailsUp(s: string)
    requires Stuck(ParseUnary(s))
    ensures Stuck(ParseExpr(s))
  {
    hide ParseUnary;
    if ParseUnary(s).Done? {
      var p := ParseUnary(s);
      StuckStays(p);
      NameIsNoOperator(p.rest);
      hide Skip;
      assert ParseFactor(s) == p;
      assert ParseTerm(s) == p;
      assert ParseComparison(s) == p;
      assert ParseAnd(s) == p;
      assert ParseOr(s) == p;
    } else {
      assert ParseFactor(s) == Fail;
      assert ParseTerm(s) == Fail;
      assert ParseComparison(s) == Fail;
      assert ParseAnd(s) == Fail;
    }
  }

  lemma {:induction false} RightFailsUp(s: string, l: Ast, op: char, right: string)
    requires IsPrinted(op) && ParseUnary(s) == Done(l, [op] + right) && right != "" && right[0] == ' '
    requires Stuck(ParseUnary(right))
    ensures Stuck(ParseExpr(s))
  {
    if ParseUnary(right).Done? { RightStops(s, l, op, right); } else { RightFails(s, l, op, right); }
  }

  lemma {:induction false} RightStops(s: string, l: Ast, op: char, right: string)
    requires IsPrinted(op) && ParseUnary(s) == Done(l, [op] + right) && right != "" && right[0] == ' '
    requires Stuck(ParseUnary(right)) && ParseUnary(right).Done?
    ensures Stuck(ParseExpr(s))
  {
    hide ParseUnary;
    var t, p := [op] + right, ParseUnary(right);
    var e := Binary(op, l, p.e);
    assert t[1..] == right && Skip(t) == t;
    StuckStays(p);
    NameIsNoOperator(p.rest);
    assert ParseFactor(right) == p;
    assert ParseTerm(right) == p;
    if op == '*' || op == '/' || op == '%' {
      assert FactorLoop(l, t) == FactorLoop(e, p.rest);
      assert ParseFactor(s) == Done(e, p.rest);
      assert ParseTerm(s) == Done(e, p.rest);
    } else {
      assert ParseFactor(s) == Done(l, t);
      if op == '+' || op == '-' {
        assert TermLoop(l, t) == TermLoop(e, p.rest);
        assert ParseTerm(s) == Done(e, p.rest);
      } else {
        assert ParseTerm(s) == Done(l, t);
      }
    }
    assert ParseComparison(s) == Done(e, p.rest);
    assert ParseAnd(s) == Done(e, p.rest);
    assert ParseOr(s) == Done(e, p.rest);
  }

  lemma {:induction false} RightFails(s: string, l: Ast, op: char, right: string)
    requires IsPrinted(op) && ParseUnary(s) == Done(l, [op] + right) && right != "" && right[0] == ' '
    requires ParseUnary(right) == Fail
    ensures ParseExpr(s) == Fail
  {
    hide ParseUnary;
    var t := [op] + right;
    assert t[1..] == right && Skip(t) == t;
    assert ParseFactor(right) == Fail;
    assert ParseTerm(right) == Fail;
    if op == '*' || op == '/' || op == '%' {
      assert ParseFactor(s) == Fail;
      assert ParseTerm(s) == Fail;
    } else {
      assert ParseFactor(s) == Done(l, t);
      assert op == '+' || op == '-' ==> ParseTerm(s) == Fail;
      assert op == '<' || op == '>' ==> ParseTerm(s) == Done(l, t);
    }
    assert ParseComparison(s) == Fail;
    assert ParseAnd(s) == Fail;
  }

  /** The expression ends before an operator code, which no rule of the grammar takes. */
  lemma {:induction false} StopsAtCode(s: string, l: Ast, op: char, right: string)
    requires IsOperator(op) && !IsPrinted(op) && right != "" && right[0] == ' '
    requires ParseUnary(s) == Done(l, [op] + right)
    ensures ParseExpr(s) == Done(l, [op] + right) && Skip([op] + right) == [op] + right
  {
    hide ParseUnary;
    var t := [op] + right;
    assert t[1] == ' ' && Skip(t) == t;
    assert !("||" <= t) && !("&&" <= t) && !("==" <= t) && !("!=" <= t);
    assert ParseFactor(s) == Done(l, t);
    assert ParseTerm(s) == Done(l, t);
    assert ParseComparison(s) == Done(l, t);
    assert ParseAnd(s) == Done(l, t);
    assert ParseOr(s) == Done(l, t);
  }

  lemma PrimaryFails(s: string)
    requires Starts(s) && ParsePrimary(s) == Fail
    ensures ParseUnary(s) == Fail
  {
    hide ParsePrimary;
    SkipStart(s);
  }

  lemma {:induction false} GroupFails(text: string)
    requires var p := ParseExpr(text); Stuck(p) || (Skip(p.rest) == p.rest && Peek(p.rest) != ')')
    ensures ParseUnary("(" + text) == Fail
  {
    var s := "(" + text;
    if Stuck(ParseExpr(text)) && ParseExpr(text).Done? { StuckStays(ParseExpr(text)); }
    assert ParsePrimary(s) == Fail by {
      hide ParseExpr, StringLoop, ParseBracket, ParseIdent, ParseNumber;
      NoKeyword(s);
      SkipStart(s);
      assert s[1..] == text;
    }
    PrimaryFails(s);
  }

  /** The printed text of a tree with an operator that is not printed as it is written, with `.` after a
      number, or with `<expr>` is not accepted. */
  lemma {:induction false} DumpFails(e: Ast, rest: string)
    requires Loose(e) && !Good(e) && Follows(rest)
    ensures Stuck(ParseUnary(Dump(e) + rest))
    decreases e, 0, 1
  {
    hide ParseUnary, Skip, Dump;
    match e
    case Binary(op, l, r) => BinaryFails(op, l, r, rest);
    case Unary(op, x) => UnaryFails(op, x, rest);
    case Call(f, args) => ArgumentsFail(args, rest); CallText(f, args, rest); CallFails(f, DumpAll(args) + ")" + rest);
    case Array(items) => ItemsFail(items, rest); ArrayFails(items, rest);
    case Dict(pairs) => PairsFail(pairs, rest, false); DictFails(pairs, rest);
    case Index(t, i) => TargetIndexFails(t, i, rest);
    case Member(t, m, chained) =>
      MemberText(t, m, chained, rest);
      if Good(t) { IntText(t, m, rest); DotStuck(t.n, m, rest); } else { DumpFails(t, Dot(chained) + m + rest); }
    case Method(t, m, args, chained) =>
      if t.IntLit? && !chained {
        MethodText(t, m, args, chained, rest);
        IntText(t, m, "(" + (DumpAll(args) + ")" + rest));
        DotStuck(t.n, m, "(" + (DumpAll(args) + ")" + rest));
      } else {
        TargetMethodFails(t, m, args, chained, rest);
      }
    case _ => ExprMarkFails(e, rest);
  }

  lemma IntText(t: Ast, m: string, rest: string)
    requires t.IntLit?
    ensures Dump(t) + (Dot(false) + m + rest) == Decimal(t.n) + ("." + m + rest)
  {
  }

  lemma ExprMarkFails(e: Ast, rest: string)
    requires e.Self? || e.Super? || e.Struct?
    ensures ParseUnary(Dump(e) + rest) == Fail
  {
    hide ParseExpr, StringLoop, ParseBracket, ParseIdent, ParseNumber;
    var s := Dump(e) + rest;
    assert s[0] == '<';
    SkipStart(s);
    NoKeyword(s);
    PrimaryFails(s);
  }

  lemma {:induction false} ExprFails(e: Ast, rest: string)
    requires Loose(e) && !Good(e) && Closes(rest)
    ensures Stuck(ParseExpr(Dump(e) + rest))
    ensures Stuck(ParseExpr(" " + Dump(e) + rest))
    decreases e, 1
  {
    hide ParseUnary, ParseExpr, Dump, Loose, Good, Starts;
    var s := Dump(e) + rest;
    assert " " + Dump(e) + rest == " " + s;
    DumpStarts(e);
    StartsMore(Dump(e), rest);
    DumpFails(e, rest);
    BlankUnary(s);
    FailsUp(s);
    FailsUp(" " + s);
  }

  lemma {:induction false} BinaryFails(op: char, l: Ast, r: Ast, rest: string)
    requires Loose(l) && Loose(r) && IsOperator(op) && !(IsPrinted(op) && Good(l) && Good(r))
    ensures Stuck(ParseUnary(Dump(Binary(op, l, r)) + rest))
    decreases Binary(op, l, r), 0, 0
  {
    hide ParseUnary, ParseExpr, PostfixLoop, Skip, Reads, Dump, Good, Loose, Starts;
    var close := ")" + rest;
    var right := " " + (Dump(r) + close);
    var after := " " + ([op] + right);
    var text := Dump(l) + after;
    if !Good(l) {
      DumpFails(l, after);
      FailsUp(text);
    } else {
      DumpReads(l, after);
      Ends(l, after);
      assert after[1..] == [op] + right;
      UnaryDone(text, l, after, [op] + right);
      if !IsPrinted(op) {
        StopsAtCode(text, l, op, right);
      } else {
        DumpFails(r, close);
        DumpStarts(r);
        StartsMore(Dump(r), close);
        BlankUnary(Dump(r) + close);
        RightFailsUp(text, l, op, right);
      }
    }
    GroupFails(text);
    BinaryText(op, l, r, rest);
  }

  lemma {:induction false} UnaryFails(op: char, x: Ast, rest: string)
    requires Loose(x) && !Good(x) && (op == '-' || op == '!')
    ensures Stuck(ParseUnary(Dump(Unary(op, x)) + rest))
    decreases Unary(op, x), 0, 0
  {
    hide ParseUnary, ParseExpr, Skip, Dump, Good, Loose;
    var s := Dump(x) + (")" + rest);
    DumpFails(x, ")" + rest);
    SignFails(op, s);
    FailsUp([op] + s);
    GroupFails([op] + s);
    UnaryText(op, x, rest);
  }

  lemma SignFails(op: char, s: string)
    requires (op == '-' || op == '!') && Stuck(ParseUnary(s))
    ensures Stuck(ParseUnary([op] + s))
  {
    hide ParsePrimary, PostfixLoop;
    var t := [op] + s;
    assert Skip(t) == t && t[1..] == s;
  }

  lemma {:induction false} CallFails(f: string, text: string)
    requires IsName(f) && !IsReserved(f) && ParseArguments(text) == NoArgs
    ensures ParseUnary(f + ("(" + text)) == Fail
  {
    hide ParseArguments, PostfixLoop, ParseExpr, ParsePrimary, ParseUnary;
    var t := "(" + text;
    assert t[1..] == text && Skip(t) == t;
    NamePrimary(f, t);
    NameSpan(f, t);
    assert ParseIdent(f + t) == Fail;
    PrimaryFails(f + t);
  }

  lemma {:induction false} ArrayFails(items: Asts, rest: string)
    requires LooseAll(items) && ItemLoop(DumpAll(items) + "]" + rest, false) == NoItems
    ensures ParseUnary(Dump(Array(items)) + rest) == Fail
  {
    hide ParseExpr, PostfixLoop, ParsePrimary, ItemLoop, ParseUnary, DumpAll;
    var text := DumpAll(items) + "]" + rest;
    GroupPrimary(text);
    AllStarts(items, "]" + rest);
    assert DumpAll(items) + ("]" + rest) == text;
    assert Dump(Array(items)) + rest == "[" + text;
    PrimaryFails("[" + text);
  }

  lemma {:induction false} DictFails(pairs: Pairs, rest: string)
    requires LoosePairs(pairs) && pairs.MorePairs? && ItemLoop(DumpPairs(pairs) + "]" + rest, false) == NoItems
    ensures ParseUnary(Dump(Dict(pairs)) + rest) == Fail
  {
    hide ParseExpr, PostfixLoop, ParsePrimary, ItemLoop, ParseUnary, DumpPairs;
    var text := DumpPairs(pairs) + "]" + rest;
    GroupPrimary(text);
    PairsStart(pairs, "]" + rest);
    assert DumpPairs(pairs) + ("]" + rest) == text;
    assert Dump(Dict(pairs)) + rest == "[" + text;
    PrimaryFails("[" + text);
  }

  lemma {:induction false} TargetIndexFails(t: Ast, i: Ast, rest: string)
    requires Loose(t) && Loose(i) && !(Good(t) && Good(i))
    ensures Stuck(ParseUnary(Dump(Index(t, i)) + rest))
    decreases Index(t, i), 0, 0
  {
    hide ParseUnary, Reads, ParseExpr, PostfixLoop, Skip, Dump, Good, Loose;
    var suffix := "[" + Dump(i) + "]" + rest;
    IndexText(t, i, rest);
    if !Good(t) {
      DumpFails(t, suffix);
    } else {
      DumpReads(t, suffix);
      ExprFails(i, "]" + rest);
      assert Dump(i) + "]" + rest == Dump(i) + ("]" + rest);
      IndexFails(t, Dump(i) + ("]" + rest));
      assert suffix == "[" + (Dump(i) + ("]" + rest));
      ChainFails(Dump(t) + suffix, t, suffix);
    }
  }

  lemma ChainFails(s: string, t: Ast, suffix: string)
    requires Reads(s, t, suffix) && PostfixLoop(t, suffix) == Fail
    ensures ParseUnary(s) == Fail
  {
    hide ParseUnary, PostfixLoop;
  }

  lemma IndexFails(t: Ast, text: string)
    requires Stuck(ParseExpr(text))
    ensures PostfixLoop(t, "[" + text) == Fail
  {
    hide ParseExpr, MemberSuffix;
    var s := "[" + text;
    if ParseExpr(text).Done? { StuckStays(ParseExpr(text)); }
    assert s[1..] == text && Skip(s) == s;
  }

  lemma {:induction false} TargetMethodFails(t: Ast, m: string, args: Asts, chained: bool, rest: string)
    requires Loose(t) && IsName(m) && LooseAll(args) && (t.IntLit? ==> chained) && !(Good(t) && GoodAll(args))
    ensures Stuck(ParseUnary(Dump(Method(t, m, args, chained)) + rest))
    decreases Method(t, m, args, chained), 0, 0
  {
    hide ParseUnary, Reads, ParseExpr, PostfixLoop, ParseArguments, Skip, Dump, DumpAll, Good, GoodAll, IsName,
         Loose, LooseAll;
    var text := "(" + (DumpAll(args) + ")" + rest);
    var suffix := Dot(chained) + m + text;
    MethodText(t, m, args, chained, rest);
    if !Good(t) {
      DumpFails(t, suffix);
    } else {
      ArgumentsFail(args, rest);
      assert text[1..] == DumpAll(args) + ")" + rest;
      DumpReads(t, suffix);
      MethodFails(t, m, chained, text);
      ChainFails(Dump(t) + suffix, t, suffix);
    }
  }

  lemma {:induction false} MethodFails(t: Ast, m: string, chained: bool, text: string)
    requires IsName(m) && text != "" && text[0] == '(' && ParseArguments(text[1..]) == NoArgs
    ensures PostfixLoop(t, Dot(chained) + m + text) == Fail
  {
    DotSpan(t, m, text, chained);
    NameSpan(m, text);
    assert Skip(text) == text;
    hide PostfixLoop, Skip, ParseArguments;
  }

  lemma {:induction false} ArgumentsFail(es: Asts, rest: string)
    requires LooseAll(es) && !GoodAll(es)
    ensures ParseArguments(DumpAll(es) + ")" + rest) == NoArgs
    decreases es, 3
  {
    hide ArgLoop;
    AllStarts(es, ")" + rest);
    assert DumpAll(es) + (")" + rest) == DumpAll(es) + ")" + rest;
    ArgsFail(es, rest);
  }

  /** Text after a printed element: nothing more, or a comma and the printed rest. */
  function AfterElement(more: Asts, close: string): string {
    if more.NoAsts? then close else ", " + (DumpAll(more) + close)
  }

  lemma ListText(es: Asts, close: string)
    requires es.MoreAsts?
    ensures DumpAll(es) + close == Dump(es.head) + AfterElement(es.tail, close)
  {
    hide Dump;
    if es.tail.MoreAsts? { assert DumpAll(es) == Dump(es.head) + ", " + DumpAll(es.tail); }
  }

  lemma {:induction false} AfterElementSkips(more: Asts, close: string)
    requires LooseAll(more) && (Peek(close) == ')' || Peek(close) == ']')
    ensures var u := AfterElement(more, close);
            Closes(u) && Skip(u) == u && Peek(u) == (if more.NoAsts? then Peek(close) else ',')
            && (more.MoreAsts? ==> Skip(u[1..]) == DumpAll(more) + close)
  {
    hide DumpAll;
    if more.MoreAsts? {
      AllStarts(more, close);
      SkipStart(DumpAll(more) + close);
      assert AfterElement(more, close)[1..] == " " + (DumpAll(more) + close);
    }
  }

  lemma {:induction false} ArgsFail(es: Asts, rest: string)
    requires LooseAll(es) && !GoodAll(es)
    ensures ArgLoop(DumpAll(es) + ")" + rest) == NoArgs
    decreases es, 2
  {
    hide ParseExpr, Dump, DumpAll, AfterElement, Good, Loose, Skip;
    var e, more, close := es.head, es.tail, ")" + rest;
    var u := AfterElement(more, close);
    assert DumpAll(es) + ")" + rest == DumpAll(es) + close;
    ListText(es, close);
    AfterElementSkips(more, close);
    DumpStarts(e);
    if !Good(e) {
      ExprFails(e, u);
      if ParseExpr(Dump(e) + u).Done? { StuckStays(ParseExpr(Dump(e) + u)); }
    } else {
      ExprReads(e, u);
      assert DumpAll(more) + ")" + rest == DumpAll(more) + close;
      ArgsFail(more, rest);
    }
  }

  lemma {:induction false} ItemsFail(es: Asts, rest: string)
    requires LooseAll(es) && !GoodAll(es)
    ensures ItemLoop(DumpAll(es) + "]" + rest, false) == NoItems
    decreases es, 2
  {
    hide ParseExpr, Dump, DumpAll, AfterElement, Good, Loose, Skip;
    var e, more, close := es.head, es.tail, "]" + rest;
    var u := AfterElement(more, close);
    assert DumpAll(es) + "]" + rest == DumpAll(es) + close;
    ListText(es, close);
    AfterElementSkips(more, close);
    DumpStarts(e);
    if !Good(e) {
      ExprFails(e, u);
      if ParseExpr(Dump(e) + u).Done? { StuckStays(ParseExpr(Dump(e) + u)); }
    } else {
      ExprReads(e, u);
      assert DumpAll(more) + "]" + rest == DumpAll(more) + close;
      ItemsFail(more, rest);
    }
  }

  lemma {:induction false} PairsFail(ps: Pairs, rest: string, dict: bool)
    requires LoosePairs(ps) && !GoodPairs(ps) && ps.MorePairs?
    ensures ItemLoop(DumpPairs(ps) + "]" + rest, dict) == NoItems
    decreases ps, 2
  {
    hide ParseExpr, Dump, DumpPairs, ItemLoop, ItemEnd, Skip, Good, Loose, Starts, AfterPair;
    var u := AfterPair(ps.rest, rest);
    var colon := ": " + Dump(ps.value) + u;
    PairText(ps, rest);
    DumpStarts(ps.key);
    if !Good(ps.key) {
      ExprFails(ps.key, colon);
    } else {
      ExprReads(ps.key, colon);
      if !Good(ps.value) {
        ExprFails(ps.value, u);
      } else {
        ExprReads(ps.value, u);
        PairsFail(ps.rest, rest, true);
        AfterPairFails(ps.rest, rest);
      }
    }
    PairFails(ps, Dump(ps.key) + colon, u, dict);
  }

  lemma {:induction false} AfterPairFails(more: Pairs, rest: string)
    requires LoosePairs(more) && more.MorePairs? && ItemLoop(DumpPairs(more) + "]" + rest, true) == NoItems
    ensures Skip(AfterPair(more, rest)) == AfterPair(more, rest)
    ensures ItemEnd(AfterPair(more, rest), true) == NoItems
  {
    hide ItemLoop, DumpPairs;
    var u, next := AfterPair(more, rest), DumpPairs(more) + "]" + rest;
    PairsStart(more, "]" + rest);
    assert DumpPairs(more) + ("]" + rest) == next;
    SkipStart(next);
    assert u[1..] == " " + next;
  }

  lemma NoItemEnd(u: string, dict: bool)
    requires Peek(u) != ',' && Peek(u) != ']'
    ensures ItemEnd(u, dict) == NoItems
  {
  }

  lemma {:induction false} PairFails(ps: Pairs, s: string, u: string, dict: bool)
    requires ps.MorePairs? && Starts(Dump(ps.key))
    requires s == Dump(ps.key) + (": " + Dump(ps.value) + u)
    requires Stuck(ParseExpr(s))
             || (ParseExpr(s) == Done(ps.key, ": " + Dump(ps.value) + u)
                 && (Stuck(ParseExpr(" " + Dump(ps.value) + u))
                     || (ParseExpr(" " + Dump(ps.value) + u) == Done(ps.value, u) && Skip(u) == u && ItemEnd(u, true)
                         == NoItems)))
    ensures ItemLoop(s, dict) == NoItems
  {
    hide ParseExpr, Dump, ItemEnd;
    var colon := ": " + Dump(ps.value) + u;
    assert Skip(colon) == colon && colon[1..] == " " + Dump(ps.value) + u;
    if Stuck(ParseExpr(s)) {
      if ParseExpr(s).Done? {
        StuckStays(ParseExpr(s));
        NoItemEnd(ParseExpr(s).rest, false);
      }
    } else if Stuck(ParseExpr(" " + Dump(ps.value) + u)) && ParseExpr(" " + Dump(ps.value) + u).Done? {
      StuckStays(ParseExpr(" " + Dump(ps.value) + u));
      NoItemEnd(ParseExpr(" " + Dump(ps.value) + u).rest, true);
    }
  }

  // ---------------------------------------------------------------- a number takes the dot

  lemma {:induction false} DotStuck(n: nat, m: string, rest: string)
    requires n < INT_LIMIT && IsName(m)
    ensures Stuck(ParseUnary(Decimal(n) + ("." + m + rest)))
  {
    var d, more := Decimal(n), m + rest;
    var s := d + "." + more;
    assert d + ("." + m + rest) == s;
    DotSwallowed(n, more);
    DecimalStarts(n);
    assert s[0] == d[0];
    hide ParseNumber;
    NumberAlone(s, DoubleLit(d + "."), more);
  }

  lemma {:induction false} DotSwallowed(n: nat, m: string)
    requires n < INT_LIMIT && IsIdentStart(Peek(m))
    ensures ParseNumber(Decimal(n) + "." + m) == Done(DoubleLit(Decimal(n) + "."), m)
  {
    var d := Decimal(n);
    var s := d + "." + m;
    DecimalStarts(n);
    DigitsThenDot(d, m);
    TenDigits();
    DecimalShort(n, 10);
    assert s[..|d| + 1] == d + "." && s[|d| + 1..] == m && '.' in d + ".";
  }

  lemma {:induction false} DigitsThenDot(d: string, m: string)
    requires IsIdentStart(Peek(m)) && forall i :: 0 <= i < |d| ==> IsDigit(d[i])
    ensures NumberLength(d + "." + m, false) == |d| + 1
    decreases |d|
  {
    var s := d + "." + m;
    if d == "" {
      assert s[0] == '.' && s[1..] == m;
      assert NumberLength(m, true) == 0;
    } else {
      assert s[1..] == d[1..] + "." + m;
      DigitsThenDot(d[1..], m);
    }
  }

  lemma NumberAlone(s: string, e: Ast, rest: string)
    requires s != "" && IsDigit(s[0]) && IsIdentStart(Peek(rest)) && ParseNumber(s) == Done(e, rest)
    ensures ParseUnary(s) == Done(e, rest)
  {
    hide ParseExpr, StringLoop, ParseBracket, ParseIdent, ParseNumber, MemberSuffix;
    NoKeyword(s);
    SkipStart(s);
    SkipStart(rest);
  }
}
