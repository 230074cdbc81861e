/** How the parser reads the text of module Source, in front of whatever may follow it.
    First how texts begin and end, then one lemma for each kind of step that a level of the grammar
    takes: down from the next level, over one operator of a folded level, over a comparison. The
    induction goes over trees, and for one tree up from the level at which it stands; a tree that
    binds too loosely stands in parentheses and starts again at the bottom. Then come the single
    forms, lists, and literals with interpolations. Module SourceText has what follows. */
module SourceReading {
  import opened Parser
  import opened Reading
  import opened Source

  // ---------------------------------------------------------------- how texts begin and what follows them

  /** The first character of an expression. */
  predicate Begins(s: string) {
    s != "" &&
    var c := s[0];
    IsIdentStart(c) || IsDigit(c) || c == '.' || c == '"' || c == '(' || c == '[' || c == '-' || c == '!'
  }

  lemma SkipBegin(s: string)
    requires Begins(s)
    ensures Skip(s) == s
  {
  }

  lemma {:induction false} DecimalBegins(t: string)
    requires t != "" && IsDecimal(t)
    ensures IsDigit(t[0]) || t[0] == '.'
  {
  }

  lemma {:induction false} ShowBegins(e: Ast)
    requires Tree(e)
    ensures Begins(Show(e)) && (Level(e) == 7 ==> Starts(Show(e)))
    decreases e, 0
  {
    match e
    case IntLit(n) => DecimalStarts(n);
    case DoubleLit(t) => DecimalBegins(t);
    case Binary(op, l, _) => PutBegins(l, LeftLevel(op));
    case Index(t, _) => PutBegins(t, 7);
    case Member(t, _, _) => PutBegins(t, 7);
    case Method(t, _, _, _) => PutBegins(t, 7);
    case _ =>
  }

  lemma {:induction false} PutBegins(e: Ast, k: nat)
    requires Tree(e)
    ensures Begins(Put(e, k)) && (k == 7 ==> Starts(Put(e, k)))
    decreases e, 1
  {
    ShowBegins(e);
  }

  /** What may follow an expression that no suffix continues. */
  predicate Bare(rest: string) { Closes(rest) || StartsBare(rest) }

  /** How tightly the operator binds that the text begins with; 0 if there is none. */
  function NextLevel(rest: string): nat {
    if "||" <= rest then 1
    else if "&&" <= rest then 2
    else if "==" <= rest || "!=" <= rest || Peek(rest) == '<' || Peek(rest) == '>' then 3
    else if Peek(rest) == '+' || Peek(rest) == '-' then 4
    else if Peek(rest) == '*' || Peek(rest) == '/' || Peek(rest) == '%' then 5
    else 0
  }

  lemma BareIs(rest: string)
    requires Bare(rest)
    ensures Follows(rest) && Skip(rest) == rest && !IsIdentChar(Peek(rest)) && Peek(rest) != '.'
    ensures forall e :: PostfixLoop(e, rest) == Done(e, rest)
  {
    SkipFollow(rest);
    hide Skip, MemberSuffix;
  }

  /** A written operator in front of an expression. */
  lemma OperatorIs(op: char, right: string)
    requires IsOperator(op) && Begins(right)
    ensures var t := Written(op) + right;
            && Bare(t) && NextLevel(t) == Binding(op) && t[|Written(op)|..] == right && Skip(t) == t
  {
    var t := Written(op) + right;
    if |Written(op)| == 1 {
      assert t[0] == op && t[1] == right[0];
    }
  }

  // ---------------------------------------------------------------- one level of the grammar

  function ParseAt(k: nat, s: string): Parsed {
    if k <= 1 then ParseOr(s) else if k == 2 then ParseAnd(s) else if k == 3 then ParseComparison(s)
    else if k == 4 then ParseTerm(s) else if k == 5 then ParseFactor(s) else ParseUnary(s)
  }

  function LoopAt(k: nat, left: Ast, s: string): Parsed {
    if k <= 1 then OrLoop(left, s) else if k == 2 then AndLoop(left, s) else if k == 4 then TermLoop(left, s)
    else FactorLoop(left, s)
  }

  /** The levels whose operators are folded in a loop. */
  predicate Folds(k: nat) { k == 1 || k == 2 || k == 4 || k == 5 }

  lemma {:induction false} StepDown(k: nat, s: string, e: Ast, rest: string)
    requires 1 <= k <= 5 && Bare(rest) && ParseAt(k + 1, s) == Done(e, rest)
    ensures Folds(k) ==> ParseAt(k, s) == LoopAt(k, e, rest)
    ensures NextLevel(rest) < k ==> ParseAt(k, s) == Done(e, rest)
  {
    hide ParseUnary, Skip;
    BareIs(rest);
    if NextLevel(rest) < k && Folds(k) { LoopStops(k, e, rest); }
  }

  lemma {:induction false} LoopStops(k: nat, e: Ast, rest: string)
    requires Folds(k) && NextLevel(rest) < k
    ensures LoopAt(k, e, rest) == Done(e, rest)
  {
    assert "||" <= rest ==> rest[0] == '|';
    assert "&&" <= rest ==> rest[0] == '&';
    assert "==" <= rest ==> rest[0] == '=';
    assert "!=" <= rest ==> rest[0] == '!';
  }

  lemma {:induction false} Absorb(op: char, l: Ast, right: string, r: Ast, rest: string)
    requires IsOperator(op) && Folds(Binding(op)) && Begins(right) && Bare(rest)
    requires ParseAt(Binding(op) + 1, right) == Done(r, rest)
    ensures LoopAt(Binding(op), l, Written(op) + right) == LoopAt(Binding(op), Binary(op, l, r), rest)
  {
    hide ParseUnary, ParseFactor, ParseComparison, ParseAnd, Skip;
    BareIs(rest);
    OperatorIs(op, right);
    var t := Written(op) + right;
    assert Peek(t) == t[0];
  }

  lemma {:induction false} Compares(op: char, s: string, l: Ast, right: string, r: Ast, rest: string)
    requires IsOperator(op) && Binding(op) == 3 && Begins(right) && Bare(rest)
    requires ParseTerm(s) == Done(l, Written(op) + right) && ParseTerm(right) == Done(r, rest)
    ensures ParseComparison(s) == Done(Binary(op, l, r), rest)
  {
    hide ParseTerm, Skip;
    OperatorIs(op, right);
    var t := Written(op) + right;
    assert |t| >= 2;
  }

  // ---------------------------------------------------------------- the induction

  /** Up to its own level an expression stands bare, above it in parentheses. */
  function Rank(e: Ast, k: nat): nat { if k <= Level(e) then Level(e) - k else if k <= 17 then 17 - k else 0 }

  lemma SamePut(e: Ast, k: nat)
    requires k != Level(e)
    ensures Put(e, k) == Put(e, k + 1)
  {
    hide Show;
  }

  lemma BinaryText(op: char, l: Ast, r: Ast, rest: string)
    ensures Show(Binary(op, l, r)) + rest == Put(l, LeftLevel(op)) + (Written(op) + (Put(r, Binding(op) + 1) + rest))
  {
    hide Put, Written;
    var a, w, b := Put(l, LeftLevel(op)), Written(op), Put(r, Binding(op) + 1);
    assert Show(Binary(op, l, r)) == a + (w + b);
    assert (a + (w + b)) + rest == a + (w + (b + rest));
  }

  /** On a level whose operators are folded: the expression has been read, and the loop goes on behind it. */
  lemma {:induction false} LoopReads(e: Ast, k: nat, rest: string)
    requires Tree(e) && Folds(k) && Bare(rest) && NextLevel(rest) <= k
    ensures ParseAt(k, Put(e, k) + rest) == LoopAt(k, e, rest)
    decreases e, Rank(e, k), 1
  {
    hide ParseAt, LoopAt, Put, Bare, NextLevel;
    if Level(e) == k {
      var Binary(op, l, r) := e;
      var right := Put(r, k + 1) + rest;
      PutBegins(r, k + 1);
      OperatorIs(op, right);
      LoopReads(l, k, Written(op) + right);
      LevelReads(r, k + 1, rest);
      Absorb(op, l, right, r, rest);
      BinaryText(op, l, r, rest);
      OwnPut(e, k);
    } else {
      SamePut(e, k);
      LevelReads(e, k + 1, rest);
      StepDown(k, Put(e, k) + rest, e, rest);
    }
  }

  lemma OwnPut(e: Ast, k: nat)
    requires k <= Level(e)
    ensures Put(e, k) == Show(e)
  {
  }

  /** On every level: the expression is read, and nothing of what follows, if no operator of the level does. */
  lemma {:induction false} LevelReads(e: Ast, k: nat, rest: string)
    requires Tree(e) && 1 <= k <= 6 && Bare(rest) && NextLevel(rest) < k
    ensures ParseAt(k, Put(e, k) + rest) == Done(e, rest)
    decreases e, Rank(e, k), 2
  {
    hide LoopAt, Put, Bare, NextLevel;
    if k == 6 {
      hide ParseUnary;
      UnaryLevelReads(e, rest);
    } else if k == 3 && Level(e) == 3 {
      hide ParseTerm, ParseComparison;
      var Binary(op, l, r) := e;
      var right := Put(r, 4) + rest;
      PutBegins(r, 4);
      OperatorIs(op, right);
      LevelReads(l, 4, Written(op) + right);
      LevelReads(r, 4, rest);
      Compares(op, Put(l, 4) + (Written(op) + right), l, right, r, rest);
      BinaryText(op, l, r, rest);
      OwnPut(e, k);
    } else if k == 3 {
      hide ParseAt;
      SamePut(e, k);
      LevelReads(e, k + 1, rest);
      StepDown(k, Put(e, k) + rest, e, rest);
    } else {
      hide ParseAt;
      LoopReads(e, k, rest);
      LoopStops(k, e, rest);
    }
  }

  lemma {:induction false} UnaryLevelReads(e: Ast, rest: string)
    requires Tree(e) && Bare(rest)
    ensures ParseUnary(Put(e, 6) + rest) == Done(e, rest)
    decreases e, Rank(e, 6), 1
  {
    hide ParseUnary, PostfixLoop, Put, Bare, Reads, Show;
    BareIs(rest);
    if Level(e) == 6 {
      var Unary(op, x) := e;
      BelowUnary(rest);
      LevelReads(x, 6, rest);
      SignReads(op, Put(x, 6) + rest, x, rest);
      OwnPut(e, 6);
      assert Show(e) == [op] + Put(x, 6) by { UnaryShow(op, x); }
      assert [op] + Put(x, 6) + rest == [op] + (Put(x, 6) + rest);
      assert ParseAt(6, Put(x, 6) + rest) == ParseUnary(Put(x, 6) + rest);
    } else {
      SamePut(e, 6);
      PrimaryReads(e, rest);
      UnaryDone(Put(e, 7) + rest, e, rest, rest);
    }
  }

  lemma BelowUnary(rest: string)
    ensures NextLevel(rest) < 6
  {
  }

  lemma UnaryShow(op: char, x: Ast)
    ensures Show(Unary(op, x)) == [op] + Put(x, 6)
  {
  }

  lemma ParenText(e: Ast, rest: string)
    requires Level(e) < 7
    ensures Put(e, 7) + rest == "(" + (Show(e) + (")" + rest))
  {
    hide Show;
  }

  lemma CloserIs(s: string)
    requires s != "" && (s[0] == ')' || s[0] == ']' || s[0] == ',' || s[0] == ':' || s[0] == '}')
    ensures Bare(s) && NextLevel(s) == 0
  {
    NoPrefix("||", s, 0);
    NoPrefix("&&", s, 0);
    NoPrefix("==", s, 0);
    NoPrefix("!=", s, 0);
    NoPrefix("//", s, 0);
  }

  lemma CloseIs(rest: string)
    ensures Bare(")" + rest) && NextLevel(")" + rest) == 0 && Bare("]" + rest) && NextLevel("]" + rest) == 0
    ensures Bare("," + rest) && NextLevel("," + rest) == 0 && Bare(":" + rest) && NextLevel(":" + rest) == 0
    ensures Bare("}" + rest) && NextLevel("}" + rest) == 0
  {
    hide Bare, NextLevel;
    CloserIs(")" + rest);
    CloserIs("]" + rest);
    CloserIs("," + rest);
    CloserIs(":" + rest);
    CloserIs("}" + rest);
  }

  lemma {:induction false} WholeReads(e: Ast, rest: string)
    requires Tree(e) && Bare(rest) && NextLevel(rest) == 0
    ensures ParseExpr(Show(e) + rest) == Done(e, rest)
    decreases e, Rank(e, 1), 3
  {
    hide Show, ParseOr, Bare, NextLevel;
    LevelReads(e, 1, rest);
    OwnPut(e, 1);
  }

  /** A primary expression, in parentheses if it needs them; suffixes may follow. */
  lemma {:induction false} PrimaryReads(e: Ast, rest: string)
    requires Tree(e) && Follows(rest) && (e.IntLit? ==> Peek(rest) != '.')
    ensures Reads(Put(e, 7) + rest, e, rest)
    decreases e, Rank(e, 7), 2
  {
    hide Reads, Show, Put, Follows;
    if Level(e) < 7 {
      CloseIs(rest);
      WholeReads(e, ")" + rest);
      GroupReads(Show(e) + (")" + rest), e, rest);
      ParenText(e, rest);
    } else {
      OwnPut(e, 7);
      AtomReads(e, rest);
    }
  }

  // ---------------------------------------------------------------- single forms

  lemma {:induction false} AtomReads(e: Ast, rest: string)
    requires Tree(e) && Level(e) == 7 && Follows(rest) && (e.IntLit? ==> Peek(rest) != '.')
    ensures Reads(Show(e) + rest, e, rest)
    decreases e, 0, 1
  {
    hide Reads, Follows, Skip, Put, ShowAll, ShowPairs, ShowFields, Escapes;
    match e
    case NilLit => WordReads(e, rest);
    case BoolLit(_) => WordReads(e, rest);
    case IntLit(n) => IntReads(n, rest);
    case DoubleLit(t) => DoubleReads(t, rest);
    case StrLit(s) => QuoteReads(s, rest);
    case Var(x) => VarReads(x, rest);
    case Self => SelfReads(e, "self", rest);
    case Super => SelfReads(e, "super", rest);
    case Call(f, args) => CallText(f, args, rest); ArgsRead'(args, rest); CallReads(f, args, ShowAll(args)
                                                                                    + (")" + rest), rest);
    case Array(items) => ArrayAtomReads(items, rest);
    case Dict(pairs) => DictAtomReads(pairs, rest);
    case Index(t, i) => IndexAtomReads(t, i, rest);
    case Member(t, m, chained) => MemberAtomReads(t, m, chained, rest);
    case Method(t, m, args, chained) => MethodAtomReads(t, m, args, chained, rest);
    case Struct(name, fields) => StructAtomReads(name, fields, rest);
  }

  lemma CallText(f: string, args: Asts, rest: string)
    ensures Show(Call(f, args)) + rest == f + ("(" + (ShowAll(args) + (")" + rest)))
  {
    hide ShowAll;
    assert Show(Call(f, args)) == f + "(" + ShowAll(args) + ")";
  }

  // ---- literals

  lemma {:induction false} QuoteReads(s: string, rest: string)
    requires Follows(rest)
    ensures Reads(Show(StrLit(s)) + rest, StrLit(s), rest)
  {
    hide ParsePrimary, PostfixLoop, ParseUnary, Follows, Starts, Writes;
    var text := Escapes(s) + "\"" + rest;
    assert Show(StrLit(s)) + rest == "\"" + text;
    EscapesWrite(s);
    LiteralReads(Escapes(s), s, rest);
    assert "\"" + Escapes(s) + "\"" + rest == "\"" + text;
    QuotePrimary(text);
    FromPrimary("\"" + text, StrLit(s), rest);
  }

  lemma {:induction false} DoubleSpan(t: string, i: nat, rest: string, dotted: bool)
    requires !IsDigit(Peek(rest)) && (Peek(rest) != '.' || (i < |t|) || dotted) && i <= |t|
    requires forall j :: 0 <= j < |t| && j != i ==> IsDigit(t[j])
    requires i < |t| ==> t[i] == '.' && !dotted
    ensures NumberLength(t + rest, dotted) == |t|
    decreases |t|
  {
    var s := t + rest;
    if t == "" {
      assert s == rest;
    } else {
      assert s[1..] == t[1..] + rest && s[0] == t[0];
      DoubleSpan(t[1..], if i == 0 || i == |t| then |t| - 1 else i - 1, rest, dotted || t[0] == '.');
    }
  }

  lemma {:induction false} DoubleReads(t: string, rest: string)
    requires t != "" && IsDecimal(t) && Follows(rest)
    ensures Reads(t + rest, DoubleLit(t), rest)
  {
    hide ParseExpr, StringLoop, ParseBracket, ParseIdent, PostfixLoop, ParseUnary, AtKeyword;
    var s := t + rest;
    SkipFollow(rest);
    var i :| 0 <= i < |t| && t[i] == '.' && AllDigits(t[..i]) && AllDigits(t[i + 1..]);
    forall j | 0 <= j < |t| && j != i ensures IsDigit(t[j]) {
      if j < i { assert t[..i][j] == t[j]; } else { assert t[i + 1..][j - i - 1] == t[j]; }
    }
    DoubleSpan(t, i, rest, false);
    assert s[..|t|] == t && s[|t|..] == rest && s[0] == t[0];
    assert t[i] in t;
    assert ParseNumber(s) == Done(DoubleLit(t), rest);
    SkipStart(s);
    NoKeyword(s);
    DecimalPrimary(s);
    FromPrimary(s, DoubleLit(t), rest);
  }

  lemma DecimalPrimary(s: string)
    requires s != "" && (IsDigit(s[0]) || (s[0] == '.' && |s| > 1 && IsDigit(s[1])))
    ensures ParsePrimary(s) == ParseNumber(s)
  {
    hide ParseExpr, StringLoop, ParseBracket, ParseIdent, ParseNumber;
    SkipStart(s);
    NoKeyword(s);
  }

  lemma {:induction false} SelfReads(e: Ast, word: string, rest: string)
    requires (e == Self && word == "self") || (e == Super && word == "super")
    requires Follows(rest)
    ensures Reads(word + rest, e, rest)
  {
    hide ParseExpr, StringLoop, ParseBracket, ParseNumber, PostfixLoop, ParseUnary, AtKeyword;
    var s := word + rest;
    SkipFollow(rest);
    assert IsName(word);
    SkipStart(s);
    NotKeyword(word, rest, "nil");
    NotKeyword(word, rest, "true");
    NotKeyword(word, rest, "false");
    NameSpan(word, rest);
    assert ParseIdent(s) == Done(e, rest);
    hide ParseIdent;
    assert ParsePrimary(s) == Done(e, rest);
    FromPrimary(s, e, rest);
  }

  // ---- lists

  /** What follows an element: the end of the list, or a comma and more. */
  function After(more: string, close: string): string { if more == "" then close else "," + (more + close) }

  lemma RegroupElement(a: string, more: string, close: string)
    ensures (a + (if more == "" then "" else "," + more)) + close == a + After(more, close)
  {
    if more == "" {
      assert (a + "") + close == a + close;
    } else {
      assert (a + ("," + more)) + close == a + ("," + (more + close));
    }
  }

  lemma AllBegin(es: Asts, close: string)
    requires AllTrees(es)
    ensures es.MoreAsts? ==> Begins(ShowAll(es) + close)
    ensures ShowAll(es) == "" <==> es.NoAsts?
  {
    hide Show, Tree;
    if es.MoreAsts? {
      ShowBegins(es.head);
      MoreBegins(Show(es.head), ShowAll(es), close);
    }
  }

  lemma AllText(es: Asts, close: string)
    requires es.MoreAsts? && AllTrees(es)
    ensures ShowAll(es) + close == Show(es.head) + After(ShowAll(es.tail), close)
    ensures es.tail.MoreAsts? ==> Begins(ShowAll(es.tail) + close)
    ensures ShowAll(es.tail) == "" <==> es.tail.NoAsts?
  {
    hide Show, Begins, Tree, After;
    AllBegin(es.tail, close);
    RegroupElement(Show(es.head), ShowAll(es.tail), close);
  }

  lemma MoreBegins(s: string, text: string, close: string)
    requires Begins(s) && s <= text
    ensures Begins(text + close) && Begins(text)
  {
  }

  lemma AfterIs(more: string, close: string)
    requires close != "" && (close[0] == ')' || close[0] == ']' || close[0] == '}')
    requires more != "" ==> Begins(more + close)
    ensures var u := After(more, close);
            && Bare(u) && NextLevel(u) == 0 && Skip(u) == u && Peek(u) == (if more == "" then close[0] else ',')
            && u[1..] == (if more == "" then close[1..] else more + close)
            && (more != "" ==> Skip(u[1..]) == u[1..])
  {
    if more != "" { SkipBegin(more + close); }
    CloseIs(if more == "" then close[1..] else more + close);
    assert close == [close[0]] + close[1..];
    BareIs(After(more, close));
  }

  lemma {:induction false} ArgsRead'(es: Asts, rest: string)
    requires AllTrees(es)
    ensures ParseArguments(ShowAll(es) + (")" + rest)) == SomeArgs(es, rest)
    decreases es, 1, 0
  {
    hide ArgLoop, Begins, Tree, Show;
    var s := ShowAll(es) + (")" + rest);
    ArgLoopReads(es, rest);
    if es.MoreAsts? {
      ShowBegins(es.head);
      MoreBegins(Show(es.head), ShowAll(es), ")" + rest);
      SkipBegin(s);
    } else {
      assert s == ")" + rest;
    }
  }

  lemma {:induction false} ArgLoopReads(es: Asts, rest: string)
    requires AllTrees(es)
    ensures ArgLoop(ShowAll(es) + (")" + rest)) == SomeArgs(es, rest)
    decreases es, 0, 0
  {
    hide ParseExpr, Show, ShowAll, After, Bare, NextLevel, Tree;
    var close := ")" + rest;
    if es.NoAsts? {
      NoneText(close);
      assert close[1..] == rest;
    } else {
      var more := ShowAll(es.tail);
      AllText(es, close);
      AfterIs(more, close);
      ShowBegins(es.head);
      WholeReads(es.head, After(more, close));
      MoreBegins(Show(es.head), Show(es.head), After(more, close));
      ArgLoopReads(es.tail, rest);
      hide Skip;
    }
  }

  lemma NoneText(close: string)
    ensures ShowAll(NoAsts) + close == close
  {
  }

  lemma {:induction false} ItemLoopReads(es: Asts, rest: string)
    requires AllTrees(es)
    ensures ItemLoop(ShowAll(es) + ("]" + rest), false) == SomeItems(es, NoPairs, false, rest)
    decreases es, 0, 0
  {
    hide ParseExpr, Show, ShowAll, After, Bare, NextLevel, Tree;
    var close := "]" + rest;
    if es.NoAsts? {
      NoneText(close);
      assert close[1..] == rest;
    } else {
      var more := ShowAll(es.tail);
      var u := After(more, close);
      AllText(es, close);
      AfterIs(more, close);
      ShowBegins(es.head);
      WholeReads(es.head, u);
      MoreBegins(Show(es.head), Show(es.head), u);
      ItemLoopReads(es.tail, rest);
      hide Skip;
    }
  }

  lemma {:induction false} ArrayAtomReads(items: Asts, rest: string)
    requires AllTrees(items) && Follows(rest)
    ensures Reads(Show(Array(items)) + rest, Array(items), rest)
    decreases items, 1, 1
  {
    hide ParseExpr, PostfixLoop, ParsePrimary, ItemLoop, ParseUnary, Show, Tree, Begins, Follows;
    var text := ShowAll(items) + ("]" + rest);
    ItemLoopReads(items, rest);
    GroupPrimary(text);
    ListBegins(items, rest);
    assert ParseBracket(text) == Done(Array(items), rest);
    ArrayText(items, rest);
    FromPrimary("[" + text, Array(items), rest);
  }

  lemma ListBegins(items: Asts, rest: string)
    requires AllTrees(items)
    ensures var text := ShowAll(items) + ("]" + rest); Skip(text) == text && Peek(text) != ':'
  {
    hide Show;
    var text := ShowAll(items) + ("]" + rest);
    if items.MoreAsts? {
      ShowBegins(items.head);
      MoreBegins(Show(items.head), ShowAll(items), "]" + rest);
      SkipBegin(text);
    } else {
      assert text == "]" + rest;
    }
  }

  lemma ArrayText(items: Asts, rest: string)
    ensures Show(Array(items)) + rest == "[" + (ShowAll(items) + ("]" + rest))
  {
    hide ShowAll;
    assert Show(Array(items)) == "[" + ShowAll(items) + "]";
  }

  // ---- dictionaries

  /** A name or key, a colon, a value, and what follows. */
  lemma RegroupItem(k: string, v: string, more: string, close: string)
    ensures (k + ":" + v + (if more == "" then "" else "," + more)) + close == k + (":" + (v + After(more, close)))
  {
    if more == "" {
      assert (k + ":" + v + "") + close == k + (":" + (v + close));
    } else {
      assert (k + ":" + v + ("," + more)) + close == k + (":" + (v + ("," + (more + close))));
    }
  }

  lemma PairsBegin(ps: Pairs, close: string)
    requires PairTrees(ps)
    ensures ps.MorePairs? ==> Begins(ShowPairs(ps) + close)
    ensures ShowPairs(ps) == "" <==> ps.NoPairs?
  {
    hide Show, Tree;
    if ps.MorePairs? {
      ShowBegins(ps.key);
      MoreBegins(Show(ps.key), ShowPairs(ps), close);
    }
  }

  lemma PairText(ps: Pairs, close: string)
    requires ps.MorePairs? && PairTrees(ps)
    ensures ShowPairs(ps) + close == Show(ps.key) + (":" + (Show(ps.value) + After(ShowPairs(ps.rest), close)))
    ensures ps.rest.MorePairs? ==> Begins(ShowPairs(ps.rest) + close)
    ensures ShowPairs(ps.rest) == "" <==> ps.rest.NoPairs?
  {
    hide Show, Begins, Tree, After;
    PairsBegin(ps.rest, close);
    RegroupItem(Show(ps.key), Show(ps.value), ShowPairs(ps.rest), close);
  }

  lemma {:induction false} PairLoopReads(ps: Pairs, rest: string, dict: bool)
    requires PairTrees(ps) && ps.MorePairs?
    ensures ItemLoop(ShowPairs(ps) + ("]" + rest), dict) == SomeItems(NoAsts, ps, true, rest)
    decreases ps, 0, 0
  {
    hide ParseExpr, Show, ShowPairs, After, Bare, NextLevel, Tree, ItemEnd;
    var close := "]" + rest;
    var more := ShowPairs(ps.rest);
    var u := After(more, close);
    var s := ShowPairs(ps) + close;
    PairText(ps, close);
    AfterIs(more, close);
    CloseIs(Show(ps.value) + u);
    WholeReads(ps.key, ":" + (Show(ps.value) + u));
    WholeReads(ps.value, u);
    ShowBegins(ps.key);
    MoreBegins(Show(ps.key), Show(ps.key), ":" + (Show(ps.value) + u));
    assert (":" + (Show(ps.value) + u))[1..] == Show(ps.value) + u;
    BareIs(":" + (Show(ps.value) + u));
    if ps.rest.MorePairs? { PairLoopReads(ps.rest, rest, true); }
    PairEnd(ps.rest, u, close, rest);
    hide Skip;
  }

  lemma PairEnd(more: Pairs, u: string, close: string, rest: string)
    requires close == "]" + rest && u != "" && Peek(u) == (if more.NoPairs? then ']' else ',')
    requires more.NoPairs? ==> u[1..] == rest
    requires more.MorePairs? ==>
               Skip(u[1..]) == u[1..] == ShowPairs(more) + close
               && ItemLoop(ShowPairs(more) + close, true) == SomeItems(NoAsts, more, true, rest)
    ensures ItemEnd(u, true) == SomeItems(NoAsts, more, true, rest)
  {
    hide ItemLoop, Skip;
  }

  lemma {:induction false} DictAtomReads(pairs: Pairs, rest: string)
    requires PairTrees(pairs) && Follows(rest)
    ensures Reads(Show(Dict(pairs)) + rest, Dict(pairs), rest)
    decreases pairs, 1, 1
  {
    hide ParseExpr, PostfixLoop, ParsePrimary, ItemLoop, ParseUnary, Tree, Begins, Follows;
    if pairs.NoPairs? {
      var text := ":]" + rest;
      assert Show(Dict(pairs)) + rest == "[" + text;
      GroupPrimary(text);
      assert text[1..] == "]" + rest && text[1..][1..] == rest;
      assert Skip(text) == text && Skip("]" + rest) == "]" + rest;
      assert ParseBracket(text) == Done(Dict(NoPairs), rest);
      FromPrimary("[" + text, Dict(pairs), rest);
    } else {
      var text := ShowPairs(pairs) + ("]" + rest);
      assert Show(Dict(pairs)) + rest == "[" + text by { DictText(pairs, rest); }
      hide Show;
      PairLoopReads(pairs, rest, false);
      GroupPrimary(text);
      PairListBegins(pairs, "]" + rest);
      assert ParseBracket(text) == Done(Dict(pairs), rest);
      FromPrimary("[" + text, Dict(pairs), rest);
    }
  }

  lemma DictText(pairs: Pairs, rest: string)
    requires pairs.MorePairs?
    ensures Show(Dict(pairs)) + rest == "[" + (ShowPairs(pairs) + ("]" + rest))
  {
    hide ShowPairs;
    assert Show(Dict(pairs)) == "[" + ShowPairs(pairs) + "]";
  }

  lemma PairListBegins(pairs: Pairs, close: string)
    requires PairTrees(pairs) && pairs.MorePairs?
    ensures var text := ShowPairs(pairs) + close; Skip(text) == text && Peek(text) != ':'
  {
    hide Show;
    ShowBegins(pairs.key);
    MoreBegins(Show(pairs.key), ShowPairs(pairs), close);
    SkipBegin(ShowPairs(pairs) + close);
  }

  // ---- suffixes

  lemma {:induction false} IndexAtomReads(t: Ast, i: Ast, rest: string)
    requires Tree(t) && Tree(i) && Follows(rest)
    ensures Reads(Show(Index(t, i)) + rest, Index(t, i), rest)
    decreases Index(t, i), 0, 0
  {
    hide Reads, ParseExpr, PostfixLoop, Skip, Put, Follows, Bare, NextLevel;
    var suffix := "[" + (Show(i) + ("]" + rest));
    assert Show(Index(t, i)) + rest == Put(t, 7) + suffix by {
      assert Show(Index(t, i)) == Put(t, 7) + "[" + Show(i) + "]";
    }
    hide Show;
    CloseIs(rest);
    WholeReads(i, "]" + rest);
    SuffixFollows(suffix);
    PrimaryReads(t, suffix);
    IndexSuffix(t, i, Show(i), rest);
    Chain(Put(t, 7) + suffix, t, suffix, Index(t, i), rest);
  }

  lemma SuffixFollows(s: string)
    requires s != "" && (s[0] == '[' || s[0] == '.' || s[0] == '?')
    ensures Follows(s) && (s[0] != '.' ==> Peek(s) != '.')
  {
  }

  lemma IndexSuffix(t: Ast, i: Ast, text: string, rest: string)
    requires ParseExpr(text + ("]" + rest)) == Done(i, "]" + rest)
    ensures PostfixLoop(t, "[" + (text + ("]" + rest))) == PostfixLoop(Index(t, i), rest)
  {
    hide ParseExpr, MemberSuffix;
    var s := "[" + (text + ("]" + rest));
    assert s[1..] == text + ("]" + rest);
    assert Skip(s) == s && Skip("]" + rest) == "]" + rest && ("]" + rest)[1..] == rest;
  }

  /** What stands before a dot. */
  lemma {:induction false} TargetReads(t: Ast, chained: bool, suffix: string)
    requires Tree(t) && suffix != "" && suffix[0] == (if chained then '?' else '.')
    ensures Reads(Target(t, chained) + suffix, t, suffix)
    decreases t, 100, 0
  {
    hide Reads, Put, Follows, Show;
    SuffixFollows(suffix);
    if t.IntLit? && !chained {
      CloseIs(suffix);
      WholeReads(t, ")" + suffix);
      assert ("(" + Show(t) + ")") + suffix == "(" + (Show(t) + (")" + suffix));
      GroupReads(Show(t) + (")" + suffix), t, suffix);
    } else {
      PrimaryReads(t, suffix);
    }
  }

  lemma {:induction false} MemberAtomReads(t: Ast, m: string, chained: bool, rest: string)
    requires Tree(t) && IsName(m) && Follows(rest)
    ensures Reads(Show(Member(t, m, chained)) + rest, Member(t, m, chained), rest)
    decreases Member(t, m, chained), 0, 0
  {
    hide Reads, PostfixLoop, Skip, Target, Follows, IsName;
    var suffix := Dot(chained) + m + rest;
    assert Show(Member(t, m, chained)) + rest == Target(t, chained) + suffix by {
      assert Show(Member(t, m, chained)) == Target(t, chained) + Dot(chained) + m;
    }
    TargetReads(t, chained, suffix);
    MemberReads(t, m, chained, rest);
    Chain(Target(t, chained) + suffix, t, suffix, Member(t, m, chained), rest);
  }

  lemma {:induction false} MethodAtomReads(t: Ast, m: string, args: Asts, chained: bool, rest: string)
    requires Tree(t) && IsName(m) && AllTrees(args) && Follows(rest)
    ensures Reads(Show(Method(t, m, args, chained)) + rest, Method(t, m, args, chained), rest)
    decreases Method(t, m, args, chained), 0, 0
  {
    hide Reads, PostfixLoop, ParseArguments, Skip, Target, Follows, IsName, ShowAll;
    var text := "(" + (ShowAll(args) + (")" + rest));
    var suffix := Dot(chained) + m + text;
    MethodShow(t, m, args, chained, rest);
    ArgsRead'(args, rest);
    assert text[1..] == ShowAll(args) + (")" + rest);
    TargetReads(t, chained, suffix);
    MethodReads(t, m, args, chained, text, rest);
    Chain(Target(t, chained) + suffix, t, suffix, Method(t, m, args, chained), rest);
  }

  lemma MethodShow(t: Ast, m: string, args: Asts, chained: bool, rest: string)
    ensures Show(Method(t, m, args, chained)) + rest
            == Target(t, chained) + (Dot(chained) + m + ("(" + (ShowAll(args) + (")" + rest))))
  {
    hide Target, ShowAll;
    var a, d, l := Target(t, chained), Dot(chained), ShowAll(args);
    assert Show(Method(t, m, args, chained)) == a + d + m + "(" + l + ")";
    assert (a + d + m + "(" + l + ")") + rest == a + (d + m + ("(" + (l + (")" + rest))));
  }

  // ---- struct literals

  lemma FieldsAre(fs: Fields, close: string)
    requires FieldTrees(fs)
    ensures fs.MoreFields? ==> Begins(ShowFields(fs) + close)
    ensures ShowFields(fs) == "" <==> fs.NoFields?
  {
    hide Show, Tree;
    if fs.MoreFields? {
      assert fs.field <= ShowFields(fs);
      MoreBegins(fs.field, ShowFields(fs), close);
    }
  }

  lemma FieldText(fs: Fields, close: string)
    requires fs.MoreFields? && FieldTrees(fs)
    ensures ShowFields(fs) + close == fs.field + (":" + (Show(fs.value) + After(ShowFields(fs.rest), close)))
    ensures fs.rest.MoreFields? ==> Begins(ShowFields(fs.rest) + close)
    ensures ShowFields(fs.rest) == "" <==> fs.rest.NoFields?
  {
    hide Show, Begins, Tree, After;
    FieldsAre(fs.rest, close);
    RegroupItem(fs.field, Show(fs.value), ShowFields(fs.rest), close);
  }

  lemma {:induction false} FieldLoopReads(fs: Fields, rest: string)
    requires FieldTrees(fs)
    ensures FieldLoop(ShowFields(fs) + ("}" + rest)) == SomeFields(fs, rest)
    decreases fs, 0, 0
  {
    hide ParseExpr, Show, ShowFields, After, Bare, NextLevel, Tree, FieldEnd;
    var close := "}" + rest;
    if fs.NoFields? {
      FieldsAre(fs, close);
      assert ShowFields(fs) + close == close && close[1..] == rest;
    } else {
      var more := ShowFields(fs.rest);
      var u := After(more, close);
      var tail := ":" + (Show(fs.value) + u);
      FieldText(fs, close);
      AfterIs(more, close);
      NameSpan(fs.field, tail);
      WholeReads(fs.value, u);
      assert tail[1..] == Show(fs.value) + u && Skip(tail) == tail;
      FieldLoopReads(fs.rest, rest);
      FieldEnds(fs.field, fs.value, fs.rest, u, close, rest);
      hide Skip;
    }
  }

  lemma FieldEnds(name: string, v: Ast, more: Fields, u: string, close: string, rest: string)
    requires close == "}" + rest && u != "" && Peek(u) == (if more.NoFields? then '}' else ',')
    requires more.NoFields? ==> u[1..] == rest
    requires more.MoreFields? ==>
               Skip(u[1..]) == u[1..] == ShowFields(more) + close
               && FieldLoop(ShowFields(more) + close) == SomeFields(more, rest)
    ensures FieldEnd(name, v, u) == SomeFields(MoreFields(name, v, more), rest)
  {
    hide FieldLoop, Skip;
  }

  lemma {:induction false} StructAtomReads(name: string, fields: Fields, rest: string)
    requires IsName(name) && !IsReserved(name) && FieldTrees(fields) && Follows(rest)
    ensures Reads(Show(Struct(name, fields)) + rest, Struct(name, fields), rest)
    decreases fields, 1, 1
  {
    hide FieldLoop, PostfixLoop, ParseExpr, ParseArguments, ShowFields, Follows;
    var text := ShowFields(fields) + ("}" + rest);
    var t := "{" + text;
    assert Show(Struct(name, fields)) + rest == name + t by {
      assert Show(Struct(name, fields)) == name + "{" + ShowFields(fields) + "}";
    }
    FieldLoopReads(fields, rest);
    FieldsBegin(fields, "}" + rest);
    assert t[1..] == text && Skip(t) == t;
    NamePrimary(name, t);
    NameSpan(name, t);
    assert ParseIdent(name + t) == Done(Struct(name, fields), rest);
    FromPrimary(name + t, Struct(name, fields), rest);
  }

  lemma FieldsBegin(fields: Fields, close: string)
    requires FieldTrees(fields) && close != "" && close[0] == '}'
    ensures Skip(ShowFields(fields) + close) == ShowFields(fields) + close
  {
    hide Show;
    if fields.MoreFields? {
      assert fields.field <= ShowFields(fields);
      SkipBegin(ShowFields(fields) + close);
    } else {
      assert ShowFields(fields) + close == close;
    }
  }

  // ---------------------------------------------------------------- interpolated literals

  lemma SumMore(parts: seq<Ast>, x: Ast)
    ensures Sum(parts + [x]) == if parts == [] then x else Binary('+', Sum(parts), x)
  {
    assert (parts + [x])[..|parts|] == parts;
  }

  /** The parts read so far, as the reader of a literal carries them. */
  predicate Carries(done: seq<Ast>, left: Ast, hasLeft: bool) {
    (hasLeft <==> done != []) && (hasLeft ==> left == Sum(done))
  }

  /** Taking a text of the literal into what has been read. */
  lemma TextTaken(done: seq<Ast>, left: Ast, hasLeft: bool, s: string)
    requires Carries(done, left, hasLeft)
    ensures Carries(done + TextPart(s), if s != "" then Joined(left, hasLeft, StrLit(s)) else left, hasLeft || s != "")
  {
    hide Sum;
    SumMore(done, StrLit(s));
    assert done + [] == done;
  }

  lemma PartTaken(done: seq<Ast>, left: Ast, hasLeft: bool, x: Ast)
    requires Carries(done, left, hasLeft)
    ensures Joined(left, hasLeft, x) == Sum(done + [x]) && Carries(done + [x], Sum(done + [x]), true)
  {
    hide Sum;
    SumMore(done, x);
  }

  lemma {:induction false} LastRead(s: string, done: seq<Ast>, left: Ast, hasLeft: bool, rest: string)
    requires Carries(done, left, hasLeft)
    ensures StringLoop(ShowTemplate(Last(s)) + rest, "", left, hasLeft) == Done(Sum(done + TextPart(s)), rest)
  {
    hide ParseExpr, Writes, Escapes, Sum;
    var close := "\"" + rest;
    EscapesWrite(s);
    assert ShowTemplate(Last(s)) + rest == Escapes(s) + close;
    WritesRead(Escapes(s), s, "", left, hasLeft, close);
    assert "" + s == s && close[1..] == rest;
    TextTaken(done, left, hasLeft, s);
    EmptySum();
  }

  lemma {:induction false} TemplateLoop(t: Template, done: seq<Ast>, left: Ast, hasLeft: bool, rest: string)
    requires TemplateTrees(t) && Carries(done, left, hasLeft)
    ensures StringLoop(ShowTemplate(t) + rest, "", left, hasLeft) == Done(Sum(done + Parts(t)), rest)
    decreases t
  {
    hide ParseExpr, Show, Tree, Writes, Escapes, Sum, StringLoop, ShowTemplate, Carries, Bare, NextLevel;
    match t
    case Last(s) => LastRead(s, done, left, hasLeft, rest);
    case Hole(s, e, more) =>
      var next := ShowTemplate(more) + rest;
      var hole := "\\(" + (Show(e) + (")" + next));
      var texts := done + TextPart(s);
      var before := if s != "" then Joined(left, hasLeft, StrLit(s)) else left;
      var call := Call("str", MoreAsts(e, NoAsts));
      HoleText(s, e, more, rest);
      EscapesWrite(s);
      WritesRead(Escapes(s), s, "", left, hasLeft, hole);
      assert "" + s == s && hole[2..] == Show(e) + (")" + next);
      CloseIs(next);
      WholeReads(e, ")" + next);
      HoleStep(hole, s, left, hasLeft, e, next);
      TextTaken(done, left, hasLeft, s);
      PartTaken(texts, before, hasLeft || s != "", call);
      TemplateLoop(more, texts + [call], Sum(texts + [call]), true, rest);
      assert texts + [call] + Parts(more) == done + Parts(t);
  }

  lemma EmptySum()
    ensures Sum([]) == StrLit("")
  {
  }

  lemma HoleText(s: string, e: Ast, more: Template, rest: string)
    ensures ShowTemplate(Hole(s, e, more)) + rest
            == Escapes(s) + ("\\(" + (Show(e) + (")" + (ShowTemplate(more) + rest))))
  {
    hide Show, Escapes;
    var a, b, m := Escapes(s), Show(e), ShowTemplate(more);
    assert ShowTemplate(Hole(s, e, more)) == a + ("\\(" + (b + (")" + m))) by { HoleShow(s, e, more); }
    assert (a + ("\\(" + (b + (")" + m)))) + rest == a + ("\\(" + (b + (")" + (m + rest))));
  }

  lemma HoleShow(s: string, e: Ast, more: Template)
    ensures ShowTemplate(Hole(s, e, more)) == Escapes(s) + ("\\(" + (Show(e) + (")" + ShowTemplate(more))))
  {
  }

  lemma HoleStep(s: string, buffer: string, left: Ast, hasLeft: bool, e: Ast, next: string)
    requires "\\(" <= s && ParseExpr(s[2..]) == Done(e, ")" + next)
    ensures var before := if buffer != "" then Joined(left, hasLeft, StrLit(buffer)) else left;
            var all := Joined(before, hasLeft || buffer != "", Call("str", MoreAsts(e, NoAsts)));
            StringLoop(s, buffer, left, hasLeft) == StringLoop(next, "", all, true)
  {
    hide ParseExpr;
    assert s[0] == '\\';
    assert Skip(")" + next) == ")" + next && (")" + next)[1..] == next;
  }
}
