/** The expression parser in its own form: a cursor that moves through the text, loops that fold operators
    to the left and collect list elements, and one method for each level of the grammar. Each method reads
    what the function of the same name in module Parser says. After an error nothing is said of the cursor. */
module Reader {
  import opened Syntax
  import opened Parser

  // ---------------------------------------------------------------- collected elements

  function AddAll(es: seq<Ast>, more: Asts): Asts
    decreases |es|
  {
    if es == [] then more else AddAll(es[..|es| - 1], MoreAsts(es[|es| - 1], more))
  }

  function AddPairs(ps: seq<(Ast, Ast)>, more: Pairs): Pairs
    decreases |ps|
  {
    if ps == [] then more else AddPairs(ps[..|ps| - 1], MorePairs(ps[|ps| - 1].0, ps[|ps| - 1].1, more))
  }

  function AddFields(fs: seq<(string, Ast)>, more: Fields): Fields
    decreases |fs|
  {
    if fs == [] then more else AddFields(fs[..|fs| - 1], MoreFields(fs[|fs| - 1].0, fs[|fs| - 1].1, more))
  }

  function WithArgs(es: seq<Ast>, r: ParsedArgs): ParsedArgs {
    match r case NoArgs => NoArgs case SomeArgs(more, rest) => SomeArgs(AddAll(es, more), rest)
  }

  function WithFields(fs: seq<(string, Ast)>, r: ParsedFields): ParsedFields {
    match r case NoneParsed => NoneParsed case SomeFields(more, rest) => SomeFields(AddFields(fs, more), rest)
  }

  function WithItems(es: seq<Ast>, ps: seq<(Ast, Ast)>, r: ParsedItems): ParsedItems {
    match r
    case NoItems => NoItems
    case SomeItems(items, pairs, dict, rest) => SomeItems(AddAll(es, items), AddPairs(ps, pairs), dict, rest)
  }

  lemma AddArg(es: seq<Ast>, e: Ast, more: Asts)
    ensures AddAll(es + [e], more) == AddAll(es, MoreAsts(e, more))
  {
    assert (es + [e])[..|es|] == es;
  }

  lemma AddPair(ps: seq<(Ast, Ast)>, k: Ast, v: Ast, more: Pairs)
    ensures AddPairs(ps + [(k, v)], more) == AddPairs(ps, MorePairs(k, v, more))
  {
    assert (ps + [(k, v)])[..|ps|] == ps;
  }

  lemma AddField(fs: seq<(string, Ast)>, x: string, v: Ast, more: Fields)
    ensures AddFields(fs + [(x, v)], more) == AddFields(fs, MoreFields(x, v, more))
  {
    assert (fs + [(x, v)])[..|fs|] == fs;
  }

  datatype Item = Elem(e: Ast) | Entry(key: Ast, value: Ast)

  lemma Nothing(r: ParsedItems)
    ensures WithItems([], [], r) == r
  {
  }

  lemma OneMore(es: seq<Ast>, ps: seq<(Ast, Ast)>, e: Ast, r: ParsedItems)
    ensures WithItems(es, ps, WithItems([e], [], r)) == WithItems(es + [e], ps, r)
  {
    if r.SomeItems? {
      AddArg(es, e, r.items);
      AddArg([], e, r.items);
    }
  }

  lemma OneMoreEntry(es: seq<Ast>, ps: seq<(Ast, Ast)>, k: Ast, v: Ast, r: ParsedItems)
    ensures WithItems(es, ps, WithItems([], [(k, v)], r)) == WithItems(es, ps + [(k, v)], r)
  {
    if r.SomeItems? {
      AddPair(ps, k, v, r.pairs);
      AddPair([], k, v, r.pairs);
    }
  }

  class Cursor {
    const text: string
    var at: nat

    constructor (text: string)
      ensures this.text == text && at == 0
    {
      this.text, at := text, 0;
    }

    function Rest(): (s: string)
      requires at <= |text|
      reads this
      ensures |s| == |text| - at
    {
      text[at..]
    }

    /** The outcome of a method and the cursor are what the grammar says. */
    ghost predicate Read(r: Option<Ast>, p: Parsed)
      reads this
    {
      match p
      case Fail => r.None?
      case Done(e, rest) => r == Some(e) && at <= |text| && Rest() == rest
    }

    method Advance(n: nat)
      requires at + n <= |text|
      modifies `at
      ensures at == old(at) + n && Rest() == old(Rest())[n..]
    {
      at := at + n;
      assert text[at..] == text[old(at)..][n..];
    }

    method SkipWhitespace()
      requires at <= |text|
      modifies `at
      ensures old(at) <= at <= |text| && Rest() == Skip(old(Rest()))
    {
      while at < |text|
        invariant old(at) <= at <= |text| && Skip(Rest()) == Skip(old(Rest()))
      {
        assert Rest()[0] == text[at] && (|Rest()| >= 2 ==> Rest()[1] == text[at + 1]);
        if IsSpace(text[at]) {
          Advance(1);
        } else if text[at] == '/' && at + 1 < |text| && text[at + 1] == '/' {
          SkipComment();
        } else {
          return;
        }
      }
    }

    method SkipComment()
      requires at + 2 <= |text|
      modifies `at
      ensures old(at) + 2 <= at <= |text| && Rest() == DropLine(old(Rest())[2..])
    {
      ghost var start := Rest();
      Advance(2);
      while at < |text| && text[at] != '\n'
        invariant old(at) + 2 <= at <= |text| && DropLine(Rest()) == DropLine(start[2..])
      {
        assert Rest()[0] == text[at];
        Advance(1);
      }
    }

    /** A name, whose first character has been checked. */
    method ReadName() returns (name: string)
      requires at < |text| && IsIdentStart(text[at])
      modifies `at
      ensures old(at) < at <= |text|
      ensures var s := old(Rest()); var n := 1 + IdentLength(s[1..]); name == s[..n] && Rest() == s[n..]
    {
      ghost var s := Rest();
      var start := at;
      Advance(1);
      while at < |text| && IsIdentChar(text[at])
        invariant start < at <= |text|
        invariant (at - start) + IdentLength(Rest()) == 1 + IdentLength(s[1..])
      {
        assert Rest()[0] == text[at];
        Advance(1);
      }
      assert at < |text| ==> Rest()[0] == text[at];
      name := text[start..at];
      assert s[..at - start] == name && s[at - start..] == Rest();
    }

    function Look(): char
      requires at <= |text|
      reads this
    {
      if at < |text| then text[at] else '\0'
    }

    predicate Next(word: string)
      requires at <= |text|
      reads this
    {
      at + |word| <= |text| && text[at..at + |word|] == word
    }

    lemma LookIsPeek()
      requires at <= |text|
      ensures Look() == Peek(Rest())
    {
    }

    lemma NextIsPrefix(word: string)
      requires at <= |text|
      ensures Next(word) <==> word <= Rest()
    {
      if at + |word| <= |text| { assert text[at..at + |word|] == Rest()[..|word|]; }
    }

    // ------------------------------------------------------------ operators

    method ParseExpression() returns (r: Option<Ast>)
      requires at <= |text|
      modifies `at
      ensures Read(r, ParseExpr(old(Rest())))
      decreases |text| - at, 10
    {
      hide ParseOr;
      r := ParseLogicalOr();
    }

    method ParseLogicalOr() returns (r: Option<Ast>)
      requires at <= |text|
      modifies `at
      ensures Read(r, ParseOr(old(Rest())))
      decreases |text| - at, 9
    {
      hide ParseAnd, Skip;
      r := ParseLogicalAnd();
      if r.None? { return; }
      SkipWhitespace();
      NextIsPrefix("||");
      while Next("||")
        invariant r.Some? && old(at) < at <= |text| && (Next("||") <==> "||" <= Rest())
        invariant OrLoop(r.value, Rest()) == ParseOr(old(Rest()))
        decreases |text| - at
      {
        Advance(2);
        var right := ParseLogicalAnd();
        if right.None? { return None; }
        r := Some(Binary('|', r.value, right.value));
        SkipWhitespace();
        NextIsPrefix("||");
      }
    }

    method ParseLogicalAnd() returns (r: Option<Ast>)
      requires at <= |text|
      modifies `at
      ensures Read(r, ParseAnd(old(Rest())))
      decreases |text| - at, 8
    {
      hide Parser.ParseComparison, Skip;
      r := ParseComparison();
      if r.None? { return; }
      SkipWhitespace();
      NextIsPrefix("&&");
      while Next("&&")
        invariant r.Some? && old(at) < at <= |text| && (Next("&&") <==> "&&" <= Rest())
        invariant AndLoop(r.value, Rest()) == ParseAnd(old(Rest()))
        decreases |text| - at
      {
        Advance(2);
        var right := ParseComparison();
        if right.None? { return None; }
        r := Some(Binary('&', r.value, right.value));
        SkipWhitespace();
        NextIsPrefix("&&");
      }
    }

    method ParseComparison() returns (r: Option<Ast>)
      requires at <= |text|
      modifies `at
      ensures Read(r, Parser.ParseComparison(old(Rest())))
      decreases |text| - at, 7
    {
      hide Parser.ParseTerm, Skip;
      r := ParseTerm();
      if r.None? { return; }
      SkipWhitespace();
      NextIsPrefix("==");
      NextIsPrefix("!=");
      NextIsPrefix("<=");
      NextIsPrefix(">=");
      LookIsPeek();
      var c := Look();
      var two := Next("==") || Next("!=") || Next("<=") || Next(">=");
      if !two && c != '<' && c != '>' { return; }
      var op := if two && c == '<' then 'l' else if two && c == '>' then 'g' else c;
      Advance(if two then 2 else 1);
      var right := ParseTerm();
      if right.None? { return None; }
      return Some(Binary(op, r.value, right.value));
    }

    method ParseTerm() returns (r: Option<Ast>)
      requires at <= |text|
      modifies `at
      ensures Read(r, Parser.ParseTerm(old(Rest())))
      decreases |text| - at, 6
    {
      hide Parser.ParseFactor, Skip;
      r := ParseFactor();
      if r.None? { return; }
      SkipWhitespace();
      while Look() == '+' || Look() == '-'
        invariant r.Some? && old(at) < at <= |text|
        invariant TermLoop(r.value, Rest()) == Parser.ParseTerm(old(Rest()))
        decreases |text| - at
      {
        var op := Look();
        Advance(1);
        var right := ParseFactor();
        if right.None? { return None; }
        r := Some(Binary(op, r.value, right.value));
        SkipWhitespace();
      }
    }

    method ParseFactor() returns (r: Option<Ast>)
      requires at <= |text|
      modifies `at
      ensures Read(r, Parser.ParseFactor(old(Rest())))
      decreases |text| - at, 5
    {
      hide Parser.ParseUnary, Skip;
      r := ParseUnary();
      if r.None? { return; }
      SkipWhitespace();
      while Look() == '*' || Look() == '/' || Look() == '%'
        invariant r.Some? && old(at) < at <= |text|
        invariant FactorLoop(r.value, Rest()) == Parser.ParseFactor(old(Rest()))
        decreases |text| - at
      {
        var op := Look();
        Advance(1);
        var right := ParseUnary();
        if right.None? { return None; }
        r := Some(Binary(op, r.value, right.value));
        SkipWhitespace();
      }
    }

    method ParseUnary() returns (r: Option<Ast>)
      requires at <= |text|
      modifies `at
      ensures Read(r, Parser.ParseUnary(old(Rest())))
      decreases |text| - at, 4
    {
      hide Parser.ParsePrimary, PostfixLoop, Skip;
      SkipWhitespace();
      if Look() == '!' || Look() == '-' {
        var op := Look();
        Advance(1);
        var operand := ParseUnary();
        if operand.None? { return None; }
        return Some(Unary(op, operand.value));
      }
      r := ParsePrimary();
      if r.Some? { r := ParsePostfix(r.value); }
    }

    // ------------------------------------------------------------ suffixes

    method ParsePostfix(start: Ast) returns (r: Option<Ast>)
      requires at <= |text|
      modifies `at
      ensures Read(r, PostfixLoop(start, old(Rest())))
      decreases |text| - at, 3
    {
      hide ParseExpr, Skip, MemberSuffix;
      var base := start;
      while true
        invariant old(at) <= at <= |text| && PostfixLoop(base, Rest()) == PostfixLoop(start, old(Rest()))
        decreases |text| - at
      {
        SkipWhitespace();
        NextIsPrefix("?.");
        if Look() == '[' {
          Advance(1);
          var idx := ParseExpression();
          if idx.None? { return None; }
          SkipWhitespace();
          if Look() != ']' { return None; }
          Advance(1);
          base := Index(base, idx.value);
        } else {
          var chained := Next("?.");
          if !chained && Look() != '.' { return Some(base); }
          Advance(if chained then 2 else 1);
          var member := ParseMember(base, chained);
          if member.None? { return None; }
          base := member.value;
        }
      }
    }

    /** A member access or a method call, after the dot. */
    method ParseMember(base: Ast, chained: bool) returns (r: Option<Ast>)
      requires at <= |text|
      modifies `at
      ensures match r
              case None => MemberSuffix(base, Skip(old(Rest())), chained) == Fail
              case Some(e) =>
                old(at) < at <= |text| && MemberSuffix(base, Skip(old(Rest())), chained) == PostfixLoop(e, Rest())
      decreases |text| - at, 13
    {
      hide Parser.ParseArguments, PostfixLoop, Skip;
      SkipWhitespace();
      LookIsPeek();
      if !IsIdentStart(Look()) { return None; }
      var name := ReadName();
      SkipWhitespace();
      if Look() == '(' {
        Advance(1);
        var args := ParseArguments();
        if args.None? { return None; }
        return Some(Method(base, name, args.value, chained));
      }
      return Some(Member(base, name, chained));
    }

    ghost predicate ReadArgs(r: Option<Asts>, p: ParsedArgs)
      reads this
    {
      match p
      case NoArgs => r.None?
      case SomeArgs(es, rest) => r == Some(es) && at <= |text| && Rest() == rest
    }

    method ParseArguments() returns (r: Option<Asts>)
      requires at <= |text|
      modifies `at
      ensures ReadArgs(r, Parser.ParseArguments(old(Rest())))
      decreases |text| - at, 12
    {
      hide ParseExpr, Skip;
      SkipWhitespace();
      var args: seq<Ast> := [];
      ghost var start := Rest();
      while at < |text| && Look() != ')'
        invariant old(at) <= at <= |text| && WithArgs(args, ArgLoop(Rest())) == ArgLoop(start)
        decreases |text| - at
      {
        var arg := ParseExpression();
        if arg.None? { return None; }
        SkipWhitespace();
        if Look() != ',' {
          if Look() != ')' { return None; }
          AddArg(args, arg.value, NoAsts);
          Advance(1);
          return Some(AddAll(args + [arg.value], NoAsts));
        }
        Advance(1);
        SkipWhitespace();
        forall more { AddArg(args, arg.value, more); }
        args := args + [arg.value];
      }
      if at == |text| { return None; }
      Advance(1);
      return Some(AddAll(args, NoAsts));
    }

    // ------------------------------------------------------------ primaries

    /** The keyword, not followed by another name character. */
    method AcceptWord(word: string) returns (ok: bool)
      requires at <= |text|
      modifies `at
      ensures ok <==> AtKeyword(old(Rest()), word)
      ensures if ok then old(at) + |word| == at <= |text| && Rest() == old(Rest())[|word|..] else at == old(at)
    {
      NextIsPrefix(word);
      ok := Next(word);
      if ok {
        Advance(|word|);
        if at < |text| && IsIdentChar(text[at]) {
          assert Rest()[0] == text[at];
          at := at - |word|;
          ok := false;
        }
      }
    }

    method ParsePrimary() returns (r: Option<Ast>)
      requires at <= |text|
      modifies `at
      ensures Read(r, Parser.ParsePrimary(old(Rest())))
      decreases |text| - at, 3
    {
      hide ParseExpr, Skip, AtKeyword, StringLoop, Parser.ParseNumber, ParseBracket, ParseIdent;
      SkipWhitespace();
      var ok := AcceptWord("nil");
      if ok { return Some(NilLit); }
      ok := AcceptWord("true");
      if ok { return Some(BoolLit(true)); }
      ok := AcceptWord("false");
      if ok { return Some(BoolLit(false)); }
      if at == |text| { return None; }
      match text[at] {
        case '(' => r := ParseGroup();
        case '"' => r := ParseStringLiteral();
        case '[' => r := ParseArrayOrDict();
        case c =>
          if IsDigit(c) || (c == '.' && at + 1 < |text| && IsDigit(text[at + 1])) {
            r := ParseNumber();
          } else if IsIdentStart(c) {
            r := ParseIdentifier();
          } else {
            r := None;
          }
      }
    }

    method ParseGroup() returns (r: Option<Ast>)
      requires at < |text| && text[at] == '('
      modifies `at
      ensures Read(r, match ParseExpr(old(Rest())[1..])
                      case Fail => Fail
                      case Done(inner, rest) => if Peek(Skip(rest)) == ')' then Parsed.Done(inner, Skip(rest)[1..])
                          else Fail)
      decreases |text| - at, 2
    {
      hide ParseExpr, Skip;
      Advance(1);
      r := ParseExpression();
      if r.None? { return; }
      SkipWhitespace();
      if Look() != ')' { return None; }
      Advance(1);
    }

    method ParseNumber() returns (r: Option<Ast>)
      requires at < |text|
      modifies `at
      ensures Read(r, Parser.ParseNumber(old(Rest())))
    {
      hide Value;
      ghost var s := Rest();
      var start, dotted := at, false;
      while at < |text| && (IsDigit(text[at]) || text[at] == '.') && !(text[at] == '.' && dotted)
        invariant start <= at <= |text| && (dotted <==> '.' in text[start..at])
        invariant (at - start) + NumberLength(Rest(), dotted) == NumberLength(s, false)
      {
        assert Rest()[0] == text[at];
        assert text[start..at + 1] == text[start..at] + [text[at]];
        dotted := dotted || text[at] == '.';
        Advance(1);
      }
      assert at < |text| ==> Rest()[0] == text[at];
      var digits := text[start..at];
      assert s[..at - start] == digits && s[at - start..] == Rest();
      if |digits| == 0 || |digits| >= MAX_TOKEN { return None; }
      return Some(if dotted then DoubleLit(digits) else IntLit(Value(digits)));
    }

    /** A string with its interpolations. */
    method ParseStringLiteral() returns (r: Option<Ast>)
      requires at < |text| && text[at] == '"'
      modifies `at
      ensures Read(r, StringLoop(old(Rest())[1..], "", NilLit, false))
      decreases |text| - at, 2
    {
      hide ParseExpr, Skip;
      Advance(1);
      ghost var start := Rest();
      var buffer, left, hasLeft := "", NilLit, false;
      while at < |text| && text[at] != '"'
        invariant old(at) < at <= |text|
        invariant StringLoop(Rest(), buffer, left, hasLeft) == StringLoop(start, "", NilLit, false)
        decreases |text| - at
      {
        assert Rest()[0] == text[at] && (|Rest()| >= 2 ==> Rest()[1] == text[at + 1]);
        NextIsPrefix("\\(");
        if Next("\\(") {
          if buffer != "" { left, hasLeft, buffer := Joined(left, hasLeft, StrLit(buffer)), true, ""; }
          Advance(2);
          var inner := ParseExpression();
          if inner.None? { return None; }
          SkipWhitespace();
          if Look() != ')' { return None; }
          Advance(1);
          left, hasLeft := Joined(left, hasLeft, Ast.Call("str", MoreAsts(inner.value, NoAsts))), true;
        } else if text[at] == '\\' && at + 1 < |text| {
          buffer := buffer + Escaped(text[at + 1]);
          Advance(2);
        } else {
          buffer := buffer + [text[at]];
          Advance(1);
        }
      }
      if at == |text| { return None; }
      assert Rest()[0] == text[at];
      Advance(1);
      return Some(if buffer != "" || !hasLeft then Joined(left, hasLeft, StrLit(buffer)) else left);
    }

    /** A name, a call or a struct literal. */
    method ParseIdentifier() returns (r: Option<Ast>)
      requires at < |text| && IsIdentStart(text[at])
      modifies `at
      ensures Read(r, ParseIdent(old(Rest())))
      decreases |text| - at, 2
    {
      hide Skip, FieldLoop, Parser.ParseArguments;
      LookIsPeek();
      var name := ReadName();
      if name == "self" { return Some(Self); }
      if name == "super" { return Some(Super); }
      SkipWhitespace();
      if Look() == '{' {
        Advance(1);
        SkipWhitespace();
        var fs := ParseFields();
        if fs.None? { return None; }
        return Some(Struct(name, fs.value));
      }
      if Look() == '(' {
        Advance(1);
        var args := ParseArguments();
        if args.None? { return None; }
        return Some(Ast.Call(name, args.value));
      }
      return Some(Var(name));
    }

    ghost predicate ReadFields(r: Option<Fields>, p: ParsedFields)
      reads this
    {
      match p
      case NoneParsed => r.None?
      case SomeFields(fs, rest) => r == Some(fs) && at <= |text| && Rest() == rest
    }

    /** A field, its value and the white space after it. */
    method ParseField() returns (f: Option<(string, Ast)>)
      requires at < |text| && text[at] != '}'
      modifies `at
      ensures match f
              case None => FieldLoop(old(Rest())) == NoneParsed
              case Some((name, v)) => old(at) < at <= |text| && FieldLoop(old(Rest())) == FieldEnd(name, v, Rest())
      decreases |text| - at, 11
    {
      hide ParseExpr, Skip, FieldEnd;
      if !IsIdentStart(text[at]) { return None; }
      var name := ReadName();
      SkipWhitespace();
      if Look() != ':' { return None; }
      Advance(1);
      var v := ParseExpression();
      if v.None? { return None; }
      SkipWhitespace();
      return Some((name, v.value));
    }

    method ParseFields() returns (r: Option<Fields>)
      requires at <= |text|
      modifies `at
      ensures ReadFields(r, FieldLoop(old(Rest())))
      decreases |text| - at, 12
    {
      hide Skip;
      var fields: seq<(string, Ast)> := [];
      while at < |text| && Look() != '}'
        invariant old(at) <= at <= |text| && WithFields(fields, FieldLoop(Rest())) == FieldLoop(old(Rest()))
        decreases |text| - at
      {
        hide FieldLoop, AddFields;
        var f := ParseField();
        if f.None? { return None; }
        forall more { AddField(fields, f.value.0, f.value.1, more); }
        fields := fields + [f.value];
        if Look() != ',' {
          if Look() != '}' { return None; }
          Advance(1);
          return Some(AddFields(fields, NoFields));
        }
        Advance(1);
        SkipWhitespace();
      }
      if at == |text| { return None; }
      Advance(1);
      return Some(AddFields(fields, NoFields));
    }

    /** An array literal or a dictionary literal. */
    method ParseArrayOrDict() returns (r: Option<Ast>)
      requires at < |text| && text[at] == '['
      modifies `at
      ensures Read(r, ParseBracket(old(Rest())[1..]))
      decreases |text| - at, 2
    {
      hide Skip, ItemLoop;
      Advance(1);
      SkipWhitespace();
      if Look() == ':' {
        Advance(1);
        SkipWhitespace();
        if Look() != ']' { return None; }
        Advance(1);
        return Some(Dict(NoPairs));
      }
      r := ParseItems();
    }

    /** An element or an entry, and the white space after it. */
    method ParseItem(dict: bool) returns (r: Option<Item>)
      requires at < |text| && text[at] != ']'
      modifies `at
      ensures match r
              case None => ItemLoop(old(Rest()), dict) == NoItems
              case Some(Elem(e)) =>
                old(at) < at <= |text| && !dict && ItemLoop(old(Rest()), dict)
                    == WithItems([e], [], ItemEnd(Rest(), false))
              case Some(Entry(k, v)) =>
                old(at) < at <= |text| && ItemLoop(old(Rest()), dict) == WithItems([], [(k, v)], ItemEnd(Rest(), true))
      decreases |text| - at, 11
    {
      hide ParseExpr, Skip, ItemEnd;
      var first := ParseExpression();
      if first.None? { return None; }
      SkipWhitespace();
      if dict || Look() == ':' {
        if Look() != ':' { return None; }
        Advance(1);
        var v := ParseExpression();
        if v.None? { return None; }
        SkipWhitespace();
        forall more { AddPair([], first.value, v.value, more); }
        return Some(Entry(first.value, v.value));
      }
      forall more { AddArg([], first.value, more); }
      return Some(Elem(first.value));
    }

    /** The elements; the first colon decides that they are entries of a dictionary. */
    method ParseItems() returns (r: Option<Ast>)
      requires at <= |text|
      modifies `at
      ensures Read(r, match ItemLoop(old(Rest()), false)
                      case NoItems => Fail
                      case SomeItems(items, pairs, dict, rest) => Parsed.Done(if dict then Dict(pairs)
                                                                              else Array(items), rest))
      decreases |text| - at, 12
    {
      hide Skip, AddAll, AddPairs;
      var elems: seq<Ast>, entries: seq<(Ast, Ast)>, isDict := [], [], false;
      Nothing(ItemLoop(Rest(), false));
      while at < |text| && Look() != ']'
        invariant old(at) <= at <= |text|
        invariant WithItems(elems, entries, ItemLoop(Rest(), isDict)) == ItemLoop(old(Rest()), false)
        decreases |text| - at
      {
        hide ItemLoop;
        var item := ParseItem(isDict);
        if item.None? { return None; }
        match item.value {
          case Elem(e) =>
            OneMore(elems, entries, e, ItemEnd(Rest(), false));
            elems := elems + [e];
          case Entry(k, v) =>
            OneMoreEntry(elems, entries, k, v, ItemEnd(Rest(), true));
            entries, isDict := entries + [(k, v)], true;
        }
        if Look() != ',' {
          if Look() != ']' { return None; }
          Advance(1);
          return Some(if isDict then Dict(AddPairs(entries, NoPairs)) else Array(AddAll(elems, NoAsts)));
        }
        Advance(1);
        SkipWhitespace();
      }
      if at == |text| { return None; }
      Advance(1);
      return Some(if isDict then Dict(AddPairs(entries, NoPairs)) else Array(AddAll(elems, NoAsts)));
    }
  }
}
