/** Printing a tree and parsing the text gives the tree back. */
module RoundTrip {
  import opened Parser
  import opened Reading

  /** `parse_expression_str_as_ast` on an isolated text: the expression and nothing but white space after it. */
  function ParseAll(s: string): Parsed {
    match ParseExpr(s) case Fail => Fail case Done(e, rest) => if Skip(rest) == "" then Done(e, "") else Fail
  }

  /** Printing and parsing back is the identity on the trees whose operators print as they are written,
      without `.` after a number and without `self`, `super` and struct literals; the text of any tree
      with one of these is not accepted. */
  lemma {:induction false} ParseInvertsDump(e: Ast)
    requires Loose(e)
    ensures ParseAll(Dump(e)) == if Good(e) then Done(e, "") else Fail
  {
    hide ParseExpr, Dump, Good, Loose;
    assert Dump(e) + "" == Dump(e);
    if Good(e) {
      ExprReads(e, "");
    } else {
      ExprFails(e, "");
      if ParseExpr(Dump(e)).Done? { StuckStays(ParseExpr(Dump(e))); }
    }
  }

  /** Two different trees never print alike. */
  lemma {:induction false} DumpIsInjective(d: Ast, e: Ast)
    requires Good(d) && Good(e) && Dump(d) == Dump(e)
    ensures d == e
  {
    hide Dump, Good, Loose, ParseAll;
    GoodIsLoose(d);
    GoodIsLoose(e);
    ParseInvertsDump(d);
    ParseInvertsDump(e);
  }

  /** The text of a plain member of a number literal is not accepted: the number swallows the dot. */
  lemma {:induction false} NumberMemberIsLost(n: nat, m: string)
    requires n < INT_LIMIT && IsName(m)
    ensures ParseAll(Dump(Member(IntLit(n), m, false))) == Fail
  {
    hide ParseAll, Dump;
    ParseInvertsDump(Member(IntLit(n), m, false));
  }

  /** The empty dictionary prints as the empty array, and is read as that. */
  lemma {:induction false} EmptyDictIsLost()
    ensures ParseAll(Dump(Dict(NoPairs))) == Done(Array(NoAsts), "")
  {
    assert Dump(Dict(NoPairs)) == Dump(Array(NoAsts));
    hide ParseAll, Dump;
    ParseInvertsDump(Array(NoAsts));
  }
}
