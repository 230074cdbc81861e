/** The text of module Source is read as the tree it was written for. */
module SourceText {
  import opened Parser
  import opened Reading
  import opened Source
  import opened SourceReading

  /** A literal with interpolations is the sum of its texts and of its expressions as strings. */
  lemma {:induction false} TemplateReads(t: Template, rest: string)
    requires TemplateTrees(t)
    ensures ParsePrimary("\"" + ShowTemplate(t) + rest) == Done(Sum(Parts(t)), rest)
  {
    hide ParsePrimary, StringLoop, Starts, ShowTemplate, Sum;
    assert "\"" + ShowTemplate(t) + rest == "\"" + (ShowTemplate(t) + rest);
    QuotePrimary(ShowTemplate(t) + rest);
    TemplateLoop(t, [], NilLit, false, rest);
    assert [] + Parts(t) == Parts(t);
  }

  /** Every tree is what the parser makes of its source text: all operators are read as they are written, products
      bind tighter than sums, sums than comparisons, comparisons than `&&`, `&&` than `||`, and everything but
      comparisons groups to the left. */
  lemma {:induction false} SourceReads(e: Ast)
    requires Tree(e)
    ensures ParseExpr(Show(e)) == Done(e, "")
  {
    hide Show, ParseOr;
    assert Show(e) + "" == Show(e);
    WholeReads(e, "");
  }

  lemma PutName(x: string)
    ensures forall k: nat :: k <= 7 ==> Put(Var(x), k) == x
  {
  }

  lemma PutBinary(op: char, l: Ast, r: Ast, k: nat)
    requires k <= Binding(op)
    ensures Put(Binary(op, l, r), k) == Put(l, LeftLevel(op)) + (Written(op) + Put(r, Binding(op) + 1))
  {
    hide Written;
    OwnPut(Binary(op, l, r), k);
  }

  /** Text without parentheses: three operands of one folded operator group to the left, and a tighter operator on
      the right is grouped first. */
  lemma {:induction false} Grouping(op: char, tight: char, x: string, y: string, z: string)
    requires IsOperator(op) && IsOperator(tight) && Folds(Binding(op)) && Binding(op) < Binding(tight)
    requires IsName(x) && IsName(y) && IsName(z) && !IsReserved(x) && !IsReserved(y) && !IsReserved(z)
    ensures ParseExpr(x + (Written(op) + (y + (Written(op) + z))))
            == Done(Binary(op, Binary(op, Var(x), Var(y)), Var(z)), "")
    ensures ParseExpr(x + (Written(op) + (y + (Written(tight) + z))))
            == Done(Binary(op, Var(x), Binary(tight, Var(y), Var(z))), "")
  {
    hide ParseOr, Written, IsName, Put, Show;
    var a, b, w, u := Binary(op, Var(x), Var(y)), Binary(tight, Var(y), Var(z)), Written(op), Written(tight);
    assert Tree(Var(x)) && Tree(Var(y)) && Tree(Var(z));
    assert Tree(a) && Tree(b);
    SourceReads(Binary(op, a, Var(z)));
    SourceReads(Binary(op, Var(x), b));
    PutName(x);
    PutName(y);
    PutName(z);
    assert LeftLevel(op) == Binding(op);
    PutBinary(op, Var(x), Var(y), Binding(op));
    PutBinary(tight, Var(y), Var(z), Binding(op) + 1);
    PutBinary(op, a, Var(z), 1);
    PutBinary(op, Var(x), b, 1);
    OwnPut(Binary(op, a, Var(z)), 1);
    OwnPut(Binary(op, Var(x), b), 1);
    assert (x + (w + y)) + (w + z) == x + (w + (y + (w + z)));
  }

  // ---------------------------------------------------------------- white space, comments, trailing commas

  predicate IsBlank(c: char) { c == ' ' || c == '\t' || c == '\n' || c == 11 as char || c == 12 as char || c == '\r' }

  /** What may stand between two tokens: white space, and comments to the end of their line. Nothing else is
      passed over. */
  lemma {:induction false} Gaps(c: char, text: string, s: string)
    ensures IsBlank(c) ==> Skip([c] + s) == Skip(s)
    ensures '\n' !in text ==> Skip("//" + (text + ("\n" + s))) == Skip(s)
    ensures '\n' !in text ==> Skip("//" + text) == ""
    ensures s == "" || (!IsBlank(s[0]) && !("//" <= s)) ==> Skip(s) == s
  {
    assert ([c] + s)[1..] == s;
    var line, last := "//" + (text + ("\n" + s)), "//" + text;
    assert line[2..] == text + ("\n" + s) && last[2..] == text;
    if '\n' !in text {
      Comment(text, s);
      assert ("\n" + s)[1..] == s;
    }
    if s != "" && s[0] == '/' && |s| >= 2 && s[1] == '/' { assert s[..2] == "//"; }
  }

  lemma {:induction false} Comment(text: string, s: string)
    requires '\n' !in text
    ensures DropLine(text + ("\n" + s)) == "\n" + s && DropLine(text) == ""
    decreases |text|
  {
    if text == "" {
      assert text + ("\n" + s) == "\n" + s;
    } else {
      assert (text + ("\n" + s))[1..] == text[1..] + ("\n" + s);
      Comment(text[1..], s);
    }
  }

  /** A comma may stand behind the last argument. */
  lemma {:induction false} ArgumentsMayTrail(es: Asts, rest: string)
    requires AllTrees(es) && es.MoreAsts?
    ensures ArgLoop(ShowAll(es) + (",)" + rest)) == SomeArgs(es, rest)
    decreases es
  {
    hide ParseExpr, Show, ShowAll, After, Bare, NextLevel, Tree;
    var close := ",)" + rest;
    var more := ShowAll(es.tail);
    var u := After(more, close);
    AllText(es, close);
    TrailIs(more, close);
    ShowBegins(es.head);
    WholeReads(es.head, u);
    MoreBegins(Show(es.head), Show(es.head), u);
    if es.tail.MoreAsts? {
      ArgumentsMayTrail(es.tail, rest);
    } else {
      NoArgsLeft(rest);
      assert close[1..] == ")" + rest;
    }
    hide Skip;
  }

  lemma NoArgsLeft(rest: string)
    ensures Skip(")" + rest) == ")" + rest && ArgLoop(")" + rest) == SomeArgs(NoAsts, rest)
    ensures Skip("]" + rest) == "]" + rest && ItemLoop("]" + rest, false) == SomeItems(NoAsts, NoPairs, false, rest)
  {
    assert (")" + rest)[1..] == rest && ("]" + rest)[1..] == rest;
  }

  lemma TrailIs(more: string, close: string)
    requires close != "" && close[0] == ',' && (more != "" ==> Begins(more + close))
    ensures var u := After(more, close);
            && Bare(u) && NextLevel(u) == 0 && Skip(u) == u && Peek(u) == ','
            && u[1..] == (if more == "" then close[1..] else more + close)
            && (more != "" ==> Skip(u[1..]) == u[1..])
  {
    if more != "" { SkipBegin(more + close); }
    CloseIs(if more == "" then close[1..] else more + close);
    assert close == [close[0]] + close[1..];
    BareIs(After(more, close));
  }

  /** The same of arrays. */
  lemma {:induction false} ItemsMayTrail(es: Asts, rest: string)
    requires AllTrees(es) && es.MoreAsts?
    ensures ItemLoop(ShowAll(es) + (",]" + rest), false) == SomeItems(es, NoPairs, false, rest)
    decreases es
  {
    hide ParseExpr, Show, ShowAll, After, Bare, NextLevel, Tree;
    var close := ",]" + rest;
    var more := ShowAll(es.tail);
    var u := After(more, close);
    AllText(es, close);
    TrailIs(more, close);
    ShowBegins(es.head);
    WholeReads(es.head, u);
    MoreBegins(Show(es.head), Show(es.head), u);
    if es.tail.MoreAsts? {
      ItemsMayTrail(es.tail, rest);
    } else {
      NoArgsLeft(rest);
      assert close[1..] == "]" + rest;
    }
    hide Skip;
  }
}
