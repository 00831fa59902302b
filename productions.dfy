/** What text each composite production accepts and what node it builds,
    for every whitespace layout: an application, a braced expression, a
    conditional and a function literal. For each, the text is described by
    a predicate over the positions where its parts end. An `...Accepts`
    lemma shows that such text is parsed to the expected node, and a
    `...Decomposes` lemma shows that every successful parse is of that
    form. Together they characterise the production exactly. */
module Productions {
  import opened Scanners
  import opened Parser
  import opened ParserFacts
  import opened Precedence

  /** Positions `i` up to `j` of `s` are whitespace and position `j` is
      not: the run `multispace0` skips at `i`. */
  predicate Gap(s: string, i: nat, j: nat) {
    i <= j < |s| && (forall m :: i <= m < j ==> In(Space, s[m])) && !In(Space, s[j])
  }

  /** The whitespace scanners stop at the end of a gap. */
  lemma GapEnd(s: string, i: nat, j: nat)
    requires Gap(s, i, j)
    ensures Multispace0(s, i).pos == j
    ensures i < j ==> Multispace1(s, i) == Some(Parsed(j, ()))
  {
    SpanEndUnique(Space, s, i, j);
  }

  /** What `multispace0` skips, when something follows it, is a gap. */
  lemma SkippedGap(s: string, i: nat)
    requires i <= |s| && Multispace0(s, i).pos < |s|
    ensures Gap(s, i, Multispace0(s, i).pos)
  {
    SpanEndRun(Space, s, i);
  }

  /** `ParseExpr` skips its own leading whitespace, so running it after
      `multispace0` gives the same result as running it directly. */
  lemma AfterWhitespace(s: string, i: nat)
    requires i <= |s|
    ensures ParseExpr(s, Multispace0(s, i).pos) == ParseExpr(s, i)
  {
    SpanEndRun(Space, s, i);
    SkipWhitespace(s, i, Multispace0(s, i).pos);
  }

  /** `(` at `k`, an expression `f` ending at `p`, at least one whitespace
      character, an expression `a` ending at `q`, then optional whitespace
      and `)` at `r`. Whitespace before `f` and `a` is skipped by
      `ParseExpr` itself. */
  predicate AppText(s: string, k: nat, f: Expr, p: nat, a: Expr, q: nat, r: nat) {
    k < |s| && s[k] == '(' && ParseExpr(s, k + 1) == Some(Parsed(p, f))
    && p < |s| && In(Space, s[p]) && ParseExpr(s, p) == Some(Parsed(q, a))
    && Gap(s, q, r) && s[r] == ')'
  }

  /** The application parser, step by step: each scanner or parser
      result is given at the position where the previous one stopped. */
  lemma AppSteps(s: string, k: nat, i1: nat, f: Expr, p: nat, i2: nat, a: Expr, q: nat, r: nat)
    requires k < |s| && Char('(', s, k) == Some(Parsed(k + 1, '('))
    requires Multispace0(s, k + 1).pos == i1 && ParseExpr(s, i1) == Some(Parsed(p, f))
    requires Multispace1(s, p) == Some(Parsed(i2, ())) && ParseExpr(s, i2) == Some(Parsed(q, a))
    requires Multispace0(s, q).pos == r && Char(')', s, r) == Some(Parsed(r + 1, ')'))
    ensures ParseApp(s, k) == Some(Parsed(r + 1, App(f, a)))
  {
  }

  /** Such text is read by the application parser as `App(f, a)`, ending
      after the `)`. */
  lemma AppAccepts(s: string, k: nat, f: Expr, p: nat, a: Expr, q: nat, r: nat)
    requires AppText(s, k, f, p, a, q, r)
    ensures ParseApp(s, k) == Some(Parsed(r + 1, App(f, a)))
  {
    GapEnd(s, q, r);
    assert Multispace1(s, p) == Some(Parsed(Multispace0(s, p).pos, ()));
    AfterWhitespace(s, k + 1);
    AfterWhitespace(s, p);
    AppSteps(s, k, Multispace0(s, k + 1).pos, f, p, Multispace0(s, p).pos, a, q, r);
  }

  /** The converse of `AppSteps`: a successful application gives each
      scanner or parser result at the position where the previous one
      stopped. */
  lemma AppUnfolds(s: string, k: nat) returns (i1: nat, f: Expr, p: nat, i2: nat, a: Expr, q: nat, r: nat)
    requires k <= |s| && ParseApp(s, k).Some?
    ensures k < |s| && Char('(', s, k) == Some(Parsed(k + 1, '('))
    ensures Multispace0(s, k + 1).pos == i1 && i1 <= |s| && ParseExpr(s, i1) == Some(Parsed(p, f))
    ensures p <= |s| && Multispace1(s, p) == Some(Parsed(i2, ())) && i2 <= |s| && ParseExpr(s, i2) == Some(Parsed(q, a))
    ensures q <= |s| && Multispace0(s, q).pos == r && Char(')', s, r) == Some(Parsed(r + 1, ')'))
    ensures ParseApp(s, k) == Some(Parsed(r + 1, App(f, a)))
  {
    i1 := Multispace0(s, k + 1).pos;
    var e1 := ParseExpr(s, i1).value;
    f, p := e1.value, e1.pos;
    i2 := Multispace1(s, p).value.pos;
    var e2 := ParseExpr(s, i2).value;
    a, q := e2.value, e2.pos;
    r := Multispace0(s, q).pos;
  }

  /** Every successful application is such text. */
  lemma AppDecomposes(s: string, k: nat) returns (f: Expr, p: nat, a: Expr, q: nat, r: nat)
    requires k <= |s| && ParseApp(s, k).Some?
    ensures AppText(s, k, f, p, a, q, r) && ParseApp(s, k) == Some(Parsed(r + 1, App(f, a)))
  {
    var i1, i2;
    i1, f, p, i2, a, q, r := AppUnfolds(s, k);
    SkippedGap(s, q);
    AfterWhitespace(s, k + 1);
    AfterWhitespace(s, p);
  }

  /** `{` at `k`, an expression `e` ending at `p`, then optional
      whitespace and `}` at `r`. */
  predicate BracedText(s: string, k: nat, e: Expr, p: nat, r: nat) {
    k < |s| && s[k] == '{' && ParseExpr(s, k + 1) == Some(Parsed(p, e))
    && Gap(s, p, r) && s[r] == '}'
  }

  /** Such text is read by the braced parser as `e`, ending after the
      `}`. */
  lemma BracedAccepts(s: string, k: nat, e: Expr, p: nat, r: nat)
    requires BracedText(s, k, e, p, r)
    ensures ParseBraced(s, k) == Some(Parsed(r + 1, e))
  {
    AfterWhitespace(s, k + 1);
    GapEnd(s, p, r);
  }

  /** Every successful braced expression is such text. */
  lemma BracedDecomposes(s: string, k: nat) returns (e: Expr, p: nat, r: nat)
    requires k <= |s| && ParseBraced(s, k).Some?
    ensures BracedText(s, k, e, p, r) && ParseBraced(s, k) == Some(Parsed(r + 1, e))
  {
    var e1 := ParseExpr(s, Multispace0(s, k + 1).pos).value;
    e, p, r := e1.value, e1.pos, Multispace0(s, e1.pos).pos;
    AfterWhitespace(s, k + 1);
    SkippedGap(s, p);
  }

  /** `if` at `k`, at least one whitespace character, a condition `c`
      ending at `p`, optional whitespace up to `i`, a braced branch `t`
      ending at `q`, optional whitespace up to `else` at `j`, optional
      whitespace up to `m` and a braced alternative `e` ending at `n`. */
  predicate IfText(s: string, k: nat, c: Expr, p: nat, i: nat, t: Expr, q: nat, j: nat, m: nat, e: Expr, n: nat) {
    OccursAt("if", s, k) && k + 2 < |s| && In(Space, s[k + 2])
    && ParseExpr(s, k + 2) == Some(Parsed(p, c))
    && Gap(s, p, i) && ParseBraced(s, i) == Some(Parsed(q, t))
    && Gap(s, q, j) && OccursAt("else", s, j)
    && Gap(s, j + 4, m) && ParseBraced(s, m) == Some(Parsed(n, e))
  }

  /** The conditional parser after its condition `c`, which ended at
      `p`: the braced branch, then `IfElse`. */
  function IfRest(s: string, p: nat, c: Expr): Option<Parsed<Expr>>
    requires p <= |s|
  {
    match ParseBraced(s, Multispace0(s, p).pos)
    case None => None
    case Some(thn) => IfElse(s, thn.pos, c, thn.value)
  }

  /** The conditional parser after its braced branch `t`, which ended at
      `q`: `else` and the braced alternative. */
  function IfElse(s: string, q: nat, c: Expr, t: Expr): Option<Parsed<Expr>>
    requires q <= |s|
  {
    match Tag("else", s, Multispace0(s, q).pos)
    case None => None
    case Some(kwElse) =>
      match ParseBraced(s, Multispace0(s, kwElse.pos).pos)
      case None => None
      case Some(els) => Some(Parsed(els.pos, If(IfNode(c, t, els.value))))
  }

  /** Once `if`, whitespace and a condition have been read, the
      conditional parser continues as `IfRest`. */
  lemma IfHeadSteps(s: string, k: nat, i1: nat, c: Expr, p: nat)
    requires k + 2 <= |s| && Tag("if", s, k) == Some(Parsed(k + 2, "if"))
    requires Multispace1(s, k + 2) == Some(Parsed(i1, ())) && ParseExpr(s, i1) == Some(Parsed(p, c))
    ensures p <= |s| && ParseIf(s, k) == IfRest(s, p, c)
  {
  }

  /** A successful conditional has read `if`, whitespace and a condition,
      and continues as `IfRest`. */
  lemma IfHead(s: string, k: nat) returns (i1: nat, c: Expr, p: nat)
    requires k <= |s| && ParseIf(s, k).Some?
    ensures k + 2 <= |s| && Tag("if", s, k) == Some(Parsed(k + 2, "if"))
    ensures Multispace1(s, k + 2) == Some(Parsed(i1, ())) && i1 <= |s| && ParseExpr(s, i1) == Some(Parsed(p, c))
    ensures p <= |s| && ParseIf(s, k) == IfRest(s, p, c)
  {
    var sep := Multispace1(s, Tag("if", s, k).value.pos).value;
    i1 := sep.pos;
    var cond := ParseExpr(s, i1).value;
    c, p := cond.value, cond.pos;
  }

  /** The conditional parser, step by step: each scanner or parser
      result is given at the position where the previous one stopped. */
  lemma IfSteps(s: string, k: nat, i1: nat, c: Expr, p: nat, i: nat, t: Expr, q: nat, j: nat, m: nat, e: Expr, n: nat)
    requires k + 2 <= |s| && Tag("if", s, k) == Some(Parsed(k + 2, "if"))
    requires Multispace1(s, k + 2) == Some(Parsed(i1, ())) && ParseExpr(s, i1) == Some(Parsed(p, c))
    requires Multispace0(s, p).pos == i && ParseBraced(s, i) == Some(Parsed(q, t))
    requires Multispace0(s, q).pos == j && Tag("else", s, j) == Some(Parsed(j + 4, "else"))
    requires Multispace0(s, j + 4).pos == m && ParseBraced(s, m) == Some(Parsed(n, e))
    ensures ParseIf(s, k) == Some(Parsed(n, If(IfNode(c, t, e))))
  {
    IfHeadSteps(s, k, i1, c, p);
    assert IfRest(s, p, c) == IfElse(s, q, c, t);
    IfElseSteps(s, q, c, t, j, m, e, n);
  }

  /** `else` and a braced alternative after the branch. */
  lemma IfElseSteps(s: string, q: nat, c: Expr, t: Expr, j: nat, m: nat, e: Expr, n: nat)
    requires q <= |s| && Multispace0(s, q).pos == j && Tag("else", s, j) == Some(Parsed(j + 4, "else"))
    requires Multispace0(s, j + 4).pos == m && ParseBraced(s, m) == Some(Parsed(n, e))
    ensures IfElse(s, q, c, t) == Some(Parsed(n, If(IfNode(c, t, e))))
  {
  }

  /** Where the scanners of the conditional parser stop on such text. */
  lemma IfLayout(s: string, k: nat, c: Expr, p: nat, i: nat, t: Expr, q: nat, j: nat, m: nat, e: Expr, n: nat)
    requires IfText(s, k, c, p, i, t, q, j, m, e, n)
    ensures Tag("if", s, k) == Some(Parsed(k + 2, "if"))
    ensures Tag("else", s, j) == Some(Parsed(j + 4, "else"))
    ensures Multispace1(s, k + 2) == Some(Parsed(Multispace0(s, k + 2).pos, ()))
    ensures Multispace0(s, p).pos == i && Multispace0(s, q).pos == j && Multispace0(s, j + 4).pos == m
  {
    GapEnd(s, p, i);
    GapEnd(s, q, j);
    GapEnd(s, j + 4, m);
  }

  /** Such text is read by the conditional parser as `If(c, t, e)`. */
  lemma IfAccepts(s: string, k: nat, c: Expr, p: nat, i: nat, t: Expr, q: nat, j: nat, m: nat, e: Expr, n: nat)
    requires IfText(s, k, c, p, i, t, q, j, m, e, n)
    ensures ParseIf(s, k) == Some(Parsed(n, If(IfNode(c, t, e))))
  {
    IfLayout(s, k, c, p, i, t, q, j, m, e, n);
    AfterWhitespace(s, k + 2);
    IfSteps(s, k, Multispace0(s, k + 2).pos, c, p, i, t, q, j, m, e, n);
  }

  /** The converse of `IfSteps`: a successful conditional gives each
      scanner or parser result at the position where the previous one
      stopped. */
  lemma IfUnfolds(s: string, k: nat) returns (i1: nat, c: Expr, p: nat, i: nat, t: Expr, q: nat, j: nat, m: nat, e: Expr, n: nat)
    requires k <= |s| && ParseIf(s, k).Some?
    ensures k + 2 <= |s| && Tag("if", s, k) == Some(Parsed(k + 2, "if"))
    ensures Multispace1(s, k + 2) == Some(Parsed(i1, ())) && i1 <= |s| && ParseExpr(s, i1) == Some(Parsed(p, c))
    ensures Multispace0(s, p).pos == i && i <= |s| && ParseBraced(s, i) == Some(Parsed(q, t))
    ensures Multispace0(s, q).pos == j && j <= |s| && Tag("else", s, j) == Some(Parsed(j + 4, "else"))
    ensures Multispace0(s, j + 4).pos == m && m <= |s| && ParseBraced(s, m) == Some(Parsed(n, e))
    ensures ParseIf(s, k) == Some(Parsed(n, If(IfNode(c, t, e))))
  {
    i1, c, p := IfHead(s, k);
    i := Multispace0(s, p).pos;
    var thn := ParseBraced(s, i).value;
    t, q := thn.value, thn.pos;
    assert IfRest(s, p, c) == IfElse(s, q, c, t);
    j, m, e, n := IfElseParts(s, q, c, t);
  }

  /** A successful `IfElse` has read `else` and a braced alternative. */
  lemma IfElseParts(s: string, q: nat, c: Expr, t: Expr) returns (j: nat, m: nat, e: Expr, n: nat)
    requires q <= |s| && IfElse(s, q, c, t).Some?
    ensures Multispace0(s, q).pos == j && j <= |s| && Tag("else", s, j) == Some(Parsed(j + 4, "else"))
    ensures Multispace0(s, j + 4).pos == m && m <= |s| && ParseBraced(s, m) == Some(Parsed(n, e))
    ensures IfElse(s, q, c, t) == Some(Parsed(n, If(IfNode(c, t, e))))
  {
    j := Multispace0(s, q).pos;
    m := Multispace0(s, Tag("else", s, j).value.pos).pos;
    var els := ParseBraced(s, m).value;
    e, n := els.value, els.pos;
  }

  /** The step results that `IfUnfolds` gives describe such text. */
  lemma IfStepsText(s: string, k: nat, i1: nat, c: Expr, p: nat, i: nat, t: Expr, q: nat, j: nat, m: nat, e: Expr, n: nat)
    requires k + 2 <= |s| && Tag("if", s, k) == Some(Parsed(k + 2, "if"))
    requires Multispace1(s, k + 2) == Some(Parsed(i1, ())) && ParseExpr(s, i1) == Some(Parsed(p, c))
    requires Multispace0(s, p).pos == i && ParseBraced(s, i) == Some(Parsed(q, t))
    requires Multispace0(s, q).pos == j && Tag("else", s, j) == Some(Parsed(j + 4, "else"))
    requires Multispace0(s, j + 4).pos == m && ParseBraced(s, m) == Some(Parsed(n, e))
    ensures IfText(s, k, c, p, i, t, q, j, m, e, n)
  {
    assert i < q && m < n;
    IfGaps(s, p, i, q, j, m);
    AfterWhitespace(s, k + 2);
  }

  /** The three runs of whitespace the conditional parser skips, each
      followed by something, are gaps. */
  lemma IfGaps(s: string, p: nat, i: nat, q: nat, j: nat, m: nat)
    requires p <= |s| && Multispace0(s, p).pos == i && i < |s|
    requires q <= |s| && Multispace0(s, q).pos == j && j + 4 <= |s|
    requires Multispace0(s, j + 4).pos == m && m < |s|
    ensures Gap(s, p, i) && Gap(s, q, j) && Gap(s, j + 4, m)
  {
    SkippedGap(s, p);
    SkippedGap(s, q);
    SkippedGap(s, j + 4);
  }

  /** Every successful conditional is such text. */
  lemma IfDecomposes(s: string, k: nat) returns (c: Expr, p: nat, i: nat, t: Expr, q: nat, j: nat, m: nat, e: Expr, n: nat)
    requires k <= |s| && ParseIf(s, k).Some?
    ensures IfText(s, k, c, p, i, t, q, j, m, e, n)
    ensures ParseIf(s, k) == Some(Parsed(n, If(IfNode(c, t, e))))
  {
    var i1;
    i1, c, p, i, t, q, j, m, e, n := IfUnfolds(s, k);
    IfStepsText(s, k, i1, c, p, i, t, q, j, m, e, n);
  }

  /** `fun` at `k`, at least one whitespace character up to `j`, the
      parameter `x` (a word of letters), optional whitespace up to `i` and
      a braced body `b` ending at `n`. */
  predicate FunText(s: string, k: nat, j: nat, x: string, i: nat, b: Expr, n: nat) {
    OccursAt("fun", s, k) && k + 3 < j && Gap(s, k + 3, j)
    && IsWord(x) && OccursAt(x, s, j)
    && Gap(s, j + |x|, i) && ParseBraced(s, i) == Some(Parsed(n, b))
  }

  /** The function-literal parser, step by step. */
  lemma FunSteps(s: string, k: nat, j: nat, x: string, i: nat, b: Expr, n: nat)
    requires k + 3 <= |s| && Tag("fun", s, k) == Some(Parsed(k + 3, "fun"))
    requires Multispace1(s, k + 3) == Some(Parsed(j, ())) && j <= |s| && Alpha1(s, j) == Some(Parsed(j + |x|, x))
    requires j + |x| <= |s| && Multispace0(s, j + |x|).pos == i && ParseBraced(s, i) == Some(Parsed(n, b))
    ensures ParseFun(s, k) == Some(Parsed(n, Fun(FunNode(x, b))))
  {
  }

  /** Such text is read by the function-literal parser as `Fun(x, b)`. */
  lemma FunAccepts(s: string, k: nat, j: nat, x: string, i: nat, b: Expr, n: nat)
    requires FunText(s, k, j, x, i, b, n)
    ensures ParseFun(s, k) == Some(Parsed(n, Fun(FunNode(x, b))))
  {
    assert Tag("fun", s, k) == Some(Parsed(k + 3, "fun"));
    GapEnd(s, k + 3, j);
    GapEnd(s, j + |x|, i);
    assert StopsAt(Alpha, s, j + |x|);
    WordAt(x, s, j);
    FunSteps(s, k, j, x, i, b, n);
  }

  /** Every successful function literal is such text. */
  lemma FunDecomposes(s: string, k: nat) returns (j: nat, x: string, i: nat, b: Expr, n: nat)
    requires k <= |s| && ParseFun(s, k).Some?
    ensures FunText(s, k, j, x, i, b, n)
    ensures ParseFun(s, k) == Some(Parsed(n, Fun(FunNode(x, b))))
  {
    j := Multispace1(s, k + 3).value.pos;
    var word := Alpha1(s, j).value;
    x := word.value;
    i := Multispace0(s, word.pos).pos;
    var body := ParseBraced(s, i).value;
    b, n := body.value, body.pos;
    SkippedGap(s, k + 3);
    Span1Run(Alpha, s, j);
    forall h | 0 <= h < |x| ensures s[j + h] == x[h] {
    }
    ParseBracedShape(s, i);
    SkippedGap(s, word.pos);
  }

  /** A word followed by something other than a letter is read whole, by
      `alpha1` and by the identifier parser. */
  lemma WordAt(w: string, s: string, k: nat)
    requires IsWord(w) && OccursAt(w, s, k) && StopsAt(Alpha, s, k + |w|)
    ensures Alpha1(s, k) == Some(Parsed(k + |w|, w))
    ensures ParseId(s, k) == Some(Parsed(k + |w|, Id(w)))
  {
    RunOfOccurrence(Alpha, w, s, k);
    OccursAtSlice(w, s, k);
  }

  /** In `(fun x)` the function alternative fails on `fun`: no braced
      body follows the parameter `x`. */
  lemma NoBodyAfterParameter(s: string)
    requires s == "(fun x)"
    ensures ParseFun(s, 1).None?
  {
    assert OccursAt("x", s, 5);
    WordAt("x", s, 5);
    assert Tag("fun", s, 1) == Some(Parsed(4, "fun"));
    GapEnd(s, 4, 5);
    GapEnd(s, 6, 6);
    assert ParseBraced(s, 6).None?;
  }

  /** In `(fun x)` the word `fun` is therefore read as an identifier. */
  lemma FunFallsBack(s: string)
    requires s == "(fun x)"
    ensures ParseExpr(s, 1) == Some(Parsed(4, Id("fun")))
  {
    NoBodyAfterParameter(s);
    assert OccursAt("fun", s, 1);
    WordAt("fun", s, 1);
    OccursAtChar("if", s, 1, 0);
    assert ParseIf(s, 1).None?;
    KeywordFallsBack(s, 1);
  }

  /** `(fun x)` is the identifier `fun` applied to `x`. */
  lemma FunWithoutBody(s: string)
    requires s == "(fun x)"
    ensures ParseExpr(s, 0) == Some(Parsed(7, App(Id("fun"), Id("x"))))
  {
    FunFallsBack(s);
    assert OccursAt("x", s, 5);
    WordAt("x", s, 5);
    IdentifierWins(s, 4);
    assert !In(Space, s[6]);
    AppAccepts(s, 0, Id("fun"), 4, Id("x"), 6, 6);
    ParenWins(s, 0);
  }
}
