/** A printer for expression trees, written independently of the parser,
    and the round trip: the parser reads back every tree the printer
    writes, whatever text follows it, as long as that text does not
    continue the last word or number. */
module Printer {
  import opened Scanners
  import opened Parser
  import opened Productions
  import opened Precedence

  /** The decimal digit for `d`. */
  function DigitChar(d: nat): (c: char)
    requires d < 10
    ensures In(Digit, c) && DigitValue(c) == d
  {
    ('0' as int + d) as char
  }

  /** The decimal numeral of `n`, without leading zeros. */
  function NatToDecimal(n: nat): (d: string)
    ensures |d| > 0 && All(Digit, d)
    ensures DecimalValue(d) == n
    decreases n
  {
    if n < 10 then [DigitChar(n)]
    else
      var prefix := NatToDecimal(n / 10);
      var d := prefix + [DigitChar(n % 10)];
      assert d[..|d| - 1] == prefix;
      d
  }

  /** The trees the printer can write back unambiguously: the parser's
      well-formed trees, without identifiers spelled `fun` or `if`. */
  predicate Printable(e: Expr) {
    match e
    case Fun(f) => IsWord(f.arg) && Printable(f.expr)
    case If(n) => Printable(n.cond) && Printable(n.thn) && Printable(n.els)
    case App(f, a) => Printable(f) && Printable(a)
    case Id(x) => IsIdentifier(x) && x != "fun" && x != "if"
    case Bool(_) => true
    case Int(_) => true
  }

  /** The concrete syntax of a tree, with single spaces where the grammar
      requires whitespace and none where it is optional. */
  function Show(e: Expr): string {
    match e
    case Fun(f) => "fun " + f.arg + " {" + Show(f.expr) + "}"
    case If(n) => "if " + Show(n.cond) + " {" + Show(n.thn) + "} else {" + Show(n.els) + "}"
    case App(f, a) => "(" + Show(f) + " " + Show(a) + ")"
    case Id(x) => x
    case Bool(b) => if b then "true" else "false"
    case Int(n) => NatToDecimal(n)
  }

  /** Printed text is never empty and starts with a letter, a digit or
      `(`, never with whitespace. */
  lemma ShowStart(e: Expr)
    requires Printable(e)
    ensures |Show(e)| > 0
    ensures In(Alpha, Show(e)[0]) || In(Digit, Show(e)[0]) || Show(e)[0] == '('
  {
  }

  /** Position `n` of `s` does not continue a word or a number. */
  predicate Delimited(s: string, n: nat)
    requires n <= |s|
  {
    n == |s| || (!In(Alpha, s[n]) && !In(Digit, s[n]))
  }

  /** The length of the printed text of `e`. */
  function Width(e: Expr): nat {
    |Show(e)|
  }

  /** `s` holds the printed text of the printable tree `e` at `k`, and
      what follows it does not continue a word or a number. */
  predicate PrintedAt(e: Expr, s: string, k: nat) {
    Printable(e) && OccursAt(Show(e), s, k) && Delimited(s, k + |Show(e)|)
  }

  /** `ParseExpr` started at `k` reads the tree `e` and stops at `n`. */
  predicate Reads(s: string, k: nat, e: Expr, n: nat) {
    k <= |s| && ParseExpr(s, k) == Some(Parsed(n, e))
  }

  /** `ParseBraced` started at `k` reads the tree `e` and stops at `n`. */
  predicate BracedReads(s: string, k: nat, e: Expr, n: nat) {
    k <= |s| && ParseBraced(s, k) == Some(Parsed(n, e))
  }

  /** The round trip: a printable tree printed at `k` is parsed back from
      `k`, ending exactly where its text ends at `n`. */
  lemma {:induction false} ParseShow(e: Expr, s: string, k: nat, n: nat)
    requires PrintedAt(e, s, k) && n == k + Width(e)
    ensures Reads(s, k, e, n)
    decreases e, 2
  {
    match e
    case Int(x) => ParseShowInt(x, s, k);
    case Bool(b) => ParseShowBool(b, s, k);
    case Id(x) => ParseShowId(x, s, k);
    case App(f, a) =>
      var p, q := AppPrinted(f, a, s, k);
      ParseShowApp(f, a, s, k, p, q, n);
    case If(c) =>
      var p, q, r := IfPrinted(c.cond, c.thn, c.els, s, k);
      ParseShowIf(c.cond, c.thn, c.els, s, k, p, q, r, n);
    case Fun(f) =>
      var p, q := FunPrinted(f.arg, f.expr, s, k);
      ParseShowFun(f.arg, f.expr, s, k, p, q, n);
  }

  /** An integer literal is read back as its value. */
  lemma ParseShowInt(x: nat, s: string, k: nat)
    requires PrintedAt(Int(x), s, k)
    ensures Reads(s, k, Int(x), k + Width(Int(x)))
  {
    var d := NatToDecimal(x);
    assert OccursAt(d, s, k) && Delimited(s, k + |d|);
    OccursAtChar(d, s, k, 0);
    assert Start(s, k) == k;
    DigitWins(s, k);
    OccursAtSlice(d, s, k);
    RunOfOccurrence(Digit, d, s, k);
  }

  /** A boolean literal is read back, whatever follows it. */
  lemma ParseShowBool(b: bool, s: string, k: nat)
    requires PrintedAt(Bool(b), s, k)
    ensures Reads(s, k, Bool(b), k + Width(Bool(b)))
  {
    OccursAtChar(Show(Bool(b)), s, k, 0);
    assert Start(s, k) == k;
    TrueWins(s, k);
    FalseWins(s, k);
  }

  /** An identifier is read back as itself. */
  lemma ParseShowId(x: string, s: string, k: nat)
    requires PrintedAt(Id(x), s, k)
    ensures Reads(s, k, Id(x), k + Width(Id(x)))
  {
    assert IsIdentifier(x) && OccursAt(x, s, k) && Delimited(s, k + |x|);
    OccursAtChar(x, s, k, 0);
    assert Start(s, k) == k;
    OccursAtSlice(x, s, k);
    RunOfOccurrence(Alpha, x, s, k);
    IdentifierWins(s, k);
  }

  /** Printed text does not start with whitespace. */
  lemma ShowNotSpace(e: Expr, s: string, j: nat)
    requires PrintedAt(e, s, j)
    ensures j < |s| && !In(Space, s[j]) && j + Width(e) <= |s|
  {
    ShowStart(e);
    OccursAtChar(Show(e), s, j, 0);
  }

  /** Where the parts of a printed application lie in `s`. */
  lemma AppPieces(f: string, a: string, s: string, k: nat)
    requires OccursAt("(" + f + " " + a + ")", s, k)
    ensures s[k] == '(' && OccursAt(f, s, k + 1) && s[k + 1 + |f|] == ' '
    ensures OccursAt(a, s, k + 2 + |f|) && s[k + 2 + |f| + |a|] == ')'
    ensures Delimited(s, k + 1 + |f|) && Delimited(s, k + 2 + |f| + |a|)
  {
    OccursAtConcat("(" + f + " " + a, ")", s, k);
    OccursAtConcat("(" + f + " ", a, s, k);
    OccursAtConcat("(" + f, " ", s, k);
    OccursAtConcat("(", f, s, k);
    OccursAtChar("(", s, k, 0);
    OccursAtChar(" ", s, k + 1 + |f|, 0);
    OccursAtChar(")", s, k + 2 + |f| + |a|, 0);
  }

  /** A printed application is `(`, the printed function ending at `p`, a
      space, the printed argument ending at `q`, and `)`. */
  lemma AppPrinted(f: Expr, a: Expr, s: string, k: nat) returns (p: nat, q: nat)
    requires PrintedAt(App(f, a), s, k)
    ensures p == k + 1 + Width(f) && q == p + 1 + Width(a) && q + 1 == k + Width(App(f, a))
    ensures q < |s| && s[k] == '(' && s[p] == ' ' && s[q] == ')'
    ensures PrintedAt(f, s, k + 1) && PrintedAt(a, s, p + 1)
  {
    AppPieces(Show(f), Show(a), s, k);
    p, q := k + 1 + Width(f), k + 2 + Width(f) + Width(a);
  }

  /** On `(` the expression parser is the application parser. */
  lemma AppWins(s: string, k: nat)
    requires k < |s| && s[k] == '('
    ensures ParseExpr(s, k) == ParseApp(s, k)
  {
    assert Start(s, k) == k;
    ParenWins(s, k);
  }

  /** The application alternative reads `(`, a function read right after it
      up to `p`, one space, an argument read right after that up to `q`,
      and `)`. */
  lemma ReadsApp(s: string, k: nat, f: Expr, p: nat, a: Expr, q: nat, r: nat)
    requires k + 1 < |s| && s[k] == '(' && !In(Space, s[k + 1]) && Reads(s, k + 1, f, p)
    requires p + 1 < |s| && s[p] == ' ' && !In(Space, s[p + 1]) && Reads(s, p + 1, a, q)
    requires q < |s| && s[q] == ')' && r == q + 1
    ensures Reads(s, k, App(f, a), r)
  {
    assert Multispace1(s, p) == Some(Parsed(p + 1, ()));
    assert ParseApp(s, k) == Some(Parsed(r, App(f, a)));
    AppWins(s, k);
  }

  /** An application is read back from its printed function and argument. */
  lemma {:induction false} ParseShowApp(f: Expr, a: Expr, s: string, k: nat, p: nat, q: nat, r: nat)
    requires p == k + 1 + Width(f) && q == p + 1 + Width(a) && r == q + 1
    requires q < |s| && s[k] == '(' && s[p] == ' ' && s[q] == ')'
    requires PrintedAt(f, s, k + 1) && PrintedAt(a, s, p + 1)
    ensures Reads(s, k, App(f, a), r)
    decreases App(f, a), 1
  {
    ShowNotSpace(f, s, k + 1);
    ShowNotSpace(a, s, p + 1);
    ParseShow(f, s, k + 1, p);
    ParseShow(a, s, p + 1, q);
    ReadsApp(s, k, f, p, a, q, r);
  }

  /** A brace-delimited expression: `{` at `j`, an expression read from
      right after it at `i` up to `p`, and `}` at `p`. */
  lemma ReadsBraced(s: string, j: nat, i: nat, e: Expr, p: nat)
    requires i == j + 1 && i < |s| && s[j] == '{' && !In(Space, s[i]) && Reads(s, i, e, p)
    requires p < |s| && s[p] == '}'
    ensures BracedReads(s, j, e, p + 1)
  {
  }

  /** A single space before a non-space character is a whitespace run that
      ends one position on. */
  lemma SingleSpace(s: string, p: nat)
    requires p + 1 < |s| && s[p] == ' ' && !In(Space, s[p + 1])
    ensures Multispace1(s, p) == Some(Parsed(p + 1, ()))
    ensures Multispace0(s, p) == Parsed(p + 1, ())
  {
  }

  /** The conditional parser reads `if`, a space, the condition ending at
      `p`, a space, the braced then-branch ending at `q + 1`, a space,
      `else`, a space and the braced else-branch ending at `n`. */
  lemma IfParsed(s: string, k: nat, c: Expr, p: nat, t: Expr, q: nat, e: Expr, n: nat)
    requires OccursAt("if", s, k) && k + 3 < |s| && s[k + 2] == ' ' && !In(Space, s[k + 3])
    requires Reads(s, k + 3, c, p)
    requires p + 1 < |s| && s[p] == ' ' && s[p + 1] == '{' && BracedReads(s, p + 1, t, q + 1)
    requires q + 7 < |s| && s[q + 1] == ' ' && OccursAt("else", s, q + 2) && s[q + 6] == ' ' && s[q + 7] == '{'
    requires BracedReads(s, q + 7, e, n)
    ensures ParseIf(s, k) == Some(Parsed(n, If(IfNode(c, t, e))))
  {
    OccursAtChar("else", s, q + 2, 0);
    assert Tag("if", s, k) == Some(Parsed(k + 2, "if"));
    assert Tag("else", s, q + 2) == Some(Parsed(q + 6, "else"));
    SingleSpace(s, k + 2);
    SingleSpace(s, p);
    SingleSpace(s, q + 1);
    SingleSpace(s, q + 6);
    IfSteps(s, k, k + 3, c, p, p + 1, t, q + 1, q + 2, q + 7, e, n);
  }

  /** The same text is read by the expression parser as a whole. */
  lemma ReadsIf(s: string, k: nat, c: Expr, p: nat, t: Expr, q: nat, e: Expr, n: nat)
    requires OccursAt("if", s, k) && k + 3 < |s| && s[k + 2] == ' ' && !In(Space, s[k + 3])
    requires Reads(s, k + 3, c, p)
    requires p + 1 < |s| && s[p] == ' ' && s[p + 1] == '{' && BracedReads(s, p + 1, t, q + 1)
    requires q + 7 < |s| && s[q + 1] == ' ' && OccursAt("else", s, q + 2) && s[q + 6] == ' ' && s[q + 7] == '{'
    requires BracedReads(s, q + 7, e, n)
    ensures Reads(s, k, If(IfNode(c, t, e)), n)
  {
    IfParsed(s, k, c, p, t, q, e, n);
    OccursAtChar("if", s, k, 0);
    assert Start(s, k) == k;
    IfWins(s, k);
  }

  /** The function parser reads `fun`, a space, the parameter `x` ending at
      `p`, a space and the braced body ending at `n`. */
  lemma FunParsed(s: string, k: nat, x: string, p: nat, b: Expr, n: nat)
    requires OccursAt("fun", s, k) && k + 3 < |s| && s[k + 3] == ' '
    requires IsWord(x) && OccursAt(x, s, k + 4) && p == k + 4 + |x|
    requires p + 1 < |s| && s[p] == ' ' && s[p + 1] == '{' && BracedReads(s, p + 1, b, n)
    ensures ParseFun(s, k) == Some(Parsed(n, Fun(FunNode(x, b))))
  {
    OccursAtChar(x, s, k + 4, 0);
    assert Tag("fun", s, k) == Some(Parsed(k + 3, "fun"));
    SingleSpace(s, k + 3);
    RunOfOccurrence(Alpha, x, s, k + 4);
    OccursAtSlice(x, s, k + 4);
    assert Alpha1(s, k + 4) == Some(Parsed(p, x));
    SingleSpace(s, p);
    assert ParseBraced(s, p + 1) == Some(Parsed(n, b));
  }

  /** The same text is read by the expression parser as a whole. */
  lemma ReadsFun(s: string, k: nat, x: string, p: nat, b: Expr, n: nat)
    requires OccursAt("fun", s, k) && k + 3 < |s| && s[k + 3] == ' '
    requires IsWord(x) && OccursAt(x, s, k + 4) && p == k + 4 + |x|
    requires p + 1 < |s| && s[p] == ' ' && s[p + 1] == '{' && BracedReads(s, p + 1, b, n)
    ensures Reads(s, k, Fun(FunNode(x, b)), n)
  {
    FunParsed(s, k, x, p, b, n);
    OccursAtChar("fun", s, k, 0);
    assert Start(s, k) == k;
    FunWins(s, k);
  }

  /** Where the parts of a printed conditional lie in `s`. */
  lemma IfPieces(c: string, t: string, e: string, s: string, k: nat)
    requires OccursAt("if " + c + " {" + t + "} else {" + e + "}", s, k)
    ensures OccursAt("if", s, k) && s[k + 2] == ' '
    ensures OccursAt(c, s, k + 3) && s[k + 3 + |c|] == ' ' && s[k + 4 + |c|] == '{'
    ensures OccursAt(t, s, k + 5 + |c|) && s[k + 5 + |c| + |t|] == '}' && s[k + 6 + |c| + |t|] == ' '
    ensures OccursAt("else", s, k + 7 + |c| + |t|)
    ensures s[k + 11 + |c| + |t|] == ' ' && s[k + 12 + |c| + |t|] == '{'
    ensures OccursAt(e, s, k + 13 + |c| + |t|) && s[k + 13 + |c| + |t| + |e|] == '}'
    ensures Delimited(s, k + 3 + |c|) && Delimited(s, k + 5 + |c| + |t|)
    ensures Delimited(s, k + 13 + |c| + |t| + |e|)
  {
    var w1 := "if " + c;
    var w2 := w1 + " {";
    var w3 := w2 + t;
    var w4 := w3 + "} else {";
    var w5 := w4 + e;
    OccursAtConcat(w5, "}", s, k);
    OccursAtConcat(w4, e, s, k);
    OccursAtConcat(w3, "} else {", s, k);
    OccursAtConcat(w2, t, s, k);
    OccursAtConcat(w1, " {", s, k);
    OccursAtConcat("if ", c, s, k);
    var q := k + 5 + |c| + |t|;
    forall j | 0 <= j < 2 ensures s[k + j] == "if"[j] {
      OccursAtChar("if ", s, k, j);
    }
    OccursAtChar("if ", s, k, 2);
    OccursAtChar(" {", s, k + 3 + |c|, 0);
    OccursAtChar(" {", s, k + 3 + |c|, 1);
    forall j | 0 <= j < 4 ensures s[q + 2 + j] == "else"[j] {
      OccursAtChar("} else {", s, q, j + 2);
    }
    OccursAtChar("} else {", s, q, 0);
    OccursAtChar("} else {", s, q, 1);
    OccursAtChar("} else {", s, q, 6);
    OccursAtChar("} else {", s, q, 7);
    OccursAtChar("}", s, k + 13 + |c| + |t| + |e|, 0);
  }

  /** A printed conditional is `if`, a space, the printed condition ending
      at `p`, ` {`, the printed branch ending at `q`, `} else {`, the printed
      alternative ending at `r`, and `}`. */
  lemma IfPrinted(c: Expr, t: Expr, e: Expr, s: string, k: nat) returns (p: nat, q: nat, r: nat)
    requires PrintedAt(If(IfNode(c, t, e)), s, k)
    ensures p == k + 3 + Width(c) && q == p + 2 + Width(t) && r == q + 8 + Width(e)
    ensures r + 1 == k + Width(If(IfNode(c, t, e)))
    ensures r < |s| && OccursAt("if", s, k) && s[k + 2] == ' ' && s[p] == ' ' && s[p + 1] == '{'
    ensures s[q] == '}' && s[q + 1] == ' ' && OccursAt("else", s, q + 2) && s[q + 6] == ' ' && s[q + 7] == '{'
    ensures s[r] == '}'
    ensures PrintedAt(c, s, k + 3) && PrintedAt(t, s, p + 2) && PrintedAt(e, s, q + 8)
  {
    IfPieces(Show(c), Show(t), Show(e), s, k);
    p := k + 3 + Width(c);
    q := p + 2 + Width(t);
    r := q + 8 + Width(e);
  }

  /** A conditional is read back from its printed parts. */
  lemma {:induction false} ParseShowIf(c: Expr, t: Expr, e: Expr, s: string, k: nat, p: nat, q: nat, r: nat, n: nat)
    requires p == k + 3 + Width(c) && q == p + 2 + Width(t) && r == q + 8 + Width(e) && n == r + 1
    requires r < |s| && OccursAt("if", s, k) && s[k + 2] == ' ' && s[p] == ' ' && s[p + 1] == '{'
    requires s[q] == '}' && s[q + 1] == ' ' && OccursAt("else", s, q + 2) && s[q + 6] == ' ' && s[q + 7] == '{'
    requires s[r] == '}'
    requires PrintedAt(c, s, k + 3) && PrintedAt(t, s, p + 2) && PrintedAt(e, s, q + 8)
    ensures Reads(s, k, If(IfNode(c, t, e)), n)
    decreases If(IfNode(c, t, e)), 1
  {
    ParseShowBraced(e, s, q + 7, q + 8, r);
    ParseShowIfHead(c, t, e, s, k, p, q, n);
  }

  /** The condition and the then-branch of a printed conditional are read
      back, given that its else-branch is. */
  lemma {:induction false} ParseShowIfHead(c: Expr, t: Expr, e: Expr, s: string, k: nat, p: nat, q: nat, n: nat)
    requires p == k + 3 + Width(c) && q == p + 2 + Width(t) && q + 7 < |s|
    requires OccursAt("if", s, k) && s[k + 2] == ' ' && s[p] == ' ' && s[p + 1] == '{'
    requires s[q] == '}' && s[q + 1] == ' ' && OccursAt("else", s, q + 2) && s[q + 6] == ' ' && s[q + 7] == '{'
    requires PrintedAt(c, s, k + 3) && PrintedAt(t, s, p + 2) && BracedReads(s, q + 7, e, n)
    ensures Reads(s, k, If(IfNode(c, t, e)), n)
    decreases If(IfNode(c, t, e)), 0
  {
    ShowNotSpace(c, s, k + 3);
    ParseShow(c, s, k + 3, p);
    ParseShowBraced(t, s, p + 1, p + 2, q);
    ReadsIf(s, k, c, p, t, q, e, n);
  }

  /** Where the parts of a printed function literal lie in `s`. */
  lemma FunPieces(x: string, b: string, s: string, k: nat)
    requires OccursAt("fun " + x + " {" + b + "}", s, k)
    ensures OccursAt("fun", s, k) && s[k + 3] == ' ' && OccursAt(x, s, k + 4)
    ensures s[k + 4 + |x|] == ' ' && s[k + 5 + |x|] == '{'
    ensures OccursAt(b, s, k + 6 + |x|) && s[k + 6 + |x| + |b|] == '}'
    ensures Delimited(s, k + 6 + |x| + |b|)
  {
    var w1 := "fun " + x;
    var w2 := w1 + " {";
    var w3 := w2 + b;
    OccursAtConcat(w3, "}", s, k);
    OccursAtConcat(w2, b, s, k);
    OccursAtConcat(w1, " {", s, k);
    OccursAtConcat("fun ", x, s, k);
    forall j | 0 <= j < 3 ensures s[k + j] == "fun"[j] {
      OccursAtChar("fun ", s, k, j);
    }
    OccursAtChar("fun ", s, k, 3);
    OccursAtChar(" {", s, k + 4 + |x|, 0);
    OccursAtChar(" {", s, k + 4 + |x|, 1);
    OccursAtChar("}", s, k + 6 + |x| + |b|, 0);
  }

  /** A printed function literal is `fun`, a space, the parameter ending at
      `p`, ` {`, the printed body ending at `q`, and `}`. */
  lemma FunPrinted(x: string, b: Expr, s: string, k: nat) returns (p: nat, q: nat)
    requires PrintedAt(Fun(FunNode(x, b)), s, k)
    ensures p == k + 4 + |x| && q == p + 2 + Width(b) && q + 1 == k + Width(Fun(FunNode(x, b)))
    ensures q < |s| && OccursAt("fun", s, k) && s[k + 3] == ' ' && IsWord(x) && OccursAt(x, s, k + 4)
    ensures s[p] == ' ' && s[p + 1] == '{' && s[q] == '}' && PrintedAt(b, s, p + 2)
  {
    FunPieces(x, Show(b), s, k);
    p := k + 4 + |x|;
    q := p + 2 + Width(b);
  }

  /** A function literal is read back from its printed parts. */
  lemma {:induction false} ParseShowFun(x: string, b: Expr, s: string, k: nat, p: nat, q: nat, n: nat)
    requires p == k + 4 + |x| && q == p + 2 + Width(b) && n == q + 1
    requires q < |s| && OccursAt("fun", s, k) && s[k + 3] == ' ' && IsWord(x) && OccursAt(x, s, k + 4)
    requires s[p] == ' ' && s[p + 1] == '{' && s[q] == '}' && PrintedAt(b, s, p + 2)
    ensures Reads(s, k, Fun(FunNode(x, b)), n)
    decreases Fun(FunNode(x, b)), 1
  {
    ParseShowBraced(b, s, p + 1, p + 2, q);
    ReadsFun(s, k, x, p, b, n);
  }

  /** A printed tree between `{` at `j` and `}` at `q` is read back by the
      braced-expression parser. */
  lemma {:induction false} ParseShowBraced(e: Expr, s: string, j: nat, i: nat, q: nat)
    requires i == j + 1 && q == i + Width(e) && q < |s| && s[j] == '{' && s[q] == '}'
    requires PrintedAt(e, s, i)
    ensures BracedReads(s, j, e, q + 1)
    decreases e, 3
  {
    ShowNotSpace(e, s, i);
    ParseShow(e, s, i, q);
    ReadsBraced(s, j, i, e, q);
  }

  /** Parsing the printed text of a printable tree, followed by anything
      that does not continue a word or a number, gives the tree back and
      stops where the printed text ends. */
  lemma RoundTrip(e: Expr, rest: string)
    requires Printable(e)
    requires rest == [] || (!In(Alpha, rest[0]) && !In(Digit, rest[0]))
    ensures ParseExpr(Show(e) + rest, 0) == Some(Parsed(|Show(e)|, e))
  {
    var s := Show(e) + rest;
    forall j | 0 <= j < |Show(e)| ensures s[0 + j] == Show(e)[j] {
    }
    assert |Show(e)| == |s| || s[|Show(e)|] == rest[0];
    ParseShow(e, s, 0, Width(e));
  }
}
