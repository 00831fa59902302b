/** The recursive-descent expression parser. Each parser reads the input
    slice that starts at position `k` of the text `s` and either fails
    without consuming anything (None) or returns the position of the rest of
    the input with the node it built. The mutual recursion terminates because
    every production consumes at least one character before it calls
    `ParseExpr` again, which the `k < r.value.pos` postconditions record.
    Each early return on a failed step (`?` in the source) is a `match`
    whose `None` case returns `None`. */
module Parser {
  import opened Scanners

  /** Abstract syntax: function literal, conditional, application,
      identifier, boolean and integer literal. */
  datatype Expr =
    | Fun(fun: FunNode)
    | If(ite: IfNode)
    | App(func: Expr, arg: Expr)
    | Id(name: string)
    | Bool(b: bool)
    | Int(n: nat)

  /** `fun arg { expr }`. */
  datatype FunNode = FunNode(arg: string, expr: Expr)

  /** `if cond { thn } else { els }` (`then` is a keyword in Dafny). */
  datatype IfNode = IfNode(cond: Expr, thn: Expr, els: Expr)

  /** A non-empty run of ASCII letters, as `alpha1` recognises one. */
  predicate IsWord(x: string) {
    x != [] && All(Alpha, x)
  }

  /** A word that can come back from `ParseId`: the boolean alternative is
      tried first and wins on any word that begins with `true` or `false`. */
  predicate IsIdentifier(x: string) {
    IsWord(x) && !OccursAt("true", x, 0) && !OccursAt("false", x, 0)
  }

  /** The shape of every tree the parser builds. */
  predicate WellFormed(e: Expr) {
    match e
    case Fun(f) => IsWord(f.arg) && WellFormed(f.expr)
    case If(n) => WellFormed(n.cond) && WellFormed(n.thn) && WellFormed(n.els)
    case App(f, a) => WellFormed(f) && WellFormed(a)
    case Id(x) => IsIdentifier(x)
    case Bool(_) => true
    case Int(_) => true
  }

  /** Skips leading whitespace, then runs the six alternatives. */
  function ParseExpr(s: string, k: nat): (r: Option<Parsed<Expr>>)
    requires k <= |s|
    decreases |s| - k, 3
    ensures r.Some? ==> k < r.value.pos <= |s|
  {
    ParseAlternatives(s, Multispace0(s, k).pos)
  }

  /** The `alt` of function literal, conditional, boolean, integer,
      application and identifier, in that order: the first that succeeds
      wins. */
  function ParseAlternatives(s: string, k: nat): (r: Option<Parsed<Expr>>)
    requires k <= |s|
    decreases |s| - k, 2
    ensures r.Some? ==> k < r.value.pos <= |s|
  {
    Alt(ParseFun(s, k),
    Alt(ParseIf(s, k),
    Alt(ParseBool(s, k),
    Alt(ParseInt(s, k),
    Alt(ParseApp(s, k),
        ParseId(s, k))))))
  }

  /** The longest run of letters, as an identifier. */
  function ParseId(s: string, k: nat): (r: Option<Parsed<Expr>>)
    requires k <= |s|
    ensures r.Some? <==> k < |s| && In(Alpha, s[k])
    ensures r.Some? ==> k < r.value.pos <= |s| && r.value.value == Id(s[k..r.value.pos])
    ensures r.Some? ==> IsWord(r.value.value.name) && StopsAt(Alpha, s, r.value.pos)
  {
    match Alpha1(s, k)
    case None => None
    case Some(word) =>
      Span1Run(Alpha, s, k);
      Some(Parsed(word.pos, Id(word.value)))
  }

  /** The literal `true` or `false`, whatever follows it. */
  function ParseBool(s: string, k: nat): (r: Option<Parsed<Expr>>)
    ensures r.Some? <==> OccursAt("true", s, k) || OccursAt("false", s, k)
    ensures OccursAt("true", s, k) ==> r == Some(Parsed(k + 4, Bool(true)))
    ensures OccursAt("false", s, k) ==> r == Some(Parsed(k + 5, Bool(false)))
  {
    assert OccursAt("true", s, k) ==> s[k + 0] == "true"[0];
    assert OccursAt("false", s, k) ==> s[k + 0] == "false"[0];
    match Alt(Tag("true", s, k), Tag("false", s, k))
    case None => None
    case Some(word) =>
      if word.value == "true" then Some(Parsed(word.pos, Bool(true)))
      else Some(Parsed(word.pos, Bool(false)))
  }

  /** The longest run of digits, as the number it denotes in decimal. */
  function ParseInt(s: string, k: nat): (r: Option<Parsed<Expr>>)
    requires k <= |s|
    ensures r.Some? <==> k < |s| && In(Digit, s[k])
    ensures r.Some? ==> k < r.value.pos <= |s| && StopsAt(Digit, s, r.value.pos)
    ensures r.Some? ==> All(Digit, s[k..r.value.pos])
    ensures r.Some? ==> r.value.value == Int(DecimalValue(s[k..r.value.pos]))
  {
    match Digit1(s, k)
    case None => None
    case Some(digits) =>
      Span1Run(Digit, s, k);
      Some(Parsed(digits.pos, Int(DecimalValue(digits.value))))
  }

  /** `(`, optional whitespace, the function, at least one whitespace, the
      argument, optional whitespace, `)`. */
  function ParseApp(s: string, k: nat): (r: Option<Parsed<Expr>>)
    requires k <= |s|
    decreases |s| - k, 1
    ensures r.Some? ==> k < r.value.pos <= |s|
  {
    match Char('(', s, k)
    case None => None
    case Some(open) =>
      match ParseExpr(s, Multispace0(s, open.pos).pos)
      case None => None
      case Some(e1) =>
        match Multispace1(s, e1.pos)
        case None => None
        case Some(sep) =>
          match ParseExpr(s, sep.pos)
          case None => None
          case Some(e2) =>
            match Char(')', s, Multispace0(s, e2.pos).pos)
            case None => None
            case Some(close) =>
              Some(Parsed(close.pos, App(e1.value, e2.value)))
  }

  /** A brace-delimited expression with optional whitespace inside the
      braces: the branches of a conditional and the body of a function. */
  function ParseBraced(s: string, k: nat): (r: Option<Parsed<Expr>>)
    requires k <= |s|
    decreases |s| - k, 1
    ensures r.Some? ==> k < r.value.pos <= |s|
  {
    match Char('{', s, k)
    case None => None
    case Some(open) =>
      match ParseExpr(s, Multispace0(s, open.pos).pos)
      case None => None
      case Some(e) =>
        match Char('}', s, Multispace0(s, e.pos).pos)
        case None => None
        case Some(close) =>
          Some(Parsed(close.pos, e.value))
  }

  /** `if`, at least one whitespace, the condition, then the braced branch,
      `else` and the braced alternative, with optional whitespace between. */
  function ParseIf(s: string, k: nat): (r: Option<Parsed<Expr>>)
    requires k <= |s|
    decreases |s| - k, 1
    ensures r.Some? ==> k < r.value.pos <= |s|
  {
    match Tag("if", s, k)
    case None => None
    case Some(kw) =>
      match Multispace1(s, kw.pos)
      case None => None
      case Some(sep) =>
        match ParseExpr(s, sep.pos)
        case None => None
        case Some(cond) =>
          match ParseBraced(s, Multispace0(s, cond.pos).pos)
          case None => None
          case Some(thn) =>
            match Tag("else", s, Multispace0(s, thn.pos).pos)
            case None => None
            case Some(kwElse) =>
              match ParseBraced(s, Multispace0(s, kwElse.pos).pos)
              case None => None
              case Some(els) =>
                Some(Parsed(els.pos, If(IfNode(cond.value, thn.value, els.value))))
  }

  /** `fun`, at least one whitespace, the parameter (a run of letters),
      optional whitespace and the braced body. */
  function ParseFun(s: string, k: nat): (r: Option<Parsed<Expr>>)
    requires k <= |s|
    decreases |s| - k, 1
    ensures r.Some? ==> k < r.value.pos <= |s|
  {
    match Tag("fun", s, k)
    case None => None
    case Some(kw) =>
      match Multispace1(s, kw.pos)
      case None => None
      case Some(sep) =>
        match Alpha1(s, sep.pos)
        case None => None
        case Some(arg) =>
          match ParseBraced(s, Multispace0(s, arg.pos).pos)
          case None => None
          case Some(body) =>
            Some(Parsed(body.pos, Fun(FunNode(arg.value, body.value))))
  }
}
