/** Types and the placeholder type assignment for parsed expressions. The
    type checker assigns `Bool` to boolean literals and `Int` to every other
    expression, without looking inside it; the conditional typer always
    answers `Int`. */
module Typing {
  import opened Scanners
  import Parser
  import Precedence
  import ParserFacts

  /** An unsigned 64-bit type-variable identifier. */
  newtype u64 = x: int | 0 <= x < 0x1_0000_0000_0000_0000

  /** A function type, the two base types, or a type variable. */
  datatype Type = Fun(dom: Type, cod: Type) | Bool | Int | TVar(id: u64)

  /** A type with no arrow and no variable in it. */
  predicate IsBase(t: Type) {
    t == Bool || t == Int
  }

  /** Boolean literals are `Bool`; integer literals, identifiers,
      applications, conditionals and function literals are all `Int`. */
  function TypingExpr(e: Parser.Expr): (t: Type)
    ensures IsBase(t)
    ensures t == Bool <==> e.Bool?
    ensures e.Int? ==> t == Int
  {
    match e
    case Int(_) => Int
    case Bool(_) => Bool
    case _ => Int
  }

  /** The conditional typer ignores its argument. */
  function TypingIf(e: Parser.Expr): (t: Type)
    ensures t == Int
  {
    Int
  }

  /** Whatever the conditional is, its type is the one `TypingExpr` gives a
      non-boolean expression, so the two typers agree on every conditional. */
  lemma TypingIfAgrees(e: Parser.Expr)
    requires e.If?
    ensures TypingIf(e) == TypingExpr(e)
    ensures TypingIf(e) != Bool
  {
  }

  /** Parsed text is typed `Bool` exactly when, after the leading
      whitespace, it begins with `true` or `false` (the boolean alternative
      wins over the identifier one, so `trueX` is `Bool` too). */
  lemma ParsedTextIsBool(s: string, k: nat)
    requires k <= |s| && Parser.ParseExpr(s, k).Some?
    ensures var i := Precedence.Start(s, k);
      TypingExpr(Parser.ParseExpr(s, k).value.value) == Bool
      <==> OccursAt("true", s, i) || OccursAt("false", s, i)
  {
    var i := Precedence.Start(s, k);
    Precedence.TrueWins(s, k);
    Precedence.FalseWins(s, k);
    if Parser.ParseBool(s, i).None? {
      ParserFacts.ParseFunShape(s, i);
      ParserFacts.ParseIfShape(s, i);
      ParserFacts.ParseAppShape(s, i);
      assert !Parser.ParseAlternatives(s, i).value.value.Bool?;
    }
  }

  /** Parsed text that begins, after the leading whitespace, with a digit
      is an integer literal and is typed `Int`. */
  lemma ParsedDigitsAreInt(s: string, k: nat)
    requires k <= |s|
    ensures var i := Precedence.Start(s, k);
      i < |s| && In(Digit, s[i]) ==>
        Parser.ParseExpr(s, k).Some? && Parser.ParseExpr(s, k).value.value.Int?
        && TypingExpr(Parser.ParseExpr(s, k).value.value) == Int
  {
    Precedence.DigitWins(s, k);
  }
}
