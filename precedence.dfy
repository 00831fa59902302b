/** Which alternative of `parse_expr` wins, decided by the first characters
    after the leading whitespace, and when the whole expression parser
    fails. */
module Precedence {
  import opened Scanners
  import opened Parser
  import opened ParserFacts

  /** Where the alternatives start: the end of the leading whitespace. */
  function Start(s: string, k: nat): (i: nat)
    requires k <= |s|
    ensures k <= i <= |s| && (i == |s| || !In(Space, s[i]))
  {
    Multispace0(s, k).pos
  }

  /** Leading whitespace is skipped: starting anywhere inside a run of
      whitespace gives the same result as starting after it. */
  lemma SkipWhitespace(s: string, k: nat, k': nat)
    requires k <= k' <= |s|
    requires forall j :: k <= j < k' ==> In(Space, s[j])
    ensures ParseExpr(s, k) == ParseExpr(s, k')
  {
    SpanEndRun(Space, s, k');
    SpanEndUnique(Space, s, k, SpanEnd(Space, s, k'));
  }

  /** The literal `true` after the whitespace is a boolean, whatever follows
      it: `trueX` is `true` with `X` left over. */
  lemma TrueWins(s: string, k: nat)
    requires k <= |s|
    ensures OccursAt("true", s, Start(s, k)) ==> ParseExpr(s, k) == Some(Parsed(Start(s, k) + 4, Bool(true)))
  {
    var i := Start(s, k);
    if OccursAt("true", s, i) {
      OccursAtChar("true", s, i, 0);
      ParseFunShape(s, i);
      ParseIfShape(s, i);
      OccursAtChar("fun", s, i, 0);
      OccursAtChar("if", s, i, 0);
    }
  }

  /** The literal `false` after the whitespace is a boolean, whatever
      follows it. */
  lemma FalseWins(s: string, k: nat)
    requires k <= |s|
    ensures OccursAt("false", s, Start(s, k)) ==> ParseExpr(s, k) == Some(Parsed(Start(s, k) + 5, Bool(false)))
  {
    var i := Start(s, k);
    if OccursAt("false", s, i) {
      OccursAtChar("false", s, i, 0);
      OccursAtChar("false", s, i, 1);
      ParseFunShape(s, i);
      ParseIfShape(s, i);
      OccursAtChar("fun", s, i, 1);
      OccursAtChar("if", s, i, 0);
    }
  }

  /** The function alternative is tried first: when it succeeds after the
      whitespace, its result is the expression. */
  lemma FunWins(s: string, k: nat)
    requires k <= |s|
    ensures var i := Start(s, k);
      ParseFun(s, i).Some? ==> ParseExpr(s, k) == ParseFun(s, i)
  {
  }

  /** When the conditional alternative succeeds after the whitespace, its
      result is the expression: the function alternative, tried before it,
      cannot succeed on `if`. */
  lemma IfWins(s: string, k: nat)
    requires k <= |s|
    ensures var i := Start(s, k);
      ParseIf(s, i).Some? ==> ParseExpr(s, k) == ParseIf(s, i)
  {
    var i := Start(s, k);
    if ParseIf(s, i).Some? {
      ParseIfShape(s, i);
      ParseFunShape(s, i);
      OccursAtChar("if", s, i, 0);
      OccursAtChar("fun", s, i, 0);
    }
  }

  /** A digit after the whitespace starts an integer literal. */
  lemma DigitWins(s: string, k: nat)
    requires k <= |s|
    ensures var i := Start(s, k);
      i < |s| && In(Digit, s[i]) ==> ParseExpr(s, k) == ParseInt(s, i)
  {
    var i := Start(s, k);
    if i < |s| && In(Digit, s[i]) {
      ParseFunShape(s, i);
      ParseIfShape(s, i);
      OccursAtChar("fun", s, i, 0);
      OccursAtChar("if", s, i, 0);
      OccursAtChar("true", s, i, 0);
      OccursAtChar("false", s, i, 0);
    }
  }

  /** An opening parenthesis after the whitespace starts an application;
      no other alternative can succeed there. */
  lemma ParenWins(s: string, k: nat)
    requires k <= |s|
    ensures var i := Start(s, k);
      i < |s| && s[i] == '(' ==> ParseExpr(s, k) == ParseApp(s, i)
  {
    var i := Start(s, k);
    if i < |s| && s[i] == '(' {
      ParseFunShape(s, i);
      ParseIfShape(s, i);
      OccursAtChar("fun", s, i, 0);
      OccursAtChar("if", s, i, 0);
      OccursAtChar("true", s, i, 0);
      OccursAtChar("false", s, i, 0);
    }
  }

  /** A run of letters that begins with the letters of `w` covers all of
      them: the word `ParseId` reads at `i` then begins with `w`. */
  lemma WordCoversLetters(w: string, s: string, i: nat)
    requires i <= |s| && All(Alpha, w) && OccursAt(w, s, i) && ParseId(s, i).Some?
    ensures i + |w| <= ParseId(s, i).value.pos
    ensures OccursAt(w, ParseId(s, i).value.value.name, 0)
  {
    var n := ParseId(s, i).value.pos;
    Span1Run(Alpha, s, i);
    OccursAtChar(w, s, i, n - i);
    var x := ParseId(s, i).value.value.name;
    forall j | 0 <= j < |w| ensures x[0 + j] == w[j] {
      assert s[i + j] == w[j];
    }
  }

  /** A keyword followed by whitespace is read by `ParseId` as exactly that
      keyword. */
  lemma KeywordIsWholeWord(w: string, s: string, i: nat)
    requires i <= |s| && All(Alpha, w) && OccursAt(w, s, i) && ParseId(s, i).Some?
    requires i + |w| < |s| && In(Space, s[i + |w|])
    ensures ParseId(s, i).value == Parsed(i + |w|, Id(w))
  {
    WordCoversLetters(w, s, i);
    var x := ParseId(s, i).value.value.name;
    assert x == w by {
      Span1Run(Alpha, s, i);
      assert |x| == |w|;
      forall j | 0 <= j < |w| ensures x[j] == w[j] {
        assert x[0 + j] == w[j];
      }
    }
  }

  /** `fun` is a keyword only when whitespace follows it: otherwise the
      function alternative fails on the word `ParseId` reads. */
  lemma FunNeedsSpace(s: string, i: nat)
    requires i <= |s| && ParseId(s, i).Some?
    ensures var r := ParseId(s, i).value;
      (r.value.name == "fun" ==> r.pos == |s| || !In(Space, s[r.pos])) ==> ParseFun(s, i).None?
  {
    ParseFunShape(s, i);
    if ParseFun(s, i).Some? {
      KeywordIsWholeWord("fun", s, i);
    }
  }

  /** `if` is a keyword only when whitespace follows it. */
  lemma IfNeedsSpace(s: string, i: nat)
    requires i <= |s| && ParseId(s, i).Some?
    ensures var r := ParseId(s, i).value;
      (r.value.name == "if" ==> r.pos == |s| || !In(Space, s[r.pos])) ==> ParseIf(s, i).None?
  {
    ParseIfShape(s, i);
    if ParseIf(s, i).Some? {
      KeywordIsWholeWord("if", s, i);
    }
  }

  /** On an identifier the boolean alternative fails. */
  lemma IdentifierIsNotBool(s: string, i: nat)
    requires i <= |s| && ParseId(s, i).Some? && IsIdentifier(ParseId(s, i).value.value.name)
    ensures ParseBool(s, i).None?
  {
    if OccursAt("true", s, i) {
      WordCoversLetters("true", s, i);
    }
    if OccursAt("false", s, i) {
      WordCoversLetters("false", s, i);
    }
  }

  /** A word after the whitespace that can be an identifier is the
      expression whenever the function and conditional alternatives fail
      there: `fun` or `if` without a body falls back to the identifier, so
      `(fun x)` applies the identifier `fun` to `x`. */
  lemma KeywordFallsBack(s: string, k: nat)
    requires k <= |s|
    ensures var i := Start(s, k);
      var r := ParseId(s, i);
      r.Some? && IsIdentifier(r.value.value.name) && ParseFun(s, i).None? && ParseIf(s, i).None?
      ==> ParseExpr(s, k) == r
  {
    var i := Start(s, k);
    if ParseId(s, i).Some? {
      ParseAppShape(s, i);
      if IsIdentifier(ParseId(s, i).value.value.name) {
        IdentifierIsNotBool(s, i);
      }
    }
  }

  /** A word after the whitespace that can be an identifier is one, unless
      it is `fun` or `if` followed by whitespace, where the function or
      conditional alternative is tried first. In particular `funx` and
      `iffy` are identifiers. */
  lemma IdentifierWins(s: string, k: nat)
    requires k <= |s|
    ensures var i := Start(s, k);
      var r := ParseId(s, i);
      r.Some? && IsIdentifier(r.value.value.name)
      && (r.value.value.name == "fun" ==> r.value.pos == |s| || !In(Space, s[r.value.pos]))
      && (r.value.value.name == "if" ==> r.value.pos == |s| || !In(Space, s[r.value.pos]))
      ==> ParseExpr(s, k) == r
  {
    var i := Start(s, k);
    if ParseId(s, i).Some? {
      FunNeedsSpace(s, i);
      IfNeedsSpace(s, i);
      KeywordFallsBack(s, k);
    }
  }

  /** `ParseExpr` fails when, after the whitespace, the input is empty or
      starts with something other than a letter, a digit or `(`. */
  lemma ParseExprNeedsToken(s: string, k: nat)
    requires k <= |s|
    ensures var i := Start(s, k);
      ParseExpr(s, k).Some? ==> i < |s| && (In(Alpha, s[i]) || In(Digit, s[i]) || s[i] == '(')
  {
    var i := Start(s, k);
    assert ParseExpr(s, k) == ParseAlternatives(s, i);
    if ParseFun(s, i).Some? {
      ParseFunShape(s, i);
      OccursAtChar("fun", s, i, 0);
    } else if ParseIf(s, i).Some? {
      ParseIfShape(s, i);
      OccursAtChar("if", s, i, 0);
    } else if ParseBool(s, i).Some? {
      OccursAtChar("true", s, i, 0);
      OccursAtChar("false", s, i, 0);
    } else if ParseApp(s, i).Some? {
      ParseAppShape(s, i);
    }
  }

  /** After the whitespace a letter or a digit always starts an expression:
      at worst an identifier or an integer literal. */
  lemma ParseExprSucceedsOnWord(s: string, k: nat)
    requires k <= |s|
    ensures var i := Start(s, k);
      i < |s| && (In(Alpha, s[i]) || In(Digit, s[i])) ==> ParseExpr(s, k).Some?
  {
  }

  /** `trueX` is the boolean `true` with `X` left over. */
  lemma TrueXIsBool()
    ensures ParseExpr("trueX", 0) == Some(Parsed(4, Bool(true)))
  {
    TrueWins("trueX", 0);
  }

  /** `funx` is an identifier, not the start of a function literal. */
  lemma FunxIsIdentifier()
    ensures ParseExpr("funx", 0) == Some(Parsed(4, Id("funx")))
  {
    var s := "funx";
    assert OccursAt(s, s, 0);
    RunOfOccurrence(Alpha, s, s, 0);
    OccursAtSlice(s, s, 0);
    assert ParseId(s, 0) == Some(Parsed(4, Id(s)));
    OccursAtChar("true", s, 0, 0);
    OccursAtChar("false", s, 0, 0);
    IdentifierWins(s, 0);
  }
}
