/** What the parser guarantees about the trees it builds: every tree is
    well-formed, and each composite production starts and ends with its
    delimiters and builds its own kind of node. */
module ParserFacts {
  import opened Scanners
  import opened Parser

  /** A pattern found at the start of a slice of `s` is found in `s`. */
  lemma OccursInSlice(w: string, s: string, i: nat, n: nat)
    requires i <= n <= |s| && OccursAt(w, s[i..n], 0)
    ensures OccursAt(w, s, i)
  {
    forall j | 0 <= j < |w| ensures s[i + j] == w[j] {
      assert s[i..n][0 + j] == w[j];
    }
  }

  /** A word `ParseId` returns where the boolean alternative failed does not
      begin with `true` or `false`. */
  lemma IdentifierAfterBoolFails(s: string, i: nat)
    requires i <= |s| && ParseBool(s, i).None? && ParseId(s, i).Some?
    ensures IsIdentifier(ParseId(s, i).value.value.name)
  {
    var n := ParseId(s, i).value.pos;
    if OccursAt("true", s[i..n], 0) {
      OccursInSlice("true", s, i, n);
    }
    if OccursAt("false", s[i..n], 0) {
      OccursInSlice("false", s, i, n);
    }
  }

  /** Every tree `ParseExpr` returns is well formed: identifiers are words
      that do not begin with `true` or `false`, parameters are words. */
  lemma {:induction false} ParseExprWellFormed(s: string, k: nat)
    requires k <= |s|
    ensures ParseExpr(s, k).Some? ==> WellFormed(ParseExpr(s, k).value.value)
    decreases |s| - k, 3
  {
    ParseAlternativesWellFormed(s, Multispace0(s, k).pos);
  }

  lemma {:induction false} ParseAlternativesWellFormed(s: string, k: nat)
    requires k <= |s|
    ensures ParseAlternatives(s, k).Some? ==> WellFormed(ParseAlternatives(s, k).value.value)
    decreases |s| - k, 2
  {
    if ParseFun(s, k).Some? {
      ParseFunWellFormed(s, k);
    } else if ParseIf(s, k).Some? {
      ParseIfWellFormed(s, k);
    } else if ParseBool(s, k).Some? || ParseInt(s, k).Some? {
    } else if ParseApp(s, k).Some? {
      ParseAppWellFormed(s, k);
    } else if ParseId(s, k).Some? {
      IdentifierAfterBoolFails(s, k);
    }
  }

  lemma {:induction false} ParseAppWellFormed(s: string, k: nat)
    requires k <= |s|
    ensures ParseApp(s, k).Some? ==> WellFormed(ParseApp(s, k).value.value)
    decreases |s| - k, 1
  {
    if ParseApp(s, k).Some? {
      var i1 := Multispace0(s, k + 1).pos;
      var p1 := ParseExpr(s, i1).value.pos;
      var i2 := Multispace1(s, p1).value.pos;
      ParseExprWellFormed(s, i1);
      ParseExprWellFormed(s, i2);
    }
  }

  lemma {:induction false} ParseBracedWellFormed(s: string, k: nat)
    requires k <= |s|
    ensures ParseBraced(s, k).Some? ==> WellFormed(ParseBraced(s, k).value.value)
    decreases |s| - k, 1
  {
    if ParseBraced(s, k).Some? {
      ParseExprWellFormed(s, Multispace0(s, k + 1).pos);
    }
  }

  lemma {:induction false} ParseIfWellFormed(s: string, k: nat)
    requires k <= |s|
    ensures ParseIf(s, k).Some? ==> WellFormed(ParseIf(s, k).value.value)
    decreases |s| - k, 1
  {
    if ParseIf(s, k).Some? {
      var i1 := Multispace1(s, k + 2).value.pos;
      var i2 := Multispace0(s, ParseExpr(s, i1).value.pos).pos;
      var i3 := Multispace0(s, ParseBraced(s, i2).value.pos).pos + 4;
      var i4 := Multispace0(s, i3).pos;
      ParseExprWellFormed(s, i1);
      ParseBracedWellFormed(s, i2);
      ParseBracedWellFormed(s, i4);
    }
  }

  lemma {:induction false} ParseFunWellFormed(s: string, k: nat)
    requires k <= |s|
    ensures ParseFun(s, k).Some? ==> WellFormed(ParseFun(s, k).value.value)
    decreases |s| - k, 1
  {
    if ParseFun(s, k).Some? {
      var i1 := Multispace1(s, k + 3).value.pos;
      var i2 := Multispace0(s, Alpha1(s, i1).value.pos).pos;
      Span1Run(Alpha, s, i1);
      ParseBracedWellFormed(s, i2);
    }
  }

  /** An application starts with `(`, ends with `)` and builds an `App`. */
  lemma ParseAppShape(s: string, k: nat)
    requires k <= |s|
    ensures var r := ParseApp(s, k);
      r.Some? ==> s[k] == '(' && s[r.value.pos - 1] == ')' && r.value.value.App?
  {
    if ParseApp(s, k).Some? {
      var i1 := Multispace0(s, k + 1).pos;
      var p1 := ParseExpr(s, i1).value.pos;
      var i2 := Multispace1(s, p1).value.pos;
      var i3 := Multispace0(s, ParseExpr(s, i2).value.pos).pos;
    }
  }

  /** A braced expression starts with `{` and ends with `}`. */
  lemma ParseBracedShape(s: string, k: nat)
    requires k <= |s|
    ensures var r := ParseBraced(s, k);
      r.Some? ==> s[k] == '{' && s[r.value.pos - 1] == '}'
  {
  }

  /** A conditional starts with `if` and a whitespace character, ends with
      `}` and builds an `If`. */
  lemma ParseIfShape(s: string, k: nat)
    requires k <= |s|
    ensures var r := ParseIf(s, k);
      r.Some? ==> OccursAt("if", s, k) && k + 2 < |s| && In(Space, s[k + 2])
                  && s[r.value.pos - 1] == '}' && r.value.value.If?
  {
    if ParseIf(s, k).Some? {
      var i1 := Multispace1(s, k + 2).value.pos;
      var i2 := Multispace0(s, ParseExpr(s, i1).value.pos).pos;
      var i3 := Multispace0(s, ParseBraced(s, i2).value.pos).pos + 4;
      var i4 := Multispace0(s, i3).pos;
      ParseBracedShape(s, i4);
    }
  }

  /** A function literal starts with `fun` and a whitespace character, ends
      with `}` and builds a `Fun`. */
  lemma ParseFunShape(s: string, k: nat)
    requires k <= |s|
    ensures var r := ParseFun(s, k);
      r.Some? ==> OccursAt("fun", s, k) && k + 3 < |s| && In(Space, s[k + 3])
                  && s[r.value.pos - 1] == '}' && r.value.value.Fun?
  {
    if ParseFun(s, k).Some? {
      var i1 := Multispace1(s, k + 3).value.pos;
      var i2 := Multispace0(s, Alpha1(s, i1).value.pos).pos;
      ParseBracedShape(s, i2);
    }
  }
}
