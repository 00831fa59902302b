/** The character-level scanners and combinators of the parsing library the
    parser is built on: whitespace, letter and digit runs, literal tags and
    single characters over complete (non-streaming) string input.

    An input slice is modelled as the whole text `s` with the index `k` of its
    first character, so "the rest of the input" is `s[pos..]` for the
    position `pos` a scanner returns. A scanner either fails (None), having
    consumed nothing, or returns that position with what it recognised. */
module Scanners {

  /** Success or recoverable failure of a scanner. */
  datatype Option<+T> = None | Some(value: T)

  /** A successful scan: `pos` is the index of the first character left
      unconsumed and `value` is what was recognised. */
  datatype Parsed<+T> = Parsed(pos: nat, value: T)

  /** The character classes the run scanners accept: whitespace (space, tab,
      carriage return, line feed) for `multispace0`/`multispace1`, ASCII
      letters for `alpha1`, ASCII decimal digits for `digit1`. */
  datatype CharClass = Space | Alpha | Digit

  predicate In(p: CharClass, c: char) {
    match p
    case Space => c == ' ' || c == '\t' || c == '\r' || c == '\n'
    case Alpha => 'a' <= c <= 'z' || 'A' <= c <= 'Z'
    case Digit => '0' <= c <= '9'
  }

  /** Every character of `w` is in class `p`. */
  predicate All(p: CharClass, w: string) {
    forall j :: 0 <= j < |w| ==> In(p, w[j])
  }

  /** A run of class `p` cannot be extended past position `n` of `s`. */
  predicate StopsAt(p: CharClass, s: string, n: nat)
    requires n <= |s|
  {
    n == |s| || !In(p, s[n])
  }

  /** `w` appears in `s` starting at position `k`. */
  predicate OccursAt(w: string, s: string, k: nat) {
    k + |w| <= |s| && forall j :: 0 <= j < |w| ==> s[k + j] == w[j]
  }

  /** The character at offset `j` of an occurrence. */
  lemma OccursAtChar(w: string, s: string, k: nat, j: nat)
    ensures OccursAt(w, s, k) && j < |w| ==> s[k + j] == w[j]
  {
    if OccursAt(w, s, k) && j < |w| {
      assert s[k + j] == w[j];
    }
  }

  /** An occurrence of `w` at `k` is the slice of `s` starting at `k`. */
  lemma OccursAtSlice(w: string, s: string, k: nat)
    requires OccursAt(w, s, k)
    ensures s[k..k + |w|] == w
  {
    forall j | 0 <= j < |w| ensures s[k..k + |w|][j] == w[j] {
      assert s[k + j] == w[j];
    }
  }

  /** `u + v` appears at `k` exactly when `u` does and `v` appears right
      after it. */
  lemma OccursAtConcat(u: string, v: string, s: string, k: nat)
    ensures OccursAt(u + v, s, k) <==> OccursAt(u, s, k) && OccursAt(v, s, k + |u|)
  {
    if OccursAt(u, s, k) && OccursAt(v, s, k + |u|) {
      forall j | 0 <= j < |u + v| ensures s[k + j] == (u + v)[j] {
        if j >= |u| {
          assert s[k + |u| + (j - |u|)] == v[j - |u|];
        }
      }
    }
    if OccursAt(u + v, s, k) {
      forall j | 0 <= j < |u| ensures s[k + j] == u[j] {
        assert s[k + j] == (u + v)[j];
      }
      forall j | 0 <= j < |v| ensures s[k + |u| + j] == v[j] {
        assert s[k + (|u| + j)] == (u + v)[|u| + j];
      }
    }
  }

  /** End of the longest run of class-`p` characters starting at `k`. */
  function SpanEnd(p: CharClass, s: string, k: nat): (n: nat)
    requires k <= |s|
    ensures k <= n <= |s|
    ensures n == k <==> k == |s| || !In(p, s[k])
    ensures StopsAt(p, s, n)
    decreases |s| - k
  {
    if k == |s| || !In(p, s[k]) then k else SpanEnd(p, s, k + 1)
  }

  /** What `SpanEnd` skips is all of class `p`. */
  lemma {:induction false} SpanEndRun(p: CharClass, s: string, k: nat)
    requires k <= |s|
    ensures forall j :: k <= j < SpanEnd(p, s, k) ==> In(p, s[j])
    decreases |s| - k
  {
    if k < |s| && In(p, s[k]) {
      SpanEndRun(p, s, k + 1);
    }
  }

  /** A run that cannot be extended is the longest run. */
  lemma {:induction false} SpanEndUnique(p: CharClass, s: string, k: nat, n: nat)
    requires k <= n <= |s| && StopsAt(p, s, n)
    requires forall j :: k <= j < n ==> In(p, s[j])
    ensures SpanEnd(p, s, k) == n
    decreases n - k
  {
    if k < n {
      SpanEndUnique(p, s, k + 1, n);
    }
  }

  /** An occurrence of a word of class `p` that cannot be extended is the
      longest run at its start. */
  lemma RunOfOccurrence(p: CharClass, w: string, s: string, k: nat)
    requires OccursAt(w, s, k) && All(p, w) && StopsAt(p, s, k + |w|)
    ensures SpanEnd(p, s, k) == k + |w|
  {
    forall j | k <= j < k + |w| ensures In(p, s[j]) {
      assert s[k + (j - k)] == w[j - k];
    }
    SpanEndUnique(p, s, k, k + |w|);
  }

  /** Zero or more whitespace characters; never fails. Every call site in
      the parser discards the matched text, so only the position where the
      run ends is kept. */
  function Multispace0(s: string, k: nat): (r: Parsed<()>)
    requires k <= |s|
    ensures k <= r.pos <= |s| && StopsAt(Space, s, r.pos)
    ensures r.pos == k <==> k == |s| || !In(Space, s[k])
  {
    Parsed(SpanEnd(Space, s, k), ())
  }

  /** One or more whitespace characters; the matched text is discarded, as
      with `Multispace0`. */
  function Multispace1(s: string, k: nat): (r: Option<Parsed<()>>)
    requires k <= |s|
    ensures r.Some? <==> k < |s| && In(Space, s[k])
    ensures r.Some? ==> k < r.value.pos <= |s| && r.value.pos == Multispace0(s, k).pos
  {
    if k == |s| || !In(Space, s[k]) then None else Some(Parsed(SpanEnd(Space, s, k), ()))
  }

  /** The longest non-empty run of class `p` at `k`; fails when the input does
      not start with a character of the class. */
  function Span1(p: CharClass, s: string, k: nat): (r: Option<Parsed<string>>)
    requires k <= |s|
    ensures r.Some? <==> k < |s| && In(p, s[k])
    ensures r.Some? ==> k < r.value.pos <= |s| && r.value.value == s[k..r.value.pos]
  {
    if k == |s| || !In(p, s[k]) then None
    else
      var n := SpanEnd(p, s, k);
      Some(Parsed(n, s[k..n]))
  }

  /** A successful `Span1` is a run of class `p` that cannot be extended. */
  lemma Span1Run(p: CharClass, s: string, k: nat)
    requires k <= |s| && Span1(p, s, k).Some?
    ensures All(p, Span1(p, s, k).value.value) && StopsAt(p, s, Span1(p, s, k).value.pos)
  {
    SpanEndRun(p, s, k);
  }

  /** One or more ASCII letters: the longest run of letters at `k`, which
      must not be empty. */
  function Alpha1(s: string, k: nat): (r: Option<Parsed<string>>)
    requires k <= |s|
    ensures r.Some? <==> k < |s| && In(Alpha, s[k])
    ensures r.Some? ==> k < r.value.pos <= |s| && r.value.value == s[k..r.value.pos]
    ensures r.Some? ==> All(Alpha, r.value.value) && StopsAt(Alpha, s, r.value.pos)
  {
    if k < |s| && In(Alpha, s[k]) then Span1Run(Alpha, s, k); Span1(Alpha, s, k)
    else Span1(Alpha, s, k)
  }

  /** One or more ASCII digits: the longest run of digits at `k`, which
      must not be empty. */
  function Digit1(s: string, k: nat): (r: Option<Parsed<string>>)
    requires k <= |s|
    ensures r.Some? <==> k < |s| && In(Digit, s[k])
    ensures r.Some? ==> k < r.value.pos <= |s| && r.value.value == s[k..r.value.pos]
    ensures r.Some? ==> All(Digit, r.value.value) && StopsAt(Digit, s, r.value.pos)
  {
    if k < |s| && In(Digit, s[k]) then Span1Run(Digit, s, k); Span1(Digit, s, k)
    else Span1(Digit, s, k)
  }

  /** The literal `t`; its value is `t` itself. */
  function Tag(t: string, s: string, k: nat): (r: Option<Parsed<string>>)
    ensures r.Some? <==> OccursAt(t, s, k)
    ensures r.Some? ==> r.value == Parsed(k + |t|, t)
  {
    if OccursAt(t, s, k) then Some(Parsed(k + |t|, t)) else None
  }

  /** The single character `c`. */
  function Char(c: char, s: string, k: nat): (r: Option<Parsed<char>>)
    ensures r.Some? <==> k < |s| && s[k] == c
    ensures r.Some? ==> r.value == Parsed(k + 1, c)
  {
    if k < |s| && s[k] == c then Some(Parsed(k + 1, c)) else None
  }

  /** The first of two alternatives that succeeds. Both are results of
      parsers run on the same input, and parsers are pure, so choosing
      between their results is choosing between the parsers. */
  function Alt<T>(first: Option<T>, second: Option<T>): (r: Option<T>)
    ensures r.Some? <==> first.Some? || second.Some?
    ensures first.Some? ==> r == first
    ensures first.None? ==> r == second
  {
    if first.Some? then first else second
  }

  function DigitValue(c: char): (d: nat)
    requires In(Digit, c)
    ensures d < 10
  {
    (c as int) - ('0' as int)
  }

  /** The number a run of decimal digits denotes, most significant first;
      leading zeros are allowed. */
  function DecimalValue(digits: string): (v: nat)
    requires All(Digit, digits)
    ensures v == 0 <==> forall j :: 0 <= j < |digits| ==> digits[j] == '0'
  {
    if digits == [] then 0
    else 10 * DecimalValue(digits[..|digits| - 1]) + DigitValue(digits[|digits| - 1])
  }
}
