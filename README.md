# Parser and type stub of a small functional language

The system reads programs of a tiny functional language: integer and
boolean literals, identifiers, function literals `fun x { body }`,
conditionals `if c { t } else { e }` and applications `(f a)`. Its parser
is a recursive-descent parser built from the scanners and combinators of
the `nom` parsing library (`multispace0`, `multispace1`, `alpha1`,
`digit1`, `tag`, `char`, `alt`, `delimited`). `parse_expr` skips leading
whitespace and then tries, in order, the function literal, the
conditional, the boolean, the integer, the application and the identifier
alternatives. Its type checker is a placeholder: `typing_expr` gives
`Bool` to boolean literals and `Int` to everything else, and `typing_if`
always answers `Int`.

The model is pure, like the source. The files are:

- `scanners.dfy` (module `Scanners`): the `nom` scanners and combinators
  over complete string input. An input slice is the whole text `s`
  together with the index `k` where the slice starts. A scanner fails with
  `None`, consuming nothing, or returns the position after what it read
  together with its value.
- `parser.dfy` (module `Parser`): the `Expr`, `Fun` and `If` types and
  the seven parsing functions. They are mutually recursive, and every
  early `?` return becomes a `match` whose `None` case is `None`. The
  `alt` of `parse_expr` is `ParseAlternatives`. The
  `delimited(char('{'), delimited(multispace0, parse_expr, multispace0), char('}'))`
  that `parse_if` and `parse_fun` share is `ParseBraced`.
- `parser_facts.dfy` (module `ParserFacts`): the well-formedness of every
  parsed tree, and the delimiters and node kind of each composite
  production.
- `precedence.dfy` (module `Precedence`): which alternative of
  `parse_expr` wins on which input, and when `parse_expr` fails.
- `productions.dfy` (module `Productions`): the exact text each composite
  production accepts, for every whitespace layout. For each of the
  application, the braced expression, the conditional and the function
  literal, a predicate describes the text by the positions where its parts
  end. An `...Accepts` lemma shows the parser reads such text to the
  expected node, and a `...Decomposes` lemma shows every successful parse
  is such text.
- `printer.dfy` (module `Printer`): a printer for syntax trees. It is not
  part of the source. It is a second description of the concrete syntax,
  written independently of the parser, and the round-trip lemma checks the
  parser against it: printing a tree and parsing the text gives the tree
  back.
- `typing.dfy` (module `Typing`): the `Type` type and the two typing
  functions, together with what they assign to parsed text.

The code and the project's design description disagree on typing. The
description presents a Hindley–Milner inference engine, with constraint
generation, substitution, unification and an occurs check, in which `true`
and `false` are built-in identifiers. The code has only the stub
described above, and its parser turns `true` and `false` into boolean
literals, never into identifiers. The model follows the code.

## Model

| member | source | states |
|---|---|---|
| Scanners.SpanEnd | src/parser.rs:33 | The end of the longest run of a character class starting at `k`: it is within the input, it equals `k` exactly when no run starts there, and the run cannot be extended past it. |
| Scanners.SpanEndRun | src/parser.rs:33 | Every character a run scanner skips belongs to the class. |
| Scanners.SpanEndUnique | src/parser.rs:45 | A run of the class that cannot be extended is the longest run, so the scanner stops exactly there. |
| Scanners.Multispace0 | src/parser.rs:33 | `multispace0` never fails and stops at the end of the input or at a non-whitespace character. It consumes nothing exactly when the input is empty or does not start with whitespace. That every character it skips is whitespace is `Scanners.SpanEndRun` and `Productions.SkippedGap`. |
| Scanners.Multispace1 | src/parser.rs:68 | `multispace1` succeeds exactly when the input starts with whitespace, and then it consumes at least one character. |
| Scanners.Span1 | src/parser.rs:45 | `alpha1` and `digit1` succeed exactly when the first character is in the class, and they return the consumed slice of the input. |
| Scanners.Span1Run | src/parser.rs:59 | A successful `alpha1` or `digit1` returns text that is all of the class and cannot be extended. |
| Scanners.Alpha1 | src/parser.rs:45 | `alpha1` succeeds exactly when a letter comes next. It returns the consumed slice, which is all letters and is not followed by a letter. |
| Scanners.Digit1 | src/parser.rs:59 | `digit1` succeeds exactly when a digit comes next. It returns the consumed slice, which is all digits and is not followed by a digit. |
| Scanners.Tag | src/parser.rs:50 | `tag(t)` succeeds exactly when `t` occurs at the current position, consumes `|t|` characters and returns `t`. |
| Scanners.Char | src/parser.rs:64 | `char(c)` succeeds exactly when the next character is `c`, and it consumes one character. |
| Scanners.Alt | src/parser.rs:34-41 | `alt` returns the first alternative that succeeds, and fails only when all fail. The Precedence `...Wins` lemmas show which alternative that is on each input. |
| Scanners.DecimalValue | src/parser.rs:60 | The value of a run of digits, read most significant digit first. It is zero exactly when every digit is `0`. `Printer.NatToDecimal` proves that it inverts the printer's numeral. |
| Parser.ParseExpr | src/parser.rs:32-42 | Progress: a successful parse consumes at least one character and stays within the input. |
| Parser.ParseAlternatives | src/parser.rs:34-41 | Progress for the `alt` of the six alternatives. |
| Parser.ParseId | src/parser.rs:44-47 | Succeeds exactly when a letter comes next. The identifier is the longest run of letters from there: it is non-empty, all letters, and followed by no letter. |
| Parser.ParseBool | src/parser.rs:49-56 | Succeeds exactly when the input begins with `true` or `false`. `true` gives `Bool(true)` and consumes 4 characters, `false` gives `Bool(false)` and consumes 5, whatever follows. |
| Parser.ParseInt | src/parser.rs:58-61 | Succeeds exactly when a digit comes next. It consumes the longest run of digits, and the value is the run read as a decimal number. |
| Parser.ParseApp | src/parser.rs:63-75 | Progress for the application parser. The text it accepts is stated by `Productions.AppAccepts` and `Productions.AppDecomposes`. |
| Parser.ParseBraced | src/parser.rs:83-87 | Progress for the braced expression shared by conditionals and function literals. The text it accepts is stated by `Productions.BracedAccepts` and `Productions.BracedDecomposes`. |
| Parser.ParseIf | src/parser.rs:77-108 | Progress for the conditional parser. The text it accepts is stated by `Productions.IfAccepts` and `Productions.IfDecomposes`. |
| Parser.ParseFun | src/parser.rs:110-130 | Progress for the function-literal parser. The text it accepts is stated by `Productions.FunAccepts` and `Productions.FunDecomposes`. |
| ParserFacts.IdentifierAfterBoolFails | src/parser.rs:38-40 | When the boolean alternative fails and the identifier alternative succeeds, the word read does not begin with `true` or `false`. |
| ParserFacts.ParseExprWellFormed | src/parser.rs:32-42 | Every tree `parse_expr` builds is well formed: identifiers and function parameters are non-empty words of letters, and identifiers do not begin with `true` or `false`, at every depth. |
| ParserFacts.ParseAlternativesWellFormed | src/parser.rs:34-41 | Every alternative builds well-formed trees. |
| ParserFacts.ParseAppWellFormed | src/parser.rs:63-75 | Applications are built from well-formed trees. |
| ParserFacts.ParseBracedWellFormed | src/parser.rs:83-87 | A braced expression is a well-formed tree. |
| ParserFacts.ParseIfWellFormed | src/parser.rs:77-108 | Conditionals are built from well-formed trees. |
| ParserFacts.ParseFunWellFormed | src/parser.rs:110-130 | A function literal has a word parameter and a well-formed body. |
| ParserFacts.ParseAppShape | src/parser.rs:63-75 | A successful application starts with `(`, its text ends with `)`, and the tree is an `App`. |
| ParserFacts.ParseBracedShape | src/parser.rs:83-87 | A braced expression starts with `{` and its text ends with `}`. |
| ParserFacts.ParseIfShape | src/parser.rs:77-108 | A successful conditional starts with `if` and a whitespace character, its text ends with `}`, and the tree is an `If`. |
| ParserFacts.ParseFunShape | src/parser.rs:110-130 | A successful function literal starts with `fun` and a whitespace character, its text ends with `}`, and the tree is a `Fun`. |
| Precedence.Start | src/parser.rs:33 | The position after the leading whitespace: the end of the input or a non-whitespace character. |
| Precedence.SkipWhitespace | src/parser.rs:33 | Leading whitespace is skipped: starting anywhere inside it gives the same result as starting after it. |
| Precedence.TrueWins | src/parser.rs:34-41 | After the whitespace, `true` parses as `Bool(true)` ending 4 characters later, whatever follows it. |
| Precedence.FalseWins | src/parser.rs:34-41 | After the whitespace, `false` parses as `Bool(false)` ending 5 characters later, whatever follows it. |
| Precedence.FunWins | src/parser.rs:34-36 | When the function-literal alternative succeeds, its result is the result of `parse_expr`. |
| Precedence.IfWins | src/parser.rs:34-37 | When the conditional alternative succeeds, its result is the result of `parse_expr`. |
| Precedence.DigitWins | src/parser.rs:34-41 | After the whitespace, a digit makes `parse_expr` return exactly what the integer parser returns. |
| Precedence.ParenWins | src/parser.rs:34-41 | After the whitespace, `(` makes `parse_expr` return exactly what the application parser returns. |
| Precedence.WordCoversLetters | src/parser.rs:44-47 | A word of letters at the current position is a prefix of what the identifier parser reads, and the identifier parser does not stop inside it. |
| Precedence.KeywordIsWholeWord | src/parser.rs:44-47 | A word of letters followed by whitespace is exactly the identifier read. |
| Precedence.FunNeedsSpace | src/parser.rs:110-112 | The function-literal parser fails unless the word at the position is `fun` followed by whitespace. |
| Precedence.IfNeedsSpace | src/parser.rs:77-79 | The conditional parser fails unless the word at the position is `if` followed by whitespace. |
| Precedence.IdentifierIsNotBool | src/parser.rs:49-56 | The boolean parser fails on a word that can be an identifier. |
| Precedence.KeywordFallsBack | src/parser.rs:34-47 | A word that can be an identifier is parsed as one whenever the function-literal and conditional alternatives both fail there, including the words `fun` and `if`. |
| Precedence.IdentifierWins | src/parser.rs:34-47 | A word that can be an identifier is parsed as one, unless it is `fun` or `if` followed by whitespace. So `funx` and `iffy` are identifiers. |
| Precedence.ParseExprNeedsToken | src/parser.rs:32-42 | The failure condition: `parse_expr` fails when, after the whitespace, the input is empty or starts with something other than a letter, a digit or `(`. |
| Precedence.ParseExprSucceedsOnWord | src/parser.rs:32-47 | `parse_expr` succeeds when, after the whitespace, the input starts with a letter or a digit. |
| Precedence.TrueXIsBool | src/parser.rs:49-56 | `trueX` parses as `Bool(true)` with `X` left over. |
| Precedence.FunxIsIdentifier | src/parser.rs:44-47 | `funx` parses as the identifier `funx`. |
| Productions.GapEnd | src/parser.rs:65 | `multispace0` stops at the end of a run of whitespace that is followed by a non-whitespace character, and `multispace1` does too when the run is not empty. |
| Productions.SkippedGap | src/parser.rs:65 | What `multispace0` skips, when something follows it, is a run of whitespace followed by a non-whitespace character. |
| Productions.AfterWhitespace | src/parser.rs:33 | Running `parse_expr` after `multispace0` gives the same result as running it directly. |
| Productions.AppSteps | src/parser.rs:63-75 | `parse_app` builds `App(f, a)` when each of its steps succeeds where the previous one stopped. |
| Productions.AppAccepts | src/parser.rs:63-75 | `(`, the function, one or more whitespace characters, the argument, optional whitespace and `)` is read as `App(f, a)`, ending after the `)`, with any whitespace characters. |
| Productions.AppUnfolds | src/parser.rs:63-75 | A successful `parse_app` had each of its steps succeed where the previous one stopped. |
| Productions.AppDecomposes | src/parser.rs:63-75 | Every successful `parse_app` read text of that form. |
| Productions.BracedAccepts | src/parser.rs:83-87 | `{`, an expression, optional whitespace and `}` is read as that expression, ending after the `}`. |
| Productions.BracedDecomposes | src/parser.rs:83-87 | Every successful braced expression read text of that form. |
| Productions.IfSteps | src/parser.rs:77-108 | `parse_if` builds the `If` node when each of its steps succeeds where the previous one stopped. |
| Productions.IfAccepts | src/parser.rs:77-108 | `if`, one or more whitespace characters, the condition, optional whitespace, the braced branch, optional whitespace, `else`, optional whitespace and the braced alternative are read as `If(c, t, e)`. |
| Productions.IfUnfolds | src/parser.rs:77-108 | A successful `parse_if` had each of its steps succeed where the previous one stopped. |
| Productions.IfDecomposes | src/parser.rs:77-108 | Every successful `parse_if` read text of that form. |
| Productions.FunSteps | src/parser.rs:110-130 | `parse_fun` builds the `Fun` node when each of its steps succeeds where the previous one stopped. |
| Productions.FunAccepts | src/parser.rs:110-130 | `fun`, one or more whitespace characters, the parameter word, optional whitespace and the braced body are read as `Fun(x, b)`. |
| Productions.FunDecomposes | src/parser.rs:110-130 | Every successful `parse_fun` read text of that form. |
| Productions.WordAt | src/parser.rs:44-47 | A word followed by a non-letter is read whole by `alpha1` and by the identifier parser. |
| Productions.NoBodyAfterParameter | src/parser.rs:110-130 | In `(fun x)` the function-literal parser fails on `fun`, because no braced body follows `x`. |
| Productions.FunFallsBack | src/parser.rs:34-47 | In `(fun x)` the word `fun` is read as an identifier. |
| Productions.FunWithoutBody | src/parser.rs:63-75 | `(fun x)` is parsed as the identifier `fun` applied to the identifier `x`. |
| Printer.ParseShow | src/parser.rs:32-42 | Round trip: a printable tree printed at `k`, followed by a character that does not continue a word or number, is parsed back by `parse_expr`, which stops exactly where the printed text ends. |
| Printer.ParseShowApp | src/parser.rs:63-75 | The same round trip for `(f a)`: `(`, the function, one space, the argument, `)`. |
| Printer.ReadsApp | src/parser.rs:63-75 | In the printer's layout, `parse_expr` reads `(`, a function ending at `p`, one space, an argument ending at `q` and `)` as the application. |
| Printer.ParseShowBraced | src/parser.rs:83-87 | The same round trip for a printed tree between braces. |
| Printer.ReadsBraced | src/parser.rs:83-87 | In the printer's layout, the braced parser reads `{`, an expression and `}` with no whitespace inside. |
| Printer.IfParsed | src/parser.rs:77-108 | In the printer's layout, with one space between the parts, `parse_if` reads `if`, the condition, the braced branch, `else` and the braced alternative, and builds the `If` node from them. |
| Printer.ReadsIf | src/parser.rs:34-37 | The same text is what `parse_expr` returns. |
| Printer.ParseShowIf | src/parser.rs:77-108 | The same round trip for `if c {t} else {e}`. |
| Printer.ParseShowIfHead | src/parser.rs:77-87 | Given that its else-branch reads back, the condition and then-branch of a printed conditional read back too. |
| Printer.FunParsed | src/parser.rs:110-130 | In the printer's layout, with one space between the parts, `parse_fun` reads `fun`, the parameter word and the braced body, and builds the `Fun` node from them. |
| Printer.ReadsFun | src/parser.rs:34-36 | The same text is what `parse_expr` returns. |
| Printer.ParseShowFun | src/parser.rs:110-130 | The same round trip for `fun x {b}`. |
| Printer.NatToDecimal | src/parser.rs:60 | The printer's numeral for `n` is a non-empty run of digits whose decimal value is `n`. |
| Printer.ParseShowInt | src/parser.rs:58-61 | A printed numeral, not followed by a digit, reads back as the same number. |
| Printer.ParseShowBool | src/parser.rs:49-56 | Printed `true` and `false` read back as the same literal. |
| Printer.ParseShowId | src/parser.rs:44-47 | A printed identifier, not followed by a letter, reads back as the same identifier. |
| Printer.RoundTrip | src/parser.rs:32-42 | `parse_expr` applied to the printed text of a printable tree, followed by anything that does not continue a word or number, returns the tree and stops at the end of the printed text. |
| Typing.TypingExpr | src/typing.rs:10-16 | The result is always `Bool` or `Int`, never a function type or a type variable. It is `Bool` exactly for boolean literals, and `Int` for integer literals. |
| Typing.TypingIf | src/typing.rs:18-20 | Always `Int`, whatever the argument. |
| Typing.TypingIfAgrees | src/typing.rs:14 | On a conditional, `typing_if` and `typing_expr` agree, and neither gives `Bool`. |
| Typing.ParsedTextIsBool | src/typing.rs:13 | Parsed text is typed `Bool` exactly when, after the whitespace, it begins with `true` or `false`. |
| Typing.ParsedDigitsAreInt | src/typing.rs:12 | Text that begins with a digit after the whitespace parses as an integer literal typed `Int`. |

## Left out

- src/main.rs, the driver that parses one fixed string and prints the result, is not part of this model: it is only I/O.
- The error values of `nom`, which carry an error kind and the remaining input, are modelled as `None`. Every alternative fails without consuming input, so `alt` only needs to know whether an alternative failed.
- ParseInt: in the source the value is a `u64`, and a numeral of 2^64 or more makes `parse().unwrap()` panic. The model gives `Int` an unbounded natural number and returns that numeral's value.
- Multispace0 and Multispace1 keep only the position where the whitespace ends. Every call site discards the matched text.
- `Box` and the derived `Debug` formatting of the syntax tree carry no behaviour and are not modelled.
- Printer.ParseShow and Printer.RoundTrip cover only the layout the printer writes: single spaces, and none inside braces or parentheses. They exclude identifiers spelled `fun` or `if`. Each production is characterised for every other layout by the `Productions` lemmas, and the identifiers `fun` and `if` by Precedence.KeywordFallsBack. No round-trip lemma covers other layouts.
- Typing: the Hindley–Milner inference engine is not in the code. Constraint generation, substitution, unification and the occurs check therefore have no model.
- Letters, digits and whitespace are the ASCII classes that `alpha1`, `digit1` and `multispace0`/`multispace1` accept on `&str` input. Whitespace is space, tab, carriage return and line feed.
