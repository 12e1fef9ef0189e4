# Mathematical expression analyser: a Dafny model of its core

The analyser reads one-line arithmetic expressions over integers, single-letter variables and the
functions `sin`, `cos`, `tan`, `ln` and `sqrt`. It decides whether two expressions are equivalent
by reducing both to polynomials. The pipeline has four stages, and this project models each one:

- **Lexer** (`lexer.dfy`, `lexer_facts.dfy`): the character scanner. The `Lexer` class keeps the
  scanner's cursor and token list as fields. A second pass inserts `IMPLICIT_MULTIPLY` tokens,
  following the adjacency table. Both passes are specified by recursive functions (`Scan`,
  `InsertImplicit`, `Lex`), and the class methods are proved to compute them.
- **AST** (`ast.dfy`): the five node classes as one datatype `Expr`, with their field-wise equality.
- **Parser** (`parser.dfy`, `parser_facts.dfy`): precedence climbing over the token list with a
  mutable cursor. The `Parser` class holds the cursor, and its mutually recursive methods are proved
  to compute the functions `ExprAt` … `PrimaryAt`. These functions take the cursor position and
  return the tree and the new position, or the error that was raised.
- **Polynomial normaliser** (`polynomial.dfy`, `polynomial_facts.dfy`):
  - A polynomial is a map from monomials to non-zero coefficients.
  - A monomial is a map from symbols to positive powers.
  - A symbol is a variable or an atom. An atom is a subexpression the normaliser does not expand,
    known only by its fully parenthesised text.
  - The methods follow the dictionary loops of `__add__`, `__sub__`, `__mul__` and
    `_combine_monomials`, and are proved equal to the specification functions `Sum`, `Difference`,
    `Product` and `Combine`.
  - `PolynomialAlgebra` proves the ring laws these operations satisfy.
- **Equivalence** (`equality.dfy`): normalise both sides and compare the maps. A failure to
  normalise answers false. The laws the comparison recognises are proved about expression trees,
  and so are the cases it does not identify.

Supporting modules: `Wrappers` (`Option` and `Result`; every `ValueError` becomes an `Err`),
`Numerals` (Python's `int()` of a digit run and `str()` of an int) and `Seqs` (two sequence facts).

Where the code and the program's own docstrings, comments and tests disagree, the model follows
the code:
- `--x` parses, as `0-(-x)`. The test at test_boundary_cases.py:628-631 expects a `ValueError`.
- `xy` and `sinx` are lexical errors, not implicit products. The docstring at lexer.py:121-122 and
  the test at test_boundary_cases.py:165-167 expect products.
- A power with exponent 2 or 3 is multiplied out without checking that its base is expandable.
  The comment at polynomial.py:217 says the base must be expandable.
- `equality.py` has only the polynomial stage. The tests at test_boundary_cases.py:751-761 expect
  `sin(x+y) ≡ sin(y+x)` and `x/x ≡ 1`, which need structural and rational stages.
- `check_equivalence_verbose` returns `(bool, poly1, poly2)`. The caller at test.py:201 unpacks
  a method name and details from it instead.

## Model

| member | source | states |
|---|---|---|
| `Ast.NodeEqIsIdentity` | ast_nodes.py:27-97 | Field-wise node equality holds exactly when the two trees are equal. It needs the same class, equal numbers, names, operators and function names, and equal children compared recursively. |
| `Ast.NodeEqReflexiveSymmetric` | ast_nodes.py:27-97 | Node equality is reflexive and symmetric over all trees. |
| `Ast.NodeEq` | ast_nodes.py:27-97 | Every tree is equal to itself. Equal nodes are of the same class, so nodes of different classes are never equal. |
| `Ast.BinOpEqNotCommutative` | ast_nodes.py:61-65 | `BinOp(x,op,y)` equals `BinOp(y,op,x)` only when `x == y`: equality knows no commutativity. |
| `Numerals.NatToString` | lexer.py:97 | `str(n)` of a natural is a non-empty digit string without a leading zero, and `int()` reads `n` back from it. |
| `Numerals.IntToString` | polynomial.py:161-162 | `str(n)` is all digits exactly when `n >= 0`; a negative value prints as `-` followed by the numeral of its magnitude. |
| `Numerals.IntToStringInjective` | polynomial.py:161-162 | Distinct integers print differently, so distinct constants give distinct atom texts. |
| `Lexing.SkipSpaces` | lexer.py:87-90 | Whitespace skipping stops at the first non-blank character or at the end; everything it passes over is blank. |
| `Lexing.DigitRunEnd` | lexer.py:92-96 | The number reader stops at the end of the maximal digit run. |
| `Lexing.LetterRunEnd` | lexer.py:100-104 | The identifier reader stops at the end of the maximal letter run. |
| `Lexing.TokenAt` | lexer.py:51-82 | A token read at a non-blank position starts there and consumes at least one character. |
| `Lexing.TokenAtWellFormed` | lexer.py:53-80 | Each scanned token carries the value its kind requires, and the scanner never produces EOF or IMPLICIT_MULTIPLY. |
| `Lexing.Scan` | lexer.py:43-85 | A successful scan ends with the EOF token, placed at the input length. |
| `Lexing.ScanAfterSpaces` | lexer.py:46 | Leading whitespace does not change the scan. |
| `Lexing.ScanShape` | lexer.py:43-84 | A successful scan ends with exactly one EOF token, at the input length. Every other token is neither EOF nor IMPLICIT_MULTIPLY, and all values are well formed. |
| `Lexing.InsertImplicit` | lexer.py:124-155 | The insertion pass never shortens the list, and it keeps the last token (EOF) last. |
| `Lexing.Lex` | lexer.py:158-161 | `tokenize` succeeds exactly when the scan does, and fails with the scan's error. A success ends with EOF at the input length. |
| `Lexing.Lexer.constructor` | lexer.py:38-41 | A new lexer starts at position 0 with no tokens. |
| `Lexing.Lexer.SkipWhitespace` | lexer.py:87-90 | Moves the cursor to where `SkipSpaces` stops; the token list is unchanged. |
| `Lexing.Lexer.ReadNumber` | lexer.py:92-98 | Moves past the maximal digit run and appends one NUMBER token. Its value is the run's decimal value and its position is the run's start. |
| `Lexing.Lexer.ReadIdentifier` | lexer.py:100-114 | Moves past the maximal letter run. It appends FUNCTION for the five names and VARIABLE for one letter; any other run returns the invalid-identifier error and appends nothing. |
| `Lexing.Lexer.Tokenize` | lexer.py:43-85 | Scanning from the cursor appends exactly the tokens `Scan` gives and EOF, then returns the insertion pass over the whole list; otherwise it returns `Scan`'s error. |
| `Lexing.Lexer.HandleImplicitMultiplication` | lexer.py:116-155 | The for loop builds exactly `InsertImplicit` of the token list. |
| `Lexing.Tokenize` | lexer.py:158-161 | `tokenize(expression)` returns `Lex(expression)`: both passes, or the scanner's error. |
| `LexingFacts.TokenAtMatchesText` | lexer.py:92-114 | A token read at a run boundary matches the text. A number is the maximal digit run read in decimal. A name is FUNCTION exactly when it is a function name, and otherwise one letter. An operator is its own character. |
| `LexingFacts.ScanMatchesText` | lexer.py:43-114 | Every token of a successful scan before EOF matches the text, and token positions strictly increase. |
| `LexingFacts.ScanSkipsSpace` | lexer.py:87-90 | A whitespace character never produces a token: the scan from it equals the scan from the next position. |
| `LexingFacts.IllegalCharFails` | lexer.py:81-82 | A character outside digits, letters, whitespace and `+-*/^()` makes every scan that reaches it fail. |
| `LexingFacts.ScanErrorMatchesText` | lexer.py:81-114 | Every scan error points into the text. An unexpected character is an illegal character at its position. An invalid identifier is a whole maximal letter run of length at least 2 that is not a function name. |
| `LexingFacts.RemoveImplicit` | lexer.py:124-155 | Deleting IMPLICIT_MULTIPLY tokens leaves none. |
| `LexingFacts.RemoveInserted` | lexer.py:124-155 | The insertion pass only adds tokens: deleting the inserted ones gives back its input. |
| `LexingFacts.InsertImplicitProper` | lexer.py:136-153 | An IMPLICIT_MULTIPLY stands between two adjacent input tokens exactly when the adjacency table asks for one. It carries `'*'` and sits at `prev.pos + len(str(prev.value))`, or `prev.pos + 1` when the value is falsy. |
| `LexingFacts.InsertImplicitKeepsEofLast` | lexer.py:124-155 | The insertion pass puts no EOF before the last position. |
| `LexingFacts.InsertImplicitKeepsWellFormed` | lexer.py:150-153 | Inserted tokens are well formed, so every token keeps the value its kind requires. |
| `LexingFacts.LexErrors` | lexer.py:81-85 | `tokenize` fails exactly when the scan fails, with the scan's error, and the error matches the text. |
| `LexingFacts.LexEndsWithEof` | lexer.py:84 | A successful `tokenize` ends with one EOF token at the input length, has no other EOF, and all values are well formed. |
| `LexingFacts.LexInsertsImplicit` | lexer.py:124-155 | In `tokenize`'s output, implicit multiplications stand exactly where the table puts them. Deleting them gives the raw scan, which is read from the text in order. |
| `LexingFacts.Kinds` | lexer.py:26-30 | The kind sequence of a token list, position by position. |
| `LexingFacts.LexEmpty` | lexer.py:84 | The empty input gives just `[EOF]` at position 0. |
| `LexingFacts.LexRejectsDecimalPoint` | lexer.py:81-82 | `3.14` fails with an unexpected `.` at position 1. |
| `LexingFacts.LexRejectsLetterPair` | lexer.py:111-114 | `xy` fails as an invalid identifier at position 0. |
| `LexingFacts.LexSeparatedLetters` | lexer.py:141-153 | `x y` gives VARIABLE, IMPLICIT_MULTIPLY at 1, VARIABLE, EOF. |
| `LexingFacts.LexNumberBeforeLetter` | lexer.py:136-153 | `2x` gives NUMBER 2, IMPLICIT_MULTIPLY at 1, VARIABLE x, EOF. |
| `LexingFacts.LexBlanksAroundOperator` | lexer.py:87-90 | `x+y`, `x + y` and `x  +  y` give the same kind sequence; only positions differ. |
| `Parsing.ExprAt` | parser.py:62-79 | The expression level consumes at least one token and stops before the end of the list. |
| `Parsing.ExprTailAt` | parser.py:74-77 | The `+`/`-` loop never moves the cursor backwards or past EOF. |
| `Parsing.UnaryAt` | parser.py:118-129 | The unary level consumes at least one token. |
| `Parsing.TermAt` | parser.py:81-91 | The term level consumes at least one token. |
| `Parsing.TermTailAt` | parser.py:85-89 | The `*`/`/` loop never moves the cursor backwards or past EOF. |
| `Parsing.PowerAt` | parser.py:93-104 | The power level consumes at least one token. |
| `Parsing.FunctionAt` | parser.py:106-116 | The function level consumes at least one token. |
| `Parsing.PrimaryAt` | parser.py:131-152 | The primary level consumes at least one token. |
| `Parsing.ParseAt` | parser.py:30-37 | `parse` succeeds exactly when the expression parse succeeds and stops at EOF, and then returns that tree. A leftover token gives the unexpected-token error for that token. An error inside the expression is passed on unchanged. |
| `Parsing.ParseText` | parser.py:155-159 | `parse(expression)` fails with the lexer's error exactly when `tokenize` fails. A parser error can only follow a successful `tokenize`. |
| `Parsing.WellFormedIsTyped` | parser.py:136-143 | Every token the lexer produces has the value type the parser reads from it. |
| `Parsing.LexParsable` | parser.py:155-159 | The lexer's output is a token list the parser can work on: it ends with EOF and its values are typed. |
| `Parsing.Parser.constructor` | parser.py:26-28 | A new parser starts at position 0 over the given tokens. |
| `Parsing.Parser.CurrentToken` | parser.py:39-43 | The token under the cursor, or the last token once the cursor is past the end. |
| `Parsing.Parser.Consume` | parser.py:52-60 | When an expected kind does not match, returns the error and leaves the cursor. Otherwise returns the current token and advances by one. |
| `Parsing.Parser.Parse` | parser.py:30-37 | Computes `ParseAt` from the cursor: an expression only when the token after it is EOF, and the error for any leftover token. When the expression parses, the cursor ends just after it. |
| `Parsing.Parser.ParseExpression` | parser.py:62-79 | Computes `ExprAt` from the cursor and leaves the cursor after it. A leading minus gives `0 - operand`; `+`/`-` fold to the left. |
| `Parsing.Parser.ParseUnary` | parser.py:118-129 | Computes `UnaryAt`: a minus negates a whole term. |
| `Parsing.Parser.ParseTerm` | parser.py:81-91 | Computes `TermAt`: `*`, implicit `*` and `/` fold to the left, with IMPLICIT_MULTIPLY written as `*`. |
| `Parsing.Parser.ParsePower` | parser.py:93-104 | Computes `PowerAt`: `^` takes a whole power on its right. |
| `Parsing.Parser.ParseFunction` | parser.py:106-116 | Computes `FunctionAt`: a function name applies to one primary. |
| `Parsing.Parser.ParsePrimary` | parser.py:131-152 | Computes `PrimaryAt`: a number, a variable, or a parenthesised expression that must be closed by `)`. |
| `Parsing.Parse` | parser.py:155-159 | `parse(expression)` returns `ParseText(expression)`: the lexer's error, the parser's error, or the tree. |
| `ParsingFacts.ParseTextShape` | parser.py:62-152 | Every parsed tree has non-negative numbers and one-letter variables. Functions are the five names, unary nodes are `-`, and binary operators are `+ - * / ^`. |
| `ParsingFacts.NoPrimaryStart` | parser.py:131-152 | A token that cannot begin a primary makes every level fail on it; below the expression level, minus is no exception. |
| `ParsingFacts.DoubleMinus` | parser.py:65-70 | `--t` at the start of an expression is `0 - (-t)`, with `t` a whole term. |
| `ParsingFacts.TripleMinus` | parser.py:118-129 | `---t` at the start of an expression is rejected at the third minus. |
| `ParsingFacts.MinusAfterOperator` | parser.py:74-77 | After a binary `+` or `-`, a minus gives `UnaryOp('-', t)` with `t` a whole term. |
| `ParsingFacts.PowerBindsTighterShape` | parser.py:81-104 | For any power `a`, function-level operand `b` and power `c`, and any of `*`, implicit `*` and `/`: the term `a op b^c` is `a op (b^c)`, with an implicit `*` written `*`. |
| `ParsingFacts.PowerGroupsRightShape` | parser.py:93-104 | For any three function-level operands, the power `a^b^c` is `a^(b^c)`. |
| `ParsingFacts.SumGroupsLeftShape` | parser.py:62-79 | For any three unary operands and any two of `+` and `-`, the loop folds `a±b±c` to `(a±b)±c`. Without a leading minus, that is the whole expression. |
| `ParsingFacts.ProductGroupsLeftShape` | parser.py:81-91 | For any three powers and any two of `*`, implicit `*` and `/`, the term `a op b op c` is `(a op b) op c`, with an implicit `*` written `*`. |
| `ParsingFacts.FunctionTakesPrimaryShape` | parser.py:93-116 | A function name applies to the one primary after it, whatever that primary is. A `^` after it raises the whole call. With no `^`, `*`, `/` or implicit `*` after it, the call is a whole unary operand. |
| `ParsingFacts.ParseConsumesAll` | parser.py:30-37 | A successful `parse` of a text reads its whole token list: the expression ends at the one EOF token. |
| `ParsingFacts.NestedMinusShape` | parser.py:118-127 | `a - -b*c` parses as `a - (-(b*c))`. |
| `ParsingFacts.ExtraParenShape` | parser.py:30-37 | `(a±b))` is rejected at the leftover `)`. |
| `ParsingFacts.UnclosedGroupShape` | parser.py:52-57 | `((a±b)` is rejected: `consume` expected `)` and found EOF. |
| `ParsingFacts.PowerGroupsRight` | parser.py:93-102 | The tokens of `x^2^3` parse to `x^(2^3)`. |
| `ParsingFacts.PowerBindsTighter` | parser.py:93-102 | The tokens of `2*x^2` parse to `2*(x^2)`. |
| `ParsingFacts.SumGroupsLeft` | parser.py:74-77 | The tokens of `x-y+z` parse to `(x-y)+z`. |
| `ParsingFacts.ProductGroupsLeft` | parser.py:85-89 | The tokens of `x/y*z` parse to `(x/y)*z`. |
| `ParsingFacts.ImplicitIsTimes` | parser.py:85-89 | The tokens of `2x` parse to `2*x`. |
| `ParsingFacts.FunctionTakesPrimary` | parser.py:106-116 | The tokens of `sin x+y` parse to `sin(x)+y`. |
| `ParsingFacts.FunctionBeforePower` | parser.py:93-116 | The tokens of `sin x^2` parse to `(sin x)^2`. |
| `ParsingFacts.DoubleMinusExample` | parser.py:65-70 | The tokens of `--x` parse to `0-(-x)`. |
| `ParsingFacts.TripleMinusExample` | parser.py:118-129 | The tokens of `---x` are rejected at the third minus. |
| `ParsingFacts.NestedMinusExample` | parser.py:118-127 | The tokens of `a - -x*y` parse to `a - (-(x*y))`. |
| `ParsingFacts.ExtraParenRejected` | parser.py:30-37 | The tokens of `(x+1))` are rejected at the second `)`. |
| `ParsingFacts.ExtraNumberRejected` | parser.py:30-37 | The tokens of `2 3` are rejected at the `3`. |
| `ParsingFacts.EmptyGroupRejected` | parser.py:131-152 | The tokens of `()` are rejected: `)` is no primary. |
| `ParsingFacts.UnaryPlusRejected` | parser.py:131-152 | The tokens of `+x` are rejected: there is no unary plus. |
| `ParsingFacts.NegativeExponentRejected` | parser.py:93-102 | The tokens of `x^-2` are rejected at the minus. |
| `ParsingFacts.MissingOperandRejected` | parser.py:131-152 | The tokens of `x +` are rejected at EOF. |
| `ParsingFacts.LeadingTimesRejected` | parser.py:131-152 | The tokens of `* x` are rejected at `*`. |
| `ParsingFacts.UnclosedGroupRejected` | parser.py:52-57 | The tokens of `((x+1)` are rejected: `)` expected, EOF found. |
| `ParsingFacts.ParseNumberBeforeLetter` | parser.py:155-159 | `parse("2x")` is `2*x`. |
| `ParsingFacts.ParseSeparatedLetters` | parser.py:155-159 | `parse("x y")` is `x*y`. |
| `ParsingFacts.ParseBlanksAroundOperator` | parser.py:155-159 | `parse` gives the same tree `x+y` for `x+y`, `x + y` and `x  +  y`. |
| `ParsingFacts.ParseEmptyRejected` | parser.py:131-152 | `parse("")` fails in the parser: EOF is no primary. |
| `ParsingFacts.ParseLexerErrors` | parser.py:155-159 | `parse("3.14")` and `parse("xy")` fail with the lexer's errors. |
| `Polynomials.Prune` | polynomial.py:64-66 | Normalising keeps every non-zero coefficient and drops exactly the zero ones. |
| `Polynomials.AddRaw` | polynomial.py:107-109 | The dictionary built by `__add__` holds, at every monomial, the sum of the two coefficients. |
| `Polynomials.SubRaw` | polynomial.py:114-116 | The dictionary built by `__sub__` holds, at every monomial, the difference of the two coefficients. |
| `Polynomials.Sum` | polynomial.py:105-110 | `p + q` has no zero coefficient and merges the coefficients per monomial. |
| `Polynomials.Difference` | polynomial.py:112-117 | `p - q` has no zero coefficient and subtracts the coefficients per monomial. |
| `Polynomials.Negate` | polynomial.py:142-144 | `-p` has no zero coefficient and negates every coefficient. |
| `Polynomials.Add` | polynomial.py:105-110 | `__add__` computes `Sum`. |
| `Polynomials.AddTerms` | polynomial.py:107-109 | The copy-and-update loop of `__add__` builds `AddRaw`. |
| `Polynomials.Subtract` | polynomial.py:112-117 | `__sub__` computes `Difference`. |
| `Polynomials.SubtractTerms` | polynomial.py:114-116 | The copy-and-update loop of `__sub__` builds `SubRaw`. |
| `Polynomials.Combine` | polynomial.py:131-140 | The product of two monomials contains the union of their symbols; each power is the sum of the two powers. Positive powers stay positive. |
| `Polynomials.CombineMonomials` | polynomial.py:131-140 | The two loops of `_combine_monomials` compute `Combine`. |
| `Polynomials.MulTermRaw` | polynomial.py:123-127 | The inner loop's contribution of one term has only valid monomials. |
| `Polynomials.ProductRaw` | polynomial.py:121-127 | The nested loops' dictionary has only valid monomials. |
| `Polynomials.Product` | polynomial.py:119-128 | `p * q` has no zero coefficient. |
| `Polynomials.MultiplyTerm` | polynomial.py:123-127 | The inner loop of `__mul__` adds `c1*c2` at `m1*m2` for every term of `q`. |
| `Polynomials.MultiplyTerms` | polynomial.py:121-127 | The nested loops of `__mul__` build `ProductRaw`. |
| `Polynomials.Multiply` | polynomial.py:119-128 | `__mul__` computes `Product`. |
| `Polynomials.Power` | polynomial.py:218-223 | Repeated self-multiplication of a polynomial has no zero coefficient. |
| `Polynomials.Constant` | polynomial.py:184-188 | The constant `n` has coefficient `n` at the empty monomial and nothing else; `0` is the empty polynomial. |
| `Polynomials.SymbolPoly` | polynomial.py:190-192 | A variable or atom is the single monomial `{s: 1}` with coefficient 1. |
| `Polynomials.IsExpandable` | polynomial.py:147-156 | Every tree `is_expandable` accepts normalises without error. |
| `Polynomials.AstToString` | polynomial.py:159-176 | The text of a binary or unary node is wrapped in parentheses. |
| `Polynomials.AtomOf` | polynomial.py:226-243 | An atom's polynomial is a valid polynomial. |
| `Polynomials.Expand` | polynomial.py:179-246 | A successful expansion has no zero coefficient and only positive powers. |
| `Polynomials.ExpandToPolynomial` | polynomial.py:179-246 | The recursion, including the power loop, computes `Expand`. |
| `Polynomials.NormalizeExpression` | polynomial.py:249-254 | `normalize_expression` computes `Expand`. |
| `PolynomialAlgebra.PruneIdempotent` | polynomial.py:64-66 | Normalising an already-normalised polynomial changes nothing. |
| `PolynomialAlgebra.PolyUnique` | polynomial.py:100-103 | Two normalised polynomials with the same coefficients are the same map. |
| `PolynomialAlgebra.CombineComm` | polynomial.py:131-140 | Monomial multiplication is commutative. |
| `PolynomialAlgebra.CombineAssoc` | polynomial.py:131-140 | Monomial multiplication is associative. |
| `PolynomialAlgebra.SumComm` | polynomial.py:105-110 | `p + q == q + p`. |
| `PolynomialAlgebra.SumAssoc` | polynomial.py:105-110 | `(p + q) + r == p + (q + r)`. |
| `PolynomialAlgebra.SumZero` | polynomial.py:105-110 | `p + 0 == p == 0 + p`. |
| `PolynomialAlgebra.NegateNegate` | polynomial.py:142-144 | `-(-p) == p`. |
| `PolynomialAlgebra.SumNegate` | polynomial.py:142-144 | `p + (-p)` is the empty polynomial. |
| `PolynomialAlgebra.DifferenceIsSumNegate` | polynomial.py:112-117 | `p - q == p + (-q)`. |
| `PolynomialAlgebra.DifferenceSelf` | polynomial.py:112-117 | `p - p` is the empty polynomial. |
| `PolynomialAlgebra.ProductComm` | polynomial.py:119-128 | `p * q == q * p`. |
| `PolynomialAlgebra.ProductAssoc` | polynomial.py:119-128 | `(p * q) * r == p * (q * r)`. |
| `PolynomialAlgebra.ProductDistrib` | polynomial.py:119-128 | `p * (q + r) == p*q + p*r`. |
| `PolynomialAlgebra.ProductDistribLeft` | polynomial.py:119-128 | `(p + q) * r == p*r + q*r`. |
| `PolynomialAlgebra.ProductOne` | polynomial.py:119-128 | The constant 1 is a unit for multiplication on both sides. |
| `PolynomialAlgebra.ProductZero` | polynomial.py:119-128 | The empty polynomial annihilates on both sides. |
| `PolynomialAlgebra.SquareOfSum` | polynomial.py:218-223 | `(p + 1)*(p + 1) == p*p + 2*p + 1`. |
| `PolynomialAlgebra.OperationsVarsOnly` | polynomial.py:105-144 | Sum, difference, negation and product of atom-free polynomials are atom-free. |
| `Equivalence.Equivalent` | equality.py:21-29 | A tree that fails to normalise is equivalent to nothing. |
| `Equivalence.AreEquivalent` | equality.py:10-29 | Returns true exactly when both sides normalise to the same map; a normalisation failure gives false. |
| `Equivalence.CheckEquivalenceVerbose` | equality.py:32-48 | Returns the same answer as `are_equivalent` together with both polynomials, or `(false, None, None)` when normalisation fails. |
| `Equivalence.EquivalentReflexive` | equality.py:21-26 | A tree is equivalent to itself exactly when it normalises. |
| `Equivalence.EquivalentSymmetric` | equality.py:21-26 | Equivalence is symmetric. |
| `Equivalence.EquivalentTransitive` | equality.py:21-26 | Equivalence is transitive. |
| `Equivalence.ParsedExpands` | polynomial.py:179-246 | Every tree of the parser's shape normalises without error. |
| `Equivalence.ParsedNeverFails` | equality.py:21-29 | For two parsed texts, normalisation never fails, and equivalence is exactly equality of their polynomials. |
| `Equivalence.ExpandableHasNoAtoms` | polynomial.py:147-156 | A tree `is_expandable` accepts normalises to a polynomial with no atom. |
| `Equivalence.UnsupportedOperators` | polynomial.py:194-237 | An unknown unary or binary operator is an error, and an error in an operand makes the whole sum fail. |
| `Equivalence.ExpandArith` | polynomial.py:200-214 | `+`, `-` and `*` normalise the left side, then the right, and combine the results with `Sum`, `Difference` or `Product`. |
| `Equivalence.ExpandArithOk` | polynomial.py:200-214 | A `+`, `-` or `*` node normalises exactly when both sides do. |
| `Equivalence.ExpandNegation` | polynomial.py:194-196 | Unary minus negates its operand's polynomial. |
| `Equivalence.ExpandPower` | polynomial.py:216-223 | Exponent 2 or 3 multiplies out the base, with no check that the base is expandable. |
| `Equivalence.ExpandAtom` | polynomial.py:224-234 | A quotient, or a power with any other exponent, is one atom named by its text. |
| `Equivalence.AtomsCompareByText` | polynomial.py:26-30 | Two quotients or calls are equivalent exactly when their texts are equal. |
| `Equivalence.SumCommutes` | equality.py:21-26 | `a + b ≡ b + a` whenever both sides normalise. |
| `Equivalence.ProductCommutes` | equality.py:21-26 | `a * b ≡ b * a`. |
| `Equivalence.SumAssociates` | equality.py:21-26 | `(a + b) + c ≡ a + (b + c)`. |
| `Equivalence.ProductAssociates` | equality.py:21-26 | `(a * b) * c ≡ a * (b * c)`. |
| `Equivalence.ProductDistributes` | equality.py:21-26 | `a * (b + c) ≡ a*b + a*c`. |
| `Equivalence.AddZeroIdentity` | equality.py:21-26 | `a + 0 ≡ a`. |
| `Equivalence.MulOneIdentity` | equality.py:21-26 | `a * 1 ≡ a`. |
| `Equivalence.MulZeroAnnihilates` | equality.py:21-26 | `a * 0 ≡ 0`. |
| `Equivalence.SubtractSelf` | equality.py:21-26 | `a - a ≡ 0`. |
| `Equivalence.NegationIsSubtraction` | polynomial.py:194-209 | `-a ≡ 0 - a`, so the parser's two minus forms normalise alike. |
| `Equivalence.SquareOfSumExpands` | polynomial.py:216-223 | `(a + 1)^2 ≡ a^2 + 2*a + 1`. |
| `Equivalence.DifferenceNotCommutative` | equality.py:21-26 | `x - y` and `y - x` are not equivalent. |
| `Equivalence.QuotientNotCommutative` | polynomial.py:230-234 | `x / y` and `y / x` are different atoms, so they are not equivalent. |
| `Equivalence.FourthPowerIsAtom` | polynomial.py:216-228 | `(x+1)^4` is the single atom `((x+1)^4)`. |
| `Equivalence.BaseCases` | polynomial.py:184-192 | `0` is the empty polynomial, `n` is `{∅: n}`, and `v` is `{{v: 1}: 1}`. |

## Left out

- `print_ast` and the `__repr__` methods: they only print.
- `Polynomial.__repr__`, `_format_monomial` and the ordering methods of `AtomicExpr` (`__lt__`,
  `__le__`, `__gt__`, `__ge__`): they only render polynomials as text. Their sort key is Python's
  `str()` of frozenset items, which the model does not reproduce.
- The process-wide `AtomicExpr._counter`, the `id` it assigns, the unused `_cache`, and the `node`
  field of an atom: they are debug labels that equality and hashing ignore. An atom is modelled by
  its text alone (`Symbol.Atom`).
- `Parser.peek_token`: nothing in the parser calls it.
- The `print` in the error branch of `are_equivalent` and `check_equivalence_verbose`: console output.
- Exceptions other than the analyser's own `ValueError`s (recursion depth, memory): the model's
  recursion is unbounded.
- Python's limit on integer-string conversion: `int()` and `str()` raise `ValueError` for more
  than 4300 digits (lexer.py:97, polynomial.py:162). `Lexing.TokenAt`, `Lexing.Lexer.ReadNumber`
  and `Polynomials.AstToString` read and print numbers of any length.
- Character classes are ASCII only. `isdigit`, `isalpha` and `isspace` on non-ASCII characters are
  not modelled; `isspace` includes the separators 0x1C to 0x1F.
- The Python iteration order of dictionaries and frozensets. The loops pick entries in an
  unspecified order, and the results are proved independent of it.
- Executable polynomial products in the specification: the product is defined by picking
  dictionary entries in an arbitrary order, so the functions for products, powers and expansion
  are ghost. The methods `Multiply` and `ExpandToPolynomial` are their executable counterparts.
- Parsing.ExprAt, Parsing.UnaryAt, Parsing.TermAt, Parsing.PowerAt, Parsing.FunctionAt,
  Parsing.PrimaryAt, Parsing.ExprTailAt, Parsing.TermTailAt: their own contracts state only
  how the cursor moves. What the trees are is stated by the lemmas of `ParsingFacts`.
- Monomials are maps from symbols to powers, not sets of (symbol, power) pairs. The two agree for
  every monomial the code builds, since no symbol occurs twice in one.
- The tests of structural and rational equivalence (`sin(x+y) ≡ sin(y+x)`, `x/x ≡ 1`): the
  equivalence module has no such stages, and `are_equivalent` answers false for them.
