/**
 * The recursive-descent parser. Precedence, from loosest to tightest: `+`/`-`, unary minus,
 * `*`/`/` (explicit or implicit), `^` (right-associative), function application, primaries.
 *
 * The functions `ExprAt` .. `PrimaryAt` specify the parsing routines on a token list and a
 * cursor position; each returns the tree and the position after it, or the error raised. The
 * `Parser` class keeps the token list and the cursor as fields, and its methods are proved to
 * compute those functions.
 */
module Parsing {
  import opened Wrappers
  import opened Ast
  import opened Lexing
  import LexingFacts

  /** The three `ValueError`s the parser raises. */
  datatype ParseError =
    | UnexpectedToken(token: Token)
    | ExpectedKind(expected: TokenType, got: TokenType)
    | UnexpectedInPrimary(token: Token)

  /** The value type the parser relies on for each kind: an int in a number, a string in a name or an operator. */
  predicate TypedValue(t: Token) {
    && (t.kind == TokenType.Number ==> t.value.IntVal?)
    && (t.kind in {TokenType.Variable, Function, Plus, Minus, Multiply, Divide, Power} ==> t.value.StrVal?)
  }

  /** A token list the parser can work on: it ends with EOF, and values have the types above. */
  predicate Parsable(ts: seq<Token>) {
    && |ts| > 0
    && ts[|ts| - 1].kind == Eof
    && forall k | 0 <= k < |ts| :: TypedValue(ts[k])
  }

  type Parsed = Result<(Expr, nat), ParseError>

  // ---------------------------------------------------------------------------------------------
  // The parsing routines as functions of the token list and the cursor

  /**
   * `_parse_expression`: a leading minus makes `0 - operand`, with the operand parsed at the
   * unary level; then `+` and `-` fold to the left.
   */
  function ExprAt(ts: seq<Token>, i: nat): (r: Parsed)
    requires Parsable(ts) && i < |ts|
    ensures r.Ok? ==> i < r.value.1 < |ts|
    decreases |ts| - i, 7
  {
    if ts[i].kind == Minus then
      match UnaryAt(ts, i + 1)
      case Ok((right, j)) => ExprTailAt(ts, j, BinOp(Expr.Number(0), "-", right))
      case Err(e) => Err(e)
    else
      match UnaryAt(ts, i)
      case Ok((left, j)) => ExprTailAt(ts, j, left)
      case Err(e) => Err(e)
  }

  /** The `while` loop of `_parse_expression`, with `left` built so far and the cursor at `j`. */
  function ExprTailAt(ts: seq<Token>, j: nat, left: Expr): (r: Parsed)
    requires Parsable(ts) && j < |ts|
    ensures r.Ok? ==> j <= r.value.1 < |ts|
    decreases |ts| - j, 6
  {
    if ts[j].kind == Plus || ts[j].kind == Minus then
      match UnaryAt(ts, j + 1)
      case Ok((right, k)) => ExprTailAt(ts, k, BinOp(left, ts[j].value.s, right))
      case Err(e) => Err(e)
    else
      Ok((left, j))
  }

  /** `_parse_unary`: a minus negates a whole term. */
  function UnaryAt(ts: seq<Token>, i: nat): (r: Parsed)
    requires Parsable(ts) && i < |ts|
    ensures r.Ok? ==> i < r.value.1 < |ts|
    decreases |ts| - i, 5
  {
    if ts[i].kind == Minus then
      match TermAt(ts, i + 1)
      case Ok((operand, j)) => Ok((UnaryOp("-", operand), j))
      case Err(e) => Err(e)
    else
      TermAt(ts, i)
  }

  /** `_parse_term`: powers folded to the left by `*`, implicit `*` and `/`. */
  function TermAt(ts: seq<Token>, i: nat): (r: Parsed)
    requires Parsable(ts) && i < |ts|
    ensures r.Ok? ==> i < r.value.1 < |ts|
    decreases |ts| - i, 4
  {
    match PowerAt(ts, i)
    case Ok((left, j)) => TermTailAt(ts, j, left)
    case Err(e) => Err(e)
  }

  /** The `while` loop of `_parse_term`; an IMPLICIT_MULTIPLY token becomes the operator `*`. */
  function TermTailAt(ts: seq<Token>, j: nat, left: Expr): (r: Parsed)
    requires Parsable(ts) && j < |ts|
    ensures r.Ok? ==> j <= r.value.1 < |ts|
    decreases |ts| - j, 3
  {
    if ts[j].kind == Multiply || ts[j].kind == ImplicitMultiply || ts[j].kind == Divide then
      match PowerAt(ts, j + 1)
      case Ok((right, k)) =>
        var op := if ts[j].kind == ImplicitMultiply then "*" else ts[j].value.s;
        TermTailAt(ts, k, BinOp(left, op, right))
      case Err(e) => Err(e)
    else
      Ok((left, j))
  }

  /** `_parse_power`: `^` takes a whole power on its right, so it groups to the right. */
  function PowerAt(ts: seq<Token>, i: nat): (r: Parsed)
    requires Parsable(ts) && i < |ts|
    ensures r.Ok? ==> i < r.value.1 < |ts|
    decreases |ts| - i, 2
  {
    match FunctionAt(ts, i)
    case Ok((left, j)) =>
      if ts[j].kind == Power then
        match PowerAt(ts, j + 1)
        case Ok((right, k)) => Ok((BinOp(left, ts[j].value.s, right), k))
        case Err(e) => Err(e)
      else
        Ok((left, j))
    case Err(e) => Err(e)
  }

  /** `_parse_function`: a function name applies to exactly one primary. */
  function FunctionAt(ts: seq<Token>, i: nat): (r: Parsed)
    requires Parsable(ts) && i < |ts|
    ensures r.Ok? ==> i < r.value.1 < |ts|
    decreases |ts| - i, 1
  {
    if ts[i].kind == Function then
      match PrimaryAt(ts, i + 1)
      case Ok((arg, j)) => Ok((FunctionCall(ts[i].value.s, arg), j))
      case Err(e) => Err(e)
    else
      PrimaryAt(ts, i)
  }

  /** `_parse_primary`: a number, a variable, or a parenthesised expression closed by `)`. */
  function PrimaryAt(ts: seq<Token>, i: nat): (r: Parsed)
    requires Parsable(ts) && i < |ts|
    ensures r.Ok? ==> i < r.value.1 < |ts|
    decreases |ts| - i, 0
  {
    if ts[i].kind == TokenType.Number then Ok((Expr.Number(ts[i].value.n), i + 1))
    else if ts[i].kind == TokenType.Variable then Ok((Expr.Variable(ts[i].value.s), i + 1))
    else if ts[i].kind == LParen then
      match ExprAt(ts, i + 1)
      case Ok((e, j)) =>
        if ts[j].kind != RParen then Err(ExpectedKind(RParen, ts[j].kind)) else Ok((e, j + 1))
      case Err(e) => Err(e)
    else
      Err(UnexpectedInPrimary(ts[i]))
  }

  /** `Parser.parse` from position `i`: an expression, which must be followed by EOF. */
  function ParseAt(ts: seq<Token>, i: nat): (r: Result<Expr, ParseError>)
    requires Parsable(ts) && i < |ts|
    ensures r.Ok? <==> ExprAt(ts, i).Ok? && ts[ExprAt(ts, i).value.1].kind == Eof
    ensures r.Ok? ==> r.value == ExprAt(ts, i).value.0
    ensures ExprAt(ts, i).Ok? && ts[ExprAt(ts, i).value.1].kind != Eof ==> r == Err(UnexpectedToken(ts[ExprAt(ts, i).value.1]))
    ensures ExprAt(ts, i).Err? ==> r == Err(ExprAt(ts, i).error)
  {
    match ExprAt(ts, i)
    case Ok((e, j)) => if ts[j].kind != Eof then Err(UnexpectedToken(ts[j])) else Ok(e)
    case Err(e) => Err(e)
  }

  /** A failure of `parse(expression)`: the lexer's error or the parser's. */
  datatype SyntaxError = LexFailure(lexError: LexError) | ParseFailure(parseError: ParseError)

  /** Every token the lexer produces has a value of the type the parser expects. */
  lemma WellFormedIsTyped(t: Token)
    requires WellFormedToken(t)
    ensures TypedValue(t)
  {
  }

  /** What `tokenize` returns is a token list the parser can work on. */
  lemma LexParsable(s: string)
    requires Lex(s).Ok?
    ensures Parsable(Lex(s).value)
  {
    LexingFacts.LexEndsWithEof(s);
    var ts := Lex(s).value;
    forall k | 0 <= k < |ts|
      ensures TypedValue(ts[k])
    {
      WellFormedIsTyped(ts[k]);
    }
  }

  /** `parse(expression)`: tokenize, then parse the whole token list from its start. */
  function ParseText(s: string): (r: Result<Expr, SyntaxError>)
    ensures Lex(s).Err? <==> r.Err? && r.error.LexFailure?
    ensures Lex(s).Err? ==> r == Err(LexFailure(Lex(s).error))
    ensures r.Err? && r.error.ParseFailure? ==> Lex(s).Ok?
  {
    match Lex(s)
    case Err(e) => Err(LexFailure(e))
    case Ok(ts) =>
      LexParsable(s);
      match ParseAt(ts, 0)
      case Ok(e) => Ok(e)
      case Err(e) => Err(ParseFailure(e))
  }

  // ---------------------------------------------------------------------------------------------
  // The parser object

  class Parser {
    const tokens: seq<Token>
    var pos: nat

    ghost predicate Valid()
      reads this
    {
      Parsable(tokens) && pos < |tokens|
    }

    constructor (tokens: seq<Token>)
      requires Parsable(tokens)
      ensures Valid()
      ensures this.tokens == tokens && pos == 0
    {
      this.tokens := tokens;
      pos := 0;
    }

    /** `current_token`: the token under the cursor, or the last token once the cursor is past the end. */
    function CurrentToken(): (t: Token)
      requires |tokens| > 0
      reads this
      ensures t == tokens[if pos < |tokens| then pos else |tokens| - 1]
    {
      if pos < |tokens| then tokens[pos] else tokens[|tokens| - 1]
    }

    /** `consume`: checks the kind when one is expected, then moves past the current token. */
    method Consume(expected: Option<TokenType>) returns (r: Result<Token, ParseError>)
      requires Valid()
      modifies this`pos
      ensures var t := old(CurrentToken());
        if expected.Some? && t.kind != expected.value then r == Err(ExpectedKind(expected.value, t.kind)) && pos == old(pos)
        else r == Ok(t) && pos == old(pos) + 1
    {
      var token := CurrentToken();
      if expected.Some? && token.kind != expected.value {
        return Err(ExpectedKind(expected.value, token.kind));
      }
      pos := pos + 1;
      r := Ok(token);
    }

    /** Moves past a token known not to be EOF; the cursor stays on the list. */
    method Advance() returns (t: Token)
      requires Valid() && tokens[pos].kind != Eof
      modifies this`pos
      ensures Valid() && pos == old(pos) + 1 && t == tokens[old(pos)]
    {
      var r := Consume(None);
      t := r.value;
    }

    /** `parse`: an expression from the cursor, then EOF. */
    method Parse() returns (r: Result<Expr, ParseError>)
      requires Valid()
      modifies this`pos
      ensures Valid()
      ensures r == ParseAt(tokens, old(pos))
      ensures ExprAt(tokens, old(pos)).Ok? ==> pos == ExprAt(tokens, old(pos)).value.1
    {
      var node := ParseExpression();
      if node.Err? {
        return Err(node.error);
      }
      if CurrentToken().kind != Eof {
        return Err(UnexpectedToken(CurrentToken()));
      }
      r := Ok(node.value);
    }

    method ParseExpression() returns (r: Result<Expr, ParseError>)
      requires Valid()
      modifies this`pos
      ensures Valid()
      ensures match ExprAt(tokens, old(pos))
        case Ok((e, j)) => r == Ok(e) && pos == j
        case Err(err) => r == Err(err)
      decreases |tokens| - pos, 7
    {
      var left: Expr;
      if CurrentToken().kind == Minus {
        var _ := Advance();
        var zero := Expr.Number(0);
        var right := ParseUnary();
        if right.Err? {
          return Err(right.error);
        }
        left := BinOp(zero, "-", right.value);
      } else {
        var first := ParseUnary();
        if first.Err? {
          return Err(first.error);
        }
        left := first.value;
      }
      ghost var startedAt := old(pos);
      while CurrentToken().kind == Plus || CurrentToken().kind == Minus
        invariant Valid()
        invariant ExprAt(tokens, startedAt) == ExprTailAt(tokens, pos, left)
        decreases |tokens| - pos
      {
        var opToken := Advance();
        var right := ParseUnary();
        if right.Err? {
          return Err(right.error);
        }
        left := BinOp(left, opToken.value.s, right.value);
      }
      r := Ok(left);
    }

    method ParseTerm() returns (r: Result<Expr, ParseError>)
      requires Valid()
      modifies this`pos
      ensures Valid()
      ensures match TermAt(tokens, old(pos))
        case Ok((e, j)) => r == Ok(e) && pos == j
        case Err(err) => r == Err(err)
      decreases |tokens| - pos, 4
    {
      var first := ParsePower();
      if first.Err? {
        return Err(first.error);
      }
      var left := first.value;
      ghost var startedAt := old(pos);
      while CurrentToken().kind == Multiply || CurrentToken().kind == ImplicitMultiply || CurrentToken().kind == Divide
        invariant Valid()
        invariant TermAt(tokens, startedAt) == TermTailAt(tokens, pos, left)
        decreases |tokens| - pos
      {
        var opToken := Advance();
        var right := ParsePower();
        if right.Err? {
          return Err(right.error);
        }
        left := BinOp(left, if opToken.kind == ImplicitMultiply then "*" else opToken.value.s, right.value);
      }
      r := Ok(left);
    }

    method ParsePower() returns (r: Result<Expr, ParseError>)
      requires Valid()
      modifies this`pos
      ensures Valid()
      ensures match PowerAt(tokens, old(pos))
        case Ok((e, j)) => r == Ok(e) && pos == j
        case Err(err) => r == Err(err)
      decreases |tokens| - pos, 2
    {
      var left := ParseFunction();
      if left.Err? {
        return left;
      }
      if CurrentToken().kind == Power {
        var opToken := Advance();
        var right := ParsePower();
        if right.Err? {
          return right;
        }
        return Ok(BinOp(left.value, opToken.value.s, right.value));
      }
      r := left;
    }

    method ParseFunction() returns (r: Result<Expr, ParseError>)
      requires Valid()
      modifies this`pos
      ensures Valid()
      ensures match FunctionAt(tokens, old(pos))
        case Ok((e, j)) => r == Ok(e) && pos == j
        case Err(err) => r == Err(err)
      decreases |tokens| - pos, 1
    {
      if CurrentToken().kind == Function {
        var funcToken := Advance();
        var arg := ParsePrimary();
        if arg.Err? {
          return arg;
        }
        return Ok(FunctionCall(funcToken.value.s, arg.value));
      }
      r := ParsePrimary();
    }

    method ParseUnary() returns (r: Result<Expr, ParseError>)
      requires Valid()
      modifies this`pos
      ensures Valid()
      ensures match UnaryAt(tokens, old(pos))
        case Ok((e, j)) => r == Ok(e) && pos == j
        case Err(err) => r == Err(err)
      decreases |tokens| - pos, 5
    {
      if CurrentToken().kind == Minus {
        var _ := Advance();
        var operand := ParseTerm();
        if operand.Err? {
          return operand;
        }
        return Ok(UnaryOp("-", operand.value));
      }
      r := ParseTerm();
    }

    method ParsePrimary() returns (r: Result<Expr, ParseError>)
      requires Valid()
      modifies this`pos
      ensures Valid()
      ensures match PrimaryAt(tokens, old(pos))
        case Ok((e, j)) => r == Ok(e) && pos == j
        case Err(err) => r == Err(err)
      decreases |tokens| - pos, 0
    {
      var token := CurrentToken();
      if token.kind == TokenType.Number {
        var _ := Advance();
        return Ok(Expr.Number(token.value.n));
      }
      if token.kind == TokenType.Variable {
        var _ := Advance();
        return Ok(Expr.Variable(token.value.s));
      }
      if token.kind == LParen {
        var _ := Advance();
        var expr := ParseExpression();
        if expr.Err? {
          return expr;
        }
        var closing := Consume(Some(RParen));
        if closing.Err? {
          return Err(closing.error);
        }
        return expr;
      }
      r := Err(UnexpectedInPrimary(token));
    }
  }

  /** `parse(expression)`: tokenize the text and parse the tokens with a fresh parser. */
  method Parse(expression: string) returns (r: Result<Expr, SyntaxError>)
    ensures r == ParseText(expression)
  {
    var tokens := Tokenize(expression);
    if tokens.Err? {
      return Err(LexFailure(tokens.error));
    }
    LexParsable(expression);
    var parser := new Parser(tokens.value);
    var tree := parser.Parse();
    if tree.Err? {
      return Err(ParseFailure(tree.error));
    }
    r := Ok(tree.value);
  }
}
