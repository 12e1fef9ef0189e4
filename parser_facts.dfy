/**
 * What the parser promises: the trees it builds from the lexer's tokens use only the lexer's
 * operators, names and numbers; the minus rules; which token lists are rejected; and the
 * grouping of the binary operators, shown on the token lists of small inputs.
 */
module ParsingFacts {
  import opened Wrappers
  import opened Ast
  import opened Lexing
  import opened Parsing

  // ---------------------------------------------------------------------------------------------
  // The trees built from the lexer's tokens

  /** The operators the parser writes into `BinOp` nodes. */
  const BinaryOps: set<string> := {"+", "-", "*", "/", "^"}

  /**
   * A tree as the parser builds it from the lexer's tokens: numbers are non-negative, variables
   * are one letter, functions are the five known names, unary nodes are negations, and binary
   * nodes carry one of the five operators.
   */
  predicate ParsedShape(e: Expr) {
    match e
    case Number(v) => v >= 0
    case Variable(n) => |n| == 1 && IsLetter(n[0])
    case BinOp(l, op, r) => op in BinaryOps && ParsedShape(l) && ParsedShape(r)
    case UnaryOp(op, x) => op == "-" && ParsedShape(x)
    case FunctionCall(f, x) => f in Functions && ParsedShape(x)
  }

  /** A token list as `tokenize` returns it, so far as the parser looks at it. */
  predicate LexedTokens(ts: seq<Token>) {
    Parsable(ts) && forall k | 0 <= k < |ts| :: WellFormedToken(ts[k])
  }

  /** The operator text of a binary-operator token from the lexer is its one character. */
  lemma OperatorText(t: Token)
    requires WellFormedToken(t) && t.kind in {Plus, Minus, Multiply, Divide, Power}
    ensures t.value.s in BinaryOps
  {
    var c := t.value.s[0];
    assert t.value.s == [c];
  }

  lemma {:induction false} ExprShape(ts: seq<Token>, i: nat)
    requires LexedTokens(ts) && i < |ts|
    ensures ExprAt(ts, i).Ok? ==> ParsedShape(ExprAt(ts, i).value.0)
    decreases |ts| - i, 7
  {
    if ts[i].kind == Minus {
      UnaryShape(ts, i + 1);
      if UnaryAt(ts, i + 1).Ok? {
        var (right, j) := UnaryAt(ts, i + 1).value;
        ExprTailShape(ts, j, BinOp(Expr.Number(0), "-", right));
      }
    } else {
      UnaryShape(ts, i);
      if UnaryAt(ts, i).Ok? {
        var (left, j) := UnaryAt(ts, i).value;
        ExprTailShape(ts, j, left);
      }
    }
  }

  lemma {:induction false} ExprTailShape(ts: seq<Token>, j: nat, left: Expr)
    requires LexedTokens(ts) && j < |ts| && ParsedShape(left)
    ensures ExprTailAt(ts, j, left).Ok? ==> ParsedShape(ExprTailAt(ts, j, left).value.0)
    decreases |ts| - j, 6
  {
    if ts[j].kind == Plus || ts[j].kind == Minus {
      UnaryShape(ts, j + 1);
      if UnaryAt(ts, j + 1).Ok? {
        var (right, k) := UnaryAt(ts, j + 1).value;
        OperatorText(ts[j]);
        ExprTailShape(ts, k, BinOp(left, ts[j].value.s, right));
      }
    }
  }

  lemma {:induction false} UnaryShape(ts: seq<Token>, i: nat)
    requires LexedTokens(ts) && i < |ts|
    ensures UnaryAt(ts, i).Ok? ==> ParsedShape(UnaryAt(ts, i).value.0)
    decreases |ts| - i, 5
  {
    if ts[i].kind == Minus {
      TermShape(ts, i + 1);
    } else {
      TermShape(ts, i);
    }
  }

  lemma {:induction false} TermShape(ts: seq<Token>, i: nat)
    requires LexedTokens(ts) && i < |ts|
    ensures TermAt(ts, i).Ok? ==> ParsedShape(TermAt(ts, i).value.0)
    decreases |ts| - i, 4
  {
    PowerShape(ts, i);
    if PowerAt(ts, i).Ok? {
      var (left, j) := PowerAt(ts, i).value;
      TermTailShape(ts, j, left);
    }
  }

  lemma {:induction false} TermTailShape(ts: seq<Token>, j: nat, left: Expr)
    requires LexedTokens(ts) && j < |ts| && ParsedShape(left)
    ensures TermTailAt(ts, j, left).Ok? ==> ParsedShape(TermTailAt(ts, j, left).value.0)
    decreases |ts| - j, 3
  {
    if ts[j].kind == Multiply || ts[j].kind == ImplicitMultiply || ts[j].kind == Divide {
      PowerShape(ts, j + 1);
      if PowerAt(ts, j + 1).Ok? {
        var (right, k) := PowerAt(ts, j + 1).value;
        if ts[j].kind != ImplicitMultiply {
          OperatorText(ts[j]);
        }
        var op := if ts[j].kind == ImplicitMultiply then "*" else ts[j].value.s;
        TermTailShape(ts, k, BinOp(left, op, right));
      }
    }
  }

  lemma {:induction false} PowerShape(ts: seq<Token>, i: nat)
    requires LexedTokens(ts) && i < |ts|
    ensures PowerAt(ts, i).Ok? ==> ParsedShape(PowerAt(ts, i).value.0)
    decreases |ts| - i, 2
  {
    FunctionShape(ts, i);
    if FunctionAt(ts, i).Ok? {
      var (left, j) := FunctionAt(ts, i).value;
      if ts[j].kind == Power {
        PowerShape(ts, j + 1);
        OperatorText(ts[j]);
      }
    }
  }

  lemma {:induction false} FunctionShape(ts: seq<Token>, i: nat)
    requires LexedTokens(ts) && i < |ts|
    ensures FunctionAt(ts, i).Ok? ==> ParsedShape(FunctionAt(ts, i).value.0)
    decreases |ts| - i, 1
  {
    if ts[i].kind == Function {
      PrimaryShape(ts, i + 1);
    } else {
      PrimaryShape(ts, i);
    }
  }

  lemma {:induction false} PrimaryShape(ts: seq<Token>, i: nat)
    requires LexedTokens(ts) && i < |ts|
    ensures PrimaryAt(ts, i).Ok? ==> ParsedShape(PrimaryAt(ts, i).value.0)
    decreases |ts| - i, 0
  {
    if ts[i].kind == LParen {
      ExprShape(ts, i + 1);
    }
  }

  /** Every tree `parse(expression)` returns has the shape above. */
  lemma ParseTextShape(s: string)
    ensures ParseText(s).Ok? ==> ParsedShape(ParseText(s).value)
  {
    if Lex(s).Ok? {
      LexParsable(s);
      LexingFacts.LexEndsWithEof(s);
      ExprShape(Lex(s).value, 0);
    }
  }

  /** A successful `parse` reads the whole token list: the expression ends at its one EOF token. */
  lemma ParseConsumesAll(s: string)
    requires ParseText(s).Ok?
    ensures Lex(s).Ok? && Parsable(Lex(s).value)
    ensures ExprAt(Lex(s).value, 0).Ok? && ExprAt(Lex(s).value, 0).value.1 == |Lex(s).value| - 1
  {
    LexParsable(s);
    LexingFacts.LexEndsWithEof(s);
  }

  // ---------------------------------------------------------------------------------------------
  // The minus rules and the rejected starts

  /** A token that cannot begin a primary makes every level from the power level down fail on it. */
  lemma NoPrimaryStart(ts: seq<Token>, i: nat)
    requires Parsable(ts) && i < |ts|
    requires ts[i].kind !in {TokenType.Number, TokenType.Variable, LParen, Function}
    ensures PowerAt(ts, i) == Err(UnexpectedInPrimary(ts[i]))
    ensures TermAt(ts, i) == Err(UnexpectedInPrimary(ts[i]))
    ensures ts[i].kind != Minus ==> UnaryAt(ts, i) == Err(UnexpectedInPrimary(ts[i]))
    ensures ts[i].kind != Minus ==> ExprAt(ts, i) == Err(UnexpectedInPrimary(ts[i]))
  {
    assert PrimaryAt(ts, i) == Err(UnexpectedInPrimary(ts[i]));
    assert FunctionAt(ts, i) == Err(UnexpectedInPrimary(ts[i]));
  }

  /** `--t` at the start of an expression is `0 - (-t)`, with `t` a whole term. */
  lemma DoubleMinus(ts: seq<Token>, i: nat)
    requires Parsable(ts) && i + 1 < |ts| && ts[i].kind == Minus && ts[i + 1].kind == Minus
    ensures TermAt(ts, i + 2).Ok? ==>
      ExprAt(ts, i) == ExprTailAt(ts, TermAt(ts, i + 2).value.1, BinOp(Expr.Number(0), "-", UnaryOp("-", TermAt(ts, i + 2).value.0)))
  {
  }

  /** `---t` at the start of an expression is rejected at the third minus. */
  lemma TripleMinus(ts: seq<Token>, i: nat)
    requires Parsable(ts) && i + 2 < |ts| && ts[i].kind == Minus && ts[i + 1].kind == Minus && ts[i + 2].kind == Minus
    ensures ExprAt(ts, i) == Err(UnexpectedInPrimary(ts[i + 2]))
  {
    NoPrimaryStart(ts, i + 2);
  }

  /** After a binary `+` or `-`, a minus negates the whole term that follows: `a - -x*y` is `a - (-(x*y))`. */
  lemma MinusAfterOperator(ts: seq<Token>, j: nat, left: Expr)
    requires Parsable(ts) && j + 1 < |ts| && ts[j].kind in {Plus, Minus} && ts[j + 1].kind == Minus
    ensures TermAt(ts, j + 2).Ok? ==>
      ExprTailAt(ts, j, left) == ExprTailAt(ts, TermAt(ts, j + 2).value.1, BinOp(left, ts[j].value.s, UnaryOp("-", TermAt(ts, j + 2).value.0)))
  {
  }

  // ---------------------------------------------------------------------------------------------
  // Building blocks for token lists of a given shape

  /** A primary followed by no `^`, `*`, `/` or implicit `*` is a whole term and a whole unary operand. */
  lemma PrimaryIsUnary(ts: seq<Token>, i: nat)
    requires Parsable(ts) && i < |ts| && ts[i].kind != Minus && ts[i].kind != Function
    requires PrimaryAt(ts, i).Ok?
    requires ts[PrimaryAt(ts, i).value.1].kind !in {Power, Multiply, ImplicitMultiply, Divide}
    ensures UnaryAt(ts, i) == PrimaryAt(ts, i)
  {
    var (e, j) := PrimaryAt(ts, i).value;
    assert FunctionAt(ts, i) == Ok((e, j));
    assert PowerAt(ts, i) == Ok((e, j));
    assert TermTailAt(ts, j, e) == Ok((e, j));
  }

  /** A failing primary makes the whole expression fail with the same error. */
  lemma PrimaryErrorIsFinal(ts: seq<Token>, i: nat)
    requires Parsable(ts) && i < |ts| && ts[i].kind != Minus && ts[i].kind != Function
    requires PrimaryAt(ts, i).Err?
    ensures ExprAt(ts, i) == Err(PrimaryAt(ts, i).error)
  {
    assert FunctionAt(ts, i) == PrimaryAt(ts, i);
    assert PowerAt(ts, i).Err?;
    assert TermAt(ts, i).Err?;
  }

  /** The tree of a number or variable token. */
  function Leaf(t: Token): (e: Expr)
    requires t.kind in {TokenType.Number, TokenType.Variable} && TypedValue(t)
    ensures e.Number? || e.Variable?
  {
    if t.kind == TokenType.Number then Expr.Number(t.value.n) else Expr.Variable(t.value.s)
  }

  /** A number or variable not followed by `^` is a whole power. */
  lemma LeafPower(ts: seq<Token>, i: nat)
    requires Parsable(ts) && i + 1 < |ts| && ts[i].kind in {TokenType.Number, TokenType.Variable}
    requires ts[i + 1].kind != Power
    ensures PowerAt(ts, i) == Ok((Leaf(ts[i]), i + 1))
  {
    assert FunctionAt(ts, i) == Ok((Leaf(ts[i]), i + 1));
  }

  /** A number or variable followed by `^` takes the power that follows as its exponent. */
  lemma LeafRaised(ts: seq<Token>, i: nat)
    requires Parsable(ts) && i + 2 < |ts| && ts[i].kind in {TokenType.Number, TokenType.Variable}
    requires ts[i + 1].kind == Power && PowerAt(ts, i + 2).Ok?
    ensures PowerAt(ts, i) == Ok((BinOp(Leaf(ts[i]), ts[i + 1].value.s, PowerAt(ts, i + 2).value.0), PowerAt(ts, i + 2).value.1))
  {
    assert FunctionAt(ts, i) == Ok((Leaf(ts[i]), i + 1));
  }

  /** A power followed by no `*`, `/` or implicit `*` is a whole term, and a whole unary operand. */
  lemma PowerIsUnary(ts: seq<Token>, i: nat)
    requires Parsable(ts) && i < |ts| && ts[i].kind != Minus && PowerAt(ts, i).Ok?
    requires ts[PowerAt(ts, i).value.1].kind !in {Multiply, ImplicitMultiply, Divide}
    ensures TermAt(ts, i) == PowerAt(ts, i) && UnaryAt(ts, i) == PowerAt(ts, i)
  {
    var (e, j) := PowerAt(ts, i).value;
    assert TermTailAt(ts, j, e) == Ok((e, j));
  }

  /** A unary operand followed by no `+` or `-` is a whole expression. */
  lemma UnaryIsExpr(ts: seq<Token>, i: nat)
    requires Parsable(ts) && i < |ts| && ts[i].kind != Minus && UnaryAt(ts, i).Ok?
    requires ts[UnaryAt(ts, i).value.1].kind !in {Plus, Minus}
    ensures ExprAt(ts, i) == UnaryAt(ts, i)
  {
    var (e, j) := UnaryAt(ts, i).value;
    assert ExprTailAt(ts, j, e) == Ok((e, j));
  }

  /** `(a+b))`, whatever the operands and the operator: the second `)` is left over. */
  lemma ExtraParenShape(ts: seq<Token>)
    requires Parsable(ts) && |ts| == 7
    requires ts[0].kind == LParen && ts[4].kind == RParen && ts[5].kind == RParen
    requires ts[1].kind in {TokenType.Number, TokenType.Variable} && ts[3].kind in {TokenType.Number, TokenType.Variable}
    requires ts[2].kind in {Plus, Minus}
    ensures ParseAt(ts, 0) == Err(UnexpectedToken(ts[5]))
  {
    PrimaryIsUnary(ts, 1);
    PrimaryIsUnary(ts, 3);
    var a := UnaryAt(ts, 1).value.0;
    var sum := BinOp(a, ts[2].value.s, UnaryAt(ts, 3).value.0);
    assert ExprTailAt(ts, 2, a) == Ok((sum, 4));
    assert ExprAt(ts, 1) == Ok((sum, 4));
    assert PrimaryAt(ts, 0) == Ok((sum, 5));
    PrimaryIsUnary(ts, 0);
    UnaryIsExpr(ts, 0);
  }

  /** The operator text of a `*`, `/` or implicit `*` token in the tree: an implicit one is `*`. */
  function TimesText(t: Token): string
    requires TypedValue(t) && t.kind in {Multiply, ImplicitMultiply, Divide}
  {
    if t.kind == ImplicitMultiply then "*" else t.value.s
  }

  /**
   * `a*b^c`, whatever the power `a`, the operands `b` and `c` and the product operator (implicit
   * `*` included): the power `b^c` is the right operand of the product.
   */
  lemma PowerBindsTighterShape(ts: seq<Token>, i: nat, a: Expr, j: nat, b: Expr, k: nat, c: Expr, l: nat)
    requires Parsable(ts) && i < |ts|
    requires PowerAt(ts, i) == Ok((a, j)) && ts[j].kind in {Multiply, ImplicitMultiply, Divide}
    requires FunctionAt(ts, j + 1) == Ok((b, k)) && ts[k].kind == Power
    requires PowerAt(ts, k + 1) == Ok((c, l)) && ts[l].kind !in {Multiply, ImplicitMultiply, Divide}
    ensures TermAt(ts, i) == Ok((BinOp(a, TimesText(ts[j]), BinOp(b, ts[k].value.s, c)), l))
  {
    var product := BinOp(a, TimesText(ts[j]), BinOp(b, ts[k].value.s, c));
    assert PowerAt(ts, j + 1) == Ok((BinOp(b, ts[k].value.s, c), l));
    assert TermTailAt(ts, l, product) == Ok((product, l));
    assert TermTailAt(ts, j, a) == Ok((product, l));
  }

  /** `a^b^c`, whatever the three operands: the exponent of `a` is the power `b^c`. */
  lemma PowerGroupsRightShape(ts: seq<Token>, i: nat, a: Expr, j: nat, b: Expr, k: nat, c: Expr, l: nat)
    requires Parsable(ts) && i < |ts|
    requires FunctionAt(ts, i) == Ok((a, j)) && ts[j].kind == Power
    requires FunctionAt(ts, j + 1) == Ok((b, k)) && ts[k].kind == Power
    requires FunctionAt(ts, k + 1) == Ok((c, l)) && ts[l].kind != Power
    ensures PowerAt(ts, i) == Ok((BinOp(a, ts[j].value.s, BinOp(b, ts[k].value.s, c)), l))
  {
    assert PowerAt(ts, k + 1) == Ok((c, l));
    assert PowerAt(ts, j + 1) == Ok((BinOp(b, ts[k].value.s, c), l));
  }

  /**
   * `a-b+c`, whatever the three unary operands and any two of `+` and `-`: the first operation
   * is the left operand of the second. The fold is the same after a leading minus, which makes
   * the first operand `0-a`.
   */
  lemma SumGroupsLeftShape(ts: seq<Token>, i: nat, a: Expr, j: nat, b: Expr, k: nat, c: Expr, l: nat)
    requires Parsable(ts) && i < |ts|
    requires UnaryAt(ts, i) == Ok((a, j)) && ts[j].kind in {Plus, Minus}
    requires UnaryAt(ts, j + 1) == Ok((b, k)) && ts[k].kind in {Plus, Minus}
    requires UnaryAt(ts, k + 1) == Ok((c, l)) && ts[l].kind !in {Plus, Minus}
    ensures ExprTailAt(ts, j, a) == Ok((BinOp(BinOp(a, ts[j].value.s, b), ts[k].value.s, c), l))
    ensures ts[i].kind != Minus ==> ExprAt(ts, i) == Ok((BinOp(BinOp(a, ts[j].value.s, b), ts[k].value.s, c), l))
  {
    var first := BinOp(a, ts[j].value.s, b);
    var second := BinOp(first, ts[k].value.s, c);
    assert ExprTailAt(ts, l, second) == Ok((second, l));
    assert ExprTailAt(ts, k, first) == Ok((second, l));
  }

  /**
   * `a/b*c`, whatever the three powers and any two of `*`, `/` and implicit `*`: the first
   * operation is the left operand of the second.
   */
  lemma ProductGroupsLeftShape(ts: seq<Token>, i: nat, a: Expr, j: nat, b: Expr, k: nat, c: Expr, l: nat)
    requires Parsable(ts) && i < |ts|
    requires PowerAt(ts, i) == Ok((a, j)) && ts[j].kind in {Multiply, ImplicitMultiply, Divide}
    requires PowerAt(ts, j + 1) == Ok((b, k)) && ts[k].kind in {Multiply, ImplicitMultiply, Divide}
    requires PowerAt(ts, k + 1) == Ok((c, l)) && ts[l].kind !in {Multiply, ImplicitMultiply, Divide}
    ensures TermAt(ts, i) == Ok((BinOp(BinOp(a, TimesText(ts[j]), b), TimesText(ts[k]), c), l))
  {
    var first := BinOp(a, TimesText(ts[j]), b);
    var second := BinOp(first, TimesText(ts[k]), c);
    assert TermTailAt(ts, l, second) == Ok((second, l));
    assert TermTailAt(ts, k, first) == Ok((second, l));
    assert TermTailAt(ts, j, a) == Ok((second, l));
  }

  /**
   * A function name applies to the one primary after it, whatever that primary is: a `^` after
   * it raises the call (`sin x^2` is `(sin x)^2`), and with no `^`, `*`, `/` or implicit `*`
   * after it the call is a whole unary operand (`sin x+y` adds `y` to the call).
   */
  lemma FunctionTakesPrimaryShape(ts: seq<Token>, i: nat, a: Expr, j: nat)
    requires Parsable(ts) && i < |ts| && ts[i].kind == Function
    requires PrimaryAt(ts, i + 1) == Ok((a, j))
    ensures FunctionAt(ts, i) == Ok((FunctionCall(ts[i].value.s, a), j))
    ensures ts[j].kind == Power && PowerAt(ts, j + 1).Ok? ==>
      PowerAt(ts, i) == Ok((BinOp(FunctionCall(ts[i].value.s, a), ts[j].value.s, PowerAt(ts, j + 1).value.0), PowerAt(ts, j + 1).value.1))
    ensures ts[j].kind !in {Power, Multiply, ImplicitMultiply, Divide} ==>
      UnaryAt(ts, i) == Ok((FunctionCall(ts[i].value.s, a), j))
  {
    if ts[j].kind !in {Power, Multiply, ImplicitMultiply, Divide} {
      assert PowerAt(ts, i) == Ok((FunctionCall(ts[i].value.s, a), j));
      PowerIsUnary(ts, i);
    }
  }

  /** `a - -x*y`: the second minus negates the whole product. */
  lemma NestedMinusShape(ts: seq<Token>)
    requires Parsable(ts) && |ts| == 7
    requires forall k | k in {0, 3, 5} :: ts[k].kind in {TokenType.Number, TokenType.Variable}
    requires ts[1].kind == Minus && ts[2].kind == Minus && ts[4].kind == Multiply
    ensures ParseAt(ts, 0)
      == Ok(BinOp(Leaf(ts[0]), ts[1].value.s, UnaryOp("-", BinOp(Leaf(ts[3]), ts[4].value.s, Leaf(ts[5])))))
  {
    var product := BinOp(Leaf(ts[3]), ts[4].value.s, Leaf(ts[5]));
    var whole := BinOp(Leaf(ts[0]), ts[1].value.s, UnaryOp("-", product));
    LeafPower(ts, 0);
    PowerIsUnary(ts, 0);
    LeafPower(ts, 3);
    LeafPower(ts, 5);
    assert TermTailAt(ts, 6, product) == Ok((product, 6));
    assert TermTailAt(ts, 4, Leaf(ts[3])) == Ok((product, 6));
    assert UnaryAt(ts, 2) == Ok((UnaryOp("-", product), 6));
    assert ExprTailAt(ts, 6, whole) == Ok((whole, 6));
    assert ExprTailAt(ts, 1, Leaf(ts[0])) == Ok((whole, 6));
  }

  /** `((a+b)`, whatever the two operands and the operator: the outer group is not closed. */
  lemma UnclosedGroupShape(ts: seq<Token>)
    requires Parsable(ts) && |ts| == 7
    requires ts[0].kind == LParen && ts[1].kind == LParen && ts[5].kind == RParen
    requires ts[2].kind in {TokenType.Number, TokenType.Variable} && ts[4].kind in {TokenType.Number, TokenType.Variable}
    requires ts[3].kind in {Plus, Minus}
    ensures ParseAt(ts, 0) == Err(ExpectedKind(RParen, Eof))
  {
    PrimaryIsUnary(ts, 2);
    PrimaryIsUnary(ts, 4);
    var a := UnaryAt(ts, 2).value.0;
    var sum := BinOp(a, ts[3].value.s, UnaryAt(ts, 4).value.0);
    assert ExprTailAt(ts, 3, a) == Ok((sum, 5));
    assert ExprAt(ts, 2) == Ok((sum, 5));
    assert PrimaryAt(ts, 1) == Ok((sum, 6));
    PrimaryIsUnary(ts, 1);
    assert ExprAt(ts, 1) == Ok((sum, 6));
    PrimaryErrorIsFinal(ts, 0);
  }

  // ---------------------------------------------------------------------------------------------
  // Small inputs, as the token lists `tokenize` makes of them

  function Var(name: string, p: nat): Token { Token(TokenType.Variable, StrVal(name), p) }
  function Num(n: nat, p: nat): Token { Token(TokenType.Number, IntVal(n), p) }
  function Sym(kind: TokenType, c: char, p: nat): Token { Token(kind, StrVal([c]), p) }
  function Star(p: nat): Token { Token(ImplicitMultiply, StrVal("*"), p) }
  function EndAt(p: nat): Token { Token(Eof, NoVal, p) }

  function V(name: string): Expr { Expr.Variable(name) }
  function N(n: int): Expr { Expr.Number(n) }

  /** `x^2^3` groups to the right: `x^(2^3)`. */
  lemma PowerGroupsRight()
    ensures ParseAt([Var("x", 0), Sym(Power, '^', 1), Num(2, 2), Sym(Power, '^', 3), Num(3, 4), EndAt(5)], 0)
      == Ok(BinOp(V("x"), "^", BinOp(N(2), "^", N(3))))
  {
    var ts := [Var("x", 0), Sym(Power, '^', 1), Num(2, 2), Sym(Power, '^', 3), Num(3, 4), EndAt(5)];
    PowerGroupsRightShape(ts, 0, V("x"), 1, N(2), 3, N(3), 5);
    PowerIsUnary(ts, 0);
    UnaryIsExpr(ts, 0);
  }

  /** `^` binds tighter than `*`: `2*x^2` is `2*(x^2)`. */
  lemma PowerBindsTighter()
    ensures ParseAt([Num(2, 0), Sym(Multiply, '*', 1), Var("x", 2), Sym(Power, '^', 3), Num(2, 4), EndAt(5)], 0)
      == Ok(BinOp(N(2), "*", BinOp(V("x"), "^", N(2))))
  {
    var ts := [Num(2, 0), Sym(Multiply, '*', 1), Var("x", 2), Sym(Power, '^', 3), Num(2, 4), EndAt(5)];
    LeafPower(ts, 0);
    LeafPower(ts, 4);
    PowerBindsTighterShape(ts, 0, N(2), 1, V("x"), 3, N(2), 5);
    UnaryIsExpr(ts, 0);
  }

  /** `+` and `-` fold to the left: `x-y+z` is `(x-y)+z`. */
  lemma SumGroupsLeft()
    ensures ParseAt([Var("x", 0), Sym(Minus, '-', 1), Var("y", 2), Sym(Plus, '+', 3), Var("z", 4), EndAt(5)], 0)
      == Ok(BinOp(BinOp(V("x"), "-", V("y")), "+", V("z")))
  {
    var ts := [Var("x", 0), Sym(Minus, '-', 1), Var("y", 2), Sym(Plus, '+', 3), Var("z", 4), EndAt(5)];
    LeafPower(ts, 0);
    LeafPower(ts, 2);
    LeafPower(ts, 4);
    PowerIsUnary(ts, 0);
    PowerIsUnary(ts, 2);
    PowerIsUnary(ts, 4);
    SumGroupsLeftShape(ts, 0, V("x"), 1, V("y"), 3, V("z"), 5);
  }

  /** `*` and `/` fold to the left: `x/y*z` is `(x/y)*z`. */
  lemma ProductGroupsLeft()
    ensures ParseAt([Var("x", 0), Sym(Divide, '/', 1), Var("y", 2), Sym(Multiply, '*', 3), Var("z", 4), EndAt(5)], 0)
      == Ok(BinOp(BinOp(V("x"), "/", V("y")), "*", V("z")))
  {
    var ts := [Var("x", 0), Sym(Divide, '/', 1), Var("y", 2), Sym(Multiply, '*', 3), Var("z", 4), EndAt(5)];
    LeafPower(ts, 0);
    LeafPower(ts, 2);
    LeafPower(ts, 4);
    ProductGroupsLeftShape(ts, 0, V("x"), 1, V("y"), 3, V("z"), 5);
    UnaryIsExpr(ts, 0);
  }

  /** An implicit multiplication becomes the operator `*`: `2x` is `2*x`. */
  lemma ImplicitIsTimes()
    ensures ParseAt([Num(2, 0), Star(1), Var("x", 1), EndAt(2)], 0) == Ok(BinOp(N(2), "*", V("x")))
  {
  }

  /** A function takes one primary: `sin x+y` is `sin(x)+y`. */
  lemma FunctionTakesPrimary()
    ensures ParseAt([Token(Function, StrVal("sin"), 0), Var("x", 4), Sym(Plus, '+', 5), Var("y", 6), EndAt(7)], 0)
      == Ok(BinOp(FunctionCall("sin", V("x")), "+", V("y")))
  {
  }

  /** A function binds tighter than `^`: `sin x^2` is `(sin x)^2`. */
  lemma FunctionBeforePower()
    ensures ParseAt([Token(Function, StrVal("sin"), 0), Var("x", 4), Sym(Power, '^', 5), Num(2, 6), EndAt(7)], 0)
      == Ok(BinOp(FunctionCall("sin", V("x")), "^", N(2)))
  {
    var ts := [Token(Function, StrVal("sin"), 0), Var("x", 4), Sym(Power, '^', 5), Num(2, 6), EndAt(7)];
    LeafPower(ts, 3);
    FunctionTakesPrimaryShape(ts, 0, V("x"), 2);
    PowerIsUnary(ts, 0);
    UnaryIsExpr(ts, 0);
  }

  /** `--x` parses, as `0-(-x)`. */
  lemma DoubleMinusExample()
    ensures ParseAt([Sym(Minus, '-', 0), Sym(Minus, '-', 1), Var("x", 2), EndAt(3)], 0)
      == Ok(BinOp(N(0), "-", UnaryOp("-", V("x"))))
  {
  }

  /** `---x` is rejected at the third minus. */
  lemma TripleMinusExample()
    ensures ParseAt([Sym(Minus, '-', 0), Sym(Minus, '-', 1), Sym(Minus, '-', 2), Var("x", 3), EndAt(4)], 0)
      == Err(UnexpectedInPrimary(Sym(Minus, '-', 2)))
  {
  }

  /** `a - -x*y` negates the whole product: `a - (-(x*y))`. */
  lemma NestedMinusExample()
    ensures ParseAt([Var("a", 0), Sym(Minus, '-', 2), Sym(Minus, '-', 4), Var("x", 5), Sym(Multiply, '*', 6), Var("y", 7), EndAt(8)], 0)
      == Ok(BinOp(V("a"), "-", UnaryOp("-", BinOp(V("x"), "*", V("y")))))
  {
    NestedMinusShape([Var("a", 0), Sym(Minus, '-', 2), Sym(Minus, '-', 4), Var("x", 5), Sym(Multiply, '*', 6), Var("y", 7), EndAt(8)]);
  }

  /** `(x+1))`: the extra `)` is left over. */
  lemma ExtraParenRejected()
    ensures ParseAt([Sym(LParen, '(', 0), Var("x", 1), Sym(Plus, '+', 2), Num(1, 3), Sym(RParen, ')', 4), Sym(RParen, ')', 5), EndAt(6)], 0)
      == Err(UnexpectedToken(Sym(RParen, ')', 5)))
  {
    ExtraParenShape([Sym(LParen, '(', 0), Var("x", 1), Sym(Plus, '+', 2), Num(1, 3), Sym(RParen, ')', 4), Sym(RParen, ')', 5), EndAt(6)]);
  }

  /** `2 3`: two numbers with no operator; the second is left over. */
  lemma ExtraNumberRejected()
    ensures ParseAt([Num(2, 0), Num(3, 2), EndAt(3)], 0) == Err(UnexpectedToken(Num(3, 2)))
  {
  }

  /** `()`: an empty group has no primary. */
  lemma EmptyGroupRejected()
    ensures ParseAt([Sym(LParen, '(', 0), Sym(RParen, ')', 1), EndAt(2)], 0) == Err(UnexpectedInPrimary(Sym(RParen, ')', 1)))
  {
  }

  /** `+x`: there is no unary plus. */
  lemma UnaryPlusRejected()
    ensures ParseAt([Sym(Plus, '+', 0), Var("x", 1), EndAt(2)], 0) == Err(UnexpectedInPrimary(Sym(Plus, '+', 0)))
  {
  }

  /** `x^-2`: the exponent must be a power, not a negation. */
  lemma NegativeExponentRejected()
    ensures ParseAt([Var("x", 0), Sym(Power, '^', 1), Sym(Minus, '-', 2), Num(2, 3), EndAt(4)], 0)
      == Err(UnexpectedInPrimary(Sym(Minus, '-', 2)))
  {
  }

  /** `x +`: the operand is missing, and EOF is no primary. */
  lemma MissingOperandRejected()
    ensures ParseAt([Var("x", 0), Sym(Plus, '+', 2), EndAt(3)], 0) == Err(UnexpectedInPrimary(EndAt(3)))
  {
  }

  /** `* x`: an expression cannot start with `*`. */
  lemma LeadingTimesRejected()
    ensures ParseAt([Sym(Multiply, '*', 0), Var("x", 2), EndAt(3)], 0) == Err(UnexpectedInPrimary(Sym(Multiply, '*', 0)))
  {
  }

  /** `((x+1)`: the outer group is not closed; `consume` expected `)` and found EOF. */
  lemma UnclosedGroupRejected()
    ensures ParseAt([Sym(LParen, '(', 0), Sym(LParen, '(', 1), Var("x", 2), Sym(Plus, '+', 3), Num(1, 4), Sym(RParen, ')', 5), EndAt(6)], 0)
      == Err(ExpectedKind(RParen, Eof))
  {
    UnclosedGroupShape([Sym(LParen, '(', 0), Sym(LParen, '(', 1), Var("x", 2), Sym(Plus, '+', 3), Num(1, 4), Sym(RParen, ')', 5), EndAt(6)]);
  }

  // ---------------------------------------------------------------------------------------------
  // `parse` on whole texts

  /** `parse("2x")` is `2*x`: the lexer inserts the `*` and the parser reads it as a product. */
  lemma ParseNumberBeforeLetter()
    ensures ParseText("2x") == Ok(BinOp(N(2), "*", V("x")))
  {
    LexingFacts.LexNumberBeforeLetter();
    ImplicitIsTimes();
  }

  /** `parse` of a text whose token list is known parses that list. */
  lemma ParseTextOf(s: string, ts: seq<Token>)
    requires Lex(s) == Ok(ts)
    ensures Parsable(ts)
    ensures ParseText(s) == match ParseAt(ts, 0) case Ok(e) => Ok(e) case Err(e) => Err(ParseFailure(e))
  {
    LexParsable(s);
  }

  /** `x*y` from the tokens of `x y`, with any positions. */
  lemma NamesMultiplied(p: nat, q: nat)
    ensures ParseAt([Var("x", 0), Star(p), Var("y", q), EndAt(q + 1)], 0) == Ok(BinOp(V("x"), "*", V("y")))
  {
    var ts := [Var("x", 0), Star(p), Var("y", q), EndAt(q + 1)];
    var product := BinOp(V("x"), "*", V("y"));
    LeafPower(ts, 0);
    LeafPower(ts, 2);
    assert TermTailAt(ts, 3, product) == Ok((product, 3));
    assert TermTailAt(ts, 1, V("x")) == Ok((product, 3));
    UnaryIsExpr(ts, 0);
  }

  /** `x+y` from the tokens of `x+y`, with any positions. */
  lemma NamesAdded(p: nat, q: nat)
    ensures ParseAt(LexingFacts.PlusTokens(p, q), 0) == Ok(BinOp(V("x"), "+", V("y")))
  {
    var ts := LexingFacts.PlusTokens(p, q);
    var sum := BinOp(V("x"), "+", V("y"));
    LeafPower(ts, 0);
    LeafPower(ts, 2);
    PowerIsUnary(ts, 0);
    PowerIsUnary(ts, 2);
    assert ExprTailAt(ts, 3, sum) == Ok((sum, 3));
    assert ExprTailAt(ts, 1, V("x")) == Ok((sum, 3));
  }

  /** `parse("x y")` is `x*y`: two names apart are multiplied. */
  lemma ParseSeparatedLetters()
    ensures ParseText("x y") == Ok(BinOp(V("x"), "*", V("y")))
  {
    LexingFacts.LexSeparatedLetters();
    ParseTextOf("x y", [Var("x", 0), Star(1), Var("y", 2), EndAt(3)]);
    NamesMultiplied(1, 2);
  }

  /** Blanks around an operator do not change the tree: `x+y`, `x + y` and `x  +  y` all parse to `x+y`. */
  lemma ParseBlanksAroundOperator()
    ensures ParseText("x+y") == ParseText("x + y") == ParseText("x  +  y") == Ok(BinOp(V("x"), "+", V("y")))
  {
    LexingFacts.LexBlanksAroundOperator();
    ParseTextOf("x+y", LexingFacts.PlusTokens(1, 2));
    ParseTextOf("x + y", LexingFacts.PlusTokens(2, 4));
    ParseTextOf("x  +  y", LexingFacts.PlusTokens(3, 6));
    NamesAdded(1, 2);
    NamesAdded(2, 4);
    NamesAdded(3, 6);
  }

  /** `parse("")` fails in the parser: EOF is no primary. */
  lemma ParseEmptyRejected()
    ensures ParseText("") == Err(ParseFailure(UnexpectedInPrimary(EndAt(0))))
  {
    LexingFacts.LexEmpty();
    assert ParseAt([EndAt(0)], 0) == Err(UnexpectedInPrimary(EndAt(0)));
  }

  /** `parse("3.14")` and `parse("xy")` fail in the lexer, with the lexer's error. */
  lemma ParseLexerErrors()
    ensures ParseText("3.14") == Err(LexFailure(UnexpectedChar('.', 1)))
    ensures ParseText("xy") == Err(LexFailure(InvalidIdentifier("xy", 0)))
  {
    LexingFacts.LexRejectsDecimalPoint();
    LexingFacts.LexRejectsLetterPair();
  }
}
