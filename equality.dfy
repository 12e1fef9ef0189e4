/**
 * Equivalence of expressions: two trees are equivalent when both normalise and their polynomials
 * are the same dictionary. A tree whose normalisation raises is equivalent to nothing, itself
 * included.
 */
module Equivalence {
  import opened Wrappers
  import opened Ast
  import opened Polynomials
  import opened PolynomialAlgebra
  import ParsingFacts
  import Parsing

  /** What `are_equivalent` answers: both sides normalise, to equal polynomials. */
  ghost predicate Equivalent(e1: Expr, e2: Expr)
    ensures Expand(e1).Err? || Expand(e2).Err? ==> !Equivalent(e1, e2)
  {
    Expand(e1).Ok? && Expand(e2).Ok? && Expand(e1).value == Expand(e2).value
  }

  /** `are_equivalent`: normalise both sides and compare; a failure to normalise answers false. */
  method AreEquivalent(e1: Expr, e2: Expr) returns (b: bool)
    ensures b == Equivalent(e1, e2)
    ensures b ==> Expand(e1).Ok? && Expand(e2).Ok?
  {
    var poly1 := NormalizeExpression(e1);
    if poly1.Err? {
      return false;
    }
    var poly2 := NormalizeExpression(e2);
    if poly2.Err? {
      return false;
    }
    b := poly1.value == poly2.value;
  }

  /**
   * `check_equivalence_verbose`: the answer together with both polynomials, or false with no
   * polynomials when either side fails to normalise.
   */
  method CheckEquivalenceVerbose(e1: Expr, e2: Expr) returns (b: bool, poly1: Option<Terms>, poly2: Option<Terms>)
    ensures b == Equivalent(e1, e2)
    ensures Expand(e1).Ok? && Expand(e2).Ok? ==>
              poly1 == Some(Expand(e1).value) && poly2 == Some(Expand(e2).value)
    ensures !(Expand(e1).Ok? && Expand(e2).Ok?) ==> poly1 == None && poly2 == None
    ensures poly1.Some? && poly2.Some? ==> (b <==> poly1.value == poly2.value)
  {
    var r1 := NormalizeExpression(e1);
    if r1.Err? {
      return false, None, None;
    }
    var r2 := NormalizeExpression(e2);
    if r2.Err? {
      return false, None, None;
    }
    b := r1.value == r2.value;
    poly1 := Some(r1.value);
    poly2 := Some(r2.value);
  }

  // ---------------------------------------------------------------------------------------------
  // The relation

  /** A tree is equivalent to itself exactly when it normalises. */
  lemma EquivalentReflexive(e: Expr)
    ensures Equivalent(e, e) <==> Expand(e).Ok?
  {
  }

  lemma EquivalentSymmetric(e1: Expr, e2: Expr)
    ensures Equivalent(e1, e2) <==> Equivalent(e2, e1)
  {
  }

  lemma EquivalentTransitive(e1: Expr, e2: Expr, e3: Expr)
    requires Equivalent(e1, e2) && Equivalent(e2, e3)
    ensures Equivalent(e1, e3)
  {
  }

  // ---------------------------------------------------------------------------------------------
  // When normalisation fails

  /** A tree of the parser's shape always normalises. */
  lemma {:induction false} ParsedExpands(e: Expr)
    requires ParsingFacts.ParsedShape(e)
    ensures Expand(e).Ok?
  {
    match e
    case Number(_) =>
    case Variable(_) =>
    case UnaryOp(_, x) =>
      ParsedExpands(x);
    case BinOp(l, op, r) =>
      ParsedExpands(l);
      ParsedExpands(r);
    case FunctionCall(_, _) =>
  }

  /** A tree `parse` returns always normalises, so comparing two parsed trees never fails. */
  lemma ParsedNeverFails(s1: string, s2: string)
    requires Parsing.ParseText(s1).Ok? && Parsing.ParseText(s2).Ok?
    ensures Expand(Parsing.ParseText(s1).value).Ok? && Expand(Parsing.ParseText(s2).value).Ok?
    ensures Equivalent(Parsing.ParseText(s1).value, Parsing.ParseText(s2).value)
        <==> Expand(Parsing.ParseText(s1).value).value == Expand(Parsing.ParseText(s2).value).value
  {
    ParsingFacts.ParseTextShape(s1);
    ParsingFacts.ParseTextShape(s2);
    ParsedExpands(Parsing.ParseText(s1).value);
    ParsedExpands(Parsing.ParseText(s2).value);
  }

  /** A tree `is_expandable` accepts normalises to a polynomial in its variables, with no atom. */
  lemma {:induction false} ExpandableHasNoAtoms(e: Expr)
    requires IsExpandable(e)
    ensures Expand(e).Ok? && VarsOnly(Expand(e).value)
  {
    match e
    case Number(_) =>
    case Variable(_) =>
    case UnaryOp(_, x) =>
      ExpandableHasNoAtoms(x);
      OperationsVarsOnly(Expand(x).value, Expand(x).value);
    case BinOp(l, op, r) =>
      ExpandableHasNoAtoms(l);
      ExpandableHasNoAtoms(r);
      OperationsVarsOnly(Expand(l).value, Expand(r).value);
  }

  /** A unary operator other than minus, or an unknown binary operator, fails anywhere in the tree. */
  lemma UnsupportedOperators(x: Expr, y: Expr, op: string)
    ensures op != "-" ==> Expand(UnaryOp(op, x)) == Err(UnsupportedUnary(op))
    ensures op !in {"+", "-", "*", "/", "^"} ==> Expand(BinOp(x, op, y)) == Err(UnsupportedBinary(op))
    ensures Expand(x).Err? ==> Expand(BinOp(x, "+", y)) == Expand(x) && !Equivalent(BinOp(x, "+", y), y)
  {
  }

  // ---------------------------------------------------------------------------------------------
  // One step of normalisation

  /** The polynomial operation `expand_to_polynomial` applies for `+`, `-` and `*`. */
  ghost function Apply(op: string, p: Terms, q: Terms): Terms {
    if op == "+" then Sum(p, q) else if op == "-" then Difference(p, q) else Product(p, q)
  }

  /** `+`, `-` and `*` normalise both sides, the left first, and combine the polynomials. */
  lemma ExpandArith(l: Expr, op: string, r: Expr)
    requires op == "+" || op == "-" || op == "*"
    ensures Expand(l).Err? ==> Expand(BinOp(l, op, r)) == Err(Expand(l).error)
    ensures Expand(l).Ok? && Expand(r).Err? ==> Expand(BinOp(l, op, r)) == Err(Expand(r).error)
    ensures Expand(l).Ok? && Expand(r).Ok? ==>
              Expand(BinOp(l, op, r)) == Ok(Apply(op, Expand(l).value, Expand(r).value))
  {
  }

  /** Both sides of `+`, `-` and `*` normalise exactly when the node does. */
  lemma ExpandArithOk(l: Expr, op: string, r: Expr)
    requires op == "+" || op == "-" || op == "*"
    ensures Expand(BinOp(l, op, r)).Ok? <==> Expand(l).Ok? && Expand(r).Ok?
  {
    ExpandArith(l, op, r);
  }

  /** Unary minus negates the polynomial of its operand. */
  lemma ExpandNegation(x: Expr)
    ensures Expand(x).Err? ==> Expand(UnaryOp("-", x)) == Err(Expand(x).error)
    ensures Expand(x).Ok? ==> Expand(UnaryOp("-", x)) == Ok(Negate(Expand(x).value))
  {
  }

  /** A power with the literal exponent 2 or 3 multiplies the base out. */
  lemma ExpandPower(l: Expr, n: int)
    requires n == 2 || n == 3
    ensures Expand(l).Err? ==> Expand(BinOp(l, "^", Number(n))) == Err(Expand(l).error)
    ensures Expand(l).Ok? ==> Expand(BinOp(l, "^", Number(n))) == Ok(Power(Expand(l).value, n))
  {
  }

  /** A quotient, and a power with any other exponent, is one atom named by its text. */
  lemma ExpandAtom(l: Expr, op: string, r: Expr)
    requires op == "/" || (op == "^" && !(r.Number? && (r.value == 2 || r.value == 3)))
    ensures Expand(BinOp(l, op, r)) == Ok(SymbolPoly(Atom(AstToString(BinOp(l, op, r)))))
  {
  }

  // ---------------------------------------------------------------------------------------------
  // Laws of arithmetic that the comparison recognises

  /** `a + b ≡ b + a` whenever both sides normalise. */
  lemma SumCommutes(a: Expr, b: Expr)
    ensures Equivalent(BinOp(a, "+", b), BinOp(b, "+", a)) <==> Expand(a).Ok? && Expand(b).Ok?
  {
    ExpandArith(a, "+", b);
    ExpandArith(b, "+", a);
    if Expand(a).Ok? && Expand(b).Ok? {
      SumComm(Expand(a).value, Expand(b).value);
    }
  }

  /** `a * b ≡ b * a` */
  lemma ProductCommutes(a: Expr, b: Expr)
    ensures Equivalent(BinOp(a, "*", b), BinOp(b, "*", a)) <==> Expand(a).Ok? && Expand(b).Ok?
  {
    ExpandArith(a, "*", b);
    ExpandArith(b, "*", a);
    if Expand(a).Ok? && Expand(b).Ok? {
      ProductComm(Expand(a).value, Expand(b).value);
    }
  }

  /** `(a + b) + c ≡ a + (b + c)` */
  lemma SumAssociates(a: Expr, b: Expr, c: Expr)
    ensures Equivalent(BinOp(BinOp(a, "+", b), "+", c), BinOp(a, "+", BinOp(b, "+", c)))
        <==> Expand(a).Ok? && Expand(b).Ok? && Expand(c).Ok?
  {
    ExpandArith(a, "+", b);
    ExpandArith(BinOp(a, "+", b), "+", c);
    ExpandArith(b, "+", c);
    ExpandArith(a, "+", BinOp(b, "+", c));
    if Expand(a).Ok? && Expand(b).Ok? && Expand(c).Ok? {
      SumAssoc(Expand(a).value, Expand(b).value, Expand(c).value);
    }
  }

  /** `(a * b) * c ≡ a * (b * c)` */
  lemma ProductAssociates(a: Expr, b: Expr, c: Expr)
    ensures Equivalent(BinOp(BinOp(a, "*", b), "*", c), BinOp(a, "*", BinOp(b, "*", c)))
        <==> Expand(a).Ok? && Expand(b).Ok? && Expand(c).Ok?
  {
    ExpandArith(a, "*", b);
    ExpandArith(BinOp(a, "*", b), "*", c);
    ExpandArith(b, "*", c);
    ExpandArith(a, "*", BinOp(b, "*", c));
    if Expand(a).Ok? && Expand(b).Ok? && Expand(c).Ok? {
      ProductAssoc(Expand(a).value, Expand(b).value, Expand(c).value);
    }
  }

  /** `a * (b + c) ≡ a * b + a * c` */
  lemma ProductDistributes(a: Expr, b: Expr, c: Expr)
    ensures Equivalent(BinOp(a, "*", BinOp(b, "+", c)), BinOp(BinOp(a, "*", b), "+", BinOp(a, "*", c)))
        <==> Expand(a).Ok? && Expand(b).Ok? && Expand(c).Ok?
  {
    ExpandArith(b, "+", c);
    ExpandArith(a, "*", BinOp(b, "+", c));
    ExpandArith(a, "*", b);
    ExpandArith(a, "*", c);
    ExpandArith(BinOp(a, "*", b), "+", BinOp(a, "*", c));
    if Expand(a).Ok? && Expand(b).Ok? && Expand(c).Ok? {
      ProductDistrib(Expand(a).value, Expand(b).value, Expand(c).value);
    }
  }

  /** `a + 0 ≡ a` */
  lemma AddZeroIdentity(a: Expr)
    ensures Equivalent(BinOp(a, "+", Number(0)), a) <==> Expand(a).Ok?
  {
    ExpandArith(a, "+", Number(0));
    if Expand(a).Ok? {
      SumZero(Expand(a).value);
    }
  }

  /** `a * 1 ≡ a` */
  lemma MulOneIdentity(a: Expr)
    ensures Equivalent(BinOp(a, "*", Number(1)), a) <==> Expand(a).Ok?
  {
    ExpandArith(a, "*", Number(1));
    if Expand(a).Ok? {
      ProductOne(Expand(a).value);
    }
  }

  /** `a * 0 ≡ 0` */
  lemma MulZeroAnnihilates(a: Expr)
    ensures Equivalent(BinOp(a, "*", Number(0)), Number(0)) <==> Expand(a).Ok?
  {
    ExpandArith(a, "*", Number(0));
    if Expand(a).Ok? {
      ProductZero(Expand(a).value);
    }
  }

  /** `a - a ≡ 0` */
  lemma SubtractSelf(a: Expr)
    ensures Equivalent(BinOp(a, "-", a), Number(0)) <==> Expand(a).Ok?
  {
    ExpandArith(a, "-", a);
    if Expand(a).Ok? {
      DifferenceSelf(Expand(a).value);
    }
  }

  /** `-a ≡ 0 - a` */
  lemma NegationIsSubtraction(a: Expr)
    ensures Equivalent(UnaryOp("-", a), BinOp(Number(0), "-", a)) <==> Expand(a).Ok?
  {
    ExpandArith(Number(0), "-", a);
    ExpandNegation(a);
    if Expand(a).Ok? {
      var p := Expand(a).value;
      assert Expand(Number(0)).value == Zero;
      DifferenceIsSumNegate(Zero, p);
      SumZero(Negate(p));
    }
  }

  /** `(a + 1)^2 ≡ a^2 + 2*a + 1` */
  lemma SquareOfSumExpands(a: Expr)
    ensures Equivalent(BinOp(BinOp(a, "+", Number(1)), "^", Number(2)),
                       BinOp(BinOp(BinOp(a, "^", Number(2)), "+", BinOp(Number(2), "*", a)), "+", Number(1)))
        <==> Expand(a).Ok?
  {
    var a1 := BinOp(a, "+", Number(1));
    var sq := BinOp(a, "^", Number(2));
    var twice := BinOp(Number(2), "*", a);
    ExpandArith(a, "+", Number(1));
    ExpandPower(a1, 2);
    ExpandPower(a, 2);
    ExpandArith(Number(2), "*", a);
    ExpandArith(sq, "+", twice);
    ExpandArith(BinOp(sq, "+", twice), "+", Number(1));
    if Expand(a).Ok? {
      SquareOfSum(Expand(a).value);
    }
  }

  // ---------------------------------------------------------------------------------------------
  // What it does not identify

  /** Subtraction does not commute: `x - y` and `y - x` differ. */
  lemma DifferenceNotCommutative()
    ensures !Equivalent(BinOp(Variable("x"), "-", Variable("y")), BinOp(Variable("y"), "-", Variable("x")))
  {
    var mx: Monomial := map[Var("x") := 1];
    assert Var("x") !in map[Var("y") := 1];
    assert Coef(Expand(BinOp(Variable("x"), "-", Variable("y"))).value, mx) == 1;
  }

  /** Division does not commute: `x / y` and `y / x` are different atoms. */
  lemma QuotientNotCommutative()
    ensures !Equivalent(BinOp(Variable("x"), "/", Variable("y")), BinOp(Variable("y"), "/", Variable("x")))
  {
    var e1 := BinOp(Variable("x"), "/", Variable("y"));
    var e2 := BinOp(Variable("y"), "/", Variable("x"));
    ExpandAtom(Variable("x"), "/", Variable("y"));
    ExpandAtom(Variable("y"), "/", Variable("x"));
    assert AstToString(e1) == "(x/y)";
    assert AstToString(e2) == "(y/x)";
    var xy: Monomial := map[Atom("(x/y)") := 1];
    assert "(x/y)"[1] != "(y/x)"[1];
    assert Atom("(x/y)") !in map[Atom("(y/x)") := 1];
    assert xy in Expand(e1).value;
    assert xy !in Expand(e2).value;
  }

  /**
   * Quotients and calls are compared by their printed text alone: two of them are equivalent
   * exactly when `ast_to_string` renders them the same, whatever their trees.
   */
  lemma AtomsCompareByText(e1: Expr, e2: Expr)
    requires e1.FunctionCall? || (e1.BinOp? && e1.op == "/")
    requires e2.FunctionCall? || (e2.BinOp? && e2.op == "/")
    ensures Equivalent(e1, e2) <==> AstToString(e1) == AstToString(e2)
  {
    if e1.BinOp? {
      ExpandAtom(e1.left, e1.op, e1.right);
    }
    if e2.BinOp? {
      ExpandAtom(e2.left, e2.op, e2.right);
    }
    var m1: Monomial := map[Atom(AstToString(e1)) := 1];
    var m2: Monomial := map[Atom(AstToString(e2)) := 1];
    if Equivalent(e1, e2) {
      assert m1 in Expand(e2).value.Keys;
      assert m1 == m2;
      assert Atom(AstToString(e1)) in m2;
    }
  }

  /** A fourth power is not multiplied out: `(x+1)^4` is the single atom `((x+1)^4)`. */
  lemma FourthPowerIsAtom()
    ensures Expand(BinOp(BinOp(Variable("x"), "+", Number(1)), "^", Number(4)))
         == Ok(SymbolPoly(Atom("((x+1)^4)")))
  {
    var e := BinOp(BinOp(Variable("x"), "+", Number(1)), "^", Number(4));
    ExpandAtom(BinOp(Variable("x"), "+", Number(1)), "^", Number(4));
    assert Numerals.DigitChar(1) == '1' && Numerals.DigitChar(4) == '4';
    assert Numerals.IntToString(1) == "1";
    assert Numerals.IntToString(4) == "4";
    assert AstToString(BinOp(Variable("x"), "+", Number(1))) == "(x+1)";
    assert AstToString(e) == "((x+1)^4)";
  }

  /** The base cases of normalisation. */
  lemma BaseCases(n: int, v: string)
    ensures Expand(Number(0)) == Ok(Zero)
    ensures n != 0 ==> Expand(Number(n)) == Ok(map[map[] := n])
    ensures Expand(Variable(v)) == Ok(map[map[Var(v) := 1] := 1])
  {
  }
}
