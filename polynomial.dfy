/**
 * The polynomial normaliser. A polynomial is a finite map from monomials to non-zero integer
 * coefficients; a monomial is a finite map from symbols to positive powers. A symbol is a
 * variable name or an atom: a subexpression the normaliser does not expand, known only by its
 * fully parenthesised text.
 *
 * The functions state what each operation computes; the methods follow the loops of the
 * original operations and are proved to compute those functions.
 */
module Polynomials {
  import opened Wrappers
  import opened Numerals
  import opened Ast

  /** A variable, or an opaque subexpression compared and hashed by its text alone. */
  datatype Symbol = Var(name: string) | Atom(text: string)

  type Monomial = map<Symbol, int>
  type Terms = map<Monomial, int>

  /** The power of `v` in `m`; absent symbols have power 0. */
  function Pow(m: Monomial, v: Symbol): int {
    if v in m then m[v] else 0
  }

  /** The coefficient of `m` in `t` (`dict.get(m, 0)`). */
  function Coef(t: Terms, m: Monomial): int {
    if m in t then t[m] else 0
  }

  predicate ValidMonomial(m: Monomial) {
    forall v | v in m :: m[v] > 0
  }

  predicate ValidKeys(t: Terms) {
    forall m | m in t :: ValidMonomial(m)
  }

  /** A normalised polynomial: valid monomials, and no zero coefficient. */
  predicate IsPoly(t: Terms) {
    ValidKeys(t) && forall m | m in t :: t[m] != 0
  }

  /** `Polynomial._normalize`: drops the zero coefficients and keeps the others. */
  function Prune(t: Terms): (r: Terms)
    ensures forall m :: Coef(r, m) == Coef(t, m)
    ensures forall m :: m in r <==> Coef(t, m) != 0
    ensures ValidKeys(t) ==> IsPoly(r)
  {
    map m | m in t && t[m] != 0 :: t[m]
  }

  /** The zero polynomial and the constant one. */
  const Zero: Terms := map[]
  const One: Terms := map[map[] := 1]

  // ---------------------------------------------------------------------------------------------
  // Addition, subtraction, negation

  /** The dictionary `__add__` builds before normalising: the coefficients of both, added. */
  function AddRaw(a: Terms, b: Terms): (r: Terms)
    ensures forall m :: Coef(r, m) == Coef(a, m) + Coef(b, m)
    ensures r.Keys == a.Keys + b.Keys
  {
    map m | m in a.Keys + b.Keys :: Coef(a, m) + Coef(b, m)
  }

  /** The dictionary `__sub__` builds before normalising. */
  function SubRaw(a: Terms, b: Terms): (r: Terms)
    ensures forall m :: Coef(r, m) == Coef(a, m) - Coef(b, m)
    ensures r.Keys == a.Keys + b.Keys
  {
    map m | m in a.Keys + b.Keys :: Coef(a, m) - Coef(b, m)
  }

  /** `p + q`. */
  function Sum(p: Terms, q: Terms): (r: Terms)
    ensures ValidKeys(p) && ValidKeys(q) ==> IsPoly(r)
    ensures forall m :: Coef(r, m) == Coef(p, m) + Coef(q, m)
  {
    Prune(AddRaw(p, q))
  }

  /** `p - q`. */
  function Difference(p: Terms, q: Terms): (r: Terms)
    ensures ValidKeys(p) && ValidKeys(q) ==> IsPoly(r)
    ensures forall m :: Coef(r, m) == Coef(p, m) - Coef(q, m)
  {
    Prune(SubRaw(p, q))
  }

  /** `-p`. */
  function Negate(p: Terms): (r: Terms)
    ensures ValidKeys(p) ==> IsPoly(r)
    ensures forall m :: Coef(r, m) == -Coef(p, m)
  {
    Prune(map m | m in p :: -p[m])
  }

  /** `__add__`: builds the dictionary of the sum, then normalises it (`Polynomial(result)`). */
  method Add(p: Terms, q: Terms) returns (r: Terms)
    ensures r == Sum(p, q)
  {
    var result := AddTerms(p, q);
    r := Prune(result);
  }

  /** The loop of `__add__`: copies `p`, then adds each coefficient of `q` into the copy. */
  method AddTerms(p: Terms, q: Terms) returns (result: Terms)
    ensures result == AddRaw(p, q)
  {
    result := p;
    var rest := q;
    while rest != map[]
      invariant AddRaw(result, rest) == AddRaw(p, q)
      decreases |rest|
    {
      var m :| m in rest;
      AddRawStep(result, rest, m);
      RemoveShrinks(rest, m);
      result := result[m := Coef(result, m) + rest[m]];
      rest := rest - {m};
    }
    AddRawEmpty(result);
  }

  /** Moving one entry of `rest` into `result` leaves `result + rest` unchanged. */
  lemma AddRawStep(result: Terms, rest: Terms, m: Monomial)
    requires m in rest
    ensures AddRaw(result[m := Coef(result, m) + rest[m]], rest - {m}) == AddRaw(result, rest)
  {
    var a := AddRaw(result[m := Coef(result, m) + rest[m]], rest - {m});
    var b := AddRaw(result, rest);
    assert a.Keys == b.Keys;
    forall k | k in a
      ensures a[k] == b[k]
    {
      assert Coef(a, k) == Coef(b, k);
    }
  }

  lemma AddRawEmpty(t: Terms)
    ensures AddRaw(t, map[]) == t
  {
    var a := AddRaw(t, map[]);
    assert a.Keys == t.Keys;
    forall k | k in a
      ensures a[k] == t[k]
    {
      assert Coef(a, k) == Coef(t, k);
    }
  }

  /** `__sub__`: builds the dictionary of the difference, then normalises it. */
  method Subtract(p: Terms, q: Terms) returns (r: Terms)
    ensures r == Difference(p, q)
  {
    var result := SubtractTerms(p, q);
    r := Prune(result);
  }

  /** The loop of `__sub__`: copies `p`, then subtracts each coefficient of `q` from the copy. */
  method SubtractTerms(p: Terms, q: Terms) returns (result: Terms)
    ensures result == SubRaw(p, q)
  {
    result := p;
    var rest := q;
    while rest != map[]
      invariant SubRaw(result, rest) == SubRaw(p, q)
      decreases |rest|
    {
      var m :| m in rest;
      SubRawStep(result, rest, m);
      RemoveShrinks(rest, m);
      result := result[m := Coef(result, m) - rest[m]];
      rest := rest - {m};
    }
    SubRawEmpty(result);
  }

  /** Moving one entry of `rest` into `result` leaves `result - rest` unchanged. */
  lemma SubRawStep(result: Terms, rest: Terms, m: Monomial)
    requires m in rest
    ensures SubRaw(result[m := Coef(result, m) - rest[m]], rest - {m}) == SubRaw(result, rest)
  {
    var a := SubRaw(result[m := Coef(result, m) - rest[m]], rest - {m});
    var b := SubRaw(result, rest);
    assert a.Keys == b.Keys;
    forall k | k in a
      ensures a[k] == b[k]
    {
      assert Coef(a, k) == Coef(b, k);
    }
  }

  lemma SubRawEmpty(t: Terms)
    ensures SubRaw(t, map[]) == t
  {
    var a := SubRaw(t, map[]);
    assert a.Keys == t.Keys;
    forall k | k in a
      ensures a[k] == t[k]
    {
      assert Coef(a, k) == Coef(t, k);
    }
  }

  // ---------------------------------------------------------------------------------------------
  // Monomials and multiplication

  /** The monomial whose powers are those of `a` and `b` added: the product of two monomials. */
  function Combine(a: Monomial, b: Monomial): (r: Monomial)
    ensures forall v :: Pow(r, v) == Pow(a, v) + Pow(b, v)
    ensures r.Keys == a.Keys + b.Keys
    ensures ValidMonomial(a) && ValidMonomial(b) ==> ValidMonomial(r)
  {
    map v | v in a.Keys + b.Keys :: Pow(a, v) + Pow(b, v)
  }

  /** Moving one power of `rest` into `powers` leaves their combination unchanged. */
  lemma CombineStep(powers: Monomial, rest: Monomial, v: Symbol)
    requires v in rest
    ensures Combine(powers[v := Pow(powers, v) + rest[v]], rest - {v}) == Combine(powers, rest)
  {
    var a := Combine(powers[v := Pow(powers, v) + rest[v]], rest - {v});
    var b := Combine(powers, rest);
    assert a.Keys == b.Keys;
    forall u | u in a
      ensures a[u] == b[u]
    {
      assert Pow(a, u) == Pow(b, u);
    }
  }

  lemma CombineEmpty(m: Monomial)
    ensures Combine(m, map[]) == m && Combine(map[], m) == m
  {
    var a := Combine(m, map[]);
    assert a.Keys == m.Keys;
    forall u | u in a
      ensures a[u] == m[u]
    {
      assert Pow(a, u) == Pow(m, u);
    }
    var b := Combine(map[], m);
    assert b.Keys == m.Keys;
    forall u | u in b
      ensures b[u] == m[u]
    {
      assert Pow(b, u) == Pow(m, u);
    }
  }

  /**
   * `_combine_monomials`: adds the powers of `m1` and then those of `m2` into an empty
   * dictionary.
   */
  method CombineMonomials(m1: Monomial, m2: Monomial) returns (r: Monomial)
    ensures r == Combine(m1, m2)
  {
    var powers: Monomial := map[];
    var rest := m1;
    CombineEmpty(m1);
    while rest != map[]
      invariant Combine(powers, rest) == m1
      decreases |rest|
    {
      var v :| v in rest;
      CombineStep(powers, rest, v);
      RemoveShrinks(rest, v);
      powers := powers[v := Pow(powers, v) + rest[v]];
      rest := rest - {v};
    }
    CombineEmpty(powers);
    rest := m2;
    while rest != map[]
      invariant Combine(powers, rest) == Combine(m1, m2)
      decreases |rest|
    {
      var v :| v in rest;
      CombineStep(powers, rest, v);
      RemoveShrinks(rest, v);
      powers := powers[v := Pow(powers, v) + rest[v]];
      rest := rest - {v};
    }
    CombineEmpty(powers);
    r := powers;
  }

  /**
   * The product of two coefficients, by repeated addition. The product in `__mul__` is `c1 * c2`
   * (`TimesIsProduct`); the specifications use `Times` so that the solver unfolds products only
   * where a proof asks for them.
   */
  function Times(a: int, b: int): int
    decreases if b < 0 then -b else b
  {
    if b == 0 then 0 else if b > 0 then Times(a, b - 1) + a else Times(a, b + 1) - a
  }

  lemma {:induction false} TimesIsProduct(a: int, b: int)
    ensures Times(a, b) == a * b
    decreases if b < 0 then -b else b
  {
    if b > 0 {
      TimesIsProduct(a, b - 1);
    } else if b < 0 {
      TimesIsProduct(a, b + 1);
    }
  }

  /** Some monomial of a non-empty polynomial; which one is immaterial (see `ProductAnyKey`). */
  ghost function PickKey(t: Terms): (k: Monomial)
    requires t != map[]
    ensures k in t
  {
    var k :| k in t; k
  }

  /** The single entry `c * m`, as a dictionary. */
  function Single(m: Monomial, c: int): (r: Terms)
    ensures forall k :: Coef(r, k) == if k == m then c else 0
  {
    map[m := c]
  }

  /**
   * The dictionary the inner loop of `__mul__` accumulates for one term `c * m1` of the left
   * operand: `c * q[m2]` added in at `m1 * m2` for every monomial `m2` of `q`.
   */
  ghost function MulTermRaw(m1: Monomial, c: int, q: Terms): (r: Terms)
    ensures ValidMonomial(m1) && ValidKeys(q) ==> ValidKeys(r)
    decreases |q|
  {
    if q == map[] then map[]
    else
      var k := PickKey(q);
      AddRaw(Single(Combine(m1, k), Times(c, q[k])), MulTermRaw(m1, c, q - {k}))
  }

  /** The dictionary both loops of `__mul__` accumulate: every term of `p` times every term of `q`. */
  ghost function ProductRaw(p: Terms, q: Terms): (r: Terms)
    ensures ValidKeys(p) && ValidKeys(q) ==> ValidKeys(r)
    decreases |p|
  {
    if p == map[] then map[]
    else
      var k := PickKey(p);
      AddRaw(MulTermRaw(k, p[k], q), ProductRaw(p - {k}, q))
  }

  /** `p * q`. */
  ghost function Product(p: Terms, q: Terms): (r: Terms)
    ensures ValidKeys(p) && ValidKeys(q) ==> IsPoly(r)
  {
    Prune(ProductRaw(p, q))
  }

  /** Two dictionaries on the same monomials with the same coefficients are equal. */
  lemma SameCoefsEqual(a: Terms, b: Terms)
    requires a.Keys == b.Keys
    requires forall k :: Coef(a, k) == Coef(b, k)
    ensures a == b
  {
    forall k | k in a
      ensures a[k] == b[k]
    {
      assert Coef(a, k) == Coef(b, k);
    }
  }

  lemma RemoveAbsent<K, V>(t: map<K, V>, k: K)
    requires k !in t
    ensures t - {k} == t
  {
  }

  lemma RemoveOnly<K, V>(k: K, v: V)
    ensures map[k := v] - {k} == map[]
  {
  }

  /** Removing a key makes a map smaller. */
  lemma RemoveShrinks<K, V>(t: map<K, V>, k: K)
    requires k in t
    ensures |t - {k}| < |t|
  {
    assert (t - {k}).Keys == t.Keys - {k};
  }

  lemma RemoveSwap<K, V>(t: map<K, V>, j: K, k: K)
    ensures t - {j} - {k} == t - {k} - {j}
  {
  }

  lemma AddRawEmptyLeft(t: Terms)
    ensures AddRaw(map[], t) == t
  {
    SameCoefsEqual(AddRaw(map[], t), t);
  }

  lemma AddRawAssoc(a: Terms, b: Terms, c: Terms)
    ensures AddRaw(AddRaw(a, b), c) == AddRaw(a, AddRaw(b, c))
  {
    SameCoefsEqual(AddRaw(AddRaw(a, b), c), AddRaw(a, AddRaw(b, c)));
  }

  lemma AddRawSwap(a: Terms, b: Terms, c: Terms)
    ensures AddRaw(a, AddRaw(b, c)) == AddRaw(b, AddRaw(a, c))
  {
    SameCoefsEqual(AddRaw(a, AddRaw(b, c)), AddRaw(b, AddRaw(a, c)));
  }


  /** `MulTermRaw` may take the monomials of `q` in any order. */
  lemma {:induction false} MulTermAnyKey(m1: Monomial, c: int, q: Terms, k: Monomial)
    requires k in q
    ensures MulTermRaw(m1, c, q) == AddRaw(Single(Combine(m1, k), Times(c, q[k])), MulTermRaw(m1, c, q - {k}))
    decreases |q|
  {
    var j := PickKey(q);
    if j != k {
      MulTermAnyKey(m1, c, q - {j}, k);
      MulTermAnyKey(m1, c, q - {k}, j);
      RemoveSwap(q, j, k);
      AddRawSwap(Single(Combine(m1, j), Times(c, q[j])), Single(Combine(m1, k), Times(c, q[k])), MulTermRaw(m1, c, q - {j} - {k}));
    }
  }

  /** `ProductRaw` may take the monomials of `p` in any order. */
  lemma {:induction false} ProductAnyKey(p: Terms, q: Terms, k: Monomial)
    requires k in p
    ensures ProductRaw(p, q) == AddRaw(MulTermRaw(k, p[k], q), ProductRaw(p - {k}, q))
    decreases |p|
  {
    var j := PickKey(p);
    if j != k {
      ProductAnyKey(p - {j}, q, k);
      ProductAnyKey(p - {k}, q, j);
      RemoveSwap(p, j, k);
      AddRawSwap(MulTermRaw(j, p[j], q), MulTermRaw(k, p[k], q), ProductRaw(p - {j} - {k}, q));
    }
  }

  /** Adding `c` into `t` at `m` is adding the one-term dictionary `c * m`. */
  lemma UpdateIsAdd(t: Terms, m: Monomial, c: int)
    ensures t[m := Coef(t, m) + c] == AddRaw(t, Single(m, c))
  {
    SameCoefsEqual(t[m := Coef(t, m) + c], AddRaw(t, Single(m, c)));
  }

  /**
   * The inner loop of `__mul__`: adds `c1 * c2` into `result` at `m1 * m2` for every term
   * `c2 * m2` of `q`.
   */
  method MultiplyTerm(result0: Terms, m1: Monomial, c1: int, q: Terms) returns (result: Terms)
    ensures result == AddRaw(result0, MulTermRaw(m1, c1, q))
  {
    result := result0;
    var others := q;
    while others != map[]
      invariant AddRaw(result, MulTermRaw(m1, c1, others)) == AddRaw(result0, MulTermRaw(m1, c1, q))
      decreases |others|
    {
      var m2 :| m2 in others;
      var c2 := others[m2];
      var combined := CombineMonomials(m1, m2);
      var product := c1 * c2;
      TimesIsProduct(c1, c2);
      MulTermAnyKey(m1, c1, others, m2);
      AddRawAssoc(result, Single(combined, product), MulTermRaw(m1, c1, others - {m2}));
      UpdateIsAdd(result, combined, product);
      RemoveShrinks(others, m2);
      result := result[combined := Coef(result, combined) + product];
      others := others - {m2};
    }
    AddRawEmpty(result);
  }

  /** One pass of the outer loop of `__mul__` leaves `result + rest * q` unchanged. */
  lemma ProductStep(result: Terms, rest: Terms, q: Terms, m1: Monomial)
    requires m1 in rest
    ensures AddRaw(AddRaw(result, MulTermRaw(m1, rest[m1], q)), ProductRaw(rest - {m1}, q))
         == AddRaw(result, ProductRaw(rest, q))
  {
    ProductAnyKey(rest, q, m1);
    AddRawAssoc(result, MulTermRaw(m1, rest[m1], q), ProductRaw(rest - {m1}, q));
  }

  /**
   * `__mul__`: for every term of `p` and every term of `q`, adds the product of the coefficients
   * into the dictionary at the combined monomial; then normalises.
   */
  method Multiply(p: Terms, q: Terms) returns (r: Terms)
    ensures r == Product(p, q)
  {
    var result := MultiplyTerms(p, q);
    r := Prune(result);
  }

  /** The nested loops of `__mul__`: the products of all pairs of terms, added up by monomial. */
  method MultiplyTerms(p: Terms, q: Terms) returns (result: Terms)
    ensures result == ProductRaw(p, q)
  {
    result := map[];
    var rest := p;
    AddRawEmptyLeft(ProductRaw(p, q));
    while rest != map[]
      invariant AddRaw(result, ProductRaw(rest, q)) == ProductRaw(p, q)
      decreases |rest|
    {
      var m1 :| m1 in rest;
      var c1 := rest[m1];
      ProductStep(result, rest, q, m1);
      RemoveShrinks(rest, m1);
      result := MultiplyTerm(result, m1, c1, q);
      rest := rest - {m1};
    }
    AddRawEmpty(result);
  }

  /** `p` multiplied by itself until there are `n` factors: `p * p * ... * p`, grouped to the left. */
  ghost function Power(p: Terms, n: nat): (r: Terms)
    requires n >= 1
    ensures IsPoly(p) ==> IsPoly(r)
  {
    if n == 1 then p else Product(Power(p, n - 1), p)
  }

  // ---------------------------------------------------------------------------------------------
  // From expression trees to polynomials

  /** The polynomial of an integer constant: no term at all for 0. */
  function Constant(n: int): (r: Terms)
    ensures IsPoly(r)
    ensures Coef(r, map[]) == n && forall m :: m != map[] ==> Coef(r, m) == 0
  {
    if n == 0 then map[] else map[map[] := n]
  }

  /** The polynomial `1 * s`: the symbol `s` to the power one. */
  function SymbolPoly(s: Symbol): (r: Terms)
    ensures IsPoly(r)
    ensures r.Keys == {map[s := 1]} && r[map[s := 1]] == 1
  {
    map[map[s := 1] := 1]
  }

  datatype ExpandError = UnsupportedUnary(op: string) | UnsupportedBinary(op: string)

  /**
   * `is_expandable`: whether the tree uses only numbers, variables, unary minus, `+`, `-` and
   * `*`. Such a tree always normalises.
   */
  predicate IsExpandable(e: Expr)
    ensures IsExpandable(e) ==> Expand(e).Ok?
  {
    match e
    case Number(_) => true
    case Variable(_) => true
    case UnaryOp(op, x) => op == "-" && IsExpandable(x)
    case BinOp(l, op, r) => (op == "+" || op == "-" || op == "*") && IsExpandable(l) && IsExpandable(r)
    case FunctionCall(_, _) => false
  }

  /**
   * `ast_to_string`: the fully parenthesised text of a tree, the name an atom is known by. Every
   * binary and unary operation is wrapped in parentheses; a call is written `f(arg)`.
   */
  function AstToString(e: Expr): (s: string)
    ensures (e.BinOp? || e.UnaryOp?) ==> |s| >= 2 && s[0] == '(' && s[|s| - 1] == ')'
  {
    match e
    case Number(v) => IntToString(v)
    case Variable(name) => name
    case BinOp(l, op, r) => "(" + AstToString(l) + op + AstToString(r) + ")"
    case UnaryOp(op, x) => "(" + op + AstToString(x) + ")"
    case FunctionCall(f, x) => f + "(" + AstToString(x) + ")"
  }

  /** The polynomial of a subexpression kept whole. */
  function AtomOf(e: Expr): (r: Terms)
    ensures IsPoly(r)
  {
    SymbolPoly(Atom(AstToString(e)))
  }

  /**
   * `expand_to_polynomial`: the polynomial of a tree. `+`, `-`, `*` and unary minus are
   * expanded; a power whose exponent is the literal 2 or 3 is multiplied out; any other power, a
   * quotient and a function call become atoms; another operator is an error.
   */
  ghost function Expand(e: Expr): (r: Result<Terms, ExpandError>)
    ensures r.Ok? ==> IsPoly(r.value)
  {
    match e
    case Number(v) => Ok(Constant(v))
    case Variable(name) => Ok(SymbolPoly(Var(name)))
    case UnaryOp(op, x) =>
      if op == "-" then
        (match Expand(x)
         case Ok(p) => Ok(Negate(p))
         case Err(err) => Err(err))
      else Err(UnsupportedUnary(op))
    case BinOp(l, op, r) =>
      if op == "+" || op == "-" || op == "*" then
        (match Expand(l)
         case Err(err) => Err(err)
         case Ok(a) =>
           match Expand(r)
           case Err(err) => Err(err)
           case Ok(b) => Ok(if op == "+" then Sum(a, b) else if op == "-" then Difference(a, b) else Product(a, b)))
      else if op == "^" then
        if r.Number? && (r.value == 2 || r.value == 3) then
          (match Expand(l)
           case Ok(b) => Ok(Power(b, r.value))
           case Err(err) => Err(err))
        else Ok(AtomOf(e))
      else if op == "/" then Ok(AtomOf(e))
      else Err(UnsupportedBinary(op))
    case FunctionCall(_, _) => Ok(AtomOf(e))
  }

  /** `expand_to_polynomial`, following the recursion and the loop of the original. */
  method ExpandToPolynomial(e: Expr) returns (r: Result<Terms, ExpandError>)
    ensures r == Expand(e)
    decreases e
  {
    match e
    case Number(v) =>
      r := Ok(Constant(v));
    case Variable(name) =>
      r := Ok(SymbolPoly(Var(name)));
    case UnaryOp(op, x) =>
      if op == "-" {
        var inner := ExpandToPolynomial(x);
        if inner.Err? {
          return Err(inner.error);
        }
        r := Ok(Negate(inner.value));
      } else {
        r := Err(UnsupportedUnary(op));
      }
    case BinOp(l, op, right) =>
      if op == "+" || op == "-" || op == "*" {
        var a := ExpandToPolynomial(l);
        if a.Err? {
          return Err(a.error);
        }
        var b := ExpandToPolynomial(right);
        if b.Err? {
          return Err(b.error);
        }
        var p: Terms;
        if op == "+" {
          p := Add(a.value, b.value);
        } else if op == "-" {
          p := Subtract(a.value, b.value);
        } else {
          p := Multiply(a.value, b.value);
        }
        r := Ok(p);
      } else if op == "^" {
        if right.Number? && (right.value == 2 || right.value == 3) {
          var base := ExpandToPolynomial(l);
          if base.Err? {
            return Err(base.error);
          }
          var result := base.value;
          var i := 0;
          while i < right.value - 1
            invariant 0 <= i <= right.value - 1
            invariant result == Power(base.value, i + 1)
          {
            result := Multiply(result, base.value);
            i := i + 1;
          }
          r := Ok(result);
        } else {
          r := Ok(AtomOf(e));
        }
      } else if op == "/" {
        r := Ok(AtomOf(e));
      } else {
        r := Err(UnsupportedBinary(op));
      }
    case FunctionCall(_, _) =>
      r := Ok(AtomOf(e));
  }

  /** `normalize_expression`: the same as `expand_to_polynomial`. */
  method NormalizeExpression(e: Expr) returns (r: Result<Terms, ExpandError>)
    ensures r == Expand(e)
  {
    r := ExpandToPolynomial(e);
  }
}
