/**
 * Algebraic laws of the polynomial operations. Most are shown first for the dictionaries the
 * operations build before normalising, up to having the same coefficients (`SameCoefs`), and then
 * carried over to normalised polynomials, where having the same coefficients is equality.
 */
module PolynomialAlgebra {
  import opened Polynomials

  ghost predicate SameCoefs(a: Terms, b: Terms) {
    forall m :: Coef(a, m) == Coef(b, m)
  }

  // ---------------------------------------------------------------------------------------------
  // Normal forms

  /** Dictionaries with the same coefficients normalise to the same polynomial. */
  lemma PruneSameCoefs(a: Terms, b: Terms)
    requires SameCoefs(a, b)
    ensures Prune(a) == Prune(b)
  {
    assert Prune(a).Keys == Prune(b).Keys;
    SameCoefsEqual(Prune(a), Prune(b));
  }

  /** A normalised polynomial is determined by its coefficients. */
  lemma PolyUnique(a: Terms, b: Terms)
    requires IsPoly(a) && IsPoly(b) && SameCoefs(a, b)
    ensures a == b
  {
    assert a.Keys == b.Keys by {
      forall m | m in a ensures m in b {
        assert Coef(a, m) != 0;
      }
      forall m | m in b ensures m in a {
        assert Coef(b, m) != 0;
      }
    }
    SameCoefsEqual(a, b);
  }

  /** Normalising a normalised polynomial changes nothing. */
  lemma PruneIdempotent(p: Terms)
    requires IsPoly(p)
    ensures Prune(p) == p
  {
    PolyUnique(Prune(p), p);
  }

  /** Normalising commutes with removing a monomial. */
  lemma PruneRemove(t: Terms, k: Monomial)
    ensures Prune(t) - {k} == Prune(t - {k})
  {
    assert (Prune(t) - {k}).Keys == Prune(t - {k}).Keys;
    SameCoefsEqual(Prune(t) - {k}, Prune(t - {k}));
  }

  // ---------------------------------------------------------------------------------------------
  // Monomials

  lemma CombineComm(a: Monomial, b: Monomial)
    ensures Combine(a, b) == Combine(b, a)
  {
  }

  lemma CombineAssoc(a: Monomial, b: Monomial, c: Monomial)
    ensures Combine(Combine(a, b), c) == Combine(a, Combine(b, c))
  {
    var l := Combine(Combine(a, b), c);
    var r := Combine(a, Combine(b, c));
    assert l.Keys == r.Keys;
    forall v | v in l
      ensures l[v] == r[v]
    {
      assert Pow(l, v) == Pow(r, v);
    }
  }

  // ---------------------------------------------------------------------------------------------
  // Coefficient arithmetic

  lemma MulDistrib(a: int, b: int, c: int)
    ensures a * (b + c) == a * b + a * c
  {
  }

  lemma MulDistribLeft(a: int, b: int, c: int)
    ensures (a + b) * c == a * c + b * c
  {
  }

  lemma MulAssoc(a: int, b: int, c: int)
    ensures (a * b) * c == a * (b * c)
  {
  }

  lemma TimesDistrib(a: int, b: int, c: int)
    ensures Times(a, b + c) == Times(a, b) + Times(a, c)
  {
    TimesIsProduct(a, b + c);
    TimesIsProduct(a, b);
    TimesIsProduct(a, c);
    MulDistrib(a, b, c);
  }

  lemma TimesDistribLeft(a: int, b: int, c: int)
    ensures Times(a + b, c) == Times(a, c) + Times(b, c)
  {
    TimesIsProduct(a + b, c);
    TimesIsProduct(a, c);
    TimesIsProduct(b, c);
    MulDistribLeft(a, b, c);
  }

  lemma TimesZero(a: int)
    ensures Times(a, 0) == 0 && Times(0, a) == 0
  {
    TimesIsProduct(0, a);
  }

  lemma TimesOne(a: int)
    ensures Times(1, a) == a
  {
    TimesIsProduct(1, a);
  }

  lemma TimesComm(a: int, b: int)
    ensures Times(a, b) == Times(b, a)
  {
    TimesIsProduct(a, b);
    TimesIsProduct(b, a);
  }

  lemma TimesAssoc(a: int, b: int, c: int)
    ensures Times(Times(a, b), c) == Times(a, Times(b, c))
  {
    TimesIsProduct(a, b);
    TimesIsProduct(b, c);
    TimesIsProduct(Times(a, b), c);
    TimesIsProduct(a, Times(b, c));
    MulAssoc(a, b, c);
  }

  // ---------------------------------------------------------------------------------------------
  // Rearranging sums of dictionaries

  lemma AddRawComm(a: Terms, b: Terms)
    ensures AddRaw(a, b) == AddRaw(b, a)
  {
    SameCoefsEqual(AddRaw(a, b), AddRaw(b, a));
  }

  lemma AddRawShuffle(a: Terms, b: Terms, c: Terms, d: Terms)
    ensures AddRaw(AddRaw(a, b), AddRaw(c, d)) == AddRaw(AddRaw(a, c), AddRaw(b, d))
  {
    AddRawAssoc(a, b, AddRaw(c, d));
    AddRawAssoc(b, c, d);
    AddRawComm(b, c);
    AddRawAssoc(c, b, d);
    AddRawAssoc(a, c, AddRaw(b, d));
  }

  /** A dictionary is its entry at `k` plus the rest. */
  lemma SplitKey(p: Terms, k: Monomial)
    requires k in p
    ensures AddRaw(Single(k, p[k]), p - {k}) == p
  {
    SameCoefsEqual(AddRaw(Single(k, p[k]), p - {k}), p);
  }

  lemma SplitKeyAdd(q: Terms, k: Monomial, r: Terms)
    requires k in q
    ensures AddRaw(q, r) == AddRaw(Single(k, q[k]), AddRaw(q - {k}, r))
  {
    SplitKey(q, k);
    AddRawAssoc(Single(k, q[k]), q - {k}, r);
  }

  /** Removing the entry just added. */
  lemma AddSingleRemove(k: Monomial, c: int, b: Terms)
    ensures k in AddRaw(Single(k, c), b) && AddRaw(Single(k, c), b)[k] == c + Coef(b, k)
    ensures AddRaw(Single(k, c), b) - {k} == b - {k}
  {
    SameCoefsEqual(AddRaw(Single(k, c), b) - {k}, b - {k});
  }

  /** Splitting the coefficient of one entry in two. */
  lemma SingleSplit(m: Monomial, x: int, y: int, z: int, tail: Terms)
    requires x == y + z
    ensures AddRaw(Single(m, x), tail) == AddRaw(Single(m, y), AddRaw(Single(m, z), tail))
  {
    SameCoefsEqual(AddRaw(Single(m, x), tail), AddRaw(Single(m, y), AddRaw(Single(m, z), tail)));
  }

  // ---------------------------------------------------------------------------------------------
  // One term times a polynomial

  /** `MulTermRaw` is linear in the coefficient. */
  lemma {:induction false} MulTermAddCoef(m1: Monomial, c: int, d: int, q: Terms)
    ensures MulTermRaw(m1, c + d, q) == AddRaw(MulTermRaw(m1, c, q), MulTermRaw(m1, d, q))
    decreases |q|
  {
    if q == map[] {
      AddRawEmpty(map[]);
    } else {
      var k := PickKey(q);
      var C := Combine(m1, k);
      MulTermAddCoef(m1, c, d, q - {k});
      TimesDistribLeft(c, d, q[k]);
      SingleSplit(C, Times(c + d, q[k]), Times(c, q[k]), Times(d, q[k]), AddRaw(MulTermRaw(m1, c, q - {k}), MulTermRaw(m1, d, q - {k})));
      AddRawShuffle(Single(C, Times(c, q[k])), MulTermRaw(m1, c, q - {k}), Single(C, Times(d, q[k])), MulTermRaw(m1, d, q - {k}));
      AddRawAssoc(Single(C, Times(c, q[k])), Single(C, Times(d, q[k])), AddRaw(MulTermRaw(m1, c, q - {k}), MulTermRaw(m1, d, q - {k})));
      AddRawAssoc(Single(C, Times(d, q[k])), MulTermRaw(m1, c, q - {k}), MulTermRaw(m1, d, q - {k}));
    }
  }

  /** One term times a polynomial with an entry added in front. */
  /** `MulTermAnyKey` with the entry's coefficient and the remainder given by name. */
  lemma MulTermEntry(m1: Monomial, c: int, t: Terms, k: Monomial, x: int, rest: Terms)
    requires k in t && t[k] == x && t - {k} == rest
    ensures MulTermRaw(m1, c, t) == AddRaw(Single(Combine(m1, k), Times(c, x)), MulTermRaw(m1, c, rest))
  {
    MulTermAnyKey(m1, c, t, k);
  }

  /** `ProductAnyKey` with the entry's coefficient and the remainder given by name. */
  lemma ProductEntry(t: Terms, q: Terms, k: Monomial, x: int, rest: Terms)
    requires k in t && t[k] == x && t - {k} == rest
    ensures ProductRaw(t, q) == AddRaw(MulTermRaw(k, x, q), ProductRaw(rest, q))
  {
    ProductAnyKey(t, q, k);
  }

  lemma MulTermAddSingle(m1: Monomial, c: int, k: Monomial, d: int, r: Terms)
    ensures MulTermRaw(m1, c, AddRaw(Single(k, d), r))
         == AddRaw(Single(Combine(m1, k), Times(c, d)), MulTermRaw(m1, c, r))
  {
    var t := AddRaw(Single(k, d), r);
    AddSingleRemove(k, d, r);
    if k in r {
      MulTermAddOld(m1, c, k, d, r, t);
    } else {
      RemoveAbsent(r, k);
      MulTermEntry(m1, c, t, k, d, r);
    }
  }

  /** `t` is `r` with `d` added to the coefficient `r` already has at `k`. */
  lemma MulTermAddOld(m1: Monomial, c: int, k: Monomial, d: int, r: Terms, t: Terms)
    requires k in r && k in t && t[k] == d + r[k] && t - {k} == r - {k}
    ensures MulTermRaw(m1, c, t) == AddRaw(Single(Combine(m1, k), Times(c, d)), MulTermRaw(m1, c, r))
  {
    var C := Combine(m1, k);
    var T := MulTermRaw(m1, c, r - {k});
    MulTermEntry(m1, c, t, k, d + r[k], r - {k});
    MulTermAnyKey(m1, c, r, k);
    TimesDistrib(c, d, r[k]);
    SingleSplit(C, Times(c, d + r[k]), Times(c, d), Times(c, r[k]), T);
  }

  /** `MulTermRaw` is linear in the polynomial. */
  lemma {:induction false} MulTermLinear(m1: Monomial, c: int, q: Terms, r: Terms)
    ensures MulTermRaw(m1, c, AddRaw(q, r)) == AddRaw(MulTermRaw(m1, c, q), MulTermRaw(m1, c, r))
    decreases |q|
  {
    if q == map[] {
      AddRawEmptyLeft(r);
      AddRawEmptyLeft(MulTermRaw(m1, c, r));
    } else {
      var k := PickKey(q);
      SplitKeyAdd(q, k, r);
      MulTermAddSingle(m1, c, k, q[k], AddRaw(q - {k}, r));
      MulTermLinear(m1, c, q - {k}, r);
      AddRawAssoc(Single(Combine(m1, k), Times(c, q[k])), MulTermRaw(m1, c, q - {k}), MulTermRaw(m1, c, r));
    }
  }

  lemma MulTermSingle(m1: Monomial, c: int, k: Monomial, d: int)
    ensures MulTermRaw(m1, c, Single(k, d)) == Single(Combine(m1, k), Times(c, d))
  {
    assert k in Single(k, d);
    assert PickKey(Single(k, d)) == k;
    RemoveOnly(k, d);
    AddRawEmpty(Single(Combine(m1, k), Times(c, d)));
  }

  /** Multiplying by two terms in turn is multiplying by their product. */
  lemma {:induction false} MulTermNested(k: Monomial, c: int, j: Monomial, d: int, r: Terms)
    ensures MulTermRaw(k, c, MulTermRaw(j, d, r)) == MulTermRaw(Combine(k, j), Times(c, d), r)
    decreases |r|
  {
    if r != map[] {
      var i := PickKey(r);
      MulTermAddSingle(k, c, Combine(j, i), Times(d, r[i]), MulTermRaw(j, d, r - {i}));
      MulTermNested(k, c, j, d, r - {i});
      CombineAssoc(k, j, i);
      TimesAssoc(c, d, r[i]);
    }
  }

  /** The term `1` (the empty monomial with coefficient one) changes nothing. */
  lemma {:induction false} MulTermUnit(p: Terms)
    ensures MulTermRaw(map[], 1, p) == p
    decreases |p|
  {
    if p != map[] {
      var i := PickKey(p);
      MulTermUnit(p - {i});
      CombineEmpty(i);
      TimesOne(p[i]);
      SplitKey(p, i);
    }
  }

  /** A term with coefficient zero contributes only zero coefficients. */
  lemma {:induction false} MulTermZeroCoef(m1: Monomial, q: Terms)
    ensures SameCoefs(MulTermRaw(m1, 0, q), map[])
    decreases |q|
  {
    if q != map[] {
      MulTermZeroCoef(m1, q - {PickKey(q)});
      TimesZero(q[PickKey(q)]);
    }
  }

  // ---------------------------------------------------------------------------------------------
  // Products of dictionaries

  lemma {:induction false} ProductEmptyRight(p: Terms)
    ensures ProductRaw(p, map[]) == map[]
    decreases |p|
  {
    if p != map[] {
      ProductEmptyRight(p - {PickKey(p)});
      AddRawEmpty(map[]);
    }
  }

  lemma ProductAddSingle(k: Monomial, c: int, b: Terms, q: Terms)
    ensures ProductRaw(AddRaw(Single(k, c), b), q) == AddRaw(MulTermRaw(k, c, q), ProductRaw(b, q))
  {
    var t := AddRaw(Single(k, c), b);
    AddSingleRemove(k, c, b);
    if k in b {
      ProductAddOld(k, c, b, q, t);
    } else {
      RemoveAbsent(b, k);
      ProductEntry(t, q, k, c, b);
    }
  }

  /** `t` is `b` with `c` added to the coefficient `b` already has at `k`. */
  lemma ProductAddOld(k: Monomial, c: int, b: Terms, q: Terms, t: Terms)
    requires k in b && k in t && t[k] == c + b[k] && t - {k} == b - {k}
    ensures ProductRaw(t, q) == AddRaw(MulTermRaw(k, c, q), ProductRaw(b, q))
  {
    var T := ProductRaw(b - {k}, q);
    ProductEntry(t, q, k, c + b[k], b - {k});
    ProductAnyKey(b, q, k);
    MulTermAddCoef(k, c, b[k], q);
    AddRawAssoc(MulTermRaw(k, c, q), MulTermRaw(k, b[k], q), T);
  }

  lemma {:induction false} ProductLinearLeft(a: Terms, b: Terms, q: Terms)
    ensures ProductRaw(AddRaw(a, b), q) == AddRaw(ProductRaw(a, q), ProductRaw(b, q))
    decreases |a|
  {
    if a == map[] {
      AddRawEmptyLeft(b);
      AddRawEmptyLeft(ProductRaw(b, q));
    } else {
      var k := PickKey(a);
      SplitKeyAdd(a, k, b);
      ProductAddSingle(k, a[k], AddRaw(a - {k}, b), q);
      ProductLinearLeft(a - {k}, b, q);
      AddRawAssoc(MulTermRaw(k, a[k], q), ProductRaw(a - {k}, q), ProductRaw(b, q));
    }
  }

  lemma {:induction false} ProductLinearRight(p: Terms, q: Terms, r: Terms)
    ensures ProductRaw(p, AddRaw(q, r)) == AddRaw(ProductRaw(p, q), ProductRaw(p, r))
    decreases |p|
  {
    if p == map[] {
      AddRawEmpty(map[]);
    } else {
      var k := PickKey(p);
      MulTermLinear(k, p[k], q, r);
      ProductLinearRight(p - {k}, q, r);
      AddRawShuffle(MulTermRaw(k, p[k], q), MulTermRaw(k, p[k], r), ProductRaw(p - {k}, q), ProductRaw(p - {k}, r));
    }
  }

  lemma {:induction false} ProductSingleRight(q: Terms, k: Monomial, c: int)
    ensures ProductRaw(q, Single(k, c)) == MulTermRaw(k, c, q)
    decreases |q|
  {
    if q != map[] {
      var j := PickKey(q);
      MulTermSingle(j, q[j], k, c);
      ProductSingleRight(q - {j}, k, c);
      MulTermAnyKey(k, c, q, j);
      CombineComm(j, k);
      TimesComm(q[j], c);
    }
  }

  lemma {:induction false} ProductCommRaw(p: Terms, q: Terms)
    ensures ProductRaw(p, q) == ProductRaw(q, p)
    decreases |p|
  {
    if p == map[] {
      ProductEmptyRight(q);
    } else {
      var k := PickKey(p);
      ProductSingleRight(q, k, p[k]);
      ProductCommRaw(p - {k}, q);
      ProductLinearRight(q, Single(k, p[k]), p - {k});
      SplitKey(p, k);
    }
  }

  lemma {:induction false} ProductMulTerm(k: Monomial, c: int, q: Terms, r: Terms)
    ensures ProductRaw(MulTermRaw(k, c, q), r) == MulTermRaw(k, c, ProductRaw(q, r))
    decreases |q|
  {
    if q != map[] {
      var j := PickKey(q);
      ProductAddSingle(Combine(k, j), Times(c, q[j]), MulTermRaw(k, c, q - {j}), r);
      MulTermNested(k, c, j, q[j], r);
      ProductMulTerm(k, c, q - {j}, r);
      MulTermLinear(k, c, MulTermRaw(j, q[j], r), ProductRaw(q - {j}, r));
    }
  }

  lemma {:induction false} ProductAssocRaw(p: Terms, q: Terms, r: Terms)
    ensures ProductRaw(ProductRaw(p, q), r) == ProductRaw(p, ProductRaw(q, r))
    decreases |p|
  {
    if p != map[] {
      var k := PickKey(p);
      ProductLinearLeft(MulTermRaw(k, p[k], q), ProductRaw(p - {k}, q), r);
      ProductMulTerm(k, p[k], q, r);
      ProductAssocRaw(p - {k}, q, r);
    }
  }

  lemma ProductOneLeft(p: Terms)
    ensures ProductRaw(One, p) == p
  {
    var e: Monomial := map[];
    assert e in One;
    assert PickKey(One) == e;
    RemoveOnly(e, 1);
    MulTermUnit(p);
    AddRawEmpty(p);
  }

  lemma AddRawRespects(x: Terms, a: Terms, b: Terms)
    requires SameCoefs(a, b)
    ensures SameCoefs(AddRaw(x, a), AddRaw(x, b))
  {
  }

  lemma AddRawZeros(z: Terms, a: Terms, b: Terms)
    requires SameCoefs(z, map[]) && SameCoefs(a, b)
    ensures SameCoefs(AddRaw(z, a), b)
  {
  }

  /** Entries with coefficient zero in the left factor do not change the product's coefficients. */
  lemma {:induction false} ProductPrune(p: Terms, q: Terms)
    ensures SameCoefs(ProductRaw(p, q), ProductRaw(Prune(p), q))
    decreases |p|
  {
    if p == map[] {
      assert Prune(p) == map[];
    } else {
      var k := PickKey(p);
      PruneRemove(p, k);
      ProductPrune(p - {k}, q);
      if p[k] == 0 {
        RemoveAbsent(Prune(p), k);
        MulTermZeroCoef(k, q);
        AddRawZeros(MulTermRaw(k, 0, q), ProductRaw(p - {k}, q), ProductRaw(Prune(p - {k}), q));
      } else {
        ProductAnyKey(Prune(p), q, k);
        AddRawRespects(MulTermRaw(k, p[k], q), ProductRaw(p - {k}, q), ProductRaw(Prune(p - {k}), q));
      }
    }
  }

  lemma ProductPruneRight(p: Terms, q: Terms)
    ensures SameCoefs(ProductRaw(p, q), ProductRaw(p, Prune(q)))
  {
    ProductCommRaw(p, q);
    ProductPrune(q, p);
    ProductCommRaw(Prune(q), p);
  }

  /** Normalising the left factor first does not change the product. */
  lemma ProductNormalLeft(p: Terms, q: Terms)
    ensures Product(Prune(p), q) == Product(p, q)
  {
    ProductPrune(p, q);
    PruneSameCoefs(ProductRaw(p, q), ProductRaw(Prune(p), q));
  }

  /** Normalising the right factor first does not change the product. */
  lemma ProductNormalRight(p: Terms, q: Terms)
    ensures Product(p, Prune(q)) == Product(p, q)
  {
    ProductPruneRight(p, q);
    PruneSameCoefs(ProductRaw(p, q), ProductRaw(p, Prune(q)));
  }

  /** Normalising both summands first does not change the sum. */
  lemma SumNormal(a: Terms, b: Terms)
    ensures Sum(Prune(a), Prune(b)) == Prune(AddRaw(a, b))
  {
    PruneSameCoefs(AddRaw(a, b), AddRaw(Prune(a), Prune(b)));
  }

  // ---------------------------------------------------------------------------------------------
  // Laws of the normalised operations

  lemma PruneZeros(t: Terms)
    requires forall m :: Coef(t, m) == 0
    ensures Prune(t) == map[]
  {
    PruneSameCoefs(t, map[]);
    assert Prune(map[]) == map[];
  }

  /** `p + q == q + p` */
  lemma SumComm(p: Terms, q: Terms)
    ensures Sum(p, q) == Sum(q, p)
  {
    AddRawComm(p, q);
  }

  /** `(p + q) + r == p + (q + r)` */
  lemma SumAssoc(p: Terms, q: Terms, r: Terms)
    ensures Sum(Sum(p, q), r) == Sum(p, Sum(q, r))
  {
    PruneSameCoefs(AddRaw(Sum(p, q), r), AddRaw(p, Sum(q, r)));
  }

  /** `p + 0 == p` */
  lemma SumZero(p: Terms)
    requires IsPoly(p)
    ensures Sum(p, Zero) == p && Sum(Zero, p) == p
  {
    AddRawEmpty(p);
    AddRawEmptyLeft(p);
    PruneIdempotent(p);
  }

  /** `-(-p) == p` */
  lemma NegateNegate(p: Terms)
    requires IsPoly(p)
    ensures Negate(Negate(p)) == p
  {
    PolyUnique(Negate(Negate(p)), p);
  }

  /** `p + (-p) == 0` */
  lemma SumNegate(p: Terms)
    ensures Sum(p, Negate(p)) == Zero
  {
    PruneZeros(AddRaw(p, Negate(p)));
  }

  /** `p - q == p + (-q)` */
  lemma DifferenceIsSumNegate(p: Terms, q: Terms)
    ensures Difference(p, q) == Sum(p, Negate(q))
  {
    PruneSameCoefs(SubRaw(p, q), AddRaw(p, Negate(q)));
  }

  /** `p - p == 0` */
  lemma DifferenceSelf(p: Terms)
    ensures Difference(p, p) == Zero
  {
    PruneZeros(SubRaw(p, p));
  }

  /** `p * q == q * p` */
  lemma ProductComm(p: Terms, q: Terms)
    ensures Product(p, q) == Product(q, p)
  {
    ProductCommRaw(p, q);
  }

  /** `(p * q) * r == p * (q * r)` */
  lemma ProductAssoc(p: Terms, q: Terms, r: Terms)
    ensures Product(Product(p, q), r) == Product(p, Product(q, r))
  {
    ProductNormalLeft(ProductRaw(p, q), r);
    ProductAssocRaw(p, q, r);
    ProductNormalRight(p, ProductRaw(q, r));
  }

  /** `p * (q + r) == p * q + p * r` */
  lemma ProductDistrib(p: Terms, q: Terms, r: Terms)
    ensures Product(p, Sum(q, r)) == Sum(Product(p, q), Product(p, r))
  {
    ProductNormalRight(p, AddRaw(q, r));
    ProductLinearRight(p, q, r);
    SumNormal(ProductRaw(p, q), ProductRaw(p, r));
  }

  /** `(p + q) * r == p * r + q * r` */
  lemma ProductDistribLeft(p: Terms, q: Terms, r: Terms)
    ensures Product(Sum(p, q), r) == Sum(Product(p, r), Product(q, r))
  {
    ProductComm(Sum(p, q), r);
    ProductDistrib(r, p, q);
    ProductComm(r, p);
    ProductComm(r, q);
  }

  /** `1 * p == p` and `p * 1 == p` */
  lemma ProductOne(p: Terms)
    requires IsPoly(p)
    ensures Product(One, p) == p && Product(p, One) == p
  {
    ProductOneLeft(p);
    PruneIdempotent(p);
    ProductComm(p, One);
  }

  /** `0 * p == 0` and `p * 0 == 0` */
  lemma ProductZero(p: Terms)
    ensures Product(Zero, p) == Zero && Product(p, Zero) == Zero
  {
    ProductEmptyRight(p);
    assert Prune(map[]) == map[];
  }

  /** The polynomial two, `1 + 1`. */
  lemma TwoIsOnePlusOne()
    ensures Constant(2) == Sum(One, One)
  {
    PolyUnique(Constant(2), Sum(One, One));
  }

  /** `(p + 1) * (p + 1) == p * p + 2 * p + 1` */
  lemma SquareOfSum(p: Terms)
    requires IsPoly(p)
    ensures Product(Sum(p, One), Sum(p, One)) == Sum(Sum(Product(p, p), Product(Constant(2), p)), One)
  {
    var s := Sum(p, One);
    ProductDistribLeft(p, One, s);
    ProductDistrib(p, p, One);
    ProductOne(p);
    ProductOne(s);
    TwoIsOnePlusOne();
    ProductDistribLeft(One, One, p);
    SumAssoc(Product(p, p), p, s);
    SumAssoc(p, p, One);
    SumAssoc(Product(p, p), Sum(p, p), One);
  }

  // ---------------------------------------------------------------------------------------------
  // Polynomials in the variables alone

  /** No atom occurs in the monomial. */
  predicate VarMonomial(m: Monomial) {
    forall s | s in m :: s.Var?
  }

  /** No atom occurs in any monomial of the polynomial. */
  predicate VarsOnly(t: Terms) {
    forall m | m in t :: VarMonomial(m)
  }

  lemma {:induction false} MulTermVarsOnly(m1: Monomial, c: int, q: Terms)
    requires VarMonomial(m1) && VarsOnly(q)
    ensures VarsOnly(MulTermRaw(m1, c, q))
    decreases |q|
  {
    if q != map[] {
      MulTermVarsOnly(m1, c, q - {PickKey(q)});
    }
  }

  lemma {:induction false} ProductRawVarsOnly(p: Terms, q: Terms)
    requires VarsOnly(p) && VarsOnly(q)
    ensures VarsOnly(ProductRaw(p, q))
    decreases |p|
  {
    if p != map[] {
      MulTermVarsOnly(PickKey(p), p[PickKey(p)], q);
      ProductRawVarsOnly(p - {PickKey(p)}, q);
    }
  }

  /** Sums, differences, negations and products of polynomials in the variables stay so. */
  lemma OperationsVarsOnly(p: Terms, q: Terms)
    requires VarsOnly(p) && VarsOnly(q)
    ensures VarsOnly(Sum(p, q)) && VarsOnly(Difference(p, q)) && VarsOnly(Negate(p))
    ensures VarsOnly(Product(p, q))
  {
    ProductRawVarsOnly(p, q);
  }
}
