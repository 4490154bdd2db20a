/**
 Why the Bech32 checksum sees every error in up to three characters: the generator polynomial has
 three consecutive powers of a primitive element of the field of 1024 elements as roots.
 */
module Bech32Distance {
  import opened Bech32Code
  import WordMath

  // ---------------------------------------------------------------- the field of 32 elements

  lemma TwicePlus(x: Symbol, y: Symbol)
    ensures Twice(Add(x, y)) == Add(Twice(x), Twice(y))
  {
  }

  lemma WhenOf(z: Symbol, bit: Symbol, x: Symbol, y: Symbol)
    ensures When(z, bit, Add(x, y)) == Add(When(z, bit, x), When(z, bit, y))
    ensures Mul(x, When(z, bit, y)) == When(z, bit, Mul(x, y))
  {
    MulZero(x);
    hide Mul;
  }

  lemma MulZero(x: Symbol)
    ensures Mul(x, 0) == 0
  {
  }

  lemma MulOnLeft(x: Symbol, w: Symbol, y: Symbol)
    ensures Mul(Add(x, w), y) == Add(Mul(x, y), Mul(w, y))
  {
    hide Add, When, Twice, Add5;
    var x2, w2 := Twice(x), Twice(w);
    var x4, w4 := Twice(x2), Twice(w2);
    var x8, w8 := Twice(x4), Twice(w4);
    var x16, w16 := Twice(x8), Twice(w8);
    TwicePlus(x, w);
    TwicePlus(x2, w2);
    TwicePlus(x4, w4);
    TwicePlus(x8, w8);
    WhenOf(y, 1, x, w);
    WhenOf(y, 2, x2, w2);
    WhenOf(y, 4, x4, w4);
    WhenOf(y, 8, x8, w8);
    WhenOf(y, 16, x16, w16);
    Add5Plus(When(y, 1, x), When(y, 2, x2), When(y, 4, x4), When(y, 8, x8), When(y, 16, x16),
             When(y, 1, w), When(y, 2, w2), When(y, 4, w4), When(y, 8, w8), When(y, 16, w16));
  }

  lemma MulTwice(x: Symbol, y: Symbol)
    ensures Mul(x, Twice(y)) == Twice(Mul(x, y))
  {
  }

  lemma MulAdd5(x: Symbol, a: Symbol, b: Symbol, c: Symbol, d: Symbol, e: Symbol)
    ensures Mul(x, Add5(a, b, c, d, e)) == Add5(Mul(x, a), Mul(x, b), Mul(x, c), Mul(x, d), Mul(x, e))
  {
    hide Add, Mul;
    MulPlus(x, a, b);
    MulPlus(x, Add(a, b), c);
    MulPlus(x, Add(Add(a, b), c), d);
    MulPlus(x, Add(Add(Add(a, b), c), d), e);
  }

  lemma MulIs(x: Symbol, y: Symbol)
    ensures Mul(x, y) == Add5(When(y, 1, x), When(y, 2, Twice(x)), When(y, 4, Twice(Twice(x))),
                              When(y, 8, Twice(Twice(Twice(x)))), When(y, 16, Twice(Twice(Twice(Twice(x))))))
  {
    hide Add5, When, Twice;
  }

  lemma MulAssociative(x: Symbol, y: Symbol, z: Symbol)
    ensures Mul(x, Mul(y, z)) == Mul(Mul(x, y), z)
  {
    hide Add5, Mul, When, Twice;
    var y2 := Twice(y);
    var y4 := Twice(y2);
    var y8 := Twice(y4);
    var y16 := Twice(y8);
    MulIs(y, z);
    MulIs(Mul(x, y), z);
    MulAdd5(x, When(z, 1, y), When(z, 2, y2), When(z, 4, y4), When(z, 8, y8), When(z, 16, y16));
    MulTwice(x, y);
    MulTwice(x, y2);
    MulTwice(x, y4);
    MulTwice(x, y8);
    WhenOf(z, 1, x, y);
    WhenOf(z, 2, x, y2);
    WhenOf(z, 4, x, y4);
    WhenOf(z, 8, x, y8);
    WhenOf(z, 16, x, y16);
  }

  // ---------------------------------------------------------------- the field of 1024 elements

  /** The element u1 * e + u0, where e * e = {9}e + {23}. */
  datatype El = El(u1: Symbol, u0: Symbol)

  const NIL := El(0, 0)

  function Sum(f: El, g: El): El {
    El(Add(f.u1, g.u1), Add(f.u0, g.u0))
  }

  /** Multiplication by the primitive element e. */
  function ByE(f: El): El {
    El(Add(Mul(9, f.u1), f.u0), Mul(23, f.u1))
  }

  /** Multiplication by a power of e. */
  function Power(n: nat, f: El): El {
    if n == 0 then f else ByE(Power(n - 1, f))
  }

  lemma SumLaws(f: El, g: El, h: El)
    ensures Sum(f, g) == Sum(g, f) && Sum(f, NIL) == f && Sum(f, f) == NIL
    ensures Sum(Sum(f, g), h) == Sum(f, Sum(g, h))
    ensures Sum(f, g) == NIL ==> f == g
  {
  }

  lemma Sum4(a: El, b: El, c: El, d: El)
    ensures Sum(Sum(a, b), Sum(c, d)) == Sum(Sum(a, c), Sum(b, d))
  {
    hide Add;
    AddLaws(a.u1, b.u1, c.u1, d.u1);
    AddLaws(a.u0, b.u0, c.u0, d.u0);
  }

  lemma ByESum(f: El, g: El)
    ensures ByE(Sum(f, g)) == Sum(ByE(f), ByE(g))
  {
    hide Add, Mul;
    MulPlus(9, f.u1, g.u1);
    MulPlus(23, f.u1, g.u1);
    AddLaws(Mul(9, f.u1), Mul(9, g.u1), f.u0, g.u0);
  }

  lemma ByEInjective(f: El)
    requires ByE(f) == NIL
    ensures f == NIL
  {
  }

  lemma {:induction false} PowerSum(n: nat, f: El, g: El)
    ensures Power(n, Sum(f, g)) == Sum(Power(n, f), Power(n, g))
  {
    hide ByE, Sum;
    if n > 0 {
      PowerSum(n - 1, f, g);
      ByESum(Power(n - 1, f), Power(n - 1, g));
    }
  }

  lemma {:induction false} PowerAdd(a: nat, b: nat, f: El)
    ensures Power(a + b, f) == Power(a, Power(b, f))
  {
    hide ByE;
    if a > 0 {
      PowerAdd(a - 1, b, f);
    }
  }

  lemma {:induction false} PowerInjective(n: nat, f: El)
    requires Power(n, f) == NIL
    ensures f == NIL
  {
    hide ByE;
    if n > 0 {
      ByEInjective(Power(n - 1, f));
      PowerInjective(n - 1, f);
    }
  }

  lemma {:induction false} PowerNil(n: nat)
    ensures Power(n, NIL) == NIL
  {
    if n > 0 {
      PowerNil(n - 1);
    }
  }

  // ---------------------------------------------------------------- particular powers

  /** A linear map of the field, as a matrix over the small field. */
  datatype Mat = Mat(a: Symbol, b: Symbol, c: Symbol, d: Symbol)

  function Apply(m: Mat, f: El): El {
    El(Add(Mul(m.a, f.u1), Mul(m.b, f.u0)), Add(Mul(m.c, f.u1), Mul(m.d, f.u0)))
  }

  function Product(m: Mat, n: Mat): Mat {
    Mat(Add(Mul(m.a, n.a), Mul(m.b, n.c)), Add(Mul(m.a, n.b), Mul(m.b, n.d)),
        Add(Mul(m.c, n.a), Mul(m.d, n.c)), Add(Mul(m.c, n.b), Mul(m.d, n.d)))
  }

  lemma RowTimes(x: Symbol, y: Symbol, n: Mat, f: El)
    ensures Add(Mul(x, Apply(n, f).u1), Mul(y, Apply(n, f).u0))
         == Add(Mul(Add(Mul(x, n.a), Mul(y, n.c)), f.u1), Mul(Add(Mul(x, n.b), Mul(y, n.d)), f.u0))
  {
    hide Add, Mul;
    MulPlus(x, Mul(n.a, f.u1), Mul(n.b, f.u0));
    MulPlus(y, Mul(n.c, f.u1), Mul(n.d, f.u0));
    MulAssociative(x, n.a, f.u1);
    MulAssociative(x, n.b, f.u0);
    MulAssociative(y, n.c, f.u1);
    MulAssociative(y, n.d, f.u0);
    MulOnLeft(Mul(x, n.a), Mul(y, n.c), f.u1);
    MulOnLeft(Mul(x, n.b), Mul(y, n.d), f.u0);
    AddLaws(Mul(Mul(x, n.a), f.u1), Mul(Mul(x, n.b), f.u0), Mul(Mul(y, n.c), f.u1), Mul(Mul(y, n.d), f.u0));
  }

  lemma Compose(m: Mat, n: Mat, f: El)
    ensures Apply(m, Apply(n, f)) == Apply(Product(m, n), f)
  {
    hide Add, Mul;
    RowTimes(m.a, m.b, n, f);
    RowTimes(m.c, m.d, n, f);
  }

  ghost predicate IsPower(n: nat, m: Mat) {
    forall f :: Power(n, f) == Apply(m, f)
  }

  lemma PowerPlus(a: nat, m: Mat, b: nat, n: Mat)
    requires IsPower(a, m) && IsPower(b, n)
    ensures IsPower(a + b, Product(m, n))
  {
    hide Apply, Product, Power;
    forall f ensures Power(a + b, f) == Apply(Product(m, n), f) {
      PowerAdd(a, b, f);
      Compose(m, n, f);
    }
  }

  lemma Units(x: Symbol)
    ensures Mul(1, x) == x && Mul(0, x) == 0 && Add(x, 0) == x
  {
  }

  lemma FirstPower()
    ensures IsPower(1, Mat(9, 1, 23, 0))
  {
    hide Add, Mul;
    forall f ensures Power(1, f) == Apply(Mat(9, 1, 23, 0), f) {
      assert Power(1, f) == ByE(Power(0, f));
      Units(f.u0);
      Units(Mul(23, f.u1));
    }
  }

  lemma Ladder()
    ensures IsPower(1, Mat(9, 1, 23, 0)) && IsPower(2, Mat(4, 9, 11, 23)) && IsPower(4, Mat(17, 6, 9, 14)) && IsPower(8, Mat(4, 16, 17, 25))
    ensures IsPower(16, Mat(26, 21, 8, 3)) && IsPower(32, Mat(0, 1, 23, 9)) && IsPower(64, Mat(23, 9, 11, 4))
    ensures IsPower(128, Mat(14, 6, 9, 17)) && IsPower(256, Mat(25, 16, 17, 4)) && IsPower(512, Mat(3, 21, 8, 26))
  {
    hide IsPower;
    FirstPower();
    PowerPlus(1, Mat(9, 1, 23, 0), 1, Mat(9, 1, 23, 0));
    PowerPlus(2, Mat(4, 9, 11, 23), 2, Mat(4, 9, 11, 23));
    PowerPlus(4, Mat(17, 6, 9, 14), 4, Mat(17, 6, 9, 14));
    PowerPlus(8, Mat(4, 16, 17, 25), 8, Mat(4, 16, 17, 25));
    PowerPlus(16, Mat(26, 21, 8, 3), 16, Mat(26, 21, 8, 3));
    PowerPlus(32, Mat(0, 1, 23, 9), 32, Mat(0, 1, 23, 9));
    PowerPlus(64, Mat(23, 9, 11, 4), 64, Mat(23, 9, 11, 4));
    PowerPlus(128, Mat(14, 6, 9, 17), 128, Mat(14, 6, 9, 17));
    PowerPlus(256, Mat(25, 16, 17, 4), 256, Mat(25, 16, 17, 4));
  }

  /** 992 is the sum of the five highest rungs. */
  lemma HighPower()
    ensures IsPower(992, Mat(30, 6, 9, 1))
  {
    hide IsPower;
    Ladder();
    PowerPlus(512, Mat(3, 21, 8, 26), 256, Mat(25, 16, 17, 4));
    PowerPlus(768, Mat(15, 31, 19, 30), 128, Mat(14, 6, 9, 17));
    PowerPlus(896, Mat(25, 8, 28, 3), 64, Mat(23, 9, 11, 4));
    PowerPlus(960, Mat(16, 7, 30, 6), 32, Mat(0, 1, 23, 9));
  }

  /** The powers at which the generator polynomial vanishes. */
  lemma RootPowers()
    ensures IsPower(997, Mat(3, 13, 5, 29)) && IsPower(998, Mat(30, 3, 16, 5)) && IsPower(999, Mat(8, 30, 4, 16))
  {
    hide IsPower;
    Ladder();
    HighPower();
    PowerPlus(992, Mat(30, 6, 9, 1), 4, Mat(17, 6, 9, 14));
    PowerPlus(996, Mat(13, 27, 29, 17), 1, Mat(9, 1, 23, 0));
    PowerPlus(996, Mat(13, 27, 29, 17), 2, Mat(4, 9, 11, 23));
    PowerPlus(998, Mat(30, 3, 16, 5), 1, Mat(9, 1, 23, 0));
  }

  /** The 1023rd power is one ... */
  lemma FullTurn()
    ensures IsPower(1023, Mat(1, 0, 0, 1))
  {
    hide IsPower;
    Ladder();
    HighPower();
    PowerPlus(992, Mat(30, 6, 9, 1), 16, Mat(26, 21, 8, 3));
    PowerPlus(1008, Mat(6, 27, 29, 26), 8, Mat(4, 16, 17, 25));
    PowerPlus(1016, Mat(13, 9, 11, 30), 4, Mat(17, 6, 9, 14));
    PowerPlus(1020, Mat(17, 2, 7, 3), 2, Mat(4, 9, 11, 23));
    PowerPlus(1022, Mat(0, 19, 1, 6), 1, Mat(9, 1, 23, 0));
  }

  lemma DivisorPowers()
    ensures IsPower(33, Mat(23, 0, 0, 23)) && IsPower(93, Mat(3, 26, 10, 22)) && IsPower(341, Mat(12, 11, 12, 13))
  {
    hide IsPower;
    Ladder();
    PowerPlus(32, Mat(0, 1, 23, 9), 1, Mat(9, 1, 23, 0));
    PowerPlus(64, Mat(23, 9, 11, 4), 16, Mat(26, 21, 8, 3));
    PowerPlus(80, Mat(16, 19, 1, 22), 8, Mat(4, 16, 17, 25));
    PowerPlus(88, Mat(2, 31, 19, 19), 4, Mat(17, 6, 9, 14));
    PowerPlus(92, Mat(26, 18, 22, 21), 1, Mat(9, 1, 23, 0));
    PowerPlus(256, Mat(25, 16, 17, 4), 64, Mat(23, 9, 11, 4));
    PowerPlus(320, Mat(14, 28, 3, 4), 16, Mat(26, 21, 8, 3));
    PowerPlus(336, Mat(23, 4, 14, 26), 4, Mat(17, 6, 9, 14));
    PowerPlus(340, Mat(11, 24, 13, 12), 1, Mat(9, 1, 23, 0));
  }

  /** ... and none of the powers for its largest divisors is: they move every element but zero. */
  lemma NoShortTurn(f: El)
    requires Power(33, f) == f || Power(93, f) == f || Power(341, f) == f
    ensures f == NIL
  {
    hide Power;
    DivisorPowers();
    if f != NIL {
      Moved33(f);
      Moved93(f);
      Moved341(f);
    }
  }

  lemma Moved33(f: El)
    requires f != NIL
    ensures Apply(Mat(23, 0, 0, 23), f) != f
  {
  }

  lemma Moved93(f: El)
    requires f != NIL
    ensures Apply(Mat(3, 26, 10, 22), f) != f
  {
  }

  lemma Moved341(f: El)
    requires f != NIL
    ensures Apply(Mat(12, 11, 12, 13), f) != f
  {
  }

  // ---------------------------------------------------------------- the order of e

  /** If `f` returns after `a` and after `b` steps, it returns after a common divisor of the two. */
  lemma {:induction false} CommonTurn(a: nat, b: nat, f: El) returns (h: nat)
    requires a > 0 && b > 0 && Power(a, f) == f && Power(b, f) == f
    ensures h > 0 && a % h == 0 && b % h == 0 && Power(h, f) == f && h <= a && h <= b
    decreases a + b
  {
    if a == b {
      h := a;
    } else if a > b {
      Less(a, b, f);
      h := CommonTurn(a - b, b, f);
      DivisorOfSum(a - b, b, h);
    } else {
      Less(b, a, f);
      h := CommonTurn(a, b - a, f);
      DivisorOfSum(b - a, a, h);
    }
  }

  lemma Less(a: nat, b: nat, f: El)
    requires a > b && Power(a, f) == f && Power(b, f) == f
    ensures Power(a - b, f) == f
  {
    hide Power, Sum;
    PowerAdd(b, a - b, f);
    var g := Power(a - b, f);
    PowerSum(b, g, f);
    SumLaws(f, f, f);
    SumLaws(g, f, f);
    PowerInjective(b, Sum(g, f));
  }

  lemma DivisorOfSum(x: nat, y: nat, h: nat)
    requires h > 0 && x % h == 0 && y % h == 0
    ensures (x + y) % h == 0
  {
    var q := x / h + y / h;
    assert x + y == q * h + 0 by {
      assert x == x / h * h && y == y / h * h;
      assert (x / h + y / h) * h == x / h * h + y / h * h;
    }
    WordMath.DivModUnique(x + y, h, q, 0);
  }

  lemma {:induction false} Multiple(h: nat, q: nat, f: El)
    requires Power(h, f) == f
    ensures Power(q * h, f) == f
  {
    hide Power;
    if q > 0 {
      Multiple(h, q - 1, f);
      PowerAdd(h, (q - 1) * h, f);
      assert h + (q - 1) * h == q * h;
    } else {
      PowerZero(f);
      assert q * h == 0;
    }
  }

  lemma MultipleOf(h: nat, m: nat, f: El)
    requires h > 0 && m % h == 0 && Power(h, f) == f
    ensures Power(m, f) == f
  {
    hide Power;
    var q := m / h;
    assert m == q * h;
    if q < 0 {
      WordMath.MulMono(q, -1, h);
    }
    Multiple(h, q, f);
  }

  lemma PowerZero(f: El)
    ensures Power(0, f) == f
  {
  }

  /** The proper divisors of 1023. */
  lemma ProperDivisor(h: nat)
    requires 0 < h < 1023 && 1023 % h == 0
    ensures 33 % h == 0 || 93 % h == 0 || 341 % h == 0
  {
    if h <= 32 {
      SmallDivisor(h);
    } else {
      var q := 1023 / h;
      assert q * h == 1023;
      Cofactor(q, h);
    }
  }

  lemma Cofactor(q: int, h: nat)
    requires q * h == 1023 && 32 < h < 1023
    ensures h == 341 || h == 93 || h == 33
  {
    if q >= 32 {
      WordMath.MulMono(32, q, h);
    } else if q <= 1 {
      WordMath.MulMono(q, 1, h);
    }
    assert 2 <= q <= 31;
    WordMath.DivModUnique(1023, q, h, 0);
    SmallDivisor(q);
  }

  lemma SmallDivisor(q: nat)
    requires 0 < q <= 32 && 1023 % q == 0
    ensures q == 1 || q == 3 || q == 11 || q == 31
  {
  }

  /** The element e has order 1023: fewer steps move every element but zero. */
  lemma Order(d: nat, f: El)
    requires 0 < d < 1023 && Power(d, f) == f
    ensures f == NIL
  {
    hide Power;
    FullTurnOf(f);
    var h := CommonTurn(d, 1023, f);
    ProperDivisor(h);
    if 33 % h == 0 {
      MultipleOf(h, 33, f);
    } else if 93 % h == 0 {
      MultipleOf(h, 93, f);
    } else {
      MultipleOf(h, 341, f);
    }
    NoShortTurn(f);
  }

  lemma FullTurnOf(f: El)
    ensures Power(1023, f) == f
  {
    hide Power, Add, Mul;
    FullTurn();
    Units(f.u1);
    Units(f.u0);
    assert Power(1023, f) == Apply(Mat(1, 0, 0, 1), f);
    AddZero(f.u0);
  }

  lemma AddZero(x: Symbol)
    ensures Add(0, x) == x
  {
  }
}
