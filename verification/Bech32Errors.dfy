/** Every change of up to three symbols in a window of 1023 changes the Bech32 checksum. */
module Bech32Errors {
  import opened Bech32Code
  import opened Bech32Distance
  import opened SetSizes

  // ---------------------------------------------------------------- values at powers of e

  /** The polynomial with the coefficients `s`, at the power `j` of e. */
  function Horner(j: nat, s: seq<Symbol>): El {
    if s == [] then NIL else Sum(Power(j, Horner(j, s[..|s| - 1])), El(0, s[|s| - 1]))
  }

  lemma {:induction false} HornerPlus(j: nat, s: seq<Symbol>, t: seq<Symbol>)
    requires |s| == |t|
    ensures Horner(j, Differences(s, t)) == Sum(Horner(j, s), Horner(j, t))
  {
    hide Power, Sum, Add;
    if s == [] {
      SumLaws(NIL, NIL, NIL);
    } else {
      var n := |s| - 1;
      HornerPlus(j, s[..n], t[..n]);
      assert Differences(s, t)[..n] == Differences(s[..n], t[..n]);
      PowerSum(j, Horner(j, s[..n]), Horner(j, t[..n]));
      Constants(s[n], t[n]);
      Sum4(Power(j, Horner(j, s[..n])), Power(j, Horner(j, t[..n])), El(0, s[n]), El(0, t[n]));
    }
  }

  lemma Constants(x: Symbol, y: Symbol)
    ensures El(0, Add(x, y)) == Sum(El(0, x), El(0, y))
  {
  }

  lemma {:induction false} LeadingZero(j: nat, t: seq<Symbol>)
    ensures Horner(j, [0] + t) == Horner(j, t)
  {
    hide Power, Sum;
    var s := [0] + t;
    if t == [] {
      assert s[..0] == [];
      assert Horner(j, s[..0]) == NIL;
      PowerNil(j);
      SumLaws(NIL, NIL, NIL);
    } else {
      LeadingZero(j, t[..|t| - 1]);
      assert s[..|s| - 1] == [0] + t[..|t| - 1];
    }
  }

  function Coefficients(p: Poly): seq<Symbol> {
    [p.a5, p.a4, p.a3, p.a2, p.a1, p.a0]
  }

  // ---------------------------------------------------------------- the roots

  /** One step of evaluation, with the power as a matrix. */
  function At(m: Mat, f: El, v: Symbol): El {
    Sum(Apply(m, f), El(0, v))
  }

  lemma HornerNext(j: nat, m: Mat, s: seq<Symbol>, v: Symbol)
    requires IsPower(j, m)
    ensures Horner(j, s + [v]) == At(m, Horner(j, s), v)
  {
    hide Power, Apply, Sum;
    assert (s + [v])[..|s|] == s;
  }

  function At6(m: Mat, p: Poly): El {
    At(m, At(m, At(m, At(m, At(m, El(0, p.a5), p.a4), p.a3), p.a2), p.a1), p.a0)
  }

  lemma HornerSix(j: nat, m: Mat, p: Poly)
    requires IsPower(j, m)
    ensures Horner(j, Coefficients(p)) == At6(m, p)
  {
    hide At, Power, IsPower, Horner;
    HornerOne(j, p.a5);
    HornerNext(j, m, [p.a5], p.a4);
    HornerNext(j, m, [p.a5, p.a4], p.a3);
    HornerNext(j, m, [p.a5, p.a4, p.a3], p.a2);
    HornerNext(j, m, [p.a5, p.a4, p.a3, p.a2], p.a1);
    HornerNext(j, m, [p.a5, p.a4, p.a3, p.a2, p.a1], p.a0);
    assert [p.a5] + [p.a4] == [p.a5, p.a4];
    assert [p.a5, p.a4] + [p.a3] == [p.a5, p.a4, p.a3];
    assert [p.a5, p.a4, p.a3] + [p.a2] == [p.a5, p.a4, p.a3, p.a2];
    assert [p.a5, p.a4, p.a3, p.a2] + [p.a1] == [p.a5, p.a4, p.a3, p.a2, p.a1];
    assert [p.a5, p.a4, p.a3, p.a2, p.a1] + [p.a0] == Coefficients(p);
  }

  lemma HornerOne(j: nat, v: Symbol)
    ensures Horner(j, [v]) == El(0, v)
  {
    hide Power;
    assert [v][..0] == [];
    assert Horner(j, [v][..0]) == NIL;
    PowerNil(j);
    AddZero(v);
  }

  predicate IsRoot(j: nat) {
    j == 997 || j == 998 || j == 999
  }

  function RootMatrix(j: nat): Mat
    requires IsRoot(j)
  {
    if j == 997 then Mat(3, 13, 5, 29) else if j == 998 then Mat(30, 3, 16, 5) else Mat(8, 30, 4, 16)
  }

  const GENERATOR := Poly(29, 22, 20, 21, 29, 18)

  lemma Vanishes997()
    ensures var m := Mat(3, 13, 5, 29); At(m, At6(m, Poly(1, 0, 0, 0, 0, 0)), 0) == At6(m, GENERATOR)
  {
    var m := Mat(3, 13, 5, 29);
    assert At(m, El(0, 1), 0) == El(13, 29);
    assert At(m, El(13, 29), 0) == El(27, 9);
    assert At(m, El(27, 9), 0) == El(26, 15);
    assert At(m, El(26, 15), 0) == El(30, 22);
    assert At(m, El(30, 22), 0) == El(3, 20);
    assert At(m, El(3, 20), 0) == El(23, 21);
    assert At(m, El(0, 29), 22) == El(12, 15);
    assert At(m, El(12, 15), 20) == El(13, 30);
    assert At(m, El(13, 30), 21) == El(12, 18);
    assert At(m, El(12, 18), 29) == El(1, 14);
    assert At(m, El(1, 14), 18) == El(23, 21);
  }

  lemma Vanishes998()
    ensures var m := Mat(30, 3, 16, 5); At(m, At6(m, Poly(1, 0, 0, 0, 0, 0)), 0) == At6(m, GENERATOR)
  {
    var m := Mat(30, 3, 16, 5);
    assert At(m, El(0, 1), 0) == El(3, 5);
    assert At(m, El(3, 5), 0) == El(4, 8);
    assert At(m, El(4, 8), 0) == El(27, 19);
    assert At(m, El(27, 19), 0) == El(29, 3);
    assert At(m, El(29, 3), 0) == El(18, 26);
    assert At(m, El(18, 26), 0) == El(30, 26);
    assert At(m, El(0, 29), 22) == El(14, 4);
    assert At(m, El(14, 4), 20) == El(28, 22);
    assert At(m, El(28, 22), 21) == El(26, 12);
    assert At(m, El(26, 12), 29) == El(11, 22);
    assert At(m, El(11, 22), 18) == El(30, 26);
  }

  lemma Vanishes999()
    ensures var m := Mat(8, 30, 4, 16); At(m, At6(m, Poly(1, 0, 0, 0, 0, 0)), 0) == At6(m, GENERATOR)
  {
    var m := Mat(8, 30, 4, 16);
    assert At(m, El(0, 1), 0) == El(30, 16);
    assert At(m, El(30, 16), 0) == El(10, 25);
    assert At(m, El(10, 25), 0) == El(22, 6);
    assert At(m, El(22, 6), 0) == El(2, 17);
    assert At(m, El(2, 17), 0) == El(2, 2);
    assert At(m, El(2, 2), 0) == El(5, 1);
    assert At(m, El(0, 29), 22) == El(23, 3);
    assert At(m, El(23, 3), 20) == El(23, 3);
    assert At(m, El(23, 3), 21) == El(23, 2);
    assert At(m, El(23, 2), 29) == El(9, 26);
    assert At(m, El(9, 26), 18) == El(5, 1);
  }

  lemma GeneratorVanishes(j: nat)
    requires IsRoot(j)
    ensures At(RootMatrix(j), At6(RootMatrix(j), Poly(1, 0, 0, 0, 0, 0)), 0) == At6(RootMatrix(j), GENERATOR)
  {
    hide At, At6;
    Vanishes997();
    Vanishes998();
    Vanishes999();
  }

  function Scale(f: El, c: Symbol): El {
    El(Mul(f.u1, c), Mul(f.u0, c))
  }

  function ScalePoly(p: Poly, c: Symbol): Poly {
    Poly(Mul(p.a5, c), Mul(p.a4, c), Mul(p.a3, c), Mul(p.a2, c), Mul(p.a1, c), Mul(p.a0, c))
  }

  lemma RowScale(x: Symbol, y: Symbol, f: El, c: Symbol)
    ensures Add(Mul(x, Mul(f.u1, c)), Mul(y, Mul(f.u0, c))) == Mul(Add(Mul(x, f.u1), Mul(y, f.u0)), c)
  {
    hide Mul, Add;
    MulAssociative(x, f.u1, c);
    MulAssociative(y, f.u0, c);
    MulOnLeft(Mul(x, f.u1), Mul(y, f.u0), c);
  }

  lemma AtScale(m: Mat, f: El, v: Symbol, c: Symbol)
    ensures At(m, Scale(f, c), Mul(v, c)) == Scale(At(m, f, v), c)
  {
    hide Mul, Add;
    RowScale(m.a, m.b, f, c);
    RowScale(m.c, m.d, f, c);
    MulOnLeft(Apply(m, f).u0, v, c);
    MulOnLeft(Apply(m, f).u1, 0, c);
    Units(c);
  }

  lemma ScaleConstant(x: Symbol, c: Symbol)
    ensures Scale(El(0, x), c) == El(0, Mul(x, c))
  {
    Units(c);
  }

  lemma At6Scale(m: Mat, p: Poly, c: Symbol)
    ensures At6(m, ScalePoly(p, c)) == Scale(At6(m, p), c)
  {
    hide At, Scale, Mul;
    var f5 := El(0, p.a5);
    var f4 := At(m, f5, p.a4);
    var f3 := At(m, f4, p.a3);
    var f2 := At(m, f3, p.a2);
    var f1 := At(m, f2, p.a1);
    ScaleConstant(p.a5, c);
    AtScale(m, f5, p.a4, c);
    AtScale(m, f4, p.a3, c);
    AtScale(m, f3, p.a2, c);
    AtScale(m, f2, p.a1, c);
    AtScale(m, f1, p.a0, c);
  }

  /** What overflows the sixth power is replaced by something of the same value at the roots. */
  lemma Vanishes(j: nat, c: Symbol)
    requires IsRoot(j)
    ensures At(RootMatrix(j), At6(RootMatrix(j), Poly(c, 0, 0, 0, 0, 0)), 0) == At6(RootMatrix(j), Over(c))
  {
    hide At, At6, Mul, RootMatrix, IsRoot;
    GeneratorVanishes(j);
    Units(c);
    var m, one := RootMatrix(j), Poly(1, 0, 0, 0, 0, 0);
    assert Over(c) == ScalePoly(GENERATOR, c);
    assert Poly(c, 0, 0, 0, 0, 0) == ScalePoly(one, c);
    At6Scale(m, GENERATOR, c);
    At6Scale(m, one, c);
    AtScale(m, At6(m, one), 0, c);
  }

  lemma RootIsPower(j: nat)
    requires IsRoot(j)
    ensures IsPower(j, RootMatrix(j))
  {
    hide IsPower;
    RootPowers();
  }

  /** Reducing modulo the generator keeps the value at its roots. */
  lemma NextRoot(j: nat, p: Poly, v: Symbol)
    requires IsRoot(j)
    ensures Horner(j, Coefficients(Next(p, v))) == Horner(j, Coefficients(p) + [v])
  {
    hide Horner, At, At6, Mul, RootMatrix, IsRoot, IsPower, Sum, Over, Add;
    RootIsPower(j);
    var m := RootMatrix(j);
    var top, rest := Poly(p.a5, 0, 0, 0, 0, 0), Poly(p.a4, p.a3, p.a2, p.a1, p.a0, v);
    var over := Over(p.a5);
    HornerNext(j, m, Coefficients(top), 0);
    HornerSix(j, m, top);
    HornerSix(j, m, over);
    Vanishes(j, p.a5);
    LeadingZero(j, Coefficients(rest));
    SplitTop(p, v);
    HornerPlus(j, Coefficients(top) + [0], [0] + Coefficients(rest));
    assert Differences(Coefficients(rest), Coefficients(over)) == Coefficients(Next(p, v));
    HornerPlus(j, Coefficients(rest), Coefficients(over));
    SumLaws(Horner(j, Coefficients(rest)), Horner(j, Coefficients(over)), NIL);
  }

  lemma SplitTop(p: Poly, v: Symbol)
    ensures Differences(Coefficients(Poly(p.a5, 0, 0, 0, 0, 0)) + [0], [0] + Coefficients(Poly(p.a4, p.a3, p.a2, p.a1, p.a0, v)))
         == Coefficients(p) + [v]
  {
    hide Add;
    Units(p.a5);
    AddZero(p.a4);
    AddZero(p.a3);
    AddZero(p.a2);
    AddZero(p.a1);
    AddZero(p.a0);
    AddZero(v);
  }

  /** The remainder has the value of the whole polynomial at the roots. */
  lemma {:induction false} RemainderRoot(j: nat, s: seq<Symbol>)
    requires IsRoot(j)
    ensures Horner(j, Coefficients(Remainder(ZERO, s))) == Horner(j, s)
  {
    hide Next, Power, Sum, IsRoot, Coefficients;
    if s == [] {
      ZeroValue(j);
    } else {
      var t, v := s[..|s| - 1], s[|s| - 1];
      RemainderRoot(j, t);
      var c := Coefficients(Remainder(ZERO, t));
      NextRoot(j, Remainder(ZERO, t), v);
      assert (c + [v])[..|c|] == c;
    }
  }

  lemma ZeroValue(j: nat)
    ensures Horner(j, Coefficients(ZERO)) == NIL
  {
    hide Horner;
    LeadingZero(j, []);
    LeadingZero(j, [0]);
    LeadingZero(j, [0, 0]);
    LeadingZero(j, [0, 0, 0]);
    LeadingZero(j, [0, 0, 0, 0]);
    LeadingZero(j, [0, 0, 0, 0, 0]);
    EmptyValue(j);
    assert [0] + [] == [0 as Symbol];
    assert [0] + [0] == [0 as Symbol, 0];
    assert [0] + [0, 0] == [0 as Symbol, 0, 0];
    assert [0] + [0, 0, 0] == [0 as Symbol, 0, 0, 0];
    assert [0] + [0, 0, 0, 0] == [0 as Symbol, 0, 0, 0, 0];
    assert [0] + [0, 0, 0, 0, 0] == Coefficients(ZERO);
  }

  lemma EmptyValue(j: nat)
    ensures Horner(j, []) == NIL
  {
  }

  // ---------------------------------------------------------------- few nonzero coefficients

  /** The coefficient of x^k. */
  function Coefficient(d: seq<Symbol>, k: int): Symbol {
    if 0 <= k < |d| then d[|d| - 1 - k] else 0
  }

  function Term(j: nat, k: int, c: Symbol): El {
    if k < 0 then NIL else Power(j * k, El(0, c))
  }

  function Sum3(f: El, g: El, h: El): El {
    Sum(Sum(f, g), h)
  }

  ghost predicate Sparse(d: seq<Symbol>, k1: int, k2: int, k3: int) {
    k1 != k2 && k1 != k3 && k2 != k3 &&
    forall k :: 0 <= k < |d| && k != k1 && k != k2 && k != k3 ==> Coefficient(d, k) == 0
  }

  lemma TermUp(j: nat, k: int, d: seq<Symbol>)
    requires d != []
    ensures k != 0 ==> Power(j, Term(j, k - 1, Coefficient(d[..|d| - 1], k - 1))) == Term(j, k, Coefficient(d, k))
    ensures k == 0 ==> Power(j, Term(j, k - 1, Coefficient(d[..|d| - 1], k - 1))) == NIL
    ensures k == 0 ==> Term(j, k, Coefficient(d, k)) == El(0, d[|d| - 1])
  {
    hide Power;
    PowerNil(j);
    if k > 0 {
      PowerAdd(j, j * (k - 1), El(0, Coefficient(d, k)));
      assert j + j * (k - 1) == j * k;
    } else if k == 0 {
      PowerZero(El(0, d[|d| - 1]));
      assert j * k == 0;
    }
  }

  lemma {:induction false} SparseValue(j: nat, d: seq<Symbol>, k1: int, k2: int, k3: int)
    requires Sparse(d, k1, k2, k3)
    ensures Horner(j, d) == Sum3(Term(j, k1, Coefficient(d, k1)), Term(j, k2, Coefficient(d, k2)),
                                 Term(j, k3, Coefficient(d, k3)))
  {
    if d == [] {
      NoTerm(j, k1);
      NoTerm(j, k2);
      NoTerm(j, k3);
      SumLaws(NIL, NIL, NIL);
    } else {
      hide Power, Term, Sum, Coefficient;
      var d', v := d[..|d| - 1], d[|d| - 1];
      SparseDown(d, k1, k2, k3);
      SparseValue(j, d', k1 - 1, k2 - 1, k3 - 1);
      var t1 := Term(j, k1 - 1, Coefficient(d', k1 - 1));
      var t2 := Term(j, k2 - 1, Coefficient(d', k2 - 1));
      var t3 := Term(j, k3 - 1, Coefficient(d', k3 - 1));
      PowerSum(j, t1, t2);
      PowerSum(j, Sum(t1, t2), t3);
      TermUp(j, k1, d);
      TermUp(j, k2, d);
      TermUp(j, k3, d);
      PutIn(Power(j, t1), Power(j, t2), Power(j, t3), El(0, v));
    }
  }

  lemma NoTerm(j: nat, k: int)
    ensures Term(j, k, 0) == NIL
  {
    if k >= 0 {
      PowerNil(j * k);
    }
  }

  lemma SparseDown(d: seq<Symbol>, k1: int, k2: int, k3: int)
    requires d != [] && Sparse(d, k1, k2, k3)
    ensures Sparse(d[..|d| - 1], k1 - 1, k2 - 1, k3 - 1)
    ensures k1 != 0 && k2 != 0 && k3 != 0 ==> d[|d| - 1] == 0
  {
    var d' := d[..|d| - 1];
    forall k | 0 <= k < |d'| && k != k1 - 1 && k != k2 - 1 && k != k3 - 1 ensures Coefficient(d', k) == 0 {
      assert Coefficient(d, k + 1) == 0;
    }
    if k1 != 0 && k2 != 0 && k3 != 0 {
      assert Coefficient(d, 0) == 0;
    }
  }

  /** A last term can be put in the place of any of the three that is zero. */
  lemma PutIn(f: El, g: El, h: El, v: El)
    ensures v == NIL ==> Sum(Sum3(f, g, h), v) == Sum3(f, g, h)
    ensures f == NIL ==> Sum(Sum3(f, g, h), v) == Sum3(v, g, h)
    ensures g == NIL ==> Sum(Sum3(f, g, h), v) == Sum3(f, v, h)
    ensures h == NIL ==> Sum(Sum3(f, g, h), v) == Sum3(f, g, v)
  {
    hide Sum;
    SumLaws(Sum3(f, g, h), v, NIL);
    SumLaws(f, g, h);
    SumLaws(g, f, v);
    SumLaws(g, h, v);
    SumLaws(h, v, g);
    SumLaws(Sum(g, h), v, NIL);
    SumLaws(v, g, h);
    SumLaws(f, h, v);
    SumLaws(f, v, h);
    SumLaws(Sum(f, g), v, NIL);
    SumLaws(NIL, g, h);
    SumLaws(NIL, h, v);
  }

  // ---------------------------------------------------------------- elimination

  /** Different powers of e agree only on zero. */
  lemma Separate(a: nat, b: nat, f: El)
    requires a != b && a < 1023 && b < 1023 && Power(a, f) == Power(b, f)
    ensures f == NIL
  {
    hide Power, Sum;
    if a > b {
      SeparateUp(a, b, f);
    } else {
      SeparateUp(b, a, f);
    }
  }

  lemma SeparateUp(a: nat, b: nat, f: El)
    requires b < a < 1023 && Power(a, f) == Power(b, f)
    ensures f == NIL
  {
    hide Power, Sum;
    PowerAdd(b, a - b, f);
    var g := Power(a - b, f);
    PowerSum(b, g, f);
    SumLaws(Power(b, f), f, f);
    PowerInjective(b, Sum(g, f));
    SumLaws(g, f, f);
    Order(a - b, f);
  }

  /** Three equations in three unknowns, the first of which is zero. */
  lemma Eliminate(k1: nat, k2: nat, k3: nat, f1: El, f2: El, f3: El)
    requires k1 < 1023 && k2 < 1023 && k3 < 1023 && k1 != k2 && k1 != k3
    requires Sum3(f1, f2, f3) == NIL
    requires Sum3(Power(k1, f1), Power(k2, f2), Power(k3, f3)) == NIL
    requires Sum3(Power(k1, Power(k1, f1)), Power(k2, Power(k2, f2)), Power(k3, Power(k3, f3))) == NIL
    ensures f1 == NIL
  {
    hide Power, Sum;
    var g1 := Sum(Power(k3, f1), Power(k1, f1));
    var g2 := Sum(Power(k3, f2), Power(k2, f2));
    Cancelled(k3, f1, f2, f3, Power(k1, f1), Power(k2, f2));
    Cancelled(k3, Power(k1, f1), Power(k2, f2), Power(k3, f3), Power(k1, Power(k1, f1)), Power(k2, Power(k2, f2)));
    Factor(k1, k3, f1);
    Factor(k2, k3, f2);
    SumLaws(g1, g2, NIL);
    SumLaws(Power(k1, g1), Power(k2, g2), NIL);
    Separate(k1, k2, g1);
    SumLaws(Power(k3, f1), Power(k1, f1), NIL);
    Separate(k1, k3, f1);
  }

  /** Adding the first equation, multiplied so that the third term goes away. */
  lemma Cancelled(k: nat, a: El, b: El, c: El, a': El, b': El)
    requires Sum3(a, b, c) == NIL && Sum3(a', b', Power(k, c)) == NIL
    ensures Sum(Sum(Power(k, a), a'), Sum(Power(k, b), b')) == NIL
  {
    hide Power, Sum;
    SumLaws(Sum(a, b), c, NIL);
    SumLaws(Sum(a', b'), Power(k, c), NIL);
    PowerSum(k, a, b);
    Sum4(Power(k, a), Power(k, b), a', b');
    SumLaws(Power(k, c), Power(k, c), NIL);
  }

  lemma Factor(k: nat, k3: nat, f: El)
    ensures Sum(Power(k3, Power(k, f)), Power(k, Power(k, f))) == Power(k, Sum(Power(k3, f), Power(k, f)))
  {
    hide Power, Sum;
    PowerSum(k, Power(k3, f), Power(k, f));
    PowerAdd(k, k3, f);
    PowerAdd(k3, k, f);
  }

  lemma TermPowers(k: nat, c: Symbol)
    ensures Term(998, k, c) == Power(k, Term(997, k, c))
    ensures Term(999, k, c) == Power(k, Power(k, Term(997, k, c)))
  {
    hide Power;
    PowerAdd(k, 997 * k, El(0, c));
    PowerAdd(k, 998 * k, El(0, c));
  }

  /** Three possible errors at different places: no nonzero pattern has remainder zero. */
  lemma NoPattern(d: seq<Symbol>, k1: nat, k2: nat, k3: nat)
    requires Sparse(d, k1, k2, k3) && k1 < 1023 && k2 < 1023 && k3 < 1023 && Remainder(ZERO, d) == ZERO
    ensures Coefficient(d, k1) == 0
  {
    hide Term, Sum, Horner, Sparse, Coefficient, Remainder, Sum3, Power;
    var c1, c2, c3 := Coefficient(d, k1), Coefficient(d, k2), Coefficient(d, k3);
    AtRoot(997, d, k1, k2, k3);
    AtRoot(998, d, k1, k2, k3);
    AtRoot(999, d, k1, k2, k3);
    TermPowers(k1, c1);
    TermPowers(k2, c2);
    TermPowers(k3, c3);
    Distinct(d, k1, k2, k3);
    Eliminate(k1, k2, k3, Term(997, k1, c1), Term(997, k2, c2), Term(997, k3, c3));
    TermNil(997, k1, c1);
  }

  lemma AtRoot(j: nat, d: seq<Symbol>, k1: nat, k2: nat, k3: nat)
    requires IsRoot(j) && Sparse(d, k1, k2, k3) && Remainder(ZERO, d) == ZERO
    ensures Sum3(Term(j, k1, Coefficient(d, k1)), Term(j, k2, Coefficient(d, k2)), Term(j, k3, Coefficient(d, k3))) == NIL
  {
    hide Term, Sum, Horner, Sparse, Coefficient, Remainder, Sum3, IsRoot, Coefficients;
    SparseValue(j, d, k1, k2, k3);
    RemainderRoot(j, d);
    ZeroValue(j);
  }

  lemma Distinct(d: seq<Symbol>, k1: int, k2: int, k3: int)
    requires Sparse(d, k1, k2, k3)
    ensures k1 != k2 && k1 != k3
  {
  }

  lemma TermNil(j: nat, k: nat, c: Symbol)
    requires Term(j, k, c) == NIL
    ensures c == 0
  {
    PowerInjective(j * k, El(0, c));
  }

  // ---------------------------------------------------------------- detection

  /** The positions, counted from the end, at which two texts of the same length differ. */
  function Errors(s: seq<Symbol>, t: seq<Symbol>): set<nat>
    requires |s| == |t|
  {
    set k: nat | 0 <= k < |s| && Differ(s, t, k)
  }

  predicate Differ(s: seq<Symbol>, t: seq<Symbol>, k: nat)
    requires k < |s| == |t|
  {
    s[|s| - 1 - k] != t[|s| - 1 - k]
  }

  /** Three different places that include all the given ones. */
  lemma Cover(e: set<nat>) returns (k1: nat, k2: nat, k3: nat)
    requires |e| <= 3 && forall k :: k in e ==> k < 1023
    ensures k1 < 1023 && k2 < 1023 && k3 < 1023 && k1 != k2 && k1 != k3 && k2 != k3
    ensures forall k :: k in e ==> k == k1 || k == k2 || k == k3
  {
    var rest := e;
    k1 := PickOr(rest, {});
    rest := rest - {k1};
    k2 := PickOr(rest, {k1});
    rest := rest - {k2};
    k3 := PickOr(rest, {k1, k2});
    rest := rest - {k3};
    assert rest == {};
    assert forall k :: k in e ==> k in {k1, k2, k3} + rest;
  }

  lemma PickOr(e: set<nat>, used: set<nat>) returns (k: nat)
    requires |used| <= 2 && e !! used && forall k :: k in e ==> k < 1023
    ensures k !in used && k < 1023 && (e == {} || k in e)
    ensures e != {} ==> |e - {k}| == |e| - 1
  {
    if e != {} {
      k :| k in e;
    } else {
      Three(used);
      k :| k in {0, 1, 2} - used;
    }
  }

  lemma Three(used: set<nat>)
    requires |used| <= 2
    ensures {0, 1, 2} - used != {}
  {
    var three: set<nat> := {0, 1, 2};
    assert |three| == 3;
    if three <= used {
      SubsetSize(three, used);
    }
  }

  /** One, two or three changed symbols within 1023 always change the remainder. */
  lemma Detects(p: Poly, s: seq<Symbol>, t: seq<Symbol>)
    requires |s| == |t| <= 1023 && s != t && |Errors(s, t)| <= 3
    ensures Remainder(p, s) != Remainder(p, t)
  {
    hide Remainder, Plus, Add, Coefficient;
    if Remainder(p, s) == Remainder(p, t) {
      var d := Differences(s, t);
      RemainderPlus(p, p, s, t);
      PlusSelf(p);
      PlusSelf(Remainder(p, s));
      var k1, k2, k3 := Cover(Errors(s, t));
      SparseErrors(s, t, k1, k2, k3);
      NoPattern(d, k1, k2, k3);
      NoPattern(d, k2, k1, k3);
      NoPattern(d, k3, k1, k2);
      forall k | 0 <= k < |s| ensures Coefficient(d, k) == 0 {
      }
      Same(s, t);
    }
  }

  lemma PlusSelf(p: Poly)
    ensures Plus(p, p) == ZERO
  {
  }

  lemma SparseErrors(s: seq<Symbol>, t: seq<Symbol>, k1: int, k2: int, k3: int)
    requires |s| == |t| && k1 != k2 && k1 != k3 && k2 != k3
    requires forall k :: k in Errors(s, t) ==> k == k1 || k == k2 || k == k3
    ensures var d := Differences(s, t);
            Sparse(d, k1, k2, k3) && Sparse(d, k2, k1, k3) && Sparse(d, k3, k1, k2)
  {
    var d := Differences(s, t);
    forall k: nat | k < |d| && k != k1 && k != k2 && k != k3 ensures Coefficient(d, k) == 0 {
      assert k !in Errors(s, t);
    }
  }

  lemma Same(s: seq<Symbol>, t: seq<Symbol>)
    requires |s| == |t| && forall k :: 0 <= k < |s| ==> Coefficient(Differences(s, t), k) == 0
    ensures s == t
  {
    forall i | 0 <= i < |s| ensures s[i] == t[i] {
      assert Coefficient(Differences(s, t), |s| - 1 - i) == 0;
    }
  }
}
