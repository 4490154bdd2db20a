/** What the two shift loops leave in each word, and what number those words write. */
module ArithShift {
  import opened WordMath

  /** The bits that word `i` of `a` sends into the next word when shifted left by `s` (less than 32). */
  function Carried(a: seq<Word>, s: nat, i: nat): nat
    requires s <= 32 && i <= |a|
  {
    if i == 0 then 0 else Shr(a[i - 1], 32 - s)
  }

  function LeftWord(a: seq<Word>, k: nat, s: nat, j: nat): nat
    requires s <= 32 && j < |a|
  {
    if j < k then 0 else Shl(a[j - k], s) + Carried(a, s, j - k)
  }

  ghost predicate LeftShifted(a: seq<Word>, r: seq<Word>, k: nat, s: nat)
    requires s <= 32
  {
    |r| == |a| && forall j :: 0 <= j < |a| ==> r[j] == LeftWord(a, k, s, j)
  }

  /** Both halves of a result word fit, and occupy different bits. */
  lemma LeftWordFits(a: seq<Word>, s: nat, i: nat)
    requires s <= 32 && i < |a|
    ensures var low := Shl(a[i], s);
            Or(Carried(a, s, i), low) == low + Carried(a, s, i) < BASE
  {
    hide Shl, Shr, Mask, Pow2;
    ShiftLeft(a[i], s);
    if i > 0 {
      ShiftLeft(a[i - 1], s);
    }
    var low := Shl(a[i], s);
    OrDisjoint(Carried(a, s, i), low, s);
    MultipleFits(low, Mask(a[i], 32 - s), Pow2(s), Pow2(32 - s), Carried(a, s, i));
  }

  lemma MultipleFits(low: nat, r: nat, p: nat, m: nat, c: nat)
    requires low == r * p && r < m && c < p && p * m == BASE
    ensures low + c < BASE
  {
    MulMono(r + 1, m, p);
  }


  lemma {:induction false} LeftVal(a: seq<Word>, r: seq<Word>, k: nat, s: nat, i: nat)
    requires s <= 32 && LeftShifted(a, r, k, s) && k + i <= |a|
    ensures Val(r, k + i) + Carried(a, s, i) * Weight(k + i) == Val(a, i) * (Pow2(s) * Weight(k))
  {
    hide Val, Weight, Pow2, Shl, Shr, Mask;
    ValEmpty(a);
    if i == 0 {
      ZeroBelow(r, k);
    } else {
      LeftVal(a, r, k, s, i - 1);
      ValNext(r, k + i - 1);
      ValNext(a, i - 1);
      assert r[k + i - 1] == LeftWord(a, k, s, k + i - 1);
      ShiftLeft(a[i - 1], s);
      WeightAdd(k, i - 1);
      LeftStep(Shl(a[i - 1], s), Carried(a, s, i - 1), Carried(a, s, i), a[i - 1], Pow2(s), Weight(k),
               Weight(i - 1), Val(r, k + i - 1), Val(a, i - 1));
    }
  }

  lemma LeftStep(low: nat, c: nat, c': nat, x: nat, p: nat, wk: nat, wi: nat, v: nat, u: nat)
    requires v + c * (wk * wi) == u * (p * wk) && x * p == low + c' * BASE
    ensures v + (low + c) * (wk * wi) + c' * (BASE * (wk * wi)) == (u + x * wi) * (p * wk)
  {
    var w := wk * wi;
    assert (low + c) * w == low * w + c * w;
    assert c' * (BASE * w) == (c' * BASE) * w;
    assert (low + c' * BASE) * w == low * w + (c' * BASE) * w;
    assert x * p * w == (x * wi) * (p * wk) by {
      assert x * p * (wk * wi) == x * wi * p * wk;
    }
    assert (u + x * wi) * (p * wk) == u * (p * wk) + (x * wi) * (p * wk);
  }

  lemma {:induction false} ZeroBelow(r: seq<Word>, k: nat)
    requires k <= |r| && forall j :: 0 <= j < k ==> r[j] == 0
    ensures Val(r, k) == 0
  {
    if k > 0 {
      ZeroBelow(r, k - 1);
    }
  }

  /** A left shift multiplies by a power of two, modulo the width. */
  lemma LeftTotal(a: seq<Word>, r: seq<Word>, k: nat, s: nat)
    requires s <= 32 && LeftShifted(a, r, k, s)
    ensures Val(r, |r|) == Val(a, |a|) * Pow2(32 * k + s) % Weight(|a|)
  {
    hide Shl, Shr, Mask, Pow2, Weight, Val;
    var n := |a|;
    Pow2Add(32 * k, s);
    WeightPow2(k);
    if k <= n {
      LeftVal(a, r, k, s, n - k);
      ValSplit(a, n - k, k);
      WeightAdd(n - k, k);
      LeftQuotient(Val(r, n), Carried(a, s, n - k), Val(a, n - k), Val(a[n - k..], k), Pow2(s), Weight(k), Weight(n - k));
    } else {
      ZeroBelow(r, n);
      WeightAdd(k - n, n);
      Regroup(Val(a, n), Weight(k - n), Weight(n), Pow2(s));
      DivModUnique(Val(a, n) * Pow2(32 * k + s), Weight(n), Val(a, n) * Weight(k - n) * Pow2(s), 0);
    }
  }

  lemma Regroup(v: nat, a: nat, b: nat, c: nat)
    ensures v * (a * b * c) == v * a * c * b
  {
    assert a * b * c == a * c * b;
    assert v * (a * c * b) == v * a * c * b;
  }

  lemma LeftQuotient(v: nat, c: nat, low: nat, high: nat, p: nat, wk: nat, wi: nat)
    requires v + c * (wi * wk) == low * (p * wk) && v < wi * wk
    ensures v == (low + wi * high) * (wk * p) % (wi * wk)
  {
    var m := wi * wk;
    assert (low + wi * high) * (wk * p) == low * (p * wk) + (wi * high) * (wk * p);
    assert (wi * high) * (wk * p) == (high * p) * m by {
      assert wi * high * wk * p == high * p * wi * wk;
    }
    assert (high * p + c) * m == (high * p) * m + c * m;
    DivModUnique((low + wi * high) * (wk * p), m, high * p + c, v);
  }

  // ---------------------------------------------------------------- right

  /** The bits that word `i` of `a` sends into the word below when shifted right by `s`. */
  function Dropped(a: seq<Word>, s: nat, i: nat): nat {
    if i < |a| then Mask(a[i], s) else 0
  }

  function RightWord(a: seq<Word>, k: nat, s: nat, j: nat): nat
    requires s <= 32
  {
    if j + k >= |a| then 0
    else Shr(a[j + k], s) + (if j + k + 1 < |a| then Shl(a[j + k + 1], 32 - s) else 0)
  }

  ghost predicate RightShifted(a: seq<Word>, r: seq<Word>, k: nat, s: nat)
    requires s <= 32
  {
    |r| == |a| && forall j :: 0 <= j < |a| ==> r[j] == RightWord(a, k, s, j)
  }

  lemma RightWordFits(a: seq<Word>, s: nat, i: nat)
    requires s <= 32 && i + 1 < |a|
    ensures var high := Shl(a[i + 1], 32 - s);
            Or(Shr(a[i], s), high) == Shr(a[i], s) + high < BASE
  {
    hide Shl, Shr, Mask, Pow2;
    ShiftLeft(a[i], 32 - s);
    ShiftLeft(a[i + 1], 32 - s);
    var high := Shl(a[i + 1], 32 - s);
    OrDisjoint(Shr(a[i], s), high, 32 - s);
    Pow2Add(32 - s, s);
    Pow2Word();
    MultipleFits(high, Mask(a[i + 1], s), Pow2(32 - s), Pow2(s), Shr(a[i], s));
  }

  /** One result word, brought back up by `s` bits. */
  lemma RightWordUp(a: seq<Word>, k: nat, s: nat, j: nat)
    requires s <= 32 && j + k < |a|
    ensures RightWord(a, k, s, j) * Pow2(s) == a[j + k] - Dropped(a, s, j + k) + Dropped(a, s, j + k + 1) * BASE
  {
    hide Shl, Shr, Mask, Pow2;
    ShiftRight(a[j + k], s);
    if j + k + 1 < |a| {
      ShiftLeft(a[j + k + 1], 32 - s);
      UpStep(Shr(a[j + k], s), Mask(a[j + k + 1], s), Pow2(32 - s), Pow2(s));
    }
  }

  lemma UpStep(q: nat, d: nat, m: nat, p: nat)
    requires m * p == BASE
    ensures (q + d * m) * p == q * p + d * BASE
  {
    assert d * m * p == d * (m * p);
  }

  lemma {:induction false} RightVal(a: seq<Word>, r: seq<Word>, k: nat, s: nat, i: nat)
    requires s <= 32 && RightShifted(a, r, k, s) && k + i <= |a|
    ensures Val(r, i) * Pow2(s) + Dropped(a, s, k) == Val(a[k..], i) + Dropped(a, s, k + i) * Weight(i)
  {
    hide Val, Weight, Pow2, Shl, Shr, Mask;
    ValEmpty(r);
    ValEmpty(a[k..]);
    if i > 0 {
      RightVal(a, r, k, s, i - 1);
      ValNext(r, i - 1);
      ValNext(a[k..], i - 1);
      RightWordUp(a, k, s, i - 1);
      assert r[i - 1] == RightWord(a, k, s, i - 1);
      RightStep(Val(r, i - 1), r[i - 1], Pow2(s), Weight(i - 1), a[k + i - 1], Dropped(a, s, k + i - 1),
                Dropped(a, s, k + i), Dropped(a, s, k), Val(a[k..], i - 1));
    }
  }

  lemma RightStep(v: nat, x: nat, p: nat, w: nat, y: nat, d: nat, d': nat, d0: nat, u: nat)
    requires v * p + d0 == u + d * w && x * p == y - d + d' * BASE
    ensures (v + x * w) * p + d0 == u + y * w + d' * (BASE * w)
  {
    assert (v + x * w) * p == v * p + x * p * w;
    assert (y - d + d' * BASE) * w == y * w - d * w + d' * BASE * w;
  }

  /** A right shift divides by a power of two, rounding down. */
  lemma RightTotal(a: seq<Word>, r: seq<Word>, k: nat, s: nat)
    requires s <= 32 && RightShifted(a, r, k, s)
    ensures Val(r, |r|) == Val(a, |a|) / Pow2(32 * k + s)
  {
    hide Shl, Shr, Mask, Pow2, Weight, Val;
    var n := |a|;
    Pow2Add(32 * k, s);
    WeightPow2(k);
    if k < n {
      RightVal(a, r, k, s, n - k);
      ValSplit(a, k, n - k);
      ZeroAbove(r, n - k, n);
      RightQuotient(Val(a, n), Val(a, k), Weight(k), Pow2(s), Val(r, n), Dropped(a, s, k));
    } else {
      ZeroBelow(r, n);
      ShiftedOut(Val(a, n), n, k, s);
    }
  }

  lemma ShiftedOut(v: nat, n: nat, k: nat, s: nat)
    requires v < Weight(n) && n <= k
    ensures v / Pow2(32 * k + s) == 0
  {
    hide Pow2, Weight;
    WeightPow2(n);
    Pow2Mono(32 * n, 32 * k + s);
    DivModUnique(v, Pow2(32 * k + s), 0, v);
  }

  lemma {:induction false} ZeroAbove(r: seq<Word>, m: nat, n: nat)
    requires m <= n <= |r| && forall j :: m <= j < n ==> r[j] == 0
    ensures Val(r, n) == Val(r, m)
  {
    if m < n {
      ZeroAbove(r, m, n - 1);
    }
  }

  lemma RightQuotient(v: nat, low: nat, w: nat, p: nat, q: nat, d: nat)
    requires v == low + w * (q * p + d) && low < w && d < p
    ensures w * p > 0 && v / (w * p) == q
  {
    assert v == q * (w * p) + (low + w * d) by {
      assert w * (q * p + d) == w * (q * p) + w * d;
      assert w * (q * p) == q * (w * p);
    }
    MulMono(d + 1, p, w);
    assert w * d + w <= w * p;
    DivModUnique(v, w * p, q, low + w * d);
  }
}
