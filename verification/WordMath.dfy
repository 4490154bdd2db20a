/**
 Numbers as sequences of 32-bit words, least significant first, and the bit operations the
 arithmetic code applies to single words.
 */
module WordMath {

  const BASE: int := 0x1_0000_0000

  /** A 32-bit and a 64-bit unsigned integer: assignments prove that nothing is cut off. */
  type Word = x: int | 0 <= x < 0x1_0000_0000
  type DoubleWord = x: int | 0 <= x < 0x1_0000_0000_0000_0000

  // ---------------------------------------------------------------- powers

  function Pow2(n: nat): (r: nat)
    ensures r > 0
  {
    if n == 0 then 1 else 2 * Pow2(n - 1)
  }

  /** The weight of word `n`. */
  function Weight(n: nat): (r: nat)
    ensures r > 0
  {
    if n == 0 then 1 else BASE * Weight(n - 1)
  }

  lemma {:induction false} Pow2Add(a: nat, b: nat)
    ensures Pow2(a + b) == Pow2(a) * Pow2(b)
  {
    if a > 0 {
      Pow2Add(a - 1, b);
      assert Pow2(a + b) == 2 * Pow2((a - 1) + b);
    }
  }

  lemma Pow2Word()
    ensures Pow2(32) == BASE
  {
    assert Pow2(8) == 256;
    Pow2Add(8, 8);
    Pow2Add(16, 16);
  }

  lemma {:induction false} WeightPow2(n: nat)
    ensures Weight(n) == Pow2(32 * n)
  {
    if n > 0 {
      WeightPow2(n - 1);
      Pow2Word();
      Pow2Add(32, 32 * (n - 1));
    }
  }

  lemma WeightAdd(a: nat, b: nat)
    ensures Weight(a + b) == Weight(a) * Weight(b)
  {
    WeightPow2(a);
    WeightPow2(b);
    WeightPow2(a + b);
    Pow2Add(32 * a, 32 * b);
  }

  lemma Pow2Mono(a: nat, b: nat)
    requires a <= b
    ensures Pow2(a) <= Pow2(b)
  {
    Pow2Add(a, b - a);
    MulMono(1, Pow2(b - a), Pow2(a));
  }

  // ---------------------------------------------------------------- arithmetic

  lemma MulMono(a: int, b: int, c: nat)
    requires a <= b
    ensures a * c <= b * c
  {
  }

  lemma Distribute(a: int, v: int, x: int, b: int)
    ensures a * (v + x * b) == a * v + x * (a * b)
  {
    assert a * (x * b) == x * (a * b);
  }

  /** The quotient and the remainder are what they have to be. */
  lemma DivModUnique(t: int, m: int, q: int, r: int)
    requires m > 0 && 0 <= r < m && t == q * m + r
    ensures t / m == q && t % m == r
  {
    var d := q - t / m;
    assert t == t / m * m + t % m;
    assert d * m == t % m - r by {
      assert d * m == q * m - t / m * m;
    }
    if d > 0 {
      MulMono(1, d, m);
    } else if d < 0 {
      MulMono(d, -1, m);
    }
  }

  // ---------------------------------------------------------------- words

  /** The number that the first `n` words write. */
  function Val(s: seq<Word>, n: nat): (v: nat)
    requires n <= |s|
    ensures v < Weight(n)
  {
    if n == 0 then 0
    else
      assert s[n - 1] * Weight(n - 1) <= (BASE - 1) * Weight(n - 1) by { MulMono(s[n - 1], BASE - 1, Weight(n - 1)); }
      Val(s, n - 1) + s[n - 1] * Weight(n - 1)
  }

  lemma {:induction false} ValPrefix(s: seq<Word>, t: seq<Word>, n: nat)
    requires n <= |s| && n <= |t|
    requires forall k :: 0 <= k < n ==> s[k] == t[k]
    ensures Val(s, n) == Val(t, n)
  {
    if n > 0 {
      ValPrefix(s, t, n - 1);
    }
  }

  lemma ValEmpty(s: seq<Word>)
    ensures Val(s, 0) == 0 && Weight(0) == 1
  {
  }

  lemma ValNext(s: seq<Word>, n: nat)
    requires n < |s|
    ensures Val(s, n + 1) == Val(s, n) + s[n] * Weight(n) && Weight(n + 1) == BASE * Weight(n)
  {
  }

  /** Words from `k` on, as a number of their own. */
  lemma {:induction false} ValSplit(s: seq<Word>, k: nat, n: nat)
    requires k + n <= |s|
    ensures Val(s, k + n) == Val(s, k) + Weight(k) * Val(s[k..], n)
  {
    if n > 0 {
      ValSplit(s, k, n - 1);
      WeightAdd(k, n - 1);
      Distribute(Weight(k), Val(s[k..], n - 1), s[k + n - 1], Weight(n - 1));
    }
  }

  /** The words decide the number: compare from the top down. */
  lemma ValCompare(s: seq<Word>, t: seq<Word>, n: nat)
    requires n < |s| && n < |t| && s[n] < t[n]
    ensures Val(s, n + 1) < Val(t, n + 1)
  {
    hide Val, Weight;
    ValNext(s, n);
    ValNext(t, n);
    TopDigit(Val(s, n), s[n], t[n], Weight(n));
  }

  lemma TopDigit(v: nat, x: nat, y: nat, w: nat)
    requires v < w && x < y
    ensures v + x * w < y * w
  {
    MulMono(x + 1, y, w);
  }

  lemma {:induction false} ValSame(s: seq<Word>, t: seq<Word>, n: nat, m: nat)
    requires n <= m <= |s| && m <= |t| && forall k :: n <= k < m ==> s[k] == t[k]
    ensures Val(s, m) - Val(s, n) == Val(t, m) - Val(t, n)
  {
    if n < m {
      ValSame(s, t, n, m - 1);
    }
  }

  // ---------------------------------------------------------------- bits of one word

  /** Bitwise or of two non-negative numbers. */
  function Or(a: nat, b: nat): nat {
    if a == 0 then b else if b == 0 then a
    else (if a % 2 == 1 || b % 2 == 1 then 1 else 0) + 2 * Or(a / 2, b / 2)
  }

  /** Where no bit is set in both, or is plus. */
  lemma {:induction false} OrDisjoint(low: nat, high: nat, n: nat)
    requires low < Pow2(n) && high % Pow2(n) == 0
    ensures Or(low, high) == low + high && Or(high, low) == low + high
  {
    if low > 0 && high > 0 {
      var m := Pow2(n - 1);
      var q := high / Pow2(n);
      assert high == 2 * (q * m);
      DivModUnique(high / 2, m, q, 0);
      OrDisjoint(low / 2, high / 2, n - 1);
    }
  }

  /** Shifts of one word; the left shift loses the bits pushed over the top. */
  function Shl(x: nat, n: nat): (r: Word) {
    x * Pow2(n) % BASE
  }

  function Shr(x: nat, n: nat): (r: nat)
    ensures r <= x
  {
    ShrBelow(x, Pow2(n));
    x / Pow2(n)
  }

  lemma ShrBelow(x: nat, p: nat)
    requires p > 0
    ensures 0 <= x / p <= x
  {
    var q := x / p;
    assert x == q * p + x % p;
    if q < 0 {
      MulMono(q, -1, p);
    } else {
      MulMono(1, p, q);
    }
  }

  /** The lowest `n` bits. */
  function Mask(x: nat, n: nat): (r: nat)
    ensures r < Pow2(n)
  {
    x % Pow2(n)
  }

  predicate Bit(x: nat, n: nat) {
    Shr(x, n) % 2 == 1
  }

  /** The left shift of a word cuts off what its top bits become. */
  lemma ShiftLeft(x: Word, s: nat)
    requires s <= 32
    ensures x * Pow2(s) == Shl(x, s) + Shr(x, 32 - s) * BASE
    ensures Shl(x, s) == Mask(x, 32 - s) * Pow2(s)
    ensures Shl(x, s) % Pow2(s) == 0
    ensures Shr(x, 32 - s) < Pow2(s)
    ensures Pow2(s) * Pow2(32 - s) == BASE
  {
    Pow2Add(s, 32 - s);
    Pow2Word();
    ShiftSplit(x, Pow2(s), Pow2(32 - s));
  }

  lemma ShiftRight(x: nat, s: nat)
    ensures x == Shr(x, s) * Pow2(s) + Mask(x, s)
  {
  }

  lemma ShiftSplit(x: nat, p: nat, m: nat)
    requires p > 0 && m > 0 && x < p * m
    ensures x * p == x * p % (p * m) + x / m * (p * m)
    ensures x * p % (p * m) == x % m * p
    ensures x % m * p % p == 0
    ensures x / m < p
  {
    var q, r := x / m, x % m;
    ShiftProducts(x, q, r, p, m);
    DivModUnique(x * p, p * m, q, r * p);
    DivModUnique(r * p, p, r, 0);
  }

  lemma ShiftProducts(x: nat, q: nat, r: nat, p: nat, m: nat)
    requires x == q * m + r && r < m && x < p * m
    ensures x * p == q * (p * m) + r * p && r * p < p * m && q < p
  {
    Distribute(p, r, q, m);
    MulMono(r + 1, m, p);
    if q >= p {
      MulMono(p, q, m);
    }
  }
}
