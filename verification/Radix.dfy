/** Numbers written as digit sequences in a base, most significant digit first. */
module Radix {
  import WordMath

  function Pow(b: nat, n: nat): (r: nat)
    ensures b > 0 ==> r > 0
  {
    if n == 0 then 1 else b * Pow(b, n - 1)
  }

  lemma {:induction false} PowAdd(b: nat, m: nat, n: nat)
    ensures Pow(b, m + n) == Pow(b, m) * Pow(b, n)
  {
    if m > 0 {
      PowAdd(b, m - 1, n);
      Associate(b, Pow(b, m - 1), Pow(b, n));
    }
  }

  lemma Associate(a: nat, b: nat, c: nat)
    ensures a * b * c == a * (b * c)
  {
  }

  lemma Commute(a: nat, b: nat)
    ensures a * b == b * a
  {
  }

  lemma Times(a: nat, b: nat, c: nat)
    requires a <= b
    ensures a * c <= b * c
    ensures a < b && c > 0 ==> a * c < b * c
  {
  }

  lemma ProductOrder(a: nat, b: nat, c: nat, d: nat)
    requires a <= b && c <= d && (b > 0 ==> d > 0)
    ensures a * c <= b * d
    ensures a < b ==> a * c < b * d
  {
    Times(c, d, a);
    Times(a, b, d);
  }

  lemma {:induction false} PowMul(b: nat, m: nat, n: nat)
    ensures Pow(Pow(b, m), n) == Pow(b, m * n)
  {
    if n > 0 {
      PowMul(b, m, n - 1);
      PowAdd(b, m, m * (n - 1));
      assert m + m * (n - 1) == m * n;
    } else {
      assert m * n == 0;
    }
  }

  lemma {:induction false} PowBase(a: nat, b: nat, n: nat)
    requires a <= b
    ensures Pow(a, n) <= Pow(b, n)
    ensures a < b && n > 0 ==> Pow(a, n) < Pow(b, n)
  {
    if n > 0 {
      PowBase(a, b, n - 1);
      ProductOrder(a, b, Pow(a, n - 1), Pow(b, n - 1));
    }
  }

  lemma PowMono(b: nat, m: nat, n: nat)
    requires b > 0 && m <= n
    ensures Pow(b, m) <= Pow(b, n)
  {
    hide Pow;
    PowAdd(b, m, n - m);
    Times(1, Pow(b, n - m), Pow(b, m));
  }

  lemma PowSwap(a: nat, m: nat, n: nat)
    ensures Pow(Pow(a, m), n) == Pow(Pow(a, n), m)
  {
    hide Pow;
    PowMul(a, m, n);
    PowMul(a, n, m);
    Commute(m, n);
  }

  lemma PowCompare(b: nat, p: nat, n: nat, m: nat, q: nat)
    requires b > 0 && p * n <= m * q
    ensures Pow(Pow(b, p), n) <= Pow(Pow(b, m), q)
  {
    hide Pow;
    PowMul(b, p, n);
    PowMul(b, m, q);
    PowMono(b, p * n, m * q);
  }

  /** From one inequality between powers of two bases, one for every length in that proportion. */
  lemma RootBound(a: nat, b: nat, p: nat, q: nat, n: nat, m: nat)
    requires b > 0 && q > 0 && Pow(a, q) <= Pow(b, p) && p * n <= m * q
    ensures Pow(a, n) <= Pow(b, m)
  {
    hide Pow;
    PowSwap(a, n, q);
    PowBase(Pow(a, q), Pow(b, p), n);
    PowCompare(b, p, n, m, q);
    if Pow(b, m) < Pow(a, n) {
      PowBase(Pow(b, m), Pow(a, n), q);
    }
  }

  // ---------------------------------------------------------------- digits

  ghost predicate AreDigits(s: seq<nat>, b: nat) {
    forall i :: 0 <= i < |s| ==> s[i] < b
  }

  function Number(s: seq<nat>, b: nat): nat {
    if s == [] then 0 else Number(s[..|s| - 1], b) * b + s[|s| - 1]
  }

  function Digits(v: nat, b: nat): seq<nat>
    requires b >= 2
  {
    if v == 0 then [] else Quotient(v, b); Digits(v / b, b) + [v % b]
  }

  lemma Quotient(v: nat, b: nat)
    requires b >= 2 && v > 0
    ensures 0 <= v / b < v && v == v / b * b + v % b
  {
  }

  lemma {:induction false} NumberOfDigits(v: nat, b: nat)
    requires b >= 2
    ensures AreDigits(Digits(v, b), b) && Number(Digits(v, b), b) == v
    ensures v > 0 ==> Digits(v, b) != [] && Digits(v, b)[0] != 0
  {
    if v > 0 {
      Quotient(v, b);
      NumberOfDigits(v / b, b);
      assert Digits(v, b)[..|Digits(v, b)| - 1] == Digits(v / b, b);
    }
  }

  /** Without a leading zero, a number has one way to be written. */
  lemma {:induction false} DigitsOfNumber(s: seq<nat>, b: nat)
    requires b >= 2 && AreDigits(s, b) && (s != [] ==> s[0] != 0)
    ensures Digits(Number(s, b), b) == s && (s != [] ==> Number(s, b) > 0)
  {
    if s != [] {
      var t := s[..|s| - 1];
      DigitsOfNumber(t, b);
      WordMath.DivModUnique(Number(s, b), b, Number(t, b), s[|s| - 1]);
      if t != [] {
        Times(1, Number(t, b), b);
      }
    }
  }

  lemma {:induction false} NumberBound(s: seq<nat>, b: nat)
    requires AreDigits(s, b)
    ensures Number(s, b) < Pow(b, |s|)
  {
    if s != [] {
      var t := s[..|s| - 1];
      NumberBound(t, b);
      BoundStep(Number(t, b), Pow(b, |t|), b, s[|s| - 1]);
    }
  }

  lemma BoundStep(v: nat, p: nat, b: nat, d: nat)
    requires v < p && d < b
    ensures v * b + d < b * p
  {
    Times(v + 1, p, b);
  }

  lemma {:induction false} NumberCons(x: nat, t: seq<nat>, b: nat)
    ensures Number([x] + t, b) == x * Pow(b, |t|) + Number(t, b)
  {
    var s := [x] + t;
    if t == [] {
      assert s[..0] == [];
      assert Number(s[..0], b) == 0;
    } else {
      var u := t[..|t| - 1];
      NumberCons(x, u, b);
      assert s[..|s| - 1] == [x] + u;
      ConsStep(x, Pow(b, |u|), b, Number(u, b));
    }
  }

  lemma ConsStep(x: nat, p: nat, b: nat, v: nat)
    ensures (x * p + v) * b == x * (b * p) + v * b
  {
    assert x * p * b == x * (b * p);
  }

  /** Leading zeros do not count. */
  lemma {:induction false} LeadingZeros(s: seq<nat>, k: nat, b: nat)
    requires k <= |s| && forall i :: 0 <= i < k ==> s[i] == 0
    ensures Number(s, b) == Number(s[k..], b)
  {
    if k > 0 {
      assert s == [0] + s[1..];
      NumberCons(0, s[1..], b);
      LeadingZeros(s[1..], k - 1, b);
      assert s[1..][k - 1..] == s[k..];
    } else {
      assert s[0..] == s;
    }
  }

  // ---------------------------------------------------------------- room

  lemma Powers58()
    ensures Pow(58, 1) == 58
    ensures Pow(58, 2) == 0xd24
    ensures Pow(58, 4) == 0xacad10
    ensures Pow(58, 8) == 0x7479027ea100
  {
    assert Pow(58, 1) == 58 * Pow(58, 0);
    assert Pow(58, 2) == 58 * Pow(58, 1);
    PowAdd(58, 2, 2);
    PowAdd(58, 4, 4);
  }

  lemma Powers256()
    ensures Pow(256, 1) == 0x100
    ensures Pow(256, 2) == 0x1_0000
    ensures Pow(256, 4) == 0x1_0000_0000
    ensures Pow(256, 8) == 0x1_0000_0000_0000_0000
  {
    assert Pow(256, 1) == 256 * Pow(256, 0);
    assert Pow(256, 2) == 256 * Pow(256, 1);
    PowAdd(256, 2, 2);
    PowAdd(256, 4, 4);
  }

  lemma Compare8()
    ensures Pow(256, 8) <= Pow(58, 11)
  {
    Powers58();
    Powers256();
    PowAdd(58, 2, 1);
    PowAdd(58, 8, 3);
  }

  lemma BigPowers()
    ensures Pow(58, 64) == 0x7853026ae25f4ce0c69893e6f1f86f67aef4db69563516064adeb967a9d66f4fe64b09ec94e5010000000000000000
    ensures Pow(256, 32) == 0x1_0000000000000000_0000000000000000_0000000000000000_0000000000000000
    ensures Pow(256, 16) == 0x1_0000000000000000_0000000000000000
  {
    Powers58();
    Powers256();
    PowAdd(58, 8, 8);
    PowAdd(58, 16, 16);
    PowAdd(58, 32, 32);
    PowAdd(256, 8, 8);
    PowAdd(256, 16, 16);
  }

  lemma Compare71()
    ensures Pow(58, 71) <= Pow(256, 52)
  {
    Powers58();
    Powers256();
    BigPowers();
    hide Pow;
    PowAdd(58, 2, 1);
    PowAdd(58, 4, 3);
    PowAdd(58, 64, 7);
    PowAdd(256, 16, 4);
    PowAdd(256, 32, 20);
  }

  /** The space set aside for the base 58 digits of `n` bytes is enough, for every `n`. */
  lemma EncodeRoom(n: nat)
    ensures Pow(256, n) <= Pow(58, n * 138 / 100 + 1)
  {
    hide Pow;
    Compare8();
    RootBound(256, 58, 11, 8, n, n * 138 / 100 + 1);
  }

  /** The space set aside for the bytes of `n` base 58 digits is enough, for every `n`. */
  lemma DecodeRoom(n: nat)
    ensures Pow(58, n) <= Pow(256, n * 733 / 1000 + 1)
  {
    hide Pow;
    Compare71();
    RootBound(58, 256, 52, 71, n, n * 733 / 1000 + 1);
  }
}
