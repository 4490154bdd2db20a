/**
 The Bech32 checksum: the remainder of a polynomial over the field of 32 elements, which the
 code keeps as six five-bit coefficients packed into one word.
 */
module Bech32Code {

  type Symbol = bv5

  // ---------------------------------------------------------------- the field and the remainder

  /** Addition in the field. */
  function Add(x: Symbol, y: Symbol): Symbol {
    x ^ y
  }

  /** Multiplication by the field's generator, modulo a^5 + a^3 + 1. */
  function Twice(x: Symbol): Symbol {
    (x << 1) ^ (if x & 16 != 0 then 9 else 0)
  }

  function When(y: Symbol, bit: Symbol, x: Symbol): Symbol {
    if y & bit != 0 then x else 0
  }

  function Add5(a: Symbol, b: Symbol, c: Symbol, d: Symbol, e: Symbol): Symbol {
    Add(Add(Add(Add(a, b), c), d), e)
  }

  /** The product of two field elements. */
  function Mul(x: Symbol, y: Symbol): Symbol {
    var x2 := Twice(x);
    var x4 := Twice(x2);
    var x8 := Twice(x4);
    Add5(When(y, 1, x), When(y, 2, x2), When(y, 4, x4), When(y, 8, x8), When(y, 16, Twice(x8)))
  }

  /** A remainder modulo the generator polynomial: its six coefficients, highest first. */
  datatype Poly = Poly(a5: Symbol, a4: Symbol, a3: Symbol, a2: Symbol, a1: Symbol, a0: Symbol)

  function Plus(p: Poly, q: Poly): Poly {
    Poly(Add(p.a5, q.a5), Add(p.a4, q.a4), Add(p.a3, q.a3), Add(p.a2, q.a2), Add(p.a1, q.a1), Add(p.a0, q.a0))
  }

  const ZERO := Poly(0, 0, 0, 0, 0, 0)
  const ONE := Poly(0, 0, 0, 0, 0, 1)

  /** A multiple of x^6 modulo x^6 + {29}x^5 + {22}x^4 + {20}x^3 + {21}x^2 + {29}x + {18}. */
  function Over(c: Symbol): Poly {
    Poly(Mul(29, c), Mul(22, c), Mul(20, c), Mul(21, c), Mul(29, c), Mul(18, c))
  }

  /** The remainder of p(x) * x + v. */
  function Next(p: Poly, v: Symbol): Poly {
    Plus(Poly(p.a4, p.a3, p.a2, p.a1, p.a0, v), Over(p.a5))
  }

  /** The remainder after appending the coefficients `s`. */
  function Remainder(p: Poly, s: seq<Symbol>): Poly {
    if s == [] then p else Next(Remainder(p, s[..|s| - 1]), s[|s| - 1])
  }

  /** A whole byte as a coefficient: its upper three bits reach into the coefficient above. */
  function ByteTerm(v: bv8): Poly {
    Poly(0, 0, 0, 0, (v >> 5) as Symbol, (v & 31) as Symbol)
  }

  function NextByte(p: Poly, v: bv8): Poly {
    Plus(Plus(Poly(p.a4, p.a3, p.a2, p.a1, p.a0, 0), ByteTerm(v)), Over(p.a5))
  }

  /** The remainder after appending the bytes `s`. */
  function RemainderBytes(p: Poly, s: seq<bv8>): Poly {
    if s == [] then p else NextByte(RemainderBytes(p, s[..|s| - 1]), s[|s| - 1])
  }

  // ---------------------------------------------------------------- the packed form

  function Pack(p: Poly): bv32 {
    ((p.a5 as bv32) << 25) | ((p.a4 as bv32) << 20) | ((p.a3 as bv32) << 15) | ((p.a2 as bv32) << 10)
    | ((p.a1 as bv32) << 5) | (p.a0 as bv32)
  }

  /** The multiple `k` of the generator, where the bit is set in the coefficient pushed out. */
  function Part(c0: bv32, bit: bv32, k: bv32): bv32 {
    if c0 & bit != 0 then k else 0
  }

  /** The packed multiples of the generator, as the code lists them. */
  function Reduce(c0: bv32): bv32 {
    Xor(Xor(Xor(Xor(Part(c0, 1, 0x3b6a_57b2), Part(c0, 2, 0x2650_8e6d)), Part(c0, 4, 0x1ea1_19fa)),
            Part(c0, 8, 0x3d42_33dd)), Part(c0, 16, 0x2a14_62b3))
  }

  function Up(c: bv32): bv32 {
    (c & 0x1ff_ffff) << 5
  }

  function Shifted(c: bv32, v: bv8): bv32 {
    Xor(Up(c), v as bv32)
  }

  lemma PackedOver(c: Symbol)
    ensures Reduce(c as bv32) == Pack(Over(c))
  {
  }

  lemma PackedUp(p: Poly)
    ensures Up(Pack(p)) == Pack(Poly(p.a4, p.a3, p.a2, p.a1, p.a0, 0))
    ensures High(Pack(p)) == p.a5 as bv32
  {
  }

  lemma PackedByte(v: bv8)
    ensures v as bv32 == Pack(ByteTerm(v))
  {
  }

  lemma PackedShift(p: Poly, v: bv8)
    ensures Shifted(Pack(p), v) == Pack(Plus(Poly(p.a4, p.a3, p.a2, p.a1, p.a0, 0), ByteTerm(v)))
  {
    hide Pack, Up, Xor, Plus, ByteTerm;
    PackedUp(p);
    PackedByte(v);
    PackedPlus(Poly(p.a4, p.a3, p.a2, p.a1, p.a0, 0), ByteTerm(v));
  }

  lemma PackedPlus(p: Poly, q: Poly)
    ensures Xor(Pack(p), Pack(q)) == Pack(Plus(p, q))
  {
  }

  function Xor(a: bv32, b: bv32): bv32 {
    a ^ b
  }

  function High(c: bv32): bv32 {
    c >> 25
  }

  /** The word after one more coefficient. */
  function Step(c: bv32, v: bv8): bv32 {
    var c0 := High(c);
    Xor(Xor(Xor(Xor(Xor(Shifted(c, v), Part(c0, 1, 0x3b6a_57b2)), Part(c0, 2, 0x2650_8e6d)), Part(c0, 4, 0x1ea1_19fa)),
            Part(c0, 8, 0x3d42_33dd)), Part(c0, 16, 0x2a14_62b3))
  }

  lemma StepIs(c: bv32, v: bv8)
    ensures Step(c, v) == Xor(Shifted(c, v), Reduce(High(c)))
  {
    hide Part, Shifted, High, Xor;
    var c0 := High(c);
    XorRegroup(Shifted(c, v), Part(c0, 1, 0x3b6a_57b2), Part(c0, 2, 0x2650_8e6d), Part(c0, 4, 0x1ea1_19fa),
               Part(c0, 8, 0x3d42_33dd), Part(c0, 16, 0x2a14_62b3));
  }

  lemma PackedStep(p: Poly, v: bv8)
    ensures Step(Pack(p), v) == Pack(NextByte(p, v))
  {
    hide Pack, Reduce, Shifted, Over, Plus, Xor, High, Step, ByteTerm, Up;
    StepIs(Pack(p), v);
    PackedUp(p);
    PackedShift(p, v);
    PackedOver(p.a5);
    PackedPlus(Plus(Poly(p.a4, p.a3, p.a2, p.a1, p.a0, 0), ByteTerm(v)), Over(p.a5));
  }

  /** The packed loop computes the remainder of the polynomial with a one put in front. */
  method PolyMod(v: seq<bv8>) returns (c: bv32)
    ensures c == Pack(RemainderBytes(ONE, v))
  {
    hide Pack, Step, NextByte;
    c := 1;
    PackedOne();
    ghost var p := ONE;
    for i := 0 to |v|
      invariant p == RemainderBytes(ONE, v[..i]) && c == Pack(p)
    {
      assert v[..i + 1][..i] == v[..i];
      PackedStep(p, v[i]);
      c := Update(c, v[i]);
      p := NextByte(p, v[i]);
    }
    assert v[..|v|] == v;
  }

  lemma PackedOne()
    ensures Pack(ONE) == 1
  {
  }

  /** The body of the loop. */
  method Update(word: bv32, v: bv8) returns (c: bv32)
    ensures c == Step(word, v)
  {
    hide Part, Shifted, Xor, High;
    var c0 := High(word);
    c := Shifted(word, v);
    c := AddIf(c, c0, 1, 0x3b6a_57b2);
    c := AddIf(c, c0, 2, 0x2650_8e6d);
    c := AddIf(c, c0, 4, 0x1ea1_19fa);
    c := AddIf(c, c0, 8, 0x3d42_33dd);
    c := AddIf(c, c0, 16, 0x2a14_62b3);
  }

  /** One of the conditional additions. */
  method AddIf(c: bv32, c0: bv32, bit: bv32, k: bv32) returns (r: bv32)
    ensures r == Xor(c, Part(c0, bit, k))
  {
    r := c;
    if c0 & bit != 0 {
      r := r ^ k;
    }
  }

  lemma XorAssociative(a: bv32, b: bv32, c: bv32)
    ensures Xor(Xor(a, b), c) == Xor(a, Xor(b, c))
  {
  }

  lemma XorRegroup(x: bv32, a: bv32, b: bv32, c: bv32, d: bv32, e: bv32)
    ensures Xor(Xor(Xor(Xor(Xor(x, a), b), c), d), e) == Xor(x, Xor(Xor(Xor(Xor(a, b), c), d), e))
  {
    hide Xor;
    XorAssociative(x, a, b);
    XorAssociative(x, Xor(a, b), c);
    XorAssociative(x, Xor(Xor(a, b), c), d);
    XorAssociative(x, Xor(Xor(Xor(a, b), c), d), e);
  }

  /** The 5-bit group of a word that holds coefficient `5 - i`. */
  function Group(c: bv32, i: nat): Symbol
    requires i < 6
  {
    var s: bv32 := match i
      case 0 => c >> 25
      case 1 => c >> 20
      case 2 => c >> 15
      case 3 => c >> 10
      case 4 => c >> 5
      case _ => c;
    (s & 31) as Symbol
  }

  lemma Unpack(p: Poly)
    ensures Group(Pack(p), 0) == p.a5 && Group(Pack(p), 1) == p.a4 && Group(Pack(p), 2) == p.a3
    ensures Group(Pack(p), 3) == p.a2 && Group(Pack(p), 4) == p.a1 && Group(Pack(p), 5) == p.a0
  {
  }

  lemma PackInjective(p: Poly, q: Poly)
    requires Pack(p) == Pack(q)
    ensures p == q
  {
    hide Pack, Group;
    Unpack(p);
    Unpack(q);
  }

  // ---------------------------------------------------------------- linearity

  lemma AddLaws(a: Symbol, b: Symbol, c: Symbol, d: Symbol)
    ensures Add(Add(a, b), Add(c, d)) == Add(Add(a, c), Add(b, d))
  {
  }

  lemma WhenPlus(y: Symbol, z: Symbol, bit: Symbol, x: Symbol)
    requires bit == 1 || bit == 2 || bit == 4 || bit == 8 || bit == 16
    ensures When(Add(y, z), bit, x) == Add(When(y, bit, x), When(z, bit, x))
  {
  }

  lemma Add5Plus(a: Symbol, b: Symbol, c: Symbol, d: Symbol, e: Symbol,
                 a': Symbol, b': Symbol, c': Symbol, d': Symbol, e': Symbol)
    ensures Add5(Add(a, a'), Add(b, b'), Add(c, c'), Add(d, d'), Add(e, e'))
         == Add(Add5(a, b, c, d, e), Add5(a', b', c', d', e'))
  {
    hide Add;
    AddLaws(a, b, a', b');
    AddLaws(Add(a, b), c, Add(a', b'), c');
    AddLaws(Add(Add(a, b), c), d, Add(Add(a', b'), c'), d');
    AddLaws(Add(Add(Add(a, b), c), d), e, Add(Add(Add(a', b'), c'), d'), e');
  }

  lemma MulPlus(x: Symbol, y: Symbol, z: Symbol)
    ensures Mul(x, Add(y, z)) == Add(Mul(x, y), Mul(x, z))
  {
    hide Add, When, Twice, Add5;
    var x2 := Twice(x);
    var x4 := Twice(x2);
    var x8 := Twice(x4);
    var x16 := Twice(x8);
    WhenPlus(y, z, 1, x);
    WhenPlus(y, z, 2, x2);
    WhenPlus(y, z, 4, x4);
    WhenPlus(y, z, 8, x8);
    WhenPlus(y, z, 16, x16);
    Add5Plus(When(y, 1, x), When(y, 2, x2), When(y, 4, x4), When(y, 8, x8), When(y, 16, x16),
             When(z, 1, x), When(z, 2, x2), When(z, 4, x4), When(z, 8, x8), When(z, 16, x16));
  }

  lemma OverPlus(c: Symbol, d: Symbol)
    ensures Over(Add(c, d)) == Plus(Over(c), Over(d))
  {
    hide Mul, Add;
    MulPlus(29, c, d);
    MulPlus(22, c, d);
    MulPlus(20, c, d);
    MulPlus(21, c, d);
    MulPlus(18, c, d);
  }

  lemma PlusLaws(p: Poly, q: Poly, r: Poly, s: Poly)
    ensures Plus(Plus(p, q), Plus(r, s)) == Plus(Plus(p, r), Plus(q, s))
  {
    hide Add;
    AddLaws(p.a5, q.a5, r.a5, s.a5);
    AddLaws(p.a4, q.a4, r.a4, s.a4);
    AddLaws(p.a3, q.a3, r.a3, s.a3);
    AddLaws(p.a2, q.a2, r.a2, s.a2);
    AddLaws(p.a1, q.a1, r.a1, s.a1);
    AddLaws(p.a0, q.a0, r.a0, s.a0);
  }

  lemma NextPlus(p: Poly, q: Poly, v: Symbol, w: Symbol)
    ensures Next(Plus(p, q), Add(v, w)) == Plus(Next(p, v), Next(q, w))
  {
    hide Over, Add;
    OverPlus(p.a5, q.a5);
    PlusLaws(Poly(p.a4, p.a3, p.a2, p.a1, p.a0, v), Over(p.a5), Poly(q.a4, q.a3, q.a2, q.a1, q.a0, w), Over(q.a5));
  }

  function Differences(s: seq<Symbol>, t: seq<Symbol>): (d: seq<Symbol>)
    requires |s| == |t|
    ensures |d| == |s| && forall i :: 0 <= i < |d| ==> d[i] == Add(s[i], t[i])
  {
    seq(|s|, i requires 0 <= i < |s| => Add(s[i], t[i]))
  }

  /** The remainder of a sum is the sum of the remainders. */
  lemma {:induction false} RemainderPlus(p: Poly, q: Poly, s: seq<Symbol>, t: seq<Symbol>)
    requires |s| == |t|
    ensures Remainder(Plus(p, q), Differences(s, t)) == Plus(Remainder(p, s), Remainder(q, t))
  {
    if s != [] {
      hide Next, Plus, Add;
      var n := |s| - 1;
      RemainderPlus(p, q, s[..n], t[..n]);
      assert Differences(s, t)[..n] == Differences(s[..n], t[..n]);
      NextPlus(Remainder(p, s[..n]), Remainder(q, t[..n]), s[n], t[n]);
    }
  }

  lemma {:induction false} RemainderAppend(p: Poly, s: seq<Symbol>, t: seq<Symbol>)
    ensures Remainder(p, s + t) == Remainder(Remainder(p, s), t)
  {
    if t == [] {
      assert s + t == s;
    } else {
      RemainderAppend(p, s, t[..|t| - 1]);
      assert (s + t)[..|s + t| - 1] == s + t[..|t| - 1];
    }
  }

  // ---------------------------------------------------------------- bytes that are symbols

  function Byte(v: Symbol): bv8 {
    v as bv8
  }

  function AsBytes(s: seq<Symbol>): (b: seq<bv8>)
    ensures |b| == |s| && forall i :: 0 <= i < |s| ==> b[i] == Byte(s[i])
  {
    seq(|s|, i requires 0 <= i < |s| => Byte(s[i]))
  }

  lemma SymbolTerm(v: Symbol)
    ensures ByteTerm(Byte(v)) == Poly(0, 0, 0, 0, 0, v)
  {
  }

  lemma PutLast(p: Poly, v: Symbol)
    requires p.a0 == 0
    ensures Plus(p, Poly(0, 0, 0, 0, 0, v)) == Poly(p.a5, p.a4, p.a3, p.a2, p.a1, v)
  {
  }

  lemma BytesPrefix(s: seq<Symbol>, n: nat)
    requires n <= |s|
    ensures AsBytes(s)[..n] == AsBytes(s[..n])
  {
    hide Byte;
  }

  lemma SymbolNext(p: Poly, v: Symbol)
    ensures NextByte(p, Byte(v)) == Next(p, v)
  {
    hide Over, Plus, ByteTerm, Byte;
    SymbolTerm(v);
    PutLast(Poly(p.a4, p.a3, p.a2, p.a1, p.a0, 0), v);
  }

  /** Bytes that fit into five bits are ordinary coefficients. */
  lemma {:induction false} SymbolBytes(p: Poly, s: seq<Symbol>)
    ensures RemainderBytes(p, AsBytes(s)) == Remainder(p, s)
  {
    hide Next, NextByte, Byte, AsBytes;
    if s != [] {
      var n := |s| - 1;
      SymbolBytes(p, s[..n]);
      BytesPrefix(s, n);
      SymbolNext(Remainder(p, s[..n]), s[n]);
    }
  }

  lemma {:induction false} BytesAppend(p: Poly, s: seq<bv8>, t: seq<bv8>)
    ensures RemainderBytes(p, s + t) == RemainderBytes(RemainderBytes(p, s), t)
  {
    hide NextByte;
    if t == [] {
      assert s + t == s;
    } else {
      BytesAppend(p, s, t[..|t| - 1]);
      assert (s + t)[..|s + t| - 1] == s + t[..|t| - 1];
    }
  }
}
