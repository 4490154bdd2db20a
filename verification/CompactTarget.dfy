/** Compact targets on 256-bit numbers, and the work a target stands for. */
module CompactTarget {
  import opened WordMath
  import opened ArithUint
  import opened Compact

  /** Decodes a compact word; the flags say exactly when the number does not fit or is negative. */
  method SetCompact(self: BaseUint, nCompact: Word) returns (negative: bool, overflow: bool)
    requires self.Valid() && self.pn.Length == 8
    modifies self.pn
    ensures self.Value() == CompactValue(nCompact) % Pow2(256)
    ensures negative <==> CompactValue(nCompact) != 0 && SignBit(nCompact)
    ensures overflow <==> CompactValue(nCompact) >= Pow2(256)
  {
    hide Val, Weight, Pow2, Shr;
    WeightPow2(8);
    var nSize := nCompact / 0x100_0000;
    var nWord := nCompact % SIGN;
    Fits(nWord, nSize);
    if nSize <= 3 {
      nWord := Shr(nWord, 8 * (3 - nSize));
      self.AssignWord(nWord);
    } else {
      self.AssignWord(nWord);
      self.ShiftLeftBy(8 * (nSize - 3));
    }
    negative := nWord != 0 && SignBit(nCompact);
    overflow := nWord != 0 && (nSize > 34 || (nWord > 0xff && nSize > 33) || (nWord > 0xffff && nSize > 32));
  }

  /** When the mantissa shifted by its size passes 256 bits. */
  lemma Fits(m: nat, size: nat)
    requires m < SIGN
    ensures size <= 3 ==> ValueOf(m, size) < Pow2(256) && ValueOf(m, size) % Pow2(256) == ValueOf(m, size)
    ensures size > 3 ==> (ValueOf(m, size) == 0 <==> m == 0)
    ensures size > 3 ==> (ValueOf(m, size) >= Pow2(256) <==>
                          m != 0 && (size > 34 || (m > 0xff && size > 33) || (m > 0xffff && size > 32)))
  {
    hide Pow2, Shr;
    Bytes();
    if size <= 3 {
      Pow2Mono(24, 256);
      DivModUnique(ValueOf(m, size), Pow2(256), 0, ValueOf(m, size));
    } else {
      var p := Pow2(8 * (size - 3));
      if m != 0 {
        MulMono(1, m, p);
      }
      if size > 34 {
        Pow2Mono(256, 8 * (size - 3));
      } else if size <= 32 {
        Pow2Mono(8 * (size - 3), 232);
        Pow2Add(24, 232);
        TooSmall(m, p, Pow2(232), 0x100_0000);
      } else {
        Pow2Add(8 * (35 - size), 8 * (size - 3));
        Cancel(m, Pow2(8 * (35 - size)), p);
      }
    }
  }

  lemma TooSmall(m: nat, p: nat, q: nat, b: nat)
    requires m < b && p <= q && 0 < q
    ensures m * p < b * q
  {
    MulMono(p, q, m);
    MulMono(m + 1, b, q);
  }

  /** Encodes a number; the two assertions of the original never fail. */
  method GetCompact(self: BaseUint, negative: bool) returns (r: Word)
    requires self.Valid() && self.pn.Length == 8
    ensures r == CompactOf(self.Value(), negative)
  {
    hide Val, Weight, Pow2, Shr, Or, Scaled, ByteSize, FinalSize, SignBit;
    WeightPow2(8);
    ghost var v := self.Value();
    FinalMantissa(v);
    FinalSizeFits(v);
    var bits := self.Bits();
    var nSize := (bits + 7) / 8;
    SizeOfBits(v, bits);
    ScaledLow(v, nSize);
    var nCompact: Word;
    if nSize <= 3 {
      nCompact := self.GetLow64() * Pow2(8 * (3 - nSize)) % (BASE * BASE) % BASE;
    } else {
      var bn := new BaseUint.Copy(self);
      bn.ShiftRightBy(8 * (nSize - 3));
      nCompact := bn.GetLow64() % BASE;
    }
    assert nCompact == Scaled(v, ByteSize(v));
    FinalSizeSplit(v);
    SignAt(nCompact);
    if SignBit(nCompact) {
      nCompact := nCompact / 256;
      nSize := nSize + 1;
    }
    assert nCompact < SIGN && nSize < 256;
    PackOr(nCompact, nSize);
    nCompact := Or(nCompact, nSize * 0x100_0000);
    if negative && nCompact % SIGN != 0 {
      nCompact := Or(nCompact, SIGN);
    }
    r := nCompact;
  }

  lemma FinalSizeSplit(v: nat)
    ensures FinalSize(v) == ByteSize(v) + (if Scaled(v, ByteSize(v)) >= SIGN then 1 else 0)
  {
  }

  lemma SignAt(c: Word)
    requires c < 0x100_0000
    ensures SignBit(c) <==> c >= SIGN
  {
  }

  lemma SizeOfBits(v: nat, bits: nat)
    requires bits == 0 ==> v == 0
    requires bits > 0 ==> Pow2(bits - 1) <= v < Pow2(bits)
    ensures ByteSize(v) == (bits + 7) / 8
  {
    if bits > 0 {
      hide Pow2, ByteSize;
      var n := (bits + 7) / 8;
      Pow2Mono(8 * (n - 1), bits - 1);
      Pow2Mono(bits, 8 * n);
      ByteSizeIs(v, n);
    }
  }

  /** Nothing is lost where the 64-bit and 32-bit casts cut. */
  lemma ScaledLow(v: nat, n: nat)
    requires n == ByteSize(v) && Scaled(v, n) < 0x100_0000
    ensures n <= 3 ==> v % (BASE * BASE) * Pow2(8 * (3 - n)) % (BASE * BASE) % BASE == Scaled(v, n)
    ensures n > 3 ==> v / Pow2(8 * (n - 3)) % (BASE * BASE) % BASE == Scaled(v, n)
  {
    hide Pow2, ByteSize, Scaled;
    Bytes();
    if n <= 3 {
      Pow2Mono(8 * n, 24);
      SmallCasts(v);
    }
    SmallCasts(Scaled(v, n));
    ScaledIs(v, n);
  }

  lemma ScaledIs(v: nat, n: nat)
    ensures Scaled(v, n) == if n <= 3 then v * Pow2(8 * (3 - n)) else v / Pow2(8 * (n - 3))
  {
  }

  lemma SmallCasts(x: nat)
    requires x < 0x100_0000
    ensures x % (BASE * BASE) == x && x % BASE == x
  {
  }

  lemma PackOr(m: nat, size: nat)
    requires m < SIGN && size < 256
    ensures Or(m, size * 0x100_0000) == Pack(m, size, false) < BASE
    ensures Pack(m, size, false) % SIGN == m
    ensures Or(Pack(m, size, false), SIGN) == Pack(m, size, false) + SIGN < BASE
  {
    Bytes();
    hide Pow2, Or;
    OrDisjoint(m, size * 0x100_0000, 24);
    SignFree(m, size);
  }

  lemma SignFree(m: nat, size: nat)
    requires m < SIGN && size < 256
    ensures Or(size * 0x100_0000 + m, SIGN) == size * 0x100_0000 + m + SIGN
  {
    Bytes();
    hide Pow2, Or;
    SignPower();
    OrDisjoint(m, SIGN, 23);
    OrDisjoint(m, size * 0x100_0000 + SIGN, 23);
    OrDisjoint(m + SIGN, size * 0x100_0000, 24);
    OrDisjoint(m, size * 0x100_0000, 24);
    OrAssociative(size * 0x100_0000, m, SIGN);
  }

  lemma SignPower()
    ensures Pow2(23) == SIGN
  {
    Bytes();
    assert Pow2(24) == 2 * Pow2(23);
  }

  lemma {:induction false} OrAssociative(a: nat, b: nat, c: nat)
    ensures Or(Or(a, b), c) == Or(a, Or(b, c))
    decreases a + b + c
  {
    if a > 0 && b > 0 && c > 0 {
      OrAssociative(a / 2, b / 2, c / 2);
      OrHalves(a, b);
      OrHalves(b, c);
    }
  }

  lemma OrHalves(a: nat, b: nat)
    requires a > 0 && b > 0
    ensures Or(a, b) / 2 == Or(a / 2, b / 2) && Or(a, b) > 0
    ensures Or(a, b) % 2 == (if a % 2 == 1 || b % 2 == 1 then 1 else 0)
  {
    OrPositive(a, b);
  }

  lemma {:induction false} OrPositive(a: nat, b: nat)
    requires a > 0 || b > 0
    ensures Or(a, b) > 0
  {
    if a > 1 || b > 1 {
      if a > 0 && b > 0 {
        OrPositive(a / 2, b / 2);
      }
    }
  }

  /**
   The work of a block: the expected number of hashes to meet its target, two to the 256 divided
   by the target plus one, rounded down; zero for a target that is zero, negative or too large.
   */
  method GetBitsProof(bits: Word) returns (proof: BaseUint)
    ensures proof.Valid() && proof.pn.Length == 8
    ensures var target := CompactValue(bits);
            proof.Value() == if target == 0 || target >= Pow2(256) || SignBit(bits) then 0
                             else Pow2(256) / (target + 1)
  {
    hide Val, Weight, Pow2, CompactValue, SignBit;
    WeightPow2(8);
    var bnTarget := new BaseUint.Zero(8);
    var negative, overflow := SetCompact(bnTarget, bits);
    var zero := bnTarget.EqualTo(0);
    ghost var t := CompactValue(bits);
    TargetRoom(bits);
    if negative || overflow || zero {
      proof := new BaseUint.Zero(8);
      return;
    }
    proof := bnTarget.Not();
    bnTarget.AddWord(1);
    var status := proof.Div(bnTarget);
    ProofIs(t, Pow2(256));
    proof.AddWord(1);
  }

  /** A target that fits leaves room for the one that is added to it. */
  lemma TargetRoom(c: Word)
    ensures CompactValue(c) < Pow2(256) ==>
              CompactValue(c) % Pow2(256) == CompactValue(c) && CompactValue(c) + 1 < Pow2(256) &&
              (CompactValue(c) + 1) % Pow2(256) == CompactValue(c) + 1
  {
    hide Pow2, Shr, Size, Mantissa;
    Bytes();
    var v, m, size := CompactValue(c), Mantissa(c), Size(c);
    if v < Pow2(256) {
      if size <= 3 {
        Pow2Mono(24, 256);
        MantissaBelow(c);
      } else {
        Pow2Add(8, 8 * (size - 4));
        Pow2Add(8, 248);
        ByteMultiple(m, Pow2(8 * (size - 4)), Pow2(248));
      }
      DivModUnique(v, Pow2(256), 0, v);
      DivModUnique(v + 1, Pow2(256), 0, v + 1);
    }
  }

  lemma MantissaBelow(c: Word)
    ensures Mantissa(c) < SIGN
  {
  }

  lemma ByteMultiple(m: nat, p: nat, q: nat)
    requires m * (256 * p) < 256 * q
    ensures m * (256 * p) + 1 < 256 * q
  {
    assert m * (256 * p) == 256 * (m * p);
  }

  /** Two to the 256 cannot be written in 256 bits; this quotient can. */
  lemma ProofIs(t: nat, m: nat)
    requires 0 < t && t + 1 < m
    ensures (m - 1 - t) / (t + 1) + 1 == m / (t + 1) && m / (t + 1) % m == m / (t + 1)
  {
    var d, n := t + 1, m - 1 - t;
    var q := n / d;
    assert n == q * d + n % d;
    Distribute2(q, 1, d);
    DivModUnique(m, d, q + 1, n % d);
    MulMono(2, d, q + 1);
    DivModUnique(q + 1, m, 0, q + 1);
  }
}
