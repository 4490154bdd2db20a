/**
 The compact form of a 256-bit target: one byte of size, a sign bit, and a 23-bit mantissa,
 standing for the mantissa times a power of 256.
 */
module Compact {
  import opened WordMath
  import opened ArithUint

  const SIGN: int := 0x80_0000

  function Size(c: Word): nat {
    c / 0x100_0000
  }

  function Mantissa(c: Word): nat {
    c % SIGN
  }

  predicate SignBit(c: Word) {
    c / SIGN % 2 == 1
  }

  /** The number a compact word stands for, rounded down. */
  function CompactValue(c: Word): nat {
    ValueOf(Mantissa(c), Size(c))
  }

  function ValueOf(mantissa: nat, size: nat): nat {
    if size <= 3 then Shr(mantissa, 8 * (3 - size)) else mantissa * Pow2(8 * (size - 3))
  }

  /** How many bytes a number needs. */
  function ByteSize(v: nat): (n: nat)
    ensures v < Pow2(8 * n)
    ensures v > 0 ==> n > 0 && Pow2(8 * (n - 1)) <= v
  {
    if v == 0 then 0
    else
      var n := ByteSize(v / 256);
      ByteUp(v, n);
      n + 1
  }

  lemma ByteUp(v: nat, n: nat)
    requires v > 0 && v / 256 < Pow2(8 * n) && (v / 256 > 0 ==> n > 0 && Pow2(8 * (n - 1)) <= v / 256)
    requires v / 256 == 0 ==> n == 0
    ensures Pow2(8 * n) <= v < Pow2(8 * (n + 1))
  {
    assert Pow2(8) == 256;
    Pow2Add(8 * n, 8);
    if n > 0 {
      Pow2Add(8 * (n - 1), 8);
    }
  }

  lemma ByteSizeIs(v: nat, n: nat)
    requires n > 0 && Pow2(8 * (n - 1)) <= v < Pow2(8 * n)
    ensures ByteSize(v) == n
  {
    hide ByteSize, Pow2;
    if ByteSize(v) < n {
      Pow2Mono(8 * ByteSize(v), 8 * (n - 1));
    } else if ByteSize(v) > n {
      Pow2Mono(8 * n, 8 * (ByteSize(v) - 1));
    }
  }

  /** The top three of `size` bytes. */
  function Scaled(v: nat, size: nat): nat {
    if size <= 3 then v * Pow2(8 * (3 - size)) else Shr(v, 8 * (size - 3))
  }

  /** The size is one more than needed where the top bit would be taken for the sign. */
  function FinalSize(v: nat): nat {
    ByteSize(v) + (if Scaled(v, ByteSize(v)) >= SIGN then 1 else 0)
  }

  function Pack(mantissa: nat, size: nat, negative: bool): nat {
    size * 0x100_0000 + mantissa + (if negative && mantissa != 0 then SIGN else 0)
  }

  /** The compact word for a number. */
  function CompactOf(v: nat, negative: bool): nat {
    Pack(Scaled(v, FinalSize(v)), FinalSize(v), negative)
  }

  lemma Unpack(m: nat, size: nat, negative: bool)
    requires m < SIGN && size < 256
    ensures 0 <= Pack(m, size, negative) < BASE
    ensures Size(Pack(m, size, negative)) == size && Mantissa(Pack(m, size, negative)) == m
    ensures SignBit(Pack(m, size, negative)) <==> negative && m != 0
  {
  }

  // ---------------------------------------------------------------- scaling

  lemma Bytes()
    ensures Pow2(8) == 0x100 && Pow2(16) == 0x1_0000 && Pow2(24) == 0x100_0000
  {
    assert Pow2(8) == 256;
    Pow2Add(8, 8);
    Pow2Add(8, 16);
  }

  /** A scaled number has at least `n` bytes exactly when the number has that many relative to its size. */
  lemma ScaledReaches(v: nat, size: nat, n: nat)
    requires n <= 3 && size + n >= 3
    ensures Scaled(v, size) >= Pow2(8 * n) <==> v >= Pow2(8 * (size + n - 3))
  {
    hide Pow2, Shr;
    if size <= 3 {
      Pow2Add(8 * (size + n - 3), 8 * (3 - size));
      Cancel(v, Pow2(8 * (size + n - 3)), Pow2(8 * (3 - size)));
    } else {
      Pow2Add(8 * n, 8 * (size - 3));
      ShiftRight(v, 8 * (size - 3));
      QuotientReaches(v, Pow2(8 * (size - 3)), Shr(v, 8 * (size - 3)), Mask(v, 8 * (size - 3)), Pow2(8 * n));
    }
  }

  lemma Cancel(a: nat, b: nat, c: nat)
    requires c > 0
    ensures a * c >= b * c <==> a >= b
  {
    if a < b {
      MulMono(a + 1, b, c);
    } else {
      MulMono(b, a, c);
    }
  }

  lemma QuotientReaches(v: nat, p: nat, q: nat, r: nat, b: nat)
    requires v == q * p + r && r < p
    ensures q >= b <==> v >= b * p
  {
    if q < b {
      MulMono(q + 1, b, p);
    } else {
      MulMono(b, q, p);
    }
  }

  /** One size up drops the lowest of the three bytes. */
  lemma ScaledUp(v: nat, size: nat)
    ensures Scaled(v, size + 1) == Scaled(v, size) / 256
  {
    Bytes();
    hide Pow2;
    if size < 3 {
      Pow2Add(8 * (2 - size), 8);
      DropByte(v, Pow2(8 * (2 - size)));
    } else if size == 3 {
      assert Pow2(0) == 1 by { OneBit(); }
    } else {
      Pow2Add(8 * (size - 3), 8);
      NestedShift(v, Pow2(8 * (size - 3)));
    }
  }

  lemma DropByte(v: nat, p: nat)
    ensures v * (p * 256) / 256 == v * p
  {
    assert v * (p * 256) == v * p * 256;
  }

  lemma NestedShift(v: nat, p: nat)
    requires p > 0
    ensures v / (p * 256) == v / p / 256
  {
    var q, r := v / p, v % p;
    var q', r' := q / 256, q % 256;
    assert v == q' * (p * 256) + (r' * p + r) by {
      assert q * p == (q' * 256 + r') * p;
      Distribute2(q' * 256, r', p);
      assert q' * 256 * p == q' * (p * 256);
    }
    MulMono(r', 255, p);
    MulSign(r', p);
    DivModUnique(v, p * 256, q', r' * p + r);
  }

  lemma MulSign(a: nat, b: nat)
    ensures a * b >= 0
  {
  }

  // ---------------------------------------------------------------- the encoding

  /** A nonzero number keeps at least 16 significant bits, and never touches the sign bit. */
  lemma FinalMantissa(v: nat)
    ensures v == 0 ==> FinalSize(v) == 0 && Scaled(v, FinalSize(v)) == 0
    ensures v > 0 ==> FinalSize(v) >= 1 && 0x8000 <= Scaled(v, FinalSize(v)) < SIGN
    ensures Scaled(v, FinalSize(v)) == (if Scaled(v, ByteSize(v)) >= SIGN then Scaled(v, ByteSize(v)) / 256
                                        else Scaled(v, ByteSize(v)))
    ensures Scaled(v, ByteSize(v)) < 0x100_0000
  {
    hide Scaled, Pow2;
    var n := ByteSize(v);
    Bytes();
    ScaledUp(v, n);
    ScaledReaches(v, n, 3);
    if v == 0 {
      ScaledZero();
    } else {
      ScaledReaches(v, n, 2);
    }
  }

  lemma ScaledZero()
    ensures Scaled(0, 0) == 0
  {
  }

  /** A 256-bit number needs at most 33 in the size byte. */
  lemma FinalSizeFits(v: nat)
    requires v < Pow2(256)
    ensures FinalSize(v) <= 33
  {
    hide Scaled, Pow2;
    if v > 0 && ByteSize(v) > 32 {
      Pow2Mono(256, 8 * (ByteSize(v) - 1));
    }
  }

  /** Decoding what was scaled to `size` gives back the number with its low bytes cleared. */
  lemma Truncates(v: nat, size: nat)
    ensures size <= 3 ==> ValueOf(Scaled(v, size), size) == v
    ensures size > 3 ==> ValueOf(Scaled(v, size), size) == v - Mask(v, 8 * (size - 3))
  {
    hide Pow2;
    if size <= 3 {
      var p := Pow2(8 * (3 - size));
      DivModUnique(v * p, p, v, 0);
    } else {
      ShiftRight(v, 8 * (size - 3));
    }
  }

  /**
   The round trip: for every 256-bit number the compact word is a 32-bit word that decodes, with
   no overflow, to the number with its low-order bytes cleared (none if the size is at most three),
   and to a negative number exactly when the sign was asked for and the number is not zero.
   */
  lemma RoundTrip(v: nat, negative: bool)
    requires v < Pow2(256)
    ensures CompactOf(v, negative) < BASE
    ensures var c := CompactOf(v, negative);
            && Size(c) == FinalSize(v)
            && CompactValue(c) == (if Size(c) <= 3 then v else v - Mask(v, 8 * (Size(c) - 3)))
            && (SignBit(c) <==> negative && v != 0)
            && (Size(c) > 3 ==> CompactValue(c) >= 0x8000 * Pow2(8 * (Size(c) - 3)))
  {
    hide Scaled, FinalSize, Pack, Mask, Size, Mantissa, SignBit, ValueOf;
    FinalMantissa(v);
    FinalSizeFits(v);
    Unpack(Scaled(v, FinalSize(v)), FinalSize(v), negative);
    Truncates(v, FinalSize(v));
    if FinalSize(v) > 3 {
      Precise(Scaled(v, FinalSize(v)), FinalSize(v));
    }
  }

  lemma Precise(m: nat, size: nat)
    requires m >= 0x8000 && size > 3
    ensures ValueOf(m, size) >= 0x8000 * Pow2(8 * (size - 3))
  {
    MulMono(0x8000, m, Pow2(8 * (size - 3)));
  }

  /** The words the encoder produces: a mantissa that uses its top 8 bits, and no bits below the unit. */
  predicate Canonical(c: Word) {
    if Size(c) == 0 then c == 0
    else 0x8000 <= Mantissa(c) && (Size(c) < 3 ==> Mask(Mantissa(c), 8 * (3 - Size(c))) == 0)
  }

  /** A word survives decoding and re-encoding exactly when it is canonical. */
  lemma CanonicalIff(c: Word)
    ensures CompactOf(CompactValue(c), SignBit(c)) == c <==> Canonical(c)
  {
    if Canonical(c) {
      CanonicalKept(c);
    }
    var v := CompactValue(c);
    if CompactOf(v, SignBit(c)) == c {
      EncoderCanonical(v, SignBit(c));
    }
  }

  /** Encoding always gives a canonical word, so encoding a decoded encoding changes nothing. */
  lemma EncoderCanonical(v: nat, negative: bool)
    requires CompactOf(v, negative) < BASE
    ensures Canonical(CompactOf(v, negative))
  {
    hide Scaled, FinalSize, Pow2, Mask, Size, Mantissa, SignBit;
    var m, size := Scaled(v, FinalSize(v)), FinalSize(v);
    FinalMantissa(v);
    assert size < 256;
    Unpack(m, size, negative);
    if size < 3 {
      ScaledMultiple(v, size);
    }
  }

  lemma ScaledMultiple(v: nat, size: nat)
    requires size < 3
    ensures Mask(Scaled(v, size), 8 * (3 - size)) == 0
  {
    hide Pow2;
    DivModUnique(v * Pow2(8 * (3 - size)), Pow2(8 * (3 - size)), v, 0);
  }

  lemma CanonicalKept(c: Word)
    requires Canonical(c)
    ensures CompactOf(CompactValue(c), SignBit(c)) == c
  {
    hide Scaled, ValueOf, FinalSize, Pow2, Mask;
    var m, size, v := Mantissa(c), Size(c), CompactValue(c);
    if size == 0 {
      ZeroValue();
      FinalMantissa(0);
    } else {
      Restored(m, size);
      FinalSizeIs(v, m, size);
      Repack(c);
    }
  }

  lemma ZeroValue()
    ensures ValueOf(0, 0) == 0
  {
    DivModUnique(0, Pow2(24), 0, 0);
  }

  lemma Repack(c: Word)
    requires Mantissa(c) != 0
    ensures Pack(Mantissa(c), Size(c), SignBit(c)) == c
  {
  }

  lemma Restored(m: nat, size: nat)
    requires size < 3 ==> Mask(m, 8 * (3 - size)) == 0
    ensures Scaled(ValueOf(m, size), size) == m
  {
    hide Pow2;
    if size > 3 {
      DivModUnique(m * Pow2(8 * (size - 3)), Pow2(8 * (size - 3)), m, 0);
    } else if size == 3 {
      OneBit();
    } else {
      ShiftRight(m, 8 * (3 - size));
    }
  }

  lemma FinalSizeIs(v: nat, m: nat, size: nat)
    requires size >= 1 && Scaled(v, size) == m && 0x8000 <= m < SIGN
    ensures FinalSize(v) == size
  {
    hide Scaled, Pow2, ByteSize;
    Bytes();
    ScaledReaches(v, size, 3);
    ScaledReaches(v, size, 2);
    if m >= 0x1_0000 {
      ByteSizeIs(v, size);
    } else {
      ScaledUp(v, size - 1);
      if size == 1 {
        ScaledOne(v);
      } else {
        ScaledReaches(v, size - 1, 2);
        ByteSizeIs(v, size - 1);
      }
    }
  }

  lemma ScaledOne(v: nat)
    ensures Scaled(v, 1) == v * 0x1_0000
  {
    Bytes();
  }
}
