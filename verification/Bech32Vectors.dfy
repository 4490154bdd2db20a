/**
 What the standards fix about Bech32 and Bech32m: which constant belongs to which encoding, the
 character set, and the order in which the readable part is expanded.  Three texts of BIP 173 and
 BIP 350 determine them, and upper case changes nothing.
 */
module Bech32Vectors {
  import opened Wrappers
  import opened Bech32Code
  import opened Bech32
  import opened Bech32Errors
  import opened Bech32Text

  // ---------------------------------------------------------------- case

  lemma RevOfLower(c: char)
    ensures CharsetRev(LowerCase(c)) == CharsetRev(c) && (c == SEPARATOR <==> LowerCase(c) == SEPARATOR)
  {
    hide CharsetLower;
  }

  /** Texts that differ only in case, each in one case, decode to the same. */
  lemma CaseFree(s: string, t: string, limit: nat)
    requires LowerText(s) == LowerText(t) && OneCase(s) && OneCase(t) && Printable(s) && Printable(t)
    ensures Decoded(s, limit) == Decoded(t, limit)
  {
    hide CharsetLower, LowerCase, RFind, Verified, Charset, CharsetRev, OneCase, Printable;
    assert |s| == |t|;
    SamePlaces(s, t);
    var pos := RFind(s);
    if pos >= 0 {
      assert LowerText(s[..pos]) == LowerText(s)[..pos] == LowerText(t[..pos]);
      SameSymbols(s[pos + 1..], t[pos + 1..]) by {
        assert LowerText(s[pos + 1..]) == LowerText(s)[pos + 1..] == LowerText(t[pos + 1..]);
      }
    }
  }

  lemma SamePlaces(s: string, t: string)
    requires LowerText(s) == LowerText(t)
    ensures RFind(s) == RFind(t)
  {
    hide CharsetLower, LowerCase, RFind;
    assert |s| == |t|;
    forall i | 0 <= i < |s| ensures s[i] == SEPARATOR <==> t[i] == SEPARATOR {
      RevOfLower(s[i]);
      RevOfLower(t[i]);
      assert LowerText(s)[i] == LowerText(t)[i];
    }
    if RFind(t) >= 0 {
      RFindIs(s, RFind(t));
    }
  }

  lemma SameSymbols(s: string, t: string)
    requires LowerText(s) == LowerText(t)
    ensures AllSymbols(s) <==> AllSymbols(t)
    ensures AllSymbols(s) ==> SymbolsOf(s) == SymbolsOf(t)
  {
    hide CharsetLower, LowerCase, CharsetRev;
    assert |s| == |t|;
    forall i | 0 <= i < |s| ensures CharsetRev(s[i]) == CharsetRev(t[i]) {
      RevOfLower(s[i]);
      RevOfLower(t[i]);
      assert LowerText(s)[i] == LowerText(t)[i];
    }
  }

  // ---------------------------------------------------------------- remainders of given symbols

  /** The packed remainder after one more symbol. */
  function Fed(c: bv32, v: Symbol): bv32 {
    Step(c, Byte(v))
  }

  function Fed6(c: bv32, u: Symbol, v: Symbol, w: Symbol, x: Symbol, y: Symbol, z: Symbol): bv32 {
    Fed(Fed(Fed(Fed(Fed(Fed(c, u), v), w), x), y), z)
  }

  /** The packed remainder after the first `n` symbols of `s`, starting from `p`. */
  ghost predicate Reaches(p: Poly, s: seq<Symbol>, n: nat, c: bv32) {
    n <= |s| && Pack(Remainder(p, s[..n])) == c
  }

  lemma Grow(p: Poly, s: seq<Symbol>, n: nat, c: bv32)
    requires Reaches(p, s, n, c) && n < |s|
    ensures Reaches(p, s, n + 1, Fed(c, s[n]))
  {
    hide Next, NextByte, Pack, Step, Byte, Remainder;
    assert s[..n + 1] == s[..n] + [s[n]];
    var q := Remainder(p, s[..n]);
    RemainderNext(p, s[..n], s[n]);
    PackedStep(q, Byte(s[n]));
    SymbolNext(q, s[n]);
  }

  lemma Grow6(p: Poly, s: seq<Symbol>, n: nat, c: bv32)
    requires Reaches(p, s, n, c) && n + 6 <= |s|
    ensures Reaches(p, s, n + 6, Fed6(c, s[n], s[n + 1], s[n + 2], s[n + 3], s[n + 4], s[n + 5]))
  {
    hide Reaches, Fed;
    var c1 := Fed(c, s[n]);
    var c2 := Fed(c1, s[n + 1]);
    var c3 := Fed(c2, s[n + 2]);
    var c4 := Fed(c3, s[n + 3]);
    var c5 := Fed(c4, s[n + 4]);
    Grow(p, s, n, c);
    Grow(p, s, n + 1, c1);
    Grow(p, s, n + 2, c2);
    Grow(p, s, n + 3, c3);
    Grow(p, s, n + 4, c4);
    Grow(p, s, n + 5, c5);
  }

  lemma Begin(p: Poly, s: seq<Symbol>, c: bv32)
    requires Pack(p) == c
    ensures Reaches(p, s, 0, c)
  {
    hide Pack;
  }

  lemma Finish(p: Poly, s: seq<Symbol>, q: Poly)
    requires Reaches(p, s, |s|, Pack(q))
    ensures Remainder(p, s) == q
  {
    hide Pack, Remainder;
    assert s[..|s|] == s;
    PackInjective(Remainder(p, s), q);
  }

  /** What verification makes of a text whose symbols bring the packed remainder to a constant. */
  lemma Verdict(hrp: string, v: seq<Symbol>, encoding: Encoding)
    requires encoding != INVALID && Reaches(Start(hrp), v, |v|, EncodingConstant(encoding))
    ensures Verified(hrp, v) == encoding
  {
    hide Pack, Remainder, Start, EncodingPoly, EncodingConstant, Reaches;
    ConstantIsPoly(encoding);
    Finish(Start(hrp), v, EncodingPoly(encoding));
    DifferentPolys();
  }

  lemma DifferentPolys()
    ensures EncodingPoly(BECH32) != EncodingPoly(BECH32M)
  {
  }

  // ---------------------------------------------------------------- the readable parts

  lemma StartA()
    ensures Pack(Start("a")) == 0x0000_8c01
  {
    hide Pack, Remainder, RemainderBytes, Reaches, Fed;
    PrintableStart("a");
    var s: seq<Symbol> := [3, 0, 1];
    assert Symbols("a") == s;
    PackedOne();
    Begin(ONE, s, 1);
    Grow(ONE, s, 0, 1);
    Grow(ONE, s, 1, Fed(1, 3));
    Grow(ONE, s, 2, Fed(Fed(1, 3), 0));
    FedA();
    Reached(ONE, s, 0x0000_8c01);
  }

  lemma FedA()
    ensures Fed(Fed(Fed(1, 3), 0), 1) == 0x0000_8c01
  {
  }

  lemma Reached(p: Poly, s: seq<Symbol>, c: bv32)
    requires Reaches(p, s, |s|, c)
    ensures Pack(Remainder(p, s)) == c
  {
    hide Pack, Remainder;
    assert s[..|s|] == s;
  }

  lemma StartAbcdef()
    ensures Pack(Start("abcdef")) == 0x3be8_0e6a
  {
    hide Pack, Remainder, RemainderBytes, Reaches, Fed, Fed6;
    PrintableStart("abcdef");
    var s: seq<Symbol> := [3, 3, 3, 3, 3, 3, 0, 1, 2, 3, 4, 5, 6];
    SymbolsAbcdef();
    PackedOne();
    Begin(ONE, s, 1);
    FedAbcdef();
    Grow6(ONE, s, 0, 1);
    Grow(ONE, s, 6, 0x3d5b_dbd1);
    Grow6(ONE, s, 7, 0x04dc_bcd9);
    Reached(ONE, s, 0x3be8_0e6a);
  }

  lemma SymbolsAbcdef()
    ensures Symbols("abcdef") == [3, 3, 3, 3, 3, 3, 0, 1, 2, 3, 4, 5, 6]
  {
    assert Highs("abcdef") == [3, 3, 3, 3, 3, 3];
    assert Lows("abcdef") == [1, 2, 3, 4, 5, 6];
  }

  lemma FedAbcdef()
    ensures Fed6(1, 3, 3, 3, 3, 3, 3) == 0x3d5b_dbd1
    ensures Fed(0x3d5b_dbd1, 0) == 0x04dc_bcd9
    ensures Fed6(0x04dc_bcd9, 1, 2, 3, 4, 5, 6) == 0x3be8_0e6a
  {
  }

  // ---------------------------------------------------------------- the texts

  const SUM_A: seq<Symbol> := [10, 28, 25, 31, 20, 31]
  const SUM_A_M: seq<Symbol> := [31, 0, 9, 19, 17, 29]
  /** All symbols in order, and the checksum for "abcdef". */
  const ALL: seq<Symbol> := INORDER + [27, 0, 0, 0, 6, 14]
  const INORDER: seq<Symbol> :=
    [0, 1, 2, 3, 4, 5, 6, 7] + [8, 9, 10, 11, 12, 13, 14, 15]
    + [16, 17, 18, 19, 20, 21, 22, 23] + [24, 25, 26, 27, 28, 29, 30, 31]

  lemma SumsA()
    ensures Fed6(0x0000_8c01, 10, 28, 25, 31, 20, 31) == 1
    ensures Fed6(0x0000_8c01, 31, 0, 9, 19, 17, 29) == 0x2bc8_30a3
  {
  }

  lemma SumFirst()
    ensures Fed6(0x3be8_0e6a, 0, 1, 2, 3, 4, 5) == 0x2fd9_8d2c
    ensures Fed6(0x2fd9_8d2c, 6, 7, 8, 9, 10, 11) == 0x2f8c_cedd
    ensures Fed6(0x2f8c_cedd, 12, 13, 14, 15, 16, 17) == 0x0e08_010d
  {
  }

  lemma SumSecond()
    ensures Fed6(0x0e08_010d, 18, 19, 20, 21, 22, 23) == 0x297c_48e0
    ensures Fed6(0x297c_48e0, 24, 25, 26, 27, 28, 29) == 0x2e07_d307
  {
  }

  lemma SumLast()
    ensures Fed6(0x2e07_d307, 30, 31, 27, 0, 0, 0) == 0x0e8d_5418
    ensures Fed(Fed(0x0e8d_5418, 6), 14) == 1
  {
  }

  lemma VerifiesA()
    ensures Verified("a", SUM_A) == BECH32 && Verified("a", SUM_A_M) == BECH32M
  {
    hide Pack, Start, Reaches, Fed6, Verified;
    StartA();
    SumsA();
    var p := Start("a");
    Begin(p, SUM_A, 0x0000_8c01);
    Grow6(p, SUM_A, 0, 0x0000_8c01);
    Verdict("a", SUM_A, BECH32);
    Begin(p, SUM_A_M, 0x0000_8c01);
    Grow6(p, SUM_A_M, 0, 0x0000_8c01);
    Verdict("a", SUM_A_M, BECH32M);
  }

  lemma FirstHalf(p: Poly)
    requires Pack(p) == 0x3be8_0e6a
    ensures Reaches(p, ALL, 18, 0x0e08_010d)
  {
    hide Pack, Reaches, Fed, Fed6;
    SumFirst();
    Begin(p, ALL, 0x3be8_0e6a);
    Grow6(p, ALL, 0, 0x3be8_0e6a);
    Grow6(p, ALL, 6, 0x2fd9_8d2c);
    Grow6(p, ALL, 12, 0x2f8c_cedd);
  }

  lemma SecondHalf(p: Poly)
    requires Reaches(p, ALL, 18, 0x0e08_010d)
    ensures Reaches(p, ALL, 38, 1)
  {
    hide Pack, Reaches, Fed, Fed6;
    SumSecond();
    SumLast();
    Grow6(p, ALL, 18, 0x0e08_010d);
    Grow6(p, ALL, 24, 0x297c_48e0);
    Grow6(p, ALL, 30, 0x2e07_d307);
    Grow(p, ALL, 36, 0x0e8d_5418);
    Grow(p, ALL, 37, Fed(0x0e8d_5418, 6));
  }

  lemma VerifiesAll()
    ensures Verified("abcdef", ALL) == BECH32
  {
    hide Pack, Start, Reaches, Verified;
    StartAbcdef();
    FirstHalf(Start("abcdef"));
    SecondHalf(Start("abcdef"));
    Verdict("abcdef", ALL, BECH32);
  }

  lemma CharsA()
    ensures Chars(SUM_A) == "2uel5l" && Chars(SUM_A_M) == "lqfn3a"
  {
  }

  const CHARS_IN_ORDER := "qpzry9x8" + "gf2tvdw0" + "s3jn54kh" + "ce6mua7l"

  lemma CharsPieces()
    ensures Chars([0, 1, 2, 3, 4, 5, 6, 7]) == "qpzry9x8"
    ensures Chars([8, 9, 10, 11, 12, 13, 14, 15]) == "gf2tvdw0"
    ensures Chars([16, 17, 18, 19, 20, 21, 22, 23]) == "s3jn54kh"
    ensures Chars([24, 25, 26, 27, 28, 29, 30, 31]) == "ce6mua7l"
    ensures Chars([27, 0, 0, 0, 6, 14]) == "mqqqxw"
  {
  }

  lemma CharsJoin(u: seq<Symbol>, v: seq<Symbol>)
    ensures Chars(u + v) == Chars(u) + Chars(v)
  {
    hide Charset;
  }

  lemma CharsAll()
    ensures Chars(ALL) == CHARS_IN_ORDER + "mqqqxw"
  {
    hide Chars;
    CharsPieces();
    var a: seq<Symbol> := [0, 1, 2, 3, 4, 5, 6, 7];
    var b: seq<Symbol> := [8, 9, 10, 11, 12, 13, 14, 15];
    var c: seq<Symbol> := [16, 17, 18, 19, 20, 21, 22, 23];
    var d: seq<Symbol> := [24, 25, 26, 27, 28, 29, 30, 31];
    CharsJoin(a, b);
    CharsJoin(a + b, c);
    CharsJoin(a + b + c, d);
    CharsJoin(INORDER, [27, 0, 0, 0, 6, 14]);
  }

  /** A text made of a readable part and symbols that verify. */
  lemma DecodesTo(encoding: Encoding, hrp: string, values: seq<Symbol>, sum: seq<Symbol>, limit: nat)
    requires encoding != INVALID && |sum| == 6 && Verified(hrp, values + sum) == encoding
    requires hrp != "" && Printable(hrp) && NoUpper(hrp) && |hrp| + 7 + |values| <= limit
    ensures Encoded(encoding, hrp, values) == hrp + [SEPARATOR] + Chars(values + sum)
    ensures Decoded(hrp + [SEPARATOR] + Chars(values + sum), limit) == DecodeResult(encoding, hrp, values)
  {
    hide Verified, Checksum, Charset, CharsetLower, Decoded;
    ChecksumUnique(encoding, hrp, values, sum);
    DecodeEncoded(encoding, hrp, values, limit);
  }

  /** BIP 173: a text in upper case, and what the encoder gives for its content. */
  lemma ShortBech32()
    ensures Encoded(BECH32, "a", []) == "a12uel5l"
    ensures Decoded("A12UEL5L", 90) == DecodeResult(BECH32, "a", [])
  {
    hide Verified, Chars, Decoded, Encoded;
    VerifiesA();
    CharsA();
    assert [] + SUM_A == SUM_A;
    DecodesTo(BECH32, "a", [], SUM_A, 90);
    assert "a" + [SEPARATOR] + "2uel5l" == "a12uel5l";
    UpperA();
    CaseFree("A12UEL5L", "a12uel5l", 90);
  }

  /** BIP 350: the same under the other encoding. */
  lemma ShortBech32m()
    ensures Encoded(BECH32M, "a", []) == "a1lqfn3a"
    ensures Decoded("A1LQFN3A", 90) == DecodeResult(BECH32M, "a", [])
  {
    hide Verified, Chars, Decoded, Encoded;
    VerifiesA();
    CharsA();
    assert [] + SUM_A_M == SUM_A_M;
    DecodesTo(BECH32M, "a", [], SUM_A_M, 90);
    assert "a" + [SEPARATOR] + "lqfn3a" == "a1lqfn3a";
    UpperAM();
    CaseFree("A1LQFN3A", "a1lqfn3a", 90);
  }

  lemma UpperA()
    ensures LowerText("A12UEL5L") == LowerText("a12uel5l")
    ensures OneCase("A12UEL5L") && OneCase("a12uel5l") && Printable("A12UEL5L") && Printable("a12uel5l")
  {
  }

  lemma UpperAM()
    ensures LowerText("A1LQFN3A") == LowerText("a1lqfn3a")
    ensures OneCase("A1LQFN3A") && OneCase("a1lqfn3a") && Printable("A1LQFN3A") && Printable("a1lqfn3a")
  {
  }

  /** BIP 173: all symbols in order. */
  lemma AllSymbolsBech32()
    ensures var text := "abcdef" + "1" + CHARS_IN_ORDER + "mqqqxw";
            Decoded(text, 90) == DecodeResult(BECH32, "abcdef", INORDER) && Encoded(BECH32, "abcdef", INORDER) == text
  {
    hide Verified, Chars, Decoded, Encoded;
    VerifiesAll();
    CharsAll();
    DecodesTo(BECH32, "abcdef", INORDER, [27, 0, 0, 0, 6, 14], 90);
    Associates("abcdef" + "1", CHARS_IN_ORDER, "mqqqxw");
  }

  lemma Associates(a: string, b: string, c: string)
    ensures a + b + c == a + (b + c)
  {
  }
}
