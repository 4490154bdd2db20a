/** Encoding and decoding Bech32 text, the two round trips, and what the checksum catches. */
module Bech32Text {
  import opened Wrappers
  import opened Bech32Code
  import opened Bech32
  import opened Bech32Distance
  import opened Bech32Errors

  // ---------------------------------------------------------------- characters

  predicate IsLower(c: char) { 'a' <= c <= 'z' }

  predicate IsUpper(c: char) { 'A' <= c <= 'Z' }

  predicate InRange(c: char) { 33 <= c as int <= 126 }

  ghost predicate Printable(s: string) {
    forall i :: 0 <= i < |s| ==> InRange(s[i])
  }

  ghost predicate OneCase(s: string) {
    (forall i :: 0 <= i < |s| ==> !IsLower(s[i])) || (forall i :: 0 <= i < |s| ==> !IsUpper(s[i]))
  }

  datatype Case = NoLetter | Lower | Upper

  /** The case of the first letter among the first `i` characters. */
  function FirstCase(s: string, i: nat): Case
    requires i <= |s|
  {
    if i == 0 then NoLetter
    else if FirstCase(s, i - 1) != NoLetter then FirstCase(s, i - 1)
    else if IsLower(s[i - 1]) then Lower
    else if IsUpper(s[i - 1]) then Upper
    else NoLetter
  }

  /** Position `i` is wrong: not printable, or a letter of the other case than the first letter. */
  predicate Wrong(s: string, i: int) {
    0 <= i < |s| &&
    (!InRange(s[i]) || (IsLower(s[i]) && FirstCase(s, i) == Upper) || (IsUpper(s[i]) && FirstCase(s, i) == Lower))
  }

  /** Lists exactly the wrong positions, in order; there are none if and only if the text is acceptable. */
  method CheckCharacters(str: string) returns (ok: bool, errors: seq<int>)
    ensures ok <==> Printable(str) && OneCase(str)
    ensures ok <==> errors == []
    ensures forall i :: i in errors <==> Wrong(str, i)
    ensures forall a, b :: 0 <= a < b < |errors| ==> errors[a] < errors[b]
  {
    var lower, upper := false, false;
    errors := [];
    for i := 0 to |str|
      invariant lower <==> FirstCase(str, i) == Lower
      invariant upper <==> FirstCase(str, i) == Upper
      invariant forall k :: k in errors <==> k < i && Wrong(str, k)
      invariant forall a, b :: 0 <= a < b < |errors| ==> errors[a] < errors[b]
    {
      var c := str[i];
      assert forall a :: 0 <= a < |errors| ==> errors[a] in errors;
      if IsLower(c) {
        if upper {
          errors := errors + [i];
        } else {
          lower := true;
        }
      } else if IsUpper(c) {
        if lower {
          errors := errors + [i];
        } else {
          upper := true;
        }
      } else if c as int < 33 || c as int > 126 {
        errors := errors + [i];
      }
    }
    ok := errors == [];
    if ok {
      NoneWrong(str);
    } else {
      assert errors[0] in errors;
      SomeWrong(str, errors[0]);
    }
  }

  lemma {:induction false} FirstCaseMeans(s: string, i: nat)
    requires i <= |s|
    ensures FirstCase(s, i) == NoLetter ==> forall k :: 0 <= k < i ==> !IsLower(s[k]) && !IsUpper(s[k])
    ensures FirstCase(s, i) == Lower ==> exists k :: 0 <= k < i && IsLower(s[k])
    ensures FirstCase(s, i) == Upper ==> exists k :: 0 <= k < i && IsUpper(s[k])
  {
    if i > 0 {
      FirstCaseMeans(s, i - 1);
    }
  }

  lemma {:induction false} NoneWrongBefore(s: string, i: nat)
    requires i <= |s| && forall k :: 0 <= k < i ==> !Wrong(s, k)
    ensures forall k :: 0 <= k < i ==> InRange(s[k])
    ensures FirstCase(s, i) == Lower ==> forall k :: 0 <= k < i ==> !IsUpper(s[k])
    ensures FirstCase(s, i) == Upper ==> forall k :: 0 <= k < i ==> !IsLower(s[k])
    ensures FirstCase(s, i) == NoLetter ==> forall k :: 0 <= k < i ==> !IsLower(s[k]) && !IsUpper(s[k])
  {
    if i > 0 {
      NoneWrongBefore(s, i - 1);
      assert !Wrong(s, i - 1);
      FirstCaseMeans(s, i - 1);
    }
  }

  lemma NoneWrong(s: string)
    requires forall i :: !Wrong(s, i)
    ensures Printable(s) && OneCase(s)
  {
    NoneWrongBefore(s, |s|);
  }

  lemma SomeWrong(s: string, i: int)
    requires Wrong(s, i)
    ensures !Printable(s) || !OneCase(s)
  {
    FirstCaseMeans(s, i);
  }

  // ---------------------------------------------------------------- the checksum

  /** The byte a character stands for. */
  function Code(c: char): nat {
    c as int % 256
  }

  function HighSymbol(c: char): Symbol {
    (Code(c) / 32) as Symbol
  }

  function LowSymbol(c: char): Symbol {
    (Code(c) % 32) as Symbol
  }

  /** A plain character is signed, so the shift fills in ones for a byte above 127. */
  function HighBits(c: char): bv8 {
    if Code(c) < 128 then Byte(HighSymbol(c))
    else if Code(c) < 160 then 252 else if Code(c) < 192 then 253 else if Code(c) < 224 then 254 else 255
  }

  function LowBits(c: char): bv8 {
    Byte(LowSymbol(c))
  }

  /** The readable part as coefficients. */
  ghost function Expand(hrp: string): seq<bv8> {
    seq(|hrp|, i requires 0 <= i < |hrp| => HighBits(hrp[i])) + [0] + seq(|hrp|, i requires 0 <= i < |hrp| => LowBits(hrp[i]))
  }

  method PreparePolynomialCoefficients(hrp: string, values: seq<Symbol>) returns (ret: seq<bv8>)
    ensures ret == Expand(hrp) + AsBytes(values)
  {
    hide HighBits, LowBits, Byte;
    ret := [];
    for i := 0 to |hrp|
      invariant ret == seq(i, k requires 0 <= k < i => HighBits(hrp[k]))
    {
      ret := ret + [HighBits(hrp[i])];
    }
    ghost var high := ret;
    ret := ret + [0];
    for i := 0 to |hrp|
      invariant ret == high + [0] + seq(i, k requires 0 <= k < i => LowBits(hrp[k]))
    {
      ret := ret + [LowBits(hrp[i])];
    }
    ret := ret + AsBytes(values);
  }

  /** The remainder after the readable part. */
  ghost function Start(hrp: string): Poly {
    RemainderBytes(ONE, Expand(hrp))
  }

  lemma AfterStart(hrp: string, values: seq<Symbol>)
    ensures RemainderBytes(ONE, Expand(hrp) + AsBytes(values)) == Remainder(Start(hrp), values)
  {
    hide Expand, RemainderBytes, Remainder;
    BytesAppend(ONE, Expand(hrp), AsBytes(values));
    SymbolBytes(Start(hrp), values);
  }

  /** The encoding whose constant the remainder is. */
  ghost function EncodingOf(p: Poly): Encoding {
    if p == EncodingPoly(BECH32) then BECH32 else if p == EncodingPoly(BECH32M) then BECH32M else INVALID
  }

  ghost function Verified(hrp: string, values: seq<Symbol>): Encoding {
    EncodingOf(Remainder(Start(hrp), values))
  }

  method VerifyChecksum(hrp: string, values: seq<Symbol>) returns (r: Encoding)
    ensures r == Verified(hrp, values)
  {
    hide Pack, Remainder, RemainderBytes, EncodingConstant, EncodingPoly, Expand, Start;
    var enc := PreparePolynomialCoefficients(hrp, values);
    var check := PolyMod(enc);
    AfterStart(hrp, values);
    ghost var p := Remainder(Start(hrp), values);
    ConstantIsPoly(BECH32);
    ConstantIsPoly(BECH32M);
    if check == EncodingConstant(BECH32) {
      PackInjective(p, EncodingPoly(BECH32));
      return BECH32;
    }
    if check == EncodingConstant(BECH32M) {
      PackInjective(p, EncodingPoly(BECH32M));
      return BECH32M;
    }
    return INVALID;
  }

  const SIX: seq<Symbol> := [0, 0, 0, 0, 0, 0]

  /** The six values that bring the remainder to the constant. */
  ghost function Checksum(encoding: Encoding, hrp: string, values: seq<Symbol>): (c: seq<Symbol>)
    requires encoding != INVALID
    ensures |c| == 6
  {
    Coefficients(Plus(Remainder(Start(hrp), values + SIX), EncodingPoly(encoding)))
  }

  method CreateChecksum(encoding: Encoding, hrp: string, values: seq<Symbol>) returns (ret: seq<Symbol>)
    requires encoding != INVALID
    ensures ret == Checksum(encoding, hrp, values)
  {
    hide Pack, Remainder, RemainderBytes, EncodingConstant, EncodingPoly, Expand, Xor, Group, Plus, Start, Byte;
    var enc := PreparePolynomialCoefficients(hrp, values);
    enc := enc + AsBytes(SIX);
    assert enc == Expand(hrp) + AsBytes(values + SIX);
    var c := PolyMod(enc);
    AfterStart(hrp, values + SIX);
    var mod := Xor(c, EncodingConstant(encoding));
    ConstantIsPoly(encoding);
    ghost var q := Remainder(Start(hrp), values + SIX);
    ghost var p := Plus(q, EncodingPoly(encoding));
    PackedPlus(q, EncodingPoly(encoding));
    Unpack(p);
    ret := [];
    for i := 0 to 6
      invariant ret == Coefficients(p)[..i]
    {
      ret := ret + [Group(mod, i)];
    }
  }

  lemma AddLaw(x: Symbol, y: Symbol)
    ensures Add(0, x) == x && Add(x, 0) == x && Add(x, Add(x, y)) == y && Add(x, y) == Add(y, x)
  {
  }

  lemma OverZero()
    ensures Over(0) == ZERO
  {
  }

  lemma PlusZero(p: Poly, q: Poly)
    ensures Plus(p, ZERO) == p && Plus(ZERO, p) == p && Plus(p, Plus(p, q)) == q
  {
    hide Add;
    AddLaw(p.a5, q.a5);
    AddLaw(p.a4, q.a4);
    AddLaw(p.a3, q.a3);
    AddLaw(p.a2, q.a2);
    AddLaw(p.a1, q.a1);
    AddLaw(p.a0, q.a0);
  }

  lemma NextSmall(p: Poly, v: Symbol)
    requires p.a5 == 0
    ensures Next(p, v) == Poly(p.a4, p.a3, p.a2, p.a1, p.a0, v)
  {
    hide Plus, Over;
    OverZero();
    PlusZero(Poly(p.a4, p.a3, p.a2, p.a1, p.a0, v), ZERO);
  }

  lemma RemainderNext(p: Poly, s: seq<Symbol>, v: Symbol)
    ensures Remainder(p, s + [v]) == Next(Remainder(p, s), v)
  {
    hide Next;
    assert (s + [v])[..|s|] == s;
  }

  /** Six coefficients need no reduction. */
  lemma SixCoefficients(c: Poly)
    ensures Remainder(ZERO, Coefficients(c)) == c
  {
    hide Next, Remainder;
    var s := Coefficients(c);
    RemainderNone();
    RemainderNext(ZERO, s[..0], s[0]);
    RemainderNext(ZERO, s[..1], s[1]);
    RemainderNext(ZERO, s[..2], s[2]);
    RemainderNext(ZERO, s[..3], s[3]);
    RemainderNext(ZERO, s[..4], s[4]);
    RemainderNext(ZERO, s[..5], s[5]);
    assert s[..0] == [] && s[..0] + [s[0]] == s[..1] && s[..1] + [s[1]] == s[..2] && s[..2] + [s[2]] == s[..3];
    assert s[..3] + [s[3]] == s[..4] && s[..4] + [s[4]] == s[..5] && s[..5] + [s[5]] == s;
    NextSmall(ZERO, c.a5);
    NextSmall(Poly(0, 0, 0, 0, 0, c.a5), c.a4);
    NextSmall(Poly(0, 0, 0, 0, c.a5, c.a4), c.a3);
    NextSmall(Poly(0, 0, 0, c.a5, c.a4, c.a3), c.a2);
    NextSmall(Poly(0, 0, c.a5, c.a4, c.a3, c.a2), c.a1);
    NextSmall(Poly(0, c.a5, c.a4, c.a3, c.a2, c.a1), c.a0);
  }

  lemma RemainderNone()
    ensures Remainder(ZERO, []) == ZERO
  {
  }

  /** The last six values are added to the remainder as they stand. */
  lemma LastSix(q: Poly, s: seq<Symbol>, c: Poly)
    ensures Remainder(q, s + Coefficients(c)) == Plus(Remainder(q, s + SIX), c)
  {
    hide Remainder, Next, Plus, Add;
    var p := Remainder(q, s);
    RemainderAppend(q, s, Coefficients(c));
    RemainderAppend(q, s, SIX);
    RemainderPlus(p, ZERO, SIX, Coefficients(c));
    PlusZero(p, p);
    SixCoefficients(c);
    AddLaw(c.a5, 0);
    AddLaw(c.a4, 0);
    AddLaw(c.a3, 0);
    AddLaw(c.a2, 0);
    AddLaw(c.a1, 0);
    AddLaw(c.a0, 0);
    assert Differences(SIX, Coefficients(c)) == Coefficients(c);
  }

  /** The created checksum verifies, under the encoding it was made for. */
  lemma ChecksumVerifies(encoding: Encoding, hrp: string, values: seq<Symbol>)
    requires encoding != INVALID
    ensures Verified(hrp, values + Checksum(encoding, hrp, values)) == encoding
  {
    hide Remainder, Plus, Start, Coefficients;
    var k := EncodingPoly(encoding);
    var r := Remainder(Start(hrp), values + SIX);
    LastSix(Start(hrp), values, Plus(r, k));
    PlusZero(r, k);
  }

  /** No other six values verify. */
  lemma ChecksumUnique(encoding: Encoding, hrp: string, values: seq<Symbol>, c: seq<Symbol>)
    requires encoding != INVALID && |c| == 6 && Verified(hrp, values + c) == encoding
    ensures c == Checksum(encoding, hrp, values)
  {
    hide Remainder, Plus, Start;
    var k := EncodingPoly(encoding);
    var r, p := Remainder(Start(hrp), values + SIX), Poly(c[0], c[1], c[2], c[3], c[4], c[5]);
    assert Coefficients(p) == c;
    LastSix(Start(hrp), values, p);
    PlusZero(r, p);
  }

  // ---------------------------------------------------------------- text

  function Chars(v: seq<Symbol>): (s: string)
    ensures |s| == |v| && forall i :: 0 <= i < |s| ==> s[i] == Charset(v[i])
  {
    seq(|v|, i requires 0 <= i < |v| => Charset(v[i]))
  }

  function LowerText(s: string): (r: string)
    ensures |r| == |s| && forall i :: 0 <= i < |s| ==> r[i] == LowerCase(s[i])
  {
    seq(|s|, i requires 0 <= i < |s| => LowerCase(s[i]))
  }

  ghost predicate NoUpper(s: string) {
    forall i :: 0 <= i < |s| ==> !IsUpper(s[i])
  }

  predicate AllSymbols(s: string) {
    forall i :: 0 <= i < |s| ==> CharsetRev(s[i]).Some?
  }

  function SymbolsOf(s: string): (v: seq<Symbol>)
    requires AllSymbols(s)
    ensures |v| == |s| && forall i :: 0 <= i < |s| ==> CharsetRev(s[i]) == Some(v[i])
  {
    seq(|s|, i requires 0 <= i < |s| => CharsetRev(s[i]).value)
  }

  /** The position of the last separator, or -1. */
  function RFind(s: string): (pos: int)
    ensures -1 <= pos < |s|
    ensures pos >= 0 ==> s[pos] == SEPARATOR
    ensures forall i :: pos < i < |s| ==> s[i] != SEPARATOR
  {
    if s == [] then -1 else if s[|s| - 1] == SEPARATOR then |s| - 1 else RFind(s[..|s| - 1])
  }

  ghost function Encoded(encoding: Encoding, hrp: string, values: seq<Symbol>): string
    requires encoding != INVALID
  {
    hrp + [SEPARATOR] + Chars(values + Checksum(encoding, hrp, values))
  }

  /** The readable part must not contain upper case letters. */
  method Encode(encoding: Encoding, hrp: string, values: seq<Symbol>) returns (ret: string)
    requires encoding != INVALID && NoUpper(hrp)
    ensures ret == Encoded(encoding, hrp, values)
  {
    hide Checksum, Charset;
    ret := hrp;
    ret := ret + [SEPARATOR];
    for i := 0 to |values|
      invariant ret == hrp + [SEPARATOR] + Chars(values[..i])
    {
      ret := ret + [Charset(values[i])];
    }
    var sum := CreateChecksum(encoding, hrp, values);
    for i := 0 to |sum|
      invariant ret == hrp + [SEPARATOR] + Chars(values + sum[..i])
    {
      ret := ret + [Charset(sum[i])];
    }
    assert sum[..|sum|] == sum;
  }

  ghost predicate Acceptable(str: string, limit: nat) {
    && Printable(str) && OneCase(str) && |str| <= limit
    && 0 < RFind(str) && RFind(str) + CHECKSUM_SIZE < |str|
    && AllSymbols(str[RFind(str) + 1..])
  }

  ghost function Decoded(str: string, limit: nat): DecodeResult {
    if !Acceptable(str, limit) then FAILED
    else
      var pos := RFind(str);
      var hrp, values := LowerText(str[..pos]), SymbolsOf(str[pos + 1..]);
      var e := Verified(hrp, values);
      if e == INVALID then FAILED else DecodeResult(e, hrp, values[..|values| - CHECKSUM_SIZE])
  }

  method Decode(str: string, limit: nat) returns (r: DecodeResult)
    ensures r == Decoded(str, limit)
  {
    hide CharsetLower, LowerCase, RFind, Verified, Charset;
    var ok, errors := CheckCharacters(str);
    if !ok {
      return FAILED;
    }
    var pos := RFind(str);
    if |str| > limit {
      return FAILED;
    }
    if pos == -1 || pos == 0 || pos + CHECKSUM_SIZE >= |str| {
      return FAILED;
    }
    var values: seq<Symbol> := [];
    ghost var rest := str[pos + 1..];
    for i := 0 to |str| - 1 - pos
      invariant |values| == i
      invariant forall k :: 0 <= k < i ==> CharsetRev(rest[k]) == Some(values[k])
    {
      assert rest[i] == str[i + pos + 1];
      var rev := CharsetRev(str[i + pos + 1]);
      if rev == None {
        return FAILED;
      }
      values := values + [rev.value];
    }
    var hrp := "";
    for i := 0 to pos
      invariant hrp == LowerText(str[..i])
    {
      hrp := hrp + [LowerCase(str[i])];
    }
    assert AllSymbols(rest);
    assert values == SymbolsOf(rest);
    var e := VerifyChecksum(hrp, values);
    if e == INVALID {
      return FAILED;
    }
    return DecodeResult(e, hrp, values[..|values| - CHECKSUM_SIZE]);
  }

  // ---------------------------------------------------------------- round trips

  lemma RFindIs(s: string, pos: nat)
    requires pos < |s| && s[pos] == SEPARATOR && forall i :: pos < i < |s| ==> s[i] != SEPARATOR
    ensures RFind(s) == pos
  {
    hide RFind;
  }

  lemma CharsText(v: seq<Symbol>)
    ensures AllSymbols(Chars(v)) && SymbolsOf(Chars(v)) == v
    ensures forall i :: 0 <= i < |v| ==> Chars(v)[i] != SEPARATOR && InRange(Chars(v)[i]) && !IsUpper(Chars(v)[i])
  {
    hide Charset, CharsetLower, CharsetRev;
    forall i | 0 <= i < |v|
      ensures CharsetRev(Chars(v)[i]) == Some(v[i])
      ensures Chars(v)[i] != SEPARATOR && InRange(Chars(v)[i]) && !IsUpper(Chars(v)[i])
    {
      CharsetInverse(v[i]);
      CharsetShape(v[i]);
    }
  }

  lemma LowerKeeps(s: string)
    requires NoUpper(s)
    ensures LowerText(s) == s
  {
  }

  /**
   Decoding an encoding gives back exactly what was encoded, under the same encoding, if and only
   if the readable part is not empty and printable and the whole text is within the limit.
   */
  lemma DecodeEncoded(encoding: Encoding, hrp: string, values: seq<Symbol>, limit: nat)
    requires encoding != INVALID && NoUpper(hrp)
    ensures Decoded(Encoded(encoding, hrp, values), limit) ==
            if hrp != "" && Printable(hrp) && |hrp| + 1 + |values| + CHECKSUM_SIZE <= limit
            then DecodeResult(encoding, hrp, values)
            else FAILED
  {
    hide Checksum, Charset, CharsetLower, RFind, Verified, LowerCase, Acceptable;
    var all := values + Checksum(encoding, hrp, values);
    var str, pos := Encoded(encoding, hrp, values), |hrp|;
    CharsText(all);
    RFindIs(str, pos);
    assert str[..pos] == hrp && str[pos + 1..] == Chars(all);
    EncodedAcceptable(hrp, all, limit);
    LowerKeeps(hrp);
    ChecksumVerifies(encoding, hrp, values);
    assert all[..|all| - CHECKSUM_SIZE] == values;
  }

  lemma EncodedAcceptable(hrp: string, all: seq<Symbol>, limit: nat)
    requires NoUpper(hrp) && |all| >= CHECKSUM_SIZE
    ensures var str := hrp + [SEPARATOR] + Chars(all);
            Acceptable(str, limit) <==> hrp != "" && Printable(hrp) && |str| <= limit
  {
    hide Charset, CharsetLower, RFind, CharsetRev;
    var str, pos := hrp + [SEPARATOR] + Chars(all), |hrp|;
    CharsText(all);
    RFindIs(str, pos);
    assert str[pos + 1..] == Chars(all);
    assert forall i :: 0 <= i < |hrp| ==> str[i] == hrp[i];
    if Printable(str) {
      assert Printable(hrp);
    }
    assert forall i :: pos < i < |str| ==> str[i] == Chars(all)[i - pos - 1];
    assert OneCase(str);
  }

  /** What a successful decoding says about the text. */
  ghost predicate Parts(str: string, limit: nat, r: DecodeResult) {
    && Acceptable(str, limit) && r.hrp == LowerText(str[..RFind(str)])
    && var values := SymbolsOf(str[RFind(str) + 1..]);
       r.encoding == Verified(r.hrp, values) && r.data == values[..|values| - CHECKSUM_SIZE]
  }

  lemma DecodedParts(str: string, limit: nat)
    requires Decoded(str, limit).encoding != INVALID
    ensures Parts(str, limit, Decoded(str, limit))
  {
    hide CharsetLower, RFind, Verified, LowerCase, OneCase, AllSymbols, CharsetRev;
  }

  /** Encoding what a text decodes to gives the text in lower case. */
  lemma EncodeDecoded(str: string, limit: nat)
    requires Decoded(str, limit).encoding != INVALID
    ensures var r := Decoded(str, limit);
            Encoded(r.encoding, r.hrp, r.data) == LowerText(str)
  {
    hide Checksum, Charset, CharsetLower, RFind, Verified, LowerCase, Decoded, CharsetRev;
    DecodedParts(str, limit);
    var r, pos := Decoded(str, limit), RFind(str);
    var values := SymbolsOf(str[pos + 1..]);
    var n := |values| - CHECKSUM_SIZE;
    assert values == values[..n] + values[n..];
    ChecksumUnique(r.encoding, r.hrp, values[..n], values[n..]);
    SymbolsText(str[pos + 1..]);
    LowerSplit(str, pos);
  }

  lemma LowerSplit(str: string, pos: nat)
    requires pos < |str| && str[pos] == SEPARATOR
    ensures LowerText(str) == LowerText(str[..pos]) + [SEPARATOR] + LowerText(str[pos + 1..])
  {
    hide LowerCase;
    LowerSeparator();
  }

  lemma LowerSeparator()
    ensures LowerCase(SEPARATOR) == SEPARATOR
  {
  }

  lemma SymbolsText(s: string)
    requires AllSymbols(s)
    ensures Chars(SymbolsOf(s)) == LowerText(s)
  {
    hide Charset, CharsetLower, LowerCase;
    forall i | 0 <= i < |s| ensures Charset(SymbolsOf(s)[i]) == LowerCase(s[i]) {
      RevInverse(LowerCase(s[i]));
    }
  }

  // ---------------------------------------------------------------- errors

  /** The number of places at which two sequences differ. */
  function Differing<T(==)>(s: seq<T>, t: seq<T>): nat
    requires |s| == |t|
  {
    if s == [] then 0 else (if s[0] != t[0] then 1 else 0) + Differing(s[1..], t[1..])
  }

  lemma {:induction false} DifferingConcat<T>(a: seq<T>, b: seq<T>, c: seq<T>, d: seq<T>)
    requires |a| == |b| && |c| == |d|
    ensures Differing(a + c, b + d) == Differing(a, b) + Differing(c, d)
  {
    if a == [] {
      assert a + c == c && b + d == d;
    } else {
      DifferingConcat(a[1..], b[1..], c, d);
      assert (a + c)[1..] == a[1..] + c && (b + d)[1..] == b[1..] + d;
    }
  }

  lemma {:induction false} DifferingNone<T>(s: seq<T>)
    ensures Differing(s, s) == 0
  {
    if s != [] {
      DifferingNone(s[1..]);
    }
  }

  lemma {:induction false} DifferingErrors(s: seq<Symbol>, t: seq<Symbol>)
    requires |s| == |t|
    ensures |Errors(s, t)| == Differing(s, t)
  {
    if s == [] {
      assert Errors(s, t) == {};
    } else {
      DifferingErrors(s[1..], t[1..]);
      forall k: nat | k < |s| - 1 ensures Differ(s, t, k) <==> Differ(s[1..], t[1..], k) {
      }
      var top: set<nat> := if s[0] != t[0] then {|s| - 1} else {};
      assert Errors(s, t) == Errors(s[1..], t[1..]) + top;
    }
  }

  /** Two sequences differ where their images under a one-to-one reading do. */
  lemma {:induction false} DifferingChars(v: seq<Symbol>, w: seq<Symbol>)
    requires |v| == |w|
    ensures Differing(Chars(v), Chars(w)) == Differing(v, w)
  {
    hide Charset, CharsetLower;
    if v != [] {
      DifferingChars(v[1..], w[1..]);
      LowerInverse(v[0]);
      LowerInverse(w[0]);
      assert Chars(v)[1..] == Chars(v[1..]) && Chars(w)[1..] == Chars(w[1..]);
    }
  }

  ghost function Highs(s: string): seq<Symbol> {
    seq(|s|, i requires 0 <= i < |s| => HighSymbol(s[i]))
  }

  ghost function Lows(s: string): seq<Symbol> {
    seq(|s|, i requires 0 <= i < |s| => LowSymbol(s[i]))
  }

  /**
   How many symbols differ between two texts with their last separator at `pos`, apart from case.
   A character after the separator is one symbol, one before it is two.
   */
  ghost function SymbolsChanged(s: string, t: string, pos: nat): nat
    requires pos < |s| == |t|
  {
    var h, h' := LowerText(s[..pos]), LowerText(t[..pos]);
    Differing(Highs(h), Highs(h')) + Differing(Lows(h), Lows(h'))
    + Differing(LowerText(s[pos + 1..]), LowerText(t[pos + 1..]))
  }

  /** A letter put for a letter in the readable part changes only one of its two symbols. */
  lemma LetterChange(c: char, d: char)
    requires (IsLower(c) || IsUpper(c)) && (IsLower(d) || IsUpper(d))
    ensures HighSymbol(LowerCase(c)) == HighSymbol(LowerCase(d))
  {
  }

  /**
   A valid text in which one to three symbols are changed, in the readable part or after the
   separator, is never valid under the same encoding, as long as the last separator stays where it
   is and the checksum covers at most 1023 symbols up to the first change.
   */
  lemma CatchesThree(s: string, t: string, pos: nat, limit: nat)
    requires Decoded(s, limit).encoding != INVALID
    requires |s| == |t| && RFind(s) == RFind(t) == pos
    requires 0 < SymbolsChanged(s, t, pos) <= 3
    requires |s| + pos <= 1023 || (LowerText(s[..pos]) == LowerText(t[..pos]) && |s| - 1 - pos <= 1023)
    ensures Decoded(t, limit).encoding != Decoded(s, limit).encoding
  {
    hide Charset, CharsetLower, CharsetRev, RFind, Verified, LowerCase, Decoded, SymbolsChanged;
    DecodedParts(s, limit);
    if Decoded(t, limit).encoding != INVALID {
      DecodedParts(t, limit);
      var v, w := SymbolsOf(s[pos + 1..]), SymbolsOf(t[pos + 1..]);
      var h, h' := LowerText(s[..pos]), LowerText(t[..pos]);
      ChangedIs(s, t, pos);
      LowerPrintable(s, pos);
      LowerPrintable(t, pos);
      if h == h' {
        DifferingNone(Highs(h));
        DifferingNone(Lows(h));
        DifferentValues(h, v, w);
      } else {
        DifferentRemainder(h, h', v, w);
      }
    }
  }

  lemma ChangedIs(s: string, t: string, pos: nat)
    requires pos < |s| == |t| && AllSymbols(s[pos + 1..]) && AllSymbols(t[pos + 1..])
    ensures var h, h' := LowerText(s[..pos]), LowerText(t[..pos]);
            SymbolsChanged(s, t, pos) == Differing(Highs(h), Highs(h')) + Differing(Lows(h), Lows(h'))
                                         + Differing(SymbolsOf(s[pos + 1..]), SymbolsOf(t[pos + 1..]))
  {
    hide Charset, CharsetLower, CharsetRev, LowerCase;
    SymbolsText(s[pos + 1..]);
    SymbolsText(t[pos + 1..]);
    DifferingChars(SymbolsOf(s[pos + 1..]), SymbolsOf(t[pos + 1..]));
  }

  lemma LowerPrintable(s: string, pos: nat)
    requires Printable(s) && pos <= |s|
    ensures Printable(LowerText(s[..pos]))
  {
  }

  /** A printable readable part is a sequence of ordinary coefficients. */
  ghost function Symbols(hrp: string): seq<Symbol> {
    Highs(hrp) + [0] + Lows(hrp)
  }

  lemma PrintableStart(hrp: string)
    requires Printable(hrp)
    ensures Start(hrp) == Remainder(ONE, Symbols(hrp))
  {
    hide Remainder, RemainderBytes;
    assert Expand(hrp) == AsBytes(Symbols(hrp)) by {
      PrintableExpand(hrp);
    }
    SymbolBytes(ONE, Symbols(hrp));
  }

  lemma PrintableExpand(hrp: string)
    requires Printable(hrp)
    ensures Expand(hrp) == AsBytes(Symbols(hrp))
  {
    forall i | 0 <= i < |hrp| ensures HighBits(hrp[i]) == Byte(HighSymbol(hrp[i])) {
      assert InRange(hrp[i]);
    }
    ZeroByte();
    hide HighBits, HighSymbol, LowSymbol, Byte;
  }

  lemma ZeroByte()
    ensures Byte(0) == 0
  {
  }

  lemma DifferentValues(hrp: string, v: seq<Symbol>, w: seq<Symbol>)
    requires |v| == |w| <= 1023 && 0 < Differing(v, w) <= 3 && Verified(hrp, v) != INVALID
    ensures Verified(hrp, v) != Verified(hrp, w)
  {
    hide Remainder, Start;
    DifferingErrors(v, w);
    DifferingNone(v);
    Detects(Start(hrp), v, w);
  }

  lemma DifferentRemainder(h: string, h': string, v: seq<Symbol>, w: seq<Symbol>)
    requires Printable(h) && Printable(h') && |h| == |h'| && |v| == |w| && 2 * |h| + 1 + |v| <= 1023
    requires 0 < Differing(Highs(h), Highs(h')) + Differing(Lows(h), Lows(h')) + Differing(v, w) <= 3
    requires Verified(h, v) != INVALID
    ensures Verified(h, v) != Verified(h', w)
  {
    hide Remainder, Start, Highs, Lows, Printable;
    HrpLengths(h);
    HrpLengths(h');
    var x, y := Symbols(h) + v, Symbols(h') + w;
    DifferingConcat(Symbols(h), Symbols(h'), v, w);
    DifferingConcat(Highs(h) + [0], Highs(h') + [0], Lows(h), Lows(h'));
    var zero: seq<Symbol> := [0];
    DifferingConcat(Highs(h), Highs(h'), zero, zero);
    DifferingNone(zero);
    DifferingErrors(x, y);
    DifferingNone(x);
    Detects(ONE, x, y);
    PrintableStart(h);
    PrintableStart(h');
    RemainderAppend(ONE, Symbols(h), v);
    RemainderAppend(ONE, Symbols(h'), w);
  }

  lemma HrpLengths(h: string)
    ensures |Highs(h)| == |h| && |Lows(h)| == |h|
  {
  }
}
