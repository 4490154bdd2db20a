/** Encoding and decoding base 58 text with the digit buffer, and the round trips. */
module Base58Codec {
  import opened Wrappers
  import opened Radix
  import opened Base58
  import WordMath

  method EncodeBase58(input: seq<Byte>) returns (str: string)
    ensures str == EncodeOf(input)
  {
    hide Holds, Number, Pow, Digits, Letters;
    var zeroes := 0;
    while zeroes < |input| && input[zeroes] == 0
      invariant 0 <= zeroes <= |input| && forall k :: 0 <= k < zeroes ==> input[k] == 0
    {
      zeroes := zeroes + 1;
    }
    LeadingIs(input, 0, zeroes);
    var rest := input[zeroes..];
    var b58, length := ToBase58(rest);
    ghost var v := Number(rest, 256);
    HoldsFacts(b58[..], 58, length, v);
    var at := b58.Length - length;
    while at < b58.Length && b58[at] == 0
      invariant 0 <= at <= b58.Length && forall j :: 0 <= j < at ==> b58[j] == 0
    {
      at := at + 1;
    }
    Significant(b58[..], 58, at, v);
    NumberOfDigits(v, 58);
    str := Translate(b58, at, zeroes, Digits(v, 58));
  }

  /** Writes the '1's and then the characters of the digits. */
  method Translate(b58: array<Byte>, from: nat, zeroes: nat, ghost d: seq<nat>) returns (str: string)
    requires from <= b58.Length && b58[from..] == d && AreDigits(d, 58)
    ensures str == Repeat('1', zeroes) + Letters(d)
  {
    hide Letters;
    str := Repeat('1', zeroes);
    var at := from;
    NoLetters();
    while at < b58.Length
      invariant from <= at <= b58.Length
      invariant str == Repeat('1', zeroes) + Letters(d[..at - from])
    {
      assert b58[from..][at - from] == d[at - from];
      NextLetter(d[..at - from], d[at - from]);
      assert d[..at + 1 - from] == d[..at - from] + [d[at - from]];
      str := str + [ALPHABET[b58[at]]];
      at := at + 1;
    }
    assert d[..at - from] == d;
  }

  lemma NoLetters()
    ensures Letters([]) == []
  {
  }

  lemma NextLetter(d: seq<nat>, x: nat)
    requires AreDigits(d, 58) && x < 58
    ensures Letters(d + [x]) == Letters(d) + [ALPHABET[x]]
  {
    hide ALPHABET;
  }

  /** Converts bytes into a buffer of base 58 digits, sized in advance. */
  method ToBase58(rest: seq<Byte>) returns (b58: array<Byte>, length: nat)
    ensures fresh(b58) && Holds(b58[..], 58, length, Number(rest, 256))
  {
    hide Holds, Number, Pow;
    var size := |rest| * 138 / 100 + 1;
    b58 := new Byte[size](_ => 0);
    EmptyHolds(b58[..], 58);
    EmptyNumber(rest);
    length := 0;
    var k := 0;
    while k < |rest|
      invariant 0 <= k <= |rest| && Holds(b58[..], 58, length, Number(rest[..k], 256))
    {
      NextNumber(rest, k, 256);
      RoomLeft(rest, k + 1, 256, 58, size);
      length := MulAdd(b58, 58, 256, rest[k], length, Number(rest[..k], 256));
      k := k + 1;
    }
    assert rest[..k] == rest;
  }

  lemma LeadingIs<T>(s: seq<T>, x: T, n: nat)
    requires n <= |s| && (forall i :: 0 <= i < n ==> s[i] == x) && (n < |s| ==> s[n] != x)
    ensures Leading(s, x) == n
  {
  }

  lemma EmptyNumber(s: seq<nat>)
    ensures Number(s[..0], 256) == 0 && Number(s[..0], 58) == 0
  {
  }

  lemma NextNumber(s: seq<nat>, k: nat, b: nat)
    requires k < |s|
    ensures Number(s[..k + 1], b) == Number(s[..k], b) * b + s[k]
  {
    assert s[..k + 1][..k] == s[..k];
  }

  /** Every prefix fits the buffer that was sized for the whole. */
  lemma RoomLeft(s: seq<nat>, k: nat, from: nat, to: nat, size: nat)
    requires k <= |s| && AreDigits(s, from) && from > 0
    requires (from == 256 && to == 58 && size == |s| * 138 / 100 + 1) ||
             (from == 58 && to == 256 && size >= |s| * 733 / 1000 + 1)
    ensures Number(s[..k], from) < Pow(to, size)
  {
    hide Pow, Number;
    NumberBound(s[..k], from);
    PowMono(from, k, |s|);
    if from == 256 {
      EncodeRoom(|s|);
    } else {
      DecodeRoom(|s|);
      PowMono(256, |s| * 733 / 1000 + 1, size);
    }
  }

  lemma Significant(s: seq<nat>, base: nat, at: nat, v: nat)
    requires base >= 2 && AreDigits(s, base) && Number(s, base) == v
    requires at <= |s| && (forall j :: 0 <= j < at ==> s[j] == 0) && (at < |s| ==> s[at] != 0)
    ensures s[at..] == Digits(v, base)
  {
    LeadingZeros(s, at, base);
    DigitsOfNumber(s[at..], base);
  }

  // ---------------------------------------------------------------- decoding

  method DecodeBase58(str: string, maxLen: int) returns (r: Option<seq<Byte>>)
    ensures r == DecodeOf(str, maxLen)
  {
    hide Holds, Number, Pow, Digits, DecodeBody, Trim, AllDigits;
    if '\0' in str {
      return None;
    }
    var p := 0;
    while p < |str| && IsSpace(str[p])
      invariant 0 <= p <= |str| && forall k :: 0 <= k < p ==> IsSpace(str[k])
    {
      p := p + 1;
    }
    StartIs(str, p);
    ghost var start := p;
    var zeroes := 0;
    while p < |str| && str[p] == '1'
      invariant start <= p <= |str| && zeroes == p - start && (zeroes > 0 ==> zeroes <= maxLen)
      invariant forall k :: start <= k < p ==> str[k] == '1'
    {
      zeroes := zeroes + 1;
      if zeroes > maxLen {
        TooManyOnes(str, start, zeroes, maxLen);
        return None;
      }
      p := p + 1;
    }
    ghost var from := p;
    var size := (|str| - p) * 733 / 1000 + 1;
    var b256 := new Byte[size](_ => 0);
    EmptyHolds(b256[..], 256);
    var length: nat := 0;
    ghost var v: nat := 0;
    BodyStart(str, from);
    while p < |str| && !IsSpace(str[p])
      invariant from <= p <= |str| && b256.Length == size
      invariant BodySoFar(str, from, p, v) && Holds(b256[..], 256, length, v)
      invariant p > from || zeroes > 0 ==> zeroes + length <= maxLen
      invariant p == from ==> v == 0 && length == 0
    {
      var carry := MapBase58(str[p]);
      if carry == -1 {
        BadCharacter(str, start, from, p, p, maxLen);
        return None;
      }
      BodyNext(str, from, p, v, size);
      length := MulAdd(b256, 256, 58, carry, length, v);
      v := v * 58 + carry;
      HeldDigits(b256[..], 256, length, v);
      if length + zeroes > maxLen {
        TooLong(str, start, from, p + 1, v, maxLen);
        return None;
      }
      p := p + 1;
    }
    ghost var end := p;
    while p < |str| && IsSpace(str[p])
      invariant end <= p <= |str| && forall k :: end <= k < p ==> IsSpace(str[k])
    {
      p := p + 1;
    }
    if p != |str| {
      BadCharacter(str, start, from, end, p, maxLen);
      return None;
    }
    HeldDigits(b256[..], 256, length, v);
    HoldsFacts(b256[..], 256, length, v);
    Decoded(str, start, from, end, v);
    r := Some(Repeat(0, zeroes) + b256[size - length..]);
  }

  lemma {:induction false} StartIs(s: string, p: nat)
    requires p <= |s| && (forall k :: 0 <= k < p ==> IsSpace(s[k])) && (p < |s| ==> !IsSpace(s[p]))
    ensures Start(s) == p
  {
  }

  /** Between the spaces: the characters from the first to the last that is not a space. */
  lemma TrimCovers(s: string, k: nat)
    requires k < |s| && !IsSpace(s[k])
    ensures Start(s) <= k < End(s) && Trim(s) == s[Start(s)..End(s)]
  {
  }

  /** The characters read are digits of the number `v`. */
  ghost predicate BodySoFar(s: string, from: nat, p: nat, v: nat) {
    from <= p <= |s| && (forall k :: from <= k < p ==> !IsSpace(s[k])) &&
    AllDigits(s[from..p]) && Number(Values(s[from..p]), 58) == v
  }

  lemma BodyStart(s: string, from: nat)
    requires from <= |s|
    ensures BodySoFar(s, from, from, 0)
  {
    assert Values(s[from..from]) == [];
  }

  lemma BodyNext(s: string, from: nat, p: nat, v: nat, size: nat)
    requires BodySoFar(s, from, p, v) && p < |s| && !IsSpace(s[p]) && MapBase58(s[p]) != -1
    requires size == (|s| - from) * 733 / 1000 + 1
    ensures 0 <= MapBase58(s[p]) < 58 && BodySoFar(s, from, p + 1, v * 58 + MapBase58(s[p]))
    ensures v * 58 + MapBase58(s[p]) < Pow(256, size)
  {
    hide Pow, Number, MapBase58;
    MapInverse(s[p]);
    var t := s[from..p + 1];
    assert t == s[from..p] + [s[p]];
    assert AllDigits(t);
    var d := Values(t);
    assert d[..|d| - 1] == Values(s[from..p]) && d[..|d|] == d;
    NextNumber(d, |d| - 1, 58);
    RoomLeft(d, |d|, 58, 256, size);
  }

  /** The text up to its '1's, as `DecodeBody` splits it. */
  lemma Split(s: string, start: nat, from: nat, k: nat)
    requires start == Start(s) && start <= from <= k < |s| && !IsSpace(s[k])
    requires (forall i :: start <= i < from ==> s[i] == '1') && s[from] != '1'
    ensures k < End(s) && Trim(s) == s[start..End(s)] && Leading(Trim(s), '1') == from - start
    ensures Trim(s)[from - start..] == s[from..End(s)]
  {
    hide Trim, Start, End, IsSpace, Leading;
    TrimCovers(s, k);
    LeadingIs(Trim(s), '1', from - start);
  }

  lemma {:induction false} LeadingAtLeast(s: string, x: char, n: nat)
    requires n <= |s| && forall i :: 0 <= i < n ==> s[i] == x
    ensures Leading(s, x) >= n
  {
    if n > 0 {
      LeadingAtLeast(s[1..], x, n - 1);
    }
  }

  lemma TooManyOnes(s: string, start: nat, n: nat, maxLen: int)
    requires start == Start(s) && 0 < n && start + n <= |s| && n > maxLen
    requires forall i :: start <= i < start + n ==> s[i] == '1'
    ensures DecodeOf(s, maxLen) == None
  {
    hide Digits, Number, Trim, Start, End, IsSpace, Leading;
    OneIsNoSpace();
    TrimCovers(s, start + n - 1);
    LeadingAtLeast(Trim(s), '1', n);
  }

  /** Anything but a digit before the last character that is not a space spoils the text. */
  lemma BadCharacter(s: string, start: nat, from: nat, bad: nat, last: nat, maxLen: int)
    requires start == Start(s) && start <= from <= bad <= last < |s| && !IsSpace(s[last])
    requires (forall i :: start <= i < from ==> s[i] == '1') && s[from] != '1' && MapBase58(s[bad]) == -1
    ensures DecodeOf(s, maxLen) == None
  {
    hide Digits, Number, MapBase58, Trim, IsSpace, Leading, Start, End, Values;
    Split(s, start, from, last);
    assert !AllDigits(s[from..End(s)]) by {
      assert s[from..End(s)][bad - from] == s[bad];
    }
  }

  lemma TooLong(s: string, start: nat, from: nat, q: nat, v: nat, maxLen: int)
    requires start == Start(s) && start <= from < q && BodySoFar(s, from, q, v)
    requires (forall i :: start <= i < from ==> s[i] == '1') && s[from] != '1'
    requires from - start + |Digits(v, 256)| > maxLen
    ensures DecodeOf(s, maxLen) == None
  {
    hide Digits, Number, Trim, Leading, Start, End, IsSpace, MapBase58;
    Split(s, start, from, q - 1);
    var rest := s[from..End(s)];
    if AllDigits(rest) {
      Longer(s[from..q], rest);
    }
  }

  /** More digits make no shorter number. */
  lemma Longer(s: string, t: string)
    requires 0 < |s| <= |t| && s == t[..|s|] && AllDigits(s) && AllDigits(t) && s[0] != '1'
    ensures 0 < |Digits(Number(Values(s), 58), 256)| <= |Digits(Number(Values(t), 58), 256)|
  {
    hide Digits, Number, MapBase58;
    var d := Values(t);
    assert d[..|s|] == Values(s);
    NumberPrefix(d, |s|, 58);
    NonzeroFirst(s[0]);
    DigitsOfNumber(Values(s), 58);
    DigitsMono(Number(Values(s), 58), Number(d, 58), 256);
    NumberOfDigits(Number(Values(s), 58), 256);
  }

  lemma NonzeroFirst(c: char)
    requires c != '1'
    ensures MapBase58(c) != 0
  {
  }

  lemma {:induction false} NumberPrefix(s: seq<nat>, k: nat, b: nat)
    requires k <= |s| && b > 0
    ensures Number(s[..k], b) <= Number(s, b)
  {
    if k == |s| {
      assert s[..k] == s;
    } else {
      var t := s[..|s| - 1];
      NumberPrefix(t, k, b);
      assert t[..k] == s[..k];
      Times(1, b, Number(t, b));
    }
  }

  lemma {:induction false} DigitsMono(v: nat, w: nat, b: nat)
    requires v <= w && b >= 2
    ensures |Digits(v, b)| <= |Digits(w, b)|
  {
    if v > 0 {
      Quotient(v, b);
      Quotient(w, b);
      QuotientMono(v, w, b);
      DigitsMono(v / b, w / b, b);
    }
  }

  lemma QuotientMono(v: nat, w: nat, b: nat)
    requires v <= w && b >= 2
    ensures v / b <= w / b
  {
    assert v == v / b * b + v % b && w == w / b * b + w % b;
    if v / b > w / b {
      WordMath.MulMono(w / b + 1, v / b, b);
    }
  }

  lemma Decoded(s: string, start: nat, from: nat, end: nat, v: nat)
    requires start == Start(s) && start <= from <= end && BodySoFar(s, from, end, v)
    requires (forall i :: start <= i < from ==> s[i] == '1') && (from < |s| ==> s[from] != '1')
    requires forall i :: end <= i < |s| ==> IsSpace(s[i])
    ensures AreDigits(Digits(v, 256), 256)
    ensures DecodeBody(Trim(s)) == Some(Repeat(0, from - start) + Bytes(Digits(v, 256)))
  {
    hide Digits, Number;
    NumberOfDigits(v, 256);
    if start == end {
      EmptyTrim(s);
      assert s[from..end] == [];
    } else {
      TrimCovers(s, end - 1);
      assert End(s) == end;
      LeadingIs(Trim(s), '1', from - start);
      assert Trim(s)[from - start..] == s[from..end];
    }
  }

  lemma EmptyTrim(s: string)
    requires Start(s) == |s|
    ensures Trim(s) == []
  {
  }

  // ---------------------------------------------------------------- round trips

  lemma LettersInverse(d: seq<nat>)
    requires AreDigits(d, 58)
    ensures AllDigits(Letters(d)) && Values(Letters(d)) == d
    ensures forall i :: 0 <= i < |d| ==> !IsSpace(Letters(d)[i]) && Letters(d)[i] != '\0'
    ensures d != [] && d[0] != 0 ==> Letters(d)[0] != '1'
  {
    hide MapBase58, IsSpace;
    forall i | 0 <= i < |d|
      ensures MapBase58(Letters(d)[i]) == d[i] && !IsSpace(Letters(d)[i]) && Letters(d)[i] != '\0'
      ensures Letters(d)[i] == '1' <==> d[i] == 0
    {
      AlphabetInverse(d[i]);
    }
  }

  /** An encoded text: no space or NUL anywhere, and its leading '1's are the leading zero bytes. */
  lemma EncodedShape(x: seq<Byte>)
    ensures var z := Leading(x, 0); var v := Number(x[z..], 256);
            && AreDigits(Digits(v, 58), 58)
            && EncodeOf(x) == Repeat('1', z) + Letters(Digits(v, 58))
            && Leading(EncodeOf(x), '1') == z
            && EncodeOf(x)[z..] == Letters(Digits(v, 58))
    ensures forall c :: c in EncodeOf(x) ==> !IsSpace(c) && c != '\0'
  {
    hide Digits, Number, MapBase58, IsSpace, ALPHABET;
    var z := Leading(x, 0);
    var v := Number(x[z..], 256);
    NumberOfDigits(v, 58);
    LettersInverse(Digits(v, 58));
    OneIsNoSpace();
    EmptyDigits();
    LeadingIs(EncodeOf(x), '1', z);
  }

  lemma OneIsNoSpace()
    ensures !IsSpace('1')
  {
  }

  lemma EmptyDigits()
    ensures Digits(0, 58) == [] && Digits(0, 256) == []
  {
  }

  lemma NothingToTrim(s: string)
    requires forall c :: c in s ==> !IsSpace(c)
    ensures Trim(s) == s
  {
    if s != [] {
      assert s[0] in s && s[|s| - 1] in s;
      assert s[0..|s|] == s;
    }
  }

  /** Decoding an encoding gives the bytes back, exactly when they are not longer than allowed. */
  lemma RoundTrip(x: seq<Byte>, maxLen: int)
    ensures DecodeOf(EncodeOf(x), maxLen) == if x == [] || |x| <= maxLen then Some(x) else None
  {
    hide Digits, Number, MapBase58, IsSpace, EncodeOf, Trim, AllDigits;
    var s, z := EncodeOf(x), Leading(x, 0);
    var rest := x[z..];
    EncodedShape(x);
    NothingToTrim(s);
    NumberOfDigits(Number(rest, 256), 58);
    LettersInverse(Digits(Number(rest, 256), 58));
    DigitsOfNumber(rest, 256);
    assert Repeat(0, z) + rest == x;
  }

  /** Encoding what a text decodes to gives the text back without the spaces around it. */
  lemma Reencode(s: string, maxLen: int)
    requires DecodeOf(s, maxLen).Some?
    ensures EncodeOf(DecodeOf(s, maxLen).value) == Trim(s)
  {
    hide Digits, Number, MapBase58, IsSpace, Trim, ALPHABET, Letters, Leading;
    var body, x := Trim(s), DecodeOf(s, maxLen).value;
    var z := Leading(body, '1');
    var rest := body[z..];
    var d := Values(rest);
    var v := Number(d, 58);
    NumberOfDigits(v, 256);
    EmptyDigits();
    LeadingIs(x, 0, z);
    assert x[z..] == Digits(v, 256);
    if rest != [] {
      NonzeroFirst(rest[0]);
    }
    DigitsOfNumber(d, 58);
    ValuesInverse(rest);
    assert x[..z] == Repeat(0, z);
    assert Repeat('1', z) + rest == body;
  }

  lemma ValuesInverse(s: string)
    requires AllDigits(s)
    ensures Letters(Values(s)) == s
  {
    hide MapBase58;
    forall i | 0 <= i < |s| ensures 0 <= MapBase58(s[i]) < 58 && ALPHABET[MapBase58(s[i])] == s[i] {
      MapInverse(s[i]);
    }
  }
}
