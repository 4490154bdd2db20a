/**
 Base 58 text for byte strings: the digit-by-digit conversion in a buffer of fixed size, proved
 against the definition by quotients and remainders, and the two round trips.
 */
module Base58 {
  import opened Wrappers
  import opened Radix
  import WordMath

  type Byte = x: int | 0 <= x < 256

  /** The characters from `first` to `last`. */
  function Run(first: char, last: char): string
    requires first <= last <= 'z'
  {
    seq(last as int - first as int + 1, i requires 0 <= i <= last as int - first as int => (first as int + i) as char)
  }

  /** All letters and digits except 0, I, O and l. */
  const ALPHABET: string :=
    Run('1', '9') + Run('A', 'H') + Run('J', 'N') + Run('P', 'Z') + Run('a', 'k') + Run('m', 'z')

  /** The digit a character stands for, or -1. */
  function MapBase58(c: char): int {
    var x := c as int;
    if 49 <= x <= 57 then x - 49
    else if 65 <= x <= 72 then x - 56
    else if 74 <= x <= 78 then x - 57
    else if 80 <= x <= 90 then x - 58
    else if 97 <= x <= 107 then x - 64
    else if 109 <= x <= 122 then x - 65
    else -1
  }

  predicate IsSpace(c: char) {
    c == ' ' || 9 <= c as int <= 13
  }

  // ---------------------------------------------------------------- what is computed

  function Leading<T(==)>(s: seq<T>, x: T): (n: nat)
    ensures n <= |s| && (forall i :: 0 <= i < n ==> s[i] == x) && (n < |s| ==> s[n] != x)
  {
    if s != [] && s[0] == x then 1 + Leading(s[1..], x) else 0
  }

  function Repeat<T>(x: T, n: nat): (s: seq<T>)
    ensures |s| == n && forall i :: 0 <= i < n ==> s[i] == x
  {
    seq(n, _ => x)
  }

  function Letters(d: seq<nat>): (s: string)
    requires AreDigits(d, 58)
    ensures |s| == |d|
  {
    seq(|d|, i requires 0 <= i < |d| => ALPHABET[d[i]])
  }

  predicate AllDigits(s: string) {
    forall i :: 0 <= i < |s| ==> MapBase58(s[i]) != -1
  }

  function Values(s: string): (d: seq<nat>)
    requires AllDigits(s)
    ensures |d| == |s| && AreDigits(d, 58)
  {
    seq(|s|, i requires 0 <= i < |s| => MapBase58(s[i]))
  }

  function Bytes(d: seq<nat>): (s: seq<Byte>)
    requires AreDigits(d, 256)
  {
    d
  }

  /** A '1' for each leading zero byte, then the digits of the rest as one number. */
  function EncodeOf(input: seq<Byte>): string {
    var zeroes := Leading(input, 0);
    var d := Digits(Number(input[zeroes..], 256), 58);
    NumberOfDigits(Number(input[zeroes..], 256), 58);
    Repeat('1', zeroes) + Letters(d)
  }

  function Start(s: string): (k: nat)
    ensures k <= |s| && (forall i :: 0 <= i < k ==> IsSpace(s[i])) && (k < |s| ==> !IsSpace(s[k]))
  {
    if s != [] && IsSpace(s[0]) then 1 + Start(s[1..]) else 0
  }

  function End(s: string): (k: nat)
    ensures k <= |s| && (forall i :: k <= i < |s| ==> IsSpace(s[i])) && (k > 0 ==> !IsSpace(s[k - 1]))
  {
    if s != [] && IsSpace(s[|s| - 1]) then End(s[..|s| - 1]) else |s|
  }

  /** The text without the spaces around it. */
  function Trim(s: string): string {
    if Start(s) <= End(s) then s[Start(s)..End(s)] else []
  }

  /** What a text without surrounding spaces stands for. */
  function DecodeBody(body: string): Option<seq<Byte>> {
    var zeroes := Leading(body, '1');
    if AllDigits(body[zeroes..]) then
      var v := Number(Values(body[zeroes..]), 58);
      NumberOfDigits(v, 256);
      Some(Repeat(0, zeroes) + Bytes(Digits(v, 256)))
    else None
  }

  function DecodeOf(str: string, maxLen: int): Option<seq<Byte>> {
    if '\0' in str then None
    else
      match DecodeBody(Trim(str))
      case None => None
      case Some(r) => if r == [] || |r| <= maxLen then Some(r) else None
  }

  // ---------------------------------------------------------------- the alphabet

  /** Space, tab, line feed, vertical tab, form feed and carriage return. */
  lemma SpacesAre(c: char)
    ensures IsSpace(c) <==> c as int in {32, 9, 10, 11, 12, 13}
  {
  }

  /** The alphabet, run by run. */
  lemma AlphabetRuns(d: nat)
    requires d < 58
    ensures ALPHABET[d] as int ==
            d + (if d < 9 then 49 else if d < 17 then 56 else if d < 22 then 57 else if d < 33 then 58
                 else if d < 44 then 64 else 65)
  {
  }

  /** The alphabet is in ascending order, and is all letters and digits except 0, I, O and l. */
  lemma AlphabetIs(c: char)
    ensures |ALPHABET| == 58 && forall i, j :: 0 <= i < j < 58 ==> ALPHABET[i] < ALPHABET[j]
    ensures c in ALPHABET <==>
            ('0' <= c <= '9' || 'A' <= c <= 'Z' || 'a' <= c <= 'z') && c != '0' && c != 'I' && c != 'O' && c != 'l'
  {
    forall i, j | 0 <= i < j < 58 ensures ALPHABET[i] < ALPHABET[j] {
      AlphabetRuns(i);
      AlphabetRuns(j);
    }
    if c in ALPHABET {
      var d :| 0 <= d < |ALPHABET| && ALPHABET[d] == c;
      AlphabetRuns(d);
    } else if MapBase58(c) != -1 {
      MapInverse(c);
    }
  }

  lemma AlphabetInverse(d: nat)
    requires d < 58
    ensures MapBase58(ALPHABET[d]) == d && (ALPHABET[d] == '1' <==> d == 0)
    ensures !IsSpace(ALPHABET[d]) && ALPHABET[d] != '\0'
  {
    AlphabetRuns(d);
  }

  lemma MapInverse(c: char)
    requires MapBase58(c) != -1
    ensures 0 <= MapBase58(c) < 58 && ALPHABET[MapBase58(c)] == c
  {
    AlphabetRuns(MapBase58(c));
  }

  // ---------------------------------------------------------------- the buffer

  /** The buffer holds the number `v` in its last `length` places, the first of them not zero. */
  ghost predicate Holds(s: seq<nat>, base: nat, length: nat, v: nat) {
    && AreDigits(s, base) && Number(s, base) == v && length <= |s|
    && (forall k :: 0 <= k < |s| - length ==> s[k] == 0)
    && (length > 0 ==> s[|s| - length] != 0)
  }

  /** Those last places are the number's digits. */
  lemma HeldDigits(s: seq<nat>, base: nat, length: nat, v: nat)
    requires base >= 2 && Holds(s, base, length, v)
    ensures length <= |s| && |Digits(v, base)| == length && s[|s| - length..] == Digits(v, base)
  {
    LeadingZeros(s, |s| - length, base);
    DigitsOfNumber(s[|s| - length..], base);
  }

  lemma {:induction false} EmptyHolds(s: seq<nat>, base: nat)
    requires base > 0 && forall k :: 0 <= k < |s| ==> s[k] == 0
    ensures Holds(s, base, 0, 0)
  {
    LeadingZeros(s, |s|, base);
  }

  /**
   Multiplies the number in the buffer by `factor` and adds `digit`, from the last place up.
   Nothing is left to carry when the buffer has room for the result.
   */
  method MulAdd(buf: array<Byte>, base: nat, factor: nat, digit: nat, length: nat, ghost v: nat) returns (newLength: nat)
    requires 2 <= base <= 256 && digit < factor && Holds(buf[..], base, length, v)
    requires v * factor + digit < Pow(base, buf.Length)
    modifies buf
    ensures Holds(buf[..], base, newLength, v * factor + digit)
  {
    hide Number, Pow, Holds, LowPlaces;
    ghost var was := buf[..];
    HoldsFacts(was, base, length, v);
    HoldsTop(was, base, length, v);
    var n, carry, i := buf.Length, digit, 0;
    LowStart(was, base, factor, digit);
    while (carry != 0 || i < length) && i != n
      invariant 0 <= i <= n && 0 <= carry < factor && AreDigits(buf[..], base)
      invariant forall k :: 0 <= k < n - i ==> buf[k] == was[k]
      invariant LowPlaces(was, buf[..], base, i, carry, factor, digit)
      invariant i > length ==> carry != 0 || buf[n - i] != 0
      invariant i == length && 0 < i && carry == 0 ==> buf[n - i] != 0
      decreases n - i
    {
      ghost var before, c := buf[..], carry;
      CarryBound(c, factor, was[n - 1 - i], base);
      carry := carry + factor * buf[n - 1 - i];
      buf[n - 1 - i] := carry % base;
      carry := carry / base;
      LowNext(was, before, buf[..], base, i, c, factor, digit);
      i := i + 1;
    }
    newLength := i;
    NoCarry(was, buf[..], base, length, i, carry, factor, digit, v);
    assert carry == 0;
    NewHolds(was, buf[..], base, length, i, v, factor, digit);
  }

  /** The last `i` places and the carry account for the last `i` places of the old number. */
  ghost predicate LowPlaces(was: seq<nat>, s: seq<nat>, base: nat, i: nat, carry: nat, factor: nat, digit: nat) {
    i <= |s| == |was| &&
    Number(s[|s| - i..], base) + carry * Pow(base, i) == Number(was[|s| - i..], base) * factor + digit
  }

  lemma LowStart(was: seq<nat>, base: nat, factor: nat, digit: nat)
    ensures LowPlaces(was, was, base, 0, digit, factor, digit)
  {
  }

  lemma LowNext(was: seq<nat>, before: seq<nat>, s: seq<nat>, base: nat, i: nat, c: nat, factor: nat, digit: nat)
    requires base >= 2 && i < |s| == |before| && LowPlaces(was, before, base, i, c, factor, digit)
    requires var k := |s| - 1 - i; var x := c + factor * was[k];
             before[k] == was[k] && s == before[k := x % base] && x / base >= 0
    ensures LowPlaces(was, s, base, i + 1, (c + factor * was[|s| - 1 - i]) / base, factor, digit)
  {
    hide Number;
    var k := |s| - 1 - i;
    assert s[k..] == [s[k]] + before[k + 1..] && was[k..] == [was[k]] + was[k + 1..];
    NumberCons(s[k], before[k + 1..], base);
    NumberCons(was[k], was[k + 1..], base);
    PlaceStep(Number(before[k + 1..], base), Number(was[k + 1..], base), c, factor, was[k], base, Pow(base, i), digit);
  }

  lemma NoCarry(was: seq<nat>, s: seq<nat>, base: nat, length: nat, i: nat, carry: nat, factor: nat, digit: nat, v: nat)
    requires LowPlaces(was, s, base, i, carry, factor, digit) && Holds(was, base, length, v)
    requires carry == 0 || i == |s|
    requires v * factor + digit < Pow(base, |s|)
    ensures carry == 0
  {
    hide Number, Pow;
    if carry > 0 {
      assert was[0..] == was;
      Times(1, carry, Pow(base, i));
    }
  }

  lemma HoldsFacts(s: seq<nat>, base: nat, length: nat, v: nat)
    requires Holds(s, base, length, v)
    ensures AreDigits(s, base) && Number(s, base) == v && length <= |s|
    ensures forall k :: 0 <= k < |s| - length ==> s[k] == 0
  {
  }

  lemma HoldsTop(s: seq<nat>, base: nat, length: nat, v: nat)
    requires Holds(s, base, length, v)
    ensures length > 0 ==> s[|s| - length] != 0
  {
  }

  /** The carry out of a place stays below the factor. */
  lemma CarryBound(c: nat, factor: nat, d: nat, base: nat)
    requires base >= 2 && c < factor && d < base
    ensures 0 <= (c + factor * d) / base < factor
    ensures (c + factor * d) / base == 0 ==> (c + factor * d) % base == c + factor * d
    ensures d > 0 ==> c + factor * d > 0
    ensures c > 0 ==> c + factor * d > 0
    ensures 0 <= (c + factor * d) % base < base
  {
    var x := c + factor * d;
    Times(d + 1, base, factor);
    WordMath.MulMono(0, d, factor);
    var q := x / base;
    assert x == q * base + x % base;
    if q >= factor {
      Times(factor, q, base);
    }
    if q < 0 {
      WordMath.MulMono(q, -1, base);
    }
  }

  lemma PlaceStep(v: nat, w: nat, c: nat, factor: nat, d: nat, base: nat, p: nat, digit: nat)
    requires base >= 2 && v + c * p == w * factor + digit
    ensures var x := c + factor * d;
            (x % base) * p + v + (x / base) * (base * p) == (d * p + w) * factor + digit
  {
    var x := c + factor * d;
    PlaceArithmetic(x % base, x / base, base, p, x);
    assert x * p == c * p + d * p * factor by {
      assert (c + factor * d) * p == c * p + factor * d * p;
      assert factor * d * p == d * p * factor;
    }
    assert (d * p + w) * factor == d * p * factor + w * factor;
  }

  lemma PlaceArithmetic(r: int, q: int, base: int, p: int, x: int)
    requires x == q * base + r
    ensures r * p + q * (base * p) == x * p
  {
    assert q * (base * p) == q * base * p;
    assert (q * base + r) * p == q * base * p + r * p;
  }

  lemma NewHolds(was: seq<nat>, s: seq<nat>, base: nat, length: nat, i: nat, v: nat, factor: nat, digit: nat)
    requires Holds(was, base, length, v) && LowPlaces(was, s, base, i, 0, factor, digit)
    requires length <= i && AreDigits(s, base)
    requires forall k :: 0 <= k < |s| - i ==> s[k] == was[k]
    requires i > 0 ==> s[|s| - i] != 0
    ensures Holds(s, base, i, v * factor + digit)
  {
    hide Number, Pow;
    LeadingZeros(s, |s| - i, base);
    LeadingZeros(was, |s| - i, base);
  }
}
