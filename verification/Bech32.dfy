/**
 Bech32 and Bech32m text: a readable part, a separator, and five-bit values ending in six
 checksum values.
 */
module Bech32 {
  import opened Wrappers
  import opened Bech32Code

  const CHECKSUM_SIZE: nat := 6
  const SEPARATOR: char := '1'

  datatype Encoding = INVALID | BECH32 | BECH32M

  datatype DecodeResult = DecodeResult(encoding: Encoding, hrp: string, data: seq<Symbol>)

  const FAILED := DecodeResult(INVALID, "", [])

  function Charset(v: Symbol): char {
    if v == 0 then 'q' else if v == 1 then 'p' else if v == 2 then 'z' else if v == 3 then 'r' else
    if v == 4 then 'y' else if v == 5 then '9' else if v == 6 then 'x' else if v == 7 then '8' else
    if v == 8 then 'g' else if v == 9 then 'f' else if v == 10 then '2' else if v == 11 then 't' else
    if v == 12 then 'v' else if v == 13 then 'd' else if v == 14 then 'w' else if v == 15 then '0' else
    if v == 16 then 's' else if v == 17 then '3' else if v == 18 then 'j' else if v == 19 then 'n' else
    if v == 20 then '5' else if v == 21 then '4' else if v == 22 then 'k' else if v == 23 then 'h' else
    if v == 24 then 'c' else if v == 25 then 'e' else if v == 26 then '6' else if v == 27 then 'm' else
    if v == 28 then 'u' else if v == 29 then 'a' else if v == 30 then '7' else 'l'
  }

  function LowerCase(c: char): char {
    if 'A' <= c <= 'Z' then (c as int + 32) as char else c
  }

  function CharsetLower(c: char): Option<Symbol> {
    if c == 'q' then Some(0) else if c == 'p' then Some(1) else if c == 'z' then Some(2) else
    if c == 'r' then Some(3) else if c == 'y' then Some(4) else if c == '9' then Some(5) else
    if c == 'x' then Some(6) else if c == '8' then Some(7) else if c == 'g' then Some(8) else
    if c == 'f' then Some(9) else if c == '2' then Some(10) else if c == 't' then Some(11) else
    if c == 'v' then Some(12) else if c == 'd' then Some(13) else if c == 'w' then Some(14) else
    if c == '0' then Some(15) else if c == 's' then Some(16) else if c == '3' then Some(17) else
    if c == 'j' then Some(18) else if c == 'n' then Some(19) else if c == '5' then Some(20) else
    if c == '4' then Some(21) else if c == 'k' then Some(22) else if c == 'h' then Some(23) else
    if c == 'c' then Some(24) else if c == 'e' then Some(25) else if c == '6' then Some(26) else
    if c == 'm' then Some(27) else if c == 'u' then Some(28) else if c == 'a' then Some(29) else
    if c == '7' then Some(30) else if c == 'l' then Some(31) else None
  }

  /** The value a character of either case stands for. */
  function CharsetRev(c: char): Option<Symbol> {
    CharsetLower(LowerCase(c))
  }

  lemma CharsetShape(v: Symbol)
    ensures Charset(v) != SEPARATOR && 33 <= Charset(v) as int <= 126 && !('A' <= Charset(v) <= 'Z')
  {
  }

  lemma LowerInverse(v: Symbol)
    ensures CharsetLower(Charset(v)) == Some(v)
  {
  }

  lemma CharsetInverse(v: Symbol)
    ensures CharsetRev(Charset(v)) == Some(v)
  {
    hide Charset, CharsetLower;
    CharsetShape(v);
    LowerInverse(v);
  }

  lemma RevInverse(c: char)
    requires CharsetLower(c).Some?
    ensures Charset(CharsetLower(c).value) == c
  {
  }

  function EncodingConstant(encoding: Encoding): bv32
    requires encoding != INVALID
  {
    if encoding == BECH32 then 1 else 0x2bc8_30a3
  }

  function EncodingPoly(encoding: Encoding): Poly
    requires encoding != INVALID
  {
    if encoding == BECH32 then ONE else Poly(21, 28, 16, 12, 5, 3)
  }

  lemma ConstantIsPoly(encoding: Encoding)
    requires encoding != INVALID
    ensures EncodingConstant(encoding) == Pack(EncodingPoly(encoding))
  {
  }
}
