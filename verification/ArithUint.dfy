/**
 The fixed-width unsigned integer: an array of 32-bit words updated in place.  Every operation
 is proved to be the integer operation modulo two to the number of bits.  An operand may be the
 very object that is changed.
 */
module ArithUint {
  import opened WordMath
  import opened ArithShift

  datatype Status = Ok | DivisionByZero

  class BaseUint {
    const pn: array<Word>

    /** At least one word; what deals with 64-bit values asks for two. */
    ghost predicate Valid() {
      pn.Length >= 1
    }

    /** The number held. */
    ghost function Value(): (v: nat)
      reads pn
      ensures v < Modulus()
    {
      Val(pn[..], pn.Length)
    }

    ghost function Modulus(): nat {
      Weight(pn.Length)
    }

    constructor Zero(width: nat)
      requires width >= 1
      ensures Valid() && fresh(pn) && pn.Length == width && Value() == 0
      ensures forall j :: 0 <= j < width ==> pn[j] == 0
    {
      pn := new Word[width](_ => 0);
      new;
      ZeroBelow(pn[..], width);
    }

    constructor Copy(b: BaseUint)
      requires b.Valid()
      ensures Valid() && fresh(pn) && pn[..] == b.pn[..]
    {
      pn := new Word[b.pn.Length](i requires 0 <= i < b.pn.Length reads b.pn => b.pn[i]);
    }

    method Assign(b: BaseUint)
      requires Valid() && b.Valid() && b.pn.Length == pn.Length
      modifies pn
      ensures pn[..] == old(b.pn[..])
    {
      for i := 0 to pn.Length
        invariant forall j :: i <= j < pn.Length ==> b.pn[j] == old(b.pn[j])
        invariant forall j :: 0 <= j < i ==> pn[j] == old(b.pn[j])
      {
        pn[i] := b.pn[i];
      }
    }

    method AssignWord(b: DoubleWord)
      requires Valid() && pn.Length >= 2
      modifies pn
      ensures Value() == b
      ensures pn[0] == b % BASE && pn[1] == b / BASE && forall j :: 2 <= j < pn.Length ==> pn[j] == 0
    {
      pn[0] := b % BASE;
      pn[1] := b / BASE;
      for i := 2 to pn.Length
        invariant pn[0] == b % BASE && pn[1] == b / BASE
        invariant forall j :: 2 <= j < i ==> pn[j] == 0
      {
        pn[i] := 0;
      }
      ZeroAbove(pn[..], 2, pn.Length);
      TwoWords(pn[..]);
    }

    function GetLow64(): (r: DoubleWord)
      requires Valid() && pn.Length >= 2
      reads pn
      ensures r == Value() % (BASE * BASE)
    {
      LowFits(pn[0], pn[1]);
      LowWords(pn[..], pn.Length);
      Or(pn[0], pn[1] * BASE)
    }

    // -------------------------------------------------------------- sums

    method Add(b: BaseUint)
      requires Valid() && b.Valid() && b.pn.Length == pn.Length
      modifies pn
      ensures Value() == (old(Value()) + old(b.Value())) % Modulus()
    {
      hide Val, Weight;
      ghost var x, y := pn[..], b.pn[..];
      var carry: DoubleWord := 0;
      ValEmpty(x); ValEmpty(y); ValEmpty(pn[..]);
      for i := 0 to pn.Length
        invariant carry <= 1
        invariant forall k :: i <= k < pn.Length ==> pn[k] == x[k]
        invariant forall k :: i <= k < pn.Length ==> b.pn[k] == y[k]
        invariant Val(pn[..], i) + carry * Weight(i) == Val(x, i) + Val(y, i)
      {
        ghost var before, c := pn[..], carry;
        var n: DoubleWord := carry + pn[i] + b.pn[i];
        pn[i] := n % BASE;
        carry := n / BASE;
        ValPrefix(before, pn[..], i);
        ValNext(pn[..], i); ValNext(x, i); ValNext(y, i);
        CarryStep(Val(pn[..], i), n % BASE, n / BASE, c, Weight(i), x[i] as int + y[i]);
        Distribute2(x[i], y[i], Weight(i));
      }
      DivModUnique(Val(x, |x|) + Val(y, |x|), Weight(|x|), carry, Val(pn[..], |x|));
    }

    /** Bitwise complement, into a new number. */
    method Not() returns (ret: BaseUint)
      requires Valid()
      ensures ret.Valid() && fresh(ret) && fresh(ret.pn) && ret.pn.Length == pn.Length
      ensures ret.Value() == Modulus() - 1 - Value()
    {
      ret := new BaseUint.Zero(pn.Length);
      for i := 0 to pn.Length
        invariant forall k :: 0 <= k < i ==> ret.pn[k] == BASE - 1 - pn[k]
      {
        ret.pn[i] := BASE - 1 - pn[i];
      }
      Complement(pn[..], ret.pn[..], pn.Length);
    }

    method Increment()
      requires Valid()
      modifies pn
      ensures Value() == (old(Value()) + 1) % Modulus()
    {
      hide Val, Weight;
      ghost var x := pn[..];
      ValEmpty(x); ValEmpty(pn[..]);
      var i := 0;
      while i < pn.Length
        invariant 0 <= i <= pn.Length
        invariant forall k :: i <= k < pn.Length ==> pn[k] == x[k]
        invariant Val(pn[..], i) + Weight(i) == Val(x, i) + 1
      {
        ghost var before := pn[..];
        pn[i] := (pn[i] + 1) % BASE;
        ValPrefix(before, pn[..], i);
        ValNext(pn[..], i); ValNext(x, i);
        UpOne(x[i], Weight(i));
        if pn[i] != 0 {
          ValSame(pn[..], x, i + 1, |x|);
          DivModUnique(Val(x, |x|) + 1, Weight(|x|), 0, Val(pn[..], |x|));
          return;
        }
        i := i + 1;
      }
      DivModUnique(Val(x, |x|) + 1, Weight(|x|), 1, Val(pn[..], |x|));
    }

    method Decrement()
      requires Valid()
      modifies pn
      ensures Value() == (old(Value()) - 1) % Modulus()
    {
      hide Val, Weight;
      ghost var x := pn[..];
      ValEmpty(x); ValEmpty(pn[..]);
      var i := 0;
      while i < pn.Length
        invariant 0 <= i <= pn.Length
        invariant forall k :: i <= k < pn.Length ==> pn[k] == x[k]
        invariant Val(pn[..], i) == Val(x, i) - 1 + Weight(i)
      {
        ghost var before := pn[..];
        pn[i] := (pn[i] - 1) % BASE;
        ValPrefix(before, pn[..], i);
        ValNext(pn[..], i); ValNext(x, i);
        DownOne(x[i], Weight(i));
        if pn[i] != BASE - 1 {
          ValSame(pn[..], x, i + 1, |x|);
          DivModUnique(Val(x, |x|) - 1, Weight(|x|), 0, Val(pn[..], |x|));
          return;
        }
        i := i + 1;
      }
      DivModUnique(Val(x, |x|) - 1, Weight(|x|), -1, Val(pn[..], |x|));
    }

    /** Two's complement negation, into a new number. */
    method Negate() returns (ret: BaseUint)
      requires Valid()
      ensures ret.Valid() && fresh(ret) && fresh(ret.pn) && ret.pn.Length == pn.Length
      ensures ret.Value() == (0 - Value()) % Modulus()
    {
      hide Val, Weight;
      ret := Not();
      ret.Increment();
      NegateMod(Value(), Modulus());
    }

    method Sub(b: BaseUint)
      requires Valid() && b.Valid() && b.pn.Length == pn.Length
      modifies pn
      ensures Value() == (old(Value()) - old(b.Value())) % Modulus()
    {
      hide Val, Weight;
      var minus := b.Negate();
      Add(minus);
      AddMod(old(Value()), 0 - old(b.Value()), Modulus());
    }

    method AddWord(b64: DoubleWord)
      requires Valid() && pn.Length >= 2
      modifies pn
      ensures Value() == (old(Value()) + b64) % Modulus()
    {
      var b := new BaseUint.Zero(pn.Length);
      b.AssignWord(b64);
      Add(b);
    }

    // -------------------------------------------------------------- products

    method MulWord(b32: Word)
      requires Valid()
      modifies pn
      ensures Value() == old(Value()) * b32 % Modulus()
    {
      hide Val, Weight;
      ghost var x := pn[..];
      var carry: DoubleWord := 0;
      ValEmpty(x); ValEmpty(pn[..]);
      for i := 0 to pn.Length
        invariant carry < BASE
        invariant forall k :: i <= k < pn.Length ==> pn[k] == x[k]
        invariant Val(pn[..], i) + carry * Weight(i) == Val(x, i) * b32
      {
        ghost var before, c := pn[..], carry;
        ProductFits(b32, pn[i], carry, 0);
        var n: DoubleWord := carry + b32 * pn[i];
        pn[i] := n % BASE;
        carry := n / BASE;
        ValPrefix(before, pn[..], i);
        ValNext(pn[..], i); ValNext(x, i);
        CarryStep(Val(pn[..], i), n % BASE, n / BASE, c, Weight(i), b32 * x[i]);
        ScaleNext(Val(x, i), x[i], Weight(i), b32);
      }
      DivModUnique(Val(x, |x|) * b32, Weight(|x|), carry, Val(pn[..], |x|));
    }

    method Mul(b: BaseUint)
      requires Valid() && b.Valid() && b.pn.Length == pn.Length
      modifies pn
      ensures Value() == old(Value()) * old(b.Value()) % Modulus()
    {
      hide Val, Weight, Product;
      ghost var x, y := pn[..], b.pn[..];
      var a := new BaseUint.Zero(pn.Length);
      ghost var q: int := 0;
      ValEmpty(x);
      ProductStart(Weight(|x|), Val(y, |x|));
      for j := 0 to pn.Length
        invariant pn[..] == x && b.pn[..] == y
        invariant Product(Val(a.pn[..], |x|), q, Weight(|x|), Val(x, j), Val(y, |x|))
      {
        ghost var before := Val(a.pn[..], |x|);
        ghost var d := a.MulRow(pn[j], j, b);
        q := RowStep(x, y, j, Val(a.pn[..], |x|), before, d, q);
      }
      ProductEnd(Val(a.pn[..], |x|), q, Weight(|x|), Val(x, |x|), Val(y, |x|));
      Assign(a);
    }

    /** The inner loop of the product: adds `digit * b`, shifted by `j` words; `d` is what is lost at the top. */
    method MulRow(digit: Word, j: nat, b: BaseUint) returns (ghost d: nat)
      requires Valid() && b.Valid() && b.pn.Length == pn.Length && b.pn != pn && j < pn.Length
      modifies pn
      ensures Val(pn[..], pn.Length) + d * Modulus()
           == old(Val(pn[..], pn.Length)) + digit * (Weight(j) * Val(b.pn[..], pn.Length - j))
    {
      hide Val, Weight;
      ghost var x, y := pn[..], b.pn[..];
      var carry: DoubleWord := 0;
      ValEmpty(y);
      for i := 0 to pn.Length - j
        invariant carry < BASE
        invariant forall k :: i + j <= k < pn.Length ==> pn[k] == x[k]
        invariant Val(pn[..], i + j) + carry * Weight(i + j) == Val(x, i + j) + digit * (Weight(j) * Val(y, i))
      {
        ghost var before, c := pn[..], carry;
        ProductFits(digit, b.pn[i], carry, pn[i + j]);
        var n: DoubleWord := carry + pn[i + j] + digit * b.pn[i];
        pn[i + j] := n % BASE;
        carry := n / BASE;
        ValPrefix(before, pn[..], i + j);
        ValNext(pn[..], i + j); ValNext(x, i + j); ValNext(y, i);
        WeightAdd(i, j);
        CarryStep(Val(pn[..], i + j), n % BASE, n / BASE, c, Weight(i + j), x[i + j] + digit * y[i]);
        RowDigit(digit, Weight(j), Weight(i), Val(y, i), y[i], x[i + j]);
      }
      d := carry;
    }

    // -------------------------------------------------------------- shifts

    method ShiftLeftBy(shift: nat)
      requires Valid()
      modifies pn
      ensures Value() == old(Value()) * Pow2(shift) % Modulus()
    {
      hide Val, Weight, Pow2, Shl, Shr, LeftWord, Carried, Or;
      var a := new BaseUint.Copy(this);
      for i := 0 to pn.Length
        invariant forall j :: 0 <= j < i ==> pn[j] == 0
        invariant a.pn[..] == old(pn[..])
      {
        pn[i] := 0;
      }
      var k, s := shift / 32, shift % 32;
      ghost var x := a.pn[..];
      LeftStart(x, s);
      LeftBelow(x, k, s);
      for i := 0 to pn.Length
        invariant a.pn[..] == x
        invariant forall j :: 0 <= j < pn.Length && j < k + i ==> pn[j] == LeftWord(x, k, s, j)
        invariant k + i < pn.Length ==> pn[k + i] == Carried(x, s, i)
        invariant forall j :: k + i < j < pn.Length ==> pn[j] == 0
      {
        LeftWordFits(x, s, i);
        LeftWordIs(x, k, s, i);
        if i + k + 1 < pn.Length && s != 0 {
          pn[i + k + 1] := Or(pn[i + k + 1], Shr(a.pn[i], 32 - s));
        }
        if i + k < pn.Length {
          pn[i + k] := Or(pn[i + k], Shl(a.pn[i], s));
        }
      }
      LeftTotal(x, pn[..], k, s);
    }

    method ShiftRightBy(shift: nat)
      requires Valid()
      modifies pn
      ensures Value() == old(Value()) / Pow2(shift)
    {
      hide Val, Weight, Pow2, Shl, Shr, RightWord, Or;
      var a := new BaseUint.Copy(this);
      for i := 0 to pn.Length
        invariant forall j :: 0 <= j < i ==> pn[j] == 0
        invariant a.pn[..] == old(pn[..])
      {
        pn[i] := 0;
      }
      var k, s := shift / 32, shift % 32;
      ghost var x := a.pn[..];
      for i := 0 to pn.Length
        invariant a.pn[..] == x
        invariant forall j :: 0 <= j < i - k - 1 ==> pn[j] == RightWord(x, k, s, j)
        invariant 0 <= i - k - 1 ==> pn[i - k - 1] == Shr(x[i - 1], s)
        invariant forall j :: 0 <= j < pn.Length && i - k <= j ==> pn[j] == 0
      {
        RightStepFacts(x, k, s, i);
        if i - k - 1 >= 0 && s != 0 {
          pn[i - k - 1] := Or(pn[i - k - 1], Shl(a.pn[i], 32 - s));
        }
        if i - k >= 0 {
          pn[i - k] := Or(pn[i - k], Shr(a.pn[i], s));
        }
      }
      RightEnd(x, k, s);
      RightTotal(x, pn[..], k, s);
    }
  
    // -------------------------------------------------------------- comparison and size

    /** The sign of the difference of the two numbers. */
    method CompareTo(b: BaseUint) returns (r: int)
      requires Valid() && b.Valid() && b.pn.Length == pn.Length
      ensures r == (if Value() < b.Value() then -1 else if Value() > b.Value() then 1 else 0)
    {
      hide Val;
      var i := pn.Length - 1;
      while i >= 0
        invariant -1 <= i < pn.Length
        invariant forall k :: i < k < pn.Length ==> pn[k] == b.pn[k]
      {
        if pn[i] < b.pn[i] {
          ValCompare(pn[..], b.pn[..], i);
          ValSame(pn[..], b.pn[..], i + 1, pn.Length);
          return -1;
        }
        if pn[i] > b.pn[i] {
          ValCompare(b.pn[..], pn[..], i);
          ValSame(pn[..], b.pn[..], i + 1, pn.Length);
          return 1;
        }
        i := i - 1;
      }
      ValPrefix(pn[..], b.pn[..], pn.Length);
      return 0;
    }

    method EqualTo(b: DoubleWord) returns (r: bool)
      requires Valid() && pn.Length >= 2
      ensures r <==> Value() == b
    {
      hide Val, Weight;
      var i := pn.Length - 1;
      while i >= 2
        invariant 1 <= i < pn.Length
        invariant forall k :: i < k < pn.Length ==> pn[k] == 0
      {
        if pn[i] != 0 {
          ValGrows(pn[..], i, pn.Length);
          WeightAtLeast(i);
          return false;
        }
        i := i - 1;
      }
      ZeroAbove(pn[..], 2, pn.Length);
      TwoWords(pn[..]);
      if pn[1] != b / BASE {
        return false;
      }
      if pn[0] != b % BASE {
        return false;
      }
      return true;
    }

    /** The position of the highest set bit plus one, or zero. */
    method Bits() returns (r: nat)
      requires Valid()
      ensures r == 0 <==> Value() == 0
      ensures r > 0 ==> Pow2(r - 1) <= Value() < Pow2(r)
      ensures r <= 32 * pn.Length
    {
      hide Val, Weight, Pow2, Shr;
      var pos := pn.Length - 1;
      while pos >= 0
        invariant -1 <= pos < pn.Length
        invariant forall k :: pos < k < pn.Length ==> pn[k] == 0
      {
        if pn[pos] != 0 {
          ZeroAbove(pn[..], pos + 1, pn.Length);
          ValNext(pn[..], pos);
          var nbits := 31;
          WordBelow(pn[pos]);
          while nbits > 0
            invariant 0 <= nbits <= 31 && pn[pos] < Pow2(nbits + 1)
          {
            BitSplit(pn[pos], nbits);
            if Bit(pn[pos], nbits) {
              TopBit(Val(pn[..], pos), pn[pos], pos, nbits);
              return 32 * pos + nbits + 1;
            }
            nbits := nbits - 1;
          }
          OneBit();
          TopBit(Val(pn[..], pos), pn[pos], pos, 0);
          return 32 * pos + 1;
        }
        pos := pos - 1;
      }
      ZeroBelow(pn[..], pn.Length);
      return 0;
    }

    // -------------------------------------------------------------- quotient

    /** Sets a bit of the quotient; it and every lower bit are clear before. */
    method SetBit(shift: nat)
      requires Valid() && shift < 32 * pn.Length && ClearBelow(pn[..], shift + 1)
      modifies pn
      ensures Value() == old(Value()) + Pow2(shift) && ClearBelow(pn[..], shift)
    {
      hide Val, Weight, Pow2, Or, Shl, ClearBelow;
      SetBitFacts(pn[..], shift);
      ghost var s := pn[..];
      pn[shift / 32] := Or(pn[shift / 32], Shl(1, shift % 32));
      assert pn[..] == s[shift / 32 := pn[shift / 32]];
    }

    /** Moves `div` out of `num` and its bit into the quotient. */
    method TakeBit(num: BaseUint, div: BaseUint, shift: nat, ghost v: nat, ghost d: nat)
      requires Valid() && num.Valid() && div.Valid() && pn.Length == num.pn.Length == div.pn.Length
      requires pn != num.pn && num.pn != div.pn && pn != div.pn
      requires shift < 32 * pn.Length && ClearBelow(pn[..], shift + 1)
      requires div.Value() == d * Pow2(shift) <= num.Value() && Divided(v, d, Value(), num.Value())
      modifies pn, num.pn
      ensures num.Value() == old(num.Value()) - div.Value()
      ensures ClearBelow(pn[..], shift) && Divided(v, d, Value(), num.Value())
    {
      hide Val, Weight, Pow2, ClearBelow, Divided;
      TakeOff(v, d, Value(), num.Value(), Pow2(shift));
      SmallMod(num.Value(), div.Value(), Modulus());
      num.Sub(div);
      SetBit(shift);
    }

    /** Shift-and-subtract division; a zero divisor is an error that leaves the number zero. */
    method Div(b: BaseUint) returns (status: Status)
      requires Valid() && b.Valid() && b.pn.Length == pn.Length && pn.Length >= 2
      modifies pn
      ensures status == DivisionByZero <==> old(b.Value()) == 0
      ensures status == Ok ==> Value() == old(Value()) / old(b.Value())
      ensures status == DivisionByZero ==> Value() == 0
    {
      hide Val, Weight, Pow2, ClearBelow, Divided;
      ghost var d, v := b.Value(), Value();
      var div := new BaseUint.Copy(b);
      var num := new BaseUint.Copy(this);
      AssignWord(0);
      var numBits := num.Bits();
      var divBits := div.Bits();
      if divBits == 0 {
        return DivisionByZero;
      }
      if divBits > numBits {
        SmallerBits(v, d, numBits, divBits);
        return Ok;
      }
      var shift := numBits - divBits;
      Aligned(v, d, numBits, divBits, pn.Length);
      div.ShiftLeftBy(shift);
      AllZero(pn[..], shift + 1);
      DivideStart(v, d);
      while shift >= 0
        invariant -1 <= shift < 32 * pn.Length
        invariant shift >= 0 ==> div.Value() == d * Pow2(shift)
        invariant num.Value() < d * Pow2(shift + 1)
        invariant Divided(v, d, Value(), num.Value())
        invariant ClearBelow(pn[..], shift + 1)
      {
        HalfStep(d, shift);
        var c := num.CompareTo(div);
        if c >= 0 {
          TakeBit(num, div, shift, v, d);
        } else {
          StillClear(pn[..], shift);
        }
        div.ShiftRightBy(1);
        shift := shift - 1;
      }
      DivideEnd(v, d, Value(), num.Value());
      return Ok;
    }
  }

  // ---------------------------------------------------------------- size lemmas

  lemma {:induction false} ValGrows(s: seq<Word>, i: nat, n: nat)
    requires i < n <= |s| && s[i] != 0
    ensures Val(s, n) >= Weight(i)
  {
    if n == i + 1 {
      MulMono(1, s[i], Weight(i));
    } else {
      ValGrows(s, i, n - 1);
    }
  }

  lemma WeightAtLeast(i: nat)
    requires i >= 2
    ensures Weight(i) >= BASE * BASE
  {
    WeightAdd(2, i - 2);
    assert Weight(2) == BASE * Weight(1);
    MulMono(1, Weight(i - 2), BASE * BASE);
  }

  lemma WordBelow(x: Word)
    ensures x < Pow2(32)
  {
    Pow2Word();
  }

  lemma OneBit()
    ensures Pow2(0) == 1 && Pow2(1) == 2
  {
  }

  lemma BitSplit(x: nat, n: nat)
    requires x < Pow2(n + 1)
    ensures Bit(x, n) <==> Pow2(n) <= x
  {
    var p := Pow2(n);
    if x < p {
      DivModUnique(x, p, 0, x);
    } else {
      DivModUnique(x, p, 1, x - p);
    }
  }

  /** A word whose top bit is `n`, above a smaller number: where the top bit of the whole is. */
  lemma TopBit(v: nat, x: nat, pos: nat, n: nat)
    requires v < Weight(pos) && Pow2(n) <= x < Pow2(n + 1)
    ensures Pow2(32 * pos + n) <= v + x * Weight(pos) < Pow2(32 * pos + n + 1)
  {
    hide Pow2, Weight;
    WeightPow2(pos);
    Pow2Add(32 * pos, n);
    Pow2Add(32 * pos, n + 1);
    MulMono(Pow2(n), x, Weight(pos));
    MulMono(x + 1, Pow2(n + 1), Weight(pos));
  }

  lemma SmallerBits(v: nat, d: nat, numBits: nat, divBits: nat)
    requires numBits < divBits && Pow2(divBits - 1) <= d
    requires numBits == 0 ==> v == 0
    requires numBits > 0 ==> v < Pow2(numBits)
    ensures v / d == 0
  {
    Pow2Mono(numBits, divBits - 1);
    DivModUnique(v, d, 0, v);
  }

  /** Aligned with the numerator, the divisor still fits, and its double exceeds the numerator. */
  lemma Aligned(v: nat, d: nat, numBits: nat, divBits: nat, width: nat)
    requires 0 < divBits <= numBits <= 32 * width
    requires v < Pow2(numBits) && Pow2(divBits - 1) <= d < Pow2(divBits)
    ensures d * Pow2(numBits - divBits) == d * Pow2(numBits - divBits) % Weight(width)
    ensures v < d * Pow2(numBits - divBits + 1)
  {
    var shift := numBits - divBits;
    Pow2Add(divBits, shift);
    Pow2Add(divBits - 1, shift + 1);
    MulMono(d + 1, Pow2(divBits), Pow2(shift));
    assert (d + 1) * Pow2(shift) == d * Pow2(shift) + Pow2(shift);
    MulMono(Pow2(divBits - 1), d, Pow2(shift + 1));
    WeightPow2(width);
    Pow2Mono(numBits, 32 * width);
    DivModUnique(d * Pow2(shift), Weight(width), 0, d * Pow2(shift));
  }

  lemma SmallMod(a: nat, b: nat, m: nat)
    requires b <= a < m
    ensures (a - b) % m == a - b
  {
    DivModUnique(a - b, m, 0, a - b);
  }

  lemma HalfStep(d: nat, shift: nat)
    ensures d * Pow2(shift + 1) == 2 * (d * Pow2(shift)) && Pow2(1) == 2
    ensures shift > 0 ==> d * Pow2(shift) / 2 == d * Pow2(shift - 1)
  {
    Doubled(d, Pow2(shift));
    if shift > 0 {
      Doubled(d, Pow2(shift - 1));
    }
  }

  lemma Doubled(d: nat, p: nat)
    ensures d * (2 * p) == 2 * (d * p)
  {
  }

  /** The loop's account: the part of the quotient found, and what is left. */
  ghost predicate Divided(v: nat, d: nat, q: nat, rest: nat) {
    v == q * d + rest
  }

  lemma DivideStart(v: nat, d: nat)
    ensures Divided(v, d, 0, v)
  {
  }

  lemma TakeOff(v: nat, d: nat, q: nat, rest: nat, p: nat)
    requires Divided(v, d, q, rest) && d * p <= rest
    ensures Divided(v, d, q + p, rest - d * p)
  {
    Distribute2(q, p, d);
  }

  lemma DivideEnd(v: nat, d: nat, q: nat, rest: nat)
    requires Divided(v, d, q, rest) && rest < d * Pow2(0)
    ensures v / d == q
  {
    DivModUnique(v, d, q, rest);
  }

  /** No bit below position `t` is set. */
  ghost predicate ClearBelow(s: seq<Word>, t: nat) {
    && (forall j :: 0 <= j < t / 32 && j < |s| ==> s[j] == 0)
    && (t / 32 < |s| ==> Mask(s[t / 32], t % 32) == 0)
  }

  lemma AllZero(s: seq<Word>, t: nat)
    requires forall j :: 0 <= j < |s| ==> s[j] == 0
    ensures ClearBelow(s, t)
  {
    DivModUnique(0, Pow2(t % 32), 0, 0);
  }

  lemma MaskDown(x: nat, n: nat)
    requires Mask(x, n + 1) == 0
    ensures Mask(x, n) == 0
  {
    var q := x / Pow2(n + 1);
    assert x == q * Pow2(n + 1);
    Doubled(q, Pow2(n));
    DivModUnique(x, Pow2(n), 2 * q, 0);
  }

  lemma StillClear(s: seq<Word>, shift: nat)
    requires ClearBelow(s, shift + 1)
    ensures ClearBelow(s, shift)
  {
    hide Mask;
    var w := shift / 32;
    if w < |s| {
      if shift % 32 == 31 {
        assert s[w] == 0;
        MaskZero(31);
      } else {
        assert (shift + 1) / 32 == w && (shift + 1) % 32 == shift % 32 + 1;
        MaskDown(s[w], shift % 32);
      }
    }
  }

  lemma MaskZero(n: nat)
    ensures Mask(0, n) == 0
  {
    DivModUnique(0, Pow2(n), 0, 0);
  }

  /** The bit about to be set is clear, so setting it adds its weight. */
  lemma SetBitFacts(s: seq<Word>, shift: nat)
    requires shift < 32 * |s| && ClearBelow(s, shift + 1)
    ensures var w := shift / 32; var x := Or(s[w], Shl(1, shift % 32));
            x < BASE && Val(s[w := x], |s|) == Val(s, |s|) + Pow2(shift) && ClearBelow(s[w := x], shift)
  {
    hide Val, Weight, Pow2, Shl, Mask, Or, ClearBelow;
    var w, n := shift / 32, shift % 32;
    var x := Or(s[w], Shl(1, n));
    TopClear(s, shift);
    SetWordBit(s[w], n);
    var r := s[w := x];
    ClearAfter(s, r, shift);
    ValNext(s, w);
    ValNext(r, w);
    ValPrefix(s, r, w);
    ValSame(s, r, w + 1, |s|);
    WeightPow2(w);
    Pow2Add(32 * w, n);
    Distribute2(s[w], Pow2(n), Weight(w));
  }

  lemma ClearAfter(s: seq<Word>, r: seq<Word>, shift: nat)
    requires shift < 32 * |s| == 32 * |r| && ClearBelow(s, shift + 1)
    requires forall j :: 0 <= j < |s| && j != shift / 32 ==> r[j] == s[j]
    requires Mask(r[shift / 32], shift % 32) == 0
    ensures ClearBelow(r, shift)
  {
    hide Mask;
  }

  lemma TopClear(s: seq<Word>, shift: nat)
    requires shift < 32 * |s| && ClearBelow(s, shift + 1)
    ensures Mask(s[shift / 32], shift % 32 + 1) == 0
  {
    hide Mask;
    if shift % 32 == 31 {
      assert s[shift / 32] == 0;
      MaskZero(32);
    }
  }

  lemma SetWordBit(x: Word, n: nat)
    requires n < 32 && Mask(x, n + 1) == 0
    ensures Or(x, Shl(1, n)) == x + Pow2(n) < BASE
    ensures Mask(x + Pow2(n), n) == 0
  {
    hide Pow2, Or;
    Pow2Word();
    Pow2Add(n, 1);
    OneBit();
    Pow2Add(n + 1, 31 - n);
    var q := x / Pow2(n + 1);
    SetBitFits(x, Pow2(n), Pow2(31 - n), q);
    DivModUnique(Pow2(n), BASE, 0, Pow2(n));
    OrDisjoint(Pow2(n), x, n + 1);
    DivModUnique(x + Pow2(n), Pow2(n), 2 * q + 1, 0);
  }

  lemma SetBitFits(x: nat, p: nat, m: nat, q: nat)
    requires x == q * (2 * p) && (2 * p) * m == BASE && x < BASE && p > 0
    ensures x + p < BASE && x + p == (2 * q + 1) * p
  {
    if q >= m {
      MulMono(m, q, 2 * p);
    }
    MulMono(q + 1, m, 2 * p);
    Doubled(q, p);
  }

  // ---------------------------------------------------------------- step lemmas

  /** The word below the one being read is complete once both halves are in. */
  lemma RightStepFacts(x: seq<Word>, k: nat, s: nat, i: nat)
    requires i < |x| && s < 32
    ensures Or(0, Shr(x[i], s)) == Shr(x[i], s) < BASE
    ensures i - k - 1 >= 0 ==>
              Or(Shr(x[i - 1], s), Shl(x[i], 32 - s)) == Shr(x[i - 1], s) + Shl(x[i], 32 - s) == RightWord(x, k, s, i - k - 1) < BASE
    ensures s == 0 ==> Shl(x[i], 32 - s) == 0
  {
    hide Shr, Pow2;
    if i >= 1 {
      RightWordFits(x, s, i - 1);
    }
    if s == 0 {
      Pow2Word();
    }
  }

  lemma RightEnd(x: seq<Word>, k: nat, s: nat)
    requires s <= 32
    ensures forall j :: 0 <= j < |x| && |x| - k <= j ==> RightWord(x, k, s, j) == 0
    ensures |x| > 0 && |x| - k - 1 >= 0 ==> RightWord(x, k, s, |x| - k - 1) == Shr(x[|x| - 1], s)
  {
    hide Shr, Shl;
  }

  lemma LeftStart(x: seq<Word>, s: nat)
    requires s <= 32
    ensures Carried(x, s, 0) == 0
  {
  }

  lemma LeftBelow(x: seq<Word>, k: nat, s: nat)
    requires s <= 32
    ensures forall j :: 0 <= j < |x| && j < k ==> LeftWord(x, k, s, j) == 0
  {
  }

  lemma LeftWordIs(x: seq<Word>, k: nat, s: nat, i: nat)
    requires s < 32 && i < |x|
    ensures i + k < |x| ==> LeftWord(x, k, s, i + k) == Shl(x[i], s) + Carried(x, s, i)
    ensures Carried(x, s, i + 1) == Shr(x[i], 32 - s) == Or(0, Shr(x[i], 32 - s))
    ensures s == 0 ==> Shr(x[i], 32 - s) == 0
  {
    Pow2Word();
    hide Shl, Pow2;
  }

  lemma Distribute2(x: int, y: int, w: int)
    ensures (x + y) * w == x * w + y * w
  {
  }

  lemma DownOne(x: Word, w: nat)
    ensures x == 0 ==> (x - 1) % BASE == BASE - 1 && (x - 1) % BASE * w == x * w - w + BASE * w
    ensures x != 0 ==> (x - 1) % BASE == x - 1 && (x - 1) % BASE * w == x * w - w
  {
  }

  lemma NegateMod(v: nat, m: nat)
    requires v < m
    ensures (m - 1 - v + 1) % m == (0 - v) % m
  {
    if v == 0 {
      DivModUnique(m, m, 1, 0);
      DivModUnique(0, m, 0, 0);
    } else {
      DivModUnique(m - v, m, 0, m - v);
      DivModUnique(0 - v, m, -1, m - v);
    }
  }

  /** Reducing one term of a sum before the sum is reduced changes nothing. */
  lemma AddMod(a: int, b: int, m: nat)
    requires m > 0
    ensures (a + b % m) % m == (a + b) % m
  {
    var t := a + b % m;
    assert a + b == (t / m + b / m) * m + t % m by {
      assert (t / m + b / m) * m == t / m * m + b / m * m;
    }
    DivModUnique(a + b, m, t / m + b / m, t % m);
  }

  /** The 64-bit intermediate of a product never overflows. */
  lemma ProductFits(a: nat, b: nat, carry: nat, word: nat)
    requires a < BASE && b < BASE && carry < BASE && word < BASE
    ensures carry + word + a * b < BASE * BASE
  {
    MulMono(a, BASE - 1, b);
  }

  lemma ScaleNext(v: nat, x: nat, w: nat, b: nat)
    ensures (v + x * w) * b == v * b + b * x * w
  {
    assert x * w * b == b * x * w;
  }

  lemma RowDigit(digit: nat, wj: nat, wi: nat, v: nat, y: nat, x: nat)
    ensures (x + digit * y) * (wi * wj) == x * (wi * wj) + digit * (wj * (v + y * wi)) - digit * (wj * v)
  {
    assert (x + digit * y) * (wi * wj) == x * (wi * wj) + digit * y * (wi * wj);
    assert wj * (v + y * wi) == wj * v + wj * (y * wi);
    assert digit * (wj * v + wj * (y * wi)) == digit * (wj * v) + digit * (wj * (y * wi));
    assert digit * (wj * (y * wi)) == digit * y * (wi * wj);
  }

  /** `v` is the product of `u` and `t` modulo `m`. */
  ghost predicate Product(v: nat, q: int, m: nat, u: nat, t: nat) {
    v + q * m == u * t
  }

  lemma ProductStart(m: nat, t: nat)
    ensures Product(0, 0, m, 0, t)
  {
  }

  lemma ProductEnd(v: nat, q: int, m: nat, u: nat, t: nat)
    requires Product(v, q, m, u, t) && v < m
    ensures v == u * t % m
  {
    DivModUnique(u * t, m, q, v);
  }

  /** One more row: the words of `y` that fall off the top only add multiples of the modulus. */
  lemma RowStep(x: seq<Word>, y: seq<Word>, j: nat, v: nat, before: nat, d: nat, q: int) returns (q': int)
    requires j < |x| == |y| && Product(before, q, Weight(|x|), Val(x, j), Val(y, |x|))
    requires v + d * Weight(|x|) == before + x[j] * (Weight(j) * Val(y, |x| - j))
    ensures Product(v, q', Weight(|x|), Val(x, j + 1), Val(y, |x|))
  {
    hide Val, Weight;
    ValNext(x, j);
    ValSplit(y, |x| - j, j);
    WeightAdd(|x| - j, j);
    RowArithmetic(v, before, d, q, Val(x, j), x[j], Weight(j), Weight(|x| - j), Val(y, |x| - j), Val(y[|x| - j..], j));
    q' := q + d + x[j] * Val(y[|x| - j..], j);
  }

  lemma RowArithmetic(v: nat, before: nat, d: nat, q: int, u: nat, x: nat, wj: nat, wr: nat, low: nat, high: nat)
    requires v + d * (wr * wj) == before + x * (wj * low)
    requires before + q * (wr * wj) == u * (low + wr * high)
    ensures v + (q + d + x * high) * (wr * wj) == (u + x * wj) * (low + wr * high)
  {
    var m, t := wr * wj, low + wr * high;
    assert (q + d + x * high) * m == q * m + d * m + x * high * m;
    assert (u + x * wj) * t == u * t + x * wj * t;
    assert x * wj * t == x * (wj * low) + x * high * m by {
      assert x * wj * (low + wr * high) == x * wj * low + x * wj * (wr * high);
      assert x * wj * (wr * high) == x * high * (wr * wj);
      assert x * wj * low == x * (wj * low);
    }
  }

  lemma TwoWords(s: seq<Word>)
    requires |s| >= 2
    ensures Val(s, 2) == s[0] + s[1] * BASE
  {
    assert Weight(1) == BASE && Val(s, 1) == s[0];
  }

  lemma LowWords(s: seq<Word>, n: nat)
    requires 2 <= n <= |s|
    ensures s[0] + s[1] * BASE == Val(s, n) % (BASE * BASE)
  {
    hide Val, Weight;
    TwoWords(s);
    ValSplit(s, 2, n - 2);
    WeightTwo();
    DivModUnique(Val(s, n), BASE * BASE, Val(s[2..], n - 2), Val(s, 2));
  }

  lemma WeightTwo()
    ensures Weight(2) == BASE * BASE
  {
    assert Weight(1) == BASE;
  }

  lemma LowFits(a: Word, b: Word)
    ensures Or(a, b * BASE) == a + b * BASE
  {
    Pow2Word();
    OrDisjoint(a, b * BASE, 32);
  }

  /** One step of a carried sum: the word and the new carry hold what the old carry and the digit add to. */
  lemma CarryStep(v: int, word: int, carry: int, c: int, w: int, digit: int)
    requires word + carry * BASE == c + digit
    ensures v + word * w + carry * (BASE * w) == v + c * w + digit * w
  {
    assert (word + carry * BASE) * w == word * w + carry * (BASE * w);
    assert (c + digit) * w == c * w + digit * w;
  }

  lemma UpOne(x: Word, w: nat)
    ensures (x + 1) % BASE == 0 ==> x * w + w == BASE * w
    ensures (x + 1) % BASE != 0 ==> (x + 1) % BASE * w == x * w + w
  {
  }

  lemma {:induction false} Complement(s: seq<Word>, t: seq<Word>, n: nat)
    requires n <= |s| == |t| && forall k :: 0 <= k < n ==> t[k] == BASE - 1 - s[k]
    ensures Val(s, n) + Val(t, n) == Weight(n) - 1
  {
    hide Val, Weight;
    ValEmpty(s);
    ValEmpty(t);
    if n > 0 {
      Complement(s, t, n - 1);
      ValNext(s, n - 1);
      ValNext(t, n - 1);
      ComplementStep(Val(s, n - 1), Val(t, n - 1), s[n - 1], t[n - 1], Weight(n - 1));
    }
  }

  lemma ComplementStep(v: nat, u: nat, x: nat, y: nat, w: nat)
    requires v + u == w - 1 && x + y == BASE - 1
    ensures v + x * w + (u + y * w) == BASE * w - 1
  {
    Distribute2(x, y, w);
  }
}
