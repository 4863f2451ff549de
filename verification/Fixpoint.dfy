/** Sign-magnitude fixed-point numbers: 32 bits of whole part and 32 of fraction.  The integer
    meant is the magnitude whole * 2^32 + frac with its sign. */
module Fixpoint {
  import opened Bits

  datatype Fix = Fix(whole: u32, frac: u32, negative: bool)

  datatype Status = Ok | Overflow | Underflow | OverflowAndUnderflow

  function Mag(v: Fix): (m: nat)
    ensures m < TWO64
  {
    v.whole * TWO32 + v.frac
  }

  function Value(v: Fix): int {
    if v.negative then 0 - Mag(v) else Mag(v)
  }

  /** No negative zero. */
  predicate Canonical(v: Fix) {
    Mag(v) == 0 ==> !v.negative
  }

  function Abs(x: int): nat {
    if x < 0 then -x else x
  }

  // ----- comparison -----

  function Compare(left: Fix, right: Fix): int {
    if left.whole == 0 && right.whole == 0 && left.frac == 0 && right.frac == 0 then 0
    else if left.negative && !right.negative then -1
    else if right.negative && !left.negative then 1
    else
      var sign := if left.negative then -1 else 1;
      if left.whole > right.whole then 1 * sign
      else if left.whole < right.whole then -1 * sign
      else if left.frac > right.frac then 1 * sign
      else if left.frac < right.frac then -1 * sign
      else 0
  }

  /** The comparison is the order of the integers, negative zero included. */
  lemma CompareIsIntegerOrder(left: Fix, right: Fix)
    ensures Compare(left, right) < 0 <==> Value(left) < Value(right)
    ensures Compare(left, right) == 0 <==> Value(left) == Value(right)
    ensures -1 <= Compare(left, right) <= 1
  {
  }

  function CompareAbsolute(left: Fix, right: Fix): int {
    Compare(left.(negative := false), right.(negative := false))
  }

  // ----- a number in memory -----

  class Number {
    var whole: u32
    var frac: u32
    var negative: bool

    function Get(): Fix
      reads this
    {
      Fix(whole, frac, negative)
    }

    constructor (v: Fix)
      ensures Get() == v
    {
      whole, frac, negative := v.whole, v.frac, v.negative;
    }

    /** Flip the sign of anything but zero. */
    method Negate()
      modifies this
      ensures Value(Get()) == -Value(old(Get())) && Mag(Get()) == Mag(old(Get()))
      ensures negative == if Mag(Get()) != 0 then !old(negative) else old(negative)
      ensures Canonical(old(Get())) ==> Canonical(Get())
    {
      if whole != 0 || frac != 0 {
        negative := !negative;
      }
    }
  }

  /** The magnitudes add modulo 2^64, and the status tells when that loses something. */
  ghost predicate Adds(left: Fix, right: Fix, result: Fix, status: Status) {
    && Mag(result) == (Mag(left) + Mag(right)) % TWO64
    && status == if Mag(left) + Mag(right) >= TWO64 then Overflow else Ok
  }

  /** Add magnitudes with carry.  The operands are read before the result is written, so the
      sum is that of their values on entry even when the result is one of them. */
  method AddSameSign(result: Number, left: Number, right: Number) returns (status: Status)
    modifies result
    ensures Adds(old(left.Get()), old(right.Get()), result.Get(), status)
    ensures result.negative == old(result.negative)
  {
    ghost var l, r := left.Get(), right.Get();
    var fracSum := left.frac;
    var carry := fracSum > TWO32 - 1 - right.frac;
    fracSum := (fracSum + right.frac) % TWO32;
    var wholeSum: nat := left.whole + right.whole;
    if carry {
      wholeSum := wholeSum + 1;
    }
    result.frac := fracSum;
    result.whole := wholeSum % TWO32;
    status := if wholeSum / TWO32 != 0 then Overflow else Ok;
    CarryIsExact(l, r, result.Get(), carry, wholeSum);
  }

  lemma CarryIsExact(l: Fix, r: Fix, result: Fix, carry: bool, wholeSum: nat)
    requires carry == (l.frac > TWO32 - 1 - r.frac)
    requires wholeSum == l.whole + r.whole + if carry then 1 else 0
    requires result.frac == (l.frac + r.frac) % TWO32 && result.whole == wholeSum % TWO32
    ensures Adds(l, r, result, if wholeSum / TWO32 != 0 then Overflow else Ok)
  {
    assert Mag(l) + Mag(r) == wholeSum * TWO32 + result.frac;
    CarriedOut(wholeSum, result.frac);
  }

  lemma CarriedOut(whole: nat, frac: u32)
    requires whole < 2 * TWO32
    ensures whole % TWO32 * TWO32 + frac == (whole * TWO32 + frac) % TWO64
    ensures whole / TWO32 != 0 <==> whole * TWO32 + frac >= TWO64
  {
  }

  /** Unsigned 32-bit subtraction. */
  function Less(x: u32, y: u32): (d: u32)
    ensures d == if x >= y then x - y else x + TWO32 - y
  {
    (x + TWO32 - y) % TWO32
  }

  /** Subtract the smaller magnitude from the larger, borrowing from the whole part. */
  method AddDiffSign(result: Number, left: Number, right: Number)
    requires Mag(left.Get()) >= Mag(right.Get())
    modifies result
    ensures Mag(result.Get()) == Mag(old(left.Get())) - Mag(old(right.Get()))
    ensures result.negative == (old(result.negative) && Mag(result.Get()) != 0)
  {
    var wholeSum := left.whole;
    var fracSum := left.frac;
    if fracSum < right.frac {
      fracSum := Less(fracSum, right.frac);
      wholeSum := Less(wholeSum, 1);
      wholeSum := Less(wholeSum, right.whole);
    } else {
      fracSum := Less(fracSum, right.frac);
      wholeSum := Less(wholeSum, right.whole);
    }
    if fracSum == 0 && wholeSum == 0 {
      result.negative := false;
    }
    BorrowIsExact(left.Get(), right.Get(), wholeSum, fracSum);
    result.whole := wholeSum;
    result.frac := fracSum;
  }

  lemma BorrowIsExact(l: Fix, r: Fix, whole: u32, frac: u32)
    requires Mag(l) >= Mag(r)
    requires var borrow := if l.frac < r.frac then 1 else 0;
             && frac == Less(l.frac, r.frac)
             && whole == Less(Less(l.whole, borrow), r.whole)
    ensures whole * TWO32 + frac == Mag(l) - Mag(r)
  {
  }

  /** The sum is exact, canonical and Ok when its magnitude is below 2^64, and otherwise Overflow
      with the magnitude modulo 2^64. */
  ghost predicate IsSum(sum: int, result: Fix, status: Status) {
    if Abs(sum) < TWO64 then status == Ok && Value(result) == sum && Canonical(result)
    else status == Overflow && Mag(result) == Abs(sum) % TWO64 && result.negative == (sum < 0)
  }

  /** The operands the second of two same-sign additions reads: one that is also the result has
      been overwritten by the first. */
  function Reread(aliased: bool, v: Fix, other: Fix): nat {
    if aliased then (Mag(v) + Mag(other)) % TWO64 else Mag(v)
  }

  /** The magnitude two same-sign additions in a row leave. */
  function AddedTwice(left: Fix, right: Fix, isLeft: bool, isRight: bool): nat {
    Reread(isLeft, left, right) + Reread(isRight, right, left)
  }

  /** The result of an addition may be an operand only when the other operand, or the one that is
      both, is zero. */
  predicate Harmless(left: Fix, right: Fix, isLeft: bool, isRight: bool) {
    if isLeft && isRight then Mag(left) == 0
    else if isLeft then Mag(right) == 0
    else isRight ==> Mag(left) == 0
  }

  /** Addition.  With equal signs the magnitudes are added twice: the sum is right if and only if
      the result is neither operand or aliasing it is harmless.  With different signs it is
      always right. */
  method Add(result: Number, left: Number, right: Number) returns (status: Status)
    modifies result
    ensures IsSum(Value(old(left.Get())) + Value(old(right.Get())), result.Get(), status)
            <==> (old(left.negative) != old(right.negative)
                  || Harmless(old(left.Get()), old(right.Get()), result == left, result == right))
    ensures old(left.negative) == old(right.negative) ==>
              Mag(result.Get())
              == AddedTwice(old(left.Get()), old(right.Get()), result == left, result == right) % TWO64
  {
    if left.negative == right.negative {
      status := AddTwice(result, left, right);
    } else {
      status := AddOpposite(result, left, right);
    }
  }

  method AddTwice(result: Number, left: Number, right: Number) returns (status: Status)
    requires left.negative == right.negative
    modifies result
    ensures IsSum(Value(old(left.Get())) + Value(old(right.Get())), result.Get(), status)
            <==> Harmless(old(left.Get()), old(right.Get()), result == left, result == right)
    ensures Mag(result.Get())
            == AddedTwice(old(left.Get()), old(right.Get()), result == left, result == right) % TWO64
  {
    ghost var l, r := left.Get(), right.Get();
    var first := AddOnce(result, left, right);
    ghost var once, l', r' := result.Get(), left.Get(), right.Get();
    status := AddSameSign(result, left, right);
    TwoAdditions(l, r, once, first, l', r', result == left, result == right);
    AliasedSum(l, r, once, first, result.Get(), status, result == left, result == right);
  }

  /** The first addition also settles the sign. */
  method AddOnce(result: Number, left: Number, right: Number) returns (status: Status)
    modifies result
    ensures AddsSigned(old(left.Get()), old(right.Get()), result.Get(), status)
  {
    result.negative := left.negative;
    status := AddSameSign(result, left, right);
    if status == Ok && result.whole == 0 && result.frac == 0 {
      result.negative := false;
    }
  }

  ghost predicate AddsSigned(left: Fix, right: Fix, result: Fix, status: Status) {
    && Adds(left, right, result, status)
    && result.negative == (left.negative && !(status == Ok && Mag(result) == 0))
  }

  lemma TwoAdditions(l: Fix, r: Fix, once: Fix, first: Status, l': Fix, r': Fix, isLeft: bool, isRight: bool)
    requires Adds(l, r, once, first)
    requires l' == if isLeft then once else l
    requires r' == if isRight then once else r
    ensures Mag(l') + Mag(r') == AddedTwice(l, r, isLeft, isRight)
  {
  }

  /** Two same-sign additions in a row give the sum if and only if aliasing is harmless. */
  lemma AliasedSum(l: Fix, r: Fix, once: Fix, first: Status, twice: Fix, status: Status, isLeft: bool, isRight: bool)
    requires l.negative == r.negative && (isLeft && isRight ==> l == r)
    requires AddsSigned(l, r, once, first)
    requires Adds(if isLeft then once else l, if isRight then once else r, twice, status)
    requires twice.negative == once.negative
    ensures IsSum(Value(l) + Value(r), twice, status) <==> Harmless(l, r, isLeft, isRight)
  {
    if isLeft && isRight {
      OntoBoth(l, once, first, twice, status);
    } else if isLeft {
      OntoOne(l, r, once, first, twice, status);
    } else if isRight {
      OntoOne(r, l, once, first, twice, status);
    } else {
      SameSignSum(l, r, twice, status);
    }
  }

  lemma OntoBoth(v: Fix, once: Fix, first: Status, twice: Fix, status: Status)
    requires AddsSigned(v, v, once, first) && Adds(once, once, twice, status) && twice.negative == once.negative
    ensures IsSum(Value(v) + Value(v), twice, status) <==> Mag(v) == 0
  {
    if Mag(v) == 0 {
      SameSignSum(v, v, twice, status);
    } else if IsSum(Value(v) + Value(v), twice, status) {
      SumMagnitude(v, v, twice, status);
      AliasedMagnitude(v, v, true, true);
    }
  }

  lemma OntoOne(v: Fix, other: Fix, once: Fix, first: Status, twice: Fix, status: Status)
    requires v.negative == other.negative
    requires AddsSigned(v, other, once, first) && Adds(once, other, twice, status) && twice.negative == once.negative
    ensures IsSum(Value(v) + Value(other), twice, status) <==> Mag(other) == 0
  {
    if Mag(other) == 0 {
      SameSignSum(v, other, twice, status);
    } else if IsSum(Value(v) + Value(other), twice, status) {
      SumMagnitude(v, other, twice, status);
      AliasedMagnitude(v, other, true, false);
    }
  }

  lemma SumMagnitude(l: Fix, r: Fix, result: Fix, status: Status)
    requires l.negative == r.negative && IsSum(Value(l) + Value(r), result, status)
    ensures Mag(result) == (Mag(l) + Mag(r)) % TWO64
  {
  }

  lemma SameSignSum(l: Fix, r: Fix, result: Fix, status: Status)
    requires l.negative == r.negative
    requires AddsSigned(l, r, result, status)
    ensures IsSum(Value(l) + Value(r), result, status)
  {
  }

  method AddOpposite(result: Number, left: Number, right: Number) returns (status: Status)
    requires left.negative != right.negative
    modifies result
    ensures IsSum(Value(old(left.Get())) + Value(old(right.Get())), result.Get(), status)
  {
    var m := CompareAbsolute(left.Get(), right.Get());
    CompareIsIntegerOrder(left.Get().(negative := false), right.Get().(negative := false));
    if m == 0 {
      result.frac := 0;
      result.whole := 0;
      result.negative := false;
      return Ok;
    }
    var bigger, smaller := if m > 0 then left else right, if m > 0 then right else left;
    result.negative := bigger.negative;
    AddDiffSign(result, bigger, smaller);
    if result.whole == 0 && result.frac == 0 {
      result.negative := false;
    }
    status := Ok;
  }

  /** Subtraction adds a negated copy of the right operand, which may therefore be the result.  The
      left one may be only when the signs agree or the right one is zero. */
  method Sub(result: Number, left: Number, right: Number) returns (status: Status)
    modifies result
    ensures IsSum(Value(old(left.Get())) - Value(old(right.Get())), result.Get(), status)
            <==> (result != left || Mag(old(right.Get())) == 0 || old(left.negative) == old(right.negative))
  {
    var flipped := new Number(right.Get());
    flipped.Negate();
    status := Add(result, left, flipped);
  }

  /** One input it goes wrong on: 2^63 added onto itself gives zero, without overflow. */
  lemma OverflowIsLost(once: Fix, first: Status, twice: Fix, status: Status)
    requires var half := Fix(0x8000_0000, 0, false);
             AddsSigned(half, half, once, first) && Adds(once, once, twice, status)
    ensures status == Ok && Mag(twice) == 0 && !IsSum(TWO64, twice, status)
  {
  }

  /** And one aliased subtraction: 1 - (-1) onto the 1 gives 3. */
  lemma AliasedDifference(once: Fix, first: Status, twice: Fix, status: Status)
    requires var one := Fix(1, 0, false); AddsSigned(one, one, once, first) && Adds(once, one, twice, status)
    ensures Mag(twice) == 3 * TWO32 && !IsSum(Value(Fix(1, 0, false)) - Value(Fix(1, 0, true)), twice, status)
  {
  }

  /** Exactly when an aliased same-sign addition still leaves the right magnitude. */
  lemma AliasedMagnitude(left: Fix, right: Fix, isLeft: bool, isRight: bool)
    requires isLeft || isRight
    requires isLeft && isRight ==> left == right
    ensures AddedTwice(left, right, isLeft, isRight) % TWO64 == (Mag(left) + Mag(right)) % TWO64
            <==> if isLeft && isRight then Mag(left) == 0 || Mag(left) == TWO64 / 2
                 else if isLeft then Mag(right) == 0
                 else Mag(left) == 0
  {
  }

  // ----- multiplication -----

  /** The 32-bit halves of a 64-bit word, taken by shift and mask. */
  lemma Halves(x: nat)
    requires x < TWO64
    ensures And(x, TWO32 - 1) == x % TWO32 && x / TWO32 < TWO32
  {
    Pow2Of32();
    MaskIsMod(x, 32);
  }

  method Split(x: nat) returns (high: nat, low: nat)
    requires x < TWO64
    ensures high < TWO32 && low < TWO32 && x == high * TWO32 + low
  {
    Halves(x);
    high, low := x / TWO32, And(x, 0xFFFF_FFFF);
  }

  lemma Joined(high: nat, low: nat)
    requires low < TWO32
    ensures Or(high * TWO32, low) == high * TWO32 + low
  {
    Pow2Of32();
    OrIsSum(high, low, 32);
  }

  lemma ProductBound(a: nat, b: nat)
    requires a < TWO32 && b < TWO32
    ensures a * b <= (TWO32 - 1) * (TWO32 - 1)
  {
    MulLe(a, b, TWO32 - 1);
    MulLe(TWO32 - 1, a, TWO32 - 1);
    assert a * b <= a * (TWO32 - 1) == (TWO32 - 1) * a;
  }

  lemma Expand(a: nat, b: nat, c: nat, d: nat)
    ensures (a * TWO32 + b) * (c * TWO32 + d) == (a * c) * TWO64 + (a * d + b * c) * TWO32 + b * d
  {
    var B := TWO32;
    assert (a * B + b) * (c * B + d) == a * B * (c * B) + a * B * d + b * (c * B) + b * d;
    assert a * B * (c * B) == (a * c) * (B * B);
    assert a * B * d == (a * d) * B && b * (c * B) == (b * c) * B;
  }

  /** The four partial products recombine into the limbs of the product, and no sum of them
      leaves 64 bits. */
  lemma Recombined(hh: nat, hl: nat, lh: nat, ll: nat, product: nat)
    requires hh <= (TWO32 - 1) * (TWO32 - 1) && hl <= (TWO32 - 1) * (TWO32 - 1)
    requires lh <= (TWO32 - 1) * (TWO32 - 1) && ll <= (TWO32 - 1) * (TWO32 - 1)
    requires product == hh * TWO64 + (hl + lh) * TWO32 + ll
    ensures var middleLow := ll / TWO32 + lh % TWO32 + hl % TWO32;
            var middleHigh := lh / TWO32 + hl / TWO32 + hh + middleLow / TWO32;
            && middleLow < TWO64 && middleHigh < TWO64
            && product / TWO64 == middleHigh
            && product / TWO32 % TWO32 == middleLow % TWO32
            && product % TWO32 == ll % TWO32
  {
    var middleLow := ll / TWO32 + lh % TWO32 + hl % TWO32;
    var middleHigh := lh / TWO32 + hl / TWO32 + hh + middleLow / TWO32;
    assert product == middleHigh * TWO64 + middleLow % TWO32 * TWO32 + ll % TWO32;
    ReadLimbs(product, middleHigh, middleLow % TWO32, ll % TWO32);
  }

  lemma ReadLimbs(product: nat, high: nat, middle: nat, low: nat)
    requires middle < TWO32 && low < TWO32 && product == high * TWO64 + middle * TWO32 + low
    ensures product / TWO64 == high && product / TWO32 % TWO32 == middle && product % TWO32 == low
  {
  }

  /** The limbs of the product of two 64-bit words, in 64-bit arithmetic that never wraps. */
  method Limbs(wx: nat, yz: nat) returns (low: nat, middleLow: nat, middleHigh: nat)
    requires wx < TWO64 && yz < TWO64
    ensures low == wx * yz % TWO32
    ensures middleLow < TWO64 && middleLow % TWO32 == wx * yz / TWO32 % TWO32
    ensures middleHigh == wx * yz / TWO64 < TWO64
  {
    ghost var product := wx * yz;
    var leftHigh, leftLow := Split(wx);
    var rightHigh, rightLow := Split(yz);
    Partials(wx, yz, leftHigh, leftLow, rightHigh, rightLow);
    low, middleLow, middleHigh := Recombine(leftHigh, leftLow, rightHigh, rightLow, product);
  }

  method Recombine(leftHigh: nat, leftLow: nat, rightHigh: nat, rightLow: nat, ghost product: nat)
    returns (low: nat, middleLow: nat, middleHigh: nat)
    requires leftHigh < TWO32 && leftLow < TWO32 && rightHigh < TWO32 && rightLow < TWO32
    requires product == (leftHigh * rightHigh) * TWO64 + (leftHigh * rightLow + leftLow * rightHigh) * TWO32
                        + leftLow * rightLow
    ensures low == product % TWO32
    ensures middleLow < TWO64 && middleLow % TWO32 == product / TWO32 % TWO32
    ensures middleHigh == product / TWO64 < TWO64
  {
    var lowProduct := Partial(leftLow, rightLow);
    var lowHighProduct := Partial(leftLow, rightHigh);
    var highLowProduct := Partial(leftHigh, rightLow);
    var highProduct := Partial(leftHigh, rightHigh);
    Recombined(highProduct, highLowProduct, lowHighProduct, lowProduct, product);
    low := And(lowProduct, 0xFFFF_FFFF);
    ghost var exact := lowProduct / TWO32 + lowHighProduct % TWO32 + highLowProduct % TWO32;
    middleLow := Sum3(lowProduct / TWO32, And(lowHighProduct, 0xFFFF_FFFF), And(highLowProduct, 0xFFFF_FFFF), 0);
    middleHigh := Sum3(lowHighProduct / TWO32, highLowProduct / TWO32, highProduct, middleLow / TWO32);
  }

  /** A 32-by-32 product fits a 64-bit word, and so do its halves. */
  function Partial(a: nat, b: nat): (p: nat)
    requires a < TWO32 && b < TWO32
    ensures p == a * b <= (TWO32 - 1) * (TWO32 - 1)
    ensures And(p, 0xFFFF_FFFF) == p % TWO32
  {
    ProductBound(a, b);
    Halves(a * b);
    a * b % TWO64
  }

  /** A 64-bit sum; nothing is lost when the exact one fits. */
  function Sum3(a: nat, b: nat, c: nat, d: nat): (s: nat)
    ensures a + b + c + d < TWO64 ==> s == a + b + c + d
  {
    (a + b + c + d) % TWO64
  }

  lemma Partials(wx: nat, yz: nat, a: nat, b: nat, c: nat, d: nat)
    requires wx == a * TWO32 + b && yz == c * TWO32 + d
    ensures wx * yz == (a * c) * TWO64 + (a * d + b * c) * TWO32 + b * d
  {
    Expand(a, b, c, d);
  }

  /** Multiplication: bits 32 to 95 of the exact 128-bit product, with a flag for each side where
      a bit that is not zero was dropped.  A product that is zero by truncation keeps its sign. */
  method Mul(result: Number, left: Number, right: Number) returns (status: Status)
    modifies result
    ensures var product := Mag(old(left.Get())) * Mag(old(right.Get()));
            && Mag(result.Get()) == product / TWO32 % TWO64
            && (status == OverflowAndUnderflow || status == Overflow <==> product >= TWO64 * TWO32)
            && (status == OverflowAndUnderflow || status == Underflow <==> product % TWO32 != 0)
            && result.negative == (product != 0 && old(left.negative) != old(right.negative))
  {
    ghost var product := Mag(left.Get()) * Mag(right.Get());
    var wx := Or(left.whole * TWO32, left.frac);
    var yz := Or(right.whole * TWO32, right.frac);
    Joined(left.whole, left.frac);
    Joined(right.whole, right.frac);
    assert wx == Mag(left.Get()) && yz == Mag(right.Get());
    var low, middleLow, middleHigh := Limbs(wx, yz);

    Halves(middleLow);
    ShiftUp(middleHigh);
    Joined(middleHigh % TWO32, middleLow % TWO32);
    var middle64 := Or(middleHigh * TWO32 % TWO64, And(middleLow, 0xFFFF_FFFF));
    MiddleBits(product, middleHigh, middleLow % TWO32);
    Halves(middle64);

    var resultSign := left.negative != right.negative;
    result.whole := middle64 / TWO32;
    result.frac := And(middle64, 0xFFFF_FFFF);
    result.negative := resultSign;
    if middleHigh / TWO32 != 0 && low != 0 {
      status := OverflowAndUnderflow;
    } else if middleHigh / TWO32 != 0 {
      status := Overflow;
    } else if low != 0 {
      status := Underflow;
    } else {
      status := Ok;
      if result.whole == 0 && result.frac == 0 {
        result.negative := false;
      }
    }
    SignOfProduct(product, low, middle64, middleHigh);
  }

  lemma SignOfProduct(product: nat, low: nat, middle64: nat, high: nat)
    requires low == product % TWO32 && middle64 == product / TWO32 % TWO64 && high == product / TWO64
    ensures product == 0 <==> low == 0 && middle64 == 0 && high / TWO32 == 0
  {
  }

  lemma ShiftUp(x: nat)
    requires x < TWO64
    ensures x * TWO32 % TWO64 == (x % TWO32) * TWO32
  {
  }

  /** Bits 32 to 95, from the upper limb and the low half of the middle one. */
  lemma MiddleBits(product: nat, high: nat, low: nat)
    requires product / TWO64 == high && product / TWO32 % TWO32 == low
    ensures product / TWO32 % TWO64 == (high % TWO32) * TWO32 + low
    ensures high / TWO32 != 0 <==> product >= TWO64 * TWO32
  {
  }
}
