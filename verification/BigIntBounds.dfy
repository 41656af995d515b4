/** BigInt operations with V8's size limit: sizes are checked before a result is built, and a value
    of more than MAX_BITS bits is never produced. The reference is unbounded integer arithmetic. */
module BigIntBounds {
  import opened Arithmetic
  import opened Binary64
  import opened Numbers
  import opened Options

  const MAX_BITS: nat := 0x4000_0000

  datatype Result = Ok(value: int) | TooLarge | BadRange

  datatype Ordering = Less | Equal | Greater

  // ---- sizes ----

  /** The number of bits of the magnitude. */
  function Bits(n: int): nat
    decreases Abs(n)
  {
    if n == 0 then 0 else 1 + Bits(Abs(n) / 2)
  }

  /** Every BigInt value a program holds. */
  predicate Held(n: int) {
    Bits(n) <= MAX_BITS
  }

  lemma {:induction false} BitsBound(n: int)
    ensures Abs(n) < Pow2(Bits(n))
    ensures n != 0 ==> Pow2(Bits(n) - 1) <= Abs(n)
    decreases Abs(n)
  {
    if n != 0 {
      BitsBound(Abs(n) / 2);
    }
  }

  /** A magnitude below a power of two has at most that many bits, and one at or above has more. */
  lemma BitsAgainst(n: int, k: nat)
    ensures Bits(n) <= k <==> Abs(n) < Pow2(k)
  {
    BitsBound(n);
    if Bits(n) <= k {
      Pow2Grows(Bits(n), k);
    } else {
      Pow2Grows(k, Bits(n) - 1);
    }
  }

  /** Checked construction. */
  function New(n: int): Result {
    if Bits(n) > MAX_BITS then TooLarge else Ok(n)
  }

  // ---- multiplication ----

  function Mul(a: int, b: int): Result {
    if a != 0 && b != 0 && Bits(a) + Bits(b) > MAX_BITS + 1 then TooLarge else New(a * b)
  }

  lemma ProductBits(a: int, b: int)
    requires a != 0 && b != 0
    ensures Bits(a * b) >= Bits(a) + Bits(b) - 1
  {
    BitsBound(a);
    BitsBound(b);
    var i, j := Bits(a) - 1, Bits(b) - 1;
    ProductAtLeast(a, b, Pow2(i), Pow2(j));
    Pow2Adds(i, j);
    BitsAgainst(a * b, i + j);
  }

  /** The early test never refuses a product that fits, and what it lets through is still checked. */
  lemma MulExact(a: int, b: int)
    ensures Mul(a, b) == New(a * b)
  {
    if a != 0 && b != 0 { ProductBits(a, b); }
  }

  // ---- exponentiation ----

  function Power(a: int, e: nat): int {
    if e == 0 then 1 else a * Power(a, e - 1)
  }

  function Odd(e: int): bool { e % 2 == 1 }

  function Pow(a: int, exponent: int): Result {
    if exponent < 0 then BadRange
    else if exponent == 0 then Ok(1)
    else if a == 0 then Ok(a)
    else if Bits(a) == 1 then (if a < 0 && Odd(exponent) then Ok(a) else Ok(1))
    else if exponent >= 0x1_0000_0000 then TooLarge
    else if (Bits(a) - 1) * exponent >= MAX_BITS then TooLarge
    else New(Power(a, exponent))
  }

  lemma {:induction false} PowerOfUnit(a: int, e: nat)
    requires a == 1 || a == -1
    ensures Power(a, e) == if a < 0 && Odd(e) then a else 1
    decreases e
  {
    if e > 0 { PowerOfUnit(a, e - 1); }
  }

  lemma {:induction false} PowerAtLeast(a: int, k: nat, e: nat)
    requires Abs(a) >= Pow2(k)
    ensures Abs(Power(a, e)) >= Pow2(k * e)
    decreases e
  {
    if e > 0 {
      PowerAtLeast(a, k, e - 1);
      ProductAtLeast(a, Power(a, e - 1), Pow2(k), Pow2(k * (e - 1)));
      Pow2Adds(k, k * (e - 1));
      assert k + k * (e - 1) == k * e;
    }
  }

  /** For every base and exponent the power is returned exactly when it fits; in particular constant
      results are returned however large the exponent. */
  lemma PowExact(a: int, exponent: int)
    ensures Pow(a, exponent) == if exponent < 0 then BadRange else New(Power(a, exponent))
  {
    assert Bits(1) == 1 && Bits(0) == 0;
    if exponent > 0 && a == 0 {
      assert Power(a, exponent) == 0;
    } else if exponent > 0 && Bits(a) == 1 {
      BitsBound(a);
      PowerOfUnit(a, exponent);
    } else if exponent > 0 {
      var k := Bits(a) - 1;
      BitsBound(a);
      BitsNotOne(a);
      hide Bits, Power, Pow2;
      PowerAtLeast(a, k, exponent);
      BitsAgainst(Power(a, exponent), k * exponent);
      ScaleWeak(1, k, exponent);
    }
  }

  lemma BitsNotOne(a: int)
    requires a != 0 && Bits(a) != 1
    ensures Bits(a) >= 2
  {
  }

  // ---- shifts ----

  function Shift(a: int, amount: int, toLeft: bool): Result {
    var left := toLeft != (amount < 0);
    var magnitude := Abs(amount);
    if a == 0 then Ok(a)
    else if !left && (magnitude >= 0x1_0000_0000_0000_0000 || magnitude >= Bits(a)) then Ok(if a < 0 then -1 else 0)
    else if magnitude >= 0x1_0000_0000_0000_0000 then TooLarge
    else if left && Bits(a) + magnitude > MAX_BITS then TooLarge
    else if left then New(a * Pow2(magnitude)) else New(a / Pow2(magnitude))
  }

  lemma ShiftedBits(a: int, k: nat)
    requires a != 0
    ensures Bits(a * Pow2(k)) == Bits(a) + k
  {
    BitsBound(a);
    var b := a * Pow2(k);
    var n := Bits(a);
    hide Bits, Pow2;
    AbsProduct(a, Pow2(k));
    Pow2Adds(n, k);
    Pow2Adds(n - 1, k);
    ScaleOrder(Abs(a), Pow2(n), Pow2(k));
    ScaleWeak(Pow2(n - 1), Abs(a), Pow2(k));
    BitsAgainst(b, n + k);
    BitsAgainst(b, n - 1 + k);
  }

  lemma FloorBySmall(a: int, p: nat)
    requires p > Abs(a)
    ensures a / p == if a < 0 then -1 else 0
  {
    if a < 0 {
      DivisionUnique(a, p, -1, a + p);
    } else {
      DivisionUnique(a, p, 0, a);
    }
  }

  lemma FloorShrinks(a: int, p: nat)
    requires p > 0
    ensures Abs(a / p) <= Abs(a)
  {
    var q := a / p;
    assert a == p * q + a % p;
    if Abs(q) > Abs(a) { LargeMultiple(q, Abs(a), p); }
  }

  /** A left shift multiplies and a right shift floors, with signed amounts of any size; only a true
      result that does not fit is refused. */
  lemma ShiftExact(a: int, amount: int, toLeft: bool)
    requires Held(a)
    ensures var left := toLeft != (amount < 0);
            Shift(a, amount, toLeft) == if left then New(a * Pow2(Abs(amount))) else Ok(a / Pow2(Abs(amount)))
  {
    var left := toLeft != (amount < 0);
    var k := Abs(amount);
    if a == 0 {
      assert 0 * Pow2(k) == 0 && 0 / Pow2(k) == 0;
    } else if left {
      ShiftedBits(a, k);
    } else {
      BitsBound(a);
      if k >= 0x1_0000_0000_0000_0000 || k >= Bits(a) {
        Pow2Grows(Bits(a), k);
        FloorBySmall(a, Pow2(k));
      } else {
        FloorShrinks(a, Pow2(k));
        BitsAgainst(a, MAX_BITS);
        BitsAgainst(a / Pow2(k), MAX_BITS);
      }
    }
  }

  // ---- fixed widths ----

  /** The width argument: an integer below 2^53, or a RangeError. */
  function Width(bits: Number): Option<nat> {
    match bits
    case NaN => Some(0)
    case Finite(r) => if 0 <= Trunc(r) <= 0x1F_FFFF_FFFF_FFFF then Some(Trunc(r)) else None
    case _ => None
  }

  function AsUintN(bits: Number, value: int): Result {
    match Width(bits)
    case None => BadRange
    case Some(width) =>
      if width == 0 then Ok(0)
      else if value >= 0 && Bits(value) <= width then Ok(value)
      else if width > MAX_BITS then TooLarge
      else New(value % Pow2(width))
  }

  /** The complement's size, one bit less than what a sign needs. */
  function SignBits(value: int): nat {
    if value < 0 then Bits(-value - 1) else Bits(value)
  }

  function AsIntN(bits: Number, value: int): Result {
    match Width(bits)
    case None => BadRange
    case Some(width) =>
      if width == 0 then Ok(0)
      else if SignBits(value) < width then Ok(value)
      else
        match AsUintN(bits, value)
        case Ok(unsigned) => if unsigned >= Pow2(width - 1) then New(unsigned - Pow2(width)) else Ok(unsigned)
        case failure => failure
  }

  lemma ResidueOfSmall(value: int, p: nat)
    requires 0 <= value < p
    ensures value % p == value
  {
    DivisionUnique(value, p, 0, value);
  }

  lemma ResidueOfNegative(value: int, p: nat)
    requires -(p as int) <= value < 0
    ensures value % p == value + p
  {
    DivisionUnique(value, p, -1, value + p);
  }

  /** The unsigned residue is returned exactly when it fits. */
  lemma AsUintNExact(bits: Number, value: int)
    requires Held(value) && Width(bits).Some?
    ensures AsUintN(bits, value) == New(value % Pow2(Width(bits).value))
  {
    var width := Width(bits).value;
    if width == 0 {
      assert value % 1 == 0;
    } else {
      BitsAgainst(value, width);
      BitsAgainst(value, MAX_BITS);
      if value >= 0 && Bits(value) <= width {
        ResidueOfSmall(value, Pow2(width));
      } else if width > MAX_BITS {
        Pow2Grows(MAX_BITS, width);
        Pow2Grows(MAX_BITS, width - 1);
        ResidueOfNegative(value, Pow2(width));
        BitsAgainst(value % Pow2(width), MAX_BITS);
      }
    }
  }

  /** The signed residue is always returned: the number of the width's range that is congruent to the
      value. */
  lemma AsIntNExact(bits: Number, value: int)
    requires Held(value) && Width(bits).Some?
    ensures Width(bits).value == 0 ==> AsIntN(bits, value) == Ok(0)
    ensures Width(bits).value > 0 ==>
            var width := Width(bits).value;
            var r := AsIntN(bits, value);
            r.Ok? && -(Pow2(width - 1) as int) <= r.value < Pow2(width - 1) && (value - r.value) % Pow2(width) == 0
  {
    var width := Width(bits).value;
    if width == 0 { return; }
    assert Pow2(width) == 2 * Pow2(width - 1);
    hide Bits, Pow2;
    BitsAgainst(if value < 0 then -value - 1 else value, width - 1);
    if SignBits(value) >= width {
      SignBitsHeld(value);
      AsUintNExact(bits, value);
      ResidueFits(width, value);
    } else {
      assert value - value == Pow2(width) * 0;
      MultipleIsZero(0, Pow2(width));
    }
  }

  /** The width arguments that are accepted and what they stand for: an integer from 0 to 2^53 - 1, a
      number between two integers as the one nearer to zero, and NaN as 0. */
  lemma WidthExact(bits: Number, k: int)
    requires bits.NaN? ==> k == 0
    requires bits.Finite? ==> if k > 0 then k as real <= bits.r < (k + 1) as real
                              else if k < 0 then (k - 1) as real < bits.r <= k as real
                              else -1.0 < bits.r < 1.0
    ensures Width(bits) == if bits.PosInf? || bits.NegInf? || k < 0 || k > 9007199254740991 then None else Some(k)
  {
    if bits.Finite? { IntegerPart(bits.r, k); }
  }

  /** For an integer width, and every other number as the integer it stands for, `asUintN` gives the
      residue below 2^k, and `asIntN` the one within 2^(k-1) of zero; other widths are range errors. */
  lemma ResiduesByWidth(bits: Number, k: int, value: int)
    requires Held(value)
    requires bits.NaN? ==> k == 0
    requires bits.Finite? ==> if k > 0 then k as real <= bits.r < (k + 1) as real
                              else if k < 0 then (k - 1) as real < bits.r <= k as real
                              else -1.0 < bits.r < 1.0
    ensures AsUintN(bits, value)
            == if bits.PosInf? || bits.NegInf? || k < 0 || k > 9007199254740991 then BadRange
               else New(value % Pow2(k))
    ensures var r := AsIntN(bits, value);
            if bits.PosInf? || bits.NegInf? || k < 0 || k > 9007199254740991 then r == BadRange
            else if k == 0 then r == Ok(0)
            else r.Ok? && -(Pow2(k - 1) as int) <= r.value < Pow2(k - 1) && (value - r.value) % Pow2(k) == 0
  {
    hide Bits, Pow2, SignBits, Width, Held;
    WidthExact(bits, k);
    if Width(bits).Some? {
      AsUintNExact(bits, value);
      AsIntNExact(bits, value);
    } else {
      BadWidth(bits, value);
    }
  }

  lemma BadWidth(bits: Number, value: int)
    requires Width(bits).None?
    ensures AsUintN(bits, value) == AsIntN(bits, value) == BadRange
  {
  }

  /** In a width no larger than the limit neither residue outgrows the limit. */
  lemma ResidueFits(width: nat, value: int)
    requires 0 < width <= MAX_BITS
    ensures var p := Pow2(width);
            var u := value % p;
            0 <= u < p && New(u) == Ok(u) && (value - u) % p == 0 && (value - (u - p)) % p == 0
            && (u >= Pow2(width - 1) ==> New(u - p) == Ok(u - p))
  {
    var p := Pow2(width);
    hide Bits, Pow2;
    var u := value % p;
    assert value == p * (value / p) + u;
    assert value - (u - p) == p * (value / p + 1) by { assert p * (value / p + 1) == p * (value / p) + p; }
    MultipleIsZero(value / p, p);
    MultipleIsZero(value / p + 1, p);
    BitsAgainst(u, width);
    BitsAgainst(u - p, width);
  }

  lemma SignBitsHeld(value: int)
    requires Held(value)
    ensures SignBits(value) <= MAX_BITS
  {
    BitsAgainst(value, MAX_BITS);
    BitsAgainst(-value - 1, MAX_BITS);
  }

  lemma MultipleIsZero(q: int, p: nat)
    requires p > 0
    ensures (p * q) % p == 0
  {
    DivisionUnique(p * q, p, q, 0);
  }

  /** No other number of the range is congruent to the value. */
  lemma SignedResidueUnique(width: nat, value: int, r: int, s: int)
    requires width > 0
    requires -(Pow2(width - 1) as int) <= r < Pow2(width - 1) && (value - r) % Pow2(width) == 0
    requires -(Pow2(width - 1) as int) <= s < Pow2(width - 1) && (value - s) % Pow2(width) == 0
    ensures r == s
  {
    NearMultiplesAgree(value, Pow2(width), r, s);
  }

  lemma NearMultiplesAgree(value: int, p: nat, r: int, s: int)
    requires p > 0 && (value - r) % p == 0 && (value - s) % p == 0
    requires -(p as int) < r - s < p
    ensures r == s
  {
    var i, j := (value - r) / p, (value - s) / p;
    assert value - r == p * i && value - s == p * j;
    var d := i - j;
    assert s - r == p * d by { assert p * i - p * j == p * d; }
    if d != 0 { LargeMultiple(d, 0, p); }
  }

  // ---- comparison with a number ----

  function Compare(a: int, b: int): Ordering {
    if a < b then Less else if a == b then Equal else Greater
  }

  /** None for NaN; otherwise by `integer`, what the number converts to, and then by the fraction. */
  function CmpNumber(a: int, b: Number, integer: int): Option<Ordering> {
    match b
    case NaN => None
    case PosInf => Some(Less)
    case NegInf => Some(Greater)
    case Finite(r) =>
      var order := Compare(a, integer);
      var fraction := r - Trunc(r) as real;
      Some(if order != Equal || fraction == 0.0 then order else if fraction > 0.0 then Less else Greater)
  }

  /** For every binary64 number, given by any mantissa and exponent, the conversion yields the integer
      part and the comparison is exact over the reals; every value lies between the infinities, and
      none compares with NaN. */
  lemma CmpNumberExact(a: int, b: Number, m: int, e: int)
    requires b.Finite? ==> Represents(b.r, m, e)
    ensures b.Finite? ==> Shifted(m, e) == Trunc(b.r)
    ensures CmpNumber(a, b, Shifted(m, e))
            == match b
               case NaN => None
               case PosInf => Some(Less)
               case NegInf => Some(Greater)
               case Finite(r) => Some(if a as real < r then Less else if a as real == r then Equal else Greater)
  {
    if b.Finite? { ShiftedIsTrunc(b.r, m, e); }
  }
}
