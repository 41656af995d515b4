/** JavaScript numbers as array methods see them. Finite values are reals: the operations modelled
    here compare, truncate and clamp, and are exact on the integers that can index an array. */
module Numbers {
  import opened Options

  datatype Number = NaN | PosInf | NegInf | Finite(r: real)

  function FromNat(n: nat): Number { Finite(n as real) }

  predicate IsInteger(n: Number) {
    n.Finite? && n.r.Floor as real == n.r
  }

  /** The index of `array_canonical_index`: an integer of at most 2^32 - 2. */
  function CanonicalIndex(n: Number): (index: Option<nat>)
    ensures index.Some? <==> IsInteger(n) && 0.0 <= n.r <= 4294967294.0
    ensures index.Some? ==> index.value as real == n.r
  {
    if IsInteger(n) && 0.0 <= n.r <= 4294967294.0 then Some(n.r.Floor) else None
  }

  /** An index usable against `length`, or None for one that denotes no element. */
  function ElementIndex(n: Number, length: nat): (index: Option<nat>)
    ensures index.Some? <==> IsInteger(n) && 0.0 <= n.r < length as real
    ensures index.Some? ==> index.value < length && index.value as real == n.r
  {
    if IsInteger(n) && 0.0 <= n.r && n.r < length as real then Some(n.r.Floor) else None
  }

  /** The integer part, cut towards zero. */
  function Trunc(r: real): int {
    if r >= 0.0 then r.Floor else -(-r).Floor
  }

  function Ceil(r: real): (c: int)
    ensures c as real >= r && c as real - 1.0 < r
  {
    -(-r).Floor
  }

  function Clamp(i: int, length: nat): nat {
    if i < 0 then 0 else if i > length then length else i
  }

  /** Position j of `length` is at or behind the place n names: n is cut to an integer, NaN counts as
      0, and a negative integer counts from the end. */
  ghost predicate Behind(n: Number, j: int, length: nat) {
    match n
    case NaN => true
    case NegInf => true
    case PosInf => false
    case Finite(r) => if r > -1.0 then r < (j + 1) as real else r <= (j - length) as real
  }

  /** ToIntegerOrInfinity, counted from the end when negative, clamped to [0, length]. */
  function RelativeIndex(n: Number, length: nat): (i: nat)
    ensures i <= length
    ensures forall j :: 0 <= j < length ==> (i <= j <==> Behind(n, j, length))
  {
    match n
    case NaN => 0
    case NegInf => 0
    case PosInf => length
    case Finite(r) => if Trunc(r) < 0 then Clamp(length + Trunc(r), length) else Clamp(Trunc(r), length)
  }

  /** The d-th entry is left alone by a deletion of n entries. */
  ghost predicate Spared(n: Number, d: int) {
    match n
    case NaN => true
    case NegInf => true
    case PosInf => false
    case Finite(r) => r < (d + 1) as real
  }

  function DeleteCount(n: Number, available: nat): (c: nat)
    ensures c <= available
    ensures forall d :: 0 <= d < available ==> (c <= d <==> Spared(n, d))
  {
    match n
    case NaN => 0
    case NegInf => 0
    case PosInf => available
    case Finite(r) => if r <= 0.0 then 0 else Clamp(Trunc(r), available)
  }

  // ---- parts of a sequence ----

  function Sliced<S>(s: seq<S>, start: Number, end: Number): seq<S> {
    var from, to := RelativeIndex(start, |s|), RelativeIndex(end, |s|);
    if from <= to then s[from..to] else []
  }

  function Spliced<S>(s: seq<S>, start: Number, count: Number, inserted: seq<S>): seq<S> {
    var from := RelativeIndex(start, |s|);
    s[..from] + inserted + s[from + DeleteCount(count, |s| - from)..]
  }

  function FromInt(i: int): Number { Finite(i as real) }

  /** The place an integer names, in a sequence of this length. */
  lemma IntegerPlace(k: int, length: int)
    requires length >= 0
    ensures 0 <= k <= length ==> RelativeIndex(FromInt(k), length) == k
    ensures -length <= k < 0 ==> RelativeIndex(FromInt(k), length) == length + k
    ensures k > length ==> RelativeIndex(FromInt(k), length) == length
    ensures k < -length ==> RelativeIndex(FromInt(k), length) == 0
  {
  }

  /** Integers count from the front, negative ones from the back, and stop at the near end. */
  lemma SliceOfIntegers<S>(s: seq<S>, a: int, b: int)
    requires 0 <= a <= b <= |s|
    ensures Sliced(s, FromInt(a), FromInt(b)) == s[a..b]
    ensures a > 0 ==> Sliced(s, FromInt(-a), PosInf) == s[|s| - a..]
    ensures b < |s| ==> Sliced(s, FromInt(a), FromInt(b - |s|)) == s[a..b]
    ensures 0 < a <= b ==> Sliced(s, FromInt(-b), FromInt(-a)) == s[|s| - b..|s| - a]
  {
    hide RelativeIndex;
    IntegerPlace(a, |s|);
    IntegerPlace(b, |s|);
    IntegerPlace(-a, |s|);
    IntegerPlace(-b, |s|);
    IntegerPlace(b - |s|, |s|);
    AllPlaces(|s|);
  }

  lemma AllPlaces(length: nat)
    ensures RelativeIndex(NaN, length) == RelativeIndex(NegInf, length) == 0 && RelativeIndex(PosInf, length) == length
  {
  }

  lemma SliceOutside<S>(s: seq<S>, k: int, other: Number)
    ensures k >= |s| ==> Sliced(s, FromInt(k), other) == [] && Sliced(s, other, FromInt(k)) == Sliced(s, other, PosInf)
    ensures k <= -|s| ==> Sliced(s, FromInt(k), other) == Sliced(s, FromInt(0), other) && Sliced(s, other, FromInt(k)) == []
    ensures Sliced(s, NaN, other) == Sliced(s, NegInf, other) == Sliced(s, FromInt(0), other)
    ensures Sliced(s, PosInf, other) == Sliced(s, other, NaN) == Sliced(s, other, NegInf) == []
    ensures Sliced(s, NaN, PosInf) == s
  {
    hide RelativeIndex;
    IntegerPlace(k, |s|);
    IntegerPlace(0, |s|);
    AllPlaces(|s|);
  }

  lemma IntegerPart(r: real, k: int)
    requires if k > 0 then k as real <= r < (k + 1) as real
             else if k < 0 then (k - 1) as real < r <= k as real
             else -1.0 < r < 1.0
    ensures Trunc(r) == k && Trunc(k as real) == k
  {
  }

  /** A number between two integers names the place of the one nearer to zero. */
  lemma FractionsAreCut(r: real, k: int, length: nat)
    requires if k > 0 then k as real <= r < (k + 1) as real
             else if k < 0 then (k - 1) as real < r <= k as real
             else -1.0 < r < 1.0
    ensures RelativeIndex(Finite(r), length) == RelativeIndex(FromInt(k), length)
    ensures DeleteCount(Finite(r), length) == DeleteCount(FromInt(k), length)
  {
    hide Trunc, Behind, Spared;
    IntegerPart(r, k);
  }

  /** Whatever the number, slicing up to it and slicing from it gives back the whole; a splice keeps
      the two parts around what it inserts. */
  lemma PartsOfWhole<S>(s: seq<S>, n: Number, inserted: seq<S>)
    ensures Sliced(s, NaN, n) + Sliced(s, n, PosInf) == s
    ensures Spliced(s, n, NaN, inserted) == Sliced(s, NaN, n) + inserted + Sliced(s, n, PosInf)
    ensures Spliced(s, n, PosInf, inserted) == Sliced(s, NaN, n) + inserted
    ensures Spliced(s, n, NaN, []) == s
  {
    hide RelativeIndex;
    AllPlaces(|s|);
  }

  /** Splicing at integer places. */
  lemma SpliceOfIntegers<S>(s: seq<S>, a: int, c: int, inserted: seq<S>)
    requires 0 <= a <= |s|
    ensures 0 <= c <= |s| - a ==> Spliced(s, FromInt(a), FromInt(c), inserted) == s[..a] + inserted + s[a + c..]
    ensures c <= 0 ==> Spliced(s, FromInt(a), FromInt(c), inserted) == s[..a] + inserted + s[a..]
    ensures c >= |s| - a ==> Spliced(s, FromInt(a), FromInt(c), inserted) == s[..a] + inserted
    ensures 0 < a && 0 <= c <= a ==>
              Spliced(s, FromInt(-a), FromInt(c), inserted) == s[..|s| - a] + inserted + s[|s| - a + c..]
  {
    hide RelativeIndex, DeleteCount;
    IntegerPlace(a, |s|);
    IntegerPlace(-a, |s|);
    IntegerCount(c, |s| - a);
    IntegerCount(c, a);
  }

  lemma IntegerCount(c: int, available: nat)
    ensures 0 <= c <= available ==> DeleteCount(FromInt(c), available) == c
    ensures c < 0 ==> DeleteCount(FromInt(c), available) == 0
    ensures c > available ==> DeleteCount(FromInt(c), available) == available
  {
  }
}
