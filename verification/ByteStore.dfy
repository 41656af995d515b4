/** Bytes shared between typed arrays, buffers and views. A store keeps elements of one, four or eight
    bytes; every view addresses it by single bytes. Everything is proved against the flat sequence of
    bytes that the store stands for. Elements of every type are taken as their bit patterns. */
module ByteStore {
  import opened Arithmetic
  import opened Binary64
  import opened Bytes
  import opened Numbers
  import opened Options

  // ---- numbers as bytes, lowest first ----

  function Pow256(w: nat): (p: nat)
    ensures p > 0
  {
    if w == 0 then 1 else 256 * Pow256(w - 1)
  }

  function Digits(v: nat, w: nat): (d: seq<Octet>)
    ensures |d| == w
  {
    if w == 0 then [] else [v % 256] + Digits(v / 256, w - 1)
  }

  function Total(d: seq<Octet>): nat {
    if |d| == 0 then 0 else d[0] + 256 * Total(d[1..])
  }

  lemma {:induction false} TotalBound(d: seq<Octet>)
    ensures Total(d) < Pow256(|d|)
  {
    if |d| > 0 { TotalBound(d[1..]); }
  }

  lemma {:induction false} DigitsOfTotal(d: seq<Octet>)
    ensures Digits(Total(d), |d|) == d
  {
    if |d| > 0 {
      DivisionUnique(Total(d), 256, Total(d[1..]), d[0]);
      DigitsOfTotal(d[1..]);
    }
  }

  lemma {:induction false} TotalOfDigits(v: nat, w: nat)
    ensures Total(Digits(v, w)) == v % Pow256(w)
    decreases w
  {
    if w == 0 {
      assert v % 1 == 0;
    } else {
      var p := Pow256(w - 1);
      var q, r := v / 256, v % 256;
      TotalOfDigits(q, w - 1);
      assert Digits(v, w)[1..] == Digits(q, w - 1);
      assert q == p * (q / p) + q % p;
      assert v == (256 * p) * (q / p) + (256 * (q % p) + r) by { Regroup(256, p, q / p); }
      DivisionUnique(v, 256 * p, q / p, 256 * (q % p) + r);
    }
  }

  lemma {:induction false} DigitAt(v: nat, w: nat, i: nat)
    requires i < w
    ensures Digits(v, w)[i] == (v / Pow256(i)) % 256
    decreases i
  {
    if i > 0 {
      DigitAt(v / 256, w - 1, i - 1);
      DivideTwice(v, 256, Pow256(i - 1));
    } else {
      assert v / 1 == v;
    }
  }

  lemma {:induction false} TotalAppend(d: seq<Octet>, b: Octet)
    ensures Total(d + [b]) == Total(d) + b * Pow256(|d|)
  {
    if |d| == 0 {
      assert d + [b] == [b];
    } else {
      TotalAppend(d[1..], b);
      assert (d + [b])[1..] == d[1..] + [b];
      assert 256 * (b * Pow256(|d| - 1)) == b * (256 * Pow256(|d| - 1));
    }
  }

  lemma TotalOfPrefix(d: seq<Octet>, i: nat)
    requires i <= |d|
    ensures Total(d[..0]) == 0
    ensures i < |d| ==> Total(d[..i + 1]) == Total(d[..i]) + d[i] * Pow256(i)
  {
    if i < |d| {
      TotalAppend(d[..i], d[i]);
      assert d[..i] + [d[i]] == d[..i + 1];
    }
  }

  /** Lowest byte first, or highest byte first. */
  function Ordered(d: seq<Octet>, little: bool): (r: seq<Octet>)
    ensures |r| == |d|
    ensures forall i | 0 <= i < |d| :: r[i] == d[if little then i else |d| - 1 - i]
  {
    if little then d else seq(|d|, i requires 0 <= i < |d| => d[|d| - 1 - i])
  }

  lemma OrderedTwice(d: seq<Octet>, little: bool)
    ensures Ordered(Ordered(d, little), little) == d
  {
  }

  // ---- the flat sequence ----

  /** The bytes of one element in the order of the machine. */
  function Native(element: nat, width: nat, little: bool): (bytes: seq<Octet>)
    ensures |bytes| == width
  {
    Ordered(Digits(element, width), little)
  }

  function SetByte(element: nat, width: nat, little: bool, j: nat, b: Octet): nat
    requires j < width
  {
    Total(Ordered(Native(element, width, little)[j := b], little))
  }

  /** Where an element's bytes begin. */
  function Start(k: nat, width: nat): nat {
    k * width
  }

  lemma StartStep(k: nat, width: nat)
    ensures Start(k + 1, width) == Start(k, width) + width && Start(0, width) == 0
  {
    assert (k + 1) * width == k * width + width;
  }

  lemma StartBelow(k: nat, n: nat, width: nat)
    requires k < n
    ensures Start(k, width) + width <= Start(n, width)
  {
    ScaleWeak(k + 1, n, width);
    assert (k + 1) * width == k * width + width;
  }

  function FlatOf(elements: seq<nat>, width: nat, little: bool): (flat: seq<Octet>)
    ensures |flat| == Start(|elements|, width)
  {
    if |elements| == 0 then []
    else
      StartStep(|elements| - 1, width);
      Native(elements[0], width, little) + FlatOf(elements[1..], width, little)
  }

  lemma {:induction false} FlatAt(elements: seq<nat>, width: nat, little: bool, k: nat, j: nat)
    requires k < |elements| && j < width
    ensures Start(k, width) + j < Start(|elements|, width)
    ensures FlatOf(elements, width, little)[Start(k, width) + j] == Native(elements[k], width, little)[j]
  {
    hide Native, Start;
    StartBelow(k, |elements|, width);
    StartStep(if k > 0 then k - 1 else 0, width);
    var head, rest := Native(elements[0], width, little), FlatOf(elements[1..], width, little);
    assert FlatOf(elements, width, little) == head + rest;
    if k > 0 { FlatAt(elements[1..], width, little, k - 1, j); }
  }

  lemma SetByteDigits(element: nat, width: nat, little: bool, j: nat, b: Octet)
    requires j < width
    ensures Native(SetByte(element, width, little, j, b), width, little) == Native(element, width, little)[j := b]
    ensures SetByte(element, width, little, j, b) < Pow256(width)
  {
    var bytes := Native(element, width, little)[j := b];
    DigitsOfTotal(Ordered(bytes, little));
    TotalBound(Ordered(bytes, little));
    OrderedTwice(bytes, little);
  }

  lemma FlatFirst(elements: seq<nat>, width: nat, little: bool)
    requires elements != []
    ensures FlatOf(elements, width, little) == Native(elements[0], width, little) + FlatOf(elements[1..], width, little)
  {
  }

  lemma UpdateHead(head: seq<Octet>, rest: seq<Octet>, i: nat, b: Octet)
    requires i < |head|
    ensures var whole: seq<Octet> := head + rest; whole[i := b] == head[i := b] + rest
  {
  }

  lemma UpdateTail(head: seq<Octet>, rest: seq<Octet>, i: nat, b: Octet)
    requires i < |rest|
    ensures var whole: seq<Octet> := head + rest; whole[|head| + i := b] == head + rest[i := b]
  {
  }

  /** Replacing one byte of one element replaces that byte of the flat sequence and no other. */
  lemma {:induction false} FlatUpdate(elements: seq<nat>, width: nat, little: bool, k: nat, j: nat, b: Octet)
    requires k < |elements| && j < width
    ensures Start(k, width) + j < Start(|elements|, width)
    ensures FlatOf(elements[k := SetByte(elements[k], width, little, j, b)], width, little)
            == FlatOf(elements, width, little)[Start(k, width) + j := b]
  {
    hide SetByte, Native, Pow256, Start, Digits, Total, Ordered, FlatOf;
    SetByteDigits(elements[k], width, little, j, b);
    StartBelow(k, |elements|, width);
    StartStep(if k > 0 then k - 1 else 0, width);
    var e := SetByte(elements[k], width, little, j, b);
    var next := elements[k := e];
    var head, rest := Native(elements[0], width, little), FlatOf(elements[1..], width, little);
    var flat := FlatOf(elements, width, little);
    FlatFirst(elements, width, little);
    FlatFirst(next, width, little);
    if k == 0 {
      assert next[1..] == elements[1..];
      UpdateHead(head, rest, j, b);
    } else {
      assert next[1..] == elements[1..][k - 1 := e];
      FlatUpdate(elements[1..], width, little, k - 1, j, b);
      assert FlatOf(next[1..], width, little) == rest[Start(k - 1, width) + j := b];
      var n := Start(k - 1, width);
      UpdateTail(head, rest, n + j, b);
    }
  }

  class Backing {
    const width: nat
    const little: bool
    var elements: seq<nat>

    ghost predicate Valid()
      reads this
    {
      (width == 1 || width == 4 || width == 8) && forall i | 0 <= i < |elements| :: elements[i] < Pow256(width)
    }

    ghost function Flat(): (flat: seq<Octet>)
      reads this
    {
      FlatOf(elements, width, little)
    }

    constructor (width: nat, little: bool, elements: seq<nat>)
      requires width == 1 || width == 4 || width == 8
      requires forall i | 0 <= i < |elements| :: elements[i] < Pow256(width)
      ensures Valid() && Flat() == FlatOf(elements, width, little)
    {
      this.width := width;
      this.little := little;
      this.elements := elements;
    }

    method ByteLen() returns (n: nat)
      requires Valid()
      ensures n == |Flat()|
    {
      n := |elements| * width;
    }

    method Get(index: nat) returns (b: Octet)
      requires Valid() && index < |Flat()|
      ensures b == Flat()[index]
    {
      var element, byte := Position(index);
      FlatAt(elements, width, little, element, byte);
      b := Native(elements[element], width, little)[byte];
    }

    method Set(index: nat, b: Octet)
      requires Valid() && index < |Flat()|
      modifies this
      ensures Valid() && |elements| == old(|elements|)
      ensures Flat() == old(Flat())[index := b]
    {
      hide Native, Pow256, Start, FlatOf, Digits, Total, Ordered;
      var element, byte := Position(index);
      var bytes := Native(elements[element], width, little);
      bytes := bytes[byte := b];
      FlatUpdate(elements, width, little, element, byte, b);
      SetByteDigits(elements[element], width, little, byte, b);
      elements := elements[element := Total(Ordered(bytes, little))];
    }

    method Position(index: nat) returns (element: nat, byte: nat)
      requires Valid() && index < |Flat()|
      ensures element < |elements| && byte < width && index == Start(element, width) + byte
    {
      if width == 1 {
        element, byte := index, 0;
      } else if width == 4 {
        element, byte := index / 4, index % 4;
      } else {
        element, byte := index / 8, index % 8;
      }
    }
  }

  // ---- views ----

  datatype View = View(store: Backing, offset: nat, length: nat)

  ghost predicate Live(view: View)
    reads view.store
  {
    view.store.Valid() && view.offset + view.length <= |view.store.Flat()|
  }

  ghost function Contents(view: View): (bytes: seq<Octet>)
    requires Live(view)
    reads view.store
  {
    view.store.Flat()[view.offset..view.offset + view.length]
  }

  function Splice<T>(bytes: seq<T>, at: nat, part: seq<T>): (r: seq<T>)
    requires at + |part| <= |bytes|
    ensures |r| == |bytes|
  {
    bytes[..at] + part + bytes[at + |part|..]
  }

  /** A view of part of a view, over the same store. */
  function Subarray(view: View, start: Number, end: Number): View {
    var from := RelativeIndex(start, view.length);
    var to := Max(RelativeIndex(end, view.length), from);
    View(view.store, view.offset + from, to - from)
  }

  lemma SubarrayContents(view: View, start: Number, end: Number)
    requires Live(view)
    ensures var part := Subarray(view, start, end);
            Live(part) && part.store == view.store && Contents(part) == Sliced(Contents(view), start, end)
  {
    hide RelativeIndex, FlatOf;
    var from, to := RelativeIndex(start, view.length), RelativeIndex(end, view.length);
    var flat, o := view.store.Flat(), view.offset;
    if from <= to { SliceOfSlice(flat, o, view.length, from, to); }
  }

  lemma SliceOfSlice(s: seq<Octet>, o: nat, length: nat, from: nat, to: nat)
    requires from <= to <= length && o + length <= |s|
    ensures s[o..o + length][from..to] == s[o + from..o + to]
  {
    var whole := s[o..o + length];
    forall i | 0 <= i < to - from ensures whole[from..to][i] == s[o + from..o + to][i] {
      assert whole[from..to][i] == whole[from + i];
    }
  }

  lemma ViewByte(view: View, offset: nat, width: nat, i: nat)
    requires Live(view) && offset + width <= view.length && i < width
    ensures Contents(view)[offset..offset + width][i] == view.store.Flat()[view.offset + offset + i]
  {
    hide FlatOf;
    var all := Contents(view);
    assert all[offset..offset + width][i] == all[offset + i];
  }

  method ReadUnsigned(view: View, offset: nat, width: nat, little: bool) returns (value: nat)
    requires Live(view) && offset + width <= view.length
    ensures value == Total(Ordered(Contents(view)[offset..offset + width], little))
  {
    hide FlatOf, Ordered, Pow256, Total;
    ghost var part := Contents(view)[offset..offset + width];
    ghost var bytes := Ordered(part, little);
    value := 0;
    TotalOfPrefix(bytes, 0);
    var index := 0;
    while index < width
      invariant 0 <= index <= width
      invariant value == Total(bytes[..index])
    {
      var source := if little then index else width - 1 - index;
      var b := view.store.Get(view.offset + offset + source);
      ViewByte(view, offset, width, source);
      assert bytes[index] == part[source];
      TotalOfPrefix(bytes, index);
      value := value + b * Pow256(index);
      index := index + 1;
    }
    assert bytes[..index] == bytes;
  }

  /** The bytes `now` are those before, with `index` of the digits in their places. */
  ghost predicate Filling(before: seq<Octet>, now: seq<Octet>, base: nat, digits: seq<Octet>, little: bool, index: nat)
    requires base + |digits| <= |before|
  {
    && |now| == |before| && index <= |digits|
    && (forall i | 0 <= i < |before| && !(base <= i < base + |digits|) :: now[i] == before[i])
    && (forall i | 0 <= i < index :: now[base + if little then i else |digits| - 1 - i] == digits[i])
  }

  lemma Filled(before: seq<Octet>, now: seq<Octet>, base: nat, digits: seq<Octet>, little: bool)
    requires base + |digits| <= |before| && Filling(before, now, base, digits, little, |digits|)
    ensures now == Splice(before, base, Ordered(digits, little))
  {
    hide Splice, Ordered, Filling;
    forall i | 0 <= i < |before|
      ensures |now| == |before| && now[i] == Splice(before, base, Ordered(digits, little))[i]
    {
      FilledAt(before, now, base, digits, little, i);
      SpliceAt(before, base, Ordered(digits, little), i);
    }
    FilledLength(before, now, base, digits, little);
  }

  lemma FilledLength(before: seq<Octet>, now: seq<Octet>, base: nat, digits: seq<Octet>, little: bool)
    requires base + |digits| <= |before| && Filling(before, now, base, digits, little, |digits|)
    ensures |now| == |before|
  {
  }

  lemma FilledAt(before: seq<Octet>, now: seq<Octet>, base: nat, digits: seq<Octet>, little: bool, i: nat)
    requires base + |digits| <= |before| && Filling(before, now, base, digits, little, |digits|) && i < |before|
    ensures |now| == |before|
    ensures now[i] == if base <= i < base + |digits| then Ordered(digits, little)[i - base] else before[i]
  {
    if base <= i < base + |digits| {
      var j := if little then i - base else |digits| - 1 - (i - base);
      assert now[base + if little then j else |digits| - 1 - j] == digits[j];
    }
  }

  lemma SpliceAt(bytes: seq<Octet>, at: nat, part: seq<Octet>, i: nat)
    requires at + |part| <= |bytes| && i < |bytes|
    ensures Splice(bytes, at, part)[i] == if at <= i < at + |part| then part[i - at] else bytes[i]
  {
  }

  lemma FillStep(before: seq<Octet>, now: seq<Octet>, base: nat, digits: seq<Octet>, little: bool, index: nat)
    requires base + |digits| <= |before| && Filling(before, now, base, digits, little, index) && index < |digits|
    ensures var at := base + if little then index else |digits| - 1 - index;
            Filling(before, now[at := digits[index]], base, digits, little, index + 1)
  {
  }

  method WriteUnsigned(view: View, offset: nat, width: nat, little: bool, value: nat)
    requires Live(view) && offset + width <= view.length
    modifies view.store
    ensures Live(view) && |view.store.elements| == old(|view.store.elements|)
    ensures view.store.Flat() == Splice(old(view.store.Flat()), view.offset + offset, Ordered(Digits(value, width), little))
  {
    hide FlatOf, Digits, Pow256, Filling, Ordered, Splice;
    ghost var before := view.store.Flat();
    ghost var base := view.offset + offset;
    ghost var digits := Digits(value, width);
    var index := 0;
    FillStart(before, base, digits, little);
    while index < width
      invariant 0 <= index <= width
      invariant Live(view) && |view.store.elements| == old(|view.store.elements|)
      invariant Filling(before, view.store.Flat(), base, digits, little, index)
    {
      var target := if little then index else width - 1 - index;
      DigitAt(value, width, index);
      FillStep(before, view.store.Flat(), base, digits, little, index);
      view.store.Set(view.offset + offset + target, (value / Pow256(index)) % 256);
      index := index + 1;
    }
    Filled(before, view.store.Flat(), base, digits, little);
  }

  lemma FillStart(before: seq<Octet>, base: nat, digits: seq<Octet>, little: bool)
    requires base + |digits| <= |before|
    ensures Filling(before, before, base, digits, little, 0)
  {
  }

  // ---- variable-width integers ----

  function VarWidth(byteLength: Number): (width: Option<nat>)
    ensures width.Some? <==> IsInteger(byteLength) && 1.0 <= byteLength.r <= 6.0
    ensures width.Some? ==> 1 <= width.value <= 6 && width.value as real == byteLength.r
  {
    if IsInteger(byteLength) && 1.0 <= byteLength.r <= 6.0 then Some(byteLength.r.Floor) else None
  }

  function NumOffset(offset: Number, length: nat, width: nat): (at: Option<nat>)
    ensures at.Some? <==> IsInteger(offset) && 0.0 <= offset.r && offset.r + width as real <= length as real
    ensures at.Some? ==> at.value + width <= length && at.value as real == offset.r
  {
    if IsInteger(offset) && width <= length && 0.0 <= offset.r <= (length - width) as real
    then Some(offset.r.Floor) else None
  }

  /** NaN fails neither comparison. */
  predicate InRange(value: Number, width: nat, signed: bool) {
    match value
    case NaN => true
    case PosInf => false
    case NegInf => false
    case Finite(r) =>
      if signed then -(HalfSpan(width) as real) <= r <= (HalfSpan(width) - 1) as real
      else 0.0 <= r <= (Pow256(width) - 1) as real
  }

  function HalfSpan(width: nat): nat {
    Pow256(width) / 2
  }

  function Integral(value: Number): int {
    match value
    case Finite(r) => Trunc(r)
    case _ => 0
  }

  /** The 64-bit pattern of an integer. */
  function Pattern(v: int): nat
    requires -(Pow256(8) as int) <= v < Pow256(8)
  {
    if v < 0 then v + Pow256(8) else v
  }

  function Signed(v: nat, width: nat, signed: bool): int {
    if signed && v >= HalfSpan(width) then v - Pow256(width) else v
  }

  /** The new bytes and the offset after them, or None for a RangeError. */
  function Written(bytes: seq<Octet>, value: Number, offset: Number, byteLength: Number, signed: bool, little: bool)
    : Option<(seq<Octet>, nat)>
  {
    match VarWidth(byteLength)
    case None => None
    case Some(width) =>
      if !InRange(value, width, signed) then None
      else
        match NumOffset(offset, |bytes|, width)
        case None => None
        case Some(at) =>
          IntegralFits(value, width, signed);
          Some((Splice(bytes, at, Ordered(Digits(Pattern(Integral(value)), width), little)), at + width))
  }

  function ReadBack(bytes: seq<Octet>, offset: Number, byteLength: Number, signed: bool, little: bool): Option<int> {
    match VarWidth(byteLength)
    case None => None
    case Some(width) =>
      match NumOffset(offset, |bytes|, width)
      case None => None
      case Some(at) => Some(Signed(Total(Ordered(bytes[at..at + width], little)), width, signed))
  }

  lemma {:induction false} Pow256Splits(a: nat, b: nat)
    ensures Pow256(a + b) == Pow256(a) * Pow256(b)
  {
    if a > 0 {
      Pow256Splits(a - 1, b);
      Regroup(256, Pow256(a - 1), Pow256(b));
    }
  }

  lemma IntegralFits(value: Number, width: nat, signed: bool)
    requires 1 <= width <= 6 && InRange(value, width, signed)
    ensures var v := Integral(value);
            var low: int := if signed then 0 - HalfSpan(width) else 0;
            var high: int := if signed then HalfSpan(width) else Pow256(width);
            low <= v < high
    ensures -(Pow256(8) as int) <= Integral(value) < Pow256(8)
    ensures Pow256(width) == 2 * HalfSpan(width)
  {
    SpanFits(width);
    hide Pow256, HalfSpan;
  }

  lemma SpanFits(width: nat)
    requires 1 <= width <= 6
    ensures Pow256(width) == 2 * HalfSpan(width) && Pow256(width) <= Pow256(8)
  {
    assert Pow256(width) == 256 * Pow256(width - 1);
    hide Pow256;
    Pow256Splits(width, 8 - width);
    ScaleWeak(1, Pow256(8 - width), Pow256(width));
  }

  /** A write succeeds exactly when width, value and offset are acceptable, and reading the same place
      the same way gives the integer part of what was written; no other byte changes. */
  lemma VarRoundTrip(bytes: seq<Octet>, value: Number, offset: Number, byteLength: Number, signed: bool, little: bool)
    ensures var w := Written(bytes, value, offset, byteLength, signed, little);
            var width := VarWidth(byteLength);
            && (w.Some? <==> width.Some? && InRange(value, width.value, signed)
                             && NumOffset(offset, |bytes|, width.value).Some?)
            && (w.Some? ==>
                  var at := NumOffset(offset, |bytes|, width.value).value;
                  && |w.value.0| == |bytes| && w.value.1 == at + width.value
                  && ReadBack(w.value.0, offset, byteLength, signed, little) == Some(Integral(value))
                  && forall i | 0 <= i < |bytes| && !(at <= i < at + width.value) :: w.value.0[i] == bytes[i])
  {
    hide Digits, Total, Ordered, Signed, InRange, Integral, Pow256, NumOffset, VarWidth, Pattern, Splice;
    var w := Written(bytes, value, offset, byteLength, signed, little);
    if w.Some? {
      var width := VarWidth(byteLength).value;
      var at := NumOffset(offset, |bytes|, width).value;
      IntegralFits(value, width, signed);
      var part := Ordered(Digits(Pattern(Integral(value)), width), little);
      SplicedReads(bytes, at, part);
      OrderedTwice(Digits(Pattern(Integral(value)), width), little);
      ValueOfDigits(Integral(value), width, signed);
    }
  }

  lemma SplicedReads(bytes: seq<Octet>, at: nat, part: seq<Octet>)
    requires at + |part| <= |bytes|
    ensures Splice(bytes, at, part)[at..at + |part|] == part
    ensures forall i | 0 <= i < |bytes| && !(at <= i < at + |part|) :: Splice(bytes, at, part)[i] == bytes[i]
  {
  }

  /** An integer in range is what its low digits are read as. */
  lemma ValueOfDigits(v: int, width: nat, signed: bool)
    requires 1 <= width <= 6 && Pow256(width) == 2 * HalfSpan(width)
    requires if signed then -(HalfSpan(width) as int) <= v < HalfSpan(width) else 0 <= v < Pow256(width)
    requires -(Pow256(8) as int) <= v < Pow256(8)
    ensures Signed(Total(Digits(Pattern(v), width)), width, signed) == v
  {
    hide Digits, Total, Pow256, HalfSpan;
    TotalOfDigits(Pattern(v), width);
    PatternResidue(v, width);
  }

  /** Keeping the low bytes of the 64-bit pattern is reduction modulo the span. */
  lemma PatternResidue(v: int, width: nat)
    requires 1 <= width <= 6 && -(Pow256(width) as int) <= v < Pow256(width) && -(Pow256(8) as int) <= v < Pow256(8)
    ensures Pattern(v) % Pow256(width) == if v < 0 then v + Pow256(width) else v
  {
    hide Pow256;
    var p := Pow256(width);
    if v < 0 {
      var k := Pow256(8 - width);
      Pow256Splits(width, 8 - width);
      assert p * (k - 1) + p == p * k;
      DivisionUnique(v + Pow256(8), p, k - 1, v + p);
    } else {
      DivisionUnique(v, p, 0, v);
    }
  }

  /** Writing back what was read changes nothing. */
  lemma VarReadWrite(bytes: seq<Octet>, offset: Number, byteLength: Number, signed: bool, little: bool)
    ensures var r := ReadBack(bytes, offset, byteLength, signed, little);
            r.Some? ==>
              var w := Written(bytes, Finite(r.value as real), offset, byteLength, signed, little);
              w.Some? && w.value.0 == bytes
  {
    hide Digits, Total, Ordered, Signed, InRange, Integral, Pow256, HalfSpan, NumOffset, VarWidth, Pattern, Splice;
    var r := ReadBack(bytes, offset, byteLength, signed, little);
    if r.Some? {
      var width := VarWidth(byteLength).value;
      var at := NumOffset(offset, |bytes|, width).value;
      var part := bytes[at..at + width];
      SameDigits(Ordered(part, little), signed);
      OrderedTwice(part, little);
      SpliceSame(bytes, at, width);
    }
  }

  /** The sum of the n lowest bytes of a number, each with its weight; the lowest byte comes first or
      last. */
  function Weighted(bytes: seq<Octet>, at: nat, width: nat, little: bool, n: nat): nat
    requires n <= width && at + width <= |bytes|
  {
    if n == 0 then 0
    else Weighted(bytes, at, width, little, n - 1) + bytes[if little then at + n - 1 else at + width - n] * Pow256(n - 1)
  }

  lemma {:induction false} WeightedTotal(bytes: seq<Octet>, at: nat, width: nat, little: bool, n: nat)
    requires n <= width && at + width <= |bytes|
    ensures Weighted(bytes, at, width, little, n) == Total(Ordered(bytes[at..at + width], little)[..n])
    decreases n
  {
    var d := Ordered(bytes[at..at + width], little);
    if n == 0 {
      TotalOfPrefix(d, 0);
    } else {
      WeightedTotal(bytes, at, width, little, n - 1);
      TotalOfPrefix(d, n - 1);
    }
  }

  /** A read is refused unless width and offset are integers that address bytes, and then gives the
      weighted sum of exactly those bytes, as two's complement if it is signed. */
  lemma VarReads(bytes: seq<Octet>, k: int, w: int, signed: bool, little: bool)
    ensures var r := ReadBack(bytes, FromInt(k), FromInt(w), signed, little);
            && (r.Some? <==> 1 <= w <= 6 && 0 <= k && k + w <= |bytes|)
            && (r.Some? ==> var sum := Weighted(bytes, k, w, little, w);
                            r.value == if signed && 2 * sum >= Pow256(w) then sum - Pow256(w) else sum)
  {
    hide Total, Ordered, Pow256;
    if 1 <= w <= 6 && 0 <= k && k + w <= |bytes| {
      WeightedTotal(bytes, k, w, little, w);
      var d := Ordered(bytes[k..k + w], little);
      assert d[..w] == d;
      SpanFits(w);
      assert VarWidth(FromInt(w)) == Some(w) && NumOffset(FromInt(k), |bytes|, w) == Some(k);
    }
  }

  /** An integer is written exactly if width and offset are such integers and it fits. */
  lemma VarWrites(bytes: seq<Octet>, v: int, k: int, w: int, signed: bool, little: bool)
    ensures Written(bytes, FromInt(v), FromInt(k), FromInt(w), signed, little).Some?
            <==> 1 <= w <= 6 && 0 <= k && k + w <= |bytes|
                 && if signed then -(Pow256(w) as int) <= 2 * v < Pow256(w) else 0 <= v < Pow256(w)
  {
    hide Digits, Total, Ordered, Pow256, Pattern, Splice;
    if 1 <= w <= 6 {
      SpanFits(w);
      assert VarWidth(FromInt(w)) == Some(w);
    }
  }

  /** Fractions and what is no number address nothing. */
  lemma VarRefuses(bytes: seq<Octet>, value: Number, offset: Number, byteLength: Number, signed: bool, little: bool)
    requires !IsInteger(offset) || !IsInteger(byteLength)
    ensures ReadBack(bytes, offset, byteLength, signed, little) == None
    ensures Written(bytes, value, offset, byteLength, signed, little) == None
  {
    hide Digits, Total, Ordered, Signed, InRange, Integral, Pow256, Pattern, Splice;
  }

  /** In memory the first byte of an element is its lowest on a little-endian machine and its highest
      on the others. */
  lemma NativeByte(element: nat, width: nat, j: nat)
    requires j < width
    ensures Native(element, width, true)[j] == (element / Pow256(j)) % 256
    ensures Native(element, width, false)[width - 1 - j] == (element / Pow256(j)) % 256
  {
    DigitAt(element, width, j);
  }

  lemma SpliceSame(bytes: seq<Octet>, at: nat, width: nat)
    requires at + width <= |bytes|
    ensures Splice(bytes, at, bytes[at..at + width]) == bytes
  {
  }

  /** A number read from bytes is in range and writes as those bytes. */
  lemma SameDigits(digits: seq<Octet>, signed: bool)
    requires 1 <= |digits| <= 6
    ensures var value := Finite(Signed(Total(digits), |digits|, signed) as real);
            InRange(value, |digits|, signed)
            && -(Pow256(8) as int) <= Integral(value) < Pow256(8)
            && Integral(value) == Signed(Total(digits), |digits|, signed)
            && Digits(Pattern(Integral(value)), |digits|) == digits
  {
    var width := |digits|;
    var v := Signed(Total(digits), width, signed);
    TotalBound(digits);
    SignedInRange(Total(digits), width, signed);
    IntegralFits(Finite(v as real), width, signed);
    assert Integral(Finite(v as real)) == v;
    assert Total(digits) == if v < 0 then v + Pow256(width) else v;
    hide Digits, Total, Pow256, Signed, InRange, Integral, Pattern;
    PatternResidue(v, width);
    TotalOfDigits(Pattern(v), width);
    SameTotal(Digits(Pattern(v), width), digits);
  }

  lemma SignedInRange(u: nat, width: nat, signed: bool)
    requires 1 <= width <= 6 && u < Pow256(width)
    ensures InRange(Finite(Signed(u, width, signed) as real), width, signed)
  {
    hide Pow256, HalfSpan;
    SpanFits(width);
  }

  lemma SameTotal(a: seq<Octet>, b: seq<Octet>)
    requires |a| == |b| && Total(a) == Total(b)
    ensures a == b
  {
    DigitsOfTotal(a);
    DigitsOfTotal(b);
  }

  method WriteVar(view: View, value: Number, offset: Number, byteLength: Number, signed: bool, little: bool)
    returns (next: Option<nat>)
    requires Live(view)
    modifies view.store
    ensures Live(view)
    ensures var w := Written(old(Contents(view)), value, offset, byteLength, signed, little);
            match w
            case None => next == None && view.store.Flat() == old(view.store.Flat())
            case Some(done) =>
              next == Some(done.1)
              && view.store.Flat() == Splice(old(view.store.Flat()), view.offset, done.0)
  {
    hide FlatOf, Digits, Pow256, Ordered, InRange, Integral, HalfSpan, NumOffset, VarWidth, Pattern, Splice;
    var width := VarWidth(byteLength);
    if width == None { return None; }
    if !InRange(value, width.value, signed) { return None; }
    var at := NumOffset(offset, view.length, width.value);
    if at == None { return None; }
    IntegralFits(value, width.value, signed);
    var pattern := Pattern(Integral(value));
    SpliceWithin(view.store.Flat(), view.offset, view.length, at.value, Ordered(Digits(pattern, width.value), little));
    WriteUnsigned(view, at.value, width.value, little, pattern);
    next := Some(at.value + width.value);
  }

  lemma SpliceWithin(flat: seq<Octet>, offset: nat, length: nat, at: nat, part: seq<Octet>)
    requires offset + length <= |flat| && at + |part| <= length
    ensures Splice(flat, offset, Splice(flat[offset..offset + length], at, part)) == Splice(flat, offset + at, part)
  {
  }

  method ReadVar(view: View, offset: Number, byteLength: Number, signed: bool, little: bool) returns (value: Option<int>)
    requires Live(view)
    ensures value == ReadBack(Contents(view), offset, byteLength, signed, little)
  {
    hide FlatOf, Total, Pow256, Ordered, HalfSpan, NumOffset, VarWidth;
    var width := VarWidth(byteLength);
    if width == None { return None; }
    var at := NumOffset(offset, view.length, width.value);
    if at == None { return None; }
    var unsigned := ReadUnsigned(view, at.value, width.value, little);
    value := Some(Signed(unsigned, width.value, signed));
  }

  // ---- copying ----

  /** The target takes the bytes the source had before the call, however the two views overlap. */
  method SetFrom(target: View, source: View, offset: Number) returns (ok: bool)
    requires Live(target) && Live(source)
    modifies target.store
    ensures Live(target) && Live(source)
    ensures ok <==> (offset.NaN? || offset.Finite?) && 0 <= Integral(offset) <= target.length - source.length
    ensures target.store.Flat() ==
            if ok then Splice(old(target.store.Flat()), target.offset + Integral(offset), old(Contents(source)))
            else old(target.store.Flat())
  {
    hide FlatOf;
    var values := Values(source);
    if offset.PosInf? || offset.NegInf? { return false; }
    var start := Integral(offset);
    if start < 0 || start > target.length || |values| > target.length - start { return false; }
    ghost var before := target.store.Flat();
    ghost var base := target.offset + start;
    var index := 0;
    while index < |values|
      invariant 0 <= index <= |values|
      invariant target.store.Valid() && |target.store.elements| == old(|target.store.elements|)
      invariant target.store.Flat() == Splice(before, base, values[..index])
    {
      target.store.Set(target.offset + start + index, values[index]);
      SpliceGrows(before, base, values, index);
      index := index + 1;
    }
    assert values[..index] == values;
    ok := true;
  }

  /** The storage of a typed array, shared by its views. */
  class Storage<T> {
    var elements: seq<T>

    constructor (elements: seq<T>)
      ensures this.elements == elements
    {
      this.elements := elements;
    }
  }

  datatype TypedView<T> = TypedView(storage: Storage<T>, offset: nat, length: nat)

  ghost predicate Inside<T>(view: TypedView<T>)
    reads view.storage
  {
    view.offset + view.length <= |view.storage.elements|
  }

  /** The same for typed arrays of any element type, which copy whole elements. */
  method SetElements<T>(target: TypedView<T>, source: TypedView<T>, offset: Number) returns (ok: bool)
    requires Inside(target) && Inside(source)
    modifies target.storage
    ensures Inside(target) && Inside(source)
    ensures ok <==> (offset.NaN? || offset.Finite?) && 0 <= Integral(offset) <= target.length - source.length
    ensures target.storage.elements ==
            if ok then Splice(old(target.storage.elements), target.offset + Integral(offset),
                              old(source.storage.elements[source.offset..source.offset + source.length]))
            else old(target.storage.elements)
  {
    var values := source.storage.elements[source.offset..source.offset + source.length];
    if offset.PosInf? || offset.NegInf? { return false; }
    var start := Integral(offset);
    if start < 0 || start > target.length || |values| > target.length - start { return false; }
    target.storage.elements := Splice(target.storage.elements, target.offset + start, values);
    ok := true;
  }

  lemma SpliceGrows(bytes: seq<Octet>, at: nat, part: seq<Octet>, index: nat)
    requires at + |part| <= |bytes| && index < |part|
    ensures Splice(bytes, at, part[..index])[at + index := part[index]] == Splice(bytes, at, part[..index + 1])
  {
  }

  method Values(view: View) returns (values: seq<Octet>)
    requires Live(view)
    ensures values == Contents(view)
  {
    values := [];
    var index := 0;
    while index < view.length
      invariant 0 <= index <= view.length
      invariant values == Contents(view)[..index]
    {
      var b := view.store.Get(view.offset + index);
      values := values + [b];
      index := index + 1;
    }
  }

  // ---- numbers to bytes ----

  const MAX_I64 := 0x7FFF_FFFF_FFFF_FFFF
  const MIN_I64 := -0x8000_0000_0000_0000

  /** The saturating cast of a floating-point number to 64 bits. */
  function Saturated(value: Number): int {
    match value
    case NaN => 0
    case PosInf => MAX_I64
    case NegInf => MIN_I64
    case Finite(r) =>
      var i := Trunc(r);
      if i > MAX_I64 then MAX_I64 else if i < MIN_I64 then MIN_I64 else i
  }

  function FromNumber(value: Number): Octet {
    var integer := Saturated(value);
    if integer == MAX_I64 then 0 else integer % 256
  }

  /** ToUint8, section 7.1.11 of ECMA-262. */
  function ToUint8(value: Number): Octet {
    match value
    case Finite(r) => Trunc(r) % 256
    case _ => 0
  }

  /** Powers below the eighth are at most 128. */
  lemma {:induction false} SmallPower(e: int)
    requires e < 8
    ensures 0.0 < Power(e) <= 128.0
    decreases 7 - e
  {
    if e == 7 {
      PowerIsPow2(7);
      assert Pow2(3) == 8 && Pow2(7) == 128;
    } else {
      SmallPower(e + 1);
      PowerNext(e);
    }
  }

  lemma LargePower(e: int)
    requires e >= 8
    ensures Power(e) == (256 * Pow2(e - 8)) as real
  {
    PowerIsPow2(e);
    Pow2Adds(8, e - 8);
    assert Pow2(4) == 16 && Pow2(8) == 256;
  }

  /** Through one saturating cast and one correction, every number a program can hold becomes the byte
      the standard asks for. */
  lemma FromNumberExact(value: Number)
    requires value.Finite? ==> IsBinary64(value.r)
    ensures FromNumber(value) == ToUint8(value)
  {
    hide Power, Pow2, FromNumber, ToUint8;
    if value.Finite? {
      var m, e :| Represents(value.r, m, e);
      if e < 8 {
        SmallPower(e);
        MagnitudeBound(m, Power(e));
        InRangeExact(value.r);
      } else {
        LargePower(e);
        MultipleOf256(value.r, m, Pow2(e - 8));
        MultipleExact(value.r);
      }
    } else {
      NotFiniteExact(value);
    }
  }

  lemma NotFiniteExact(value: Number)
    requires !value.Finite?
    ensures FromNumber(value) == ToUint8(value)
  {
  }

  lemma InRangeExact(r: real)
    requires -1152921504606846976.0 <= r <= 1152921504606846976.0
    ensures FromNumber(Finite(r)) == ToUint8(Finite(r))
  {
  }

  /** Saturation keeps the low byte of a multiple of 256. */
  lemma MultipleExact(r: real)
    requires Trunc(r) % 256 == 0
    ensures FromNumber(Finite(r)) == ToUint8(Finite(r))
  {
  }

  lemma MultipleOf256(r: real, m: int, p: nat)
    requires r == m as real * (256 * p) as real
    ensures Trunc(r) % 256 == 0
  {
    var k := m * (256 * p);
    assert r == k as real;
    assert k == 256 * (m * p);
    DivisionUnique(k, 256, m * p, 0);
  }

  lemma MagnitudeBound(m: int, p: real)
    requires -0x20_0000_0000_0000 <= m <= 0x20_0000_0000_0000 && 0.0 < p <= 128.0
    ensures -1152921504606846976.0 <= m as real * p <= 1152921504606846976.0
  {
    var x := m as real;
    if m >= 0 {
      ScaleBound(x, 9007199254740992.0, p, 128.0);
    } else {
      ScaleBound(-x, 9007199254740992.0, p, 128.0);
      Opposite(x, p);
    }
  }

  lemma ScaleBound(n: real, k: real, p: real, c: real)
    requires 0.0 <= n <= k && 0.0 < p <= c
    ensures 0.0 <= n * p <= k * c
  {
    RealScale(0.0, n, p);
    RealScale(n, k, p);
    if k > 0.0 { RealScale(p, c, k); }
  }

  lemma Opposite(x: real, p: real)
    ensures (-x) * p == -(x * p)
  {
  }
}
