/** Lossy UTF-8 decoding with one replacement character per maximal subpart
    (section 3.9 of the Unicode Standard, Table 3-7 and definition D93b). */
module Utf8 {
  import opened Bytes

  type Text = seq<bv32>

  const REPLACEMENT: bv32 := 0xFFFD

  predicate Continuation(b: Byte) {
    b & 0xC0 == 0x80
  }

  /** The second bytes Table 3-7 allows after a three- or four-byte lead. */
  predicate Second(lead: Byte, b: Byte) {
    match lead
    case 0xE0 => 0xA0 <= b <= 0xBF
    case 0xED => 0x80 <= b <= 0x9F
    case 0xF0 => 0x90 <= b <= 0xBF
    case 0xF4 => 0x80 <= b <= 0x8F
    case _ => 0x80 <= b <= 0xBF
  }

  /** Table 3-7: the byte sequences that encode one scalar value. */
  predicate WellFormed(s: seq<Byte>) {
    || (|s| == 1 && s[0] <= 0x7F)
    || (|s| == 2 && 0xC2 <= s[0] <= 0xDF && Continuation(s[1]))
    || (|s| == 3 && 0xE0 <= s[0] <= 0xEF && Second(s[0], s[1]) && Continuation(s[2]))
    || (|s| == 4 && 0xF0 <= s[0] <= 0xF4 && Second(s[0], s[1]) && Continuation(s[2]) && Continuation(s[3]))
  }

  ghost predicate StartsWellFormed(s: seq<Byte>) {
    exists w: seq<Byte> :: WellFormed(w) && s <= w
  }

  /** One decoding step: how many bytes it takes and whether they encode a scalar value. */
  datatype Unit = Unit(length: nat, valid: bool)

  function FirstUnit(s: seq<Byte>): (u: Unit)
    requires s != []
    ensures 1 <= u.length <= 4 && u.length <= |s|
    ensures forall i :: 1 <= i < u.length ==> Continuation(s[i])
  {
    var lead := s[0];
    if lead <= 0x7F then Unit(1, true)
    else if 0xC2 <= lead <= 0xDF then
      if |s| > 1 && Continuation(s[1]) then Unit(2, true) else Unit(1, false)
    else if 0xE0 <= lead <= 0xEF then
      if |s| > 1 && Second(lead, s[1]) then
        if |s| > 2 && Continuation(s[2]) then Unit(3, true) else Unit(2, false)
      else Unit(1, false)
    else if 0xF0 <= lead <= 0xF4 then
      if |s| > 1 && Second(lead, s[1]) then
        if |s| > 2 && Continuation(s[2]) then
          if |s| > 3 && Continuation(s[3]) then Unit(4, true) else Unit(3, false)
        else Unit(2, false)
      else Unit(1, false)
    else Unit(1, false)
  }

  /** The step is the standard's: a well-formed sequence when one starts here, otherwise the
      longest prefix that starts a well-formed sequence, and never less than one byte. */
  lemma FirstUnitIsMaximalSubpart(s: seq<Byte>)
    requires s != []
    ensures var u := FirstUnit(s);
            if u.valid then WellFormed(s[..u.length])
            else
              && (forall n :: 0 < n <= |s| ==> !WellFormed(s[..n]))
              && (u.length == 1 || StartsWellFormed(s[..u.length]))
              && (forall n :: u.length < n <= |s| ==> !StartsWellFormed(s[..n]))
  {
    var u := FirstUnit(s);
    if !u.valid {
      forall n | 0 < n <= |s| ensures !WellFormed(s[..n]) {
      }
      if u.length == 2 {
        var w := if s[0] < 0xF0 then s[..2] + [0x80] else s[..2] + [0x80, 0x80];
        assert WellFormed(w) && s[..2] <= w;
      } else if u.length == 3 {
        var w := s[..3] + [0x80];
        assert WellFormed(w) && s[..3] <= w;
      }
      forall n, w: seq<Byte> | u.length < n <= |s| && WellFormed(w) ensures !(s[..n] <= w) {
      }
    }
  }

  function Payload(b: Byte): bv32 { (b & 0x3F) as bv32 }

  function TwoBytes(a: Byte, b: Byte): bv32 {
    (((a & 0x1F) as bv32) << 6) | Payload(b)
  }

  function ThreeBytes(a: Byte, b: Byte, c: Byte): bv32 {
    (((a & 0x0F) as bv32) << 12) | (Payload(b) << 6) | Payload(c)
  }

  function FourBytes(a: Byte, b: Byte, c: Byte, d: Byte): bv32 {
    (((a & 0x07) as bv32) << 18) | (Payload(b) << 12) | (Payload(c) << 6) | Payload(d)
  }

  function CodePoint(s: seq<Byte>): bv32
    requires WellFormed(s)
  {
    match |s|
    case 1 => s[0] as bv32
    case 2 => TwoBytes(s[0], s[1])
    case 3 => ThreeBytes(s[0], s[1], s[2])
    case _ => FourBytes(s[0], s[1], s[2], s[3])
  }

  function UnitText(s: seq<Byte>): bv32
    requires s != []
  {
    var head := s[..FirstUnit(s).length];
    if FirstUnit(s).valid then CodePoint(head) else REPLACEMENT
  }

  /** The whole input decoded at once. */
  function Decode(s: seq<Byte>): Text {
    if s == [] then [] else [UnitText(s)] + Decode(s[FirstUnit(s).length..])
  }

  ghost predicate MaximalSubpart(s: seq<Byte>, n: nat) {
    0 < n <= |s| && (n == 1 || StartsWellFormed(s[..n])) && forall m :: n < m <= |s| ==> !StartsWellFormed(s[..m])
  }

  /** Ill-formed input: one replacement character for each maximal subpart. */
  lemma IllFormedDecodes(s: seq<Byte>, n: nat)
    requires MaximalSubpart(s, n) && forall m :: 0 < m <= |s| ==> !WellFormed(s[..m])
    ensures Decode(s) == [0xFFFD] + Decode(s[n..])
  {
    FirstUnitIsMaximalSubpart(s);
  }

  /** Well-formed input: the character it encodes. */
  lemma WellFormedDecodes(w: seq<Byte>, rest: seq<Byte>)
    requires WellFormed(w)
    ensures Decode(w + rest) == [CodePoint(w)] + Decode(rest)
  {
    WellFormedIsTaken(w, rest);
    assert (w + rest)[|w|..] == rest;
  }

  // ---- the encoder, and that decoding undoes it ----

  predicate Scalar(v: bv32) {
    v < 0xD800 || 0xE000 <= v <= 0x10FFFF
  }

  function Trail(v: bv32): Byte {
    (0x80 | (v & 0x3F)) as Byte
  }

  /** UTF-8 as a string stores it. */
  function EncodeScalar(v: bv32): seq<Byte>
    requires Scalar(v)
  {
    if v < 0x80 then [v as Byte]
    else if v < 0x800 then [(0xC0 | (v >> 6)) as Byte, Trail(v)]
    else if v < 0x10000 then [(0xE0 | (v >> 12)) as Byte, Trail(v >> 6), Trail(v)]
    else [(0xF0 | (v >> 18)) as Byte, Trail(v >> 12), Trail(v >> 6), Trail(v)]
  }

  function Encode(text: Text): seq<Byte>
    requires forall i :: 0 <= i < |text| ==> Scalar(text[i])
  {
    if text == [] then [] else EncodeScalar(text[0]) + Encode(text[1..])
  }

  lemma EncodedInTwo(v: bv32, lead: Byte)
    requires 0x80 <= v < 0x800 && lead == (0xC0 | (v >> 6)) as Byte
    ensures 0xC2 <= lead <= 0xDF && Continuation(Trail(v)) && TwoBytes(lead, Trail(v)) == v
  {
  }

  lemma TrailBits(v: bv32)
    ensures Continuation(Trail(v)) && Payload(Trail(v)) == v & 0x3F
  {
  }

  lemma LeadOfThree(v: bv32, lead: Byte)
    requires 0x800 <= v < 0x10000 && Scalar(v) && lead == (0xE0 | (v >> 12)) as Byte
    ensures 0xE0 <= lead <= 0xEF && (lead & 0x0F) as bv32 == v >> 12 && Second(lead, Trail(v >> 6))
    ensures ((v >> 12) << 12) | (((v >> 6) & 0x3F) << 6) | (v & 0x3F) == v
  {
  }

  lemma LeadOfFour(v: bv32, lead: Byte)
    requires 0x10000 <= v <= 0x10FFFF && lead == (0xF0 | (v >> 18)) as Byte
    ensures 0xF0 <= lead <= 0xF4 && (lead & 0x07) as bv32 == v >> 18 && Second(lead, Trail(v >> 12))
    ensures ((v >> 18) << 18) | (((v >> 12) & 0x3F) << 12) | (((v >> 6) & 0x3F) << 6) | (v & 0x3F) == v
  {
  }

  lemma ThreeFrom(a: Byte, b: Byte, c: Byte, v: bv32)
    requires (a & 0x0F) as bv32 == v >> 12 && Payload(b) == (v >> 6) & 0x3F && Payload(c) == v & 0x3F
    ensures ThreeBytes(a, b, c) == ((v >> 12) << 12) | (((v >> 6) & 0x3F) << 6) | (v & 0x3F)
  {
  }

  lemma FourFrom(a: Byte, b: Byte, c: Byte, d: Byte, v: bv32)
    requires (a & 0x07) as bv32 == v >> 18 && Payload(b) == (v >> 12) & 0x3F
    requires Payload(c) == (v >> 6) & 0x3F && Payload(d) == v & 0x3F
    ensures FourBytes(a, b, c, d) == ((v >> 18) << 18) | (((v >> 12) & 0x3F) << 12) | (((v >> 6) & 0x3F) << 6) | (v & 0x3F)
  {
  }

  lemma EncodedInThree(v: bv32, lead: Byte)
    requires 0x800 <= v < 0x10000 && Scalar(v) && lead == (0xE0 | (v >> 12)) as Byte
    ensures 0xE0 <= lead <= 0xEF && Second(lead, Trail(v >> 6)) && Continuation(Trail(v))
    ensures ThreeBytes(lead, Trail(v >> 6), Trail(v)) == v
  {
    LeadOfThree(v, lead);
    TrailBits(v >> 6);
    TrailBits(v);
    ThreeFrom(lead, Trail(v >> 6), Trail(v), v);
  }

  lemma EncodedInFour(v: bv32, lead: Byte)
    requires 0x10000 <= v <= 0x10FFFF && lead == (0xF0 | (v >> 18)) as Byte
    ensures 0xF0 <= lead <= 0xF4 && Second(lead, Trail(v >> 12)) && Continuation(Trail(v >> 6)) && Continuation(Trail(v))
    ensures FourBytes(lead, Trail(v >> 12), Trail(v >> 6), Trail(v)) == v
  {
    LeadOfFour(v, lead);
    TrailBits(v >> 12);
    TrailBits(v >> 6);
    TrailBits(v);
    FourFrom(lead, Trail(v >> 12), Trail(v >> 6), Trail(v), v);
  }

  lemma EncodedScalar(v: bv32)
    requires Scalar(v)
    ensures WellFormed(EncodeScalar(v)) && CodePoint(EncodeScalar(v)) == v
  {
    var w := EncodeScalar(v);
    if v < 0x80 {
    } else if v < 0x800 {
      EncodedInTwo(v, w[0]);
    } else if v < 0x10000 {
      EncodedInThree(v, w[0]);
    } else {
      EncodedInFour(v, w[0]);
    }
  }

  lemma WellFormedIsTaken(w: seq<Byte>, rest: seq<Byte>)
    requires WellFormed(w)
    ensures FirstUnit(w + rest) == Unit(|w|, true) && UnitText(w + rest) == CodePoint(w)
  {
    assert forall i :: 0 <= i < |w| ==> (w + rest)[i] == w[i];
    assert (w + rest)[..|w|] == w;
  }

  /** Text survives encoding and decoding. */
  lemma {:induction false} RoundTrip(text: Text)
    requires forall i :: 0 <= i < |text| ==> Scalar(text[i])
    ensures Decode(Encode(text)) == text
    decreases |text|
  {
    if text != [] {
      var w, rest := EncodeScalar(text[0]), Encode(text[1..]);
      EncodedScalar(text[0]);
      WellFormedIsTaken(w, rest);
      RoundTrip(text[1..]);
      assert (w + rest)[|w|..] == rest;
    }
  }

  // ---- where a byte stream may be cut ----

  /** Bytes held back at the end of a chunk: an incomplete sequence within the last three bytes. */
  function Tail(s: seq<Byte>): (n: nat)
    ensures n <= 3 && n <= |s|
    ensures n > 0 ==> !Continuation(s[|s| - n])
  {
    TailFrom(s, 1)
  }

  function TailFrom(s: seq<Byte>, back: nat): (n: nat)
    requires back >= 1
    ensures n <= 3 && n <= |s|
    ensures n > 0 ==> n >= back && !Continuation(s[|s| - n])
    decreases 4 - back
  {
    if back > 3 || back > |s| then 0
    else
      var b := s[|s| - back];
      if Continuation(b) then TailFrom(s, back + 1)
      else
        var needed := if b & 0xE0 == 0xC0 then 2 else if b & 0xF0 == 0xE0 then 3 else if b & 0xF8 == 0xF0 then 4 else 0;
        if back < needed then back else 0
  }

  /** How many bytes a first byte announces, by its leading bits. */
  function Announced(b: Byte): nat {
    if 0xC0 <= b <= 0xDF then 2 else if 0xE0 <= b <= 0xEF then 3 else if 0xF0 <= b <= 0xF7 then 4 else 0
  }

  /** The last n bytes are a first byte that announces more, and continuation bytes. */
  predicate Waits(s: seq<Byte>, n: nat) {
    0 < n <= |s| && n < Announced(s[|s| - n]) && forall i :: |s| - n < i < |s| ==> Continuation(s[i])
  }

  lemma AnnouncedBits(b: Byte)
    ensures Announced(b) == if b & 0xE0 == 0xC0 then 2 else if b & 0xF0 == 0xE0 then 3 else if b & 0xF8 == 0xF0 then 4 else 0
    ensures Announced(b) > 0 ==> !Continuation(b)
  {
  }

  lemma {:induction false} TailFromWaits(s: seq<Byte>, back: nat, n: nat)
    requires 1 <= back
    requires forall i :: |s| - back < i < |s| && 0 <= i ==> Continuation(s[i])
    ensures (n > 0 && TailFrom(s, back) == n) <==> (n >= back && Waits(s, n))
    decreases 4 - back
  {
    if back > 3 || back > |s| {
    } else {
      var b := s[|s| - back];
      AnnouncedBits(b);
      if Continuation(b) {
        TailFromWaits(s, back + 1, n);
      } else if Waits(s, n) {
        WaitsInside(s, n, back);
      }
    }
  }

  lemma WaitsInside(s: seq<Byte>, n: nat, i: nat)
    requires Waits(s, n) && 0 < i
    ensures i < n ==> Continuation(s[|s| - i])
  {
  }

  /** What is held back is exactly an unfinished sequence at the end. */
  lemma TailWaits(s: seq<Byte>, n: nat)
    requires n > 0
    ensures Tail(s) == n <==> Waits(s, n)
  {
    TailFromWaits(s, 1, n);
  }

  /** After a complete character nothing is held back. */
  lemma NothingWaits(s: seq<Byte>, k: nat)
    requires k <= |s| && WellFormed(s[k..])
    ensures Tail(s) == 0
  {
    var w := s[k..];
    assert forall i :: 0 <= i < |w| ==> w[i] == s[k + i];
    if Tail(s) > 0 {
      TailWaits(s, Tail(s));
      WholeEnds(s, k, Tail(s));
    }
  }

  lemma WholeEnds(s: seq<Byte>, k: nat, n: nat)
    requires k <= |s| && WellFormed(s[k..])
    ensures !Waits(s, n)
  {
    var w := s[k..];
    assert forall i :: 0 <= i < |w| ==> w[i] == s[k + i];
    TrailsContinue(w);
    if 0 < n <= |s| {
      AnnouncedBits(s[|s| - n]);
      if n < |w| {
        assert s[|s| - n] == w[|w| - n];
      } else if n > |w| {
        assert s[k] == w[0] && |s| - n < k < |s|;
      }
    }
  }

  lemma TrailsContinue(w: seq<Byte>)
    requires WellFormed(w)
    ensures forall i :: 0 < i < |w| ==> Continuation(w[i])
    ensures !Continuation(w[0]) && (|w| > 1 ==> Announced(w[0]) == |w|) && (|w| == 1 ==> Announced(w[0]) == 0)
  {
  }

  /** Nothing decoded across the cut between p and t: either t starts afresh or p holds nothing back. */
  predicate CleanCut(p: seq<Byte>, t: seq<Byte>) {
    t == [] || !Continuation(t[0]) || Tail(p) == 0
  }

  lemma TailOfSuffix(p: seq<Byte>, n: nat)
    requires n <= |p| && Tail(p) == 0
    ensures Tail(p[n..]) == 0
  {
    var q := p[n..];
    assert forall i :: 0 <= i < |q| ==> q[i] == p[i + n];
  }

  /** At a clean cut the first step over p + t stays inside p and is the step over p alone. */
  lemma UnitStaysInside(p: seq<Byte>, t: seq<Byte>)
    requires p != [] && CleanCut(p, t)
    ensures FirstUnit(p + t).length <= |p|
    ensures FirstUnit(p + t) == FirstUnit(p) && UnitText(p + t) == UnitText(p)
    ensures (p + t)[FirstUnit(p).length..] == p[FirstUnit(p).length..] + t
  {
    var u := FirstUnit(p + t);
    if u.length > |p| {
      assert (p + t)[|p|] == t[0];
      assert forall i :: 1 <= i < |p| ==> (p + t)[i] == p[i];
      LeadIsHeld(p, u.length);
      assert false;
    }
    assert forall i :: 0 <= i < |p| ==> (p + t)[i] == p[i];
    assert (p + t)[..u.length] == p[..u.length];
  }

  lemma LeadIsHeld(p: seq<Byte>, n: nat)
    requires 1 <= |p| < n <= 4
    requires forall i :: 1 <= i < |p| ==> Continuation(p[i])
    requires (n >= 2 ==> 0xC2 <= p[0] <= 0xF4) && (n >= 3 ==> 0xE0 <= p[0]) && (n >= 4 ==> 0xF0 <= p[0])
    ensures Tail(p) == |p|
  {
    LeadBits(p[0]);
  }

  lemma LeadBits(b: Byte)
    ensures 0xC2 <= b <= 0xDF ==> !Continuation(b) && b & 0xE0 == 0xC0
    ensures 0xE0 <= b <= 0xEF ==> !Continuation(b) && b & 0xE0 != 0xC0 && b & 0xF0 == 0xE0
    ensures 0xF0 <= b <= 0xF4 ==> !Continuation(b) && b & 0xE0 != 0xC0 && b & 0xF0 != 0xE0 && b & 0xF8 == 0xF0
  {
  }

  /** Decoding splits at a clean cut. */
  lemma {:induction false} DecodeSplits(p: seq<Byte>, t: seq<Byte>)
    requires CleanCut(p, t)
    ensures Decode(p + t) == Decode(p) + Decode(t)
    decreases |p|
  {
    hide FirstUnit, UnitText, Tail, Continuation;
    if p == [] {
      assert p + t == t;
    } else {
      UnitStaysInside(p, t);
      var rest := p[FirstUnit(p).length..];
      if Tail(p) == 0 { TailOfSuffix(p, FirstUnit(p).length); }
      DecodeSplits(rest, t);
      calc {
        Decode(p + t);
        [UnitText(p)] + Decode(rest + t);
        [UnitText(p)] + Decode(rest) + Decode(t);
        Decode(p) + Decode(t);
      }
    }
  }
}
