/** StringDecoder: text comes out of byte chunks as they arrive. What cannot be decoded yet is
    carried to the next chunk, packed with its length into one number. */
module StringDecoder {
  import Base64
  import opened Bytes
  import Utf8

  /** Scalar values for UTF-8, UTF-16 code units for UTF-16LE, characters otherwise. */
  type Text = seq<bv32>
  /** Up to three bytes above their count; a binary64 holds every such number exactly. */
  type Carry = bv32

  datatype Encoding = Utf8 | Utf16le | Base64(url: bool) | Latin1 | Ascii | Hex

  // ---- the packed carry ----

  function Word(count: Byte, first: Byte, second: Byte, third: Byte): Carry {
    (count as bv32) | ((first as bv32) << 8) | ((second as bv32) << 16) | ((third as bv32) << 24)
  }

  function Pack(bytes: seq<Byte>): Carry {
    match |bytes|
    case 0 => 0
    case 1 => Word(1, bytes[0], 0, 0)
    case 2 => Word(2, bytes[0], bytes[1], 0)
    case _ => Word(3, bytes[0], bytes[1], bytes[2])
  }

  function Unpack(packed: Carry): (bytes: seq<Byte>)
    ensures |bytes| <= 3
  {
    var count := packed & 0xFF;
    var first, second, third := ((packed >> 8) & 0xFF) as Byte, ((packed >> 16) & 0xFF) as Byte, (packed >> 24) as Byte;
    if count == 0 then [] else if count == 1 then [first] else if count == 2 then [first, second]
    else [first, second, third]
  }

  lemma WordFields(count: Byte, first: Byte, second: Byte, third: Byte)
    ensures var packed := Word(count, first, second, third);
            && packed & 0xFF == count as bv32
            && ((packed >> 8) & 0xFF) as Byte == first
            && ((packed >> 16) & 0xFF) as Byte == second
            && (packed >> 24) as Byte == third
  {
  }

  /** Nothing is lost in the carry as long as at most three bytes are held. */
  lemma UnpackPack(bytes: seq<Byte>)
    requires |bytes| <= 3
    ensures Unpack(Pack(bytes)) == bytes
  {
    if |bytes| > 0 {
      WordFields(|bytes| as Byte, bytes[0], if |bytes| > 1 then bytes[1] else 0, if |bytes| > 2 then bytes[2] else 0);
    }
  }

  // ---- decoding a whole byte string ----

  function Character(b: Byte): bv32 { b as bv32 }

  function SevenBit(b: Byte): bv32 { (b & 0x7F) as bv32 }

  function Characters(s: seq<Byte>): Text {
    seq(|s|, i requires 0 <= i < |s| => Character(s[i]))
  }

  function SevenBits(s: seq<Byte>): Text {
    seq(|s|, i requires 0 <= i < |s| => SevenBit(s[i]))
  }

  function CodeUnit(low: Byte, high: Byte): bv32 {
    (low as bv32) | ((high as bv32) << 8)
  }

  /** Little-endian code units; an odd last byte is dropped. */
  function Units(s: seq<Byte>): Text {
    if |s| < 2 then [] else [CodeUnit(s[0], s[1])] + Units(s[2..])
  }

  function LowByte(unit: bv32): Byte { (unit & 0xFF) as Byte }

  function HighByte(unit: bv32): Byte { ((unit >> 8) & 0xFF) as Byte }

  /** The bytes a buffer makes of UTF-16 code units. */
  function UnitBytes(text: Text): seq<Byte> {
    if text == [] then [] else [LowByte(text[0]), HighByte(text[0])] + UnitBytes(text[1..])
  }

  lemma UnitOfBytes(unit: bv32)
    requires unit <= 0xFFFF
    ensures CodeUnit(LowByte(unit), HighByte(unit)) == unit
  {
  }

  lemma BytesOfUnit(low: Byte, high: Byte)
    ensures LowByte(CodeUnit(low, high)) == low && HighByte(CodeUnit(low, high)) == high
  {
  }

  /** UTF-16LE: any code units, paired surrogates or not, come back from their bytes. */
  lemma {:induction false} UnitsRoundTrip(text: Text)
    requires forall i :: 0 <= i < |text| ==> text[i] <= 0xFFFF
    ensures Units(UnitBytes(text)) == text
    decreases |text|
  {
    if text != [] {
      UnitOfBytes(text[0]);
      UnitsRoundTrip(text[1..]);
      hide CodeUnit, LowByte, HighByte;
      assert UnitBytes(text)[2..] == UnitBytes(text[1..]);
    }
  }

  /** And any bytes come back from the units they decode to, up to an odd last byte. */
  lemma {:induction false} UnitBytesRoundTrip(s: seq<Byte>)
    ensures UnitBytes(Units(s)) == s[..|s| - |s| % 2]
    decreases |s|
  {
    hide CodeUnit, LowByte, HighByte;
    if |s| >= 2 {
      var rest, even := s[2..], |s| - |s| % 2;
      BytesOfUnit(s[0], s[1]);
      UnitBytesRoundTrip(rest);
      assert Units(s)[1..] == Units(rest);
      assert s[..even] == [s[0], s[1]] + rest[..even - 2];
    }
  }

  function HexDigit(v: Byte): Byte {
    if v < 10 then 48 + v else 87 + v
  }

  function HexPair(s: seq<Byte>): seq<Byte> {
    if |s| != 1 then [] else [HexDigit(s[0] >> 4), HexDigit(s[0] & 15)]
  }

  function HexPairs(): seq<Byte> -> seq<Byte> {
    s => HexPair(s)
  }

  function HexText(s: seq<Byte>): seq<Byte> {
    Base64.Chunked(s, 1, HexPairs())
  }

  function Whole(encoding: Encoding, s: seq<Byte>): Text {
    match encoding
    case Utf8 => Utf8.Decode(s)
    case Utf16le => Units(s)
    case Base64(url) => Characters(Base64.Encode(s, url))
    case Latin1 => Characters(s)
    case Ascii => SevenBits(s)
    case Hex => Characters(HexText(s))
  }

  // ---- one chunk at a time ----

  /** How many bytes of held + chunk are decoded now. */
  function Complete(encoding: Encoding, held: seq<Byte>, chunk: seq<Byte>): (n: nat)
    requires |held| <= 3
    ensures n <= |held + chunk|
  {
    match encoding
    case Utf8 => |held + chunk| - Utf8.Tail(held + chunk)
    case Utf16le => CompleteUtf16(held, chunk)
    case Base64(_) => |held + chunk| - |held + chunk| % 3
    case _ => |held + chunk|
  }

  /** A held unit, or held high surrogate with its partner, is completed first; then whole units,
      except that a final high surrogate waits. */
  /** The bytes of whole units, less a high surrogate at the very end. */
  function WholeUnits(rest: seq<Byte>): (k: nat)
    ensures k <= |rest| && k % 2 == 0 && |rest| - k <= 2
  {
    if |rest| % 2 == 1 then |rest| - 1
    else if |rest| >= 2 then (if HighSurrogate(CodeUnit(rest[|rest| - 2], rest[|rest| - 1])) then |rest| - 2 else |rest|)
    else 0
  }

  function CompleteUtf16(held: seq<Byte>, chunk: seq<Byte>): (n: nat)
    requires |held| <= 3
    ensures n <= |held + chunk| && n % 2 == 0 && |held + chunk| - n <= 3
  {
    var needed := if held == [] then 0 else if |held| == 1 then 1 else 4 - |held|;
    if |chunk| < needed then 0
    else |held| + needed + WholeUnits(chunk[needed..])
  }

  predicate HighSurrogate(unit: bv32) {
    0xD800 <= unit <= 0xDBFF
  }

  function Step(encoding: Encoding, pending: Carry, chunk: seq<Byte>): (Text, Carry) {
    if encoding in {Latin1, Ascii, Hex} then (Whole(encoding, chunk), 0)
    else
      var held := Unpack(pending);
      var n := Complete(encoding, held, chunk);
      (Whole(encoding, (held + chunk)[..n]), Pack((held + chunk)[n..]))
  }

  function End(encoding: Encoding, pending: Carry): Text {
    if encoding in {Latin1, Ascii, Hex} then [] else Whole(encoding, Unpack(pending))
  }

  /** A decoder as its caller sees it: what a write and an `end` do with the carry, how bytes are
      carried and at most how many, and the text of a whole byte string. */
  datatype Decoder = Decoder(
    limit: nat,
    pack: seq<Byte> -> Carry,
    step: (Carry, seq<Byte>) -> (Text, Carry),
    end: Carry -> Text,
    whole: seq<Byte> -> Text)

  function DecoderFor(encoding: Encoding): Decoder {
    Decoder(if encoding in {Latin1, Ascii, Hex} then 0 else 3,
            s => Pack(s),
            (pending, chunk) => Step(encoding, pending, chunk),
            pending => End(encoding, pending),
            s => Whole(encoding, s))
  }

  /** Everything a decoder emits: one write for each chunk, then `end`. */
  function Stream(d: Decoder, pending: Carry, chunks: seq<seq<Byte>>): Text
    decreases |chunks|
  {
    if chunks == [] then d.end(pending)
    else
      var (text, next) := d.step(pending, chunks[0]);
      text + Stream(d, next, chunks[1..])
  }

  // ---- laws ----

  /** What is held back always fits the carry. */
  lemma CarryFits(encoding: Encoding, held: seq<Byte>, chunk: seq<Byte>)
    requires |held| <= 3
    ensures |held + chunk| - Complete(encoding, held, chunk) <= DecoderFor(encoding).limit
  {
  }

  lemma {:induction false} UnitsSplit(s: seq<Byte>, t: seq<Byte>)
    requires |s| % 2 == 0
    ensures Units(s + t) == Units(s) + Units(t)
    decreases |s|
  {
    if s == [] {
      assert s + t == t;
    } else {
      UnitsSplit(s[2..], t);
      assert (s + t)[2..] == s[2..] + t;
    }
  }

  lemma HexTextSplits(s: seq<Byte>, t: seq<Byte>)
    ensures HexText(s + t) == HexText(s) + HexText(t)
  {
    Base64.ChunkedSplits(s, t, 1, |s|, HexPairs());
  }

  lemma CharactersSplit(s: seq<Byte>, t: seq<Byte>)
    ensures Characters(s + t) == Characters(s) + Characters(t)
  {
  }

  /** Wherever a step cuts the stream, decoding the two sides separately changes nothing. */
  lemma CutIsClean(encoding: Encoding, held: seq<Byte>, chunk: seq<Byte>, later: seq<Byte>)
    requires |held| <= 3
    ensures var n := Complete(encoding, held, chunk);
            var now := (held + chunk)[..n];
            var rest := (held + chunk)[n..] + later;
            Whole(encoding, now + rest) == Whole(encoding, now) + Whole(encoding, rest)
  {
    hide Units, HexText, CodeUnit, WholeUnits, Utf8.Decode, Utf8.Tail, Utf8.TailFrom, Utf8.Continuation, Base64.Encode;
    var n := Complete(encoding, held, chunk);
    var now, rest := (held + chunk)[..n], (held + chunk)[n..] + later;
    match encoding
    case Utf8 =>
      assert n == |held + chunk| ==> now == held + chunk;
      assert n < |held + chunk| ==> rest[0] == (held + chunk)[n];
      Utf8.DecodeSplits(now, rest);
    case Utf16le => UnitsSplit(now, rest);
    case Base64(url) =>
      Base64.EncodeSplits(now, rest, url);
      CharactersSplit(Base64.Encode(now, url), Base64.Encode(rest, url));
    case Latin1 =>
    case Ascii =>
    case Hex => HexTextSplits(now, rest);
      CharactersSplit(HexText(now), HexText(rest));
  }

  ghost predicate Splits(d: Decoder, now: seq<Byte>, rest: seq<Byte>) {
    d.whole(now + rest) == d.whole(now) + d.whole(rest)
  }

  /** The step over held + chunk emits the text of `now` and carries `next`, and the text of any
      longer stream splits at that point. */
  ghost predicate CutsAt(d: Decoder, held: seq<Byte>, chunk: seq<Byte>, now: seq<Byte>, next: seq<Byte>) {
    && now + next == held + chunk && |next| <= d.limit
    && d.step(d.pack(held), chunk) == (d.whole(now), d.pack(next))
    && forall later :: Splits(d, now, next + later)
  }

  ghost predicate StepsCleanly(d: Decoder, held: seq<Byte>, chunk: seq<Byte>) {
    exists now, next :: CutsAt(d, held, chunk, now, next)
  }

  ghost predicate EndsCleanly(d: Decoder, held: seq<Byte>) {
    d.end(d.pack(held)) == d.whole(held)
  }

  ghost predicate Sound(d: Decoder) {
    && (forall held :: |held| <= d.limit ==> EndsCleanly(d, held))
    && (forall held, chunk :: |held| <= d.limit ==> StepsCleanly(d, held, chunk))
  }

  lemma StepEmits(encoding: Encoding, held: seq<Byte>, chunk: seq<Byte>, n: nat)
    requires |held| <= DecoderFor(encoding).limit && n == Complete(encoding, held, chunk)
    ensures Step(encoding, Pack(held), chunk) == (Whole(encoding, (held + chunk)[..n]), Pack((held + chunk)[n..]))
  {
    UnpackPack(held);
    if encoding in {Latin1, Ascii, Hex} {
      assert (held + chunk)[..|chunk|] == chunk && (held + chunk)[|chunk|..] == [];
    }
  }

  lemma StepIsClean(encoding: Encoding, held: seq<Byte>, chunk: seq<Byte>)
    requires |held| <= DecoderFor(encoding).limit
    ensures StepsCleanly(DecoderFor(encoding), held, chunk)
  {
    hide Complete, Whole, Step, Pack, CutsAt;
    assert |held| <= 3;
    var n := Complete(encoding, held, chunk);
    var now, next := (held + chunk)[..n], (held + chunk)[n..];
    CarryFits(encoding, held, chunk);
    forall later ensures Splits(DecoderFor(encoding), now, next + later) {
      CutIsClean(encoding, held, chunk, later);
    }
    CleanAt(encoding, held, chunk, now, next, n);
  }

  lemma CleanAt(encoding: Encoding, held: seq<Byte>, chunk: seq<Byte>, now: seq<Byte>, next: seq<Byte>, n: nat)
    requires |held| <= DecoderFor(encoding).limit && n == Complete(encoding, held, chunk)
    requires now == (held + chunk)[..n] && next == (held + chunk)[n..] && |next| <= DecoderFor(encoding).limit
    requires forall later :: Splits(DecoderFor(encoding), now, next + later)
    ensures CutsAt(DecoderFor(encoding), held, chunk, now, next)
  {
    hide Complete, Whole, Step, Pack, Splits;
    assert |held| <= 3;
    StepEmits(encoding, held, chunk, n);
    assert now + next == held + chunk;
  }

  lemma EndIsClean(encoding: Encoding, held: seq<Byte>)
    requires |held| <= DecoderFor(encoding).limit
    ensures EndsCleanly(DecoderFor(encoding), held)
  {
    UnpackPack(held);
    if encoding in {Latin1, Ascii, Hex} { assert held == []; }
  }

  /** Every decoder the runtime offers is sound. */
  lemma DecodersAreSound(encoding: Encoding)
    ensures Sound(DecoderFor(encoding))
  {
    forall held | |held| <= DecoderFor(encoding).limit ensures EndsCleanly(DecoderFor(encoding), held) {
      EndIsClean(encoding, held);
    }
    forall held, chunk | |held| <= DecoderFor(encoding).limit ensures StepsCleanly(DecoderFor(encoding), held, chunk) {
      StepIsClean(encoding, held, chunk);
    }
  }

  /** A sound decoder emits the text of everything it was given, whatever the chunks. */
  lemma {:induction false} StreamFrom(d: Decoder, held: seq<Byte>, chunks: seq<seq<Byte>>)
    requires Sound(d) && |held| <= d.limit
    ensures Stream(d, d.pack(held), chunks) == d.whole(held + Joined(chunks))
    decreases |chunks|
  {
    if chunks == [] {
      assert EndsCleanly(d, held);
      assert held + [] == held;
    } else {
      var later := Joined(chunks[1..]);
      assert StepsCleanly(d, held, chunks[0]);
      var now, next :| CutsAt(d, held, chunks[0], now, next);
      StreamFrom(d, next, chunks[1..]);
      assert Splits(d, now, next + later);
      assert now + (next + later) == (now + next) + later == held + (chunks[0] + later);
    }
  }

  /** For every encoding, every byte sequence and every way to cut it into chunks, the writes
      followed by `end` are the text of the whole sequence. */
  lemma StreamIsWhole(encoding: Encoding, chunks: seq<seq<Byte>>)
    ensures Stream(DecoderFor(encoding), 0, chunks) == Whole(encoding, Joined(chunks))
  {
    DecodersAreSound(encoding);
    StreamFrom(DecoderFor(encoding), [], chunks);
    assert [] + Joined(chunks) == Joined(chunks);
  }

  // ---- what one write emits already ----

  /** A write holds back exactly the unfinished sequence at the end, if there is one, and emits the
      text of everything before it. */
  lemma Utf8Carries(held: seq<Byte>, chunk: seq<Byte>, n: nat)
    requires |held| <= 3
    ensures var all := held + chunk;
            && (Utf8.Waits(all, n) ==>
                  n <= 3 && Step(Encoding.Utf8, Pack(held), chunk) == (Utf8.Decode(all[..|all| - n]), Pack(all[|all| - n..])))
            && ((forall m :: !Utf8.Waits(all, m)) ==> Step(Encoding.Utf8, Pack(held), chunk) == (Utf8.Decode(all), 0))
  {
    hide Step, Complete, Utf8.Tail, Utf8.Decode, Pack, Utf8.Waits;
    var all := held + chunk;
    var tail := Utf8.Tail(all);
    Utf8Step(held, chunk);
    if tail > 0 { Utf8.TailWaits(all, tail); }
    if Utf8.Waits(all, n) {
      WaitsSome(all, n);
      Utf8.TailWaits(all, n);
    } else if tail == 0 {
      assert all[..|all|] == all && all[|all|..] == [];
      PackNothing();
    }
  }

  lemma WaitsSome(s: seq<Byte>, n: nat)
    requires Utf8.Waits(s, n)
    ensures 0 < n <= 3
  {
  }

  lemma PackNothing()
    ensures Pack([]) == 0
  {
  }

  lemma Utf8Step(held: seq<Byte>, chunk: seq<Byte>)
    requires |held| <= 3
    ensures var all := held + chunk;
            var n := |all| - Utf8.Tail(all);
            Step(Encoding.Utf8, Pack(held), chunk) == (Utf8.Decode(all[..n]), Pack(all[n..]))
  {
    hide Utf8.Tail, Utf8.Decode, Pack, Unpack;
    UnpackPack(held);
  }

  /** A character that is complete is never held back. */
  lemma Utf8CarriesNothing(held: seq<Byte>, chunk: seq<Byte>, k: nat)
    requires |held| <= 3 && k <= |held + chunk| && Utf8.WellFormed((held + chunk)[k..])
    ensures Step(Encoding.Utf8, Pack(held), chunk) == (Utf8.Decode(held + chunk), 0)
  {
    hide Step, Complete, Utf8.Tail, Utf8.Decode, Pack, Utf8.Waits, Utf8.WellFormed;
    forall m ensures !Utf8.Waits(held + chunk, m) {
      Utf8.WholeEnds(held + chunk, k, m);
    }
    Utf8Carries(held, chunk, 0);
  }

  /** The bytes of any text are decoded at once. */
  lemma Utf8TextAtOnce(text: Text)
    requires forall i :: 0 <= i < |text| ==> Utf8.Scalar(text[i])
    ensures Step(Encoding.Utf8, 0, Utf8.Encode(text)) == (text, 0)
  {
    hide Step, Pack, Utf8.Decode;
    PackNothing();
    Utf8.RoundTrip(text);
    var s := Utf8.Encode(text);
    assert [] + s == s;
    if text == [] {
      forall m ensures !Utf8.Waits([], m) {}
      Utf8Carries([], [], 0);
    } else {
      var k := LastCharacter(text);
      Utf8CarriesNothing([], s, k);
    }
  }

  lemma {:induction false} LastCharacter(text: Text) returns (k: nat)
    requires text != [] && forall i :: 0 <= i < |text| ==> Utf8.Scalar(text[i])
    ensures var s := Utf8.Encode(text); k <= |s| && Utf8.WellFormed(s[k..])
    decreases |text|
  {
    hide Utf8.WellFormed, Utf8.EncodeScalar;
    var first, rest := Utf8.EncodeScalar(text[0]), Utf8.Encode(text[1..]);
    Utf8.EncodedScalar(text[0]);
    if |text| == 1 {
      k := 0;
      assert (first + [])[0..] == first;
    } else {
      var j := LastCharacter(text[1..]);
      k := |first| + j;
      assert (first + rest)[k..] == rest[j..];
    }
  }

  /** What a UTF-16LE decoder can hold: an odd byte, or a high surrogate with or without the first byte
      of its partner. */
  predicate Utf16Held(held: seq<Byte>) {
    |held| <= 1 || (|held| <= 3 && HighSurrogate(CodeUnit(held[0], held[1])))
  }

  /** How many bytes the held ones make complete. */
  function Completed(held: seq<Byte>): nat {
    if held == [] then 0 else if |held| == 1 then 2 else 4
  }

  /** A write of a UTF-16LE decoder emits all units but, at most, a high surrogate at the very end, and
      holds back that and an odd byte. A write of nothing changes nothing. */
  lemma Utf16Carries(held: seq<Byte>, chunk: seq<Byte>)
    requires Utf16Held(held)
    ensures exists n :: Utf16Emits(held, chunk, n)
  {
    hide CodeUnit, HighSurrogate, Pack, Step, Units, Utf16Held, CompleteUtf16, Completed;
    HeldFits(held);
    Utf16Step(held, chunk);
    Utf16Rest(held, chunk);
    assert Utf16Emits(held, chunk, |held + chunk| - CompleteUtf16(held, chunk));
  }

  lemma Utf16Step(held: seq<Byte>, chunk: seq<Byte>)
    requires |held| <= 3
    ensures var m := CompleteUtf16(held, chunk);
            Step(Utf16le, Pack(held), chunk) == (Units((held + chunk)[..m]), Pack((held + chunk)[m..]))
  {
    hide CodeUnit, Pack, Unpack, Units, CompleteUtf16;
    UnpackPack(held);
  }

  predicate Utf16Emits(held: seq<Byte>, chunk: seq<Byte>, n: nat) {
    var all := held + chunk;
    && n <= |all| && n % 2 == |all| % 2
    && Utf16Held(all[|all| - n..])
    && (n == 3 ==> |all| == 3)
    && (chunk == [] ==> n == |held|)
    && (n == 0 && |all| >= Completed(held) + 2 ==> !HighSurrogate(CodeUnit(all[|all| - 2], all[|all| - 1])))
    && Step(Utf16le, Pack(held), chunk) == (Units(all[..|all| - n]), Pack(all[|all| - n..]))
  }

  lemma Utf16Short(held: seq<Byte>, chunk: seq<Byte>)
    requires Utf16Held(held) && |held + chunk| < Completed(held)
    ensures CompleteUtf16(held, chunk) == 0 && |held + chunk| <= 3 && Utf16Held(held + chunk)
  {
    hide CodeUnit, HighSurrogate;
  }

  lemma HeldFits(held: seq<Byte>)
    requires Utf16Held(held)
    ensures |held| <= 3
  {
  }

  lemma Utf16Behind(held: seq<Byte>, chunk: seq<Byte>)
    requires |held| <= 3 && |held + chunk| >= Completed(held)
    ensures var rest := chunk[Completed(held) - |held|..];
            var n := |held + chunk| - CompleteUtf16(held, chunk);
            && n <= |rest| && n <= 2 && n % 2 == |held + chunk| % 2
            && (n == 2 ==> HighSurrogate(CodeUnit(rest[|rest| - 2], rest[|rest| - 1])))
            && (n == 0 && |rest| >= 2 ==> !HighSurrogate(CodeUnit(rest[|rest| - 2], rest[|rest| - 1])))
  {
    hide CodeUnit, HighSurrogate, WholeUnits;
    UnitsBehind(chunk[Completed(held) - |held|..]);
  }

  lemma UnitsBehind(rest: seq<Byte>)
    ensures var n := |rest| - WholeUnits(rest);
            && (n == 2 ==> HighSurrogate(CodeUnit(rest[|rest| - 2], rest[|rest| - 1])))
            && (n == 0 && |rest| >= 2 ==> !HighSurrogate(CodeUnit(rest[|rest| - 2], rest[|rest| - 1])))
  {
    hide CodeUnit, HighSurrogate;
  }

  lemma Utf16Kept(a: seq<Byte>, rest: seq<Byte>, n: nat)
    requires n <= |rest| && n <= 2
    requires n == 2 ==> HighSurrogate(CodeUnit(rest[|rest| - 2], rest[|rest| - 1]))
    ensures Utf16Held((a + rest)[|a + rest| - n..])
    ensures |rest| >= 2 ==>
              (a + rest)[|a + rest| - 2] == rest[|rest| - 2] && (a + rest)[|a + rest| - 1] == rest[|rest| - 1]
  {
    hide CodeUnit, HighSurrogate;
    assert (a + rest)[|a + rest| - n..] == rest[|rest| - n..];
  }

  lemma Utf16Full(held: seq<Byte>, chunk: seq<Byte>)
    requires |held| <= 3 && |held + chunk| >= Completed(held)
    ensures var all := held + chunk;
            var n := |all| - CompleteUtf16(held, chunk);
            && n <= 2 && n % 2 == |all| % 2 && Utf16Held(all[|all| - n..]) && (chunk == [] ==> n == |held|)
            && (n == 0 && |all| >= Completed(held) + 2 ==> !HighSurrogate(CodeUnit(all[|all| - 2], all[|all| - 1])))
  {
    hide CodeUnit, HighSurrogate, Utf16Held, CompleteUtf16;
    var needed := Completed(held) - |held|;
    Utf16Behind(held, chunk);
    Utf16Kept(held + chunk[..needed], chunk[needed..], |held + chunk| - CompleteUtf16(held, chunk));
    assert (held + chunk[..needed]) + chunk[needed..] == held + chunk;
  }

  lemma Utf16Rest(held: seq<Byte>, chunk: seq<Byte>)
    requires Utf16Held(held)
    ensures var all := held + chunk;
            var n := |all| - CompleteUtf16(held, chunk);
            && n % 2 == |all| % 2 && Utf16Held(all[|all| - n..]) && (n == 3 ==> |all| == 3)
            && (chunk == [] ==> n == |held|)
            && (n == 0 && |all| >= Completed(held) + 2 ==> !HighSurrogate(CodeUnit(all[|all| - 2], all[|all| - 1])))
  {
    hide CodeUnit, HighSurrogate, Utf16Held, CompleteUtf16;
    HeldFits(held);
    if |held + chunk| < Completed(held) {
      Utf16Short(held, chunk);
      assert (held + chunk)[0..] == held + chunk;
    } else {
      Utf16Full(held, chunk);
    }
  }

  /** Base64 holds back exactly what is over three. */
  lemma Base64Carries(url: bool, held: seq<Byte>, chunk: seq<Byte>)
    requires |held| <= 3
    ensures var all := held + chunk;
            var n := |all| % 3;
            Step(Encoding.Base64(url), Pack(held), chunk)
            == (Characters(Base64.Encode(all[..|all| - n], url)), Pack(all[|all| - n..]))
  {
    hide Pack, Unpack, Characters;
    UnpackPack(held);
  }

  /** The other encodings hold nothing back. */
  lemma BytewiseCarries(encoding: Encoding, pending: Carry, chunk: seq<Byte>)
    requires encoding in {Latin1, Ascii, Hex}
    ensures Step(encoding, pending, chunk) == (Whole(encoding, chunk), 0)
  {
  }

  // ---- what the texts are ----

  lemma CodeUnitIsLittleEndian(low: Byte, high: Byte)
    ensures CodeUnit(low, high) & 0xFF == low as bv32 && CodeUnit(low, high) >> 8 == high as bv32
  {
  }

  /** ASCII drops the top bit. */
  lemma AsciiText(s: seq<Byte>, i: nat)
    requires i < |s|
    ensures |Whole(Ascii, s)| == |Whole(Latin1, s)| == |s| && Whole(Latin1, s)[i] == s[i] as bv32
    ensures Whole(Ascii, s)[i] == if s[i] < 128 then s[i] as bv32 else s[i] as bv32 - 128
  {
  }

  /** The value of a hexadecimal digit in either case. */
  function Nibble(c: Byte): Byte {
    if 48 <= c <= 57 then c - 48 else if 97 <= c <= 102 then c - 97 + 10 else if 65 <= c <= 70 then c - 65 + 10 else 16
  }

  /** Pairs of digits, up to the first that is none; an odd last character is dropped. */
  function HexDecode(text: seq<Byte>): seq<Byte> {
    if |text| < 2 || Nibble(text[0]) == 16 || Nibble(text[1]) == 16 then []
    else [(Nibble(text[0]) << 4) | Nibble(text[1])] + HexDecode(text[2..])
  }

  lemma HexPairReads(b: Byte)
    ensures var pair := HexPair([b]);
            && |pair| == 2 && Nibble(pair[0]) != 16 && Nibble(pair[1]) != 16
            && (Nibble(pair[0]) << 4) | Nibble(pair[1]) == b
            && !(65 <= pair[0] <= 70) && !(65 <= pair[1] <= 70)
  {
  }

  /** Hexadecimal text is two lower-case digits for each byte, the high half first, and reads back. */
  lemma {:induction false} HexRoundTrip(s: seq<Byte>)
    ensures |HexText(s)| == 2 * |s| && HexDecode(HexText(s)) == s
    decreases |s|
  {
    hide HexPair, Nibble;
    if s != [] {
      HexPairReads(s[0]);
      HexRoundTrip(s[1..]);
      Base64.ChunkedCons([s[0]], s[1..], 1, HexPairs());
      assert [s[0]] + s[1..] == s;
      var pair, rest := HexPair([s[0]]), HexText(s[1..]);
      assert HexText(s) == pair + rest;
      assert (pair + rest)[2..] == rest;
    } else {
      assert HexText([]) == [];
    }
  }
}
