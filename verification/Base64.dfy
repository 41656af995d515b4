/** Base64 in both alphabets (sections 4 and 5 of RFC 4648), as Buffer encodes and decodes it. */
module Base64 {
  import opened Bytes
  import opened Options

  const PAD: Byte := 61

  /** The character of a six-bit value. */
  function Digit(v: Byte, url: bool): (c: Byte)
    requires v < 64
    ensures c != PAD && Value(c) == Some(v)
  {
    if v < 26 then 65 + v
    else if v < 52 then 97 + (v - 26)
    else if v < 62 then 48 + (v - 52)
    else if v == 62 then (if url then 45 else 43)
    else (if url then 95 else 47)
  }

  function Value(c: Byte): Option<Byte> {
    if 65 <= c <= 90 then Some(c - 65)
    else if 97 <= c <= 122 then Some(c - 97 + 26)
    else if 48 <= c <= 57 then Some(c - 48 + 52)
    else if c == 43 || c == 45 then Some(62)
    else if c == 47 || c == 95 then Some(63)
    else None
  }

  // ---- groups of bytes ----

  function Min(a: nat, b: nat): nat { if a < b then a else b }

  /** f over every n elements, and over a shorter rest. */
  function Chunked(s: seq<Byte>, n: nat, f: seq<Byte> -> seq<Byte>): seq<Byte>
    requires n > 0
  {
    if s == [] then [] else f(s[..Min(n, |s|)]) + Chunked(s[Min(n, |s|)..], n, f)
  }

  lemma ChunkedCons(head: seq<Byte>, rest: seq<Byte>, n: nat, f: seq<Byte> -> seq<Byte>)
    requires 1 <= |head| <= n && (|head| == n || rest == [])
    ensures Chunked(head + rest, n, f) == f(head) + Chunked(rest, n, f)
  {
    assert (head + rest)[..|head|] == head && (head + rest)[|head|..] == rest;
  }

  lemma {:induction false} ChunkedSplits(s: seq<Byte>, t: seq<Byte>, n: nat, q: nat, f: seq<Byte> -> seq<Byte>)
    requires n > 0 && |s| == n * q
    ensures Chunked(s + t, n, f) == Chunked(s, n, f) + Chunked(t, n, f)
    decreases q
  {
    if q == 0 {
      assert s + t == t;
    } else {
      assert n * q == n + n * (q - 1);
      var head, rest := s[..n], s[n..];
      calc {
        Chunked(s + t, n, f);
        { assert s + t == head + (rest + t); ChunkedCons(head, rest + t, n, f); }
        f(head) + Chunked(rest + t, n, f);
        { ChunkedSplits(rest, t, n, q - 1, f); }
        f(head) + Chunked(rest, n, f) + Chunked(t, n, f);
        { assert s == head + rest; ChunkedCons(head, rest, n, f); }
        Chunked(s, n, f) + Chunked(t, n, f);
      }
    }
  }

  // ---- bytes to six-bit values and back ----

  /** The six-bit values of one to three bytes. */
  function Sextets(s: seq<Byte>): (r: seq<Byte>)
    requires 1 <= |s| <= 3
    ensures |r| == |s| + 1 && forall i :: 0 <= i < |r| ==> r[i] < 64
  {
    var second := if |s| > 1 then s[1] else 0;
    var third := if |s| > 2 then s[2] else 0;
    [s[0] >> 2, ((s[0] & 3) << 4) | (second >> 4)]
    + (if |s| > 1 then [((second & 15) << 2) | (third >> 6)] else [])
    + (if |s| > 2 then [third & 63] else [])
  }

  /** The bytes of up to four six-bit values. */
  function Octets(v: seq<Byte>): (r: seq<Byte>) {
    if !(2 <= |v| <= 4) then []
    else [(v[0] << 2) | (v[1] >> 4)]
         + (if |v| >= 3 then [(v[1] << 4) | (v[2] >> 2)] else [])
         + (if |v| == 4 then [(v[2] << 6) | v[3]] else [])
  }

  lemma OctetsOfSextets(s: seq<Byte>)
    requires 1 <= |s| <= 3
    ensures Octets(Sextets(s)) == s
  {
  }

  function Digits(v: seq<Byte>, url: bool): (r: seq<Byte>)
    requires forall i :: 0 <= i < |v| ==> v[i] < 64
    ensures |r| == |v| && forall i :: 0 <= i < |v| ==> r[i] == Digit(v[i], url)
  {
    seq(|v|, i requires 0 <= i < |v| => Digit(v[i], url))
  }

  // ---- encoding ----

  function Padding(n: nat): (r: seq<Byte>) {
    if n == 1 then [PAD, PAD] else if n == 2 then [PAD] else []
  }

  /** The characters of one to three bytes. */
  function Quantum(s: seq<Byte>, url: bool): (r: seq<Byte>) {
    if 1 <= |s| <= 3 then Digits(Sextets(s), url) + (if url then [] else Padding(|s|)) else []
  }

  function QuantumIn(url: bool): seq<Byte> -> seq<Byte> {
    s => Quantum(s, url)
  }

  /** The standard padded form, or the unpadded one over the URL-safe alphabet. */
  function Encode(s: seq<Byte>, url: bool): seq<Byte> {
    Chunked(s, 3, QuantumIn(url))
  }

  /** The encoder's loop: standard alphabet, one padded quantum for every three bytes. */
  method EncodeStandard(s: seq<Byte>) returns (output: seq<Byte>)
    ensures output == Encode(s, false)
  {
    output := [];
    var rest := s;
    while rest != []
      invariant output + Encode(rest, false) == Encode(s, false)
      decreases |rest|
    {
      var quantum := EncodeQuantum(rest[..Min(3, |rest|)]);
      output := output + quantum;
      rest := rest[Min(3, |rest|)..];
    }
  }

  method EncodeQuantum(chunk: seq<Byte>) returns (output: seq<Byte>)
    requires 1 <= |chunk| <= 3
    ensures output == Quantum(chunk, false)
  {
    output := [Digit(chunk[0] >> 2, false)];
    output := output + [Digit(((chunk[0] & 3) << 4) | ((if |chunk| > 1 then chunk[1] else 0) >> 4), false)];
    if |chunk| > 1 {
      output := output + [Digit(((chunk[1] & 15) << 2) | ((if |chunk| > 2 then chunk[2] else 0) >> 6), false)];
    } else {
      output := output + [PAD];
    }
    if |chunk| > 2 {
      output := output + [Digit(chunk[2] & 63, false)];
    } else {
      output := output + [PAD];
    }
  }

  // ---- decoding ----

  /** The six-bit values before the first '='; every other character is skipped. */
  function Values(text: seq<Byte>): (r: seq<Byte>) {
    if text == [] || text[0] == PAD then []
    else (if Value(text[0]).Some? then [Value(text[0]).value] else []) + Values(text[1..])
  }

  function OctetsIn(): seq<Byte> -> seq<Byte> {
    v => Octets(v)
  }

  /** Groups of four values; a lone value at the end is dropped. */
  function Decode(text: seq<Byte>): seq<Byte> {
    Chunked(Values(text), 4, OctetsIn())
  }

  // ---- laws ----

  lemma {:induction false} ValuesOfDigits(v: seq<Byte>, url: bool, rest: seq<Byte>)
    requires forall i :: 0 <= i < |v| ==> v[i] < 64
    ensures Values(Digits(v, url) + rest) == v + Values(rest)
    decreases |v|
  {
    var text := Digits(v, url) + rest;
    if v == [] {
      assert text == rest;
    } else {
      assert text[0] == Digit(v[0], url);
      assert text[1..] == Digits(v[1..], url) + rest;
      ValuesOfDigits(v[1..], url, rest);
    }
  }

  lemma OnlyPadding(pad: seq<Byte>, rest: seq<Byte>)
    requires pad == [] || (rest == [] && pad[0] == PAD)
    ensures Values(pad + rest) == Values(rest)
  {
    assert pad == [] ==> pad + rest == rest;
  }

  /** The values read back from a quantum followed by more text. */
  lemma ValuesOfQuantum(s: seq<Byte>, url: bool, rest: seq<Byte>)
    requires 1 <= |s| <= 3 && (|s| == 3 || rest == [])
    ensures Values(Quantum(s, url) + rest) == Sextets(s) + Values(rest)
  {
    hide Sextets, Digit, Digits, Values;
    var pad := if url then [] else Padding(|s|);
    OnlyPadding(pad, rest);
    ValuesOfDigits(Sextets(s), url, pad + rest);
    assert Quantum(s, url) + rest == Digits(Sextets(s), url) + (pad + rest);
    assert pad == [] ==> pad + rest == rest;
  }

  /** Decoding undoes encoding, in both alphabets, padded or not. */
  lemma {:induction false} RoundTrip(s: seq<Byte>, url: bool)
    ensures Decode(Encode(s, url)) == s
    decreases |s|
  {
    if s != [] {
      var head, rest := s[..Min(3, |s|)], s[Min(3, |s|)..];
      RoundTrip(rest, url);
      ValuesOfQuantum(head, url, Encode(rest, url));
      ChunkedCons(Sextets(head), Values(Encode(rest, url)), 4, OctetsIn());
      OctetsOfSextets(head);
      assert s == head + rest;
    }
  }

  /** Encoding splits after any whole number of three-byte quanta. */
  lemma EncodeSplits(s: seq<Byte>, t: seq<Byte>, url: bool)
    requires |s| % 3 == 0
    ensures Encode(s + t, url) == Encode(s, url) + Encode(t, url)
  {
    ChunkedSplits(s, t, 3, |s| / 3, QuantumIn(url));
  }

  // ---- byte length computed from the text ----

  /** Buffer.byteLength: at most two trailing '=' are dropped, then three bytes for four characters. */
  function ByteLength(text: seq<Byte>): nat {
    var n := |text|;
    var n := if n > 0 && text[n - 1] == PAD then n - 1 else n;
    var n := if n > 0 && text[n - 1] == PAD then n - 1 else n;
    n * 3 / 4
  }

  lemma QuantumShape(s: seq<Byte>, url: bool)
    requires 1 <= |s| <= 3
    ensures |Quantum(s, url)| == if url then |s| + 1 else 4
    ensures forall i :: 0 <= i < |s| + 1 ==> Quantum(s, url)[i] != PAD
    ensures forall i :: |s| + 1 <= i < |Quantum(s, url)| ==> Quantum(s, url)[i] == PAD
  {
  }

  /** Whole quanta take four characters for three bytes, none of them padding. */
  lemma {:induction false} WholeQuanta(s: seq<Byte>, url: bool)
    requires |s| % 3 == 0
    ensures |Encode(s, url)| == |s| / 3 * 4
    ensures forall i :: 0 <= i < |Encode(s, url)| ==> Encode(s, url)[i] != PAD
    decreases |s|
  {
    if s != [] {
      WholeQuanta(s[3..], url);
      QuantumShape(s[..3], url);
      assert Encode(s, url) == Quantum(s[..3], url) + Encode(s[3..], url);
    }
  }

  /** The computed length of a canonical encoding is the number of bytes it decodes to. */
  lemma ByteLengthOfEncode(s: seq<Byte>, url: bool)
    ensures ByteLength(Encode(s, url)) == |s|
  {
    var whole := |s| / 3 * 3;
    var rest := s[whole..];
    assert s == s[..whole] + rest;
    EncodeSplits(s[..whole], rest, url);
    WholeQuanta(s[..whole], url);
    if rest == [] {
      assert Encode(s, url) == Encode(s[..whole], url);
    } else {
      QuantumShape(rest, url);
      ChunkedCons(rest, [], 3, QuantumIn(url));
      assert rest + [] == rest;
      assert Encode(s, url) == Encode(s[..whole], url) + Quantum(rest, url);
    }
  }

  /** Three bytes make one number of 24 bits, the first byte highest, and so do four values of six. */
  predicate SameBits(a: Byte, b: Byte, c: Byte, v: Byte, w: Byte, x: Byte, y: Byte) {
    ((a as bv32) << 16) | ((b as bv32) << 8) | (c as bv32)
    == ((v as bv32) << 18) | ((w as bv32) << 12) | ((x as bv32) << 6) | (y as bv32)
  }

  lemma BitsKept(a: Byte, b: Byte, c: Byte)
    ensures SameBits(a, b, c, a >> 2, ((a & 3) << 4) | (b >> 4), ((b & 15) << 2) | (c >> 6), c & 63)
  {
  }

  lemma ThreeSextets(a: Byte, b: Byte, c: Byte)
    ensures Sextets([a, b, c]) == [a >> 2, ((a & 3) << 4) | (b >> 4), ((b & 15) << 2) | (c >> 6), c & 63]
  {
  }

  /** The values of three bytes are the same bits in the same order. */
  lemma SextetsAreBigEndian(a: Byte, b: Byte, c: Byte)
    ensures var v := Sextets([a, b, c]); |v| == 4 && SameBits(a, b, c, v[0], v[1], v[2], v[3])
  {
    hide SameBits, Sextets;
    BitsKept(a, b, c);
    ThreeSextets(a, b, c);
  }

  lemma ZeroBits(x: Byte)
    ensures x | ((0 as Byte) >> 4) == x && x | ((0 as Byte) >> 6) == x
  {
  }

  /** One or two bytes are followed by zero bits. */
  lemma ShortSextets(a: Byte, b: Byte)
    ensures Sextets([a]) == [a >> 2, (a & 3) << 4]
    ensures Sextets([a, b]) == [a >> 2, ((a & 3) << 4) | (b >> 4), (b & 15) << 2]
  {
    ZeroBits((a & 3) << 4);
    ZeroBits((b & 15) << 2);
  }

  // ---- the alphabets, and what the decoder ignores ----

  /** The published table: A to Z, a to z and 0 to 9; the last two digits are + and /, or - and _ in the
      URL-safe alphabet. */
  lemma Alphabet(url: bool)
    ensures Digit(0, url) == 65 && Digit(1, url) == 66 && Digit(2, url) == 67 && Digit(3, url) == 68
            && Digit(4, url) == 69 && Digit(5, url) == 70 && Digit(6, url) == 71 && Digit(7, url) == 72
            && Digit(8, url) == 73 && Digit(9, url) == 74 && Digit(10, url) == 75 && Digit(11, url) == 76
            && Digit(12, url) == 77 && Digit(13, url) == 78 && Digit(14, url) == 79 && Digit(15, url) == 80
            && Digit(16, url) == 81 && Digit(17, url) == 82 && Digit(18, url) == 83 && Digit(19, url) == 84
            && Digit(20, url) == 85 && Digit(21, url) == 86 && Digit(22, url) == 87 && Digit(23, url) == 88
            && Digit(24, url) == 89 && Digit(25, url) == 90
    ensures Digit(26, url) == 97 && Digit(27, url) == 98 && Digit(28, url) == 99 && Digit(29, url) == 100
            && Digit(30, url) == 101 && Digit(31, url) == 102 && Digit(32, url) == 103 && Digit(33, url) == 104
            && Digit(34, url) == 105 && Digit(35, url) == 106 && Digit(36, url) == 107 && Digit(37, url) == 108
            && Digit(38, url) == 109 && Digit(39, url) == 110 && Digit(40, url) == 111 && Digit(41, url) == 112
            && Digit(42, url) == 113 && Digit(43, url) == 114 && Digit(44, url) == 115 && Digit(45, url) == 116
            && Digit(46, url) == 117 && Digit(47, url) == 118 && Digit(48, url) == 119 && Digit(49, url) == 120
            && Digit(50, url) == 121 && Digit(51, url) == 122
    ensures Digit(52, url) == 48 && Digit(53, url) == 49 && Digit(54, url) == 50 && Digit(55, url) == 51
            && Digit(56, url) == 52 && Digit(57, url) == 53 && Digit(58, url) == 54 && Digit(59, url) == 55
            && Digit(60, url) == 56 && Digit(61, url) == 57
    ensures Digit(62, false) == 43 && Digit(63, false) == 47 && Digit(62, true) == 45 && Digit(63, true) == 95
  {
  }

  lemma {:induction false} ValuesSkip(a: seq<Byte>, c: Byte, b: seq<Byte>)
    requires PAD !in a
    ensures c != PAD && Value(c).None? ==> Values(a + [c] + b) == Values(a + b)
    ensures c == PAD ==> Values(a + [c] + b) == Values(a)
    decreases |a|
  {
    var text := a + [c] + b;
    if a == [] {
      assert text[1..] == b && [] + b == b;
    } else {
      assert text[1..] == a[1..] + [c] + b && (a + b)[1..] == a[1..] + b;
      ValuesSkip(a[1..], c, b);
    }
  }

  /** Characters outside both alphabets are skipped, and nothing from the first '=' on is read. */
  lemma DecodeSkips(a: seq<Byte>, c: Byte, b: seq<Byte>)
    requires PAD !in a
    ensures c != PAD && Value(c).None? ==> Decode(a + [c] + b) == Decode(a + b)
    ensures c == PAD ==> Decode(a + [c] + b) == Decode(a)
  {
    hide Chunked, Value, Values;
    ValuesSkip(a, c, b);
  }
}
