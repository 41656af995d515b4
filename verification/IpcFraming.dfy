/** The framing of the fork channel: a four-byte big-endian length before every payload, and the
    reader that cuts a byte stream, arriving in arbitrary pieces, back into payloads. */
module IpcFraming {
  import opened Bytes

  type Payload = seq<Octet>

  /** The length fits the header. A longer payload cannot be framed. */
  predicate Sized(payload: Payload) {
    |payload| < 0x1_0000_0000
  }

  function Header(n: nat): (h: seq<Octet>)
    requires n < 0x1_0000_0000
    ensures |h| == 4
  {
    var n1 := n / 256;
    var n2 := n1 / 256;
    [n2 / 256, n2 % 256, n1 % 256, n % 256]
  }

  /** The header is the length in four bytes, the highest first. */
  lemma HeaderIsBigEndian(n: nat)
    requires n < 0x1_0000_0000
    ensures var h := Header(n); n == 16777216 * (h[0] as int) + 65536 * (h[1] as int) + 256 * (h[2] as int) + h[3] as int
  {
  }

  function Length(s: seq<Octet>): nat
    requires |s| >= 4
  {
    ((s[0] as int * 256 + s[1] as int) * 256 + s[2] as int) * 256 + s[3] as int
  }

  function Frame(payload: Payload): seq<Octet>
    requires Sized(payload)
  {
    Header(|payload|) + payload
  }

  function Frames(payloads: seq<Payload>): seq<Octet>
    requires forall i :: 0 <= i < |payloads| ==> Sized(payloads[i])
  {
    if payloads == [] then [] else Frame(payloads[0]) + Frames(payloads[1..])
  }

  /** Whether a whole frame lies at the front of s. */
  predicate HasFrame(s: seq<Octet>) {
    |s| >= 4 && |s| >= 4 + Length(s)
  }

  datatype Parsed = Parsed(payloads: seq<Payload>, rest: seq<Octet>)

  function Then(payloads: seq<Payload>, later: Parsed): Parsed {
    Parsed(payloads + later.payloads, later.rest)
  }

  lemma ThenThen(a: seq<Payload>, b: seq<Payload>, later: Parsed)
    ensures Then(a, Then(b, later)) == Then(a + b, later)
  {
  }

  /** All whole frames at the front of a stream, and what is left. */
  function Parse(s: seq<Octet>): Parsed
    decreases |s|
  {
    if !HasFrame(s) then Parsed([], s)
    else
      var n := 4 + Length(s);
      Then([s[4..n]], Parse(s[n..]))
  }

  /** The reader's inner loop, run after every read: whole frames leave the buffer as messages. */
  method Extract(buffer: seq<Octet>, chunk: seq<Octet>) returns (messages: seq<Payload>, incoming: seq<Octet>)
    ensures Parsed(messages, incoming) == Parse(buffer + chunk)
    ensures !HasFrame(incoming)
  {
    messages, incoming := [], buffer + chunk;
    while true
      invariant Parse(buffer + chunk) == Then(messages, Parse(incoming))
      decreases |incoming|
    {
      if |incoming| < 4 {
        break;
      }
      var length := Length(incoming);
      if |incoming| < 4 + length {
        break;
      }
      assert HasFrame(incoming);
      ghost var later := Parse(incoming[4 + length..]);
      assert Parse(incoming) == Then([incoming[4..4 + length]], later);
      ThenThen(messages, [incoming[4..4 + length]], later);
      messages := messages + [incoming[4..4 + length]];
      incoming := incoming[4 + length..];
    }
    assert Then(messages, Parsed([], incoming)) == Parsed(messages, incoming);
  }

  // ---- any pieces ----

  lemma LengthOfPrefix(s: seq<Octet>, t: seq<Octet>)
    requires |s| >= 4
    ensures Length(s + t) == Length(s)
  {
  }

  /** Parsing may stop and resume anywhere. */
  lemma {:induction false} ParseResumes(s: seq<Octet>, t: seq<Octet>)
    ensures Parse(s + t) == Then(Parse(s).payloads, Parse(Parse(s).rest + t))
    decreases |s|
  {
    if HasFrame(s) {
      LengthOfPrefix(s, t);
      var n := 4 + Length(s);
      assert (s + t)[n..] == s[n..] + t && (s + t)[4..n] == s[4..n];
      calc {
        Parse(s + t);
        Then([s[4..n]], Parse(s[n..] + t));
        { ParseResumes(s[n..], t); }
        Then([s[4..n]], Then(Parse(s[n..]).payloads, Parse(Parse(s[n..]).rest + t)));
        { ThenThen([s[4..n]], Parse(s[n..]).payloads, Parse(Parse(s[n..]).rest + t)); }
        Then(Parse(s).payloads, Parse(Parse(s).rest + t));
      }
    } else {
      assert Then([], Parse(s + t)) == Parse(s + t);
    }
  }

  lemma {:induction false} RestHasNoFrame(s: seq<Octet>)
    ensures !HasFrame(Parse(s).rest)
    decreases |s|
  {
    if HasFrame(s) { RestHasNoFrame(s[4 + Length(s)..]); }
  }

  /** The reader's messages when the stream comes in the given pieces. */
  function ReadAll(incoming: seq<Octet>, pieces: seq<seq<Octet>>): Parsed
    decreases |pieces|
  {
    if pieces == [] then Parsed([], incoming)
    else
      var now := Parse(incoming + pieces[0]);
      Then(now.payloads, ReadAll(now.rest, pieces[1..]))
  }

  lemma ReadOne(incoming: seq<Octet>, piece: seq<Octet>, later: seq<Octet>)
    ensures var now := Parse(incoming + piece);
            Then(now.payloads, Parse(now.rest + later)) == Parse(incoming + (piece + later))
  {
    hide Parse;
    ParseResumes(incoming + piece, later);
    assert (incoming + piece) + later == incoming + (piece + later);
  }

  /** How the stream is cut into pieces does not matter. */
  lemma {:induction false} ReadsDoNotMatter(incoming: seq<Octet>, pieces: seq<seq<Octet>>)
    requires !HasFrame(incoming)
    ensures ReadAll(incoming, pieces) == Parse(incoming + Joined(pieces))
    decreases |pieces|
  {
    if pieces == [] {
      assert incoming + [] == incoming;
    } else {
      RestHasNoFrame(incoming + pieces[0]);
      ReadsDoNotMatter(Parse(incoming + pieces[0]).rest, pieces[1..]);
      ReadOne(incoming, pieces[0], Joined(pieces[1..]));
    }
  }

  // ---- what the reader gets of what the sender wrote ----

  lemma HeaderLength(n: nat)
    requires n < 0x1_0000_0000
    ensures Length(Header(n)) == n
  {
  }

  lemma FrameLength(payload: Payload, t: seq<Octet>)
    requires Sized(payload)
    ensures Length(Frame(payload) + t) == |payload| && |Frame(payload)| == 4 + |payload|
  {
    HeaderLength(|payload|);
    assert (Frame(payload) + t)[..4] == Header(|payload|);
  }

  /** Every byte prefix of a sequence of frames, however short it was cut, parses to a prefix of the
      payloads; the whole sequence parses to all of them. */
  lemma {:induction false} PrefixParses(payloads: seq<Payload>, s: seq<Octet>)
    requires forall i :: 0 <= i < |payloads| ==> Sized(payloads[i])
    requires s <= Frames(payloads)
    ensures Parse(s).payloads <= payloads
    ensures s == Frames(payloads) ==> Parse(s) == Parsed(payloads, [])
    decreases |payloads|
  {
    hide Header, Length;
    if payloads != [] {
      var head, tail := Frame(payloads[0]), Frames(payloads[1..]);
      FrameLength(payloads[0], tail);
      if |s| >= |head| {
        assert s[..|head|] == head;
        assert s == head + s[|head|..];
        FrameLength(payloads[0], s[|head|..]);
        PrefixParses(payloads[1..], s[|head|..]);
        assert s[4..|head|] == payloads[0];
        assert payloads == [payloads[0]] + payloads[1..];
      } else if |s| >= 4 {
        var rest := (head + tail)[|s|..];
        assert s + rest == head + tail;
        LengthOfPrefix(s, rest);
      }
    }
  }

  lemma {:induction false} FramesAppend(payloads: seq<Payload>, payload: Payload)
    requires (forall i :: 0 <= i < |payloads| ==> Sized(payloads[i])) && Sized(payload)
    ensures Frames(payloads + [payload]) == Frames(payloads) + Frame(payload)
    decreases |payloads|
  {
    hide Frame;
    if payloads == [] {
      assert payloads + [payload] == [payload];
      assert [payload][1..] == [];
    } else {
      FramesAppend(payloads[1..], payload);
      assert (payloads + [payload])[1..] == payloads[1..] + [payload];
    }
  }
}
