/** Length-prefixed frames: the encoder and the incremental decoder. */
module Framing {
  import opened Bytes
  import opened Options

  const MAX_FRAME_PAYLOAD_BYTES: nat := 1024 * 1024
  const FRAME_LENGTH_PREFIX_BYTES: nat := 4

  type Payload = seq<byte>

  datatype Popped = Nothing | Frame(payload: Payload) | TooLarge

  // ------------------------------------------------------------------
  // Specification
  // ------------------------------------------------------------------

  function Framed(payload: Payload): seq<byte> {
    LittleEndian(|payload|, FRAME_LENGTH_PREFIX_BYTES) + payload
  }

  function FrameLength(buffer: seq<byte>): nat
    requires |buffer| >= FRAME_LENGTH_PREFIX_BYTES
  {
    FromLittleEndian(buffer[..FRAME_LENGTH_PREFIX_BYTES])
  }

  // What one attempt to pop yields, and the buffer it leaves.
  function Pop(buffer: seq<byte>): (Popped, seq<byte>) {
    if |buffer| < FRAME_LENGTH_PREFIX_BYTES then (Nothing, buffer)
    else
      var length := FrameLength(buffer);
      if length > MAX_FRAME_PAYLOAD_BYTES then (TooLarge, buffer)
      else if |buffer| < FRAME_LENGTH_PREFIX_BYTES + length then (Nothing, buffer)
      else
        var end := FRAME_LENGTH_PREFIX_BYTES + length;
        (Frame(buffer[FRAME_LENGTH_PREFIX_BYTES..end]), buffer[end..])
  }

  // The stream that carries the payloads, first to last.
  function Stream(payloads: seq<Payload>): seq<byte> {
    if payloads == [] then [] else Framed(payloads[0]) + Stream(payloads[1..])
  }

  predicate Sendable(payloads: seq<Payload>) {
    forall i :: 0 <= i < |payloads| ==> |payloads[i]| <= MAX_FRAME_PAYLOAD_BYTES
  }

  // ------------------------------------------------------------------
  // The program
  // ------------------------------------------------------------------

  method EncodeFrame(payload: Payload) returns (frame: Option<seq<byte>>)
    ensures frame == if |payload| > MAX_FRAME_PAYLOAD_BYTES then None else Some(Framed(payload))
  {
    if |payload| > MAX_FRAME_PAYLOAD_BYTES { return None; }
    var prefix := AppendUnsigned([], |payload|, FRAME_LENGTH_PREFIX_BYTES);
    assert prefix == LittleEndian(|payload|, FRAME_LENGTH_PREFIX_BYTES);
    frame := Some(prefix + payload);
  }

  class FrameDecoder {
    var buffer: seq<byte>

    constructor ()
      ensures buffer == []
    {
      buffer := [];
    }

    // The bytes stay in the buffer when the push is refused.
    method Push(bytes: seq<byte>) returns (accepted: bool)
      modifies this
      ensures buffer == old(buffer) + bytes
      ensures accepted <==> |buffer| <= MAX_FRAME_PAYLOAD_BYTES + FRAME_LENGTH_PREFIX_BYTES
    {
      buffer := buffer + bytes;
      accepted := |buffer| <= MAX_FRAME_PAYLOAD_BYTES + FRAME_LENGTH_PREFIX_BYTES;
    }

    method TryPopFrame() returns (popped: Popped)
      modifies this
      ensures (popped, buffer) == Pop(old(buffer))
    {
      if |buffer| < FRAME_LENGTH_PREFIX_BYTES { return Nothing; }
      var length := ReadUnsigned(buffer, 0, FRAME_LENGTH_PREFIX_BYTES);
      if length > MAX_FRAME_PAYLOAD_BYTES { return TooLarge; }
      if |buffer| < FRAME_LENGTH_PREFIX_BYTES + length { return Nothing; }
      popped := Frame(buffer[FRAME_LENGTH_PREFIX_BYTES..FRAME_LENGTH_PREFIX_BYTES + length]);
      buffer := buffer[FRAME_LENGTH_PREFIX_BYTES + length..];
    }
  }

  // ------------------------------------------------------------------
  // Nothing is lost or invented
  // ------------------------------------------------------------------

  lemma PrefixOfFrame(payload: Payload, tail: seq<byte>)
    requires |payload| <= MAX_FRAME_PAYLOAD_BYTES
    ensures |Framed(payload)| == FRAME_LENGTH_PREFIX_BYTES + |payload|
    ensures FrameLength(Framed(payload) + tail) == |payload|
  {
    PowersOf256();
    DecodeLittleEndian(|payload|, 4);
    assert (Framed(payload) + tail)[..4] == LittleEndian(|payload|, 4);
  }

  /** A frame at the head of the buffer is popped whole, whatever follows it. */
  lemma PopsFrame(payload: Payload, tail: seq<byte>)
    requires |payload| <= MAX_FRAME_PAYLOAD_BYTES
    ensures Pop(Framed(payload) + tail) == (Frame(payload), tail)
  {
    PrefixOfFrame(payload, tail);
    var buffer := Framed(payload) + tail;
    assert buffer[4..4 + |payload|] == payload;
    assert buffer[4 + |payload|..] == tail;
  }

  /** Conversely, what is popped is exactly what the buffer starts with. */
  lemma PopTakesFrame(buffer: seq<byte>)
    ensures Pop(buffer).0.Frame? ==> Framed(Pop(buffer).0.payload) + Pop(buffer).1 == buffer
    ensures !Pop(buffer).0.Frame? ==> Pop(buffer).1 == buffer
  {
    if Pop(buffer).0.Frame? {
      EncodeFromLittleEndian(buffer[..4]);
      assert buffer == buffer[..4] + Pop(buffer).0.payload + Pop(buffer).1;
    }
  }

  lemma {:induction false} StreamOfOneMore(payloads: seq<Payload>, payload: Payload)
    ensures Stream(payloads + [payload]) == Stream(payloads) + Framed(payload)
  {
    hide Framed;
    var more := payloads + [payload];
    if payloads == [] {
      assert more[0] == payload && more[1..] == [];
    } else {
      StreamOfOneMore(payloads[1..], payload);
      assert more[0] == payloads[0] && more[1..] == payloads[1..] + [payload];
      FramesAssociate(Framed(payloads[0]), Stream(payloads[1..]), Framed(payload));
    }
  }

  lemma FramesAssociate(first: seq<byte>, middle: seq<byte>, last: seq<byte>)
    ensures first + (middle + last) == first + middle + last
  {
  }

  // A history of a decoder: chunks pushed and attempts to pop, in any order.
  datatype Call = Pushed(bytes: seq<byte>) | Tried

  datatype History = History(buffer: seq<byte>, pushed: seq<byte>, popped: seq<Payload>, failed: bool)

  function After(h: History, call: Call): History {
    match call
    case Pushed(bytes) => h.(buffer := h.buffer + bytes, pushed := h.pushed + bytes)
    case Tried =>
      var (popped, buffer) := Pop(h.buffer);
      History(buffer, h.pushed, if popped.Frame? then h.popped + [popped.payload] else h.popped, h.failed || popped.TooLarge?)
  }

  function Run(calls: seq<Call>): History {
    if calls == [] then History([], [], [], false)
    else After(Run(calls[..|calls| - 1]), calls[|calls| - 1])
  }

  /** At all times the frames popped, encoded again, and the buffer are the bytes pushed: also after a
      refused push and after an oversized length. */
  lemma {:induction false} NothingLost(calls: seq<Call>)
    ensures Stream(Run(calls).popped) + Run(calls).buffer == Run(calls).pushed
  {
    if calls != [] {
      var before, call := Run(calls[..|calls| - 1]), calls[|calls| - 1];
      NothingLost(calls[..|calls| - 1]);
      match call {
        case Pushed(bytes) =>
          assert Stream(before.popped) + (before.buffer + bytes) == Stream(before.popped) + before.buffer + bytes;
        case Tried =>
          PopTakesFrame(before.buffer);
          var (popped, buffer) := Pop(before.buffer);
          if popped.Frame? {
            StreamOfOneMore(before.popped, popped.payload);
            assert Stream(before.popped) + Framed(popped.payload) + buffer == Stream(before.popped) + (Framed(popped.payload) + buffer);
          }
      }
    }
  }

  // ------------------------------------------------------------------
  // Independence of the chunking
  // ------------------------------------------------------------------

  lemma {:induction false} StreamSplits(payloads: seq<Payload>, n: nat)
    requires n <= |payloads|
    ensures Stream(payloads) == Stream(payloads[..n]) + Stream(payloads[n..])
  {
    if n == 0 {
      assert payloads[..0] == [] && payloads[0..] == payloads;
    } else {
      var rest := payloads[1..];
      StreamSplits(rest, n - 1);
      assert payloads[..n][1..] == rest[..n - 1] && rest[n - 1..] == payloads[n..];
      var first, middle, last := Framed(payloads[0]), Stream(rest[..n - 1]), Stream(payloads[n..]);
      assert first + (middle + last) == (first + middle) + last;
    }
  }

  lemma PrefixLengthsAgree(buffer: seq<byte>, full: seq<byte>)
    requires buffer <= full && |buffer| >= FRAME_LENGTH_PREFIX_BYTES
    ensures FrameLength(buffer) == FrameLength(full)
  {
    assert buffer[..4] == full[..4];
  }

  // Popping from a part of a stream that starts with a frame gives that frame, or waits for the rest of it.
  lemma PopsFromPart(buffer: seq<byte>, payload: Payload, tail: seq<byte>)
    requires |payload| <= MAX_FRAME_PAYLOAD_BYTES && buffer <= Framed(payload) + tail
    ensures |buffer| < |Framed(payload)| ==> Pop(buffer) == (Nothing, buffer)
    ensures |buffer| >= |Framed(payload)| ==> Pop(buffer).0 == Frame(payload) && Pop(buffer).1 <= tail
  {
    PrefixOfFrame(payload, tail);
    var full := Framed(payload) + tail;
    if |buffer| >= FRAME_LENGTH_PREFIX_BYTES {
      PrefixLengthsAgree(buffer, full);
      if |buffer| >= |Framed(payload)| {
        var rest := buffer[|Framed(payload)|..];
        assert rest == full[..|buffer|][|Framed(payload)|..];
        assert tail == full[|Framed(payload)|..];
        assert buffer == Framed(payload) + rest;
        PopsFrame(payload, rest);
      }
    }
  }

  /** For any payloads within the bound and any chunking of their stream, interleaved with attempts to pop
      at any moment: no attempt fails and what has been popped is a prefix of the payloads. */
  lemma {:induction false} PopsInOrder(calls: seq<Call>, payloads: seq<Payload>)
    requires Sendable(payloads) && Run(calls).pushed <= Stream(payloads)
    ensures Run(calls).popped <= payloads && !Run(calls).failed
    ensures Run(calls).buffer <= Stream(payloads[|Run(calls).popped|..])
  {
    if calls == [] {
    } else {
      var before, call := Run(calls[..|calls| - 1]), calls[|calls| - 1];
      assert before.pushed <= Run(calls).pushed;
      PopsInOrder(calls[..|calls| - 1], payloads);
      var n := |before.popped|;
      match call {
        case Pushed(bytes) =>
          NothingLost(calls);
          StreamSplits(payloads, n);
          assert payloads[..n] == before.popped;
          SamePrefix(Stream(before.popped), Run(calls).buffer, Stream(payloads[n..]));
        case Tried =>
          if n == |payloads| {
            assert payloads[n..] == [] && before.buffer == [];
          } else {
            assert payloads[n..][1..] == payloads[n + 1..];
            PopsFromPart(before.buffer, payloads[n], Stream(payloads[n + 1..]));
            assert payloads[..n + 1] == payloads[..n] + [payloads[n]];
          }
      }
    }
  }

  lemma SamePrefix(head: seq<byte>, a: seq<byte>, b: seq<byte>)
    requires head + a <= head + b
    ensures a <= b
  {
    assert a == (head + a)[|head|..];
    assert b == (head + b)[|head|..];
    assert (head + b)[..|head + a|][|head|..] == b[..|a|];
  }

  /** Once the whole stream is in and an attempt to pop yields nothing, exactly the original payloads have
      been popped, in order, and the buffer is empty: the chunking does not matter. */
  lemma ChunkingDoesNotMatter(calls: seq<Call>, payloads: seq<Payload>)
    requires Sendable(payloads) && Run(calls).pushed == Stream(payloads)
    ensures Pop(Run(calls).buffer).0 == Nothing <==> Run(calls).popped == payloads
    ensures Pop(Run(calls).buffer).0 == Nothing ==> Run(calls).buffer == []
  {
    PopsInOrder(calls, payloads);
    NothingLost(calls);
    var h := Run(calls);
    var n := |h.popped|;
    assert payloads[..n] == h.popped;
    StreamSplits(payloads, n);
    assert h.buffer == Stream(payloads[n..]) by {
      assert h.buffer == h.pushed[|Stream(h.popped)|..];
      assert Stream(payloads[n..]) == h.pushed[|Stream(h.popped)|..];
    }
    if n < |payloads| {
      PopsFrame(payloads[n], Stream(payloads[n..][1..]));
    } else {
      assert payloads[n..] == [];
    }
  }

  /** Two streams of sendable payloads are equal only for equal payloads. */
  lemma {:induction false} StreamsDiffer(a: seq<Payload>, b: seq<Payload>)
    requires Sendable(a) && Sendable(b) && Stream(a) == Stream(b)
    ensures a == b
  {
    if a != [] && b != [] {
      PopsFrame(a[0], Stream(a[1..]));
      PopsFrame(b[0], Stream(b[1..]));
      StreamsDiffer(a[1..], b[1..]);
      assert a == [a[0]] + a[1..] && b == [b[0]] + b[1..];
    }
  }

  // ------------------------------------------------------------------
  // The bytes of a frame
  // ------------------------------------------------------------------

  /** A frame is the length of its payload in four bytes, least significant first, and the payload. */
  lemma FrameBytes(payload: Payload)
    requires |payload| <= 0x10_0000
    ensures |Framed(payload)| == 4 + |payload| && Word(Framed(payload), 0) == |payload|
    ensures Framed(payload)[4..] == payload
  {
    hide LittleEndian, FromLittleEndian;
    PrefixOfFrame(payload, []);
    assert Framed(payload) + [] == Framed(payload);
    WordOfPrefix(Framed(payload));
  }

  lemma WordOfPrefix(buffer: seq<byte>)
    requires |buffer| >= 4
    ensures FrameLength(buffer) == Word(buffer, 0)
  {
    hide FromLittleEndian;
    FourBytes(buffer[..4]);
  }

  /** An attempt to pop waits for the four bytes of a length and then for as many more; a length beyond a mebibyte
      is refused at once, and nothing but a whole frame is taken away. */
  lemma PopAnswers(buffer: seq<byte>)
    ensures Pop(buffer) ==
      if |buffer| < 4 then (Nothing, buffer)
      else
        var length := Word(buffer, 0);
        if length > 0x10_0000 then (TooLarge, buffer)
        else if |buffer| < 4 + length then (Nothing, buffer)
        else (Frame(buffer[4..4 + length]), buffer[4 + length..])
  {
    hide FrameLength, Word;
    if |buffer| >= 4 {
      WordOfPrefix(buffer);
    }
  }
}
