/** Length-prefixed framing: four little-endian length bytes, then the body. */
module Framing {
  import opened Bytes
  import opened Wrappers

  const MAX_MESSAGE_BYTES: nat := 4 * 1024 * 1024

  const U32_LIMIT: nat := 0x1_0000_0000

  datatype FrameError = TooLarge(len: nat) | UnexpectedEof

  // ----- the client's reader and writer -----

  /** A byte stream: what is still to be read. */
  class Source {
    var unread: seq<byte>

    constructor (unread: seq<byte>)
      ensures this.unread == unread
    {
      this.unread := unread;
    }

    /** `read_exact`: all or an end-of-file error, which leaves nothing to read. */
    method ReadExact(n: nat) returns (r: Result<seq<byte>, FrameError>)
      modifies this
      ensures if |old(unread)| < n then r == Err(UnexpectedEof) && unread == []
              else r == Ok(old(unread)[..n]) && unread == old(unread)[n..]
    {
      if |unread| < n {
        unread := [];
        return Err(UnexpectedEof);
      }
      r := Ok(unread[..n]);
      unread := unread[n..];
    }

    /** `read_framed`: agrees with the independent reading of the wire format, and consumes
        exactly the frame it returns. */
    method ReadFramed() returns (r: Result<seq<byte>, FrameError>)
      modifies this
      ensures match Expect(old(unread))
        case Body(b) => r == Ok(b) && unread == old(unread)[4 + |b|..]
        case Refused(len) => r == Err(TooLarge(len)) && unread == old(unread)[4..]
        case Short => r == Err(UnexpectedEof) && unread == []
    {
      ghost var before := unread;
      var header := ReadExact(4);
      if header.Err? {
        return header;
      }
      var len := FromLittleEndian(header.value);
      if len > MAX_MESSAGE_BYTES {
        return Err(TooLarge(len));
      }
      if len <= |unread| {
        assert before[4..4 + len] == unread[..len] && before[4 + len..] == unread[len..];
      }
      r := ReadExact(len);
    }

    /** Frames are read until the first error. */
    method ReadAll() returns (bodies: seq<seq<byte>>, end: FrameError)
      modifies this
      ensures Reading(bodies, end) == Frames(old(unread))
    {
      bodies := [];
      ghost var data := unread;
      while true
        invariant var f := Frames(unread); Reading(bodies + f.bodies, f.end) == Frames(data)
        decreases |unread|
      {
        ghost var before := unread;
        ghost var collected := bodies;
        var r := ReadFramed();
        match r {
          case Ok(body) =>
            bodies := bodies + [body];
            assert collected + ([body] + Frames(unread).bodies) == bodies + Frames(unread).bodies;
          case Err(e) =>
            assert Frames(before).bodies == [] && Frames(before).end == e;
            return bodies, e;
        }
      }
    }
  }

  datatype WriteError = MessageTooLarge

  class Sink {
    var written: seq<byte>

    constructor ()
      ensures written == []
    {
      written := [];
    }

    /** `write_framed`: refuses a length that does not fit four bytes before writing anything. */
    method WriteFramed(msg: seq<byte>) returns (r: Result<(), WriteError>)
      modifies this
      ensures r.Ok? <==> |msg| < U32_LIMIT
      ensures written == old(written) + if |msg| < U32_LIMIT then Frame(msg) else []
    {
      if |msg| >= U32_LIMIT {
        assert written + [] == written;
        return Err(MessageTooLarge);
      }
      written := written + LittleEndian(|msg|, 4);
      written := written + msg;
      r := Ok(());
    }
  }

  // ----- the wire format, read independently -----

  datatype Expected = Body(body: seq<byte>) | Refused(len: nat) | Short

  /** What the format says the next frame is. */
  function Expect(stream: seq<byte>): (e: Expected)
    ensures e.Body? ==> 4 + |e.body| <= |stream|
    ensures e.Refused? ==> 4 <= |stream|
  {
    if |stream| < 4 then Short
    else
      var len := FromLittleEndian(stream[..4]);
      if len > MAX_MESSAGE_BYTES then Refused(len)
      else if |stream| - 4 < len then Short
      else Body(stream[4..4 + len])
  }

  datatype Reading = Reading(bodies: seq<seq<byte>>, end: FrameError)

  function Frames(stream: seq<byte>): Reading
    decreases |stream|
  {
    match Expect(stream)
    case Refused(len) => Reading([], TooLarge(len))
    case Short => Reading([], UnexpectedEof)
    case Body(b) => var r := Frames(stream[4 + |b|..]); Reading([b] + r.bodies, r.end)
  }

  // ----- writing then reading -----

  function Frame(msg: seq<byte>): seq<byte> {
    LittleEndian(|msg|, 4) + msg
  }

  /** What writing a list of messages one after the other leaves in the stream. */
  function Encode(msgs: seq<seq<byte>>): seq<byte> {
    if msgs == [] then [] else Frame(msgs[0]) + Encode(msgs[1..])
  }

  lemma {:induction false} FourBytes()
    ensures Pow256(4) == U32_LIMIT
  {
    assert Pow256(0) == 1 && Pow256(1) == 256 && Pow256(2) == 65536 && Pow256(3) == 16777216;
  }

  lemma {:induction false} ExpectFrame(msg: seq<byte>, rest: seq<byte>)
    requires |msg| < U32_LIMIT
    ensures Expect(Frame(msg) + rest) == if |msg| <= MAX_MESSAGE_BYTES then Body(msg) else Refused(|msg|)
    ensures (Frame(msg) + rest)[4 + |msg|..] == rest
  {
    hide LittleEndian, FromLittleEndian;
    FourBytes();
    LittleEndianReads(|msg|, 4);
    var s := Frame(msg) + rest;
    assert s[..4] == LittleEndian(|msg|, 4);
    if |msg| <= MAX_MESSAGE_BYTES {
      assert s[4..4 + |msg|] == msg;
    }
  }

  /** What the next frame is, from the writer's side: a body is what a frame within the limit carries; a frame is
      too large exactly when its four length bytes announce more than the limit; everything else is cut off. */
  lemma {:induction false} ExpectIff(stream: seq<byte>, body: seq<byte>, len: nat)
    requires |body| < U32_LIMIT && len < U32_LIMIT
    ensures Expect(stream) == Body(body) <==>
      |body| <= 4194304 && |stream| >= 4 + |body| && stream[..4 + |body|] == LittleEndian(|body|, 4) + body
    ensures Expect(stream) == Refused(len) <==>
      len > 4194304 && |stream| >= 4 && stream[..4] == LittleEndian(len, 4)
    ensures Expect(stream) == Short <==>
      |stream| < 4 || (FromLittleEndian(stream[..4]) <= 4194304 && |stream| - 4 < FromLittleEndian(stream[..4]))
  {
    hide LittleEndian, FromLittleEndian;
    FourBytes();
    LittleEndianReads(|body|, 4);
    LittleEndianReads(len, 4);
    if |stream| >= 4 {
      LittleEndianWrites(stream[..4]);
      if |stream| >= 4 + |body| {
        assert stream[..4 + |body|] == stream[..4] + stream[4..4 + |body|];
        assert stream[..4 + |body|][..4] == stream[..4] && stream[..4 + |body|][4..] == stream[4..4 + |body|];
        assert (LittleEndian(|body|, 4) + body)[..4] == LittleEndian(|body|, 4);
        assert (LittleEndian(|body|, 4) + body)[4..] == body;
      }
    }
  }

  /** A frame that is cut anywhere, within the limit, ends in an unexpected end of the stream. */
  lemma {:induction false} CutFrame(msg: seq<byte>, n: nat)
    requires |msg| <= 4194304 && n < |Frame(msg)|
    ensures Frames(Frame(msg)[..n]) == Reading([], UnexpectedEof)
  {
    hide LittleEndian, FromLittleEndian;
    FourBytes();
    LittleEndianReads(|msg|, 4);
    if n >= 4 {
      assert Frame(msg)[..n][..4] == LittleEndian(|msg|, 4);
    }
  }

  /** The messages up to the first one over the reader's limit. */
  function WithinLimit(msgs: seq<seq<byte>>): (k: nat)
    ensures k <= |msgs|
    ensures forall i :: 0 <= i < k ==> |msgs[i]| <= MAX_MESSAGE_BYTES
    ensures k < |msgs| ==> |msgs[k]| > MAX_MESSAGE_BYTES
  {
    if msgs == [] || |msgs[0]| > MAX_MESSAGE_BYTES then 0 else 1 + WithinLimit(msgs[1..])
  }

  /** Reading back what was written gives the messages up to the first one over the limit, then
      its length as the error, or the end of the stream. */
  lemma {:induction false} EncodedReadsBack(msgs: seq<seq<byte>>)
    requires forall i :: 0 <= i < |msgs| ==> |msgs[i]| < U32_LIMIT
    ensures var k := WithinLimit(msgs);
      Frames(Encode(msgs)) == Reading(msgs[..k], if k < |msgs| then TooLarge(|msgs[k]|) else UnexpectedEof)
    decreases |msgs|
  {
    hide Frame, Expect;
    if msgs == [] {
      ExpectNothing();
    } else {
      ExpectFrame(msgs[0], Encode(msgs[1..]));
      if |msgs[0]| <= MAX_MESSAGE_BYTES {
        EncodedReadsBack(msgs[1..]);
        var k := WithinLimit(msgs[1..]);
        assert msgs[..k + 1] == [msgs[0]] + msgs[1..][..k];
      }
    }
  }

  lemma {:induction false} ExpectNothing()
    ensures Expect([]) == Short
  {
  }

  /** So the list comes back whole exactly when every message is within the limit. */
  lemma {:induction false} RoundTripIff(msgs: seq<seq<byte>>)
    requires forall i :: 0 <= i < |msgs| ==> |msgs[i]| < U32_LIMIT
    ensures Frames(Encode(msgs)) == Reading(msgs, UnexpectedEof)
       <==> forall i :: 0 <= i < |msgs| ==> |msgs[i]| <= MAX_MESSAGE_BYTES
  {
    hide Frames, Encode;
    EncodedReadsBack(msgs);
    var k := WithinLimit(msgs);
    assert k == |msgs| ==> msgs[..k] == msgs;
  }
}
