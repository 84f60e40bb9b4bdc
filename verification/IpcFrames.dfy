// Length-prefixed frames over a byte stream (crates/ipc).
module Ipc {
  import opened Bytes
  import opened Results
  import opened Streams

  /** The bytes of one frame: the length modulo 2^32 as four big-endian bytes, then the payload. */
  function Frame(payload: seq<byte>): seq<byte> {
    ToBe(|payload| % U32, 4) + payload
  }

  function Frames(payloads: seq<seq<byte>>): seq<byte> {
    if payloads == [] then [] else Frame(payloads[0]) + Frames(payloads[1..])
  }

  /** One payload from the front of a stream and the bytes left; an error uses up an unknown part. */
  function Parse(stream: seq<byte>): Result<(seq<byte>, seq<byte>)> {
    if |stream| < 4 then Err(EndOfStream) else
    var len := Be(stream[..4]);
    if |stream| - 4 < len then Err(EndOfStream) else Ok((stream[4..4 + len], stream[4 + len..]))
  }

  /** Frames read until the first that is not complete, and what is left. */
  function ParseAll(stream: seq<byte>): (seq<seq<byte>>, seq<byte>)
    decreases |stream|
  {
    var one := Parse(stream);
    if one.Err? then ([], stream) else
    var (rest, left) := ParseAll(one.value.1);
    ([one.value.0] + rest, left)
  }

  class IpcStream {
    const stream: ByteStream

    constructor (stream: ByteStream)
      ensures this.stream == stream
    {
      this.stream := stream;
    }

    method WriteFrame(data: seq<byte>)
      modifies stream`output
      ensures stream.output == old(stream.output) + Frame(data)
    {
      var buf := [];
      buf := buf + ToBe(|data| % U32, 4);
      buf := buf + data;
      stream.WriteAll(buf);
    }

    method ReadFrame() returns (r: Result<seq<byte>>)
      modifies stream`input
      ensures r.Ok? <==> Parse(old(stream.input)).Ok?
      ensures r.Ok? ==> (r.value, stream.input) == Parse(old(stream.input)).value
    {
      ghost var input := stream.input;
      var lenBuf :- stream.ReadExact(4);
      var len := Be(lenBuf);
      var payload := [];
      if len > 0 {
        payload :- stream.ReadExact(len);
      }
      assert len <= |input| - 4 && payload == input[4..4 + len] && stream.input == input[4 + len..];
      return Ok(payload);
    }
  }

  ghost predicate Short(payloads: seq<seq<byte>>) {
    forall i :: 0 <= i < |payloads| ==> |payloads[i]| < U32
  }

  lemma ParseOfFrame(payload: seq<byte>, rest: seq<byte>)
    requires |payload| < U32
    ensures Parse(Frame(payload) + rest) == Ok((payload, rest))
  {
    hide Be, ToBe;
    PowValues();
    BeOfToBe(|payload|, 4);
    var stream := Frame(payload) + rest;
    assert stream[..4] == ToBe(|payload|, 4);
    assert stream[4..4 + |payload|] == payload && stream[4 + |payload|..] == rest;
  }

  /** Reading the concatenated frames of any payloads returns exactly them and consumes every byte. */
  lemma {:induction false} ParseAllOfFrames(payloads: seq<seq<byte>>)
    requires Short(payloads)
    ensures ParseAll(Frames(payloads)) == (payloads, [])
    decreases |payloads|
  {
    hide Frame, Parse;
    if payloads == [] {
      EmptyStream();
    } else {
      ParseOfFrame(payloads[0], Frames(payloads[1..]));
      ParseAllOfFrames(payloads[1..]);
      ParseAllStep(Frames(payloads));
      assert [payloads[0]] + payloads[1..] == payloads;
    }
  }

  lemma EmptyStream()
    ensures ParseAll([]) == ([], [])
  {
  }

  lemma ParseAllStep(stream: seq<byte>)
    requires Parse(stream).Ok?
    ensures ParseAll(stream) ==
      var (payload, rest) := Parse(stream).value; ([payload] + ParseAll(rest).0, ParseAll(rest).1)
  {
  }

  /** The bytes on the wire: the length, most significant byte first, and then the payload. */
  lemma FrameBytes(payload: seq<byte>)
    requires |payload| < 0x1_0000_0000
    ensures var f := Frame(payload);
      && |f| == 4 + |payload| && f[4..] == payload
      && f[0] as nat * 0x100_0000 + f[1] as nat * 0x1_0000 + f[2] as nat * 0x100 + f[3] as nat == |payload|
  {
    hide Be, ToBe;
    PowValues();
    BeOfToBe(|payload|, 4);
    BeDigits(ToBe(|payload|, 4));
  }

  /** Streams are uniquely decodable: equal bytes come from equal lists of payloads. */
  lemma FramesInjective(a: seq<seq<byte>>, b: seq<seq<byte>>)
    requires Short(a) && Short(b) && Frames(a) == Frames(b)
    ensures a == b
  {
    hide ParseAll, Frames;
    ParseAllOfFrames(a);
    ParseAllOfFrames(b);
  }

  /** Any stream is the frames that were read from it followed by what is left. */
  lemma {:induction false} FramesOfParseAll(stream: seq<byte>)
    ensures var (payloads, left) := ParseAll(stream);
      Short(payloads) && Frames(payloads) + left == stream && Parse(left).Err?
    decreases |stream|
  {
    hide Frame, Parse;
    if Parse(stream).Ok? {
      var (payload, rest) := Parse(stream).value;
      var (more, left) := ParseAll(rest);
      FrameOfParse(stream);
      FramesOfParseAll(rest);
      assert ([payload] + more)[1..] == more;
      assert Frames([payload] + more) == Frame(payload) + Frames(more);
      assert (Frame(payload) + Frames(more)) + left == Frame(payload) + (Frames(more) + left);
    } else {
      assert [] + stream == stream;
    }
  }

  lemma FrameOfParse(stream: seq<byte>)
    requires Parse(stream).Ok?
    ensures var (payload, rest) := Parse(stream).value;
      |payload| < U32 && |rest| < |stream| && Frame(payload) + rest == stream
  {
    hide Be, ToBe;
    PowValues();
    BeBound(stream[..4]);
    ToBeOfBe(stream[..4]);
  }

  /** A payload comes back from its own frame, followed by more, exactly when its length fits the four-byte prefix. */
  lemma FrameRoundTripIff(payload: seq<byte>, rest: seq<byte>)
    ensures Parse(Frame(payload) + rest) == Ok((payload, rest)) <==> |payload| < U32
  {
    hide Be, ToBe;
    if |payload| < U32 {
      ParseOfFrame(payload, rest);
    } else {
      PowValues();
      BeOfToBe(|payload| % U32, 4);
      var stream := Frame(payload) + rest;
      assert stream[..4] == ToBe(|payload| % U32, 4);
      assert |stream[4..4 + |payload| % U32]| < |payload|;
    }
  }
}
