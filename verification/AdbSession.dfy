// The ADB connection loop (crates/adb): a byte stream in, replies out.
module AdbSession {
  import opened Bytes
  import opened Results
  import opened Streams
  import opened Adb

  const MAX_PAYLOAD: nat := 4096
  const IDENTITY: seq<byte> :=
    [0x64, 0x65, 0x76, 0x69, 0x63, 0x65, 0x3a, 0x3a,
     0x6c, 0x69, 0x74, 0x65, 0x64, 0x72, 0x6f, 0x69, 0x64]  // device::litedroid
  const HOST_VERSION: seq<byte> := [0x68, 0x6f, 0x73, 0x74, 0x3a, 0x76, 0x65, 0x72, 0x73, 0x69, 0x6f, 0x6e]
  const HOST_DEVICES: seq<byte> := [0x68, 0x6f, 0x73, 0x74, 0x3a, 0x64, 0x65, 0x76, 0x69, 0x63, 0x65, 0x73]
  const HOST_KILL: seq<byte> := [0x68, 0x6f, 0x73, 0x74, 0x3a, 0x6b, 0x69, 0x6c, 0x6c]
  const VERSION_REPLY: seq<byte> := [0x30, 0x30, 0x30, 0x34, 0x30, 0x30, 0x32, 0x34]  // 00040024
  const DEVICES_REPLY: seq<byte> :=
    [0x4c, 0x49, 0x54, 0x45, 0x44, 0x52, 0x4f, 0x49, 0x44, 0x30, 0x30, 0x31, 0x09, 0x64, 0x65, 0x76, 0x69, 0x63, 0x65]

  function Banner(): AdbMessage {
    Connect(IDENTITY, MAX_PAYLOAD)
  }

  /** A message that ends the connection. */
  predicate IsStop(m: AdbMessage) {
    m.command == CMD_CLSE || (m.command == CMD_OPEN && m.data == HOST_KILL)
  }

  /** The replies to one message while the next local id is `id`. */
  function Replies(m: AdbMessage, id: nat): seq<AdbMessage> {
    if m.command == CMD_OPEN then
      if m.data == HOST_VERSION then [Okay(id, m.arg0), WriteMsg(id, m.arg0, VERSION_REPLY)]
      else if m.data == HOST_DEVICES then [Okay(id, m.arg0), WriteMsg(id, m.arg0, DEVICES_REPLY)]
      else if m.data == HOST_KILL then [Close(id, m.arg0)]
      else [Okay(id, m.arg0)]
    else if m.command == CMD_CNXN then [Banner()]
    else []
  }

  function NextId(m: AdbMessage, id: nat): nat {
    if m.command == CMD_OPEN then (id + 1) % U32 else id
  }

  /** The message at the front of a stream, if all its bytes are there and it decodes. */
  function Front(input: seq<byte>): Result<AdbMessage> {
    if |input| < HEADER_SIZE then Err(EndOfStream)
    else if |input| < HEADER_SIZE + LeAt(input, 12, 4) then Err(EndOfStream)
    else Decode(input[..HEADER_SIZE + LeAt(input, 12, 4)])
  }

  function FrontSize(input: seq<byte>): nat
    requires Front(input).Ok?
  {
    HEADER_SIZE + LeAt(input, 12, 4)
  }

  /** The messages the loop takes from a stream, the stopping one included. */
  function Received(input: seq<byte>): seq<AdbMessage>
    decreases |input|
  {
    match Front(input)
    case Err(_) => []
    case Ok(m) => [m] + if IsStop(m) then [] else Received(input[FrontSize(input)..])
  }

  /** All replies to a list of messages. */
  function Transcript(ms: seq<AdbMessage>, id: nat): seq<AdbMessage> {
    if ms == [] then [] else Replies(ms[0], id) + Transcript(ms[1..], NextId(ms[0], id))
  }

  function EncodeAll(ms: seq<AdbMessage>): seq<byte> {
    if ms == [] then [] else Encode(ms[0]) + EncodeAll(ms[1..])
  }

  /** Everything sent on a connection over which `input` arrives. */
  function Sent(input: seq<byte>): seq<byte> {
    EncodeAll([Banner()] + Transcript(Received(input), 1))
  }

  lemma {:induction false} EncodeAllAppend(a: seq<AdbMessage>, b: seq<AdbMessage>)
    ensures EncodeAll(a + b) == EncodeAll(a) + EncodeAll(b)
    decreases |a|
  {
    hide Encode;
    if a == [] {
      assert a + b == b;
    } else {
      EncodeAllAppend(a[1..], b);
      assert (a + b)[1..] == a[1..] + b;
    }
  }

  // One turn of the loop: the replies to the front message, then everything that follows it.
  lemma TurnTranscript(input: seq<byte>, id: nat)
    requires Front(input).Ok?
    ensures var m := Front(input).value;
      var after := if IsStop(m) then [] else EncodeAll(Transcript(Received(input[FrontSize(input)..]), NextId(m, id)));
      EncodeAll(Transcript(Received(input), id)) == EncodeAll(Replies(m, id)) + after
  {
    hide Decode, IsStop, Replies, Encode;
    var m := Front(input).value;
    var rest := if IsStop(m) then [] else Received(input[FrontSize(input)..]);
    assert Received(input) == [m] + rest;
    assert ([m] + rest)[1..] == rest;
    EncodeAllAppend(Replies(m, id), Transcript(rest, NextId(m, id)));
  }

  lemma EmptyTranscript()
    ensures forall id: nat :: EncodeAll(Transcript([], id)) == []
  {
  }

  lemma EncodeFew(a: AdbMessage, b: AdbMessage)
    ensures EncodeAll([a]) == Encode(a) && EncodeAll([a, b]) == Encode(a) + Encode(b)
  {
    hide Encode;
    assert [a, b][1..] == [b];
    assert EncodeAll([b]) == Encode(b) + EncodeAll([]);
  }

  /** Steps 2 to 4 of the loop: the header, the payload it announces, and their decoding. */
  method ReadMessage(stream: ByteStream) returns (r: Result<AdbMessage>)
    modifies stream`input
    ensures r.Ok? <==> Front(old(stream.input)).Ok?
    ensures r.Ok? ==> r == Front(old(stream.input)) && stream.input == old(stream.input)[FrontSize(old(stream.input))..]
  {
    hide Decode, LeAt;
    ghost var input := stream.input;
    var header :- stream.ReadExact(HEADER_SIZE);
    LeAtPrefix(input, HEADER_SIZE, 12);
    var dataLen := LeAt(header, 12, 4);
    var full := header;
    if dataLen > 0 {
      var payload :- stream.ReadExact(dataLen);
      full := full + payload;
    }
    assert full == input[..HEADER_SIZE + dataLen];
    r := Decode(full);
  }

  /** Step 5: the replies to one message. */
  method Dispatch(stream: ByteStream, msg: AdbMessage, nextLocalId: nat) returns (id: nat, running: bool)
    modifies stream`output
    ensures stream.output == old(stream.output) + EncodeAll(Replies(msg, nextLocalId))
    ensures id == NextId(msg, nextLocalId) && running == !IsStop(msg)
  {
    hide Encode, Okay, Close, WriteMsg, Banner;
    id, running := nextLocalId, true;
    if msg.command == CMD_OPEN {
      var localId, remoteId := nextLocalId, msg.arg0;
      id := (nextLocalId + 1) % U32;
      EncodeFew(Okay(localId, remoteId), WriteMsg(localId, remoteId, VERSION_REPLY));
      EncodeFew(Okay(localId, remoteId), WriteMsg(localId, remoteId, DEVICES_REPLY));
      EncodeFew(Close(localId, remoteId), Banner());
      if msg.data == HOST_VERSION {
        stream.WriteAll(Encode(Okay(localId, remoteId)));
        stream.WriteAll(Encode(WriteMsg(localId, remoteId, VERSION_REPLY)));
      } else if msg.data == HOST_DEVICES {
        stream.WriteAll(Encode(Okay(localId, remoteId)));
        stream.WriteAll(Encode(WriteMsg(localId, remoteId, DEVICES_REPLY)));
      } else if msg.data == HOST_KILL {
        stream.WriteAll(Encode(Close(localId, remoteId)));
        running := false;
      } else {
        stream.WriteAll(Encode(Okay(localId, remoteId)));
      }
    } else if msg.command == CMD_CNXN {
      EncodeFew(Banner(), Banner());
      stream.WriteAll(Encode(Banner()));
    } else if msg.command == CMD_CLSE {
      running := false;
    }
  }

  /** `handle_client`: what the peer sees is the banner and then the replies to what was received. */
  method HandleClient(stream: ByteStream)
    modifies stream
    ensures stream.output == old(stream.output) + Sent(old(stream.input))
  {
    hide Encode, Decode, LeAt, Transcript, Banner, Replies, IsStop, NextId;
    ghost var whole := Transcript(Received(stream.input), 1);
    stream.WriteAll(Encode(Banner()));
    EncodeAllAppend([Banner()], whole);
    EncodeFew(Banner(), Banner());
    EmptyTranscript();
    ghost var sent := stream.output;
    var nextLocalId: nat, running := 1, true;
    while running
      invariant sent == old(stream.output) + Encode(Banner())
      invariant stream.output + (if running then EncodeAll(Transcript(Received(stream.input), nextLocalId)) else [])
        == sent + EncodeAll(whole)
      decreases running, |stream.input|
    {
      ghost var input := stream.input;
      var msg := ReadMessage(stream);
      if msg.Err? {
        running := false;
      } else {
        TurnTranscript(input, nextLocalId);
        nextLocalId, running := Dispatch(stream, msg.value, nextLocalId);
      }
    }
    assert stream.output + [] == stream.output;
    assert sent + EncodeAll(whole) == old(stream.output) + (Encode(Banner()) + EncodeAll(whole));
  }

  lemma LeAtPrefix(input: seq<byte>, n: nat, at: nat)
    requires at + 4 <= n <= |input|
    ensures LeAt(input[..n], at, 4) == LeAt(input, at, 4)
  {
    assert input[..n][at..at + 4] == input[at..at + 4];
  }

  // ---- What a stream contains ----

  ghost predicate AllWellFormed(ms: seq<AdbMessage>) {
    forall i :: 0 <= i < |ms| ==> WellFormed(ms[i])
  }

  /** No message before the last stops the connection. */
  ghost predicate StopsOnlyAtEnd(ms: seq<AdbMessage>) {
    forall i :: 0 <= i < |ms| - 1 ==> !IsStop(ms[i])
  }

  ghost predicate EndsWithStop(ms: seq<AdbMessage>) {
    ms != [] && IsStop(ms[|ms| - 1])
  }

  lemma FrontOfEncoding(m: AdbMessage, rest: seq<byte>)
    requires WellFormed(m)
    ensures Front(Encode(m) + rest) == Ok(m) && (Encode(m) + rest)[FrontSize(Encode(m) + rest)..] == rest
  {
    hide Encode, Decode;
    FieldValues(m);
    var b := Encode(m) + rest;
    assert b[12..16] == Encode(m)[12..16];
    DecodeOfEncode(m, []);
    assert Encode(m) + [] == Encode(m) == b[..HEADER_SIZE + |m.data|];
  }

  /**
   * For any list of well-formed messages, whatever follows on the stream, the loop recovers the list
   * itself when it stops only at its end, and goes on with what follows when it does not stop.
   */
  lemma {:induction false} ReceivedOfEncodings(ms: seq<AdbMessage>, rest: seq<byte>)
    requires AllWellFormed(ms) && StopsOnlyAtEnd(ms)
    ensures Received(EncodeAll(ms) + rest) == ms + if EndsWithStop(ms) then [] else Received(rest)
    decreases |ms|
  {
    hide Encode, Front, IsStop, WellFormed, FrontSize, Received, EncodeAll;
    EncodeAllHead(ms, rest);
    if ms == [] {
      assert [] + Received(rest) == Received(rest);
    } else {
      var tail := EncodeAll(ms[1..]) + rest;
      assert WellFormed(ms[0]);
      FrontOfEncoding(ms[0], tail);
      ReceivedStep(Encode(ms[0]) + tail);
      if |ms| > 1 {
        assert !IsStop(ms[0]);
        assert ms[1..][|ms| - 2] == ms[|ms| - 1];
        ReceivedOfEncodings(ms[1..], rest);
        var after := if EndsWithStop(ms) then [] else Received(rest);
        assert [ms[0]] + (ms[1..] + after) == ms + after;
      } else {
        assert ms == [ms[0]] && ms[1..] == [];
        EncodeAllHead(ms[1..], rest);
      }
    }
  }

  lemma EncodeAllHead(ms: seq<AdbMessage>, rest: seq<byte>)
    ensures EncodeAll(ms) + rest == if ms == [] then rest else Encode(ms[0]) + (EncodeAll(ms[1..]) + rest)
  {
    hide Encode;
    if ms != [] {
      assert (Encode(ms[0]) + EncodeAll(ms[1..])) + rest == Encode(ms[0]) + (EncodeAll(ms[1..]) + rest);
    }
  }

  lemma ReceivedStep(input: seq<byte>)
    requires Front(input).Ok?
    ensures Received(input) ==
      [Front(input).value] + if IsStop(Front(input).value) then [] else Received(input[FrontSize(input)..])
  {
  }

  /**
   * For any bytes at all, what the loop receives is well formed, its encodings are a prefix of the
   * stream, only its last message can stop the connection, and if that does not, then nothing that
   * decodes comes next.
   */
  lemma {:induction false} ReceivedIsMaximalPrefix(input: seq<byte>)
    ensures var ms := Received(input);
      && AllWellFormed(ms) && StopsOnlyAtEnd(ms)
      && |EncodeAll(ms)| <= |input| && EncodeAll(ms) == input[..|EncodeAll(ms)|]
      && (EndsWithStop(ms) || Front(input[|EncodeAll(ms)|..]).Err?)
    decreases |input|
  {
    hide Encode, Front, FrontSize, IsStop, WellFormed;
    if Front(input).Err? {
      NoFront(input);
      assert input[0..] == input;
    } else {
      var m, n := Front(input).value, FrontSize(input);
      FrontIsEncoded(input);
      ReceivedStep(input);
      if IsStop(m) {
        assert EncodeAll([m]) == Encode(m) + EncodeAll([]);
        assert Encode(m) + [] == Encode(m);
      } else {
        ReceivedIsMaximalPrefix(input[n..]);
        var rest := Received(input[n..]);
        assert ([m] + rest)[1..] == rest;
        var k := |EncodeAll(rest)|;
        assert input[n..][k..] == input[n + k..];
        assert input[..n + k] == input[..n] + input[n..][..k];
      }
    }
  }

  lemma NoFront(input: seq<byte>)
    requires Front(input).Err?
    ensures Received(input) == []
  {
  }

  lemma FrontIsEncoded(input: seq<byte>)
    requires Front(input).Ok?
    ensures HEADER_SIZE <= FrontSize(input) <= |input|
    ensures WellFormed(Front(input).value) && Encode(Front(input).value) == input[..FrontSize(input)]
  {
    hide Encode, Decode;
    var b := input[..FrontSize(input)];
    EncodeOfDecode(b);
    LeAtPrefix(input, FrontSize(input), 12);
    DecodedLength(b);
    assert b[..|b|] == b;
  }

  lemma DecodedLength(b: seq<byte>)
    requires Decode(b).Ok?
    ensures |Decode(b).value.data| == LeAt(b, 12, 4)
  {
    hide LeAt, Checksum, Magic;
  }

  // ---- What the peer gets back ----

  /** The number of OPEN messages among the first `i`. */
  function Opens(ms: seq<AdbMessage>, i: nat): nat
    requires i <= |ms|
  {
    if i == 0 then 0 else Opens(ms, i - 1) + if ms[i - 1].command == CMD_OPEN then 1 else 0
  }

  /** Every reply is well formed; a reply to an OPEN carries the connection's id and the sender's. */
  lemma RepliesAre(m: AdbMessage, id: nat, k: nat)
    requires WellFormed(m) && id < U32 && k < |Replies(m, id)|
    ensures WellFormed(Replies(m, id)[k])
    ensures m.command == CMD_OPEN ==> Replies(m, id)[k].arg0 == id && Replies(m, id)[k].arg1 == m.arg0
    ensures IsStop(Replies(m, id)[k]) ==> IsStop(m) && k == |Replies(m, id)| - 1
  {
    ConstructorsWellFormed(id, m.arg0, VERSION_REPLY);
    ConstructorsWellFormed(id, m.arg0, DEVICES_REPLY);
    ConstructorsWellFormed(MAX_PAYLOAD, 0, IDENTITY);
  }

  lemma {:induction false} TranscriptWellFormed(ms: seq<AdbMessage>, id: nat)
    requires AllWellFormed(ms) && StopsOnlyAtEnd(ms) && id < U32
    ensures AllWellFormed(Transcript(ms, id)) && StopsOnlyAtEnd(Transcript(ms, id))
    decreases |ms|
  {
    hide WellFormed, IsStop, Replies;
    if ms != [] {
      var first, rest := Replies(ms[0], id), Transcript(ms[1..], NextId(ms[0], id));
      TranscriptWellFormed(ms[1..], NextId(ms[0], id));
      forall k: nat | k < |first|
        ensures WellFormed(first[k]) && (IsStop(first[k]) ==> IsStop(ms[0]) && k == |first| - 1)
      {
        RepliesAre(ms[0], id, k);
      }
      if rest != [] { assert |ms| > 1 && !IsStop(ms[0]); }
    }
  }

  /**
   * The transcript as the peer decodes it: the same reader, run over everything that was sent, recovers
   * the banner and then exactly the replies, with nothing after them.
   */
  lemma PeerDecodesTranscript(input: seq<byte>)
    ensures Received(Sent(input)) == [Banner()] + Transcript(Received(input), 1)
  {
    hide Front, WellFormed, Replies, EncodeAll, Transcript, Received, Encode;
    ReceivedIsMaximalPrefix(input);
    var replies := Transcript(Received(input), 1);
    TranscriptWellFormed(Received(input), 1);
    ConstructorsWellFormed(MAX_PAYLOAD, 0, IDENTITY);
    var all := [Banner()] + replies;
    assert WellFormed(Banner()) && !IsStop(Banner());
    hide IsStop, Banner;
    ReceivedOfEncodings(all, []);
    NothingFollows();
    assert EncodeAll(all) + [] == EncodeAll(all);
    assert all + [] == all;
  }

  lemma NothingFollows()
    ensures Received([]) == []
  {
  }

  /** The id the next OPEN gets depends only on how many came before. */
  lemma {:induction false} TranscriptSplit(ms: seq<AdbMessage>, id: nat, i: nat)
    requires i <= |ms| && id < U32
    ensures Transcript(ms, id) == Transcript(ms[..i], id) + Transcript(ms[i..], (id + Opens(ms, i)) % U32)
    decreases i
  {
    hide Replies, Transcript, Opens, NextId;
    if i == 0 {
      assert Opens(ms, 0) == 0 by { OpensNone(ms); }
      assert ms[0..] == ms && ms[..0] == [];
      TranscriptNone(id);
    } else {
      var next := NextId(ms[0], id);
      NextIdIs(ms[0], id);
      OpensShift(ms, i);
      WrapSum(id, Opens(ms[1..], i - 1), ms[0].command == CMD_OPEN);
      TranscriptSplit(ms[1..], next, i - 1);
      TranscriptHead(ms, id);
      TranscriptHead(ms[..i], id);
      assert ms[..i][1..] == ms[1..][..i - 1] && ms[1..][i - 1..] == ms[i..];
      var r, p, q := Replies(ms[0], id), Transcript(ms[..i][1..], next), Transcript(ms[i..], (id + Opens(ms, i)) % U32);
      assert r + (p + q) == (r + p) + q;
    }
  }

  lemma OpensNone(ms: seq<AdbMessage>)
    ensures Opens(ms, 0) == 0
  {
  }

  lemma TranscriptNone(id: nat)
    ensures Transcript([], id) == []
  {
  }

  lemma NextIdIs(m: AdbMessage, id: nat)
    requires id < U32
    ensures NextId(m, id) == (if m.command == CMD_OPEN then (id + 1) % U32 else id) < U32
  {
  }

  lemma WrapSum(id: nat, n: nat, opens: bool)
    requires id < U32
    ensures var next := if opens then (id + 1) % U32 else id;
      (next + n) % U32 == (id + (n + if opens then 1 else 0)) % U32
  {
    if opens && id + 1 == U32 {
      assert (id + (n + 1)) % U32 == n % U32;
    }
  }

  lemma {:induction false} OpensShift(ms: seq<AdbMessage>, i: nat)
    requires 0 < i <= |ms|
    ensures Opens(ms, i) == Opens(ms[1..], i - 1) + if ms[0].command == CMD_OPEN then 1 else 0
    decreases i
  {
    if i > 1 { OpensShift(ms, i - 1); }
  }

  lemma TranscriptHead(ms: seq<AdbMessage>, id: nat)
    requires ms != []
    ensures Transcript(ms, id) == Replies(ms[0], id) + Transcript(ms[1..], NextId(ms[0], id))
  {
  }

  lemma RepliesToOpen(m: AdbMessage, id: nat)
    requires WellFormed(m) && m.command == CMD_OPEN && id < U32
    ensures |Replies(m, id)| >= 1
    ensures forall k: nat :: k < |Replies(m, id)| ==> Replies(m, id)[k].arg0 == id && Replies(m, id)[k].arg1 == m.arg0
  {
    forall k: nat | k < |Replies(m, id)| ensures Replies(m, id)[k].arg0 == id && Replies(m, id)[k].arg1 == m.arg0 {
      RepliesAre(m, id, k);
    }
  }

  /**
   * Below 2^32 of them, the k-th OPEN counted from 1 is answered with local id k and the sender's own id,
   * right after the replies to the messages before it.
   */
  lemma KthOpenGetsIdK(ms: seq<AdbMessage>, i: nat)
    requires AllWellFormed(ms) && i < |ms| && ms[i].command == CMD_OPEN && Opens(ms, i) + 1 < U32
    ensures var id := Opens(ms, i) + 1;
      && Transcript(ms[..i], 1) + Replies(ms[i], id) <= Transcript(ms, 1)
      && |Replies(ms[i], id)| >= 1
      && (forall k: nat :: k < |Replies(ms[i], id)| ==>
            Replies(ms[i], id)[k].arg0 == id && Replies(ms[i], id)[k].arg1 == ms[i].arg0)
  {
    hide Replies, WellFormed, Transcript, Opens, NextId;
    var id := Opens(ms, i) + 1;
    assert (1 + Opens(ms, i)) % U32 == id;
    RepliesToOpen(ms[i], id);
    TranscriptSplit(ms, 1, i);
    TranscriptHead(ms[i..], id);
    var before, r := Transcript(ms[..i], 1), Replies(ms[i], id);
    var after := Transcript(ms[i..][1..], NextId(ms[i], id));
    assert before + (r + after) == (before + r) + after;
  }
}
