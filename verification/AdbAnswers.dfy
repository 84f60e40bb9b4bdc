// What a peer is told: which reply answers which message, in the peer's own bytes.
module AdbAnswers {
  import opened Bytes
  import opened Adb
  import opened AdbSession

  /** The bytes of a text of Latin characters. */
  function Ascii(text: string): seq<byte> {
    seq(|text|, i requires 0 <= i < |text| => text[i] as int % 256)
  }

  /** A message as the peer reads it. */
  datatype Saying = Saying(command: string, arg0: nat, arg1: nat, text: string)

  ghost predicate Says(r: AdbMessage, y: Saying) {
    && r.command == Ascii(y.command) && r.arg0 == y.arg0 && r.arg1 == y.arg1 && r.data == Ascii(y.text)
    && r.length == |y.text| && r.check == Checksum(Ascii(y.text))
  }

  ghost predicate AllSay(rs: seq<AdbMessage>, ys: seq<Saying>) {
    |rs| == |ys| && forall j :: 0 <= j < |rs| ==> Says(rs[j], ys[j])
  }

  const BANNER := Saying("CNXN", 0x0100_0000, 4096, "device::litedroid")

  /** What answers `m`, which comes when the next local id is `k`. */
  ghost function AnswerTo(m: AdbMessage, k: nat): seq<Saying> {
    if m.command == Ascii("OPEN") then
      if m.data == Ascii("host:version") then [Saying("OKAY", k, m.arg0, ""), Saying("WRTE", k, m.arg0, "00040024")]
      else if m.data == Ascii("host:devices") then
        [Saying("OKAY", k, m.arg0, ""), Saying("WRTE", k, m.arg0, "LITEDROID001\tdevice")]
      else if m.data == Ascii("host:kill") then [Saying("CLSE", k, m.arg0, "")]
      else [Saying("OKAY", k, m.arg0, "")]
    else if m.command == Ascii("CNXN") then [BANNER]
    else []
  }

  lemma Commands()
    ensures CMD_CNXN == Ascii("CNXN") && CMD_OPEN == Ascii("OPEN") && CMD_OKAY == Ascii("OKAY")
    ensures CMD_CLSE == Ascii("CLSE") && CMD_WRTE == Ascii("WRTE") && Ascii("") == []
  {
  }

  lemma Services()
    ensures HOST_VERSION == Ascii("host:version") && HOST_DEVICES == Ascii("host:devices")
    ensures HOST_KILL == Ascii("host:kill")
  {
  }

  lemma Texts()
    ensures IDENTITY == Ascii("device::litedroid") && VERSION_REPLY == Ascii("00040024")
    ensures DEVICES_REPLY == Ascii("LITEDROID001\tdevice")
  {
  }

  lemma RepliesAnswer(m: AdbMessage, k: nat)
    ensures AllSay(Replies(m, k), AnswerTo(m, k))
  {
    Commands();
    Services();
    Texts();
    hide Ascii, Sum;
    EmptySum();
  }

  lemma EmptySum()
    ensures Checksum([]) == 0
  {
  }

  lemma BannerSays()
    ensures Says(Banner(), BANNER)
  {
    Commands();
    Services();
    Texts();
    hide Ascii, Sum;
  }

  /** The number of OPEN messages among the first `i`. */
  ghost function OpensBefore(ms: seq<AdbMessage>, i: nat): nat
    requires i <= |ms|
  {
    if i == 0 then 0 else OpensBefore(ms, i - 1) + if ms[i - 1].command == Ascii("OPEN") then 1 else 0
  }

  /** The place of the answer to message `i` among everything sent: after the banner and the answers before it. */
  ghost function Place(ms: seq<AdbMessage>, i: nat): nat
    requires i <= |ms|
  {
    if i == 0 then 1 else Place(ms, i - 1) + |AnswerTo(ms[i - 1], 0)|
  }

  lemma AnswerSize(m: AdbMessage, k: nat)
    ensures |AnswerTo(m, k)| == |AnswerTo(m, 0)|
  {
    hide Ascii;
  }

  lemma {:induction false} OpensAre(ms: seq<AdbMessage>, i: nat)
    requires i <= |ms|
    ensures Opens(ms, i) == OpensBefore(ms, i)
  {
    Commands();
    hide Ascii;
    if i > 0 { OpensAre(ms, i - 1); }
  }

  // One more message adds its replies.
  lemma TranscriptSnoc(ms: seq<AdbMessage>, i: nat)
    requires i < |ms|
    ensures Transcript(ms[..i + 1], 1) == Transcript(ms[..i], 1) + Replies(ms[i], (1 + Opens(ms, i)) % U32)
  {
    hide *;
    OneFits();
    var front, id := ms[..i + 1], (1 + Opens(ms, i)) % U32;
    assert front[..i] == ms[..i] && front[i..] == [ms[i]] && [ms[i]][1..] == [];
    OpensPrefix(ms, i + 1, i);
    TranscriptSplit(front, 1, i);
    TranscriptHead([ms[i]], id);
    TranscriptNone(NextId(ms[i], id));
  }

  lemma OneFits()
    ensures 1 < U32
  {
  }

  lemma {:induction false} OpensPrefix(ms: seq<AdbMessage>, n: nat, i: nat)
    requires i <= n <= |ms|
    ensures Opens(ms[..n], i) == Opens(ms, i)
    decreases i
  {
    if i > 0 { OpensPrefix(ms, n, i - 1); }
  }

  lemma {:induction false} PlaceIs(ms: seq<AdbMessage>, i: nat)
    requires i <= |ms|
    ensures 1 + |Transcript(ms[..i], 1)| == Place(ms, i)
    decreases i
  {
    hide AnswerTo, Replies, Opens, Transcript, Says;
    if i == 0 {
      TranscriptNone(1);
      assert ms[..0] == [];
    } else {
      PlaceIs(ms, i - 1);
      TranscriptSnoc(ms, i - 1);
      var id := (1 + Opens(ms, i - 1)) % U32;
      RepliesAnswer(ms[i - 1], id);
      AnswerSize(ms[i - 1], id);
    }
  }

  /** Message `at` and those after it, as many as `ys`, say `ys`. */
  ghost predicate SayFrom(seen: seq<AdbMessage>, at: nat, ys: seq<Saying>) {
    at + |ys| <= |seen| && AllSay(seen[at..at + |ys|], ys)
  }

  /**
   * What the peer decodes from everything sent: first the banner; then, for each message received, its answer at
   * its place, under the local id that counts the OPEN messages from 1 modulo 2^32; and nothing more.
   */
  lemma PeerSeesAnswers(input: seq<byte>, i: nat)
    ensures var (got, seen) := (Received(input), Received(Sent(input)));
      && |seen| == Place(got, |got|) && SayFrom(seen, 0, [BANNER])
      && (i < |got| ==>
            SayFrom(seen, Place(got, i), AnswerTo(got[i], (1 + OpensBefore(got, i)) % 0x1_0000_0000)))
  {
    hide *;
    var got := Received(input);
    var all := Transcript(got, 1);
    PeerDecodesTranscript(input);
    BannerFirst(all);
    PlaceIs(got, |got|);
    assert got[..|got|] == got;
    if i < |got| {
      PlaceIs(got, i);
      OpensAre(got, i);
      PrefixOfTranscript(got, i);
      AnswerAt(Transcript(got[..i], 1), got[i], OpensBefore(got, i), all);
    }
  }

  lemma BannerFirst(all: seq<AdbMessage>)
    ensures SayFrom([Banner()] + all, 0, [BANNER])
  {
    hide Banner, Says;
    BannerSays();
    assert ([Banner()] + all)[0..1] == [Banner()];
  }

  lemma PrefixOfTranscript(ms: seq<AdbMessage>, i: nat)
    requires i < |ms|
    ensures Transcript(ms[..i], 1) + Replies(ms[i], (1 + Opens(ms, i)) % U32) <= Transcript(ms, 1)
  {
    hide *;
    OneFits();
    var id := (1 + Opens(ms, i)) % U32;
    TranscriptSplit(ms, 1, i);
    TranscriptHead(ms[i..], id);
    var p, r, q := Transcript(ms[..i], 1), Replies(ms[i], id), Transcript(ms[i..][1..], NextId(ms[i], id));
    assert p + (r + q) == (p + r) + q;
  }

  lemma AnswerAt(before: seq<AdbMessage>, m: AdbMessage, opens: nat, all: seq<AdbMessage>)
    requires before + Replies(m, (1 + opens) % U32) <= all
    ensures SayFrom([Banner()] + all, 1 + |before|, AnswerTo(m, (1 + opens) % 0x1_0000_0000))
  {
    hide Replies, AnswerTo, Says, Banner;
    var k := (1 + opens) % U32;
    RepliesAnswer(m, k);
    var seen, n := [Banner()] + all, |Replies(m, k)|;
    forall j | 0 <= j < n ensures seen[1 + |before|..1 + |before| + n][j] == Replies(m, k)[j] {
      assert (before + Replies(m, k))[|before| + j] == all[|before| + j];
    }
  }

  /** The messages a client builds. */
  lemma ClientMessages(id: nat, max: nat, text: seq<byte>)
    requires |text| < U32
    ensures Open(id, text) == AdbMessage(Ascii("OPEN"), id, 0, |text|, Checksum(text), text)
    ensures Connect(text, max) == AdbMessage(Ascii("CNXN"), 0x0100_0000, max, |text|, Checksum(text), text)
  {
    Commands();
    hide Ascii, Sum;
  }

  /** The loop stops at a CLSE and at an OPEN of "host:kill", and at no other message. */
  lemma StopsIff(m: AdbMessage)
    ensures IsStop(m) <==> m.command == Ascii("CLSE") || (m.command == Ascii("OPEN") && m.data == Ascii("host:kill"))
  {
    Commands();
    Services();
    hide Ascii;
  }
}
