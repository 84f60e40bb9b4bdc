// ADB messages on the wire (crates/adb): a 24-byte header and a payload.
module Adb {
  import opened Bytes
  import opened Bits
  import opened Results

  const HEADER_SIZE: nat := 24
  const ADB_VERSION: nat := 0x0100_0000
  const CMD_CNXN: seq<byte> := [0x43, 0x4e, 0x58, 0x4e]
  const CMD_OPEN: seq<byte> := [0x4f, 0x50, 0x45, 0x4e]
  const CMD_OKAY: seq<byte> := [0x4f, 0x4b, 0x41, 0x59]
  const CMD_CLSE: seq<byte> := [0x43, 0x4c, 0x53, 0x45]
  const CMD_WRTE: seq<byte> := [0x57, 0x52, 0x54, 0x45]

  datatype AdbMessage = AdbMessage(command: seq<byte>, arg0: nat, arg1: nat, length: nat, check: nat, data: seq<byte>)

  function Sum(data: seq<byte>): nat {
    if |data| == 0 then 0 else Sum(data[..|data| - 1]) + data[|data| - 1]
  }

  /** The wrapping 32-bit sum of all bytes. */
  function Checksum(data: seq<byte>): nat {
    Sum(data) % U32
  }

  // ---- Constructors ----

  function Carrying(command: seq<byte>, arg0: nat, arg1: nat, data: seq<byte>): AdbMessage {
    AdbMessage(command, arg0, arg1, |data| % U32, Checksum(data), data)
  }

  function Connect(identity: seq<byte>, maxPayload: nat): AdbMessage {
    Carrying(CMD_CNXN, ADB_VERSION, maxPayload, identity)
  }

  function Open(localId: nat, dest: seq<byte>): AdbMessage {
    Carrying(CMD_OPEN, localId, 0, dest)
  }

  function Okay(localId: nat, remoteId: nat): AdbMessage {
    AdbMessage(CMD_OKAY, localId, remoteId, 0, 0, [])
  }

  function Close(localId: nat, remoteId: nat): AdbMessage {
    AdbMessage(CMD_CLSE, localId, remoteId, 0, 0, [])
  }

  function WriteMsg(localId: nat, remoteId: nat, payload: seq<byte>): AdbMessage {
    Carrying(CMD_WRTE, localId, remoteId, payload)
  }

  /** Fields of their wire widths, with the length and checksum of the payload they announce. */
  ghost predicate WellFormed(m: AdbMessage) {
    && |m.command| == 4 && m.arg0 < U32 && m.arg1 < U32
    && m.length == |m.data| < U32 && m.check == Checksum(m.data)
  }

  /** The checksum adds bytes modulo 2^32. */
  lemma ChecksumAdds(a: seq<byte>, b: seq<byte>)
    ensures Checksum(a + b) == (Checksum(a) + Checksum(b)) % 0x1_0000_0000
  {
    hide Sum;
    SumAdds(a, b);
    ModSum(Sum(a), Sum(b));
  }

  lemma ModSum(x: nat, y: nat)
    ensures (x + y) % U32 == (x % U32 + y % U32) % U32
  {
  }

  lemma ChecksumOfByte(b: byte)
    ensures Checksum([]) == 0 && Checksum([b]) == b
  {
    assert [b][..0] == [];
  }

  lemma {:induction false} SumAdds(a: seq<byte>, b: seq<byte>)
    ensures Sum(a + b) == Sum(a) + Sum(b)
    decreases |b|
  {
    if b == [] {
      assert a + b == a;
    } else {
      var n := |b| - 1;
      assert (a + b)[..|a| + n] == a + b[..n];
      SumAdds(a, b[..n]);
    }
  }

  // ---- Encoding and decoding ----

  function Magic(command: seq<byte>): nat {
    Xor(Le(command), 0xffff_ffff)
  }

  function Header(m: AdbMessage): seq<byte> {
    m.command + ToLe(m.arg0, 4) + ToLe(m.arg1, 4) + ToLe(m.length, 4) + ToLe(m.check, 4) + ToLe(Magic(m.command), 4)
  }

  function Encode(m: AdbMessage): seq<byte> {
    Header(m) + m.data
  }

  function Decode(b: seq<byte>): Result<AdbMessage> {
    if |b| < HEADER_SIZE then Err(MessageTooShort) else
    var command := b[0..4];
    var length := LeAt(b, 12, 4);
    var check := LeAt(b, 16, 4);
    if LeAt(b, 20, 4) != Magic(command) then Err(InvalidMagic)
    else if |b| < HEADER_SIZE + length then Err(IncompletePayload)
    else
      var payload := b[HEADER_SIZE..HEADER_SIZE + length];
      if Checksum(payload) != check then Err(ChecksumMismatch)
      else Ok(AdbMessage(command, LeAt(b, 4, 4), LeAt(b, 8, 4), length, check, payload))
  }

  // ---- Proofs ----

  lemma MagicIs(command: seq<byte>)
    requires |command| == 4
    ensures Magic(command) == U32 - 1 - Le(command) && Le(command) < U32
  {
    LeBound(command);
    PowValues();
    Pow2Values();
    XorOnes(Le(command), 32);
  }

  /** Every constructor yields a well-formed message from a payload shorter than 2^32 bytes. */
  lemma ConstructorsWellFormed(a: nat, b: nat, data: seq<byte>)
    requires a < U32 && b < U32 && |data| < U32
    ensures WellFormed(Connect(data, a)) && WellFormed(Open(a, data)) && WellFormed(WriteMsg(a, b, data))
    ensures WellFormed(Okay(a, b)) && WellFormed(Close(a, b))
  {
  }

  /** Where each field of an encoding sits: five little-endian words after the command, and then the payload. */
  lemma EncodingFields(m: AdbMessage)
    requires |m.command| == 4
    ensures var e := Encode(m);
      && |Header(m)| == 24 && |e| == 24 + |m.data|
      && e[0..4] == m.command && e[4..8] == ToLe(m.arg0, 4) && e[8..12] == ToLe(m.arg1, 4)
      && e[12..16] == ToLe(m.length, 4) && e[16..20] == ToLe(m.check, 4)
      && e[20..24] == ToLe(Magic(m.command), 4) && e[24..] == m.data
  {
    hide ToLe, Magic;
  }

  /** Decoding an encoding returns the message, whatever bytes follow it. */
  lemma DecodeOfEncode(m: AdbMessage, rest: seq<byte>)
    requires WellFormed(m)
    ensures Decode(Encode(m) + rest) == Ok(m)
  {
    hide Magic, Encode, Sum, Le, ToLe;
    EncodingFields(m);
    MagicIs(m.command);
    PowValues();
    var e := Encode(m);
    var b := e + rest;
    assert b[0..4] == e[0..4] && b[4..8] == e[4..8] && b[8..12] == e[8..12] && b[12..16] == e[12..16];
    assert b[16..20] == e[16..20] && b[20..24] == e[20..24] && b[24..24 + |m.data|] == e[24..];
    LeOfToLe(m.arg0, 4);
    LeOfToLe(m.arg1, 4);
    LeOfToLe(m.length, 4);
    LeOfToLe(m.check, 4);
    LeOfToLe(Magic(m.command), 4);
  }

  /** What decodes is well formed, and its encoding is the bytes that were consumed. */
  lemma EncodeOfDecode(b: seq<byte>)
    requires Decode(b).Ok?
    ensures var m := Decode(b).value;
      WellFormed(m) && HEADER_SIZE + |m.data| <= |b| && Encode(m) == b[..HEADER_SIZE + |m.data|]
  {
    hide Magic, Encode, Checksum, Le, ToLe;
    var m := Decode(b).value;
    LeAtBound(b, 4, 4);
    LeAtBound(b, 8, 4);
    LeAtBound(b, 12, 4);
    LeAtBound(b, 16, 4);
    ToLeOfLe(b[4..8]);
    ToLeOfLe(b[8..12]);
    ToLeOfLe(b[12..16]);
    ToLeOfLe(b[16..20]);
    ToLeOfLe(b[20..24]);
    EncodingFields(m);
    var e, p := Encode(m), b[..HEADER_SIZE + |m.data|];
    assert e[0..4] + e[4..8] + e[8..12] + e[12..16] + e[16..20] + e[20..24] + e[24..] == e;
    assert p[0..4] + p[4..8] + p[8..12] + p[12..16] + p[16..20] + p[20..24] + p[24..] == p;
    assert p[0..4] == b[0..4] && p[4..8] == b[4..8] && p[8..12] == b[8..12] && p[12..16] == b[12..16];
    assert p[16..20] == b[16..20] && p[20..24] == b[20..24] && p[24..] == b[24..24 + |m.data|];
  }

  /** Why bytes do not decode: the first check of length, magic, completeness and checksum that fails. */
  lemma DecodeRefuses(b: seq<byte>)
    ensures |b| < 24 ==> Decode(b) == Err(MessageTooShort)
    ensures |b| >= 24 ==>
      var (length, payload) := (Le(b[12..16]), b[24..]);
      if Le(b[20..24]) + Le(b[0..4]) != 0xffff_ffff then Decode(b) == Err(InvalidMagic)
      else if |payload| < length then Decode(b) == Err(IncompletePayload)
      else if Checksum(payload[..length]) != Le(b[16..20]) then Decode(b) == Err(ChecksumMismatch)
      else Decode(b) == Ok(AdbMessage(b[0..4], Le(b[4..8]), Le(b[8..12]), length, Le(b[16..20]), payload[..length]))
  {
    hide Magic, Checksum, Le;
    if |b| >= 24 {
      MagicIs(b[0..4]);
      var length := LeAt(b, 12, 4);
      if length <= |b| - 24 { assert b[24..24 + length] == b[24..][..length]; }
    }
  }

  // ---- Detection of a damaged byte ----

  lemma {:induction false} SumChange(data: seq<byte>, k: nat, x: byte)
    requires k < |data|
    ensures Sum(data[k := x]) == Sum(data) - data[k] + x
    decreases |data|
  {
    var n := |data| - 1;
    if k < n {
      SumChange(data[..n], k, x);
      assert data[k := x][..n] == data[..n][k := x];
    } else {
      assert data[k := x][..n] == data[..n];
    }
  }

  lemma LeChange(b: seq<byte>, k: nat, x: byte)
    requires k < |b| && x != b[k]
    ensures Le(b[k := x]) != Le(b)
  {
    assert b[k := x] != b;
    if Le(b[k := x]) == Le(b) {
      LeInjective(b[k := x], b);
    }
  }

  lemma ChecksumChange(data: seq<byte>, k: nat, x: byte)
    requires k < |data| && x != data[k]
    ensures Checksum(data[k := x]) != Checksum(data)
  {
    hide Sum;
    SumChange(data, k, x);
  }

  /** The announced length after the damage, which the decoder believes. */
  function NewLength(m: AdbMessage, p: nat, x: byte): nat
    requires 12 <= p < 16
  {
    Le(ToLe(m.length, 4)[p - 12 := x])
  }

  /**
   * One damaged byte of an encoding goes unnoticed exactly when it lies in the two arguments, or when it
   * shortens the announced length to a prefix of the payload with the same checksum. Damage to the
   * command, the checksum, the magic or the payload is always detected.
   */
  lemma DamageUnnoticedIff(m: AdbMessage, p: nat, x: byte)
    requires WellFormed(m) && p < |Encode(m)| && x != Encode(m)[p]
    ensures Decode(Encode(m)[p := x]).Ok? <==>
      4 <= p < 12
      || (12 <= p < 16 && NewLength(m, p, x) < |m.data|
          && Checksum(m.data[..NewLength(m, p, x)]) == Checksum(m.data))
  {
    hide Magic, Encode, Checksum, Le, ToLe;
    EncodingFields(m);
    var e := Encode(m);
    var b := e[p := x];
    DamagedFields(e, p, x);
    FieldValues(m);
    if p < 4 {
      LeChange(m.command, p, x);
      MagicIs(m.command);
      MagicIs(b[0..4]);
    } else if 12 <= p < 16 {
      LeChange(e[12..16], p - 12, x);
      if NewLength(m, p, x) < |m.data| {
        assert b[24..24 + NewLength(m, p, x)] == m.data[..NewLength(m, p, x)];
      }
    } else if 16 <= p < 20 {
      LeChange(e[16..20], p - 16, x);
      assert b[24..24 + |m.data|] == m.data;
    } else if 20 <= p < 24 {
      LeChange(e[20..24], p - 20, x);
    } else if p >= 24 {
      ChecksumChange(m.data, p - 24, x);
      assert b[24..24 + |m.data|] == m.data[p - 24 := x];
    } else {
      assert b[24..24 + |m.data|] == m.data;
    }
  }

  // The damaged byte changes one field and leaves the others.
  lemma DamagedFields(e: seq<byte>, p: nat, x: byte)
    requires HEADER_SIZE <= |e| && p < |e|
    ensures var b := e[p := x];
      && b[0..4] == (if p < 4 then e[0..4][p := x] else e[0..4])
      && b[12..16] == (if 12 <= p < 16 then e[12..16][p - 12 := x] else e[12..16])
      && b[16..20] == (if 16 <= p < 20 then e[16..20][p - 16 := x] else e[16..20])
      && b[20..24] == (if 20 <= p < 24 then e[20..24][p - 20 := x] else e[20..24])
  {
  }

  lemma FieldValues(m: AdbMessage)
    requires WellFormed(m)
    ensures var e := Encode(m);
      && |e| == HEADER_SIZE + |m.data|
      && Le(e[12..16]) == |m.data| && Le(e[16..20]) == Checksum(m.data) && Le(e[20..24]) == Magic(m.command)
  {
    hide Magic, Encode, Sum, Le, ToLe;
    EncodingFields(m);
    MagicIs(m.command);
    PowValues();
    LeOfToLe(m.length, 4);
    LeOfToLe(m.check, 4);
    LeOfToLe(Magic(m.command), 4);
  }
}
