// The raw disk image behind the block device (crates/storage).
module Disk {
  import opened Bytes
  import opened Results

  /** `pread`/`pwrite` take a signed 64-bit offset and refuse a range that leaves it. */
  const MAX_OFFSET: nat := 0x7fff_ffff_ffff_ffff
  const SECTOR_SIZE: nat := 512

  predicate HostAccepts(offset: nat, len: nat) {
    offset + len <= MAX_OFFSET
  }

  /** The bytes a read of `len` returns: short at, and empty past, the end of the file. */
  function DiskRead(disk: seq<byte>, offset: nat, len: nat): seq<byte> {
    if |disk| <= offset then []
    else if |disk| <= offset + len then disk[offset..]
    else disk[offset..offset + len]
  }

  /** The file after a write: overwritten in place, zero-filled up to a start past the end. */
  function DiskWrite(disk: seq<byte>, offset: nat, data: seq<byte>): seq<byte> {
    if |data| == 0 then disk
    else
      var size := if |disk| < offset + |data| then offset + |data| else |disk|;
      Store(disk + seq(size - |disk|, _ => 0), offset, data)
  }

  /** The byte at an offset, reading as zero past the end of the file. */
  function DiskByte(disk: seq<byte>, d: nat): byte {
    if d < |disk| then disk[d] else 0
  }

  /** A read returns as many of the bytes asked for as the file has, each from its own offset. */
  lemma ReadBytes(disk: seq<byte>, offset: nat, len: nat, k: nat)
    ensures var got := DiskRead(disk, offset, len);
      && |got| <= len && (k < |got| <==> k < len && offset + k < |disk|)
      && (k < |got| ==> got[k] == disk[offset + k])
  {
  }

  /** A write sets each byte of its range, keeps every other, and grows the file just to the end of its range. */
  lemma WriteBytes(disk: seq<byte>, offset: nat, data: seq<byte>, d: nat)
    ensures var after := DiskWrite(disk, offset, data);
      && DiskByte(after, d) == (if offset <= d < offset + |data| then data[d - offset] else DiskByte(disk, d))
      && |after| == (if data != [] && |disk| < offset + |data| then offset + |data| else |disk|)
  {
  }

  lemma WriteThenRead(disk: seq<byte>, offset: nat, data: seq<byte>)
    ensures DiskRead(DiskWrite(disk, offset, data), offset, |data|) == data
  {
  }

  lemma WriteElsewhere(disk: seq<byte>, offset: nat, data: seq<byte>, other: nat, len: nat)
    requires other + len <= offset || offset + |data| <= other
    requires other + len <= |disk|
    ensures DiskRead(DiskWrite(disk, offset, data), other, len) == DiskRead(disk, other, len)
  {
  }

  /** `size` is taken when the image is opened and never updated. */
  class RawDiskImage {
    var contents: seq<byte>
    const size: nat

    constructor (contents: seq<byte>)
      ensures this.contents == contents && size == |contents|
    {
      this.contents := contents;
      size := |contents|;
    }

    method Read(offset: nat, buf: array<byte>) returns (r: Result<nat>)
      modifies buf
      ensures r == if HostAccepts(offset, buf.Length) then Ok(|DiskRead(contents, offset, buf.Length)|) else Err(HostIo)
      ensures r.Ok? ==> r.value <= buf.Length && buf[..r.value] == DiskRead(contents, offset, buf.Length)
    {
      if offset + buf.Length > MAX_OFFSET {
        return Err(HostIo);
      }
      var got := DiskRead(contents, offset, buf.Length);
      forall i | 0 <= i < |got| {
        buf[i] := got[i];
      }
      return Ok(|got|);
    }

    method Write(offset: nat, data: seq<byte>) returns (r: Result<nat>)
      modifies this
      ensures r == if HostAccepts(offset, |data|) then Ok(|data|) else Err(HostIo)
      ensures contents == if r.Ok? then DiskWrite(old(contents), offset, data) else old(contents)
    {
      if offset + |data| > MAX_OFFSET {
        return Err(HostIo);
      }
      contents := DiskWrite(contents, offset, data);
      return Ok(|data|);
    }
  }
}
