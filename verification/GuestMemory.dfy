// Guest physical memory: one bounds-checked byte region (crates/memory).
module GuestRam {
  import opened Bytes
  import opened Results

  const MAX_REGION: nat := 0x8000_0000_0000_0000

  /** The access guard of `read_guest` and `write_guest`: the end neither overflows nor leaves the region. */
  predicate InRange(mem: seq<byte>, addr: nat, n: nat) {
    addr + n < U64 && addr + n <= |mem|
  }

  function ReadLe(mem: seq<byte>, addr: nat, n: nat): Result<nat> {
    if InRange(mem, addr, n) then Ok(LeAt(mem, addr, n)) else Err(GuestAddressOutOfRange(addr))
  }

  lemma ReadLeBound(mem: seq<byte>, addr: nat, n: nat)
    requires ReadLe(mem, addr, n).Ok?
    ensures var v := ReadLe(mem, addr, n).value;
      (n == 2 ==> v < U16) && (n == 4 ==> v < U32) && (n == 8 ==> v < U64)
  {
    LeAtBound(mem, addr, n);
  }

  function WriteMem(mem: seq<byte>, addr: nat, data: seq<byte>): (seq<byte>, Result<Unit>) {
    if InRange(mem, addr, |data|) then (Store(mem, addr, data), Ok(Unit))
    else (mem, Err(GuestAddressOutOfRange(addr)))
  }

  /** Reading back `|data|` bytes at `addr` gives `data`. */
  ghost predicate Holds(mem: seq<byte>, addr: nat, data: seq<byte>) {
    addr + |data| <= |mem| && mem[addr..addr + |data|] == data
  }

  class GuestMemory {
    const bytes: array<byte>

    ghost predicate Valid()
      reads this
    {
      0 < bytes.Length < MAX_REGION
    }

    ghost function Contents(): seq<byte>
      reads this, bytes
    {
      bytes[..]
    }

    /** A fresh anonymous mapping: zero-filled, of the requested size. */
    constructor (size: nat)
      requires 0 < size < MAX_REGION
      ensures Valid() && fresh(bytes)
      ensures Contents() == seq(size, _ => 0)
    {
      bytes := new byte[size](_ => 0);
    }

    /** `new`: `maps` says whether the host grants the mapping, which it never does for a size it cannot address. */
    static method Create(size: nat, maps: bool) returns (r: Result<GuestMemory>)
      requires maps ==> size < MAX_REGION
      ensures size == 0 ==> r == Err(MemoryAllocationFailed)
      ensures size > 0 && !maps ==> r == Err(MemoryMapFailed)
      ensures r.Ok? <==> size > 0 && maps
      ensures r.Ok? ==> fresh(r.value) && r.value.Valid() && fresh(r.value.bytes)
      ensures r.Ok? ==> r.value.Contents() == seq(size, _ => 0)
    {
      if size == 0 {
        return Err(MemoryAllocationFailed);
      }
      if !maps {
        return Err(MemoryMapFailed);
      }
      var memory := new GuestMemory(size);
      return Ok(memory);
    }

    method ReadGuest(addr: nat, buf: array<byte>) returns (r: Result<Unit>)
      requires Valid() && addr < U64 && buf != bytes && buf.Length < U64
      modifies buf
      ensures r == if InRange(Contents(), addr, buf.Length) then Ok(Unit) else Err(GuestAddressOutOfRange(addr))
      ensures r.Ok? ==> buf[..] == Contents()[addr..addr + buf.Length]
      ensures r.Err? ==> buf[..] == old(buf[..])
    {
      if addr + buf.Length >= U64 {
        return Err(GuestAddressOutOfRange(addr));
      }
      if addr + buf.Length > bytes.Length {
        return Err(GuestAddressOutOfRange(addr));
      }
      forall i | 0 <= i < buf.Length {
        buf[i] := bytes[addr + i];
      }
      return Ok(Unit);
    }

    method WriteGuest(addr: nat, data: seq<byte>) returns (r: Result<Unit>)
      requires Valid() && addr < U64 && |data| < U64
      modifies bytes
      ensures (Contents(), r) == WriteMem(old(Contents()), addr, data)
    {
      if addr + |data| >= U64 {
        return Err(GuestAddressOutOfRange(addr));
      }
      if addr + |data| > bytes.Length {
        return Err(GuestAddressOutOfRange(addr));
      }
      forall i | 0 <= i < |data| {
        bytes[addr + i] := data[i];
      }
      assert Contents() == Store(old(Contents()), addr, data);
      return Ok(Unit);
    }

    /** `guest_u16`, `guest_u32` and `guest_u64` at widths 2, 4 and 8. */
    method ReadInt(addr: nat, width: nat) returns (r: Result<nat>)
      requires Valid() && addr < U64 && width <= 8
      ensures r == ReadLe(Contents(), addr, width)
    {
      var buf := new byte[width];
      var got := ReadGuest(addr, buf);
      match got
      case Ok(_) => r := Ok(Le(buf[..]));
      case Err(e) => r := Err(e);
    }
  }
}
