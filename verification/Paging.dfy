// 4-level address translation, written from section 4.5 of the Intel SDM
// volume 3A and independent of the code that builds the tables.
module Paging {
  import opened Bytes
  import opened GuestRam

  const PAGE_2M: nat := 0x20_0000
  const PAGE_1G: nat := 0x4000_0000
  const SPAN_512G: nat := 0x80_0000_0000
  const SPAN_48: nat := 0x1_0000_0000_0000

  datatype Translation = Fault | Mapped(physical: nat, writable: bool, user: bool)

  predicate Present(e: nat) { e % 2 == 1 }
  predicate Writable(e: nat) { e / 2 % 2 == 1 }
  predicate User(e: nat) { e / 4 % 2 == 1 }
  predicate PageSize(e: nat) { e / 0x80 % 2 == 1 }
  /** Bit 63 is reserved while EFER.NXE is clear, as it is at boot. */
  predicate NoExecute(e: nat) { e / 0x8000_0000_0000_0000 % 2 == 1 }
  /** Bits 51:12, the physical address of the next table or 4 KiB page. */
  function Frame(e: nat): nat { e / 0x1000 % 0x100_0000_0000 * 0x1000 }

  /** The entry of the table at `table` with the given index; memory that is not there reads as not present. */
  function EntryAt(mem: seq<byte>, table: nat, index: nat): nat {
    if InRange(mem, table + 8 * index, 8) then LeAt(mem, table + 8 * index, 8) else 0
  }

  /** The translation of the 48-bit linear address `v` under the top-level table at `cr3`. */
  function Walk(mem: seq<byte>, cr3: nat, v: nat): Translation {
    var e4 := EntryAt(mem, cr3, v / SPAN_512G % 512);
    if !Present(e4) || NoExecute(e4) || PageSize(e4) then Fault else
    var e3 := EntryAt(mem, Frame(e4), v / PAGE_1G % 512);
    if !Present(e3) || NoExecute(e3) then Fault else
    var w3, u3 := Writable(e4) && Writable(e3), User(e4) && User(e3);
    if PageSize(e3) then
      if e3 / 0x2000 % 0x2_0000 != 0 then Fault
      else Mapped(e3 / PAGE_1G % 0x40_0000 * PAGE_1G + v % PAGE_1G, w3, u3)
    else
    var e2 := EntryAt(mem, Frame(e3), v / PAGE_2M % 512);
    if !Present(e2) || NoExecute(e2) then Fault else
    var w2, u2 := w3 && Writable(e2), u3 && User(e2);
    if PageSize(e2) then
      if e2 / 0x2000 % 0x100 != 0 then Fault
      else Mapped(e2 / PAGE_2M % 0x8000_0000 * PAGE_2M + v % PAGE_2M, w2, u2)
    else
    var e1 := EntryAt(mem, Frame(e2), v / 0x1000 % 512);
    if !Present(e1) || NoExecute(e1) then Fault
    else Mapped(Frame(e1) + v % 0x1000, w2 && Writable(e1), u2 && User(e1))
  }
}
