// The split virtqueue as a driver writes it, by sections 2.7.5, 2.7.6 and 5.2.6
// of VIRTIO 1.2, and what the device makes of it.
module VirtioLayout {
  import opened Bytes
  import opened Bits
  import opened Results
  import opened GuestRam
  import opened VirtioSpec
  import opened VirtioBatch

  /** One descriptor: address, length, flags, next. */
  datatype Descriptor = Descriptor(addr: nat, len: nat, flags: nat, next: nat)

  ghost predicate Fits(d: Descriptor) {
    d.addr < U64 && d.len < U32 && d.flags < U16 && d.next < U16
  }

  function DescriptorBytes(d: Descriptor): seq<byte> {
    ToLe(d.addr, 8) + ToLe(d.len, 4) + ToLe(d.flags, 2) + ToLe(d.next, 2)
  }

  /** A block request header: type, reserved, sector. */
  function HeaderBytes(kind: nat, reserved: nat, sector: nat): seq<byte> {
    ToLe(kind, 4) + ToLe(reserved, 4) + ToLe(sector, 8)
  }

  /** The available ring: flags, index, one head per slot. */
  function RingBytes(flags: nat, index: nat, heads: seq<nat>): seq<byte> {
    ToLe(flags, 2) + ToLe(index, 2) + HeadsBytes(heads)
  }

  function HeadsBytes(heads: seq<nat>): (b: seq<byte>)
    ensures |b| == 2 * |heads|
    decreases |heads|
  {
    if heads == [] then [] else HeadsBytes(heads[..|heads| - 1]) + ToLe(heads[|heads| - 1], 2)
  }

  lemma ReadPart(mem: seq<byte>, addr: nat, data: seq<byte>, at: nat, value: nat, n: nat)
    requires |mem| < MAX_REGION && Holds(mem, addr, data)
    requires at + n <= |data| && value < Pow256(n) && data[at..at + n] == ToLe(value, n)
    ensures ReadLe(mem, addr + at, n) == Ok(value)
  {
    var p, q := mem[addr + at..addr + at + n], data[at..at + n];
    forall k | 0 <= k < n ensures p[k] == q[k] {
      assert mem[addr..addr + |data|][at + k] == p[k];
    }
    assert p == q;
    LeOfToLe(value, n);
  }

  lemma ReadDescriptor(mem: seq<byte>, at: nat, d: Descriptor)
    requires |mem| < MAX_REGION && Fits(d) && Holds(mem, at, DescriptorBytes(d))
    ensures ReadLe(mem, at, 8) == Ok(d.addr) && ReadLe(mem, at + 8, 4) == Ok(d.len)
    ensures ReadLe(mem, at + 12, 2) == Ok(d.flags) && ReadLe(mem, at + 14, 2) == Ok(d.next)
  {
    hide ToLe, ReadLe, Holds;
    PowValues();
    var b := DescriptorBytes(d);
    ReadPart(mem, at, b, 0, d.addr, 8);
    ReadPart(mem, at, b, 8, d.len, 4);
    ReadPart(mem, at, b, 12, d.flags, 2);
    ReadPart(mem, at, b, 14, d.next, 2);
  }

  /** The flag tests of the device are tests of bit 0 and bit 1. */
  lemma FlagBits(flags: nat)
    ensures And(flags, DESC_NEXT) != 0 <==> flags % 2 == 1
    ensures And(flags, DESC_WRITE) != 0 <==> flags / 2 % 2 == 1
  {
    assert And(flags, 1) == (if flags % 2 == 1 then 1 else 0) by {
      if flags > 0 { assert And(flags / 2, 0) == 0; }
    }
    assert And(flags, 2) == (if flags / 2 % 2 == 1 then 2 else 0) by {
      if flags > 0 {
        assert And(flags, 2) == 2 * And(flags / 2, 1);
        if flags / 2 > 0 { assert And(flags / 2 / 2, 0) == 0; }
      }
    }
  }

  /** A driver's request: three linked descriptors and a header. */
  datatype DriverChain = DriverChain(header: Descriptor, kind: nat, reserved: nat, sector: nat,
                                     payload: Descriptor, status: Descriptor)

  /** The chain stands in the descriptor table of the queue at page `pfn`, its header where descriptor 0 points. */
  ghost predicate Placed(mem: seq<byte>, pfn: nat, head: nat, d: DriverChain) {
    && Fits(d.header) && Fits(d.payload) && Fits(d.status)
    && d.kind < U32 && d.reserved < U32 && d.sector < U64
    && Holds(mem, 4096 * pfn + 16 * head, DescriptorBytes(d.header))
    && Holds(mem, d.header.addr, HeaderBytes(d.kind, d.reserved, d.sector))
    && Holds(mem, 4096 * pfn + 16 * d.header.next, DescriptorBytes(d.payload))
    && Holds(mem, 4096 * pfn + 16 * d.payload.next, DescriptorBytes(d.status))
  }

  /** Linked, with a status byte, and with the payload pointing the way the request type needs. */
  ghost predicate Acceptable(num: nat, d: DriverChain) {
    && d.header.flags % 2 == 1 && d.payload.flags % 2 == 1
    && d.payload.next < num && d.status.addr != 0
    && (d.kind == 0 ==> d.payload.flags / 2 % 2 == 1)
    && (d.kind == 1 ==> d.payload.flags / 2 % 2 == 0)
  }

  /** What is wrong with a chain that is not acceptable: the first fault from its head to its direction. */
  ghost function Refusal(num: nat, d: DriverChain): Error {
    if d.header.flags % 2 == 0 then NoDataDescriptor
    else if d.payload.flags % 2 == 0 || num <= d.payload.next then InvalidStatusDescriptor
    else if d.status.addr == 0 then NullStatusAddress
    else if d.kind == 0 then ReadBufferNotWritable
    else WriteBufferNotReadable
  }

  function AsChain(d: DriverChain): Chain {
    Chain(d.header.addr, d.header.next, d.kind, d.sector,
          d.payload.addr, d.payload.len, d.payload.flags, d.payload.next, d.status.addr)
  }

  /** The device accepts a placed chain exactly when it is acceptable, and then reads back what the driver wrote. */
  lemma PlacedChainIsRead(mem: seq<byte>, pfn: nat, num: nat, head: nat, d: DriverChain)
    requires |mem| < MAX_REGION && Placed(mem, pfn, head, d)
    ensures Validate(mem, Queue(pfn), num, head).Ok? <==> Acceptable(num, d)
    ensures Acceptable(num, d) ==> Validate(mem, Queue(pfn), num, head) == Ok(AsChain(d))
    ensures !Acceptable(num, d) ==> Validate(mem, Queue(pfn), num, head) == Err(Refusal(num, d))
  {
    var queue := Queue(pfn);
    TableEntry(pfn, head);
    TableEntry(pfn, d.header.next);
    TableEntry(pfn, d.payload.next);
    hide And, ReadLe, Validate, Holds, DescriptorBytes, HeaderBytes, Desc, Fits, Add64, Queue;
    ReadDescriptor(mem, Desc(queue, head), d.header);
    ReadHeader(mem, d.header.addr, d.kind, d.reserved, d.sector);
    ReadDescriptor(mem, Desc(queue, d.header.next), d.payload);
    ReadDescriptor(mem, Desc(queue, d.payload.next), d.status);
    FlagBits(d.header.flags);
    FlagBits(d.payload.flags);
    ValidateReads(mem, queue, num, head, AsChain(d));
    if Validate(mem, queue, num, head).Ok? {
      ValidateReads(mem, queue, num, head, Validate(mem, queue, num, head).value);
    }
    RefusalIs(mem, queue, num, head, d);
  }

  lemma RefusalIs(mem: seq<byte>, queue: nat, num: nat, head: nat, d: DriverChain)
    requires ReadLe(mem, Desc(queue, head), 8) == Ok(d.header.addr)
    requires ReadLe(mem, Desc(queue, head) + 12, 2) == Ok(d.header.flags)
    requires ReadLe(mem, Desc(queue, head) + 14, 2) == Ok(d.header.next)
    requires ReadLe(mem, d.header.addr, 4) == Ok(d.kind) && ReadLe(mem, Add64(d.header.addr, 8), 8) == Ok(d.sector)
    requires var at := Desc(queue, d.header.next);
      && ReadLe(mem, at, 8) == Ok(d.payload.addr) && ReadLe(mem, at + 8, 4) == Ok(d.payload.len)
      && ReadLe(mem, at + 12, 2) == Ok(d.payload.flags) && ReadLe(mem, at + 14, 2) == Ok(d.payload.next)
    requires ReadLe(mem, Desc(queue, d.payload.next), 8) == Ok(d.status.addr)
    ensures !Acceptable(num, d) ==> Validate(mem, queue, num, head) == Err(Refusal(num, d))
  {
    FlagBits(d.header.flags);
    FlagBits(d.payload.flags);
    hide And, ReadLe, Desc, Add64;
  }

  lemma TableEntry(pfn: nat, i: nat)
    ensures Desc(Queue(pfn), i) == 4096 * pfn + 16 * i
  {
  }

  lemma ReadHeader(mem: seq<byte>, at: nat, kind: nat, reserved: nat, sector: nat)
    requires |mem| < MAX_REGION && Holds(mem, at, HeaderBytes(kind, reserved, sector))
    requires kind < U32 && sector < U64
    ensures ReadLe(mem, at, 4) == Ok(kind) && ReadLe(mem, Add64(at, 8), 8) == Ok(sector)
  {
    assert Add64(at, 8) == at + 8;
    hide ToLe, ReadLe, Holds, Add64;
    PowValues();
    var b := HeaderBytes(kind, reserved, sector);
    ReadPart(mem, at, b, 0, kind, 4);
    ReadPart(mem, at, b, 8, sector, 8);
  }

  lemma {:induction false} HeadsSlice(heads: seq<nat>, i: nat)
    requires i < |heads|
    ensures HeadsBytes(heads)[2 * i..2 * i + 2] == ToLe(heads[i], 2)
    decreases |heads|
  {
    hide ToLe;
    var n := |heads| - 1;
    if i < n {
      HeadsSlice(heads[..n], i);
      assert HeadsBytes(heads)[2 * i..2 * i + 2] == HeadsBytes(heads[..n])[2 * i..2 * i + 2];
    }
  }

  /** The device takes the head in the slot its own index names, and the index the driver published. */
  lemma PlacedRingIsRead(s: State, flags: nat, index: nat, heads: seq<nat>)
    requires |heads| == s.num > 0 && index < U16 && s.last < U16 && forall i :: 0 <= i < |heads| ==> heads[i] < U16
    requires |s.world.mem| < MAX_REGION && Holds(s.world.mem, 4096 * s.pfn, RingBytes(flags, index, heads))
    ensures AvailIndex(s) == Ok(index)
    ensures Head(s) == Ok(heads[s.last % s.num])
  {
    hide ToLe, ReadLe, Holds;
    PowValues();
    var b, slot := RingBytes(flags, index, heads), s.last % s.num;
    ReadPart(s.world.mem, AvailBase(Queue(s.pfn)), b, 2, index, 2);
    HeadsSlice(heads, slot);
    assert b[4 + 2 * slot..4 + 2 * slot + 2] == HeadsBytes(heads)[2 * slot..2 * slot + 2];
    ReadPart(s.world.mem, AvailBase(Queue(s.pfn)), b, 4 + 2 * slot, heads[slot], 2);
  }

  /**
   * Where the code puts the available ring: for every queue size it lies inside the descriptor table, its
   * index inside descriptor 0, although the used ring is placed as if it followed the table.
   */
  lemma AvailOverlapsTable(queue: nat, num: nat)
    requires queue < U32 * 4096 && 0 < num <= MAX_QUEUE
    ensures Desc(queue, 0) <= AvailBase(queue) + 2 && AvailBase(queue) + 4 <= Desc(queue, 1)
    ensures AvailBase(queue) + 4 + 2 * num <= Desc(queue, num)
    ensures Desc(queue, num) + 4 + 2 * num <= UsedBase(queue, num)
  {
    UsedBaseBounds(queue, num);
  }

  // ---- A batch the theorems apply to ----

  // A write of sector 3 and then a read of it, in a queue of four entries with both indices at 65535.
  const PUT := DriverChain(Descriptor(0x100, 16, 1, 5), 1, 0, 3,
                           Descriptor(0x200, 512, 1, 1), Descriptor(0x800, 1, 2, 0))
  const FETCH := DriverChain(Descriptor(0x120, 16, 1, 7), 0, 0, 3,
                             Descriptor(0x400, 512, 3, 2), Descriptor(0x801, 1, 2, 0))
  const HEADS: seq<nat> := [6, 0, 0, 4]

  ghost function ExampleMemory(): (m: seq<byte>)
    ensures |m| == 0x3000
  {
    var m0: seq<byte> := seq(0x3000, _ => 0);
    var m1 := Store(m0, 0x1000, RingBytes(0, 1, HEADS));
    var m2 := Store(m1, 0x1010, DescriptorBytes(PUT.status));
    var m3 := Store(m2, 0x1020, DescriptorBytes(FETCH.status));
    var m4 := Store(m3, 0x1040, DescriptorBytes(PUT.header));
    var m5 := Store(m4, 0x1050, DescriptorBytes(PUT.payload));
    var m6 := Store(m5, 0x1060, DescriptorBytes(FETCH.header));
    var m7 := Store(m6, 0x1070, DescriptorBytes(FETCH.payload));
    var m8 := Store(m7, 0x100, HeaderBytes(1, 0, 3));
    var m9 := Store(m8, 0x120, HeaderBytes(0, 0, 3));
    Store(m9, 0x2002, ToLe(0xffff, 2))
  }

  ghost function ExampleState(): State {
    State(World(ExampleMemory(), []), 4, 1, 0, 0xffff)
  }

  // What a store put in place is still there if later stores kept off it.
  lemma Kept(m: seq<byte>, m': seq<byte>, addr: nat, data: seq<byte>)
    requires addr + |data| <= |m| == |m'|
    requires forall a: nat :: addr <= a < addr + |data| ==> m'[a] == Store(m, addr, data)[a]
    ensures Holds(m', addr, data)
  {
    assert m'[addr..addr + |data|] == data;
  }

  lemma ExampleHolds()
    ensures var m := ExampleMemory();
      && Holds(m, 0x1000, RingBytes(0, 1, HEADS)) && Placed(m, 1, 4, PUT) && Placed(m, 1, 6, FETCH)
      && LeAt(m, 0x2002, 2) == 0xffff
  {
    hide ToLe, Le;
    var m := ExampleMemory();
    var m0: seq<byte> := seq(0x3000, _ => 0);
    var ring := RingBytes(0, 1, HEADS);
    assert |ring| == 12;
    var m1 := Store(m0, 0x1000, ring);
    var m2 := Store(m1, 0x1010, DescriptorBytes(PUT.status));
    var m3 := Store(m2, 0x1020, DescriptorBytes(FETCH.status));
    var m4 := Store(m3, 0x1040, DescriptorBytes(PUT.header));
    var m5 := Store(m4, 0x1050, DescriptorBytes(PUT.payload));
    var m6 := Store(m5, 0x1060, DescriptorBytes(FETCH.header));
    var m7 := Store(m6, 0x1070, DescriptorBytes(FETCH.payload));
    var m8 := Store(m7, 0x100, HeaderBytes(1, 0, 3));
    Kept(m0, m, 0x1000, ring);
    Kept(m1, m, 0x1010, DescriptorBytes(PUT.status));
    Kept(m2, m, 0x1020, DescriptorBytes(FETCH.status));
    Kept(m3, m, 0x1040, DescriptorBytes(PUT.header));
    Kept(m4, m, 0x1050, DescriptorBytes(PUT.payload));
    Kept(m5, m, 0x1060, DescriptorBytes(FETCH.header));
    Kept(m6, m, 0x1070, DescriptorBytes(FETCH.payload));
    Kept(m7, m, 0x100, HeaderBytes(1, 0, 3));
    Kept(m8, m, 0x120, HeaderBytes(0, 0, 3));
    assert m[0x2002..0x2004] == ToLe(0xffff, 2);
    PowValues();
    LeOfToLe(0xffff, 2);
  }
}
