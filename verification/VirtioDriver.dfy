// The batch theorems in the driver's terms: literal addresses, sector numbers and bytes of
// sections 2.7 and 5.2.6 of VIRTIO 1.2, with the available ring where the code reads it.
module VirtioDriver {
  import opened Bytes
  import opened Results
  import opened GuestRam
  import opened Disk
  import opened VirtioSpec
  import opened VirtioFrame
  import opened VirtioQueue
  import opened VirtioRun
  import opened VirtioBatch
  import opened VirtioRunBatch
  import opened VirtioLayout

  /** A chain and the table index of its first descriptor. */
  datatype Queued = Queued(head: nat, chain: DriverChain)

  // ---- What the driver sets up ----

  /** The least page boundary at or past the table, the available ring and its four fixed bytes. */
  ghost predicate UsedRingAt(used: nat, pfn: nat, num: nat) {
    used % 4096 == 0 && 4096 * pfn + 18 * num + 4 <= used < 4096 * pfn + 18 * num + 4 + 4096
  }

  /** The bytes of a chain that the device may write. */
  ghost predicate Offered(d: DriverChain, a: nat) {
    (d.kind == 0 && d.payload.addr <= a < d.payload.addr + d.payload.len) || a == d.status.addr
  }

  /** The bytes the device reads for a chain: three descriptors, the header and outgoing data. */
  ghost predicate Needed(pfn: nat, q: Queued, a: nat) {
    var d := q.chain;
    || 4096 * pfn + 16 * q.head <= a < 4096 * pfn + 16 * q.head + 16
    || d.header.addr <= a < d.header.addr + 16
    || 4096 * pfn + 16 * d.header.next <= a < 4096 * pfn + 16 * d.header.next + 16
    || 4096 * pfn + 16 * d.payload.next <= a < 4096 * pfn + 16 * d.payload.next + 8
    || (d.kind == 1 && d.payload.addr <= a < d.payload.addr + d.payload.len)
  }

  /** Ranges that exist: the sectors below 2^63 bytes, the buffers in guest memory, the status byte outside them. */
  ghost predicate InReach(mem: seq<byte>, d: DriverChain) {
    && (d.kind <= 1 ==>
          512 * d.sector + d.payload.len <= 0x7fff_ffff_ffff_ffff && d.payload.addr + d.payload.len <= |mem|)
    && d.status.addr < |mem|
    && (d.kind == 0 ==> !(d.payload.addr <= d.status.addr < d.payload.addr + d.payload.len))
  }

  ghost predicate OffRing(pfn: nat, num: nat, used: nat, q: Queued) {
    && (forall a: nat :: Offered(q.chain, a) ==>
          !(used <= a < used + 4 + 8 * num) && !(4096 * pfn + 4 <= a < 4096 * pfn + 4 + 2 * num))
    && (forall a: nat :: Needed(pfn, q, a) ==> !(used <= a < used + 4 + 8 * num))
  }

  ghost predicate OffEachOther(pfn: nat, q: Queued, later: Queued) {
    forall a: nat :: Offered(q.chain, a) ==> !Offered(later.chain, a) && !Needed(pfn, later, a)
  }

  /** Chain `q` is well formed and its head is entry `i` after the device's own index. */
  ghost predicate QueuedAt(s: State, used: nat, q: Queued, i: nat)
    requires 0 < s.num
  {
    && q.head < 65536 && Holds(s.world.mem, 4096 * s.pfn + 4 + 2 * ((s.last + i) % 65536 % s.num), ToLe(q.head, 2))
    && Placed(s.world.mem, s.pfn, q.head, q.chain) && Acceptable(s.num, q.chain) && InReach(s.world.mem, q.chain)
    && OffRing(s.pfn, s.num, used, q)
  }

  /** The driver has queued `qs`, published the index, and laid out the used ring at `used`. */
  ghost predicate DriverBatch(s: State, used: nat, qs: seq<Queued>) {
    && ValidState(s) && 0 < s.pfn && 0 < s.num && 65536 % s.num == 0 && |qs| <= s.num
    && UsedRingAt(used, s.pfn, s.num) && used + 4 + 8 * s.num <= |s.world.mem|
    && Holds(s.world.mem, 4096 * s.pfn + 2, ToLe((s.last + |qs|) % 65536, 2))
    && (forall i: nat :: i < |qs| ==> QueuedAt(s, used, qs[i], i))
    && (forall i: nat, j: nat :: i < j < |qs| ==> OffEachOther(s.pfn, qs[i], qs[j]))
  }

  /** The request a chain makes of the disk. */
  ghost function Asked(mem: seq<byte>, d: DriverChain): Request {
    if d.kind == 0 then Fetch(512 * d.sector, d.payload.len)
    else if d.kind == 1 && d.payload.addr + d.payload.len <= |mem|
    then Put(512 * d.sector, mem[d.payload.addr..d.payload.addr + d.payload.len])
    else Unsupported
  }

  ghost function AskedAll(mem: seq<byte>, qs: seq<Queued>): (rs: seq<Request>)
    ensures |rs| == |qs|
  {
    seq(|qs|, i requires 0 <= i < |qs| => Asked(mem, qs[i].chain))
  }

  // ---- It is a good batch ----

  lemma UsedIs(used: nat, pfn: nat, num: nat)
    requires UsedRingAt(used, pfn, num) && pfn < U32 && num <= MAX_QUEUE
    ensures UsedBase(Queue(pfn), num) == used
  {
    hide UsedBase;
    UsedBaseBounds(Queue(pfn), num);
  }

  /** The device takes a sector as 512 bytes. */
  lemma OffsetIs(d: DriverChain)
    requires 512 * d.sector < U64
    ensures Offset(AsChain(d)) == 512 * d.sector
  {
  }

  /** It addresses the sector asked for exactly below sector 2^55; from there the product wraps to the disk's start. */
  lemma SectorReachedIff(d: DriverChain)
    requires d.sector < U64
    ensures Offset(AsChain(d)) == 512 * d.sector <==> d.sector < 0x80_0000_0000_0000
    ensures d.sector == 0x80_0000_0000_0000 ==> Offset(AsChain(d)) == 0
  {
    if d.sector < 0x80_0000_0000_0000 { OffsetIs(d); }
  }

  lemma AskedIs(mem: seq<byte>, d: DriverChain)
    requires InReach(mem, d)
    ensures RequestOf(mem, AsChain(d)) == Asked(mem, d)
  {
    if d.kind <= 1 { OffsetIs(d); }
  }

  lemma HeadIs(s: State, q: Queued, used: nat, i: nat)
    requires ValidState(s) && 0 < s.num && QueuedAt(s, used, q, i)
    ensures Head(At(s, i)) == Ok(q.head)
  {
    hide ToLe, Placed, Acceptable, InReach, OffRing, ReadLe;
    PowValues();
    ReadPart(s.world.mem, 4096 * s.pfn + 4 + 2 * ((s.last + i) % 65536 % s.num), ToLe(q.head, 2), 0, q.head, 2);
  }

  /** Entry `i` of the batch is what the driver put there. */
  lemma EntryIs(s: State, q: Queued, used: nat, i: nat)
    requires ValidState(s) && 0 < s.num && QueuedAt(s, used, q, i)
    ensures NextChain(At(s, i)) == Ok(AsChain(q.chain))
    ensures HeadAt(s, i) == q.head && ChainAt(s, i) == AsChain(q.chain)
  {
    hide Validate, Placed, Acceptable, InReach, OffRing, Holds, Head;
    HeadIs(s, q, used, i);
    PlacedChainIsRead(s.world.mem, s.pfn, s.num, q.head, q.chain);
  }

  lemma EntryIsGood(s: State, q: Queued, used: nat, i: nat)
    requires ValidState(s) && 0 < s.num && UsedRingAt(used, s.pfn, s.num) && QueuedAt(s, used, q, i)
    ensures GoodChain(s, i)
  {
    hide Placed, Acceptable, Holds, NextChain, UsedBase, ChainAt, HeadAt;
    EntryIs(s, q, used, i);
    UsedIs(used, s.pfn, s.num);
    if q.chain.kind <= 1 { OffsetIs(q.chain); }
    forall a: nat
      ensures InBuffers(AsChain(q.chain), a) <==> Offered(q.chain, a)
      ensures ReadFor(Queue(s.pfn), q.head, AsChain(q.chain), a) <==> Needed(s.pfn, q, a)
    {
      SameRanges(s.pfn, q, a);
    }
  }

  lemma SameRanges(pfn: nat, q: Queued, a: nat)
    ensures InBuffers(AsChain(q.chain), a) <==> Offered(q.chain, a)
    ensures ReadFor(Queue(pfn), q.head, AsChain(q.chain), a) <==> Needed(pfn, q, a)
  {
    TableEntry(pfn, q.head);
    TableEntry(pfn, q.chain.header.next);
    TableEntry(pfn, q.chain.payload.next);
    hide Desc, Queue;
  }

  lemma DriverBatchIsGood(s: State, used: nat, qs: seq<Queued>)
    requires DriverBatch(s, used, qs)
    ensures GoodBatch(s, |qs|) && UsedBase(Queue(s.pfn), s.num) == used
    ensures Requests(s, |qs|) == AskedAll(s.world.mem, qs)
    ensures forall i: nat :: i < |qs| ==> ChainAt(s, i) == AsChain(qs[i].chain) && HeadAt(s, i) == qs[i].head
  {
    hide QueuedAt, GoodChain, UsedBase, ChainAt, HeadAt, Holds, OffEachOther, Apart, Asked, RequestOf, ToLe;
    UsedIs(used, s.pfn, s.num);
    forall i: nat | i < |qs|
      ensures ChainAt(s, i) == AsChain(qs[i].chain) && HeadAt(s, i) == qs[i].head && GoodChain(s, i)
      ensures RequestOf(s.world.mem, ChainAt(s, i)) == Asked(s.world.mem, qs[i].chain)
    {
      EntryIs(s, qs[i], used, i);
      EntryIsGood(s, qs[i], used, i);
      ReachOf(s, qs[i], used, i);
      AskedIs(s.world.mem, qs[i].chain);
    }
    forall i: nat, j: nat | i < j < |qs| ensures Apart(s, i, j) {
      ApartIs(s, qs[i], qs[j], i, j);
    }
  }

  lemma ReachOf(s: State, q: Queued, used: nat, i: nat)
    requires 0 < s.num && QueuedAt(s, used, q, i)
    ensures InReach(s.world.mem, q.chain)
  {
  }

  lemma ApartIs(s: State, p: Queued, q: Queued, i: nat, j: nat)
    requires ChainAt(s, i) == AsChain(p.chain)
    requires ChainAt(s, j) == AsChain(q.chain) && HeadAt(s, j) == q.head
    requires OffEachOther(s.pfn, p, q)
    ensures Apart(s, i, j)
  {
    hide ChainAt, HeadAt, InBuffers, ReadFor, Offered, Needed;
    forall a: nat | InBuffers(ChainAt(s, i), a)
      ensures !InBuffers(ChainAt(s, j), a) && !ReadFor(Queue(s.pfn), HeadAt(s, j), ChainAt(s, j), a)
    {
      SameRanges(s.pfn, p, a);
      SameRanges(s.pfn, q, a);
    }
  }

  // ---- The notification ----

  /** A zero stored to the device's notify register. */
  ghost predicate IsNotify(e: Event) {
    e.MmioWrite? && e.addr == 0xfea0_0050 && forall k :: 0 <= k < |e.data| ==> e.data[k] == 0
  }

  lemma OutstandingIs(last: nat, n: nat)
    requires last < U16 && n < U16
    ensures Remaining(last, (last + n) % 65536) == n
  {
  }

  lemma IndexIs(s: State, used: nat, qs: seq<Queued>)
    requires DriverBatch(s, used, qs)
    ensures AvailIndex(s) == Ok((s.last + |qs|) % 65536)
  {
    hide ToLe, QueuedAt, OffEachOther, UsedRingAt, ReadLe;
    PowValues();
    ReadPart(s.world.mem, 4096 * s.pfn + 2, ToLe((s.last + |qs|) % 65536, 2), 0, (s.last + |qs|) % 65536, 2);
  }

  lemma NotifyOf(s: State, e: Event)
    requires ValidState(s) && 0 < s.pfn && IsNotify(e) && AvailIndex(s).Ok?
    ensures Notifies(s, e)
  {
    LeOfZeros(e.data);
  }

  /** The whole batch is served, the run goes on, and the device's own index catches up. */
  lemma BatchIsServed(s: State, used: nat, qs: seq<Queued>, e: Event)
    requires DriverBatch(s, used, qs) && IsNotify(e)
    ensures OnEvent(s, e).1 && OnEvent(s, e).0 == s.(world := OnEvent(s, e).0.world, last := (s.last + |qs|) % 65536)
    ensures OnEvent(s, e).0 == Steps(s, |qs|)
    ensures GoodBatch(s, |qs|) && Progress(s, |qs|, |qs|, OnEvent(s, e).0)
  {
    hide *;
    BatchReady(s, used, qs);
    NotifyOf(s, e);
    QueueRefinesDisk(s);
    NotifyIs(s, e);
    ServedIs(s, |qs|);
    ProgressKeeps(s, |qs|, Steps(s, |qs|));
  }

  lemma BatchReady(s: State, used: nat, qs: seq<Queued>)
    requires DriverBatch(s, used, qs)
    ensures ValidState(s) && QueueReady(s) && GoodRing(s) && GoodBatch(s, |qs|)
    ensures 0 < s.pfn && s.last < U16 && |qs| < U16
    ensures AvailIndex(s).Ok? && Remaining(s.last, AvailIndex(s).value) == |qs|
  {
    hide QueuedAt, OffEachOther, UsedRingAt, AvailIndex, GoodBatch, Remaining, Holds;
    DriverBatchIsGood(s, used, qs);
    GoodIsReady(s, |qs|);
    IndexIs(s, used, qs);
    OutstandingIs(s.last, |qs|);
  }

  lemma ProgressKeeps(s: State, n: nat, t: State)
    requires GoodRing(s) && Progress(s, n, n, t)
    ensures t == s.(world := t.world, last := (s.last + n) % 65536)
  {
    hide ListedAt, DeliveredAt, WrittenBefore, LeAt, UsedBase, Requests, ServeAll;
  }

  lemma ServedIs(s: State, n: nat)
    requires ValidState(s) && AvailIndex(s).Ok? && Remaining(s.last, AvailIndex(s).value) == n && ProcessQueue(s).1.Ok?
    ensures ProcessQueue(s).0 == Steps(s, n)
  {
    IndexBound(s);
    hide AvailIndex, Drain, Steps, OkCount, Step, ValidState;
    DrainPrefix(s, AvailIndex(s).value);
  }

  // ---- The used ring ----

  lemma HoldsLe(mem: seq<byte>, addr: nat, n: nat)
    requires addr + n <= |mem|
    ensures Holds(mem, addr, ToLe(LeAt(mem, addr, n), n))
  {
    ToLeOfLe(mem[addr..addr + n]);
  }

  lemma HoldsBoth(mem: seq<byte>, addr: nat, x: seq<byte>, y: seq<byte>)
    requires Holds(mem, addr, x) && Holds(mem, addr + |x|, y)
    ensures Holds(mem, addr, x + y)
  {
    assert mem[addr..addr + |x| + |y|] == mem[addr..addr + |x|] + mem[addr + |x|..addr + |x| + |y|];
  }

  lemma IndexRead(mem: seq<byte>, addr: nat, u: nat)
    requires u < 65536 && Holds(mem, addr, ToLe(u, 2))
    ensures u < U16 && addr + 2 <= |mem| && LeAt(mem, addr, 2) == u
  {
    PowValues();
    LeOfToLe(u, 2);
  }

  // The slot of completion `i`, as the device computes it.
  lemma SlotIs(s: State, used: nat, u: nat, i: nat)
    requires GoodRing(s) && UsedBase(Queue(s.pfn), s.num) == used && u < U16 && LeAt(s.world.mem, used + 2, 2) == u
    ensures UsedIndexAt(s, i) == (u + i) % 65536
    ensures UsedEntry(Queue(s.pfn), s.num, UsedIndexAt(s, i)) == used + 4 + 8 * ((u + i) % 65536 % s.num)
  {
    hide UsedBase, LeAt;
  }

  /**
   * The used ring: with the old index at `u`, completion `i` stands in slot (u + i) mod 2^16 mod num, as the
   * head and then the length of chain `i`, and the index has moved on by the size of the batch.
   */
  lemma CompletionsListed(s: State, used: nat, qs: seq<Queued>, e: Event, u: nat, i: nat)
    requires DriverBatch(s, used, qs) && IsNotify(e) && i < |qs|
    requires u < 65536 && Holds(s.world.mem, used + 2, ToLe(u, 2))
    ensures var mem := OnEvent(s, e).0.world.mem;
      && Holds(mem, used + 2, ToLe((u + |qs|) % 65536, 2))
      && Holds(mem, used + 4 + 8 * ((u + i) % 65536 % s.num), ToLe(qs[i].head, 4) + ToLe(qs[i].chain.payload.len, 4))
  {
    hide *;
    BatchReady(s, used, qs);
    DriverBatchIsGood(s, used, qs);
    BatchIsServed(s, used, qs, e);
    IndexRead(s.world.mem, used + 2, u);
    SlotIs(s, used, u, i);
    SlotIs(s, used, u, |qs|);
    ListedHolds(s, |qs|, used, OnEvent(s, e).0, i);
    LenIs(qs[i].chain);
  }

  lemma LenIs(d: DriverChain)
    ensures AsChain(d).len == d.payload.len
  {
  }

  lemma ListedHolds(s: State, n: nat, used: nat, t: State, i: nat)
    requires GoodRing(s) && UsedBase(Queue(s.pfn), s.num) == used && Progress(s, n, n, t) && i < n
    ensures var entry := UsedEntry(Queue(s.pfn), s.num, UsedIndexAt(s, i));
      Holds(t.world.mem, entry, ToLe(HeadAt(s, i), 4) + ToLe(ChainAt(s, i).len, 4))
    ensures Holds(t.world.mem, used + 2, ToLe(UsedIndexAt(s, n), 2))
  {
    hide UsedBase, UsedEntry, LeAt, DeliveredAt, WrittenBefore, Holds, ToLe, HeadAt, ChainAt, UsedIndexAt;
    assert ListedAt(s, i, t.world.mem);
    var entry := UsedEntry(Queue(s.pfn), s.num, UsedIndexAt(s, i));
    HoldsLe(t.world.mem, entry, 4);
    HoldsLe(t.world.mem, entry + 4, 4);
    HoldsBoth(t.world.mem, entry, ToLe(HeadAt(s, i), 4), ToLe(ChainAt(s, i).len, 4));
    HoldsLe(t.world.mem, used + 2, 2);
  }

  // ---- The disk, byte by byte ----

  /** Byte `d` of the disk after the first `k` chains: what the last write over it sent, else what was there. */
  ghost function ByteAfter(w: World, qs: seq<Queued>, k: nat, d: nat): byte
    requires k <= |qs|
  {
    if k == 0 then DiskByte(w.disk, d) else
    var c := qs[k - 1].chain;
    if c.kind == 1 && 512 * c.sector <= d < 512 * c.sector + c.payload.len
       && c.payload.addr + (d - 512 * c.sector) < |w.mem|
    then w.mem[c.payload.addr + (d - 512 * c.sector)]
    else ByteAfter(w, qs, k - 1, d)
  }

  /** The size of the disk after the first `k` chains: it grows to the end of each write that is not empty. */
  ghost function SizeAfter(w: World, qs: seq<Queued>, k: nat): nat
    requires k <= |qs|
  {
    if k == 0 then |w.disk| else
    var c := qs[k - 1].chain;
    var before := SizeAfter(w, qs, k - 1);
    if c.kind == 1 && 0 < c.payload.len && before < 512 * c.sector + c.payload.len
    then 512 * c.sector + c.payload.len else before
  }

  lemma AskedPrefix(mem: seq<byte>, qs: seq<Queued>, k: nat)
    requires k < |qs|
    ensures AskedAll(mem, qs)[..k + 1][..k] == AskedAll(mem, qs)[..k]
    ensures AskedAll(mem, qs)[..k + 1][k] == Asked(mem, qs[k].chain)
  {
    hide Asked;
  }

  ghost predicate AllInReach(mem: seq<byte>, qs: seq<Queued>) {
    forall i: nat :: i < |qs| ==> InReach(mem, qs[i].chain)
  }

  lemma ServeBytes(disk: seq<byte>, mem: seq<byte>, c: DriverChain, d: nat)
    requires InReach(mem, c)
    ensures var after := Serve(disk, Asked(mem, c)).0;
      && DiskByte(after, d) == (if c.kind == 1 && 512 * c.sector <= d < 512 * c.sector + c.payload.len
                                then mem[c.payload.addr + (d - 512 * c.sector)] else DiskByte(disk, d))
      && |after| == (if c.kind == 1 && 0 < c.payload.len && |disk| < 512 * c.sector + c.payload.len
                     then 512 * c.sector + c.payload.len else |disk|)
  {
    hide DiskWrite, DiskByte;
    if c.kind == 1 { WriteBytes(disk, 512 * c.sector, mem[c.payload.addr..c.payload.addr + c.payload.len], d); }
  }

  lemma {:induction false} FoldBytes(w: World, qs: seq<Queued>, k: nat, d: nat)
    requires k <= |qs| && AllInReach(w.mem, qs)
    ensures var disk := ServeAll(w.disk, AskedAll(w.mem, qs)[..k]);
      DiskByte(disk, d) == ByteAfter(w, qs, k, d) && |disk| == SizeAfter(w, qs, k)
    decreases k
  {
    hide Serve, Asked, DiskByte, InReach, AskedAll;
    if k > 0 {
      FoldBytes(w, qs, k - 1, d);
      AskedPrefix(w.mem, qs, k - 1);
      assert InReach(w.mem, qs[k - 1].chain);
      ReachBounds(w.mem, qs[k - 1].chain);
      ServeBytes(ServeAll(w.disk, AskedAll(w.mem, qs)[..k - 1]), w.mem, qs[k - 1].chain, d);
    }
  }

  lemma ReachBounds(mem: seq<byte>, c: DriverChain)
    requires InReach(mem, c)
    ensures c.kind == 1 ==> c.payload.addr + c.payload.len <= |mem|
  {
  }

  lemma ReachesAll(s: State, used: nat, qs: seq<Queued>)
    requires DriverBatch(s, used, qs)
    ensures AllInReach(s.world.mem, qs)
  {
    hide InReach, Holds, Placed, Acceptable, OffRing, OffEachOther, ToLe;
    forall i: nat | i < |qs| ensures InReach(s.world.mem, qs[i].chain) { ReachOf(s, qs[i], used, i); }
  }

  lemma ServedDisk(s: State, n: nat, t: State)
    requires GoodRing(s) && Progress(s, n, n, t)
    ensures t.world.disk == ServeAll(s.world.disk, Requests(s, n)[..n])
  {
    hide ListedAt, DeliveredAt, WrittenBefore, LeAt, UsedBase, Requests, ServeAll;
  }

  /**
   * The disk: byte `b` of sector `sector` is at 512 * sector + b. After the batch each byte of the disk is
   * what the last write over it sent, or what was there, and the disk has grown just to the end of its writes.
   */
  lemma DiskShowsWrites(s: State, used: nat, qs: seq<Queued>, e: Event, d: nat)
    requires DriverBatch(s, used, qs) && IsNotify(e)
    ensures var disk := OnEvent(s, e).0.world.disk;
      DiskByte(disk, d) == ByteAfter(s.world, qs, |qs|, d) && |disk| == SizeAfter(s.world, qs, |qs|)
  {
    hide *;
    BatchReady(s, used, qs);
    DriverBatchIsGood(s, used, qs);
    BatchIsServed(s, used, qs, e);
    ServedDisk(s, |qs|, OnEvent(s, e).0);
    ReachesAll(s, used, qs);
    FoldBytes(s.world, qs, |qs|, d);
  }

  // ---- What a read leaves beyond the end of the disk ----

  /** Byte `a` of a read buffer lies past the data the disk had for it. */
  ghost predicate InTail(disk: seq<byte>, c: Chain, a: nat) {
    c.kind == 0 && c.addr + |DiskRead(disk, Offset(c), c.len)| <= a < c.addr + c.len
  }

  lemma RequestTail(w: World, queue: nat, num: nat, head: nat, c: Chain, a: nat)
    requires QueueOk(queue, num) && Validate(w.mem, queue, num, head) == Ok(c)
    requires Servable(w.mem, c) && StatusApart(c) && OffUsed(queue, num, c) && InTail(w.disk, c, a) && a < |w.mem|
    ensures |ProcessRequest(w, queue, num, head).0.mem| == |w.mem|
    ensures ProcessRequest(w, queue, num, head).0.mem[a] == w.mem[a]
  {
    hide Validate, Publish, UsedBase, DiskRead, InUsedRing;
    var m0 := Store(w.mem, c.addr, DiskRead(w.disk, Offset(c), c.len));
    var m1 := Store(m0, c.status, [0]);
    assert InBuffers(c, a);
    PublishFrame(m1, queue, num, head, c.len, a);
  }

  // Turn `j` of a good batch leaves the tail of request `i` alone.
  lemma StepTail(s: State, n: nat, j: nat, i: nat, t: State, a: nat)
    requires GoodBatch(s, n) && j < n && i < n && Progress(s, n, j, t) && a < |s.world.mem|
    requires InTail(ServeAll(s.world.disk, Requests(s, n)[..i]), ChainAt(s, i), a)
    ensures |t.world.mem| == |Step(t).0.world.mem| == |s.world.mem| && Step(t).0.world.mem[a] == t.world.mem[a]
  {
    hide *;
    GoodIsReady(s, n);
    AllRequests(s, n);
    StepServes(s, n, j, t);
    ProgressHas(s, n, j, t);
    if i == j {
      OwnTail(s, n, j, t, a);
    } else {
      TailIsBuffer(ServeAll(s.world.disk, Requests(s, n)[..i]), ChainAt(s, i), a);
      OthersTail(s, n, i, j, a);
      FramedByte(s, j, t.world.mem, Step(t).0.world.mem, a);
    }
  }

  lemma ProgressHas(s: State, n: nat, k: nat, t: State)
    requires GoodRing(s) && k <= n && Progress(s, n, k, t)
    ensures |t.world.mem| == |s.world.mem| && t.num == s.num && t.pfn == s.pfn
    ensures k <= |Requests(s, n)| && t.world.disk == ServeAll(s.world.disk, Requests(s, n)[..k])
  {
    hide ListedAt, DeliveredAt, WrittenBefore, LeAt, UsedBase, ServeAll;
  }

  lemma TailIsBuffer(disk: seq<byte>, c: Chain, a: nat)
    requires InTail(disk, c, a)
    ensures InBuffers(c, a)
  {
    hide DiskRead;
  }

  lemma FramedByte(s: State, k: nat, m: seq<byte>, m': seq<byte>, a: nat)
    requires GoodRing(s) && StepFrames(s, k, m, m') && a < |m| && !WrittenBy(s, k, a)
    ensures |m'| == |m| && m'[a] == m[a]
  {
    hide WrittenBy;
  }

  lemma OthersTail(s: State, n: nat, i: nat, j: nat, a: nat)
    requires GoodBatch(s, n) && i < n && j < n && i != j && InBuffers(ChainAt(s, i), a)
    ensures !WrittenBy(s, j, a)
  {
    hide UsedBase, LeAt, ChainAt, HeadAt, InBuffers, ReadFor, InUsedRing;
    assert GoodChain(s, i);
    if i < j { assert Apart(s, i, j); } else { assert Apart(s, j, i); }
    BufferUnwritten(s, ChainAt(s, i), UsedIndexAt(s, j), ChainAt(s, j), a);
  }

  lemma OwnTail(s: State, n: nat, k: nat, t: State, a: nat)
    requires GoodBatch(s, n) && k < n && Progress(s, n, k, t) && a < |s.world.mem|
    requires InTail(ServeAll(s.world.disk, Requests(s, n)[..k]), ChainAt(s, k), a)
    ensures |Step(t).0.world.mem| == |t.world.mem| == |s.world.mem| && Step(t).0.world.mem[a] == t.world.mem[a]
  {
    hide Validate, ProcessRequest, UsedBase, LeAt, ServeAll, Servable, InTail, ListedAt, DeliveredAt, WrittenBefore;
    ProgressHas(s, n, k, t);
    NextIsQueued(s, n, k, t);
    assert GoodChain(s, k);
    ServableSame(s.world.mem, t.world.mem, ChainAt(s, k));
    RequestTail(t.world, Queue(s.pfn), s.num, HeadAt(s, k), ChainAt(s, k), a);
  }

  lemma {:induction false} TailStays(s: State, n: nat, k: nat, i: nat, a: nat)
    requires GoodBatch(s, n) && k <= n && i < n && a < |s.world.mem|
    requires i <= |Requests(s, n)| && InTail(ServeAll(s.world.disk, Requests(s, n)[..i]), ChainAt(s, i), a)
    ensures |Steps(s, k).world.mem| == |s.world.mem| && Steps(s, k).world.mem[a] == s.world.mem[a]
    decreases k
  {
    hide *;
    if k == 0 {
      NoSteps(s);
    } else {
      TailStays(s, n, k - 1, i, a);
      BatchSteps(s, n, k - 1);
      StepTail(s, n, k - 1, i, Steps(s, k - 1), a);
      StepsSnoc(s, k - 1);
    }
  }

  lemma NoSteps(s: State)
    ensures Steps(s, 0) == s
  {
  }

  // ---- The buffers ----

  // What request `i` must show, from the fold: its code, and for a read the data the disk had.
  lemma ReplyIs(disk: seq<byte>, mem: seq<byte>, rs: seq<Request>, i: nat, d: DriverChain)
    requires i < |rs| && InReach(mem, d) && rs[i] == Asked(mem, d)
    ensures var reply := ReplyTo(disk, rs, i);
      && reply.code == (if d.kind <= 1 then 0 else 1)
      && (d.kind == 0 ==> reply.data == DiskRead(ServeAll(disk, rs[..i]), 512 * d.sector, d.payload.len))
  {
    hide ServeAll, DiskRead, DiskWrite;
  }

  lemma DeliveredByte(mem: seq<byte>, d: DriverChain, reply: Reply, b: nat)
    requires Delivered(mem, AsChain(d), reply)
    ensures d.status.addr < |mem| && mem[d.status.addr] == reply.code
    ensures d.kind == 0 && b < |reply.data| ==>
      d.payload.addr + b < |mem| && mem[d.payload.addr + b] == reply.data[b]
  {
    if d.kind == 0 && b < |reply.data| {
      assert mem[d.payload.addr..d.payload.addr + |reply.data|][b] == mem[d.payload.addr + b];
    }
  }

  lemma ServedReply(s: State, n: nat, t: State, i: nat)
    requires GoodRing(s) && Progress(s, n, n, t) && i < n
    ensures DeliveredAt(s, n, i, t.world.mem)
  {
    hide ListedAt, DeliveredAt, WrittenBefore, LeAt, UsedBase;
  }

  lemma TailIs(disk: seq<byte>, d: DriverChain, b: nat)
    requires d.kind == 0 && b < d.payload.len && 512 * d.sector < U64 && |disk| <= 512 * d.sector + b
    ensures InTail(disk, AsChain(d), d.payload.addr + b)
  {
    OffsetIs(d);
    hide DiskRead;
    ReadBytes(disk, 512 * d.sector, d.payload.len, b);
  }

  lemma ReachFacts(mem: seq<byte>, d: DriverChain)
    requires InReach(mem, d)
    ensures d.kind == 0 ==> 512 * d.sector < U64 && d.payload.addr + d.payload.len <= |mem|
  {
  }

  lemma DeliveredIn(s: State, n: nat, i: nat, mem: seq<byte>)
    requires i < n && DeliveredAt(s, n, i, mem)
    ensures i < |Requests(s, n)| && Delivered(mem, ChainAt(s, i), ReplyTo(s.world.disk, Requests(s, n), i))
  {
    hide Delivered, ChainAt, ReplyTo;
  }

  lemma AskedAt(mem: seq<byte>, qs: seq<Queued>, i: nat)
    requires i < |qs|
    ensures AskedAll(mem, qs)[i] == Asked(mem, qs[i].chain)
  {
    hide Asked;
  }

  /**
   * The buffers: every status byte reads 0 for a read or a write and 1 for any other type. Byte `b` of a read
   * buffer is byte 512 * sector + b of the disk as the chains before it left it, or, past its end, what it was.
   */
  lemma BuffersShowReplies(s: State, used: nat, qs: seq<Queued>, e: Event, i: nat, b: nat)
    requires DriverBatch(s, used, qs) && IsNotify(e) && i < |qs|
    ensures var (mem, c) := (OnEvent(s, e).0.world.mem, qs[i].chain);
      && |mem| == |s.world.mem| && c.status.addr < |mem| && mem[c.status.addr] == (if c.kind <= 1 then 0 else 1)
      && (c.kind == 0 && b < c.payload.len ==>
            c.payload.addr + b < |mem|
            && mem[c.payload.addr + b] == if 512 * c.sector + b < SizeAfter(s.world, qs, i)
                                          then ByteAfter(s.world, qs, i, 512 * c.sector + b)
                                          else s.world.mem[c.payload.addr + b])
  {
    hide *;
    BatchReady(s, used, qs);
    var n, c, t := |qs|, qs[i].chain, OnEvent(s, e).0;
    DriverBatchIsGood(s, used, qs);
    BatchIsServed(s, used, qs, e);
    ProgressHas(s, n, n, t);
    ServedReply(s, n, t, i);
    DeliveredIn(s, n, i, t.world.mem);
    ReachesAll(s, used, qs);
    InReachAt(s.world.mem, qs, i);
    AskedAt(s.world.mem, qs, i);
    var rs := AskedAll(s.world.mem, qs);
    ReplyIs(s.world.disk, s.world.mem, rs, i, c);
    DeliveredByte(t.world.mem, c, ReplyTo(s.world.disk, rs, i), b);
    ReachFacts(s.world.mem, c);
    if c.kind == 0 && b < c.payload.len {
      var disk := ServeAll(s.world.disk, rs[..i]);
      FoldBytes(s.world, qs, i, 512 * c.sector + b);
      ReadBytes(disk, 512 * c.sector, c.payload.len, b);
      if |disk| <= 512 * c.sector + b {
        TailIs(disk, c, b);
        TailStays(s, n, n, i, c.payload.addr + b);
      } else {
        DiskByteIs(disk, 512 * c.sector + b);
      }
    }
  }

  lemma DiskByteIs(disk: seq<byte>, d: nat)
    requires d < |disk|
    ensures DiskByte(disk, d) == disk[d]
  {
  }

  lemma InReachAt(mem: seq<byte>, qs: seq<Queued>, i: nat)
    requires i < |qs| && AllInReach(mem, qs)
    ensures InReach(mem, qs[i].chain)
  {
    hide InReach;
  }

  /** Byte `a` is one of the eight of completion `i` when the used index stood at `u`. */
  ghost predicate InSlot(used: nat, num: nat, u: nat, i: nat, a: nat)
    requires 0 < num
  {
    var slot := used + 4 + 8 * ((u + i) % 65536 % num);
    slot <= a < slot + 8
  }

  /** Every other byte of guest memory stays: no buffer, status byte, used index or listed slot holds it. */
  lemma OthersKept(s: State, used: nat, qs: seq<Queued>, e: Event, u: nat, a: nat)
    requires DriverBatch(s, used, qs) && IsNotify(e) && a < |s.world.mem|
    requires u < 65536 && Holds(s.world.mem, used + 2, ToLe(u, 2)) && !(used + 2 <= a < used + 4)
    requires forall i: nat :: i < |qs| ==> !Offered(qs[i].chain, a)
    requires forall i: nat :: i < |qs| ==> !InSlot(used, s.num, u, i, a)
    ensures var mem := OnEvent(s, e).0.world.mem; |mem| == |s.world.mem| && mem[a] == s.world.mem[a]
  {
    hide *;
    BatchReady(s, used, qs);
    DriverBatchIsGood(s, used, qs);
    BatchIsServed(s, used, qs, e);
    IndexRead(s.world.mem, used + 2, u);
    forall i: nat | i < |qs| ensures !WrittenBy(s, i, a) {
      SameRanges(s.pfn, qs[i], a);
      NotWritten(s, used, u, i, a);
    }
    UnwrittenKept(s, |qs|, OnEvent(s, e).0, a);
  }

  lemma NotWritten(s: State, used: nat, u: nat, i: nat, a: nat)
    requires GoodRing(s) && UsedBase(Queue(s.pfn), s.num) == used && u < U16 && LeAt(s.world.mem, used + 2, 2) == u
    requires !InBuffers(ChainAt(s, i), a) && !(used + 2 <= a < used + 4) && !InSlot(used, s.num, u, i, a)
    ensures !WrittenBy(s, i, a)
  {
    hide UsedBase, UsedEntry, UsedIndexAt, ChainAt, InBuffers, LeAt;
    SlotIs(s, used, u, i);
  }

  lemma UnwrittenKept(s: State, n: nat, t: State, a: nat)
    requires GoodRing(s) && Progress(s, n, n, t) && a < |s.world.mem|
    requires forall i: nat :: i < n ==> !WrittenBy(s, i, a)
    ensures |t.world.mem| == |s.world.mem| && t.world.mem[a] == s.world.mem[a]
  {
    hide ListedAt, DeliveredAt, WrittenBy, LeAt, UsedBase;
    assert !WrittenBefore(s, n, a);
  }

  // ---- A batch of this kind ----

  lemma RingHolds(mem: seq<byte>, at: nat, flags: nat, index: nat, heads: seq<nat>, i: nat)
    requires Holds(mem, at, RingBytes(flags, index, heads)) && i < |heads|
    ensures Holds(mem, at + 2, ToLe(index, 2)) && Holds(mem, at + 4 + 2 * i, ToLe(heads[i], 2))
  {
    hide ToLe;
    HeadsSlice(heads, i);
    var b := RingBytes(flags, index, heads);
    PartHolds(mem, at, b, 2, ToLe(index, 2));
    assert b[4 + 2 * i..4 + 2 * i + 2] == HeadsBytes(heads)[2 * i..2 * i + 2];
    PartHolds(mem, at, b, 4 + 2 * i, ToLe(heads[i], 2));
  }

  lemma PartHolds(mem: seq<byte>, at: nat, data: seq<byte>, k: nat, part: seq<byte>)
    requires Holds(mem, at, data) && k + |part| <= |data| && data[k..k + |part|] == part
    ensures Holds(mem, at + k, part)
  {
    var p, q := mem[at + k..at + k + |part|], data[k..k + |part|];
    forall j | 0 <= j < |part| ensures p[j] == q[j] {
      assert mem[at..at + |data|][k + j] == p[j];
    }
    assert p == q;
  }

  /** A write of sector 3 and a read of it, across the wrap of both indices, are such a batch. */
  lemma DriverBatchWraps()
    ensures DriverBatch(ExampleState(), 0x2000, [Queued(4, PUT), Queued(6, FETCH)])
  {
    hide ExampleMemory, Placed, Holds, ToLe, RingBytes;
    var s := ExampleState();
    ExampleHolds();
    RingHolds(s.world.mem, 0x1000, 0, 1, HEADS, 3);
    RingHolds(s.world.mem, 0x1000, 0, 1, HEADS, 0);
    assert QueuedAt(s, 0x2000, Queued(4, PUT), 0);
    assert QueuedAt(s, 0x2000, Queued(6, FETCH), 1);
    hide QueuedAt;
    assert OffEachOther(1, Queued(4, PUT), Queued(6, FETCH));
  }

  /**
   * So the hypotheses of the batch theorems are met with the available and the used index both about to wrap,
   * and two requests of the same 512 bytes.
   */
  lemma GoodBatchWraps()
    ensures var s := ExampleState();
      && GoodBatch(s, 2) && s.last == 0xffff && UsedIndexAt(s, 0) == 0xffff && AvailIndex(s) == Ok(1)
      && ChainAt(s, 0).kind == 1 && ChainAt(s, 1).kind == 0
      && ChainAt(s, 0).len == ChainAt(s, 1).len == 512
      && Offset(ChainAt(s, 0)) == Offset(ChainAt(s, 1)) == 1536
  {
    hide ExampleMemory, GoodBatch, ChainAt, HeadAt, UsedBase, LeAt, DriverBatch, Holds, AvailIndex, Requests, Placed;
    var s, qs := ExampleState(), [Queued(4, PUT), Queued(6, FETCH)];
    DriverBatchWraps();
    DriverBatchIsGood(s, 0x2000, qs);
    GoodIsReady(s, 2);
    IndexIs(s, 0x2000, qs);
    ExampleHolds();
    assert ChainAt(s, 0) == AsChain(qs[0].chain) && ChainAt(s, 1) == AsChain(qs[1].chain);
  }

  // The driver's notification of that queue: a zero written to the notify register.
  const NOTIFY := MmioWrite(0xfea0_0050, [0])

  /** Notifying that queue is a run of the whole-run theorems, with both requests in it. */
  lemma GoodRunWraps()
    ensures var s := ExampleState();
      ValidState(s) && IsNotify(NOTIFY) && GoodRun(s, [NOTIFY]) && |Batches(s, [NOTIFY])| == 2
  {
    hide ExampleMemory, GoodBatch, AvailIndex, Requests, OnEvent, ChainAt;
    var s, qs := ExampleState(), [Queued(4, PUT), Queued(6, FETCH)];
    GoodBatchWraps();
    DriverBatchWraps();
    BatchReady(s, 0x2000, qs);
    NotifyOf(s, NOTIFY);
    assert [NOTIFY][1..] == [];
    AllRequests(s, 2);
  }
}
