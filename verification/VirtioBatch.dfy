// A batch of well-formed requests: the whole notification refines a left fold
// of abstract disk requests, and its completions appear once each, in order.
module VirtioBatch {
  import opened Bytes
  import opened Bits
  import opened Results
  import opened GuestRam
  import opened Disk
  import opened VirtioSpec
  import opened VirtioFrame
  import opened VirtioQueue

  // ---- Abstract requests ----

  datatype Request =
    | Fetch(offset: nat, len: nat)
    | Put(offset: nat, data: seq<byte>)
    | Unsupported

  datatype Reply = Reply(code: byte, data: seq<byte>)

  /** One request served by a disk with no queue and no guest memory. */
  function Serve(disk: seq<byte>, r: Request): (seq<byte>, Reply) {
    match r
    case Fetch(offset, len) => (disk, Reply(0, DiskRead(disk, offset, len)))
    case Put(offset, data) => (DiskWrite(disk, offset, data), Reply(0, []))
    case Unsupported => (disk, Reply(1, []))
  }

  /** The left fold of `Serve` over a list of requests. */
  function ServeAll(disk: seq<byte>, rs: seq<Request>): seq<byte>
    decreases |rs|
  {
    if rs == [] then disk else Serve(ServeAll(disk, rs[..|rs| - 1]), rs[|rs| - 1]).0
  }

  function ReplyTo(disk: seq<byte>, rs: seq<Request>, i: nat): Reply
    requires i < |rs|
  {
    Serve(ServeAll(disk, rs[..i]), rs[i]).1
  }

  // ---- The batch the driver prepared ----

  /** The state as it is, with the consumed index moved on by `i`. */
  ghost function At(s: State, i: nat): State {
    s.(last := (s.last + i) % U16)
  }

  ghost function HeadAt(s: State, i: nat): nat {
    if s.num > 0 && Head(At(s, i)).Ok? then Head(At(s, i)).value else 0
  }

  /** The `i`-th chain of the batch, read from memory as the driver left it, if it is well formed. */
  ghost function ChainAt(s: State, i: nat): Chain {
    if NextChain(At(s, i)).Ok? then NextChain(At(s, i)).value else Chain(0, 0, 0, 0, 0, 0, 0, 0, 0)
  }

  ghost function RequestOf(mem: seq<byte>, c: Chain): Request {
    if c.kind == 0 then Fetch(Offset(c), c.len)
    else if c.kind == 1 && c.addr + c.len <= |mem| then Put(Offset(c), mem[c.addr..c.addr + c.len])
    else Unsupported
  }

  ghost function Requests(s: State, n: nat): seq<Request> {
    seq(n, i requires 0 <= i < n => RequestOf(s.world.mem, ChainAt(s, i)))
  }

  /** The host and guest ranges a chain names exist. */
  ghost predicate Servable(mem: seq<byte>, c: Chain) {
    && (c.kind <= 1 ==> HostAccepts(Offset(c), c.len) && InRange(mem, c.addr, c.len))
    && InRange(mem, c.status, 1)
  }

  ghost predicate InAvailRing(queue: nat, num: nat, a: nat) {
    AvailBase(queue) + 4 <= a < AvailBase(queue) + 4 + 2 * num
  }

  /** The bytes of a chain's descriptors and header. */
  ghost predicate Describes(queue: nat, head: nat, c: Chain, a: nat) {
    || Desc(queue, head) <= a < Desc(queue, head) + 16
    || c.header <= a < c.header + 16
    || Desc(queue, c.next) <= a < Desc(queue, c.next) + 16
    || Desc(queue, c.statusNext) <= a < Desc(queue, c.statusNext) + 8
  }

  /** The bytes the device reads to learn a chain and its outgoing payload. */
  ghost predicate ReadFor(queue: nat, head: nat, c: Chain, a: nat) {
    Describes(queue, head, c, a) || (c.kind == 1 && c.addr <= a < c.addr + c.len)
  }

  ghost predicate StatusApart(c: Chain) {
    c.kind == 0 ==> !(c.addr <= c.status < c.addr + c.len)
  }

  /** Buffers keep off both rings. */
  ghost predicate OffRings(s: State, c: Chain) {
    forall a: nat :: InBuffers(c, a) ==> !InUsedRing(Queue(s.pfn), s.num, a) && !InAvailRing(Queue(s.pfn), s.num, a)
  }

  /** What request `j` needs read is not in the used ring. */
  ghost predicate ReadsApart(s: State, j: nat) {
    forall a: nat :: ReadFor(Queue(s.pfn), HeadAt(s, j), ChainAt(s, j), a) ==> !InUsedRing(Queue(s.pfn), s.num, a)
  }

  /** Request `i`'s buffers are neither buffers of request `j` nor read for it. */
  ghost predicate Apart(s: State, i: nat, j: nat) {
    forall a: nat :: InBuffers(ChainAt(s, i), a)
      ==> !InBuffers(ChainAt(s, j), a) && !ReadFor(Queue(s.pfn), HeadAt(s, j), ChainAt(s, j), a)
  }

  ghost predicate GoodChain(s: State, i: nat) {
    && NextChain(At(s, i)).Ok?
    && Servable(s.world.mem, ChainAt(s, i)) && StatusApart(ChainAt(s, i))
    && OffRings(s, ChainAt(s, i)) && ReadsApart(s, i)
  }

  /** The driver laid out a used ring in RAM and a power-of-two queue. */
  ghost predicate GoodRing(s: State) {
    && QueueReady(s) && U16 % s.num == 0
    && UsedBase(Queue(s.pfn), s.num) + 4 + 8 * s.num <= |s.world.mem|
  }

  /** A batch of `n` well-formed requests that do not alias. */
  ghost predicate GoodBatch(s: State, n: nat) {
    && GoodRing(s) && n <= s.num
    && (forall i: nat :: i < n ==> GoodChain(s, i))
    && (forall i: nat, j: nat :: i < j < n ==> Apart(s, i, j))
  }

  // ---- One request of a good batch ----

  ghost predicate SameFor(m: seq<byte>, m': seq<byte>, queue: nat, head: nat, c: Chain) {
    |m| == |m'| && forall a: nat :: a < |m| && Describes(queue, head, c, a) ==> m[a] == m'[a]
  }

  ghost predicate SameOn(m: seq<byte>, m': seq<byte>, lo: nat, hi: nat) {
    |m| == |m'| && forall a: nat :: lo <= a < hi && a < |m| ==> m[a] == m'[a]
  }

  lemma SameInt(m: seq<byte>, m': seq<byte>, lo: nat, hi: nat, addr: nat, n: nat)
    requires SameOn(m, m', lo, hi) && lo <= addr && addr + n <= hi
    ensures ReadLe(m, addr, n) == ReadLe(m', addr, n)
  {
    if InRange(m, addr, n) {
      LeAtSame(m, m', addr, n);
    }
  }

  lemma SameDescriptor(m: seq<byte>, m': seq<byte>, at: nat)
    requires SameOn(m, m', at, at + 16)
    ensures ReadLe(m, at, 8) == ReadLe(m', at, 8) && ReadLe(m, at + 8, 4) == ReadLe(m', at + 8, 4)
    ensures ReadLe(m, at + 12, 2) == ReadLe(m', at + 12, 2) && ReadLe(m, at + 14, 2) == ReadLe(m', at + 14, 2)
  {
    hide ReadLe, SameOn;
    SameInt(m, m', at, at + 16, at, 8);
    SameInt(m, m', at, at + 16, at + 8, 4);
    SameInt(m, m', at, at + 16, at + 12, 2);
    SameInt(m, m', at, at + 16, at + 14, 2);
  }

  /** The reads and checks behind a chain, one by one. */
  ghost predicate ReadsAs(m: seq<byte>, queue: nat, num: nat, head: nat, c: Chain) {
    && ReadLe(m, Desc(queue, head), 8) == Ok(c.header)
    && ReadLe(m, Desc(queue, head) + 12, 2).Ok? && And(ReadLe(m, Desc(queue, head) + 12, 2).value, DESC_NEXT) != 0
    && ReadLe(m, Desc(queue, head) + 14, 2) == Ok(c.next)
    && ReadLe(m, c.header, 4) == Ok(c.kind) && ReadLe(m, Add64(c.header, 8), 8) == Ok(c.sector)
    && ReadLe(m, Desc(queue, c.next), 8) == Ok(c.addr) && ReadLe(m, Desc(queue, c.next) + 8, 4) == Ok(c.len)
    && ReadLe(m, Desc(queue, c.next) + 12, 2) == Ok(c.flags)
    && ReadLe(m, Desc(queue, c.next) + 14, 2) == Ok(c.statusNext)
    && ReadLe(m, Desc(queue, c.statusNext), 8) == Ok(c.status)
    && And(c.flags, DESC_NEXT) != 0 && c.statusNext < num && c.status != 0
    && (c.kind == 0 ==> And(c.flags, DESC_WRITE) != 0) && (c.kind == 1 ==> And(c.flags, DESC_WRITE) == 0)
  }

  lemma ValidateReads(m: seq<byte>, queue: nat, num: nat, head: nat, c: Chain)
    ensures Validate(m, queue, num, head) == Ok(c) <==> ReadsAs(m, queue, num, head, c)
  {
    hide And, ReadLe, Add64, Desc;
  }

  /** An accepted chain is accepted, with the same contents, by any memory with the same descriptors and header. */
  lemma ValidateSame(m: seq<byte>, m': seq<byte>, queue: nat, num: nat, head: nat)
    requires |m| < MAX_REGION && Validate(m, queue, num, head).Ok?
    requires SameFor(m, m', queue, head, Validate(m, queue, num, head).value)
    ensures Validate(m', queue, num, head) == Validate(m, queue, num, head)
  {
    hide Validate, And, LeAt, ReadsAs;
    var c := Validate(m, queue, num, head).value;
    ValidateReads(m, queue, num, head, c);
    ValidateReads(m', queue, num, head, c);
    ReadsSame(m, m', queue, num, head, c);
  }

  lemma HeaderFits(m: seq<byte>, header: nat)
    requires |m| < MAX_REGION && ReadLe(m, header, 4).Ok?
    ensures Add64(header, 8) == header + 8
  {
    hide LeAt;
  }

  lemma SameRanges(m: seq<byte>, m': seq<byte>, queue: nat, head: nat, c: Chain)
    requires SameFor(m, m', queue, head, c)
    ensures SameOn(m, m', Desc(queue, head), Desc(queue, head) + 16) && SameOn(m, m', c.header, c.header + 16)
    ensures SameOn(m, m', Desc(queue, c.next), Desc(queue, c.next) + 16)
    ensures SameOn(m, m', Desc(queue, c.statusNext), Desc(queue, c.statusNext) + 8)
  {
    hide Desc;
  }

  lemma ReadsSame(m: seq<byte>, m': seq<byte>, queue: nat, num: nat, head: nat, c: Chain)
    requires |m| < MAX_REGION && ReadsAs(m, queue, num, head, c) && SameFor(m, m', queue, head, c)
    ensures ReadsAs(m', queue, num, head, c)
  {
    hide And, ReadLe, SameFor, SameOn, Desc, Add64;
    HeaderFits(m, c.header);
    SameRanges(m, m', queue, head, c);
    SameDescriptor(m, m', Desc(queue, head));
    SameInt(m, m', c.header, c.header + 16, c.header, 4);
    SameInt(m, m', c.header, c.header + 16, c.header + 8, 8);
    SameDescriptor(m, m', Desc(queue, c.next));
    SameInt(m, m', Desc(queue, c.statusNext), Desc(queue, c.statusNext) + 8, Desc(queue, c.statusNext), 8);
  }

  /** Guest memory shows the reply: the data at the start of the buffer, the code in the status byte. */
  ghost predicate Delivered(mem: seq<byte>, c: Chain, reply: Reply) {
    && c.status < |mem| && mem[c.status] == reply.code
    && (c.kind == 0 ==> c.addr + |reply.data| <= |mem| && mem[c.addr..c.addr + |reply.data|] == reply.data)
  }

  /** The used ring shows `(head, len)` in the slot that belongs to `index`. */
  ghost predicate Listed(mem: seq<byte>, queue: nat, num: nat, index: nat, head: nat, len: nat)
    requires num > 0
  {
    var entry := UsedEntry(queue, num, index);
    entry + 8 <= |mem| && LeAt(mem, entry, 4) == head && LeAt(mem, entry + 4, 4) == len
  }

  /** The bytes a served request does change. */
  ghost predicate Written(queue: nat, num: nat, index: nat, c: Chain, a: nat)
    requires num > 0
  {
    || InBuffers(c, a)
    || UsedBase(queue, num) + 2 <= a < UsedBase(queue, num) + 4
    || UsedEntry(queue, num, index) <= a < UsedEntry(queue, num, index) + 8
  }

  ghost predicate OffUsed(queue: nat, num: nat, c: Chain) {
    forall a: nat :: InBuffers(c, a) ==> !InUsedRing(queue, num, a)
  }

  lemma TransferServes(w: World, c: Chain)
    requires Servable(w.mem, c)
    ensures var (w', r) := Transfer(w, c);
      var (disk, reply) := Serve(w.disk, RequestOf(w.mem, c));
      && r == Ok(reply.code) && w'.disk == disk && |w'.mem| == |w.mem|
      && (c.kind == 0 ==> |reply.data| <= c.len && w'.mem[c.addr..c.addr + |reply.data|] == reply.data)
      && (forall a: nat :: a < |w.mem| && !InBuffers(c, a) ==> w'.mem[a] == w.mem[a])
  {
    if c.kind == 0 {
      var data := DiskRead(w.disk, Offset(c), c.len);
      assert Store(w.mem, c.addr, data)[c.addr..c.addr + |data|] == data;
    }
  }

  lemma CompleteServes(w: World, queue: nat, num: nat, head: nat, c: Chain, reply: Reply)
    requires QueueOk(queue, num) && head < U16 && c.len < U32 && |w.mem| < MAX_REGION
    requires UsedBase(queue, num) + 4 + 8 * num <= |w.mem|
    requires Servable(w.mem, c) && StatusApart(c) && OffUsed(queue, num, c)
    requires c.kind == 0 ==> |reply.data| <= c.len && w.mem[c.addr..c.addr + |reply.data|] == reply.data
    ensures var (w', r) := Complete(w, queue, num, head, c, reply.code);
      var index := LeAt(w.mem, UsedBase(queue, num) + 2, 2);
      && r.Ok? && w'.disk == w.disk && |w'.mem| == |w.mem|
      && Delivered(w'.mem, c, reply)
      && LeAt(w'.mem, UsedBase(queue, num) + 2, 2) == (index + 1) % U16
      && Listed(w'.mem, queue, num, index, head, c.len)
      && (forall a: nat :: a < |w.mem| && !Written(queue, num, index, c, a) ==> w'.mem[a] == w.mem[a])
  {
    hide Publish, UsedBase, LeAt, Listed, Delivered;
    var used := UsedBase(queue, num);
    var m1 := Store(w.mem, c.status, [reply.code]);
    assert InBuffers(c, c.status);
    LeAtSame(w.mem, m1, used + 2, 2);
    PublishEffect(m1, queue, num, head, c.len);
    PublishWorks(m1, queue, num, head, c.len);
    var m2 := Publish(m1, queue, num, head, c.len).0;
    var index := LeAt(w.mem, used + 2, 2);
    assert Listed(m2, queue, num, index, head, c.len) by { ListedIs(m2, queue, num, index, head, c.len); }
    forall a: nat | a < |w.mem| && InBuffers(c, a) ensures m2[a] == m1[a] {
      EntryInRing(queue, num, index);
    }
    DeliveredIs(w.mem, m2, c, reply);
  }

  lemma ListedIs(mem: seq<byte>, queue: nat, num: nat, index: nat, head: nat, len: nat)
    requires num > 0 && UsedEntry(queue, num, index) + 8 <= |mem|
    requires LeAt(mem, UsedEntry(queue, num, index), 4) == head && LeAt(mem, UsedEntry(queue, num, index) + 4, 4) == len
    ensures Listed(mem, queue, num, index, head, len)
  {
    hide UsedEntry, LeAt;
  }

  lemma DeliveredIs(m: seq<byte>, m2: seq<byte>, c: Chain, reply: Reply)
    requires |m2| == |m| && Servable(m, c) && StatusApart(c)
    requires c.kind == 0 ==> |reply.data| <= c.len && m[c.addr..c.addr + |reply.data|] == reply.data
    requires forall a: nat :: a < |m| && InBuffers(c, a) ==> m2[a] == Store(m, c.status, [reply.code])[a]
    ensures Delivered(m2, c, reply)
  {
    assert InBuffers(c, c.status);
    if c.kind == 0 {
      var p, q := m2[c.addr..c.addr + |reply.data|], m[c.addr..c.addr + |reply.data|];
      forall k: nat | k < |reply.data| ensures p[k] == q[k] {
        assert InBuffers(c, c.addr + k);
      }
      assert p == q;
    }
  }

  lemma PublishWorks(mem: seq<byte>, queue: nat, num: nat, head: nat, len: nat)
    requires QueueOk(queue, num) && |mem| < MAX_REGION
    requires UsedBase(queue, num) + 4 + 8 * num <= |mem|
    ensures Publish(mem, queue, num, head, len).1.Ok?
  {
    hide UsedBase, LeAt, ToLe;
    var index := LeAt(mem, UsedBase(queue, num) + 2, 2);
    assert index % num < num;
    assert UsedEntry(queue, num, index) + 8 <= |mem|;
  }

  /** One well-formed request is served as the abstract disk would serve it, and listed once. */
  lemma RequestServes(w: World, queue: nat, num: nat, head: nat, c: Chain)
    requires QueueOk(queue, num) && head < U16 && |w.mem| < MAX_REGION
    requires UsedBase(queue, num) + 4 + 8 * num <= |w.mem|
    requires Validate(w.mem, queue, num, head) == Ok(c)
    requires Servable(w.mem, c) && StatusApart(c) && OffUsed(queue, num, c)
    ensures var (w', r) := ProcessRequest(w, queue, num, head);
      var (disk, reply) := Serve(w.disk, RequestOf(w.mem, c));
      var index := LeAt(w.mem, UsedBase(queue, num) + 2, 2);
      && r.Ok? && w'.disk == disk && |w'.mem| == |w.mem|
      && Delivered(w'.mem, c, reply)
      && LeAt(w'.mem, UsedBase(queue, num) + 2, 2) == (index + 1) % U16
      && Listed(w'.mem, queue, num, index, head, c.len)
      && (forall a: nat :: a < |w.mem| && !Written(queue, num, index, c, a) ==> w'.mem[a] == w.mem[a])
  {
    hide Validate, Transfer, Complete, UsedBase, LeAt, Serve, RequestOf, Delivered;
    ChainBounds(w.mem, queue, num, head);
    TransferServes(w, c);
    var (w1, _) := Transfer(w, c);
    var reply := Serve(w.disk, RequestOf(w.mem, c)).1;
    var used := UsedBase(queue, num);
    assert !InBuffers(c, used + 2) && !InBuffers(c, used + 3) by {
      assert InUsedRing(queue, num, used + 2) && InUsedRing(queue, num, used + 3);
    }
    LeAtSame(w.mem, w1.mem, used + 2, 2);
    CompleteServes(w1, queue, num, head, c, reply);
  }

  // ---- Slots of a wrapping index ----

  lemma ModMod(x: nat, num: nat)
    requires num > 0 && U16 % num == 0
    ensures x % U16 % num == x % num
  {
    var q, r, m := x / U16, x % U16, U16 / num;
    assert U16 == num * m;
    assert x == num * (m * q) + r by { assert num * m * q == num * (m * q); }
    var q', r' := r / num, r % num;
    assert x == num * (m * q + q') + r' by { assert num * (m * q + q') == num * (m * q) + num * q'; }
    ModIs(x, num, m * q + q', r');
  }

  lemma CloseIndicesDiffer(x: nat, y: nat, num: nat)
    requires x < y < x + num
    ensures x % num != y % num
  {
    var p, q := x / num, y / num;
    assert x == num * p + x % num && y == num * q + y % num;
    assert num * (q - p) == num * q - num * p;
    if q > p { MulMono(num, q - p); }
  }

  lemma SlotsDiffer(num: nat, u: nat, i: nat, j: nat)
    requires num > 0 && U16 % num == 0 && i < j < i + num
    ensures (u + i) % U16 % num != (u + j) % U16 % num
  {
    ModMod(u + i, num);
    ModMod(u + j, num);
    CloseIndicesDiffer(u + i, u + j, num);
  }

  /** The used-ring slot of the `i`-th completion after the index stood at `u`. */
  function Slot(u: nat, i: nat, num: nat): nat
    requires num > 0
  {
    (u + i) % U16 % num
  }

  /**
   * No batch of up to `num` completions ever reuses a slot, wherever the 16-bit index stands,
   * exactly when `num` divides 2^16.
   */
  lemma SlotsDistinctIff(num: nat)
    requires 0 < num < U16
    ensures (forall u: nat, i: nat, j: nat :: u < U16 && i < j < num ==> Slot(u, i, num) != Slot(u, j, num))
      <==> U16 % num == 0
  {
    if U16 % num == 0 {
      forall u: nat, i: nat, j: nat | u < U16 && i < j < num ensures Slot(u, i, num) != Slot(u, j, num) {
        SlotsDiffer(num, u, i, j);
      }
    } else {
      SlotReused(num);
    }
  }

  // At the wrap the slot of index 65535 is reused while fewer than num completions are outstanding.
  lemma SlotReused(num: nat)
    requires 0 < num < U16 && U16 % num != 0
    ensures var u, i, j := U16 - 1, 0, 1 + (U16 - 1) % num;
      u < U16 && i < j < num && Slot(u, i, num) == Slot(u, j, num)
  {
    var q, j := (U16 - 1) / num, 1 + (U16 - 1) % num;
    assert U16 == num * q + j;
    if j == num {
      assert U16 == num * (q + 1);
      ModIs(U16, num, q + 1, 0);
    }
    ModIs(j - 1, num, 0, j - 1);
  }

  // ---- The batch ----

  /** The used index the driver must see after `i` completions. */
  ghost function UsedIndexAt(s: State, i: nat): nat
    requires GoodRing(s)
  {
    (LeAt(s.world.mem, UsedBase(Queue(s.pfn), s.num) + 2, 2) + i) % U16
  }

  ghost predicate ListedAt(s: State, i: nat, mem: seq<byte>)
    requires GoodRing(s)
  {
    Listed(mem, Queue(s.pfn), s.num, UsedIndexAt(s, i), HeadAt(s, i), ChainAt(s, i).len)
  }

  ghost predicate DeliveredAt(s: State, n: nat, i: nat, mem: seq<byte>)
    requires i < n
  {
    Delivered(mem, ChainAt(s, i), ReplyTo(s.world.disk, Requests(s, n), i))
  }

  /** One of the first `k` requests has `a` in a buffer, in its used entry or in the used index. */
  ghost predicate WrittenBefore(s: State, k: nat, a: nat)
    requires GoodRing(s)
  {
    exists i: nat :: i < k && WrittenBy(s, i, a)
  }

  ghost predicate WrittenBy(s: State, i: nat, a: nat)
    requires GoodRing(s)
  {
    Written(Queue(s.pfn), s.num, UsedIndexAt(s, i), ChainAt(s, i), a)
  }

  /** Everything that holds once the first `k` of `n` requests are served. */
  ghost predicate Progress(s: State, n: nat, k: nat, t: State)
    requires GoodRing(s) && k <= n
  {
    && t.num == s.num && t.pfn == s.pfn && t.status == s.status && t.last == (s.last + k) % U16
    && |t.world.mem| == |s.world.mem|
    && t.world.disk == ServeAll(s.world.disk, Requests(s, n)[..k])
    && LeAt(t.world.mem, UsedBase(Queue(s.pfn), s.num) + 2, 2) == UsedIndexAt(s, k)
    && (forall i: nat :: i < k ==> ListedAt(s, i, t.world.mem))
    && (forall i: nat :: i < k ==> DeliveredAt(s, n, i, t.world.mem))
    && (forall a: nat :: a < |s.world.mem| && !WrittenBefore(s, k, a) ==> t.world.mem[a] == s.world.mem[a])
  }

  // Nothing served before request `k` writes what it reads, or the available ring.
  lemma NotYetWritten(s: State, n: nat, k: nat, a: nat)
    requires GoodBatch(s, n) && k < n
    requires ReadFor(Queue(s.pfn), HeadAt(s, k), ChainAt(s, k), a) || InAvailRing(Queue(s.pfn), s.num, a)
    ensures !WrittenBefore(s, k, a)
  {
    hide UsedBase, LeAt, ChainAt, HeadAt, InBuffers, Describes;
    UsedBaseBounds(Queue(s.pfn), s.num);
    assert GoodChain(s, k);
    forall i: nat | i < k ensures !WrittenBy(s, i, a) {
      assert GoodChain(s, i) && Apart(s, i, k);
      EntryInRing(Queue(s.pfn), s.num, UsedIndexAt(s, i));
    }
  }

  /** The next request is the one the driver queued: nothing served before it has touched what it reads. */
  lemma NextIsQueued(s: State, n: nat, k: nat, t: State)
    requires GoodBatch(s, n) && k < n && Progress(s, n, k, t)
    ensures NextChain(t) == Ok(ChainAt(s, k)) && Head(t) == Ok(HeadAt(s, k))
    ensures RequestOf(t.world.mem, ChainAt(s, k)) == RequestOf(s.world.mem, ChainAt(s, k))
  {
    hide Validate, UsedBase, LeAt, ListedAt, DeliveredAt, ServeAll, Servable;
    assert GoodChain(s, k);
    var queue, c, head := Queue(s.pfn), ChainAt(s, k), HeadAt(s, k);
    var m, m' := s.world.mem, t.world.mem;
    UsedBaseBounds(queue, s.num);
    forall a: nat | a < |m| && (ReadFor(queue, head, c, a) || InAvailRing(queue, s.num, a)) ensures m[a] == m'[a] {
      NotYetWritten(s, n, k, a);
    }
    var slot, entry := (s.last + k) % U16 % s.num, AvailEntry(queue, s.num, t.last);
    assert forall a: nat :: entry <= a < entry + 2 ==> InAvailRing(queue, s.num, a);
    assert At(s, k).last == t.last;
    if InRange(m, AvailEntry(queue, s.num, t.last), 2) {
      LeAtSame(m, m', AvailEntry(queue, s.num, t.last), 2);
    }
    ValidateSame(m, m', queue, s.num, head);
    if c.kind == 1 && c.addr + c.len <= |m| {
      assert m[c.addr..c.addr + c.len] == m'[c.addr..c.addr + c.len];
    }
  }

  lemma {:induction false} PrefixReply(disk: seq<byte>, rs: seq<Request>, k: nat)
    requires k < |rs|
    ensures ServeAll(disk, rs[..k + 1]) == Serve(ServeAll(disk, rs[..k]), rs[k]).0
  {
    assert rs[..k + 1][..k] == rs[..k];
  }

  lemma WrapNext(x: nat)
    ensures (x % U16 + 1) % U16 == (x + 1) % U16
  {
  }

  /** What serving request `k` does, in terms of the batch as it was queued. */
  lemma StepServes(s: State, n: nat, k: nat, t: State)
    requires GoodBatch(s, n) && k < n && Progress(s, n, k, t)
    ensures var t' := Step(t).0;
      var c := ChainAt(s, k);
      var (disk, reply) := Serve(t.world.disk, RequestOf(s.world.mem, c));
      && Step(t).1.Ok? && t' == t.(world := t'.world, last := (t.last + 1) % U16)
      && t'.world.disk == disk && |t'.world.mem| == |t.world.mem|
      && Delivered(t'.world.mem, c, reply)
      && LeAt(t'.world.mem, UsedBase(Queue(s.pfn), s.num) + 2, 2) == (UsedIndexAt(s, k) + 1) % U16
      && ListedAt(s, k, t'.world.mem)
      && StepFrames(s, k, t.world.mem, t'.world.mem)
  {
    hide Validate, ProcessRequest, UsedBase, LeAt, ServeAll, Serve, Servable, RequestOf, Delivered;
    var queue, c, head := Queue(s.pfn), ChainAt(s, k), HeadAt(s, k);
    NextIsQueued(s, n, k, t);
    assert GoodChain(s, k);
    LeAtBound(t.world.mem, AvailEntry(queue, s.num, t.last), 2);
    ServableSame(s.world.mem, t.world.mem, c);
    RequestServes(t.world, queue, s.num, head, c);
  }

  ghost predicate StepFrames(s: State, k: nat, m: seq<byte>, m': seq<byte>)
    requires GoodRing(s)
  {
    && |m'| == |m|
    && forall a: nat :: a < |m| && !WrittenBy(s, k, a) ==> m'[a] == m[a]
  }

  /** Serving request `k` of a good batch succeeds and makes one more step of progress. */
  lemma BatchStep(s: State, n: nat, k: nat, t: State)
    requires GoodBatch(s, n) && k < n && Progress(s, n, k, t)
    ensures Step(t).1.Ok? && Progress(s, n, k + 1, Step(t).0)
  {
    hide Step, GoodChain, Apart, UsedBase, LeAt, ServeAll, Serve, Servable, RequestOf, Delivered, Listed;
    hide ChainAt, HeadAt;
    var queue := Queue(s.pfn);
    StepServes(s, n, k, t);
    var t' := Step(t).0;
    WrapNext(s.last + k);
    WrapNext(LeAt(s.world.mem, UsedBase(queue, s.num) + 2, 2) + k);
    PrefixReply(s.world.disk, Requests(s, n), k);
    forall i: nat | i < k + 1 ensures ListedAt(s, i, t'.world.mem) {
      if i < k { StaysListed(s, n, k, i, t.world.mem, t'.world.mem); }
    }
    forall i: nat | i < k + 1 ensures DeliveredAt(s, n, i, t'.world.mem) {
      if i < k { StaysDelivered(s, n, k, i, t.world.mem, t'.world.mem); }
    }
    forall a: nat | a < |s.world.mem| && !WrittenBefore(s, k + 1, a)
      ensures t'.world.mem[a] == s.world.mem[a]
    {
      assert !WrittenBy(s, k, a) && !WrittenBefore(s, k, a);
    }
  }

  lemma ServableSame(m: seq<byte>, m': seq<byte>, c: Chain)
    requires |m| == |m'| && Servable(m, c)
    ensures Servable(m', c)
  {
  }

  lemma EntryInRing(queue: nat, num: nat, index: nat)
    requires num > 0
    ensures UsedBase(queue, num) + 4 <= UsedEntry(queue, num, index)
    ensures UsedEntry(queue, num, index) + 8 <= UsedBase(queue, num) + 4 + 8 * num
  {
    hide UsedBase;
  }

  lemma StaysListed(s: State, n: nat, k: nat, i: nat, m: seq<byte>, m': seq<byte>)
    requires GoodBatch(s, n) && i < k < n && |m| == |m'| == |s.world.mem|
    requires ListedAt(s, i, m)
    requires StepFrames(s, k, m, m')
    ensures ListedAt(s, i, m')
  {
    hide UsedBase, LeAt, ChainAt, HeadAt, InBuffers, ReadFor;
    var queue := Queue(s.pfn);
    EntriesApart(s, i, k);
    EntryInRing(queue, s.num, UsedIndexAt(s, i));
    assert GoodChain(s, k);
    var e := UsedEntry(queue, s.num, UsedIndexAt(s, i));
    forall a: nat | e <= a < e + 8 ensures m'[a] == m[a] {
      assert InUsedRing(queue, s.num, a);
      assert !InBuffers(ChainAt(s, k), a);
    }
    LeAtSame(m, m', e, 4);
    LeAtSame(m, m', e + 4, 4);
  }

  lemma EntriesApart(s: State, i: nat, k: nat)
    requires GoodRing(s) && i < k < i + s.num
    ensures var queue, num := Queue(s.pfn), s.num;
      var e, f := UsedEntry(queue, num, UsedIndexAt(s, i)), UsedEntry(queue, num, UsedIndexAt(s, k));
      e + 8 <= f || f + 8 <= e
  {
    hide UsedBase, LeAt;
    SlotsDiffer(s.num, LeAt(s.world.mem, UsedBase(Queue(s.pfn), s.num) + 2, 2), i, k);
  }

  lemma StaysDelivered(s: State, n: nat, k: nat, i: nat, m: seq<byte>, m': seq<byte>)
    requires GoodBatch(s, n) && i < k < n && |m| == |m'| == |s.world.mem|
    requires DeliveredAt(s, n, i, m)
    requires StepFrames(s, k, m, m')
    ensures DeliveredAt(s, n, i, m')
  {
    hide UsedBase, LeAt, ReplyTo, ChainAt, HeadAt, ReadFor, InUsedRing, UsedEntry;
    var queue, c := Queue(s.pfn), ChainAt(s, i);
    assert GoodChain(s, i) && Apart(s, i, k);
    forall a: nat | a < |m| && InBuffers(c, a) ensures m'[a] == m[a] {
      BufferUnwritten(s, c, UsedIndexAt(s, k), ChainAt(s, k), a);
    }
    var reply := ReplyTo(s.world.disk, Requests(s, n), i);
    assert InBuffers(c, c.status);
    if c.kind == 0 {
      ReplyFits(s, n, i);
      SliceSame(m, m', c, |reply.data|);
    }
  }

  lemma SliceSame(m: seq<byte>, m': seq<byte>, c: Chain, len: nat)
    requires |m| == |m'| && c.kind == 0 && len <= c.len && c.addr + len <= |m|
    requires forall a: nat :: a < |m| && InBuffers(c, a) ==> m'[a] == m[a]
    ensures m'[c.addr..c.addr + len] == m[c.addr..c.addr + len]
  {
    forall a: nat | c.addr <= a < c.addr + len ensures m'[a] == m[a] {
      assert InBuffers(c, a);
    }
  }

  lemma BufferUnwritten(s: State, c: Chain, index: nat, other: Chain, a: nat)
    requires s.num > 0 && OffRings(s, c) && InBuffers(c, a) && !InBuffers(other, a)
    ensures !Written(Queue(s.pfn), s.num, index, other, a)
  {
    hide UsedBase;
    EntryInRing(Queue(s.pfn), s.num, index);
  }

  lemma ReplyFits(s: State, n: nat, i: nat)
    requires i < n && ChainAt(s, i).kind == 0
    ensures |ReplyTo(s.world.disk, Requests(s, n), i).data| <= ChainAt(s, i).len
  {
    hide ServeAll, ChainAt;
    assert Requests(s, n)[i] == RequestOf(s.world.mem, ChainAt(s, i));
  }

  lemma {:induction false} BatchSteps(s: State, n: nat, k: nat)
    requires GoodBatch(s, n) && k <= n
    ensures Progress(s, n, k, Steps(s, k))
    ensures forall i: nat :: i < k ==> Step(Steps(s, i)).1.Ok?
    decreases k
  {
    hide Step, GoodChain, Apart, UsedBase, LeAt, ListedAt, DeliveredAt, Requests;
    if k > 0 {
      BatchSteps(s, n, k - 1);
      BatchStep(s, n, k - 1, Steps(s, k - 1));
      StepsSnoc(s, k - 1);
    } else {
      assert Requests(s, n)[..0] == [];
      assert s.last == (s.last + 0) % U16;
      BatchStart(s);
    }
  }

  lemma BatchStart(s: State)
    requires GoodRing(s)
    ensures LeAt(s.world.mem, UsedBase(Queue(s.pfn), s.num) + 2, 2) == UsedIndexAt(s, 0)
  {
    hide UsedBase;
    LeAtBound(s.world.mem, UsedBase(Queue(s.pfn), s.num) + 2, 2);
  }

  /**
   * Refinement and completion. Over a good batch a notification succeeds; the disk ends as the left
   * fold of the queued requests; every buffer and status byte shows its own request's reply; the used
   * ring lists every head with its length, in available-ring order from the old index on, none
   * overwritten, whether or not either index wraps; and every other byte of memory is as it was, the
   * ring's flags and its unused entries included.
   */
  lemma QueueRefinesDisk(s: State)
    requires QueueReady(s) && AvailIndex(s).Ok?
    requires GoodBatch(s, Remaining(s.last, AvailIndex(s).value))
    ensures var n := Remaining(s.last, AvailIndex(s).value);
      && ProcessQueue(s).1.Ok?
      && ProcessQueue(s).0.last == AvailIndex(s).value
      && Progress(s, n, n, ProcessQueue(s).0)
  {
    hide Step, GoodBatch, Progress;
    LeAtBound(s.world.mem, AvailBase(Queue(s.pfn)) + 2, 2);
    var n := Remaining(s.last, AvailIndex(s).value);
    BatchSteps(s, n, n);
    OkCountIs(s, n);
    DrainPrefix(s, AvailIndex(s).value);
  }

  // ---- What the fold promises the guest ----

  ghost predicate Misses(r: Request, offset: nat, len: nat) {
    r.Put? ==> offset + len <= r.offset || r.offset + |r.data| <= offset
  }

  lemma {:induction false} WriteSurvives(disk: seq<byte>, rs: seq<Request>, i: nat, j: nat)
    requires i < j <= |rs| && rs[i].Put? && rs[i].data != []
    requires forall k: nat :: i < k < j ==> Misses(rs[k], rs[i].offset, |rs[i].data|)
    ensures rs[i].offset + |rs[i].data| <= |ServeAll(disk, rs[..j])|
    ensures DiskRead(ServeAll(disk, rs[..j]), rs[i].offset, |rs[i].data|) == rs[i].data
    decreases j
  {
    hide DiskRead, DiskWrite;
    PrefixReply(disk, rs, j - 1);
    if j == i + 1 {
      WriteThenRead(ServeAll(disk, rs[..i]), rs[i].offset, rs[i].data);
      WriteGrows(ServeAll(disk, rs[..i]), rs[i].offset, rs[i].data);
    } else {
      WriteSurvives(disk, rs, i, j - 1);
      var d := ServeAll(disk, rs[..j - 1]);
      if rs[j - 1].Put? {
        WriteElsewhere(d, rs[j - 1].offset, rs[j - 1].data, rs[i].offset, |rs[i].data|);
        WriteGrows(d, rs[j - 1].offset, rs[j - 1].data);
      }
    }
  }

  lemma WriteGrows(disk: seq<byte>, offset: nat, data: seq<byte>)
    ensures |disk| <= |DiskWrite(disk, offset, data)|
    ensures data != [] ==> offset + |data| <= |DiskWrite(disk, offset, data)|
  {
  }

  /** A guest reads back what it wrote earlier in the same batch, unless a request between them wrote there. */
  lemma BatchReadsItsWrites(s: State, i: nat, j: nat)
    requires QueueReady(s) && AvailIndex(s).Ok?
    requires GoodBatch(s, Remaining(s.last, AvailIndex(s).value))
    requires i < j < Remaining(s.last, AvailIndex(s).value)
    requires ChainAt(s, i).kind == 1 && ChainAt(s, j).kind == 0
    requires 0 < ChainAt(s, i).len == ChainAt(s, j).len && Offset(ChainAt(s, i)) == Offset(ChainAt(s, j))
    requires forall k: nat :: i < k < j ==>
      Misses(RequestOf(s.world.mem, ChainAt(s, k)), Offset(ChainAt(s, i)), ChainAt(s, i).len)
    ensures var mem := ProcessQueue(s).0.world.mem;
      var (put, got) := (ChainAt(s, i), ChainAt(s, j));
      && |mem| == |s.world.mem| && put.addr + put.len <= |mem| && got.addr + got.len <= |mem|
      && mem[got.addr..got.addr + got.len] == s.world.mem[put.addr..put.addr + put.len]
  {
    hide ProcessQueue, ServeAll, ChainAt, AvailIndex, Requests, ReplyTo, GoodBatch, Offset, RequestOf, Misses;
    var n := Remaining(s.last, AvailIndex(s).value);
    BatchDelivers(s, i);
    BatchDelivers(s, j);
    FetchesItsPut(s, n, i, j);
  }

  /** What the batch theorem says of one request's buffers. */
  lemma BatchDelivers(s: State, i: nat)
    requires QueueReady(s) && AvailIndex(s).Ok?
    requires GoodBatch(s, Remaining(s.last, AvailIndex(s).value)) && i < Remaining(s.last, AvailIndex(s).value)
    ensures var mem := ProcessQueue(s).0.world.mem;
      && |mem| == |s.world.mem| && DeliveredAt(s, Remaining(s.last, AvailIndex(s).value), i, mem)
      && (ChainAt(s, i).kind <= 1 ==> ChainAt(s, i).addr + ChainAt(s, i).len <= |mem|)
  {
    hide ProcessQueue, AvailIndex, ChainAt, DeliveredAt, ListedAt, Requests, LeAt, UsedBase, Apart, OffRings;
    QueueRefinesDisk(s);
    assert GoodChain(s, i);
  }

  lemma FetchesItsPut(s: State, n: nat, i: nat, j: nat)
    requires i < j < n && ChainAt(s, i).kind == 1 && ChainAt(s, j).kind == 0
    requires ChainAt(s, i).addr + ChainAt(s, i).len <= |s.world.mem|
    requires 0 < ChainAt(s, i).len == ChainAt(s, j).len && Offset(ChainAt(s, i)) == Offset(ChainAt(s, j))
    requires forall k: nat :: i < k < j ==>
      Misses(RequestOf(s.world.mem, ChainAt(s, k)), Offset(ChainAt(s, i)), ChainAt(s, i).len)
    ensures var put := ChainAt(s, i);
      ReplyTo(s.world.disk, Requests(s, n), j).data == s.world.mem[put.addr..put.addr + put.len]
  {
    hide ServeAll, DiskRead, ChainAt, Offset;
    var rs := Requests(s, n);
    assert rs[i] == RequestOf(s.world.mem, ChainAt(s, i)) && rs[j] == RequestOf(s.world.mem, ChainAt(s, j));
    forall k: nat | i < k < j ensures Misses(rs[k], rs[i].offset, |rs[i].data|) {
      assert rs[k] == RequestOf(s.world.mem, ChainAt(s, k));
    }
    WriteSurvives(s.world.disk, rs, i, j);
  }
}
