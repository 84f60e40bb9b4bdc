// What one queue notification means: the split virtqueue walked by the block
// device (crates/vmm), as functions of guest memory, disk and device registers.
// Integer arithmetic is 64-bit and wraps, as in the release profile.
module VirtioSpec {
  import opened Bytes
  import opened Bits
  import opened Results
  import opened GuestRam
  import opened Disk

  const DESC_NEXT: nat := 1
  const DESC_WRITE: nat := 2
  const MAX_QUEUE: nat := 128

  datatype World = World(mem: seq<byte>, disk: seq<byte>)

  /** The three descriptors of one request, as read from guest memory. */
  datatype Chain = Chain(header: nat, next: nat, kind: nat, sector: nat,
                         addr: nat, len: nat, flags: nat, statusNext: nat, status: nat)

  /** The device registers together with everything the device can change. */
  datatype State = State(world: World, num: nat, pfn: nat, status: nat, last: nat)

  ghost predicate ValidState(s: State) {
    s.num <= MAX_QUEUE && s.pfn < U32 && s.status < U32 && s.last < U16 && |s.world.mem| < MAX_REGION
  }

  function AlignUp(value: nat, alignment: nat): nat
    requires 0 < alignment <= U64
  {
    And(Add64(value, alignment - 1), U64 - 1 - (alignment - 1))
  }

  function Queue(pfn: nat): nat {
    pfn * 4096
  }

  /** Where the device reads the available ring: the queue page itself, not after the descriptor table. */
  function AvailBase(queue: nat): nat {
    queue
  }

  function AvailEntry(queue: nat, num: nat, index: nat): nat
    requires num > 0
  {
    AvailBase(queue) + 4 + (index % num) * 2
  }

  function UsedBase(queue: nat, num: nat): nat {
    AlignUp(queue + 16 * num + 4 + 2 * num, 4096)
  }

  function UsedEntry(queue: nat, num: nat, index: nat): nat
    requires num > 0
  {
    UsedBase(queue, num) + 4 + (index % num) * 8
  }

  function Desc(queue: nat, index: nat): nat {
    queue + index * 16
  }

  /** Reads and checks one chain without changing anything. */
  function Validate(mem: seq<byte>, queue: nat, num: nat, head: nat): Result<Chain> {
    var header :- ReadLe(mem, Desc(queue, head), 8);
    var headerFlags :- ReadLe(mem, Desc(queue, head) + 12, 2);
    var next :- ReadLe(mem, Desc(queue, head) + 14, 2);
    if And(headerFlags, DESC_NEXT) == 0 then Err(NoDataDescriptor) else
    var kind :- ReadLe(mem, header, 4);
    var sector :- ReadLe(mem, Add64(header, 8), 8);
    var addr :- ReadLe(mem, Desc(queue, next), 8);
    var len :- ReadLe(mem, Desc(queue, next) + 8, 4);
    var flags :- ReadLe(mem, Desc(queue, next) + 12, 2);
    var statusNext :- ReadLe(mem, Desc(queue, next) + 14, 2);
    if And(flags, DESC_NEXT) == 0 || statusNext >= num then Err(InvalidStatusDescriptor) else
    var status :- ReadLe(mem, Desc(queue, statusNext), 8);
    if status == 0 then Err(NullStatusAddress)
    else if kind == 0 && And(flags, DESC_WRITE) == 0 then Err(ReadBufferNotWritable)
    else if kind == 1 && And(flags, DESC_WRITE) != 0 then Err(WriteBufferNotReadable)
    else Ok(Chain(header, next, kind, sector, addr, len, flags, statusNext, status))
  }

  function Offset(c: Chain): nat {
    Mul64(c.sector, SECTOR_SIZE)
  }

  /** The disk transfer of a validated chain, with the status byte it reports. */
  function Transfer(w: World, c: Chain): (World, Result<byte>) {
    if c.kind == 0 then
      if !HostAccepts(Offset(c), c.len) then (w, Err(HostIo)) else
      var (mem, r) := WriteMem(w.mem, c.addr, DiskRead(w.disk, Offset(c), c.len));
      if r.Err? then (w, Err(r.error)) else (w.(mem := mem), Ok(0))
    else if c.kind == 1 then
      if !InRange(w.mem, c.addr, c.len) then (w, Err(GuestAddressOutOfRange(c.addr)))
      else if !HostAccepts(Offset(c), c.len) then (w, Err(HostIo))
      else (w.(disk := DiskWrite(w.disk, Offset(c), w.mem[c.addr..c.addr + c.len])), Ok(0))
    else
      (w, Ok(1))
  }

  /** Appends `(head, len)` to the used ring; the index is advanced last. */
  function Publish(mem: seq<byte>, queue: nat, num: nat, head: nat, len: nat): (seq<byte>, Result<Unit>)
    requires num > 0
  {
    var used := UsedBase(queue, num);
    match ReadLe(mem, used + 2, 2)
    case Err(e) => (mem, Err(e))
    case Ok(index) =>
      var entry := UsedEntry(queue, num, index);
      var (m1, r1) := WriteMem(mem, entry, ToLe(head, 4));
      if r1.Err? then (m1, r1) else
      var (m2, r2) := WriteMem(m1, entry + 4, ToLe(len, 4));
      if r2.Err? then (m2, r2) else
      WriteMem(m2, used + 2, ToLe((index + 1) % U16, 2))
  }

  function Complete(w: World, queue: nat, num: nat, head: nat, c: Chain, code: byte): (World, Result<Unit>)
    requires num > 0
  {
    var (m1, r1) := WriteMem(w.mem, c.status, [code]);
    if r1.Err? then (w, r1) else
    var (m2, r2) := Publish(m1, queue, num, head, c.len);
    (w.(mem := m2), r2)
  }

  function ProcessRequest(w: World, queue: nat, num: nat, head: nat): (World, Result<Unit>)
    requires num > 0
  {
    match Validate(w.mem, queue, num, head)
    case Err(e) => (w, Err(e))
    case Ok(c) =>
      var (w', r) := Transfer(w, c);
      match r
      case Err(e) => (w', Err(e))
      case Ok(code) => Complete(w', queue, num, head, c, code)
  }

  function Head(s: State): Result<nat>
    requires s.num > 0
  {
    ReadLe(s.world.mem, AvailEntry(Queue(s.pfn), s.num, s.last), 2)
  }

  /** One turn of the queue loop. A queue size of zero panics in `last_avail % queue_num`. */
  function Step(s: State): (State, Result<Unit>) {
    if s.num == 0 then (s, Err(Panicked)) else
    match Head(s)
    case Err(e) => (s, Err(e))
    case Ok(head) =>
      var (w, r) := ProcessRequest(s.world, Queue(s.pfn), s.num, head);
      (s.(world := w, last := if r.Ok? then (s.last + 1) % U16 else s.last), r)
  }

  /** How many turns separate `last_avail` from the driver's index. */
  function Remaining(last: nat, target: nat): nat {
    (target + U16 - last % U16) % U16
  }

  lemma RemainingShrinks(last: nat, target: nat)
    requires last < U16 && target < U16 && last != target
    ensures Remaining((last + 1) % U16, target) == Remaining(last, target) - 1
  {
  }

  function Drain(s: State, target: nat): (State, Result<Unit>)
    requires s.last < U16 && target < U16
    decreases Remaining(s.last, target)
  {
    hide ProcessRequest;
    if s.last == target then (s, Ok(Unit)) else
    var (s', r) := Step(s);
    if r.Err? then (s', r) else
    RemainingShrinks(s.last, target);
    Drain(s', target)
  }

  lemma TurnIs(s: State, head: nat)
    requires s.num > 0 && s.last < U16 && ReadLe(s.world.mem, AvailEntry(Queue(s.pfn), s.num, s.last), 2) == Ok(head)
    ensures var (w, r) := ProcessRequest(s.world, Queue(s.pfn), s.num, head);
      Step(s) == (s.(world := w, last := if r.Ok? then (s.last + 1) % U16 else s.last), r)
  {
    hide ProcessRequest, ReadLe;
  }

  lemma TurnFails(s: State)
    ensures s.last < U16 ==> Step(s).0.last < U16
    ensures s.num == 0 ==> Step(s) == (s, Err(Panicked))
    ensures s.num > 0 && Head(s).Err? ==> Step(s) == (s, Err(Head(s).error))
  {
    hide ProcessRequest, ReadLe;
  }

  lemma DrainDone(s: State)
    requires s.last < U16
    ensures Drain(s, s.last) == (s, Ok(Unit))
  {
  }

  lemma DrainTurn(s: State, target: nat)
    requires s.last < U16 && target < U16 && s.last != target && Step(s).0.last < U16
    ensures Drain(s, target) == if Step(s).1.Err? then Step(s) else Drain(Step(s).0, target)
  {
    hide Step;
  }

  function AvailIndex(s: State): Result<nat> {
    ReadLe(s.world.mem, AvailBase(Queue(s.pfn)) + 2, 2)
  }

  function ProcessQueue(s: State): (State, Result<Unit>)
    requires s.last < U16
  {
    match AvailIndex(s)
    case Err(e) => (s, Err(e))
    case Ok(target) =>
      LeAtBound(s.world.mem, AvailBase(Queue(s.pfn)) + 2, 2);
      Drain(s, target)
  }

  /** A write to a device register; `Err` is a panic, other failures are logged and dropped. */
  function WriteRegister(s: State, offset: nat, value: nat): (State, Result<Unit>)
    requires s.last < U16
  {
    match offset
    case 0x38 => (s.(num := if value % U16 < MAX_QUEUE then value % U16 else MAX_QUEUE), Ok(Unit))
    case 0x40 => (s.(pfn := value % U32), Ok(Unit))
    case 0x50 =>
      if value == 0 && s.pfn != 0 then
        var (s', r) := ProcessQueue(s);
        (s', if r == Err(Panicked) then r else Ok(Unit))
      else (s, Ok(Unit))
    case 0x60 => (s.(status := value % U32), Ok(Unit))
    case _ => (s, Ok(Unit))
  }

  // ---- Placement of the rings ----

  /** The least multiple of `p` not below `value`, as x + p - 1 rounded down. */
  function RoundedUp(value: nat, p: nat): nat
    requires p > 0
  {
    value + p - 1 - (value + p - 1) % p
  }

  lemma RoundUp(value: nat, p: nat, m: nat)
    requires p > 0
    ensures RoundedUp(value, p) % p == 0 && value <= RoundedUp(value, p) < value + p
    ensures m % p == 0 && value <= m ==> RoundedUp(value, p) <= m
  {
    var x := value + p - 1;
    var up := x - x % p;
    ModIs(up, p, x / p, 0);
    if m % p == 0 && value <= m < up {
      assert up - m == p * (x / p - m / p);
      MulMono(p, x / p - m / p);
      assert false;
    }
  }

  lemma AlignUpRounds(value: nat, k: nat)
    requires k < 64 && value + Pow2(k) - 1 < U64
    ensures Pow2(k) < U64 && AlignUp(value, Pow2(k)) == RoundedUp(value, Pow2(k))
  {
    Pow2Below64(k);
    hide And, Pow2, AlignUp;
    Pow2Values();
    AndHighMask(value + Pow2(k) - 1, k, 64);
    AlignUpIs(value, Pow2(k));
  }

  /** `align_up` is the least multiple of a power of two not below its argument, short of overflow. */
  lemma AlignUpLeast(value: nat, k: nat, m: nat)
    requires k < 64 && value + Pow2(k) - 1 < U64
    ensures Pow2(k) < U64
    ensures AlignUp(value, Pow2(k)) % Pow2(k) == 0
    ensures value <= AlignUp(value, Pow2(k)) < value + Pow2(k)
    ensures m % Pow2(k) == 0 && value <= m ==> AlignUp(value, Pow2(k)) <= m
  {
    hide Pow2, AlignUp, RoundedUp;
    AlignUpRounds(value, k);
    RoundUp(value, Pow2(k), m);
  }

  lemma Pow2Below64(k: nat)
    requires k < 64
    ensures Pow2(k) < U64
  {
    Pow2Values();
    Pow2Monotone(k, 63);
    assert Pow2(64) == 2 * Pow2(63);
  }

  lemma AlignUpIs(value: nat, p: nat)
    requires 0 < p <= U64 && value + p - 1 < U64
    ensures AlignUp(value, p) == And(value + p - 1, U64 - p)
  {
    hide And;
  }

  /** The used ring starts on a page boundary past every descriptor and available-ring byte. */
  lemma UsedBaseBounds(queue: nat, num: nat)
    requires queue < U32 * 4096 && num <= MAX_QUEUE
    ensures UsedBase(queue, num) % 4096 == 0
    ensures queue + 18 * num + 4 <= UsedBase(queue, num) < queue + 18 * num + 4 + 4096
    ensures Desc(queue, num) <= UsedBase(queue, num)
    ensures AvailBase(queue) + 4 + 2 * num <= UsedBase(queue, num)
  {
    Pow2Values();
    AlignUpLeast(queue + 16 * num + 4 + 2 * num, 12, 0);
  }

  /** Every number in a validated chain fits the field it was read from. */
  lemma ChainBounds(mem: seq<byte>, queue: nat, num: nat, head: nat)
    requires Validate(mem, queue, num, head).Ok?
    ensures var c := Validate(mem, queue, num, head).value;
      && c.header < U64 && c.next < U16 && c.kind < U32 && c.sector < U64
      && c.addr < U64 && c.len < U32 && c.flags < U16 && c.statusNext < num && 0 < c.status < U64
  {
    var c := Validate(mem, queue, num, head).value;
    LeAtBound(mem, Desc(queue, head), 8);
    LeAtBound(mem, Desc(queue, head) + 14, 2);
    LeAtBound(mem, c.header, 4);
    LeAtBound(mem, Add64(c.header, 8), 8);
    LeAtBound(mem, Desc(queue, c.next), 8);
    LeAtBound(mem, Desc(queue, c.next) + 8, 4);
    LeAtBound(mem, Desc(queue, c.next) + 12, 2);
    LeAtBound(mem, Desc(queue, c.statusNext), 8);
  }
}
