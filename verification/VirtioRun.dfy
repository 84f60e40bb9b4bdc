// Whole runs of the VMM loop: guest stores and register writes in any order.
module VirtioRun {
  import opened Constants
  import opened Bytes
  import opened Results
  import opened GuestRam
  import opened VirtioSpec
  import opened VirtioFrame
  import opened VirtioQueue
  import opened VirtioDevice

  /** What the VMM sees between two turns of its loop. */
  datatype Event =
    | GuestStore(addr: nat, data: seq<byte>)   // the guest writes its own RAM
    | MmioWrite(addr: nat, data: seq<byte>)
    | Stop                                     // halt, shutdown, exception or a failed run
    | Other                                    // MMIO reads and port I/O: no effect on the device

  /** Applies one exit; `false` ends the run. */
  function OnEvent(s: State, e: Event): (State, bool)
    requires s.last < U16
  {
    match e
    case GuestStore(addr, data) => (s.(world := s.world.(mem := WriteMem(s.world.mem, addr, data).0)), true)
    case MmioWrite(addr, data) =>
      if MMIO_START <= addr < MMIO_START + MMIO_SIZE then
        var (s', r) := WriteRegister(s, addr - MMIO_START, Le(data));
        (s', r.Ok?)
      else (s, true)
    case Stop => (s, false)
    case Other => (s, true)
  }

  /** The write makes the device walk its queue. */
  predicate Notifies(s: State, e: Event) {
    e.MmioWrite? && e.addr == MMIO_START + 0x50 && Le(e.data) == 0 && s.pfn != 0 && AvailIndex(s).Ok?
  }

  /** The state when the loop ends, or when the events run out. */
  function Run(s: State, events: seq<Event>): State
    requires ValidState(s)
    decreases |events|
  {
    if events == [] then s else
    var (s', running) := OnEvent(s, events[0]);
    EventKeeps(s, events[0]);
    if running then Run(s', events[1..]) else s'
  }

  lemma EventKeeps(s: State, e: Event)
    requires ValidState(s)
    ensures ValidState(OnEvent(s, e).0) && |OnEvent(s, e).0.world.mem| == |s.world.mem|
  {
    hide Drain;
    var av := AvailIndex(s);
    if av.Ok? {
      LeAtBound(s.world.mem, AvailBase(Queue(s.pfn)) + 2, 2);
      DrainKeeps(s, av.value);
    }
  }

  lemma DrainKeeps(s: State, target: nat)
    requires ValidState(s) && target < U16
    ensures var s' := Drain(s, target).0;
      && ValidState(s') && s'.num == s.num && s'.pfn == s.pfn && s'.status == s.status
      && |s'.world.mem| == |s.world.mem|
  {
    hide Step, ValidState;
    var k := OkCount(s, Remaining(s.last, target));
    DrainPrefix(s, target);
    StepsSnoc(s, k);
    StepsKeep(s, k);
    StepsKeep(s, k + 1);
  }

  // ---- Lock-step of the two indices ----

  ghost predicate IndexInRam(s: State) {
    UsedBase(Queue(s.pfn), s.num) + 4 <= |s.world.mem|
  }

  /** The device's used-ring index. */
  ghost function UsedIndex(s: State): nat
    requires IndexInRam(s)
  {
    LeAt(s.world.mem, UsedBase(Queue(s.pfn), s.num) + 2, 2)
  }

  /** How far the used index runs ahead of the consumed index. */
  ghost function Gap(s: State): nat
    requires IndexInRam(s)
  {
    (UsedIndex(s) + U16 - s.last % U16) % U16
  }

  ghost predicate OnIndex(s: State, a: nat) {
    UsedBase(Queue(s.pfn), s.num) + 2 <= a < UsedBase(Queue(s.pfn), s.num) + 4
  }

  /** The next request has no buffer over the used index. */
  ghost predicate SparesIndex(s: State) {
    NextChain(s).Ok? ==> forall a: nat :: OnIndex(s, a) ==> !InBuffers(NextChain(s).value, a)
  }

  lemma RequestIndex(w: World, queue: nat, num: nat, head: nat)
    requires QueueOk(queue, num) && head < U16
    requires UsedBase(queue, num) + 4 <= |w.mem|
    requires Validate(w.mem, queue, num, head).Ok? ==>
      forall a: nat :: UsedBase(queue, num) + 2 <= a < UsedBase(queue, num) + 4
        ==> !InBuffers(Validate(w.mem, queue, num, head).value, a)
    ensures var (w', r) := ProcessRequest(w, queue, num, head);
      && |w'.mem| == |w.mem|
      && var index := LeAt(w.mem, UsedBase(queue, num) + 2, 2);
      LeAt(w'.mem, UsedBase(queue, num) + 2, 2) == if r.Ok? then (index + 1) % U16 else index
  {
    hide Validate, Transfer, Publish, AlignUp, LeAt;
    var v := Validate(w.mem, queue, num, head);
    if v.Ok? {
      var c := v.value;
      var (w', r) := Transfer(w, c);
      forall a: nat | UsedBase(queue, num) + 2 <= a < UsedBase(queue, num) + 4
        ensures |w'.mem| == |w.mem| && w'.mem[a] == w.mem[a]
      {
        assert !InBuffers(c, a);
        TransferFrame(w, c, a);
      }
      TransferFrame(w, c, 0);
      LeAtSame(w.mem, w'.mem, UsedBase(queue, num) + 2, 2);
      if r.Ok? {
        var m1 := WriteMem(w'.mem, c.status, [r.value]).0;
        assert InBuffers(c, c.status);
        LeAtSame(w'.mem, m1, UsedBase(queue, num) + 2, 2);
        ChainBounds(w.mem, queue, num, head);
        PublishEffect(m1, queue, num, head, c.len);
      }
    }
  }

  lemma BothAdvance(u: nat, l: nat)
    requires u < U16 && l < U16
    ensures ((u + 1) % U16 + U16 - (l + 1) % U16 % U16) % U16 == (u + U16 - l % U16) % U16
  {
  }

  lemma StepIndex(s: State)
    requires ValidState(s) && IndexInRam(s) && SparesIndex(s)
    ensures IndexInRam(Step(s).0)
    ensures UsedIndex(Step(s).0) == if Step(s).1.Ok? then (UsedIndex(s) + 1) % U16 else UsedIndex(s)
  {
    hide Validate, ProcessRequest, UsedBase, LeAt, InBuffers;
    StepKeeps(s);
    if s.num > 0 && Head(s).Ok? {
      LeAtBound(s.world.mem, AvailEntry(Queue(s.pfn), s.num, s.last), 2);
      RequestIndex(s.world, Queue(s.pfn), s.num, Head(s).value);
    }
  }

  /** A turn moves both indices by one when it succeeds, and neither when it fails. */
  lemma StepGap(s: State)
    requires ValidState(s) && IndexInRam(s) && SparesIndex(s)
    ensures var (s', r) := Step(s);
      && IndexInRam(s') && Gap(s') == Gap(s)
      && UsedIndex(s') == (if r.Ok? then (UsedIndex(s) + 1) % U16 else UsedIndex(s))
      && s'.last == (if r.Ok? then (s.last + 1) % U16 else s.last)
  {
    hide Step, UsedBase, LeAt, SparesIndex, NextChain;
    StepKeeps(s);
    StepIndex(s);
    LeAtBound(s.world.mem, UsedBase(Queue(s.pfn), s.num) + 2, 2);
    BothAdvance(UsedIndex(s), s.last);
  }

  ghost predicate DrainSparesIndex(s: State, target: nat) {
    forall k: nat {:trigger Steps(s, k)} :: k < Remaining(s.last, target) ==> SparesIndex(Steps(s, k))
  }

  lemma {:induction false} StepsGap(s: State, n: nat, k: nat)
    requires ValidState(s) && IndexInRam(s) && k <= n
    requires forall i: nat {:trigger Steps(s, i)} :: i < n ==> SparesIndex(Steps(s, i))
    ensures IndexInRam(Steps(s, k)) && Gap(Steps(s, k)) == Gap(s)
    decreases k
  {
    hide Step, SparesIndex, ValidState, IndexInRam, Gap;
    if k > 0 {
      StepsGap(s, n, k - 1);
      StepsKeep(s, k - 1);
      StepsSnoc(s, k - 1);
      StepGap(Steps(s, k - 1));
    }
  }

  /** What a run must respect: queue registers are left as they are and nothing lands on the used index. */
  ghost predicate Quiet(s: State, e: Event)
    requires ValidState(s)
  {
    match e
    case GuestStore(addr, data) => forall a: nat :: addr <= a < addr + |data| ==> !OnIndex(s, a)
    case MmioWrite(addr, data) =>
      && OnEvent(s, e).0.num == s.num && OnEvent(s, e).0.pfn == s.pfn
      && (Notifies(s, e) ==> DrainSparesIndex(s, AvailIndex(s).value))
    case _ => true
  }

  ghost predicate QuietRun(s: State, events: seq<Event>)
    requires ValidState(s)
    decreases |events|
  {
    events == [] ||
    (Quiet(s, events[0]) &&
     (EventKeeps(s, events[0]); OnEvent(s, events[0]).1 ==> QuietRun(OnEvent(s, events[0]).0, events[1..])))
  }

  lemma StoreGap(s: State, addr: nat, data: seq<byte>)
    requires ValidState(s) && IndexInRam(s) && Quiet(s, GuestStore(addr, data))
    ensures var s' := s.(world := s.world.(mem := WriteMem(s.world.mem, addr, data).0));
      IndexInRam(s') && Gap(s') == Gap(s)
  {
    hide UsedBase;
    var used := UsedBase(Queue(s.pfn), s.num);
    assert !(addr <= used + 2 < addr + |data|) by { assert OnIndex(s, used + 2); }
    assert !(addr <= used + 3 < addr + |data|) by { assert OnIndex(s, used + 3); }
    LeAtSame(s.world.mem, WriteMem(s.world.mem, addr, data).0, used + 2, 2);
  }

  lemma EventGap(s: State, e: Event)
    requires ValidState(s) && IndexInRam(s) && Quiet(s, e)
    ensures IndexInRam(OnEvent(s, e).0) && Gap(OnEvent(s, e).0) == Gap(s)
  {
    hide Drain, LeAt, DrainSparesIndex, UsedBase, WriteMem, Le;
    match e
    case GuestStore(addr, data) =>
      StoreGap(s, addr, data);
    case MmioWrite(addr, data) =>
      if Notifies(s, e) {
        LeAtBound(s.world.mem, AvailBase(Queue(s.pfn)) + 2, 2);
        DrainGap(s, AvailIndex(s).value);
      }
    case _ =>
  }

  lemma DrainGap(s: State, target: nat)
    requires ValidState(s) && IndexInRam(s) && target < U16 && DrainSparesIndex(s, target)
    ensures IndexInRam(Drain(s, target).0) && Gap(Drain(s, target).0) == Gap(s)
  {
    hide Step, SparesIndex, IndexInRam, Gap;
    var n := Remaining(s.last, target);
    var k := OkCount(s, n);
    DrainPrefix(s, target);
    StepsSnoc(s, k);
    StepsGap(s, n, if k == n then n else k + 1);
  }

  /** Lock-step: no trace, whatever fails in it, changes the distance between the two indices. */
  lemma {:induction false} LockStep(s: State, events: seq<Event>)
    requires ValidState(s) && IndexInRam(s) && QuietRun(s, events)
    ensures IndexInRam(Run(s, events)) && Gap(Run(s, events)) == Gap(s)
    decreases |events|
  {
    hide OnEvent, Quiet, IndexInRam, Gap;
    if events != [] {
      EventKeeps(s, events[0]);
      EventGap(s, events[0]);
      if OnEvent(s, events[0]).1 {
        LockStep(OnEvent(s, events[0]).0, events[1..]);
      }
    }
  }

  /**
   * A register write brings the VMM down exactly when it notifies a configured queue of size zero that has
   * an entry outstanding; every other failure is survived.
   */
  lemma NotifyPanicsIff(s: State, offset: nat, value: nat)
    requires ValidState(s)
    ensures WriteRegister(s, offset, value).1.Err? <==>
      && offset == 0x50 && value == 0 && s.pfn != 0 && s.num == 0
      && AvailIndex(s).Ok? && AvailIndex(s).value != s.last
  {
    hide Step, Drain, LeAt;
    if AvailIndex(s).Ok? {
      IndexBound(s);
      DrainPanicsIff(s, AvailIndex(s).value);
    }
  }

  lemma IndexBound(s: State)
    requires AvailIndex(s).Ok?
    ensures AvailIndex(s).value < U16
  {
    LeAtBound(s.world.mem, AvailBase(Queue(s.pfn)) + 2, 2);
  }

  lemma {:induction false} DrainPanicsIff(s: State, target: nat)
    requires ValidState(s) && target < U16
    ensures Drain(s, target).1 == Err(Panicked) <==> s.num == 0 && s.last != target
    decreases Remaining(s.last, target)
  {
    hide Step, NextChain;
    if s.last != target {
      StepKeeps(s);
      hide ValidState;
      if Step(s).1.Ok? {
        RemainingShrinks(s.last, target);
        DrainPanicsIff(Step(s).0, target);
      }
    }
  }

  // ---- The loop itself ----

  /** `VirtualMachine::run` over the exits the vCPU produces: stops at a stop exit or a panic. */
  method RunLoop(device: VirtioBlock, memory: GuestMemory, exits: seq<Event>)
    requires device.Valid(memory) && forall e :: e in exits ==> Plausible(e)
    modifies device, device.disk, memory.bytes
    ensures device.Valid(memory)
    ensures ValidState(old(device.Snapshot(memory)))
    ensures device.Snapshot(memory) == Run(old(device.Snapshot(memory)), exits)
  {
    hide WriteRegister;
    var i, running := 0, true;
    while running && i < |exits|
      invariant i <= |exits| && device.Valid(memory)
      invariant ValidState(device.Snapshot(memory)) && ValidState(old(device.Snapshot(memory)))
      invariant Run(old(device.Snapshot(memory)), exits) ==
        if running then Run(device.Snapshot(memory), exits[i..]) else device.Snapshot(memory)
    {
      ghost var s := device.Snapshot(memory);
      EventKeeps(s, exits[i]);
      assert exits[i..][0] == exits[i] && exits[i..][1..] == exits[i + 1..];
      assert Plausible(exits[i]);
      match exits[i] {
        case GuestStore(addr, data) =>
          var stored := memory.WriteGuest(addr, data);
        case MmioWrite(addr, data) =>
          if MMIO_START <= addr < MMIO_START + MMIO_SIZE {
            var r := device.Write(memory, addr - MMIO_START, Le(data));
            running := r.Ok?;
          }
        case Stop => running := false;
        case Other =>
      }
      assert (device.Snapshot(memory), running) == OnEvent(s, exits[i]);
      i := i + 1;
    }
  }

  /** Addresses fit 64 bits and an access is at most eight bytes wide. */
  ghost predicate Plausible(e: Event) {
    match e
    case GuestStore(addr, data) => addr < U64 && |data| < U64
    case MmioWrite(addr, data) => addr < U64 && |data| <= 8
    case _ => true
  }
}
