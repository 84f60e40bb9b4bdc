// Whole runs in which every notification finds a good batch: the disk is the fold of all
// the batches in order, whatever the guest stores between them.
module VirtioRunBatch {
  import opened Bytes
  import opened Results
  import opened GuestRam
  import opened Disk
  import opened VirtioSpec
  import opened VirtioFrame
  import opened VirtioQueue
  import opened VirtioRun
  import opened VirtioBatch

  /** How many entries a notification takes off the ring. */
  ghost function Outstanding(s: State): nat {
    if AvailIndex(s).Ok? then Remaining(s.last, AvailIndex(s).value) else 0
  }

  /** The requests those entries name, as they stand in memory at the notification. */
  ghost function BatchOf(s: State, e: Event): seq<Request> {
    if Notifies(s, e) then Requests(s, Outstanding(s)) else []
  }

  /** All requests of a run, in the order of their notifications. */
  ghost function Batches(s: State, events: seq<Event>): seq<Request>
    requires ValidState(s)
    decreases |events|
  {
    if events == [] then [] else
    var (s', running) := OnEvent(s, events[0]);
    EventKeeps(s, events[0]);
    BatchOf(s, events[0]) + if running then Batches(s', events[1..]) else []
  }

  ghost predicate GoodEvent(s: State, e: Event) {
    Notifies(s, e) && Outstanding(s) > 0 ==> GoodBatch(s, Outstanding(s))
  }

  /** Every notification of the run finds a good batch, or nothing to do. */
  ghost predicate GoodRun(s: State, events: seq<Event>)
    requires ValidState(s)
    decreases |events|
  {
    events == [] ||
    (GoodEvent(s, events[0]) &&
     (EventKeeps(s, events[0]); OnEvent(s, events[0]).1 ==> GoodRun(OnEvent(s, events[0]).0, events[1..])))
  }

  // ---- Folds over concatenated lists ----

  lemma {:induction false} ServeAllAppend(disk: seq<byte>, a: seq<Request>, b: seq<Request>)
    ensures ServeAll(disk, a + b) == ServeAll(ServeAll(disk, a), b)
    decreases |b|
  {
    hide Serve;
    if b == [] {
      assert a + b == a;
    } else {
      var n := |b| - 1;
      assert (a + b)[..|a + b| - 1] == a + b[..n];
      ServeAllAppend(disk, a, b[..n]);
    }
  }

  lemma ReplyAppend(disk: seq<byte>, a: seq<Request>, b: seq<Request>, j: nat)
    requires j < |b|
    ensures ReplyTo(ServeAll(disk, a), b, j) == ReplyTo(disk, a + b, |a| + j)
  {
    hide Serve, ServeAll;
    assert (a + b)[..|a| + j] == a + b[..j];
    ServeAllAppend(disk, a, b[..j]);
  }

  // ---- One event ----

  lemma WrapAdd(l: nat, a: nat, b: nat)
    ensures ((l + a) % U16 + b) % U16 == (l + (a + b)) % U16
  {
  }

  lemma NothingOutstanding(s: State)
    requires ValidState(s) && AvailIndex(s).Ok? && Outstanding(s) == 0
    ensures ProcessQueue(s) == (s, Ok(Unit))
  {
    LeAtBound(s.world.mem, AvailBase(Queue(s.pfn)) + 2, 2);
    hide LeAt, Drain;
    NoneRemain(s.last, AvailIndex(s).value);
    DrainDone(s);
  }

  lemma AllRequests(s: State, n: nat)
    ensures |Requests(s, n)| == n && Requests(s, n)[..n] == Requests(s, n)
  {
  }

  lemma EmptyFold(disk: seq<byte>, s: State)
    ensures ServeAll(disk, Requests(s, 0)) == disk
  {
  }

  lemma NotifyIs(s: State, e: Event)
    requires s.last < U16 && Notifies(s, e) && ProcessQueue(s).1.Ok?
    ensures OnEvent(s, e) == (ProcessQueue(s).0, true)
  {
    hide ProcessQueue, AvailIndex;
  }

  lemma GoodIsReady(s: State, n: nat)
    requires GoodBatch(s, n)
    ensures QueueReady(s) && GoodRing(s)
  {
  }

  lemma ProgressIs(s: State, n: nat, t: State)
    requires GoodRing(s) && Progress(s, n, n, t)
    ensures t.world.disk == ServeAll(s.world.disk, Requests(s, n))
    ensures forall j: nat :: j < n ==> DeliveredAt(s, n, j, t.world.mem)
  {
    hide Requests, ServeAll, DeliveredAt, ListedAt, LeAt, UsedBase, WrittenBefore;
    AllRequests(s, n);
  }

  /** What a notification leaves, when it finds a good batch or nothing. */
  lemma NotifyServes(s: State, e: Event)
    requires ValidState(s) && Notifies(s, e) && GoodEvent(s, e)
    ensures OnEvent(s, e) == (ProcessQueue(s).0, true)
    ensures OnEvent(s, e).0.world.disk == ServeAll(s.world.disk, BatchOf(s, e))
    ensures OnEvent(s, e).0.last == (s.last + |BatchOf(s, e)|) % U16
    ensures forall j: nat :: j < Outstanding(s) ==> DeliveredAt(s, Outstanding(s), j, OnEvent(s, e).0.world.mem)
  {
    hide GoodBatch, AvailIndex, ServeAll, Requests, DeliveredAt, ProcessQueue, Progress, Remaining, OnEvent;
    var n := Outstanding(s);
    AllRequests(s, n);
    if n > 0 {
      GoodIsReady(s, n);
      QueueRefinesDisk(s);
      ProgressIs(s, n, ProcessQueue(s).0);
      LastMoves(s);
    } else {
      NothingOutstanding(s);
      EmptyFold(s.world.disk, s);
    }
    NotifyIs(s, e);
  }

  lemma LastMoves(s: State)
    requires s.last < U16 && AvailIndex(s).Ok?
    ensures AvailIndex(s).value == (s.last + Outstanding(s)) % U16
  {
    hide LeAt;
    IndexBound(s);
    LastOfAll(s.last, AvailIndex(s).value);
  }

  /** Any event of a good run moves the disk by its batch and the consumed index by its size; only a stop ends it. */
  lemma EventServes(s: State, e: Event)
    requires ValidState(s) && GoodEvent(s, e)
    ensures OnEvent(s, e).0.world.disk == ServeAll(s.world.disk, BatchOf(s, e))
    ensures OnEvent(s, e).0.last == (s.last + |BatchOf(s, e)|) % U16
    ensures OnEvent(s, e).1 <==> !e.Stop?
  {
    hide ProcessQueue, AvailIndex, WriteMem, Le;
    if Notifies(s, e) {
      NotifyServes(s, e);
    } else {
      NotNotified(s);
    }
  }

  lemma NotNotified(s: State)
    requires s.last < U16
    ensures AvailIndex(s).Err? ==> ProcessQueue(s) == (s, Err(AvailIndex(s).error)) && AvailIndex(s).error != Panicked
  {
  }

  // ---- Whole runs ----

  /**
   * Refinement over whole runs: the disk ends as the left fold of every batch in order, and the consumed index
   * has moved by the number of requests.
   */
  lemma {:induction false} RunRefinesDisk(s: State, events: seq<Event>)
    requires ValidState(s) && GoodRun(s, events)
    ensures Run(s, events).world.disk == ServeAll(s.world.disk, Batches(s, events))
    ensures Run(s, events).last == (s.last + |Batches(s, events)|) % U16
    decreases |events|
  {
    hide OnEvent, BatchOf, ServeAll, GoodEvent;
    if events == [] {
      EmptyFold(s.world.disk, s);
      AllRequests(s, 0);
    } else {
      var (e, s') := (events[0], OnEvent(s, events[0]).0);
      EventKeeps(s, e);
      EventServes(s, e);
      var here := BatchOf(s, e);
      if OnEvent(s, e).1 {
        var later := Batches(s', events[1..]);
        RunRefinesDisk(s', events[1..]);
        ServeAllAppend(s.world.disk, here, later);
        WrapAdd(s.last, |here|, |later|);
      } else {
        assert here + [] == here;
      }
    }
  }

  /** What one notification shows when the requests in `done` made its disk. */
  lemma NotifyDelivers(disk: seq<byte>, done: seq<Request>, t: State, e: Event, j: nat)
    requires ValidState(t) && GoodEvent(t, e) && j < |BatchOf(t, e)| && t.world.disk == ServeAll(disk, done)
    ensures Delivered(OnEvent(t, e).0.world.mem, ChainAt(t, j), ReplyTo(disk, done + BatchOf(t, e), |done| + j))
  {
    hide OnEvent, GoodEvent, ServeAll, ReplyTo, Delivered, Requests, Outstanding, Notifies;
    AllRequests(t, Outstanding(t));
    NotifyServes(t, e);
    ReplyAppend(disk, done, BatchOf(t, e), j);
    assert DeliveredAt(t, Outstanding(t), j, OnEvent(t, e).0.world.mem);
  }

  /**
   * Delivery over whole runs: a later notification shows each of its requests the reply it gets after all
   * requests before it, of its own batch and of every earlier one.
   */
  lemma RunDelivers(s: State, before: seq<Event>, e: Event, j: nat)
    requires ValidState(s) && GoodRun(s, before)
    requires var t := Run(s, before); ValidState(t) && GoodEvent(t, e) && j < |BatchOf(t, e)|
    ensures var t := Run(s, before);
      var done := Batches(s, before);
      Delivered(OnEvent(t, e).0.world.mem, ChainAt(t, j), ReplyTo(s.world.disk, done + BatchOf(t, e), |done| + j))
  {
    hide *;
    RunRefinesDisk(s, before);
    NotifyDelivers(s.world.disk, Batches(s, before), Run(s, before), e, j);
  }

  /** Request `at` reads exactly what request `i` wrote, and no request between them hits that range. */
  ghost predicate ReadsBack(rs: seq<Request>, i: nat, at: nat) {
    && i < at < |rs| && rs[i].Put? && rs[i].data != [] && rs[at] == Fetch(rs[i].offset, |rs[i].data|)
    && forall k: nat :: i < k < at ==> Misses(rs[k], rs[i].offset, |rs[i].data|)
  }

  lemma FetchShows(disk: seq<byte>, rs: seq<Request>, i: nat, at: nat, mem: seq<byte>, c: Chain)
    requires ReadsBack(rs, i, at) && c.kind == 0 && Delivered(mem, c, ReplyTo(disk, rs, at))
    ensures Holds(mem, c.addr, rs[i].data)
  {
    hide ServeAll, DiskRead;
    WriteSurvives(disk, rs, i, at);
  }

  lemma FetchKind(mem: seq<byte>, c: Chain)
    requires RequestOf(mem, c).Fetch?
    ensures c.kind == 0
  {
  }

  /** A guest reads back what it wrote under any earlier notification, unless a request between them wrote there. */
  lemma RunReadsItsWrites(s: State, before: seq<Event>, e: Event, i: nat, j: nat)
    requires ValidState(s) && GoodRun(s, before)
    requires var t := Run(s, before);
      && ValidState(t) && GoodEvent(t, e) && j < |BatchOf(t, e)|
      && ReadsBack(Batches(s, before) + BatchOf(t, e), i, |Batches(s, before)| + j)
    ensures var t := Run(s, before);
      var rs := Batches(s, before) + BatchOf(t, e);
      i < |rs| && rs[i].Put? && Holds(OnEvent(t, e).0.world.mem, ChainAt(t, j).addr, rs[i].data)
  {
    hide *;
    var t, done := Run(s, before), Batches(s, before);
    RunDelivers(s, before, e, j);
    BatchEntry(t, e, j);
    FetchFrom(t, done, BatchOf(t, e), i, j);
    ValidLast(t);
    FetchShows(s.world.disk, done + BatchOf(t, e), i, |done| + j, OnEvent(t, e).0.world.mem, ChainAt(t, j));
  }

  lemma FetchFrom(t: State, done: seq<Request>, batch: seq<Request>, i: nat, j: nat)
    requires j < |batch| && batch[j] == RequestOf(t.world.mem, ChainAt(t, j)) && ReadsBack(done + batch, i, |done| + j)
    ensures i < |done + batch| && (done + batch)[i].Put? && ChainAt(t, j).kind == 0
  {
    hide ChainAt, Misses;
    assert (done + batch)[|done| + j] == batch[j];
    FetchKind(t.world.mem, ChainAt(t, j));
  }

  lemma BatchEntry(t: State, e: Event, j: nat)
    requires j < |BatchOf(t, e)|
    ensures BatchOf(t, e)[j] == RequestOf(t.world.mem, ChainAt(t, j))
  {
    hide RequestOf, ChainAt, Outstanding, Notifies;
  }

  // ---- The used index over whole runs ----

  /** The queue registers stay as they are and the guest does not write the used index. */
  ghost predicate Steady(s: State, e: Event)
    requires ValidState(s)
  {
    match e
    case GuestStore(addr, data) => forall a: nat :: addr <= a < addr + |data| ==> !OnIndex(s, a)
    case MmioWrite(addr, data) => OnEvent(s, e).0.num == s.num && OnEvent(s, e).0.pfn == s.pfn
    case _ => true
  }

  ghost predicate SteadyRun(s: State, events: seq<Event>)
    requires ValidState(s)
    decreases |events|
  {
    events == [] ||
    (Steady(s, events[0]) &&
     (EventKeeps(s, events[0]); OnEvent(s, events[0]).1 ==> SteadyRun(OnEvent(s, events[0]).0, events[1..])))
  }

  /** The requests of a good batch keep off the used index. */
  lemma GoodSparesIndex(s: State, n: nat, k: nat)
    requires GoodBatch(s, n) && k < n
    ensures SparesIndex(Steps(s, k))
  {
    hide UsedBase, LeAt, ListedAt, DeliveredAt, Requests, ChainAt, HeadAt, InBuffers, NextChain, Steps, ReadsApart;
    BatchSteps(s, n, k);
    NextIsQueued(s, n, k, Steps(s, k));
    assert GoodChain(s, k);
  }

  lemma GoodIsQuiet(s: State, e: Event)
    requires ValidState(s) && Steady(s, e) && GoodEvent(s, e)
    ensures Quiet(s, e)
  {
    hide OnEvent, Notifies, SparesIndex, GoodBatch, AvailIndex, Remaining, Steps;
    if Notifies(s, e) {
      NotifyHasIndex(s, e);
      forall k: nat | k < Outstanding(s) ensures SparesIndex(Steps(s, k)) {
        GoodSparesIndex(s, Outstanding(s), k);
      }
    }
  }

  lemma NotifyHasIndex(s: State, e: Event)
    requires Notifies(s, e)
    ensures AvailIndex(s).Ok?
  {
  }

  lemma {:induction false} GoodRunIsQuiet(s: State, events: seq<Event>)
    requires ValidState(s) && SteadyRun(s, events) && GoodRun(s, events)
    ensures QuietRun(s, events)
    decreases |events|
  {
    hide OnEvent, Steady, Quiet, GoodEvent;
    if events != [] {
      EventKeeps(s, events[0]);
      GoodIsQuiet(s, events[0]);
      if OnEvent(s, events[0]).1 { GoodRunIsQuiet(OnEvent(s, events[0]).0, events[1..]); }
    }
  }

  lemma AheadBy(u: nat, l: nat)
    requires u < U16 && l < U16
    ensures u == (l + (u + U16 - l % U16) % U16) % U16
  {
  }

  lemma IndexFollows(u: nat, l: nat, u': nat, l': nat, n: nat)
    requires u < U16 && u' < U16 && l < U16 && l' == (l + n) % U16
    requires (u' + U16 - l' % U16) % U16 == (u + U16 - l % U16) % U16
    ensures u' == (u + n) % U16
  {
    var gap := (u + U16 - l % U16) % U16;
    AheadBy(u, l);
    AheadBy(u', l');
    WrapAdd(l, n, gap);
    WrapAdd(l, gap, n);
  }

  /** Completion over whole runs: the used index has moved by exactly the number of requests, modulo 2^16. */
  lemma RunCounts(s: State, events: seq<Event>)
    requires ValidState(s) && IndexInRam(s) && SteadyRun(s, events) && GoodRun(s, events)
    ensures IndexInRam(Run(s, events))
    ensures UsedIndex(Run(s, events)) == (UsedIndex(s) + |Batches(s, events)|) % U16
  {
    hide SteadyRun, GoodRun, QuietRun, Run, Batches, UsedBase, LeAt;
    GoodRunIsQuiet(s, events);
    LockStep(s, events);
    RunRefinesDisk(s, events);
    var t := Run(s, events);
    LeAtBound(s.world.mem, UsedBase(Queue(s.pfn), s.num) + 2, 2);
    LeAtBound(t.world.mem, UsedBase(Queue(t.pfn), t.num) + 2, 2);
    IndexFollows(UsedIndex(s), s.last, UsedIndex(t), t.last, |Batches(s, events)|);
  }
}
