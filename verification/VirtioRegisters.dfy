// What the device registers hold after any run, in terms of the writes the guest made.
module VirtioRegisters {
  import opened Bytes
  import opened Results
  import opened GuestRam
  import opened VirtioSpec
  import opened VirtioRun

  /** The bytes of the last write to an MMIO address. */
  ghost function LastWrite(events: seq<Event>, addr: nat): Option<seq<byte>>
    decreases |events|
  {
    if events == [] then None else
    var last := events[|events| - 1];
    if last.MmioWrite? && last.addr == addr then Some(last.data) else LastWrite(events[..|events| - 1], addr)
  }

  lemma {:induction false} LastWriteHead(events: seq<Event>, addr: nat)
    requires events != []
    ensures LastWrite(events, addr) ==
      if LastWrite(events[1..], addr).Some? then LastWrite(events[1..], addr)
      else if events[0].MmioWrite? && events[0].addr == addr then Some(events[0].data)
      else None
    decreases |events|
  {
    var n := |events| - 1;
    if n > 0 {
      LastWriteHead(events[..n], addr);
      assert events[..n][1..] == events[1..][..n - 1] && events[1..][n - 1] == events[n];
    }
  }

  /** How many events are handled before the loop ends; the event that ends it counts. */
  ghost function Ran(s: State, events: seq<Event>): (n: nat)
    requires ValidState(s)
    ensures n <= |events|
    decreases |events|
  {
    if events == [] then 0 else
    var (s', running) := OnEvent(s, events[0]);
    EventKeeps(s, events[0]);
    if running then 1 + Ran(s', events[1..]) else 1
  }

  /** A zero stored to the notify register. */
  ghost predicate StoresNotify(e: Event) {
    e.MmioWrite? && e.addr == 0xfea0_0050 && Le(e.data) == 0
  }

  /** One event: each register takes the value written to its own address, and nothing else moves it. */
  lemma EventRegisters(s: State, e: Event)
    requires ValidState(s)
    ensures var t := OnEvent(s, e).0;
      && t.num == (if e.MmioWrite? && e.addr == 0xfea0_0038
                   then if Le(e.data) % 65536 < 128 then Le(e.data) % 65536 else 128 else s.num)
      && t.pfn == (if e.MmioWrite? && e.addr == 0xfea0_0040 then Le(e.data) % 0x1_0000_0000 else s.pfn)
      && t.status == (if e.MmioWrite? && e.addr == 0xfea0_0060 then Le(e.data) % 0x1_0000_0000 else s.status)
    ensures !OnEvent(s, e).1 ==> e.Stop? || StoresNotify(e)
    ensures !StoresNotify(e) ==> OnEvent(s, e).0.world.disk == s.world.disk && OnEvent(s, e).0.last == s.last
    ensures !StoresNotify(e) && !e.GuestStore? ==> OnEvent(s, e).0.world.mem == s.world.mem
  {
    hide Drain, Le, WriteMem;
    var av := AvailIndex(s);
    if av.Ok? {
      IndexBound(s);
      DrainKeeps(s, av.value);
    }
  }

  ghost function RegisterAfter(written: Option<seq<byte>>, before: nat, modulus: nat): nat
    requires modulus > 0
  {
    if written.Some? then Le(written.value) % modulus else before
  }

  /**
   * After any run the queue page and the status are the last value written to 0xfea00040 and 0xfea00060 modulo
   * 2^32, and the queue size the last written to 0xfea00038 modulo 2^16, at most 128; a register that was not
   * written is as it was.
   */
  lemma {:induction false} RunRegisters(s: State, events: seq<Event>)
    requires ValidState(s)
    ensures var t := Run(s, events);
      var done := events[..Ran(s, events)];
      var size := RegisterAfter(LastWrite(done, 0xfea0_0038), s.num, 65536);
      && t.pfn == RegisterAfter(LastWrite(done, 0xfea0_0040), s.pfn, 0x1_0000_0000)
      && t.status == RegisterAfter(LastWrite(done, 0xfea0_0060), s.status, 0x1_0000_0000)
      && t.num == if size < 128 then size else 128
    decreases |events|
  {
    hide OnEvent, Le, LastWrite;
    if events == [] {
      NoWrites();
    } else {
      var e, s', rest := events[0], OnEvent(s, events[0]).0, events[1..];
      EventKeeps(s, e);
      EventRegisters(s, e);
      var done := events[..Ran(s, events)];
      var later := if OnEvent(s, e).1 then rest[..Ran(s', rest)] else [];
      assert done[1..] == later;
      LastWriteHead(done, 0xfea0_0038);
      LastWriteHead(done, 0xfea0_0040);
      LastWriteHead(done, 0xfea0_0060);
      NoWrites();
      if OnEvent(s, e).1 { RunRegisters(s', rest); }
    }
  }

  lemma NoWrites()
    ensures forall addr: nat :: LastWrite([], addr) == None
  {
  }

  /** The loop handles every event up to a stop, or to a notification that brings it down. */
  lemma {:induction false} RunEnds(s: State, events: seq<Event>)
    requires ValidState(s)
    ensures Ran(s, events) < |events| ==>
      0 < Ran(s, events) && (events[Ran(s, events) - 1].Stop? || StoresNotify(events[Ran(s, events) - 1]))
    ensures forall i: nat :: i + 1 < Ran(s, events) ==> !events[i].Stop?
    decreases |events|
  {
    hide StoresNotify;
    if events != [] {
      EventKeeps(s, events[0]);
      EventRegisters(s, events[0]);
      StopEnds(s, events[0]);
      hide OnEvent;
      if OnEvent(s, events[0]).1 {
        RunEnds(OnEvent(s, events[0]).0, events[1..]);
      }
    }
  }

  lemma StopEnds(s: State, e: Event)
    requires ValidState(s)
    ensures e.Stop? ==> OnEvent(s, e) == (s, false)
  {
    hide WriteRegister;
  }

  /** Only notifications touch the disk and the consumed index, and only they and the guest touch its memory. */
  lemma {:induction false} QuietRunKeeps(s: State, events: seq<Event>)
    requires ValidState(s) && forall i :: 0 <= i < |events| ==> !StoresNotify(events[i])
    ensures Run(s, events).world.disk == s.world.disk && Run(s, events).last == s.last
    ensures (forall i :: 0 <= i < |events| ==> !events[i].GuestStore?) ==> Run(s, events).world.mem == s.world.mem
    decreases |events|
  {
    hide OnEvent, StoresNotify;
    if events != [] {
      EventKeeps(s, events[0]);
      EventRegisters(s, events[0]);
      if OnEvent(s, events[0]).1 { QuietRunKeeps(OnEvent(s, events[0]).0, events[1..]); }
    }
  }
}
