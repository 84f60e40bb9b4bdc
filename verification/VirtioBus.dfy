// MMIO bus: up to sixteen devices at consecutive windows (crates/devices).
module Bus {
  import opened Results
  import opened Constants

  /** A device as its behaviour on abstract state: reads may change it too. */
  datatype Model<!S> = Model(read: (S, nat, nat) -> (S, nat), write: (S, nat, nat, nat) -> S, reset: S -> S)

  datatype Device<!S> = Device(model: Model<S>, state: S)

  datatype Access = Read(addr: nat, size: nat) | Write(addr: nat, size: nat, value: nat) | ResetAll

  // ---- One device alone ----

  /** An operation at a register offset inside one device. */
  datatype Local = LocalRead(offset: nat, size: nat) | LocalWrite(offset: nat, size: nat, value: nat) | LocalReset

  function Apply<S>(d: Device<S>, op: Local): (Device<S>, nat) {
    match op
    case LocalRead(offset, size) => var (s, v) := d.model.read(d.state, offset, size); (d.(state := s), v)
    case LocalWrite(offset, size, value) => (d.(state := d.model.write(d.state, offset, size, value)), 0)
    case LocalReset => (d.(state := d.model.reset(d.state)), 0)
  }

  function ApplyAll<S>(d: Device<S>, ops: seq<Local>): Device<S>
    decreases |ops|
  {
    if ops == [] then d else ApplyAll(Apply(d, ops[0]).0, ops[1..])
  }

  // ---- The bus ----

  function Window(addr: nat): nat
    requires MMIO_START <= addr
  {
    (addr - MMIO_START) / MMIO_SIZE
  }

  function Register(addr: nat): nat
    requires MMIO_START <= addr
  {
    (addr - MMIO_START) % MMIO_SIZE
  }

  /** One access on all devices, with the value a read returns. */
  function Route<S>(ds: seq<Device<S>>, a: Access): (seq<Device<S>>, nat) {
    match a
    case Read(addr, size) =>
      if addr < MMIO_START || Window(addr) >= |ds| then (ds, 0)
      else var (d, v) := Apply(ds[Window(addr)], LocalRead(Register(addr), size)); (ds[Window(addr) := d], v)
    case Write(addr, size, value) =>
      if addr < MMIO_START || Window(addr) >= |ds| then (ds, 0)
      else (ds[Window(addr) := Apply(ds[Window(addr)], LocalWrite(Register(addr), size, value)).0], 0)
    case ResetAll => (seq(|ds|, i requires 0 <= i < |ds| => Apply(ds[i], LocalReset).0), 0)
  }

  function RouteAll<S>(ds: seq<Device<S>>, accesses: seq<Access>): seq<Device<S>>
    decreases |accesses|
  {
    if accesses == [] then ds else RouteAll(Route(ds, accesses[0]).0, accesses[1..])
  }

  /** The operation an access means to device `i`: none, unless it falls in that device's window. */
  function Seen(a: Access, i: nat): seq<Local> {
    match a
    case Read(addr, size) =>
      if addr < MMIO_START || Window(addr) != i then [] else [LocalRead(Register(addr), size)]
    case Write(addr, size, value) =>
      if addr < MMIO_START || Window(addr) != i then [] else [LocalWrite(Register(addr), size, value)]
    case ResetAll => [LocalReset]
  }

  /** The trace as device `i` sees it. */
  function Projected(accesses: seq<Access>, i: nat): seq<Local> {
    if accesses == [] then [] else Seen(accesses[0], i) + Projected(accesses[1..], i)
  }

  class VirtioBus<!S> {
    var devices: seq<Device<S>>

    constructor ()
      ensures devices == []
    {
      devices := [];
    }

    method AddDevice(d: Device<S>) returns (r: Result<Unit>)
      requires |devices| <= 16
      modifies this
      ensures |devices| <= 16
      ensures r == if |old(devices)| < 16 then Ok(Unit) else Err(TooManyDevices)
      ensures devices == if r.Ok? then old(devices) + [d] else old(devices)
    {
      if |devices| >= MAX_DEVICES {
        return Err(TooManyDevices);
      }
      devices := devices + [d];
      return Ok(Unit);
    }

    method Read(addr: nat, size: nat) returns (value: nat)
      modifies this
      ensures (devices, value) == Route(old(devices), Access.Read(addr, size))
    {
      if addr < MMIO_START {
        return 0;
      }
      var offset := addr - MMIO_START;
      var index, register := offset / MMIO_SIZE, offset % MMIO_SIZE;
      if index < |devices| {
        var (d, v) := Apply(devices[index], LocalRead(register, size));
        devices := devices[index := d];
        return v;
      }
      return 0;
    }

    method Write(addr: nat, size: nat, value: nat)
      modifies this
      ensures devices == Route(old(devices), Access.Write(addr, size, value)).0
    {
      if addr < MMIO_START {
        return;
      }
      var offset := addr - MMIO_START;
      var index, register := offset / MMIO_SIZE, offset % MMIO_SIZE;
      if index < |devices| {
        devices := devices[index := Apply(devices[index], LocalWrite(register, size, value)).0];
      }
    }

    method ResetAll()
      modifies this
      ensures devices == Route(old(devices), Access.ResetAll).0
    {
      for i := 0 to |devices|
        invariant |devices| == |old(devices)|
        invariant forall j :: 0 <= j < i ==> devices[j] == Apply(old(devices)[j], LocalReset).0
        invariant forall j :: i <= j < |devices| ==> devices[j] == old(devices)[j]
      {
        devices := devices[i := Apply(devices[i], LocalReset).0];
      }
    }
  }

  // ---- A device that writes down its calls ----

  /** Every call is appended to the state; a read returns how many calls came before it. */
  const RECORDER: Model<seq<Local>> := Model(
    (log, offset, size) => (log + [LocalRead(offset, size)], |log|),
    (log, offset, size, value) => log + [LocalWrite(offset, size, value)],
    log => log + [LocalReset])

  /** The call that device `i` gets, with its window at 0xfea00000 + 0x200 * i. */
  ghost function Call(a: Access, i: nat): seq<Local> {
    var window := 0xfea0_0000 + 0x200 * i;
    match a
    case Read(addr, size) => if window <= addr < window + 0x200 then [LocalRead(addr - window, size)] else []
    case Write(addr, size, value) =>
      if window <= addr < window + 0x200 then [LocalWrite(addr - window, size, value)] else []
    case ResetAll => [LocalReset]
  }

  ghost function Calls(accesses: seq<Access>, i: nat): seq<Local> {
    if accesses == [] then [] else Call(accesses[0], i) + Calls(accesses[1..], i)
  }

  lemma {:induction false} CallsAreSeen(accesses: seq<Access>, i: nat)
    ensures Calls(accesses, i) == Projected(accesses, i)
  {
    if accesses != [] { CallsAreSeen(accesses[1..], i); }
  }

  lemma {:induction false} RecorderRecords(log: seq<Local>, ops: seq<Local>)
    ensures ApplyAll(Device(RECORDER, log), ops) == Device(RECORDER, log + ops)
    decreases |ops|
  {
    if ops == [] {
      assert log + ops == log;
    } else {
      assert Apply(Device(RECORDER, log), ops[0]).0 == Device(RECORDER, log + [ops[0]]);
      RecorderRecords(log + [ops[0]], ops[1..]);
      assert log + ops == (log + [ops[0]]) + ops[1..];
    }
  }

  /**
   * Over any trace the device at window `i` is called exactly with the accesses to 0xfea00000 + 0x200 * i and
   * the 511 addresses after it, each at its offset with its size and value, and with every reset, in order; and
   * a read in the window returns what the device answers.
   */
  lemma DeviceIsCalled(ds: seq<Device<seq<Local>>>, accesses: seq<Access>, i: nat, addr: nat, size: nat)
    requires i < |ds| && ds[i].model == RECORDER
    ensures |RouteAll(ds, accesses)| == |ds|
    ensures RouteAll(ds, accesses)[i] == Device(RECORDER, ds[i].state + Calls(accesses, i))
    ensures 0xfea0_0000 + 0x200 * i <= addr < 0xfea0_0000 + 0x200 * i + 0x200 ==>
      Route(RouteAll(ds, accesses), Read(addr, size)).1 == |ds[i].state| + |Calls(accesses, i)|
  {
    hide RouteAll, ApplyAll, Projected, Calls;
    TraceProjects(ds, accesses, i);
    CallsAreSeen(accesses, i);
    assert ds[i] == Device(RECORDER, ds[i].state);
    RecorderRecords(ds[i].state, Projected(accesses, i));
  }

  /** One access moves each device by exactly what it sees of it. */
  lemma RouteIsSeen<S>(ds: seq<Device<S>>, a: Access, i: nat)
    requires i < |ds|
    ensures |Route(ds, a).0| == |ds| && Route(ds, a).0[i] == ApplyAll(ds[i], Seen(a, i))
  {
    if |Seen(a, i)| == 1 {
      assert ApplyAll(ds[i], Seen(a, i)) == ApplyAll(Apply(ds[i], Seen(a, i)[0]).0, []);
    }
  }

  lemma {:induction false} ApplyAllAppend<S>(d: Device<S>, a: seq<Local>, b: seq<Local>)
    ensures ApplyAll(d, a + b) == ApplyAll(ApplyAll(d, a), b)
    decreases |a|
  {
    if a == [] {
      assert a + b == b;
    } else {
      assert (a + b)[1..] == a[1..] + b;
      ApplyAllAppend(Apply(d, a[0]).0, a[1..], b);
    }
  }

  /** Trace projection: any trace leaves each device where its own projected trace, run alone, leaves it. */
  lemma {:induction false} TraceProjects<S>(ds: seq<Device<S>>, accesses: seq<Access>, i: nat)
    requires i < |ds|
    ensures |RouteAll(ds, accesses)| == |ds|
    ensures RouteAll(ds, accesses)[i] == ApplyAll(ds[i], Projected(accesses, i))
    decreases |accesses|
  {
    hide Route, Seen, Apply;
    if accesses != [] {
      var a := accesses[0];
      RouteIsSeen(ds, a, i);
      TraceProjects(Route(ds, a).0, accesses[1..], i);
      ApplyAllAppend(ds[i], Seen(a, i), Projected(accesses[1..], i));
    }
  }

  /**
   * A read after any trace returns what the addressed device alone would return; elsewhere it returns 0 and
   * changes nothing.
   */
  lemma ReadAfterTrace<S>(ds: seq<Device<S>>, accesses: seq<Access>, addr: nat, size: nat)
    ensures var (after, value) := Route(RouteAll(ds, accesses), Read(addr, size));
      if MMIO_START <= addr < MMIO_START + MMIO_SIZE * |ds| then
        var i := Window(addr);
        i < |ds| && addr == MMIO_START + MMIO_SIZE * i + Register(addr)
        && value == Apply(ApplyAll(ds[i], Projected(accesses, i)), LocalRead(Register(addr), size)).1
      else value == 0 && after == RouteAll(ds, accesses)
  {
    hide RouteAll;
    RouteAllLength(ds, accesses);
    if MMIO_START <= addr < MMIO_START + MMIO_SIZE * |ds| {
      TraceProjects(ds, accesses, Window(addr));
    }
  }

  lemma {:induction false} RouteAllLength<S>(ds: seq<Device<S>>, accesses: seq<Access>)
    ensures |RouteAll(ds, accesses)| == |ds|
    decreases |accesses|
  {
    if accesses != [] { RouteAllLength(Route(ds, accesses[0]).0, accesses[1..]); }
  }
}
