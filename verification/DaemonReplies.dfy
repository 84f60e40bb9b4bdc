// What the daemon tells its clients about the device, over whole runs.
module DaemonReplies {
  import opened Results
  import opened Daemon

  /** What looking at the held child shows: nothing when none is held. */
  ghost function Seen(s: System, env: Env): Option<Power> {
    if s.daemon.emulator.None? then None
    else if env.waitFails || s.daemon.emulator.value !in s.host.procs then Some(Failed)
    else match s.host.procs[s.daemon.emulator.value]
      case Alive => Some(if env.adbSaysDevice then Running else Booting)
      case Exited(success) => Some(if success then Off else Failed)
  }

  /** The held child, if any, is seen to have exited. */
  ghost predicate Gone(s: System, env: Env) {
    s.daemon.emulator.Some? ==>
      !env.waitFails && s.daemon.emulator.value in s.host.procs && s.host.procs[s.daemon.emulator.value].Exited?
  }

  /** The power state that one event sets, if it sets one. */
  ghost function SetBy(s: System, e: Event): Option<Power> {
    if e.Exit? then None else
    match e.req
    case Shutdown => Some(Stopping)
    case Stop => Some(Off)
    case Restart => Some(if Launches(e.env.launch, DeviceOr(s.daemon.device)) then Booting else Off)
    case Wipe => Some(if Launches(e.env.launch, DeviceOr(s.daemon.device)) then Booting else Off)
    case Start(name) => if Gone(s, e.env) && Launches(e.env.launch, name) then Some(Booting) else None
    case DeviceStatus => Seen(s, e.env)
    case Adb(paramsOk) => if paramsOk then Seen(s, e.env) else None
    case _ => None
  }

  lemma RefreshIs(s: System, env: Env)
    requires Sound(s)
    ensures Refresh(s, env).daemon.power == if Seen(s, env).Some? then Seen(s, env).value else s.daemon.power
    ensures Refresh(s, env).daemon.device ==
      if s.daemon.emulator.Some? && Gone(s, env) then None else s.daemon.device
  {
  }

  lemma StepSets(s: System, e: Event)
    requires Sound(s)
    ensures Step(s, e).daemon.power == if SetBy(s, e).Some? then SetBy(s, e).value else s.daemon.power
  {
    hide Refresh, Seen, Accounted, Powered, Launches;
    if e.Handle? {
      RefreshIs(s, e.env);
      if e.req.Start? { StartSets(s, e.req.name, e.env); }
      LaunchSets(StopEmulator(s, e.env), DeviceOr(s.daemon.device), e.req.Wipe?, e.env);
    }
  }

  lemma LaunchSets(s: System, name: string, wipe: bool, env: Env)
    ensures LaunchDevice(s, name, wipe, env).0.daemon.power ==
      if Launches(env.launch, name) then Booting else s.daemon.power
  {
  }

  lemma StartSets(s: System, name: string, env: Env)
    requires Sound(s)
    ensures StartDevice(s, name, env).0.daemon.power ==
      if Gone(s, env) && Launches(env.launch, name) then Booting else s.daemon.power
  {
  }

  /** The power state last set by the first `n` events, or off. */
  ghost function LastSet(events: seq<Event>, n: nat): Power
    requires n <= |events|
  {
    if n == 0 then Off else
    var latest := SetBy(Run(Initial(), events[..n - 1]), events[n - 1]);
    if latest.Some? then latest.value else LastSet(events, n - 1)
  }

  lemma StartsOff()
    ensures Initial().daemon.power == Off && Sound(Initial())
  {
  }

  /** Over whole runs: the power state is the one last set. */
  lemma {:induction false} PowerIsLastSet(events: seq<Event>, n: nat)
    requires n <= |events|
    ensures Run(Initial(), events[..n]).daemon.power == LastSet(events, n)
    decreases n
  {
    hide Step, SetBy, Sound;
    StartsOff();
    if n > 0 {
      PowerIsLastSet(events, n - 1);
      RunKeeps(Initial(), events[..n - 1]);
      RunSnoc(Initial(), events, n - 1);
      StepSets(Run(Initial(), events[..n - 1]), events[n - 1]);
    }
  }

  /**
   * A status reply after any run. With a child held it is running exactly when the wait works, the child is alive
   * and adb says "device"; booting when it is alive and adb does not; off when it exited with success; an error
   * when it exited without or the wait fails. With none held it is the power state last set. The device is the one
   * last named, or none when the reply finds that its child has exited.
   */
  lemma StatusReplyIs(events: seq<Event>, env: Env)
    ensures var s := Run(Initial(), events);
      var (t, r) := Dispatch(s, DeviceStatus, env);
      && r.Status? && r.power == t.daemon.power && r.device == t.daemon.device
      && r.power == (if Seen(s, env).Some? then Seen(s, env).value else LastSet(events, |events|))
      && r.device == (if s.daemon.emulator.Some? && Gone(s, env) then None else LastNamed(events, |events|))
  {
    hide Run, Refresh, Seen, LastSet, LastNamed, Sound, Gone;
    StartsOff();
    assert events[..|events|] == events;
    PowerIsLastSet(events, |events|);
    DeviceIsLastNamed(events, |events|);
    RunKeeps(Initial(), events);
    RefreshIs(Run(Initial(), events), env);
  }

  /** An adb command reaches adb exactly when a status request in its place would say running. */
  lemma AdbReachesIff(events: seq<Event>, env: Env)
    ensures var s := Run(Initial(), events);
      var (t, status) := Dispatch(s, DeviceStatus, env);
      var (t', r) := Dispatch(s, Adb(true), env);
      && t' == t && status.Status?
      && r == (if status.power != Running then StillBooting else if env.adbWorks then Done else AdbFailed)
      && Dispatch(s, Adb(false), env) == (s, BadParameters)
  {
    hide Run, Refresh, Accounted;
    StartsOff();
    RunKeeps(Initial(), events);
    RefreshKeeps(Run(Initial(), events), env);
  }

  // ---- The device named ----

  /** The device name that one event sets or clears, if it does either. */
  ghost function NamedBy(s: System, e: Event): Option<Option<string>> {
    if e.Exit? then None else
    match e.req
    case Shutdown => Some(None)
    case Stop => Some(None)
    case Restart => Some(NameIf(Launches(e.env.launch, DeviceOr(s.daemon.device)), DeviceOr(s.daemon.device)))
    case Wipe => Some(NameIf(Launches(e.env.launch, DeviceOr(s.daemon.device)), DeviceOr(s.daemon.device)))
    case Start(name) => if Gone(s, e.env) && Launches(e.env.launch, name) then Some(Some(name)) else None
    case DeviceStatus => if s.daemon.emulator.Some? && Gone(s, e.env) then Some(None) else None
    case Adb(paramsOk) => if paramsOk && s.daemon.emulator.Some? && Gone(s, e.env) then Some(None) else None
    case _ => None
  }

  ghost function NameIf(works: bool, name: string): Option<string> {
    if works then Some(name) else None
  }

  lemma StepNames(s: System, e: Event)
    requires Sound(s)
    ensures Step(s, e).daemon.device == if NamedBy(s, e).Some? then NamedBy(s, e).value else s.daemon.device
  {
    hide Refresh, Seen, Accounted, Powered, Launches;
    if e.Handle? {
      RefreshIs(s, e.env);
      if e.req.Start? { StartNames(s, e.req.name, e.env); }
      LaunchNames(StopEmulator(s, e.env), DeviceOr(s.daemon.device), e.req.Wipe?, e.env);
    }
  }

  lemma LaunchNames(s: System, name: string, wipe: bool, env: Env)
    ensures LaunchDevice(s, name, wipe, env).0.daemon.device ==
      if Launches(env.launch, name) then Some(name) else s.daemon.device
  {
  }

  lemma StartNames(s: System, name: string, env: Env)
    requires Sound(s)
    ensures StartDevice(s, name, env).0.daemon.device ==
      if Gone(s, env) && Launches(env.launch, name) then Some(name) else s.daemon.device
  {
  }

  /** The device last named or cleared by the first `n` events, or none. */
  ghost function LastNamed(events: seq<Event>, n: nat): Option<string>
    requires n <= |events|
  {
    if n == 0 then None else
    var latest := NamedBy(Run(Initial(), events[..n - 1]), events[n - 1]);
    if latest.Some? then latest.value else LastNamed(events, n - 1)
  }

  lemma StartsUnnamed()
    ensures Initial().daemon.device == None
  {
  }

  /** Over whole runs: the device named in a status reply is the one last set, unless the reply clears it. */
  lemma {:induction false} DeviceIsLastNamed(events: seq<Event>, n: nat)
    requires n <= |events|
    ensures Run(Initial(), events[..n]).daemon.device == LastNamed(events, n)
    decreases n
  {
    hide Step, NamedBy, Sound;
    StartsOff();
    StartsUnnamed();
    if n > 0 {
      DeviceIsLastNamed(events, n - 1);
      RunKeeps(Initial(), events[..n - 1]);
      RunSnoc(Initial(), events, n - 1);
      StepNames(Run(Initial(), events[..n - 1]), events[n - 1]);
    }
  }

  /** The replies that depend on nothing. */
  lemma PlainReplies(s: System, env: Env)
    ensures Dispatch(s, Ping, env) == (s, Done) && Dispatch(s, DaemonStatus, env) == (s, Done)
    ensures Dispatch(s, Shutdown, env).1 == Done && Dispatch(s, Stop, env).1 == Done
    ensures Dispatch(s, Unsupported, env) == (s, NotAvailable)
  {
  }

  // ---- Whose emulator is held ----

  /** The held child is the newest, runs the device in the state, and was found under its adb path. */
  ghost predicate HoldsNewest(s: System) {
    s.daemon.emulator.Some? ==>
      && s.daemon.emulator.value + 1 == |s.host.commands|
      && s.daemon.device == Some(s.host.commands[s.daemon.emulator.value].device)
  }

  lemma StepHoldsNewest(s: System, e: Event)
    requires HoldsNewest(s)
    ensures HoldsNewest(Step(s, e))
  {
    hide Launches;
  }

  /** Over whole runs: the device a status reply names while a child is held is the one that child was started for. */
  lemma {:induction false} HeldDeviceIsNamed(events: seq<Event>, n: nat)
    requires n <= |events|
    ensures HoldsNewest(Run(Initial(), events[..n]))
    decreases n
  {
    hide Step, HoldsNewest;
    if n == 0 {
      NothingHeld();
    } else {
      HeldDeviceIsNamed(events, n - 1);
      RunSnoc(Initial(), events, n - 1);
      StepHoldsNewest(Run(Initial(), events[..n - 1]), events[n - 1]);
    }
  }

  lemma NothingHeld()
    ensures HoldsNewest(Initial())
  {
  }
}
