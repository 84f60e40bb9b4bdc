// The daemon's device lifecycle (apps/daemon): one mutex-held state, one
// emulator process, requests and process exits in any order.
module Daemon {

  import opened Results

  /** The `power_state` strings; `Failed` is "error". */
  datatype Power = Off | Booting | Running | Failed | Stopping

  datatype State = State(device: Option<string>, power: Power, emulator: Option<nat>, adb: Option<string>)

  datatype Process = Alive | Exited(success: bool)

  /** An emulator command line: the device it boots, and whether `-wipe-data` is on it. */
  datatype Command = Command(device: string, wipe: bool)

  /**
   * The children of the daemon. Child `id` runs `commands[id]`; it is in `procs` until it is waited for;
   * `abandoned` are those whose handle was dropped after a failed kill or wait.
   */
  datatype Host = Host(procs: map<nat, Process>, commands: seq<Command>, reaped: set<nat>, abandoned: set<nat>)

  datatype System = System(daemon: State, host: Host)

  /** What each outside call of a launch comes to: `true`, or the path of adb, when it works. */
  datatype Launch = Launch(config: bool, device: bool, createDefault: bool, images: bool,
                           adb: Option<string>, log: bool, spawn: bool)

  datatype LaunchError = NoConfig | NoDefault | NoDevice | NoImages | NoTools | NoLog | NoSpawn

  /** The outside world's part in one request. */
  datatype Env = Env(waitFails: bool, killFails: bool, adbSaysDevice: bool, adbWorks: bool, launch: Launch)

  datatype Request =
    | Ping
    | DaemonStatus
    | Shutdown
    | Start(name: string)
    | Stop
    | Restart
    | Wipe
    | DeviceStatus
    | Adb(paramsOk: bool)   // launch, screenshot, install, uninstall, list, shell, logcat; the parameters
                            // are there and the file or directory they name is usable
    | Unsupported           // pause, resume, snapshots, statistics and unknown methods

  datatype Response =
    | Done
    | Status(power: Power, device: Option<string>)
    | AlreadyRunning
    | LaunchFailed(why: LaunchError)
    | BadParameters
    | StillBooting
    | AdbUnavailable
    | AdbFailed
    | NotAvailable

  const DEFAULT_DEVICE: string := "default"

  function Initial(): System {
    System(State(None, Off, None, None), Host(map[], [], {}, {}))
  }

  // ---- The host ----

  datatype Wait = WaitError | StillAlive | Finished(success: bool)

  /** `try_wait`: reaps a child that has exited. */
  function TryWait(h: Host, id: nat, fails: bool): (Wait, Host) {
    if fails || id !in h.procs then (WaitError, h)
    else match h.procs[id]
      case Alive => (StillAlive, h)
      case Exited(success) => (Finished(success), h.(procs := h.procs - {id}, reaped := h.reaped + {id}))
  }

  /** `kill` then `wait`, both results ignored. */
  function KillAndWait(h: Host, id: nat, fails: bool): Host {
    if fails then h.(abandoned := h.abandoned + {id})
    else h.(procs := h.procs - {id}, reaped := h.reaped + {id})
  }

  function Spawn(h: Host, c: Command): (nat, Host) {
    (|h.commands|, h.(procs := h.procs[|h.commands| := Alive], commands := h.commands + [c]))
  }

  // ---- The daemon ----

  /** Takes the child out of the state and tries to end it. */
  function DropEmulator(s: System, env: Env): System {
    if s.daemon.emulator.None? then s
    else System(s.daemon.(emulator := None), KillAndWait(s.host, s.daemon.emulator.value, env.killFails))
  }

  function StopEmulator(s: System, env: Env): System {
    var t := DropEmulator(s, env);
    t.(daemon := t.daemon.(adb := None, device := None, power := Off))
  }

  /** The default device is created when it is missing; any other must exist. */
  function LaunchDevice(s: System, name: string, wipe: bool, env: Env): (System, Response) {
    var l := env.launch;
    if !l.config then (s, LaunchFailed(NoConfig))
    else if !l.device && name != DEFAULT_DEVICE then (s, LaunchFailed(NoDevice))
    else if !l.device && !l.createDefault then (s, LaunchFailed(NoDefault))
    else if !l.images then (s, LaunchFailed(NoImages))
    else if l.adb.None? then (s, LaunchFailed(NoTools))
    else if !l.log then (s, LaunchFailed(NoLog))
    else if !l.spawn then (s, LaunchFailed(NoSpawn))
    else
      var (id, host) := Spawn(s.host, Command(name, wipe));
      (System(State(Some(name), Booting, Some(id), l.adb), host), Done)
  }

  /** Every outside call that a launch of this device makes works. */
  predicate Launches(l: Launch, name: string) {
    l.config && (l.device || (name == DEFAULT_DEVICE && l.createDefault)) && l.images && l.adb.Some? && l.log && l.spawn
  }

  /** `emulator_state`: refreshes the power state from the child. */
  function Refresh(s: System, env: Env): System {
    if s.daemon.emulator.None? then s else
    var (wait, host) := TryWait(s.host, s.daemon.emulator.value, env.waitFails);
    match wait
    case WaitError => s.(daemon := s.daemon.(power := Failed))
    case StillAlive =>
      var power := if s.daemon.adb.Some? && env.adbSaysDevice then Running else Booting;
      s.(daemon := s.daemon.(power := power))
    case Finished(success) => System(State(None, if success then Off else Failed, None, None), host)
  }

  function StartDevice(s: System, name: string, env: Env): (System, Response) {
    if s.daemon.emulator.None? then LaunchDevice(s, name, false, env) else
    var (wait, host) := TryWait(s.host, s.daemon.emulator.value, env.waitFails);
    if wait.Finished? then LaunchDevice(System(s.daemon.(emulator := None), host), name, false, env)
    else (s, AlreadyRunning)
  }

  function RunAdb(s: System, env: Env): (System, Response) {
    var t := Refresh(s, env);
    if t.daemon.power != Running then (t, StillBooting)
    else if t.daemon.adb.None? then (t, AdbUnavailable)
    else (t, if env.adbWorks then Done else AdbFailed)
  }

  function DeviceOr(d: Option<string>): string {
    if d.Some? then d.value else DEFAULT_DEVICE
  }

  function Dispatch(s: System, req: Request, env: Env): (System, Response) {
    match req
    case Ping => (s, Done)
    case DaemonStatus => (s, Done)
    case Shutdown =>
      var t := DropEmulator(s, env);
      (t.(daemon := t.daemon.(device := None, power := Stopping)), Done)
    case Start(name) => StartDevice(s, name, env)
    case Stop => (StopEmulator(s, env), Done)
    case Restart => LaunchDevice(StopEmulator(s, env), DeviceOr(s.daemon.device), false, env)
    case Wipe => LaunchDevice(StopEmulator(s, env), DeviceOr(s.daemon.device), true, env)
    case DeviceStatus =>
      var t := Refresh(s, env);
      (t, Status(t.daemon.power, t.daemon.device))
    case Adb(paramsOk) => if paramsOk then RunAdb(s, env) else (s, BadParameters)
    case Unsupported => (s, NotAvailable)
  }

  /** Requests hold the mutex, so a run is a sequence of requests and process exits. */
  datatype Event = Handle(req: Request, env: Env) | Exit(id: nat, success: bool)

  function Step(s: System, e: Event): System {
    match e
    case Handle(req, env) => Dispatch(s, req, env).0
    case Exit(id, success) =>
      if id in s.host.procs && s.host.procs[id].Alive?
      then s.(host := s.host.(procs := s.host.procs[id := Exited(success)])) else s
  }

  function Run(s: System, events: seq<Event>): System
    decreases |events|
  {
    if events == [] then s else Run(Step(s, events[0]), events[1..])
  }

  // ---- Invariants of every run ----

  /** Every child ever spawned is exactly one of: held in the state, reaped, or abandoned by a failed kill. */
  ghost predicate Accounted(s: System) {
    && (forall id: nat :: id < |s.host.commands| <==> id in s.host.reaped || id in s.host.procs)
    && s.host.reaped !! s.host.procs.Keys
    && (forall id: nat :: id in s.host.procs <==> id in s.host.abandoned || s.daemon.emulator == Some(id))
    && (s.daemon.emulator.Some? ==> s.daemon.emulator.value !in s.host.abandoned)
  }

  /** A held or powered device always has its name and its adb path. */
  ghost predicate Powered(d: State) {
    && (d.emulator.Some? ==> d.device.Some? && d.adb.Some?)
    && (d.power == Booting || d.power == Running ==> d.device.Some? && d.adb.Some?)
  }

  ghost predicate Sound(s: System) {
    Accounted(s) && Powered(s.daemon)
  }

  lemma DropKeeps(s: System, env: Env)
    requires Sound(s)
    ensures Accounted(DropEmulator(s, env)) && DropEmulator(s, env).daemon == s.daemon.(emulator := None)
  {
  }

  /** A launch is only ever reached with no emulator held; from there it keeps the account. */
  lemma LaunchKeeps(s: System, name: string, wipe: bool, env: Env)
    requires Sound(s) && s.daemon.emulator.None?
    ensures Sound(LaunchDevice(s, name, wipe, env).0)
  {
  }

  lemma RefreshKeeps(s: System, env: Env)
    requires Sound(s)
    ensures Sound(Refresh(s, env))
  {
  }

  lemma StartKeeps(s: System, name: string, env: Env)
    requires Sound(s)
    ensures Sound(StartDevice(s, name, env).0)
  {
    hide LaunchDevice;
    if s.daemon.emulator.None? {
      LaunchKeeps(s, name, false, env);
    } else {
      var id := s.daemon.emulator.value;
      var (wait, host) := TryWait(s.host, id, env.waitFails);
      if wait.Finished? {
        var t := System(s.daemon.(emulator := None), host);
        assert host.procs.Keys == s.host.procs.Keys - {id};
        LaunchKeeps(t, name, false, env);
      }
    }
  }

  lemma ExitKeeps(s: System, id: nat, success: bool)
    requires Sound(s)
    ensures Sound(Step(s, Exit(id, success)))
  {
    hide Dispatch;
  }

  lemma StepKeeps(s: System, e: Event)
    requires Sound(s)
    ensures Sound(Step(s, e))
  {
    hide Accounted, Refresh, LaunchDevice, StartDevice, DropEmulator;
    match e
    case Exit(id, success) => ExitKeeps(s, id, success);
    case Handle(req, env) =>
      DropKeeps(s, env);
      RefreshKeeps(s, env);
      var t := StopEmulator(s, env);
      StopKeeps(s, env);
      LaunchKeeps(t, DeviceOr(s.daemon.device), req.Wipe?, env);
      if req.Start? { StartKeeps(s, req.name, env); }
      if req.Shutdown? { OffKeeps(DropEmulator(s, env), State(None, Stopping, None, s.daemon.adb)); }
  }

  lemma StopKeeps(s: System, env: Env)
    requires Sound(s)
    ensures Sound(StopEmulator(s, env)) && StopEmulator(s, env).daemon == State(None, Off, None, None)
  {
    hide DropEmulator;
    DropKeeps(s, env);
  }

  lemma OffKeeps(s: System, d: State)
    requires Accounted(s) && s.daemon.emulator.None? && d.emulator.None?
    ensures Accounted(s.(daemon := d))
  {
  }

  lemma {:induction false} RunKeeps(s: System, events: seq<Event>)
    requires Sound(s)
    ensures Sound(Run(s, events))
    decreases |events|
  {
    hide Step, Sound;
    if events != [] {
      StepKeeps(s, events[0]);
      RunKeeps(Step(s, events[0]), events[1..]);
    }
  }

  ghost predicate KillsWork(events: seq<Event>) {
    forall i :: 0 <= i < |events| && events[i].Handle? ==> !events[i].env.killFails
  }

  lemma {:induction false} NothingAbandoned(s: System, events: seq<Event>)
    requires s.host.abandoned == {} && KillsWork(events)
    ensures Run(s, events).host.abandoned == {}
    decreases |events|
  {
    if events != [] {
      NothingAbandoned(Step(s, events[0]), events[1..]);
    }
  }

  /**
   * At most one emulator: in every state any run reaches while kills succeed, a child that is still a process
   * is the one the state holds, so a launch never loses one.
   */
  lemma AtMostOneEmulator(events: seq<Event>, id: nat)
    requires KillsWork(events)
    ensures var s := Run(Initial(), events);
      (id < |s.host.commands| && id !in s.host.reaped) <==> s.daemon.emulator == Some(id)
  {
    hide Run;
    RunKeeps(Initial(), events);
    NothingAbandoned(Initial(), events);
  }

  /** The event drops the held child `id` and fails to kill it. */
  ghost predicate Loses(s: System, e: Event, id: nat) {
    && e.Handle? && (e.req.Shutdown? || e.req.Stop? || e.req.Restart? || e.req.Wipe?)
    && e.env.killFails && s.daemon.emulator == Some(id)
  }

  lemma StepAbandons(s: System, e: Event, id: nat)
    ensures id in Step(s, e).host.abandoned <==> id in s.host.abandoned || Loses(s, e, id)
  {
    hide Launches;
  }

  /** Over whole runs: a child is lost exactly when a request that drops it fails to kill it. */
  lemma {:induction false} AbandonedIff(events: seq<Event>, n: nat, id: nat)
    requires n <= |events|
    ensures id in Run(Initial(), events[..n]).host.abandoned
      <==> exists i: nat :: i < n && Loses(Run(Initial(), events[..i]), events[i], id)
    decreases n
  {
    hide Step, Loses;
    if n > 0 {
      AbandonedIff(events, n - 1, id);
      RunSnoc(Initial(), events, n - 1);
      StepAbandons(Run(Initial(), events[..n - 1]), events[n - 1], id);
    }
  }

  /** No run can make an adb command fail for want of an adb path, or report a running device without its name. */
  lemma RunningIsUsable(events: seq<Event>, req: Request, env: Env)
    ensures var (t, r) := Dispatch(Run(Initial(), events), req, env);
      r != AdbUnavailable && (r.Status? && (r.power == Running || r.power == Booting) ==> r.device.Some?)
  {
    hide Run;
    RunKeeps(Initial(), events);
    var s := Run(Initial(), events);
    StepKeeps(s, Handle(req, env));
  }

  // ---- Launches ----

  /** The outside calls of a launch in order, each with the error it gives when it fails. */
  ghost function Attempts(l: Launch, name: string): seq<(bool, LaunchError)> {
    [(l.config, NoConfig), (l.device || name == "default", NoDevice), (l.device || l.createDefault, NoDefault),
     (l.images, NoImages), (l.adb.Some?, NoTools), (l.log, NoLog), (l.spawn, NoSpawn)]
  }

  /** A launch that fails reports its first call that failed and changes nothing. */
  lemma LaunchFailsFirst(s: System, name: string, wipe: bool, env: Env, i: nat)
    requires i < |Attempts(env.launch, name)| && !Attempts(env.launch, name)[i].0
    requires forall j: nat :: j < i ==> Attempts(env.launch, name)[j].0
    ensures LaunchDevice(s, name, wipe, env) == (s, LaunchFailed(Attempts(env.launch, name)[i].1))
  {
    var a := Attempts(env.launch, name);
    assert i > 0 ==> a[0].0;
    assert i > 1 ==> a[1].0;
    assert i > 2 ==> a[2].0;
    assert i > 3 ==> a[3].0;
    assert i > 4 ==> a[4].0;
    assert i > 5 ==> a[5].0;
  }

  /** A restart or wipe with nothing running starts the device called "default". */
  lemma RestartsDefault(s: System, req: Request, env: Env)
    requires s.daemon.device.None? && (req.Restart? || req.Wipe?) && Launches(env.launch, "default")
    ensures Dispatch(s, req, env).0.daemon.device == Some("default")
  {
  }

  /** Nothing is held, or what is held is seen to have exited. */
  ghost predicate Free(s: System, env: Env)
    requires Sound(s)
  {
    s.daemon.emulator.Some? ==> !env.waitFails && s.host.procs[s.daemon.emulator.value].Exited?
  }

  /**
   * A start succeeds exactly when nothing live is held and every outside call works; it then holds a new live
   * child under the requested name, whose data is kept. Otherwise no child is made.
   */
  lemma StartIff(s: System, name: string, env: Env)
    requires Sound(s)
    ensures var (t, r) := Dispatch(s, Start(name), env);
      var id := |s.host.commands|;
      && (r == Done <==> Launches(env.launch, name) && Free(s, env))
      && (r == AlreadyRunning <==> !Free(s, env))
      && (r == Done ==> t.daemon == State(Some(name), Booting, Some(id), env.launch.adb))
      && (r == Done ==> id in t.host.procs && t.host.procs[id].Alive?)
      && t.host.commands == s.host.commands + if r == Done then [Command(name, false)] else []
  {
  }

  /**
   * Stop ends with the power off. Restart and wipe end with a new child booting the same device, or off when
   * the launch fails; only the child of a wipe starts with its data wiped.
   */
  lemma StopAndRestart(s: System, req: Request, env: Env)
    requires Sound(s) && (req.Restart? || req.Wipe?)
    ensures Dispatch(s, Stop, env).0.daemon == State(None, Off, None, None)
    ensures Dispatch(s, Stop, env).0.host.commands == s.host.commands
    ensures var (t, r) := Dispatch(s, req, env);
      var name := DeviceOr(s.daemon.device);
      if Launches(env.launch, name)
      then r == Done && t.daemon == State(Some(name), Booting, Some(|s.host.commands|), env.launch.adb)
           && t.host.commands == s.host.commands + [Command(name, req.Wipe?)]
      else r.LaunchFailed? && t.daemon == State(None, Off, None, None) && t.host.commands == s.host.commands
  {
  }

  lemma {:induction false} RunSnoc(s: System, events: seq<Event>, n: nat)
    requires n < |events|
    ensures Run(s, events[..n + 1]) == Step(Run(s, events[..n]), events[n])
    decreases n
  {
    hide Step;
    if n == 0 {
      assert events[..1][1..] == [];
    } else {
      RunSnoc(Step(s, events[0]), events[1..], n - 1);
      assert events[..n + 1][1..] == events[1..][..n] && events[..n][1..] == events[1..][..n - 1];
    }
  }

  /** The event is a wipe request whose launch works. */
  ghost predicate Wipes(s: System, e: Event) {
    e.Handle? && e.req.Wipe? && Launches(e.env.launch, DeviceOr(s.daemon.device))
  }

  ghost predicate SomeWiped(commands: seq<Command>) {
    exists id: nat :: id < |commands| && commands[id].wipe
  }

  lemma StepWipes(s: System, e: Event)
    ensures SomeWiped(Step(s, e).host.commands) <==> SomeWiped(s.host.commands) || Wipes(s, e)
  {
    hide Launches, DropEmulator;
    var before, after := s.host.commands, Step(s, e).host.commands;
    CommandsGrow(s, e);
    if id: nat :| id < |before| && before[id].wipe { assert after[id] == before[id]; }
    if Wipes(s, e) { assert after[|before|].wipe; }
  }

  lemma CommandsGrow(s: System, e: Event)
    ensures var (before, after) := (s.host.commands, Step(s, e).host.commands);
      || (after == before && !Wipes(s, e))
      || (|after| == |before| + 1 && after[..|before|] == before && after[|before|].wipe == Wipes(s, e))
  {
  }

  /** Over whole runs: some emulator is started with its data wiped exactly when a wipe was requested and launched. */
  lemma {:induction false} WipedIff(events: seq<Event>, n: nat)
    requires n <= |events|
    ensures SomeWiped(Run(Initial(), events[..n]).host.commands)
      <==> exists i: nat :: i < n && Wipes(Run(Initial(), events[..i]), events[i])
    decreases n
  {
    hide Step, Wipes, SomeWiped;
    if n == 0 {
      NoneWiped();
    } else {
      WipedIff(events, n - 1);
      RunSnoc(Initial(), events, n - 1);
      StepWipes(Run(Initial(), events[..n - 1]), events[n - 1]);
    }
  }

  lemma NoneWiped()
    ensures !SomeWiped(Initial().host.commands)
  {
  }

  // ---- When the reported state is true ----

  /** The state claims a device is up while no process is held. */
  ghost predicate Phantom(d: State) {
    d.emulator.None? && (d.power == Booting || d.power == Running)
  }

  /** A start request that drops an exited emulator, fails to launch, and finds the power state not refreshed. */
  ghost predicate FailsUnrefreshed(s: System, e: Event) {
    && e.Handle? && e.req.Start? && !Launches(e.env.launch, e.req.name) && !e.env.waitFails
    && s.daemon.emulator.Some? && s.daemon.emulator.value in s.host.procs
    && s.host.procs[s.daemon.emulator.value].Exited?
    && (s.daemon.power == Booting || s.daemon.power == Running)
  }

  /** The requests that set the power state anew. */
  ghost predicate Clears(e: Event) {
    e.Handle? && match e.req
      case Shutdown => true
      case Stop => true
      case Restart => true
      case Wipe => true
      case Start(name) => Launches(e.env.launch, name)
      case _ => false
  }

  /** A step turns a truthful state into a phantom exactly when it is such a start request. */
  lemma BecomesPhantomIff(s: System, e: Event)
    requires Accounted(s) && !Phantom(s.daemon)
    ensures Phantom(Step(s, e).daemon) <==> FailsUnrefreshed(s, e)
  {
  }

  lemma StaysPhantomIff(s: System, e: Event)
    requires Phantom(s.daemon)
    ensures Phantom(Step(s, e).daemon) <==> !Clears(e)
    ensures !FailsUnrefreshed(s, e)
  {
  }

  /** A start failed without a refresh at event `i` of the first `n`, and nothing after it cleared the power state. */
  ghost predicate FailedAt(events: seq<Event>, n: nat, i: nat)
    requires n <= |events|
  {
    && i < n && FailsUnrefreshed(Run(Initial(), events[..i]), events[i])
    && forall j: nat :: i < j < n ==> !Clears(events[j])
  }

  /**
   * Over whole runs: the state claims a device without a process exactly when some start failed in that way and
   * no shutdown, stop, restart, wipe or successful start came after it.
   */
  lemma {:induction false} PhantomIff(events: seq<Event>, n: nat)
    requires n <= |events|
    ensures Phantom(Run(Initial(), events[..n]).daemon) <==> exists i: nat :: FailedAt(events, n, i)
    decreases n
  {
    hide Step, Phantom, Clears, FailsUnrefreshed, Accounted;
    NoPhantomYet();
    if n > 0 {
      var s, e := Run(Initial(), events[..n - 1]), events[n - 1];
      RunKeeps(Initial(), events[..n - 1]);
      RunSnoc(Initial(), events, n - 1);
      PhantomIff(events, n - 1);
      if Phantom(s.daemon) {
        StaysPhantomIff(s, e);
        var i: nat :| FailedAt(events, n - 1, i);
        if !Clears(e) { assert FailedAt(events, n, i); }
      } else {
        BecomesPhantomIff(s, e);
        if FailsUnrefreshed(s, e) { assert FailedAt(events, n, n - 1); }
        forall i: nat | FailedAt(events, n, i) ensures FailsUnrefreshed(s, e) {
          if i < n - 1 { assert FailedAt(events, n - 1, i); }
        }
      }
    }
  }

  lemma NoPhantomYet()
    ensures !Phantom(Initial().daemon) && Sound(Initial())
  {
  }

  lemma RunningReply(s: System, env: Env)
    requires Accounted(s) && Dispatch(s, DeviceStatus, env).1.power == Running
    ensures HoldsLive(Dispatch(s, DeviceStatus, env).0) <==> !Phantom(s.daemon)
  {
  }

  ghost predicate HoldsLive(s: System) {
    && s.daemon.emulator.Some? && s.daemon.emulator.value in s.host.procs
    && s.host.procs[s.daemon.emulator.value].Alive?
  }

  /**
   * A status reply of "running", after any run, is backed by a live process exactly when no start has failed
   * without a refresh since the power state was last set anew.
   */
  lemma RunningReplyIsTrueIff(events: seq<Event>, env: Env)
    requires Dispatch(Run(Initial(), events), DeviceStatus, env).1.power == Running
    ensures HoldsLive(Dispatch(Run(Initial(), events), DeviceStatus, env).0)
      <==> !exists i: nat :: FailedAt(events, |events|, i)
  {
    hide Dispatch, Run, HoldsLive, FailedAt, Accounted, Powered;
    assert events[..|events|] == events;
    NoPhantomYet();
    RunKeeps(Initial(), events);
    PhantomIff(events, |events|);
    RunningReply(Run(Initial(), events), env);
  }

  /** A run that ends in a false "running": start, boot, exit, and a start that cannot launch. */
  lemma FalseRunningReachable()
    ensures exists events: seq<Event>, env: Env ::
      KillsWork(events) && Run(Initial(), events).host.procs == map[]
      && Dispatch(Run(Initial(), events), DeviceStatus, env).1 == Status(Running, Some("phone"))
  {
    var works := Launch(true, true, true, true, Some("adb"), true, true);
    var up := Env(false, false, true, true, works);
    var down := up.(launch := works.(spawn := false));
    var events := [Handle(Start("phone"), up), Handle(DeviceStatus, up), Exit(0, true), Handle(Start("phone"), down)];
    var s1 := Step(Initial(), events[0]);
    var s2 := Step(s1, events[1]);
    var s3 := Step(s2, events[2]);
    var s4 := Step(s3, events[3]);
    assert s4.host.procs == map[];
    assert Run(s3, events[3..]) == Run(s4, events[3..][1..]) == s4;
    assert events[2..][1..] == events[3..] && Run(s2, events[2..]) == s4;
    assert events[1..][1..] == events[2..] && Run(s1, events[1..]) == s4;
    assert Run(Initial(), events) == s4;
    assert Dispatch(s4, DeviceStatus, up).1 == Status(Running, Some("phone"));
  }
}
