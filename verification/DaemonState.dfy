// The daemon state as an object whose fields each request updates in place (apps/daemon).
module DaemonObject {
  import opened Results
  import opened Daemon

  /** The operating system's view of the daemon's children. */
  class Processes {
    var host: Host

    constructor ()
      ensures host == Initial().host
    {
      host := Initial().host;
    }

    method TryWait(id: nat, fails: bool) returns (w: Wait)
      modifies this
      ensures (w, host) == Daemon.TryWait(old(host), id, fails)
    {
      var (wait, after) := Daemon.TryWait(host, id, fails);
      w, host := wait, after;
    }

    method KillAndWait(id: nat, fails: bool)
      modifies this
      ensures host == Daemon.KillAndWait(old(host), id, fails)
    {
      host := Daemon.KillAndWait(host, id, fails);
    }

    method Spawn(command: Command) returns (id: nat)
      modifies this
      ensures (id, host) == Daemon.Spawn(old(host), command)
    {
      var (child, after) := Daemon.Spawn(host, command);
      id, host := child, after;
    }
  }

  class DaemonState {
    const os: Processes
    var activeDevice: Option<string>
    var powerState: Power
    var emulator: Option<nat>
    var adb: Option<string>

    constructor ()
      ensures fresh(os) && Snapshot() == Initial()
    {
      os := new Processes();
      activeDevice, powerState, emulator, adb := None, Off, None, None;
    }

    ghost function Snapshot(): System
      reads this, os
    {
      System(State(activeDevice, powerState, emulator, adb), os.host)
    }

    method TakeEmulator(env: Env)
      modifies this`emulator, os
      ensures Snapshot() == DropEmulator(old(Snapshot()), env)
    {
      if emulator.Some? {
        var child := emulator.value;
        emulator := None;
        os.KillAndWait(child, env.killFails);
      }
    }

    method StopEmulator(env: Env)
      modifies this, os
      ensures Snapshot() == Daemon.StopEmulator(old(Snapshot()), env)
    {
      TakeEmulator(env);
      adb := None;
      activeDevice := None;
      powerState := Off;
    }

    method LaunchDevice(name: string, wipe: bool, env: Env) returns (r: Response)
      modifies this, os
      ensures (Snapshot(), r) == Daemon.LaunchDevice(old(Snapshot()), name, wipe, env)
    {
      if !env.launch.config {
        return LaunchFailed(NoConfig);
      }
      if !env.launch.device {
        if name != DEFAULT_DEVICE {
          return LaunchFailed(NoDevice);
        }
        if !env.launch.createDefault {
          return LaunchFailed(NoDefault);
        }
      }
      if !env.launch.images {
        return LaunchFailed(NoImages);
      }
      if env.launch.adb.None? {
        return LaunchFailed(NoTools);
      }
      if !env.launch.log {
        return LaunchFailed(NoLog);
      }
      if !env.launch.spawn {
        return LaunchFailed(NoSpawn);
      }
      var child := os.Spawn(Command(name, wipe));
      activeDevice := Some(name);
      powerState := Booting;
      emulator := Some(child);
      adb := env.launch.adb;
      return Done;
    }

    method EmulatorState(env: Env) returns (power: Power)
      modifies this, os
      ensures Snapshot() == Refresh(old(Snapshot()), env) && power == powerState
    {
      if emulator.Some? {
        var wait := os.TryWait(emulator.value, env.waitFails);
        match wait {
          case StillAlive =>
            powerState := if adb.Some? && env.adbSaysDevice then Running else Booting;
          case Finished(success) =>
            emulator := None;
            adb := None;
            activeDevice := None;
            powerState := if success then Off else Failed;
          case WaitError =>
            powerState := Failed;
        }
      }
      return powerState;
    }

    method AdbBytes(env: Env) returns (r: Response)
      modifies this, os
      ensures (Snapshot(), r) == RunAdb(old(Snapshot()), env)
    {
      var power := EmulatorState(env);
      if power != Running {
        return StillBooting;
      }
      if adb.None? {
        return AdbUnavailable;
      }
      return if env.adbWorks then Done else AdbFailed;
    }

    /** One request under the lock. */
    method Dispatch(req: Request, env: Env) returns (r: Response)
      modifies this, os
      ensures (Snapshot(), r) == Daemon.Dispatch(old(Snapshot()), req, env)
    {
      hide Daemon.LaunchDevice, Daemon.StopEmulator, Refresh, RunAdb;
      r := Done;
      match req {
        case Ping =>
        case DaemonStatus =>
        case Shutdown =>
          TakeEmulator(env);
          activeDevice := None;
          powerState := Stopping;
        case Start(name) =>
          if emulator.Some? {
            var wait := os.TryWait(emulator.value, env.waitFails);
            if !wait.Finished? {
              return AlreadyRunning;
            }
            emulator := None;
          }
          r := LaunchDevice(name, false, env);
        case Stop =>
          StopEmulator(env);
        case Restart =>
          var name := DeviceOr(activeDevice);
          StopEmulator(env);
          r := LaunchDevice(name, false, env);
        case Wipe =>
          var name := DeviceOr(activeDevice);
          StopEmulator(env);
          r := LaunchDevice(name, true, env);
        case DeviceStatus =>
          var power := EmulatorState(env);
          r := Status(power, activeDevice);
        case Adb(paramsOk) =>
          if !paramsOk {
            return BadParameters;
          }
          r := AdbBytes(env);
        case Unsupported =>
          r := NotAvailable;
      }
    }
  }
}
