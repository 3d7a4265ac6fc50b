/**
 * The version gate of the update manager (manager.go). The manager holds
 * the auto-update setting it was last given by the management service and
 * the time it last started an installer. A check compares the daemon's own
 * version with the target the setting names and, when the target is newer
 * and the last trigger is more than five minutes old, publishes a system
 * event and hands the target to the platform installer.
 *
 * Time is an integer count of nanoseconds, time.Duration's unit. Versions
 * are whatever `parse` makes of a string, ordered by `less`.
 */
module Manager {
  import opened Wrappers

  /** The setting that follows the newest release. */
  const LatestVersion := "latest"

  /** The setting that turns automatic updates off. */
  const DisableAutoUpdate := "disabled"

  const Minute := 60_000_000_000

  /** How long after a trigger further triggers are refused. */
  const DebounceWindow := 5 * Minute

  /** How far before its construction a new manager dates its last trigger. */
  const InitialLag := 10 * Minute

  datatype Severity = Info
  datatype Category = System

  /** A system event as the status recorder publishes it. */
  datatype Event = Event(severity: Severity, category: Category, title: string, body: string)

  /** The event that announces an automatic update. */
  const UpdateEvent := Event(Info, System,
    "Automatically updating client",
    "Your client version is older than auto-update version set in Management, updating client now.")

  /** What a check does to the world: publish an event or call the installer
      (triggerUpdate) with a target version. */
  datatype Effect = Published(event: Event) | InstallerCalled(target: string)

  /** What a check reads besides the manager: the daemon's own version string,
      the newest release if it is known yet, and the version library. */
  datatype Env<!V> = Env(current: string, latest: Option<string>, parse: string -> Option<V>, less: (V, V) -> bool)

  /** The version string a setting asks for: the newest release for "latest"
      and for the empty setting (none while that is not known), the setting
      itself otherwise. */
  function Resolve(setting: string, latest: Option<string>): Option<string> {
    if setting == LatestVersion || setting == "" then latest else Some(setting)
  }

  /** Both version strings parse and the daemon's version is strictly older. */
  predicate Older<V>(env: Env<V>, target: string) {
    var current, wanted := env.parse(env.current), env.parse(target);
    current.Some? && wanted.Some? && env.less(current.value, wanted.value)
  }

  /** More than the debounce window has passed since the last trigger. */
  predicate DebounceElapsed(lastTrigger: int, now: int) {
    lastTrigger + DebounceWindow < now
  }

  /** The target a check at `now` hands to the installer, or None when it
      returns without triggering. */
  function Decide<V>(setting: string, lastTrigger: int, now: int, env: Env<V>): (target: Option<string>)
    ensures target.Some? ==> setting != DisableAutoUpdate && Older(env, target.value)
    ensures target.Some? ==> DebounceElapsed(lastTrigger, now)
  {
    if setting == DisableAutoUpdate then None
    else
      match Resolve(setting, env.latest)
      case None => None
      case Some(target) => if Older(env, target) && DebounceElapsed(lastTrigger, now) then Some(target) else None
  }

  /** The update manager: its auto-update setting, the time of its last
      trigger, the effects of its checks so far and the number of checks
      SetVersion has started in the background. */
  class UpdateManager {
    var version: string
    var lastTrigger: int
    var effects: seq<Effect>
    var scheduledChecks: nat

    /** NewUpdateManager at time `now`: updates disabled, and the last
        trigger dated ten minutes back. */
    constructor(now: int)
      ensures version == DisableAutoUpdate
      ensures lastTrigger == now - InitialLag
      ensures effects == [] && scheduledChecks == 0
    {
      version := DisableAutoUpdate;
      lastTrigger := now - InitialLag;
      effects := [];
      scheduledChecks := 0;
    }

    /** SetVersion: a new setting is stored and starts one check in the
        background; the setting already held changes nothing. */
    method SetVersion(v: string)
      modifies this
      ensures version == v
      ensures scheduledChecks == old(scheduledChecks) + if old(version) == v then 0 else 1
      ensures lastTrigger == old(lastTrigger) && effects == old(effects)
    {
      if version != v {
        version := v;
        scheduledChecks := scheduledChecks + 1;
      }
    }

    /** CheckForUpdates at time `now`: when Decide names a target, record
        the trigger time, publish the update event and then call the
        installer with that target; otherwise change nothing. */
    method CheckForUpdates<V>(now: int, env: Env<V>)
      modifies this
      ensures version == old(version) && scheduledChecks == old(scheduledChecks)
      ensures match Decide(old(version), old(lastTrigger), now, env)
        case None => lastTrigger == old(lastTrigger) && effects == old(effects)
        case Some(target) =>
          lastTrigger == now && effects == old(effects) + [Published(UpdateEvent), InstallerCalled(target)]
    {
      if version == DisableAutoUpdate {
        return;
      }
      var currentVersionString := env.current;
      var updateVersionString := version;
      if updateVersionString == LatestVersion || updateVersionString == "" {
        if env.latest.None? {
          return;
        }
        updateVersionString := env.latest.value;
      }
      var currentVersion := env.parse(currentVersionString);
      if currentVersion.None? {
        return;
      }
      var updateVersion := env.parse(updateVersionString);
      if updateVersion.None? {
        return;
      }
      if env.less(currentVersion.value, updateVersion.value) {
        if DebounceElapsed(lastTrigger, now) {
          lastTrigger := now;
          effects := effects + [Published(UpdateEvent)];
          effects := effects + [InstallerCalled(updateVersionString)];
        }
      }
    }

    /** A run of checks on this manager: before each, the management service
        sets the setting the check sees; the result lists the times at which
        a check triggered, which are those TriggerTimes predicts and so lie
        more than five minutes apart. */
    method RunChecks<V>(checks: seq<Check<V>>) returns (times: seq<int>)
      modifies this
      ensures times == TriggerTimes(old(lastTrigger), checks)
      ensures forall i, j | 0 <= i < j < |times| :: times[i] + DebounceWindow < times[j]
    {
      ghost var start := lastTrigger;
      times := [];
      for i := 0 to |checks|
        invariant TriggerTimes(start, checks) == times + TriggerTimes(lastTrigger, checks[i..])
      {
        var c := checks[i];
        TriggerTimesStep(lastTrigger, checks[i..]);
        assert checks[i..][1..] == checks[i + 1..];
        SetVersion(c.setting);
        var before := |effects|;
        CheckForUpdates(c.now, c.env);
        if |effects| != before {
          times := times + [c.now];
        }
      }
      forall i, j | 0 <= i < j < |times| ensures times[i] + DebounceWindow < times[j] {
        NoTwoTriggersWithinWindow(start, checks, i, j);
      }
    }
  }

  // ----- properties of the gate -----

  /** A check triggers exactly when updates are enabled, the setting
      resolves to a target, both versions parse, the daemon's is strictly
      older, and the debounce window has passed; the target is then the
      newest release for "latest" and "", and the setting itself otherwise. */
  lemma TriggerConditions<V>(setting: string, lastTrigger: int, now: int, env: Env<V>)
    ensures Decide(setting, lastTrigger, now, env).Some? <==>
      && setting != DisableAutoUpdate
      && Resolve(setting, env.latest).Some?
      && env.parse(env.current).Some?
      && env.parse(Resolve(setting, env.latest).value).Some?
      && env.less(env.parse(env.current).value, env.parse(Resolve(setting, env.latest).value).value)
      && lastTrigger + 5 * Minute < now
    ensures Decide(setting, lastTrigger, now, env).Some? ==>
      Decide(setting, lastTrigger, now, env).value ==
        if setting == LatestVersion || setting == "" then env.latest.value else setting
  {
  }

  /** With updates disabled, or "latest" asked for before any release is
      known, a check never triggers, whatever the time and versions. */
  lemma NoTargetNoTrigger<V>(setting: string, lastTrigger: int, now: int, env: Env<V>)
    requires setting == DisableAutoUpdate || ((setting == LatestVersion || setting == "") && env.latest.None?)
    ensures Decide(setting, lastTrigger, now, env).None?
  {
  }

  /** For a strict order, a check never installs the version already
      running, nor an older one. */
  lemma NeverSameOrOlder<V(!new)>(setting: string, lastTrigger: int, now: int, env: Env<V>)
    requires forall x :: !env.less(x, x)
    requires forall x, y :: env.less(x, y) ==> !env.less(y, x)
    ensures var d := Decide(setting, lastTrigger, now, env);
      d.Some? ==> env.parse(d.value) != env.parse(env.current)
    ensures var d := Decide(setting, lastTrigger, now, env);
      d.Some? ==> !env.less(env.parse(d.value).value, env.parse(env.current).value)
  {
    var d := Decide(setting, lastTrigger, now, env);
    if d.Some? {
      assert Resolve(setting, env.latest) == d;
      var current, wanted := env.parse(env.current).value, env.parse(d.value).value;
      assert env.less(current, wanted);
    }
  }

  /** A manager's first check passes the debounce, since its last trigger
      is dated ten minutes before its construction. */
  lemma FirstCheckPassesDebounce(created: int, now: int)
    requires created <= now
    ensures DebounceElapsed(created - InitialLag, now)
  {
  }

  /** One check in a run: the setting held at the time, and the clock and
      environment it sees. */
  datatype Check<!V> = Check(setting: string, now: int, env: Env<V>)

  /** The times at which a run of checks triggers, starting from a manager
      whose last trigger was at `lastTrigger`. */
  function TriggerTimes<V>(lastTrigger: int, checks: seq<Check<V>>): seq<int>
    decreases |checks|
  {
    if checks == [] then []
    else
      var c := checks[0];
      if Decide(c.setting, lastTrigger, c.now, c.env).Some? then [c.now] + TriggerTimes(c.now, checks[1..])
      else TriggerTimes(lastTrigger, checks[1..])
  }

  /** The first check of a run and the rest. */
  lemma TriggerTimesStep<V>(lastTrigger: int, checks: seq<Check<V>>)
    requires checks != []
    ensures var c := checks[0];
      TriggerTimes(lastTrigger, checks) ==
        if Decide(c.setting, lastTrigger, c.now, c.env).Some? then [c.now] + TriggerTimes(c.now, checks[1..])
        else TriggerTimes(lastTrigger, checks[1..])
  {
  }

  /** Triggers are spread out: each comes more than five minutes after the
      one before it (the first, after the manager's initial trigger time),
      however the settings change and whatever the clock does in between. */
  lemma {:induction false} TriggersSpacedOut<V>(lastTrigger: int, checks: seq<Check<V>>)
    ensures var times := TriggerTimes(lastTrigger, checks);
      && |times| <= |checks|
      && (times != [] ==> lastTrigger + DebounceWindow < times[0])
      && (forall i | 0 <= i < |times| - 1 :: times[i] + DebounceWindow < times[i + 1])
    decreases |checks|
  {
    if checks != [] {
      var c := checks[0];
      if Decide(c.setting, lastTrigger, c.now, c.env).Some? {
        TriggersSpacedOut(c.now, checks[1..]);
        var rest := TriggerTimes(c.now, checks[1..]);
        assert TriggerTimes(lastTrigger, checks) == [c.now] + rest;
      } else {
        TriggersSpacedOut(lastTrigger, checks[1..]);
      }
    }
  }

  /** Within a run of checks at most one trigger falls in any window of five
      minutes. */
  lemma {:induction false} NoTwoTriggersWithinWindow<V>(lastTrigger: int, checks: seq<Check<V>>, i: nat, j: nat)
    requires i < j < |TriggerTimes(lastTrigger, checks)|
    ensures TriggerTimes(lastTrigger, checks)[i] + DebounceWindow < TriggerTimes(lastTrigger, checks)[j]
    decreases j - i
  {
    TriggersSpacedOut(lastTrigger, checks);
    if i + 1 < j {
      NoTwoTriggersWithinWindow(lastTrigger, checks, i + 1, j);
    }
  }
}
