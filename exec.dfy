/**
 * The outside world of the updater, as the update routines see it: external
 * commands (os/exec), file metadata (os.Stat), registry keys, the downloader
 * and the daemon's own process id. Each is an oracle in `Host`; what the
 * updater does to the world is the ordered list of `Action`s it issues.
 *
 * Every update routine is a straight line of steps, each of which returns
 * at the first error. `Execute` is that discipline stated once: the routines
 * are proved to issue exactly `Execute(h, plan).log` for their own plan.
 */
module Exec {
  import opened Wrappers

  /** The environment a command runs with: the daemon's own (Go's nil
      `cmd.Env`) or exactly the listed variables and nothing else. */
  datatype Environ = Inherited | Exactly(vars: seq<string>)

  /** An external command as exec.Command builds it: program, arguments, environment. */
  datatype Cmd = Cmd(path: string, args: seq<string>, env: Environ)

  /** What running a command to completion (Run, Output, CombinedOutput)
      reports: its exit code and captured output, or that it never started. */
  datatype RunOutcome = Exited(code: int, output: string) | NotStarted(reason: string)

  /** What os.Stat reports for a path, and the owner's uid when the file
      information carries a syscall.Stat_t (None when it does not). */
  datatype StatOutcome = StatError(reason: string) | StatOk(owner: Option<nat>)

  /** The oracles: what each command, download, stat and registry probe
      yields on this host, the daemon's pid and runtime.GOARCH. */
  datatype Host = Host(
    run: Cmd -> RunOutcome,
    start: Cmd -> Option<string>,
    release: Cmd -> Option<string>,
    download: string -> Result<string, string>,
    stat: string -> StatOutcome,
    keyOpens: string -> bool,
    pid: nat,
    arch: string)

  /** One thing the updater does to the world. */
  datatype Action =
    | Download(url: string)   // downloadFileToTemporaryDir(url)
    | Stat(path: string)      // os.Stat(path) and the owner lookup
    | Run(cmd: Cmd)           // start the command and wait for it to exit
    | Start(cmd: Cmd)         // start the command
    | Release(cmd: Cmd)       // release the started process without waiting
    | OpenKey(path: string)   // open an HKLM registry key
    | CloseKey(path: string)  // close an opened registry key

  /** The errors an update attempt returns. */
  datatype Error =
    | ExitStatus(code: int)
    | CannotStart(reason: string)
    | ReleaseFailed(reason: string)
    | DownloadFailed(reason: string)
    | StatFailed(reason: string)
    | OwnerUnknown
    | UnsupportedMethod(name: string)

  /** Go's `error` result: nil or an error. */
  datatype Status = Ok | Err(error: Error)

  /** The outcome of a routine and the actions it issued, in order. */
  datatype Trace = Trace(status: Status, log: seq<Action>)

  /** The output a completed command left behind (none if it never started). */
  function Output(o: RunOutcome): string {
    match o
    case Exited(_, out) => out
    case NotStarted(_) => ""
  }

  /** A command run to completion fails when it cannot start or exits non-zero. */
  predicate RunFails(o: RunOutcome) {
    !(o.Exited? && o.code == 0)
  }

  /** Whether the host makes this action fail. Registry probes never abort a
      routine: their results only steer the choice of installer. */
  predicate Fails(h: Host, a: Action) {
    match a
    case Download(url) => h.download(url).Failure?
    case Stat(path) => !(h.stat(path).StatOk? && h.stat(path).owner.Some?)
    case Run(cmd) => RunFails(h.run(cmd))
    case Start(cmd) => h.start(cmd).Some?
    case Release(cmd) => h.release(cmd).Some?
    case OpenKey(_) => false
    case CloseKey(_) => false
  }

  /** The error a routine returns when this action fails. */
  function ErrorOf(h: Host, a: Action): Error
    requires Fails(h, a)
  {
    match a
    case Download(url) => DownloadFailed(h.download(url).error)
    case Stat(path) =>
      (match h.stat(path)
       case StatError(reason) => StatFailed(reason)
       case StatOk(_) => OwnerUnknown)
    case Run(cmd) =>
      (match h.run(cmd)
       case NotStarted(reason) => CannotStart(reason)
       case Exited(code, _) => ExitStatus(code))
    case Start(cmd) => CannotStart(h.start(cmd).value)
    case Release(cmd) => ReleaseFailed(h.release(cmd).value)
  }

  /** Carry out `plan` step by step, returning at the first step that fails
      with that step's error. */
  function Execute(h: Host, plan: seq<Action>): Trace {
    if plan == [] then Trace(Ok, [])
    else if Fails(h, plan[0]) then Trace(Err(ErrorOf(h, plan[0])), [plan[0]])
    else
      var rest := Execute(h, plan[1..]);
      Trace(rest.status, [plan[0]] + rest.log)
  }

  /** Execute issues a prefix of the plan in which every step but the last
      succeeded; it returns nil exactly when no step fails, having issued the
      whole plan, and otherwise the error of the step it stopped at. */
  lemma {:induction false} ExecuteStopsAtFirstFailure(h: Host, plan: seq<Action>)
    ensures var t := Execute(h, plan);
      && t.log <= plan
      && (forall i | 0 <= i < |t.log| - 1 :: !Fails(h, t.log[i]))
      && (t.status.Ok? <==> forall i | 0 <= i < |plan| :: !Fails(h, plan[i]))
      && (t.status.Ok? ==> t.log == plan)
      && (t.status.Err? ==>
        && t.log != []
        && Fails(h, t.log[|t.log| - 1])
        && t.status.error == ErrorOf(h, t.log[|t.log| - 1]))
  {
    if plan != [] && !Fails(h, plan[0]) {
      ExecuteStopsAtFirstFailure(h, plan[1..]);
      assert forall i | 1 <= i < |plan| :: plan[i] == plan[1..][i - 1];
    }
  }

  /** A plan whose first `n - 1` steps succeed and whose step `n` fails
      stops right there, with that step's error. */
  lemma {:induction false} ExecuteStopsAt(h: Host, plan: seq<Action>, n: nat)
    requires 0 < n <= |plan|
    requires forall i | 0 <= i < n - 1 :: !Fails(h, plan[i])
    requires Fails(h, plan[n - 1])
    ensures Execute(h, plan) == Trace(Err(ErrorOf(h, plan[n - 1])), plan[..n])
  {
    if n > 1 {
      assert !Fails(h, plan[0]);
      assert forall i | 0 <= i < n - 2 :: plan[1..][i] == plan[i + 1];
      ExecuteStopsAt(h, plan[1..], n - 1);
      assert plan[..n] == [plan[0]] + plan[1..][..n - 1];
    }
  }

  /** A plan none of whose steps fails runs to the end. */
  lemma ExecuteCompletes(h: Host, plan: seq<Action>)
    requires forall i | 0 <= i < |plan| :: !Fails(h, plan[i])
    ensures Execute(h, plan) == Trace(Ok, plan)
  {
    ExecuteStopsAtFirstFailure(h, plan);
  }
}
