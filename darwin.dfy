/**
 * The macOS installer (update_darwin.go). The package-receipt query decides
 * the route: a NetBird installed from the .pkg is upgraded by downloading the
 * new .pkg and handing it to `installer` without waiting; one installed
 * with Homebrew is upgraded by `brew upgrade` run as the owner of the tap,
 * after which the daemon sends itself SIGTERM so that launchd restarts it.
 */
module Darwin {
  import opened Wrappers
  import opened Strings
  import opened Exec
  import opened Artifacts

  /** The .pkg template: ReleasesBase, then "%version/netbird_%version_darwin_%arch.pkg". */
  const PkgDownloadUrl := Template(ReleasesBase, "/netbird_", "_darwin_", ".pkg")

  /** `pkgutil --pkg-info io.netbird.client`: the package receipt of the client. */
  const PkgInfoQuery := Cmd("pkgutil", ["--pkg-info", "io.netbird.client"], Inherited)

  /** The Homebrew tap whose owner is the user that installed NetBird. */
  const TapDir := "/opt/homebrew/Library/Taps/netbirdio/homebrew-tap/"

  /** Exit code 1 from the receipt query, and only that, means the package
      was not installed from a .pkg, hence with Homebrew. */
  predicate InstalledWithHomebrew(query: RunOutcome) {
    query.Exited? && query.code == 1
  }

  // ----- the .pkg route -----

  /** The URL of the .pkg for a version and architecture. */
  function PkgUrl(version: string, arch: string): string {
    ExpandUrl(PkgDownloadUrl, version, arch)
  }

  /** The .pkg URL names the release tag and the file of that version and
      architecture. */
  lemma PkgUrlSpelledOut(version: string, arch: string)
    requires '%' !in version
    ensures PkgUrl(version, arch)
      == ReleasesBase + (version + ("/netbird_" + (version + ("_darwin_" + (arch + ".pkg")))))
  {
    ExpandTemplate(ReleasesBase, "/netbird_", "_darwin_", ".pkg", version, arch);
  }

  /** Whatever the version and architecture, the download is a .pkg file. */
  lemma PkgUrlIsPkg(version: string, arch: string)
    ensures |PkgUrl(version, arch)| >= 4
    ensures PkgUrl(version, arch)[|PkgUrl(version, arch)| - 4..] == ".pkg"
  {
    ExpandTemplateEnding(ReleasesBase, "/netbird_", "_darwin_", ".pkg", version, arch);
  }

  /** The downloaded file is named after the version and architecture. */
  lemma PkgFileName(version: string, arch: string)
    requires '%' !in version && '/' !in version && '/' !in arch
    ensures DownloadFileName(PkgUrl(version, arch)) == "netbird_" + (version + ("_darwin_" + (arch + ".pkg")))
  {
    PkgUrlSpelledOut(version, arch);
    var rest := version + ("_darwin_" + (arch + ".pkg"));
    PkgUrlRegroup(version, rest);
    var file := "netbird_" + rest;
    DownloadFileNameAfterSlash(ReleasesBase + version, file);
  }

  /** The spelled-out package URL is a directory, a slash and the file name. */
  lemma PkgUrlRegroup(version: string, rest: string)
    ensures ReleasesBase + (version + ("/netbird_" + rest)) == (ReleasesBase + version) + ("/" + ("netbird_" + rest))
  {
    assert "/netbird_" + rest == "/" + ("netbird_" + rest);
  }

  /** A trimmed receipt line naming the install volume starts with this. */
  const VolumePrefix := "volume: "

  predicate IsVolumeLine(line: string) {
    VolumePrefix <= TrimSpace(line)
  }

  /** The second ": "-separated piece of a volume line: the text between the
      first ": " and the next one (or the end of the line). */
  function VolumeField(trimmed: string): (v: string)
    requires VolumePrefix <= trimmed
    ensures VolumePrefix + v <= trimmed
    ensures Free(v, ": ")
    ensures |trimmed| == |VolumePrefix| + |v| || OccursAt(trimmed, ": ", |VolumePrefix| + |v|)
  {
    VolumeSplit(trimmed);
    var rest := trimmed[|VolumePrefix|..];
    SplitFirstPiece(rest, ": ");
    var v := Split(rest, ": ")[0];
    assert trimmed == VolumePrefix + rest;
    OccursAtInSuffix(trimmed, ": ", |VolumePrefix|, |v|);
    Split(trimmed, ": ")[1]
  }

  /** On a volume line the first ": " is the one after "volume". */
  lemma VolumeSplit(trimmed: string)
    requires VolumePrefix <= trimmed
    ensures |Split(trimmed, ": ")| >= 2
    ensures Split(trimmed, ": ")[1] == Split(trimmed[|VolumePrefix|..], ": ")[0]
  {
    var sep := ": ";
    assert OccursAt(trimmed, sep, 6);
    forall j | 0 <= j < 6 ensures !OccursAt(trimmed, sep, j) {
      assert trimmed[j..j + 2][0] == trimmed[j] == VolumePrefix[j] != ':';
    }
    SplitSecondPiece(trimmed, sep, 6);
  }

  /** The install volume named by the receipt lines: the field of the last
      volume line, or "/" when there is none. */
  function VolumeOf(lines: seq<string>): (v: string)
    ensures v == "/" || exists i | 0 <= i < |lines| :: IsVolumeLine(lines[i]) && VolumePrefix + v <= TrimSpace(lines[i])
  {
    if lines == [] then "/"
    else
      var last := lines[|lines| - 1];
      if IsVolumeLine(last) then VolumeField(TrimSpace(last))
      else
        var v := VolumeOf(lines[..|lines| - 1]);
        assert forall i | 0 <= i < |lines| - 1 :: lines[..|lines| - 1][i] == lines[i];
        v
  }

  /** Without a volume line the package goes to "/". */
  lemma {:induction false} VolumeDefaultsToRoot(lines: seq<string>)
    requires forall i | 0 <= i < |lines| :: !IsVolumeLine(lines[i])
    ensures VolumeOf(lines) == "/"
  {
    if lines != [] {
      VolumeDefaultsToRoot(lines[..|lines| - 1]);
    }
  }

  /** The last volume line decides the volume. */
  lemma {:induction false} VolumeLastLineWins(lines: seq<string>, j: nat)
    requires j < |lines| && IsVolumeLine(lines[j])
    requires forall i | j < i < |lines| :: !IsVolumeLine(lines[i])
    ensures VolumeOf(lines) == VolumeField(TrimSpace(lines[j]))
    decreases |lines|
  {
    if j < |lines| - 1 {
      var init := lines[..|lines| - 1];
      assert init[j] == lines[j];
      VolumeLastLineWins(init, j);
    }
  }

  /** The receipt query's output, scanned line by line for the install volume. */
  method ParseVolume(output: string) returns (volume: string)
    ensures volume == VolumeOf(Split(output, "\n"))
  {
    var lines := Split(output, "\n");
    volume := "/";
    for i := 0 to |lines|
      invariant volume == VolumeOf(lines[..i])
    {
      assert lines[..i + 1][..i] == lines[..i];
      var trimmed := TrimSpace(lines[i]);
      if VolumePrefix <= trimmed {
        VolumeSplit(trimmed);
        volume := Split(trimmed, ": ")[1];
      }
    }
    assert lines[..|lines|] == lines;
  }

  /** `installer -pkg <path> -target <volume>`. */
  function InstallerCmd(path: string, volume: string): Cmd {
    Cmd("installer", ["-pkg", path, "-target", volume], Inherited)
  }

  /** The .pkg route: download, then start the installer and release it. */
  function PkgPlan(h: Host, target: string, query: RunOutcome): seq<Action> {
    var url := PkgUrl(target, h.arch);
    [Download(url)] +
      match h.download(url)
      case Failure(_) => []
      case Success(path) =>
        var installer := InstallerCmd(path, VolumeOf(Split(Output(query), "\n")));
        [Start(installer), Release(installer)]
  }

  // ----- the Homebrew route -----

  const BrewPath := "/opt/homebrew/bin/brew"
  const Formula := "netbirdio/tap/netbird"

  /** `id -nu <uid>`: the name of the tap's owner. */
  function IdCmd(uid: nat): Cmd {
    Cmd("id", ["-nu", Decimal(uid)], Inherited)
  }

  /** `sudo -u <user> sh -c 'echo $HOME'`: that user's home directory. */
  function HomeCmd(user: string): Cmd {
    Cmd("sudo", ["-u", user, "sh", "-c", "echo $HOME"], Inherited)
  }

  /** `sudo -u <user> brew upgrade netbirdio/tap/netbird`, with HOME as the
      only environment variable. */
  function BrewCmd(user: string, home: string): Cmd {
    Cmd("sudo", ["-u", user, BrewPath, "upgrade", Formula], Exactly(["HOME=" + home]))
  }

  /** `kill -15 <pid>`: SIGTERM to the daemon itself. */
  function KillCmd(pid: nat): Cmd {
    Cmd("kill", ["-15", Decimal(pid)], Inherited)
  }

  /** The user that owns the tap, as `id` names it. */
  function TapOwner(h: Host, uid: nat): string {
    TrimSpace(Output(h.run(IdCmd(uid))))
  }

  /** That user's home directory, as their shell reports it. */
  function OwnerHome(h: Host, user: string): string {
    TrimSpace(Output(h.run(HomeCmd(user))))
  }

  /** The uid that owns the tap, when os.Stat and the owner lookup succeed. */
  function TapUid(h: Host): Option<nat> {
    match h.stat(TapDir)
    case StatOk(owner) => owner
    case StatError(_) => None
  }

  /** The Homebrew route: find the tap's owner and their home, upgrade as
      that user, then terminate the daemon. */
  function HomebrewPlan(h: Host): seq<Action> {
    [Stat(TapDir)] +
      match TapUid(h)
      case Some(uid) => OwnerSteps(h, uid)
      case None => []
  }

  /** Once the tap's owner is known: name them, find their home, upgrade as
      them, then terminate the daemon. */
  function OwnerSteps(h: Host, uid: nat): seq<Action> {
    var user := TapOwner(h, uid);
    [Run(IdCmd(uid)), Run(HomeCmd(user)), Run(BrewCmd(user, OwnerHome(h, user))), Run(KillCmd(h.pid))]
  }

  /** Everything up to the upgrade succeeds on this host. */
  predicate UpgradeSucceeds(h: Host) {
    match TapUid(h)
    case Some(uid) =>
      var user := TapOwner(h, uid);
      && !RunFails(h.run(IdCmd(uid)))
      && !RunFails(h.run(HomeCmd(user)))
      && !RunFails(h.run(BrewCmd(user, OwnerHome(h, user))))
    case None => false
  }

  /** updateHomeBrew: each step returns at the first error, so the routine
      does exactly what Execute does with the Homebrew plan. */
  method UpdateHomeBrew(h: Host) returns (status: Status, log: seq<Action>)
    ensures Trace(status, log) == Execute(h, HomebrewPlan(h))
  {
    HomebrewSteps(h);
    log := [Stat(TapDir)];
    var info := h.stat(TapDir);
    if info.StatError? {
      return Err(StatFailed(info.reason)), log;
    }
    if info.owner.None? {
      return Err(OwnerUnknown), log;
    }
    var id := IdCmd(info.owner.value);
    log := log + [Run(id)];
    var out := h.run(id);
    if RunFails(out) {
      return Err(ErrorOf(h, Run(id))), log;
    }
    var userName := TrimSpace(Output(out));
    var home := HomeCmd(userName);
    log := log + [Run(home)];
    out := h.run(home);
    if RunFails(out) {
      return Err(ErrorOf(h, Run(home))), log;
    }
    var homeDir := TrimSpace(Output(out));
    var brew := BrewCmd(userName, homeDir);
    log := log + [Run(brew)];
    out := h.run(brew);
    if RunFails(out) {
      return Err(ErrorOf(h, Run(brew))), log;
    }
    var kill := KillCmd(h.pid);
    log := log + [Run(kill)];
    out := h.run(kill);
    status := if RunFails(out) then Err(ErrorOf(h, Run(kill))) else Ok;
  }

  /** Execute on the Homebrew plan, step by step: the first step that fails
      ends it with its own error. */
  lemma HomebrewSteps(h: Host)
    ensures var t := Execute(h, HomebrewPlan(h));
      var l0 := [Stat(TapDir)];
      if TapUid(h).None? then t == Trace(Err(ErrorOf(h, Stat(TapDir))), l0)
      else
        var uid := TapUid(h).value;
        var user := TapOwner(h, uid);
        var id, home := Run(IdCmd(uid)), Run(HomeCmd(user));
        var brew, kill := Run(BrewCmd(user, OwnerHome(h, user))), Run(KillCmd(h.pid));
        var l1 := l0 + [id];
        var l2 := l1 + [home];
        var l3 := l2 + [brew];
        var l4 := l3 + [kill];
        t == if Fails(h, id) then Trace(Err(ErrorOf(h, id)), l1)
          else if Fails(h, home) then Trace(Err(ErrorOf(h, home)), l2)
          else if Fails(h, brew) then Trace(Err(ErrorOf(h, brew)), l3)
          else if Fails(h, kill) then Trace(Err(ErrorOf(h, kill)), l4)
          else Trace(Ok, l4)
  {
    var plan := HomebrewPlan(h);
    if TapUid(h).Some? {
      var uid := TapUid(h).value;
      var user := TapOwner(h, uid);
      assert plan == [Stat(TapDir)] + [Run(IdCmd(uid))] + [Run(HomeCmd(user))]
        + [Run(BrewCmd(user, OwnerHome(h, user)))] + [Run(KillCmd(h.pid))];
    }
    if Fails(h, plan[0]) {
      ExecuteStopsAt(h, plan, 1);
    } else if Fails(h, plan[1]) {
      ExecuteStopsAt(h, plan, 2);
    } else if Fails(h, plan[2]) {
      ExecuteStopsAt(h, plan, 3);
    } else if Fails(h, plan[3]) {
      ExecuteStopsAt(h, plan, 4);
    } else if Fails(h, plan[4]) {
      ExecuteStopsAt(h, plan, 5);
    } else {
      ExecuteCompletes(h, plan);
    }
  }

  /** Execute on the .pkg plan, step by step. */
  lemma PkgSteps(h: Host, target: string, query: RunOutcome)
    ensures var t := Execute(h, PkgPlan(h, target, query));
      var url := PkgUrl(target, h.arch);
      var l0 := [Download(url)];
      if h.download(url).Failure? then t == Trace(Err(DownloadFailed(h.download(url).error)), l0)
      else
        var installer := InstallerCmd(h.download(url).value, VolumeOf(Split(Output(query), "\n")));
        var l1 := l0 + [Start(installer)];
        var l2 := l1 + [Release(installer)];
        t == if Fails(h, Start(installer)) then Trace(Err(ErrorOf(h, Start(installer))), l1)
          else if Fails(h, Release(installer)) then Trace(Err(ErrorOf(h, Release(installer))), l2)
          else Trace(Ok, l2)
  {
    var plan := PkgPlan(h, target, query);
    if Fails(h, plan[0]) {
      ExecuteStopsAt(h, plan, 1);
    } else if Fails(h, plan[1]) {
      ExecuteStopsAt(h, plan, 2);
    } else if Fails(h, plan[2]) {
      ExecuteStopsAt(h, plan, 3);
    } else {
      ExecuteCompletes(h, plan);
    }
  }

  /** The plan of the route the receipt query picks. */
  function TriggerPlan(h: Host, target: string): seq<Action> {
    var query := h.run(PkgInfoQuery);
    if InstalledWithHomebrew(query) then HomebrewPlan(h) else PkgPlan(h, target, query)
  }

  /** triggerUpdate: after the receipt query the routine does exactly what
      Execute does with the plan of the route the query picks. */
  method TriggerUpdate(h: Host, target: string) returns (status: Status, log: seq<Action>)
    ensures var t := Execute(h, TriggerPlan(h, target));
      status == t.status && log == [Run(PkgInfoQuery)] + t.log
  {
    var query := h.run(PkgInfoQuery);
    var steps: seq<Action>;
    if InstalledWithHomebrew(query) {
      status, steps := UpdateHomeBrew(h);
      return status, [Run(PkgInfoQuery)] + steps;
    }
    PkgSteps(h, target, query);
    var url := PkgUrl(target, h.arch);
    steps := [Download(url)];
    var download := h.download(url);
    if download.Failure? {
      return Err(DownloadFailed(download.error)), [Run(PkgInfoQuery)] + steps;
    }
    var volume := ParseVolume(Output(query));
    var installer := InstallerCmd(download.value, volume);
    steps := steps + [Start(installer)];
    var started := h.start(installer);
    if started.Some? {
      return Err(CannotStart(started.value)), [Run(PkgInfoQuery)] + steps;
    }
    steps := steps + [Release(installer)];
    var released := h.release(installer);
    status := if released.Some? then Err(ReleaseFailed(released.value)) else Ok;
    log := [Run(PkgInfoQuery)] + steps;
  }

  // ----- properties of the two routes -----

  /** Only a query that ran and exited with code 1 leads to Homebrew; every
      other outcome, a query that never started included, downloads the .pkg. */
  lemma RouteByExitCode(h: Host, target: string)
    ensures var query := h.run(PkgInfoQuery);
      TriggerPlan(h, target)[0] == if query.Exited? && query.code == 1
        then Stat(TapDir) else Download(PkgUrl(target, h.arch))
  {
  }

  /** When the download fails, the failure is returned and no installer is
      started. */
  lemma PkgDownloadFailureStops(h: Host, target: string, query: RunOutcome)
    requires h.download(PkgUrl(target, h.arch)).Failure?
    ensures var t := Execute(h, PkgPlan(h, target, query));
      && t.status == Err(DownloadFailed(h.download(PkgUrl(target, h.arch)).error))
      && forall a | a in t.log :: !a.Start? && !a.Run?
  {
    PkgSteps(h, target, query);
  }

  /** On the .pkg route the installer is never waited on: the only command
      is `installer -pkg <downloaded file> -target <volume>`, started and then
      released, and that only after the download succeeded. */
  lemma PkgInstallerDetached(h: Host, target: string, query: RunOutcome)
    ensures var url := PkgUrl(target, h.arch);
      var t := Execute(h, PkgPlan(h, target, query));
      && (forall a | a in t.log :: !a.Run?)
      && (forall a | a in t.log && (a.Start? || a.Release?) ::
            && h.download(url).Success?
            && a.cmd == InstallerCmd(h.download(url).value, VolumeOf(Split(Output(query), "\n"))))
      && (t.status.Ok? ==> |t.log| == 3 && t.log[1].Start? && t.log[2] == Release(t.log[1].cmd))
  {
    PkgSteps(h, target, query);
  }

  /** SIGTERM goes to the daemon's own pid exactly when the tap's owner was
      found and `id`, the home lookup and `brew upgrade` all succeeded. */
  lemma KillOnlyAfterUpgrade(h: Host)
    ensures Run(KillCmd(h.pid)) in Execute(h, HomebrewPlan(h)).log <==> UpgradeSucceeds(h)
  {
    HomebrewSteps(h);
    var t := Execute(h, HomebrewPlan(h));
    if TapUid(h).Some? {
      var uid := TapUid(h).value;
      var user := TapOwner(h, uid);
      var kill := Run(KillCmd(h.pid));
      assert kill != Run(IdCmd(uid)) && kill != Run(HomeCmd(user));
      assert kill != Run(BrewCmd(user, OwnerHome(h, user)));
    }
  }

  /** Once the tap's owner is known, the plan upgrades as that user, as `id`
      names them without surrounding white space, with HOME, that user's
      home directory, as the only variable; and this is the only command
      with an environment of its own. */
  lemma UpgradeRunsAsTapOwner(h: Host, uid: nat)
    requires TapUid(h) == Some(uid)
    ensures var u := TrimSpace(Output(h.run(IdCmd(uid))));
      var home := TrimSpace(Output(h.run(HomeCmd(u))));
      var upgrade := Cmd("sudo", ["-u", u, BrewPath, "upgrade", Formula], Exactly(["HOME=" + home]));
      && Run(upgrade) in HomebrewPlan(h)
      && forall a | a in HomebrewPlan(h) && a.Run? && a.cmd.env != Inherited :: a.cmd == upgrade
  {
    assert HomebrewPlan(h)[3] == Run(BrewCmd(TapOwner(h, uid), OwnerHome(h, TapOwner(h, uid))));
  }
}
