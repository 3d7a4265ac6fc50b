/**
 * The Windows installer (update_windows.go). Two registry probes tell how
 * NetBird was installed: an uninstall key, under either registry view,
 * means the .exe installer was used and the new .exe is started silently
 * and released; no key means an MSI installation, upgraded by running
 * `msiexec` and waiting for it.
 */
module Windows {
  import opened Wrappers
  import opened Strings
  import opened Exec
  import opened Artifacts

  /** The .msi template: ReleasesBase, then "%version/netbird_installer_%version_windows_%arch.msi". */
  const MsiDownloadUrl := Template(ReleasesBase, "/netbird_installer_", "_windows_", ".msi")

  /** The .exe template: ReleasesBase, then "%version/netbird_installer_%version_windows_%arch.exe". */
  const ExeDownloadUrl := Template(ReleasesBase, "/netbird_installer_", "_windows_", ".exe")

  /** The part of the uninstall key path that both registry views share. */
  const UninstallKey := @"Microsoft\Windows\CurrentVersion\Uninstall\Netbird"

  /** The uninstall key as the 32-bit registry view on a 64-bit system shows it. */
  const UninstallKeyPath64 := @"SOFTWARE\WOW6432Node\" + UninstallKey

  /** The uninstall key in the native registry view. */
  const UninstallKeyPath32 := @"SOFTWARE\" + UninstallKey

  const ExeMethod := "EXE"
  const MsiMethod := "MSI"

  /** What installationMethod returns, and the registry operations it made. */
  datatype Probe = Probe(name: string, log: seq<Action>)

  /** installationMethod: probe the 64-bit view's key, and the native one
      only if that fails; any key that opens is closed again (a close error
      is only logged) and means "EXE", and no key at all means "MSI". */
  function InstallationMethod(keyOpens: string -> bool): (p: Probe)
    ensures p.name == ExeMethod <==> keyOpens(UninstallKeyPath64) || keyOpens(UninstallKeyPath32)
    ensures p.name == MsiMethod <==> !keyOpens(UninstallKeyPath64) && !keyOpens(UninstallKeyPath32)
    ensures p.name == ExeMethod || p.name == MsiMethod
  {
    var k64, k32 := UninstallKeyPath64, UninstallKeyPath32;
    if keyOpens(k64) then
      Probe(ExeMethod, [OpenKey(k64), CloseKey(k64)])
    else if keyOpens(k32) then
      Probe(ExeMethod, [OpenKey(k64), OpenKey(k32), CloseKey(k32)])
    else
      Probe(MsiMethod, [OpenKey(k64), OpenKey(k32)])
  }

  /** The 64-bit view is probed first, and the native view only when that
      key does not open; the probe does nothing but open and close keys. */
  lemma NativeKeyProbedOnlyAsFallback(keyOpens: string -> bool)
    ensures var p := InstallationMethod(keyOpens);
      && p.log != [] && p.log[0] == OpenKey(UninstallKeyPath64)
      && (OpenKey(UninstallKeyPath32) in p.log <==> !keyOpens(UninstallKeyPath64))
      && forall a | a in p.log :: a.OpenKey? || a.CloseKey?
  {
    assert |UninstallKeyPath64| != |UninstallKeyPath32|;
  }

  /** Every key that opened is closed exactly once, and no other key is
      closed. */
  lemma OpenedKeysClosedOnce(keyOpens: string -> bool, key: string)
    ensures var p := InstallationMethod(keyOpens);
      multiset(p.log)[CloseKey(key)] == if OpenKey(key) in p.log && keyOpens(key) then 1 else 0
  {
    var k64, k32 := UninstallKeyPath64, UninstallKeyPath32;
    assert |k64| != |k32|;
    var p := InstallationMethod(keyOpens);
    if keyOpens(k64) {
      assert p.log == [OpenKey(k64)] + [CloseKey(k64)];
    } else if keyOpens(k32) {
      assert p.log == [OpenKey(k64)] + [OpenKey(k32)] + [CloseKey(k32)];
    } else {
      assert p.log == [OpenKey(k64)] + [OpenKey(k32)];
    }
  }

  // ----- updateMSI -----

  /** The URL of the .msi for a version and architecture. */
  function MsiUrl(version: string, arch: string): string {
    ExpandUrl(MsiDownloadUrl, version, arch)
  }

  /** `msiexec /quiet /i <path>`. */
  function MsiCmd(path: string): Cmd {
    Cmd("msiexec", ["/quiet", "/i", path], Inherited)
  }

  /** Download the .msi, then run msiexec on it and wait for it to exit. */
  function MsiPlan(h: Host, target: string): seq<Action> {
    var url := MsiUrl(target, h.arch);
    [Download(url)] + if h.download(url).Failure? then [] else [Run(MsiCmd(h.download(url).value))]
  }

  /** Execute on the MSI plan, step by step. */
  lemma MsiSteps(h: Host, target: string)
    ensures var t := Execute(h, MsiPlan(h, target));
      var url := MsiUrl(target, h.arch);
      var l0 := [Download(url)];
      if h.download(url).Failure? then t == Trace(Err(DownloadFailed(h.download(url).error)), l0)
      else
        var msiexec := Run(MsiCmd(h.download(url).value));
        t == if Fails(h, msiexec) then Trace(Err(ErrorOf(h, msiexec)), l0 + [msiexec])
          else Trace(Ok, l0 + [msiexec])
  {
    var plan := MsiPlan(h, target);
    if Fails(h, plan[0]) {
      ExecuteStopsAt(h, plan, 1);
    } else if Fails(h, plan[1]) {
      ExecuteStopsAt(h, plan, 2);
    } else {
      ExecuteCompletes(h, plan);
    }
  }

  /** updateMSI. */
  method UpdateMsi(h: Host, target: string) returns (status: Status, log: seq<Action>)
    ensures Trace(status, log) == Execute(h, MsiPlan(h, target))
  {
    MsiSteps(h, target);
    var url := MsiUrl(target, h.arch);
    log := [Download(url)];
    var download := h.download(url);
    if download.Failure? {
      return Err(DownloadFailed(download.error)), log;
    }
    var msiexec := MsiCmd(download.value);
    log := log + [Run(msiexec)];
    var out := h.run(msiexec);
    status := if RunFails(out) then Err(ErrorOf(h, Run(msiexec))) else Ok;
  }

  /** msiexec is waited for: it is never started and released, it is run
      only on the downloaded file, and only after the download succeeded. */
  lemma MsiWaitsForInstaller(h: Host, target: string)
    ensures var url := MsiUrl(target, h.arch);
      var t := Execute(h, MsiPlan(h, target));
      && (forall a | a in t.log :: !a.Start? && !a.Release?)
      && (forall a | a in t.log && a.Run? ::
            h.download(url).Success? && a.cmd == MsiCmd(h.download(url).value))
      && (t.status.Ok? <==>
            h.download(url).Success? && !RunFails(h.run(MsiCmd(h.download(url).value))))
  {
    MsiSteps(h, target);
  }

  // ----- updateEXE -----

  /** The URL of the .exe for a version and architecture. */
  function ExeUrl(version: string, arch: string): string {
    ExpandUrl(ExeDownloadUrl, version, arch)
  }

  /** `<path> /S`: the downloaded installer itself, in silent mode. */
  function ExeCmd(path: string): Cmd {
    Cmd(path, ["/S"], Inherited)
  }

  /** Download the .exe, then start it and release it without waiting. */
  function ExePlan(h: Host, target: string): seq<Action> {
    var url := ExeUrl(target, h.arch);
    [Download(url)] +
      if h.download(url).Failure? then []
      else [Start(ExeCmd(h.download(url).value)), Release(ExeCmd(h.download(url).value))]
  }

  /** Execute on the EXE plan, step by step. */
  lemma ExeSteps(h: Host, target: string)
    ensures var t := Execute(h, ExePlan(h, target));
      var url := ExeUrl(target, h.arch);
      var l0 := [Download(url)];
      if h.download(url).Failure? then t == Trace(Err(DownloadFailed(h.download(url).error)), l0)
      else
        var installer := ExeCmd(h.download(url).value);
        var l1 := l0 + [Start(installer)];
        var l2 := l1 + [Release(installer)];
        t == if Fails(h, Start(installer)) then Trace(Err(ErrorOf(h, Start(installer))), l1)
          else if Fails(h, Release(installer)) then Trace(Err(ErrorOf(h, Release(installer))), l2)
          else Trace(Ok, l2)
  {
    var plan := ExePlan(h, target);
    if Fails(h, plan[0]) {
      ExecuteStopsAt(h, plan, 1);
    } else if Fails(h, plan[1]) {
      ExecuteStopsAt(h, plan, 2);
    } else if Fails(h, plan[2]) {
      ExecuteStopsAt(h, plan, 3);
    } else {
      ExecuteCompletes(h, plan);
    }
  }

  /** updateEXE. */
  method UpdateExe(h: Host, target: string) returns (status: Status, log: seq<Action>)
    ensures Trace(status, log) == Execute(h, ExePlan(h, target))
  {
    ExeSteps(h, target);
    var url := ExeUrl(target, h.arch);
    log := [Download(url)];
    var download := h.download(url);
    if download.Failure? {
      return Err(DownloadFailed(download.error)), log;
    }
    var installer := ExeCmd(download.value);
    log := log + [Start(installer)];
    var started := h.start(installer);
    if started.Some? {
      return Err(CannotStart(started.value)), log;
    }
    log := log + [Release(installer)];
    var released := h.release(installer);
    status := if released.Some? then Err(ReleaseFailed(released.value)) else Ok;
  }

  /** The .exe is never waited for: nothing is run to completion, and the
      process that is started, the downloaded file with `/S`, is the one that
      is released, right after it started. */
  lemma ExeNeverWaits(h: Host, target: string)
    ensures var url := ExeUrl(target, h.arch);
      var t := Execute(h, ExePlan(h, target));
      && (forall a | a in t.log :: !a.Run?)
      && (forall a | a in t.log && (a.Start? || a.Release?) ::
            h.download(url).Success? && a.cmd == ExeCmd(h.download(url).value))
      && (t.status.Ok? ==> |t.log| == 3 && t.log[1].Start? && t.log[2] == Release(t.log[1].cmd))
  {
    ExeSteps(h, target);
  }

  // ----- the artifacts -----

  /** Whatever the version and architecture, the MSI route downloads a .msi
      and the EXE route a .exe. */
  lemma InstallerExtensions(version: string, arch: string)
    ensures var msi, exe := MsiUrl(version, arch), ExeUrl(version, arch);
      && |msi| >= 4 && msi[|msi| - 4..] == ".msi"
      && |exe| >= 4 && exe[|exe| - 4..] == ".exe"
  {
    ExpandTemplateEnding(ReleasesBase, "/netbird_installer_", "_windows_", ".msi", version, arch);
    ExpandTemplateEnding(ReleasesBase, "/netbird_installer_", "_windows_", ".exe", version, arch);
  }

  /** The two installers of a version are published side by side under the
      same release tag and differ only in their extension. */
  lemma InstallerUrlsSpelledOut(version: string, arch: string)
    requires '%' !in version
    ensures var stem := ReleasesBase + (version + ("/netbird_installer_" + (version + ("_windows_" + arch))));
      && MsiUrl(version, arch) == stem + ".msi"
      && ExeUrl(version, arch) == stem + ".exe"
  {
    var l1, l2 := "/netbird_installer_", "_windows_";
    ExpandTemplate(ReleasesBase, l1, l2, ".msi", version, arch);
    ExpandTemplate(ReleasesBase, l1, l2, ".exe", version, arch);
    RegroupEnding(ReleasesBase, l1, l2, version, arch, ".msi");
    RegroupEnding(ReleasesBase, l1, l2, version, arch, ".exe");
  }

  /** Moving the extension of an expanded URL to the outside. */
  lemma RegroupEnding(l0: string, l1: string, l2: string, version: string, arch: string, ext: string)
    ensures l0 + (version + (l1 + (version + (l2 + (arch + ext)))))
      == l0 + (version + (l1 + (version + (l2 + arch)))) + ext
  {
    var r2 := l2 + arch;
    assert l2 + (arch + ext) == r2 + ext;
    var r1 := version + (l1 + (version + r2));
    assert version + (l1 + (version + (r2 + ext))) == r1 + ext;
  }

  // ----- triggerUpdate -----

  /** The plan of the method installationMethod picks; the target version is
      passed on unchanged. */
  function UpdatePlan(h: Host, target: string): seq<Action> {
    if InstallationMethod(h.keyOpens).name == ExeMethod then ExePlan(h, target) else MsiPlan(h, target)
  }

  /** triggerUpdate: probe the registry, then update through updateEXE or
      updateMSI as the probe says. Its `default` branch, an unsupported
      method, cannot be reached. */
  method TriggerUpdate(h: Host, target: string) returns (status: Status, log: seq<Action>)
    ensures var probe := InstallationMethod(h.keyOpens);
      var t := Execute(h, UpdatePlan(h, target));
      status == t.status && log == probe.log + t.log
  {
    var probe := InstallationMethod(h.keyOpens);
    var steps: seq<Action>;
    if probe.name == ExeMethod {
      status, steps := UpdateExe(h, target);
    } else if probe.name == MsiMethod {
      status, steps := UpdateMsi(h, target);
    } else {
      assert false;
    }
    log := probe.log + steps;
  }

  /** An installation found under either registry view is upgraded with the
      .exe, and only then; otherwise the .msi is used. */
  lemma DispatchByRegistry(h: Host, target: string)
    ensures var url := UpdatePlan(h, target)[0].url;
      && UpdatePlan(h, target)[0].Download?
      && (h.keyOpens(UninstallKeyPath64) || h.keyOpens(UninstallKeyPath32) ==> url == ExeUrl(target, h.arch))
      && (!h.keyOpens(UninstallKeyPath64) && !h.keyOpens(UninstallKeyPath32) ==> url == MsiUrl(target, h.arch))
  {
  }
}
