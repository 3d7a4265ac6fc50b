# NetBird client self-update agent, modelled in Dafny

This project models the self-update agent of the NetBird client daemon
(`client/internal/updatemanager`). It has three parts:

- **The version gate** (`manager.go`). `UpdateManager` holds the auto-update
  setting that the management service last sent (`version`) and the time it
  last started an installer (`lastTrigger`). `SetVersion` stores a new
  setting and schedules a background check. `CheckForUpdates` compares the
  daemon's version with the setting's target. It triggers only when the
  target is strictly newer and more than five minutes have passed since the
  last trigger. A trigger publishes one system event, then calls the
  platform installer.
- **The macOS installer** (`update_darwin.go`). The exit code of
  `pkgutil --pkg-info io.netbird.client` picks the route:
  - a `.pkg` installation downloads the new package, reads the install
    volume from the receipt, then starts and releases `installer`;
  - a Homebrew installation looks up the owner of the tap directory and that
    user's home, runs `brew upgrade` as that user, then sends SIGTERM to the
    daemon itself so that it is restarted.
- **The Windows installer** (`update_windows.go`). `installationMethod`
  probes two registry uninstall keys:
  - a key that opens means an `.exe` installation: the new `.exe` is started
    silently and released;
  - no key means an MSI installation: `msiexec` is run and waited for.

Modules:

| file | module | contents |
|---|---|---|
| `wrappers.dfy` | `Wrappers` | `Option`, `Result` |
| `strings.dfy` | `Strings` | Go's `strings.Index`, `Split`, `ReplaceAll`, `TrimSpace` and `%d` formatting, with their laws |
| `exec.dfy` | `Exec` | the outside world as oracles (`Host`), the action log, and `Execute`, the run-until-the-first-error discipline every update routine follows |
| `artifacts.dfy` | `Artifacts` | URL templates and their expansion; the downloader's file name |
| `manager.dfy` | `Manager` | the `UpdateManager` class and the version gate |
| `darwin.dfy` | `Darwin` | `triggerUpdate`, volume parsing and `updateHomeBrew` for macOS |
| `windows.dfy` | `Windows` | `installationMethod`, `updateMSI`, `updateEXE` and `triggerUpdate` for Windows |

External commands, downloads, `os.Stat`, registry probes, the daemon's pid
and `runtime.GOARCH` are fields of a `Host` value. Each update routine is a
method that returns its error status and the ordered list of actions it
issued. A routine without a probe is proved equal to `Execute` applied to
its plan function. `TriggerUpdate` on macOS is proved to issue the receipt
query and then `Execute` the plan of the route the query picks. On Windows
it issues the registry probe first in the same way. The lemmas about the
plan functions state what the routines do.

## Model

| member | source | states |
|---|---|---|
| Manager.UpdateManager.constructor | client/internal/updatemanager/manager.go:35-49 | a new manager has updates disabled, its last trigger ten minutes before construction, no effects and no scheduled check |
| Manager.UpdateManager.SetVersion | client/internal/updatemanager/manager.go:51-57 | the setting becomes `v`; exactly one check is scheduled when `v` differs from the old setting and none when it is the same; nothing else changes |
| Manager.UpdateManager.CheckForUpdates | client/internal/updatemanager/manager.go:64-107 | when `Decide` names a target, `lastTrigger` becomes `now` and the effects grow by exactly the update event followed by one installer call with that target; otherwise `lastTrigger` and the effects are unchanged; the setting and the scheduled checks never change |
| Manager.UpdateManager.RunChecks | client/internal/updatemanager/manager.go:88-90 | running a series of checks one after another triggers exactly at the times `TriggerTimes` gives, and any two of those times are more than five minutes apart |
| Manager.Decide | client/internal/updatemanager/manager.go:65-89 | a check names a target only when updates are not disabled, the target parses to a version strictly newer than the running one, and more than five minutes have passed since the last trigger; `Manager.TriggerConditions` adds the converse and which target is named |
| Manager.TriggerConditions | client/internal/updatemanager/manager.go:64-106 | a check triggers if and only if the setting is not "disabled", it resolves to a target, both versions parse, the current one is strictly less, and `lastTrigger + 5min < now`; the target is the latest release for "latest" and "", and the setting itself otherwise |
| Manager.NoTargetNoTrigger | client/internal/updatemanager/manager.go:65-75 | with updates disabled, or with "latest"/"" asked for while no release is known, no check triggers, whatever the time and versions |
| Manager.NeverSameOrOlder | client/internal/updatemanager/manager.go:88-106 | for an irreflexive and asymmetric order, a triggered target never parses to the current version and is never older than it |
| Manager.FirstCheckPassesDebounce | client/internal/updatemanager/manager.go:40 | any check at or after construction passes the debounce of a new manager |
| Manager.TriggersSpacedOut | client/internal/updatemanager/manager.go:89-90 | over any run of checks there are at most as many triggers as checks; the first trigger is more than five minutes after the initial trigger time, and each later one is more than five minutes after the one before it |
| Manager.NoTwoTriggersWithinWindow | client/internal/updatemanager/manager.go:89-90 | any two triggers in a run of checks are more than five minutes apart |
| Artifacts.DownloadFileName | client/internal/updatemanager/manager.go:114-115 | the file name is the suffix of the URL after its last "/": it contains no "/", the URL ends with it, a "/" precedes it unless it is the whole URL, and it is empty when the URL ends in "/" |
| Artifacts.DownloadFileNameAfterSlash | client/internal/updatemanager/manager.go:114-115 | the file name of `dir + "/" + file` is `file` when `file` has no "/" |
| Artifacts.ExpandUrl | client/internal/updatemanager/update_darwin.go:28-29 | a template without "%" is its own URL; `Artifacts.ExpandTemplate` gives what every installer template expands to (the Windows installers repeat the same two replacements at update_windows.go:45-46 and 57-58) |
| Artifacts.ExpandTemplate | client/internal/updatemanager/update_darwin.go:28-29 | a template of literal pieces around two `%version` slots and one `%arch` slot expands to the pieces with the version and the architecture in place, provided no piece and not the version contains "%" |
| Artifacts.ExpandVersionPass | client/internal/updatemanager/update_darwin.go:28 | the `%version` pass fills both version slots and leaves `%arch` in place |
| Artifacts.ExpandTemplateEnding | client/internal/updatemanager/update_darwin.go:28-29 | the last literal piece of a template ends every expansion, whatever the version and the architecture |
| Artifacts.ArchSurvivesVersionPass | client/internal/updatemanager/update_darwin.go:28 | `%arch` is not an occurrence of `%version` and survives the first pass |
| Artifacts.ReplaceOnce | client/internal/updatemanager/update_darwin.go:28 | one occurrence after a prefix free of the pattern's first character is replaced, and the prefix is kept |
| Artifacts.ExpandKeepsSuffix | client/internal/updatemanager/update_darwin.go:28-29 | a literal suffix that no placeholder can reach into is kept by the expansion |
| Darwin.PkgUrlSpelledOut | client/internal/updatemanager/update_darwin.go:16 | the .pkg URL is the releases URL, then `<version>/netbird_<version>_darwin_<arch>.pkg` |
| Darwin.PkgUrlIsPkg | client/internal/updatemanager/update_darwin.go:16 | every .pkg URL ends in ".pkg" |
| Darwin.PkgFileName | client/internal/updatemanager/update_darwin.go:28-30 | the downloaded package is named `netbird_<version>_darwin_<arch>.pkg` |
| Darwin.VolumeOf | client/internal/updatemanager/update_darwin.go:35-41 | the volume is "/" or the text after "volume: " on one of the volume lines; `Darwin.VolumeDefaultsToRoot` and `Darwin.VolumeLastLineWins` say which |
| Darwin.VolumeField | client/internal/updatemanager/update_darwin.go:39 | the second ": "-piece of a volume line is the text right after "volume: " up to the next ": " or the end of the line, and contains no ": " |
| Darwin.VolumeSplit | client/internal/updatemanager/update_darwin.go:39 | a line starting with "volume: " splits into at least two pieces, and the second is the first piece of the text after "volume: " |
| Darwin.VolumeDefaultsToRoot | client/internal/updatemanager/update_darwin.go:35-41 | without a volume line the volume is "/" |
| Darwin.VolumeLastLineWins | client/internal/updatemanager/update_darwin.go:36-41 | when several lines name a volume, the last of them decides it |
| Darwin.ParseVolume | client/internal/updatemanager/update_darwin.go:35-41 | the loop over the receipt's lines yields `VolumeOf` of those lines |
| Darwin.HomebrewSteps | client/internal/updatemanager/update_darwin.go:57-108 | the Homebrew route runs the tap stat, `id -nu`, the home lookup, `brew upgrade` and `kill -15` in that order; the first that fails ends the route with its own error, and nothing after it is issued |
| Darwin.UpdateHomeBrew | client/internal/updatemanager/update_darwin.go:54-109 | `updateHomeBrew` returns exactly the status and issues exactly the actions of `Execute` on the Homebrew plan |
| Darwin.PkgSteps | client/internal/updatemanager/update_darwin.go:28-51 | the .pkg route downloads, then starts and releases the installer; a failed download ends it with the download error, and a failed start or release with that step's error |
| Darwin.TriggerUpdate | client/internal/updatemanager/update_darwin.go:19-52 | `triggerUpdate` issues the receipt query, then exactly the actions of the route the query picks, and returns that route's status |
| Darwin.RouteByExitCode | client/internal/updatemanager/update_darwin.go:20-26 | only a query that ran and exited with code 1 leads to Homebrew; every other outcome, a query that never started included, downloads the .pkg |
| Darwin.PkgDownloadFailureStops | client/internal/updatemanager/update_darwin.go:30-33 | a failed download is returned, and no command is started or run |
| Darwin.PkgInstallerDetached | client/internal/updatemanager/update_darwin.go:43-51 | nothing is run to completion on the .pkg route; the only command started and released is `installer -pkg <downloaded file> -target <volume>`, and only after a successful download; on success it is started, then released |
| Darwin.KillOnlyAfterUpgrade | client/internal/updatemanager/update_darwin.go:86-108 | `kill -15 <own pid>` is issued if and only if the tap owner was found and `id`, the home lookup and `brew upgrade` all succeeded |
| Darwin.UpgradeRunsAsTapOwner | client/internal/updatemanager/update_darwin.go:68-87 | the plan runs `sudo -u <user> /opt/homebrew/bin/brew upgrade netbirdio/tap/netbird` with exactly the environment `HOME=<home>`, where `<user>` is the trimmed output of `id` and `<home>` the trimmed home directory; no other command has an environment of its own |
| Windows.InstallationMethod | client/internal/updatemanager/update_windows.go:23-42 | the method is "EXE" if and only if either uninstall key opens, "MSI" if and only if neither does, and never anything else |
| Windows.NativeKeyProbedOnlyAsFallback | client/internal/updatemanager/update_windows.go:24-26 | the WOW6432Node key is probed first and the native key only when that one does not open; the probe only opens and closes keys |
| Windows.OpenedKeysClosedOnce | client/internal/updatemanager/update_windows.go:29-39 | every key that opened is closed exactly once, and no other key is closed |
| Windows.MsiSteps | client/internal/updatemanager/update_windows.go:44-54 | the MSI route downloads, then runs msiexec on the file; a failed download ends it with the download error and runs nothing |
| Windows.UpdateMsi | client/internal/updatemanager/update_windows.go:44-54 | `updateMSI` returns exactly the status and issues exactly the actions of `Execute` on the MSI plan |
| Windows.MsiWaitsForInstaller | client/internal/updatemanager/update_windows.go:47-53 | msiexec is never started and released; it is run only on the downloaded file, after a successful download; the route succeeds if and only if the download and msiexec do |
| Windows.ExeSteps | client/internal/updatemanager/update_windows.go:56-71 | the EXE route downloads, then starts and releases `<file> /S`; the first step that fails ends it with its own error |
| Windows.UpdateExe | client/internal/updatemanager/update_windows.go:56-71 | `updateEXE` returns exactly the status and issues exactly the actions of `Execute` on the EXE plan |
| Windows.ExeNeverWaits | client/internal/updatemanager/update_windows.go:59-70 | nothing is run to completion on the EXE route; the process started and released is the downloaded file with `/S`; on success it is started, then released |
| Windows.InstallerExtensions | client/internal/updatemanager/update_windows.go:17-18 | every MSI URL ends in ".msi" and every EXE URL in ".exe" |
| Windows.InstallerUrlsSpelledOut | client/internal/updatemanager/update_windows.go:17-18 | both URLs are the releases URL, then `<version>/netbird_installer_<version>_windows_<arch>`, followed by ".msi" or ".exe" |
| Windows.TriggerUpdate | client/internal/updatemanager/update_windows.go:73-82 | `triggerUpdate` issues the registry probe, then exactly the actions of the route the probe picks, and returns that route's status |
| Windows.DispatchByRegistry | client/internal/updatemanager/update_windows.go:73-78 | an installation found under either registry view downloads the .exe of the target version; otherwise the .msi of the same version is downloaded |
| Exec.ExecuteStopsAtFirstFailure | client/internal/updatemanager/update_darwin.go:57-108 | a routine issues a prefix of its plan in which every step but the last succeeded; it returns nil exactly when no step fails, having issued the whole plan, and otherwise the error of the step it stopped at |
| Exec.ExecuteStopsAt | client/internal/updatemanager/update_darwin.go:57-108 | a plan whose step n is the first to fail issues exactly its first n steps and returns step n's error |
| Exec.ExecuteCompletes | client/internal/updatemanager/update_darwin.go:57-108 | a plan in which no step fails is issued whole and returns nil |
| Strings.IndexOf | client/internal/updatemanager/update_darwin.go:39 | a found index is an occurrence of the separator |
| Strings.IndexOfFinds | client/internal/updatemanager/update_darwin.go:39 | the index found is the first occurrence, and nothing is found only when the separator occurs nowhere |
| Strings.IndexOfFirst | client/internal/updatemanager/update_darwin.go:39 | the first occurrence of the separator is the index found |
| Strings.Split | client/internal/updatemanager/manager.go:114-115 | a split has at least one piece, so the last piece always exists |
| Strings.JoinSplit | client/internal/updatemanager/manager.go:114 | joining the pieces with the separator gives back the string |
| Strings.SplitPiecesFree | client/internal/updatemanager/update_darwin.go:36 | no piece of a split contains the separator |
| Strings.SplitFirstPiece | client/internal/updatemanager/update_darwin.go:39 | the first piece is the prefix before the first occurrence of the separator, or the whole string |
| Strings.SplitSecondPiece | client/internal/updatemanager/update_darwin.go:39 | the second piece is the first piece of what follows the first occurrence |
| Strings.SplitLast | client/internal/updatemanager/manager.go:114-115 | the last piece is a separator-free suffix, preceded by the separator unless it is the whole string |
| Strings.ReplaceAll | client/internal/updatemanager/update_darwin.go:28 | a replacement as long as the pattern keeps the length, and replacing the pattern by itself changes nothing; `Strings.ReplaceAllIsJoinOfSplit` ties it to splitting and joining |
| Strings.ReplaceAllIsJoinOfSplit | client/internal/updatemanager/update_darwin.go:28 | replacing every occurrence is splitting on the pattern and joining with the replacement |
| Strings.ReplaceAllAbsent | client/internal/updatemanager/update_darwin.go:28 | a string without the pattern's first character is left unchanged |
| Strings.ReplaceAllAbsentPrefix | client/internal/updatemanager/update_darwin.go:28 | a prefix without the pattern's first character passes through unchanged |
| Strings.ReplaceAllAtFront | client/internal/updatemanager/update_darwin.go:28 | an occurrence at the front is replaced |
| Strings.ReplaceAllKeepsSuffix | client/internal/updatemanager/update_darwin.go:29 | a suffix that the pattern cannot reach into is kept |
| Strings.TrimSpace | client/internal/updatemanager/update_darwin.go:73 | the result is no longer than the input and neither starts nor ends with white space; `Strings.TrimSpaceKeepsMiddle` adds that only white space was removed, from both ends |
| Strings.TrimLeftRemovesLeadingSpace | client/internal/updatemanager/update_darwin.go:37 | the left trim is a suffix of the string, all of whose removed characters are white space, and it does not start with white space |
| Strings.TrimRightRemovesTrailingSpace | client/internal/updatemanager/update_darwin.go:37 | the right trim is a prefix of the string, all of whose removed characters are white space, and it does not end with white space |
| Strings.TrimSpaceKeepsMiddle | client/internal/updatemanager/update_darwin.go:73 | TrimSpace removes only white space from both ends, and what remains neither starts nor ends with white space |
| Strings.Decimal | client/internal/updatemanager/update_darwin.go:68 | `%d` formatting gives a non-empty string of decimal digits without a leading zero |
| Strings.DecimalRoundTrip | client/internal/updatemanager/update_darwin.go:104 | the decimal digits read back as the number they were made from |

## Left out

- The HTTP download and the file I/O of `downloadFileToTemporaryDir` (manager.go:109-146) are not modelled: the download is an oracle that returns a path or an error. Only the file-name derivation is modelled. The code does not check the HTTP status, so no rejection of non-2xx responses is modelled either.
- Version parsing and ordering come from `hashicorp/go-version`, which is not part of this model. Versions are a type parameter with a partial `parse` and an abstract `less`.
- The `version.Update` poller is reduced to an `Option<string>` input: `LatestAvailable`, the listener registration and `StopWatch`. `Stop` and the context cancellation are not modelled.
- Real time is an integer count of nanoseconds. The two `time.Now()` calls at manager.go:89-90 are modelled as one `now`.
- Logging is not modelled. A registry close error, which is only logged, leaves no trace: `CloseKey` never fails, so the method returned cannot depend on it.
- The goroutine in `SetVersion` is modelled only as a `scheduledChecks` counter. Concurrent runs of `CheckForUpdates` are not modelled, and the code has no lock.
- Manager.UpdateManager.CheckForUpdates: records the installer call as an `InstallerCalled` effect and not its result. The platform installer's error is only logged and does not restore `lastTrigger`, which follows from `lastTrigger` being set before the call.
- The build of `triggerUpdate` for macOS calls `downloadFileToTemporaryDir(url)` without the context argument that manager.go:109 requires. The download oracle takes only the URL.
- `runtime.GOARCH` and `os.Getpid()` are fields of the `Host` value.
- `Output` and `CombinedOutput` are not told apart: a command's captured output is one oracle string. Byte strings are taken as already-decoded strings.
- Go's `strings.Split`, `Index` and `ReplaceAll` are modelled only for non-empty separators, the only kind the agent passes.
- The Windows `default` branch of `triggerUpdate`, with its second registry probe and the unsupported-method error, cannot be reached, and the method states so with `assert false`.
- The debounce is strict, `lastTrigger + 5min < now`, as the code writes it with `Before`.
- The `syscall.Stat_t` type check is modelled as an optional owner uid in the `os.Stat` result; a missing owner returns `OwnerUnknown`.
