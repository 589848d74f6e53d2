# MinicapAdapter core in Dafny

This project models the non-UI logic of the MinicapAdapter repository, which drives an Android
device over `adb` and runs the `minicap` screen-capture helper on it. Two source files are
modelled.

`AdbAdapter.cs` provides the following:

- composing adb argument lines, with `-s <serial>` for a device and `shell "<line>"` for device
  shell commands;
- reducing a finished adb process's captured output to one string (`HandleOutput`);
- parsing the `adb devices` listing into device adapters (`ConnectedDevices`);
- the `wm size` reply (`GetDisplaySize`);
- the memoised device properties (`DeviceProp.Abi`, `SDK`, `KV`).

`MinicapAdapter.cs` provides the minicap session of one device:

- the install check (`CheckedInstalledMinicap`) and the push (`PushMinicap`);
- the self test (`ValidateMinicapEnv`);
- the launch with the projection for the current rotation (`StartMinicap`);
- the pid scraped from `ps` (`GetMinicapProcessInfo`);
- the port forward;
- `Start`, `Stop`, `IsRunning` and the `Rotation` setter.

adb is an oracle, `Adb.Executor`, which maps each waited-for invocation to the standard output and
standard error it produced. Every operation is a pure function. It returns the state afterwards,
the ordered list of steps it took, and its outcome. A step is one of:

- an adb invocation;
- a sleep;
- starting the frame client;
- disposing of the frame client.

`Start`, `Stop` and the restart the rotation setter schedules are therefore functions from the
session and the oracle to a session, a trace and a result.

The modules are:

- `Results`: `Option` and `Result`.
- `Text`: .NET `Trim()` on the ASCII whitespace class, invariant `ToLower`, and index search.
- `Decimal`: integer formatting and `Int32.Parse`, including the 32-bit range check and its
  overflow exception.
- `Lines`: `StringReader.ReadLine` splitting on `\r\n`, `\r` and `\n`, and the `$` anchor, which
  also accepts a single final `\n`.
- `Adb`: argument lines, `HandleOutput`, the device list, the display size, the property cache
  and device construction.
- `ProcessTable`: the nine-field `ps` pattern and the pid it yields.
- `Checks`: `List<string>.Remove` over output lines, the install check and the self test.
- `Minicap`: the session, the command texts, the push, `Start`, `Stop`, the rotation setter and
  the restart.
- `MinicapProperties`: the lemmas about the session operations.

Regular expressions are written as explicit predicates. `\S` and `\s` are the ASCII whitespace
class: space, tab, LF, VT, FF and CR. `\d` is the ASCII digits. Every pattern the adapters use
is anchored with `^…$` and matched without the multiline option. Such a `$` also matches before
one final `\n`, so the model drops one final `\n` before matching.

Behaviours of the code worth knowing:

- The self test passes when ANY non-empty line, trimmed and lower-cased, is `ok`. Other lines
  are ignored. `List.Remove` removes the single expected `"ok"`, and nothing else is examined
  (`Checks.ValidatedMeans`).
- A `ps` reply the pattern does not match is not a failure: the previous pid is kept
  (`MinicapProperties.LaunchKeepsPidOnMiss`). Only a pid outside 32 bits makes `Start` fail, with
  the overflow that `Int32.Parse` throws.
- `Stop` always sends `kill <pid>`, also with the initial pid -1, and never resets the pid
  (`MinicapProperties.StopNeverStarted`, `MinicapProperties.StopKeepsSession`).
- An unrecognised display-size reply is not an error: the size stays 0 x 0
  (`Adb.DisplaySizeOf`).
- The push sends the executable and the library, and sends the PIE-less executable only below
  SDK level 16.
- Fire-and-forget commands of a device adapter carry no `-s <serial>`: the override passes the
  command through unchanged (`Adb.NoReturnLosesSerial`). The push, the `chmod`, the launch, the
  forwards and the kill therefore address whichever device adb picks by default.

## Model

| member | source | states |
|---|---|---|
| Text.Trim | AdbAdapter.cs:242-245 | `Trim()` yields text with no whitespace at either end and no longer than the input |
| Text.TrimStartCuts | AdbAdapter.cs:242-245 | trimming the start removes a whitespace-only prefix and keeps the rest of the text as it was |
| Text.TrimEndCuts | AdbAdapter.cs:242-245 | trimming the end removes a whitespace-only suffix and keeps the rest of the text as it was |
| Text.TrimPads | AdbAdapter.cs:242-245 | `Trim()` obtains its result from the input by cutting whitespace from its two ends only |
| Text.TrimOfPadded | AdbAdapter.cs:242-245 | trimming is determined by the padding: a trimmed text surrounded only by whitespace trims back to exactly itself |
| Text.TrimIdempotent | AdbAdapter.cs:242-245 | trimming an already trimmed text changes nothing |
| Text.TrimEmptyIffAllSpace | AdbAdapter.cs:242 | the trimmed standard error has length 0 exactly when standard error is whitespace only |
| Text.Lower | MinicapAdapter.cs:121 | `ToLower()` keeps the length and maps each character on its own, upper-case ASCII letters to the same letter in lower case and the rest unchanged |
| Text.LowerIsOk | MinicapAdapter.cs:121 | exactly the four spellings ok, oK, Ok and OK lower-case to "ok" |
| Decimal.NatToString | MinicapAdapter.cs:110 | `{0}` of a non-negative number is canonical decimal digits (no superfluous leading zero) whose value is the number |
| Decimal.NatToStringOfValue | MinicapAdapter.cs:133 | the converse round trip: canonical digits are the text of their own value |
| Decimal.IntToString | MinicapAdapter.cs:67 | a negative number is written as '-' followed by the canonical digits of its magnitude |
| Decimal.Int32Parse | MinicapAdapter.cs:74 | `int.Parse` succeeds exactly when the text, with a final run of NULs dropped and then trimmed, is an optionally signed digit run whose value fits in 32 bits, and then returns that value; text of another shape is a format error, and a digit run outside 32 bits is an overflow error |
| Decimal.DropTrailingNulsCuts | MinicapAdapter.cs:74 | the NULs `int.Parse` tolerates are cut from the end only: what remains is a prefix of the text, and everything cut is NUL |
| Decimal.Int32ParseIgnoresNuls | MinicapAdapter.cs:74 | NULs appended to any text change neither whether `int.Parse` succeeds nor the number it returns |
| Decimal.Int32RoundTrip | MinicapAdapter.cs:67 | every 32-bit integer formatted by `{0}` parses back to itself |
| Decimal.ParseDigitsInt32 | AdbAdapter.cs:120-121 | `int.Parse` of a `[\d]+` group is its value when that fits in 32 bits, else the overflow error |
| Decimal.ParseDigitsIsInt32Parse | MinicapAdapter.cs:150 | on a digit run the digit-group parser agrees with the general `int.Parse` |
| Lines.ReadLines | AdbAdapter.cs:69-82 | the lines read contain no line break, there are no more of them than characters, and there are none exactly when the text is empty |
| Lines.ReadJoinedLines | AdbAdapter.cs:69-82 | lines joined by any one of `\n`, `\r\n` or `\r` read back as the same lines when the last one is non-empty |
| Lines.DropFinalNewline | AdbAdapter.cs:117 | the `$` anchor removes one final '\n' when there is one and otherwise leaves the text alone |
| Lines.DropAddedNewline | AdbAdapter.cs:117 | text not ending in '\n', with or without one appended, is matched as written |
| Adb.HandleOutput | AdbAdapter.cs:238-253 | the selected output never has leading or trailing whitespace |
| Adb.HandleOutputMeans | AdbAdapter.cs:238-253 | on timeout the result is "PROCESS TIMEOUT"; otherwise it is the padded-out standard output when regular output is forced or standard error is whitespace only, and else the non-empty padded-out standard error |
| Adb.RunAdbCommand | AdbAdapter.cs:24-34 | the invocation issued is the adapter's command, and its reply is the trimmed standard output or standard error of that invocation, as the unbounded wait always completes |
| Adb.AdbArgs | AdbAdapter.cs:104-107 | the argument line of a device adapter is ` -s <serial> <command>`, and that of the plain adapter is the command alone; stated by Adb.SplitAdbArgs and Adb.SplitDeviceArgs, which read the serial and command back |
| Adb.ShellArgs | AdbAdapter.cs:36-39 | a shell command becomes ` shell "<line>"`; stated by Adb.DeviceShellCommand |
| Adb.RunShellCommand | AdbAdapter.cs:36-39 | a shell command is an adb command whose reply is the trimmed output of `shell "<line>"` on the adapter's device; stated by Adb.RunAdbCommand and Adb.DeviceShellCommand |
| Adb.RunAdbCommandNoReturn | AdbAdapter.cs:109-112 | a device adapter's fire-and-forget command is passed through unchanged, without `-s <serial>`; stated by Adb.NoReturnLosesSerial |
| Adb.RunShellCommandNoReturn | AdbAdapter.cs:49-52 | a fire-and-forget shell command is wrapped in `shell "<line>"` and then passed through the override, so it too addresses no device; stated by Adb.NoReturnLosesSerial |
| Adb.SplitAdbArgs | AdbAdapter.cs:104-107 | reading the addressed device back from an argument line: a device is found only when the line is `-s <serial> <command>` with a whitespace-free serial |
| Adb.SplitDeviceArgs | AdbAdapter.cs:104-107 | the device adapter's argument line ` -s <serial> <command>` names its serial and command unambiguously |
| Adb.DeviceShellCommand | AdbAdapter.cs:36-39 | a device shell command is exactly ` -s <serial>  shell "<command>"`, with two spaces, and addresses that device |
| Adb.NoReturnLosesSerial | AdbAdapter.cs:109-112 | a fire-and-forget shell command on a device adapter is identical to the one on the plain adapter and addresses no device |
| Adb.ParseDeviceLine | AdbAdapter.cs:77 | a serial taken from a device line is non-empty and free of whitespace |
| Adb.DeviceLineSound | AdbAdapter.cs:77-80 | a line yields a serial only when it trims to that serial followed by a tab and `device` |
| Adb.DeviceLineComplete | AdbAdapter.cs:77-80 | every line that trims to `<serial>\tdevice` yields that serial |
| Adb.ParseDevices | AdbAdapter.cs:71-81 | at most one serial per line, each non-empty and free of whitespace |
| Adb.ParseDevicesAppend | AdbAdapter.cs:71-81 | the listing is read line by line: the serials of two concatenated listings are the concatenated serials, in input order |
| Adb.ParseDevicesComplete | AdbAdapter.cs:75-80 | every line announcing `<serial>\tdevice` contributes its serial |
| Adb.ParseDevicesSound | AdbAdapter.cs:75-80 | every serial returned comes from a line announcing exactly that serial, so header, blank and `offline` lines contribute nothing |
| Adb.MatchDisplaySize | AdbAdapter.cs:117 | a match yields two digit runs, and the reply without a final '\n' is exactly `Physical size: <w>x<h>` |
| Adb.MatchDisplaySizeComplete | AdbAdapter.cs:117-118 | every literal reply `Physical size: <w>x<h>`, with or without a final '\n', matches with those digits |
| Adb.MatchDisplaySizeSingleLine | AdbAdapter.cs:117 | a reply with a '\n' before its last character never matches |
| Adb.DisplaySizeOf | AdbAdapter.cs:117-122 | an unmatched reply leaves the size at 0 x 0; a matched one yields both values, or the overflow of `int.Parse` when either exceeds 32 bits, reported for the height when the height overflows and for the width otherwise |
| Adb.DisplaySizeRoundTrip | AdbAdapter.cs:116-122 | every 32-bit size printed by `wm size` is read back exactly |
| Adb.GetDisplaySize | AdbAdapter.cs:114-123 | the device issues `wm size` addressed to its own serial; a trimmed reply that does not match leaves 0 x 0, and a matching one that does not overflow yields the two numbers shown |
| Adb.GetDisplaySizeOfReply | AdbAdapter.cs:114-123 | a device whose `wm size` reply is `Physical size: <w>x<h>` between whitespace, with whitespace-only standard error and both numbers within 32 bits, gets exactly that size |
| Adb.Abi | AdbAdapter.cs:138-141 | the ABI getter returns the cached value without a command when there is one; otherwise it issues `getprop ro.product.cpu.abi` once on the device, returns that command's reply and caches it, even an empty one |
| Adb.Sdk | AdbAdapter.cs:143-146 | the same memoisation for `getprop ro.build.version.sdk`, returning the device's reply on the first read |
| Adb.ReadPropsIssued | AdbAdapter.cs:138-146 | in any sequence of property reads, only the two `getprop` queries are issued, each at most once and only while its field is still unset; cached values and the table never change |
| Adb.ReadPropsAbiStable | AdbAdapter.cs:138-141 | every ABI read in a sequence of reads returns the one cached reply |
| Adb.ReadPropsSdkStable | AdbAdapter.cs:143-146 | every SDK read in a sequence of reads returns the one cached reply |
| Adb.ReadPropsKvStable | AdbAdapter.cs:148-174 | every table read in a sequence of reads returns the table the reads started from |
| Adb.KvAlwaysEmpty | AdbAdapter.cs:148-174 | from the constructor's fresh state, the table getter returns the empty table whatever was read before, because the parsing branch needs a null table that never occurs |
| Adb.KV | AdbAdapter.cs:148-174 | the table getter returns the table without issuing a command; stated by Adb.ReadPropsIssued, Adb.ReadPropsKvStable and Adb.KvAlwaysEmpty |
| Adb.NewDevice | AdbAdapter.cs:95-102 | the constructor issues the display-size query of its serial and builds an adapter with that serial and fresh properties |
| Adb.NewDeviceSize | AdbAdapter.cs:95-102 | construction fails exactly when the size parse throws, and otherwise holds the parsed size |
| Adb.QueriesOfNewDevice | AdbAdapter.cs:99 | constructing adapters for a list of serials issues their `wm size` queries in list order |
| Adb.MakeDevicesIssued | AdbAdapter.cs:79-80 | adapters are constructed in list order, one query per attempt; every attempt before the last succeeded, and a successful listing attempted every serial |
| Adb.MakeDevicesSerials | AdbAdapter.cs:79-80 | when every construction succeeds there is one adapter per serial, in list order |
| Adb.MakeDevicesBuilt | AdbAdapter.cs:79-80 | each adapter in the list is the one its constructor built for a listed serial |
| Adb.MakeDevicesAborts | AdbAdapter.cs:79-80 | a failure is exactly the exception of the last constructor attempted, all earlier ones having succeeded |
| Adb.ConnectedDevices | AdbAdapter.cs:64-85 | `adb devices` is issued first on the plain adapter, followed by the `wm size` queries of a prefix of the listed serials, in order, and of all of them on success |
| Adb.ConnectedDevicesSerials | AdbAdapter.cs:64-85 | on success the adapters carry exactly the listed serials, in listing order |
| Adb.ConnectedDevicesBuilt | AdbAdapter.cs:64-85 | every adapter returned has a whitespace-free serial, fresh properties, and is what the constructor builds for it |
| Adb.ConnectedDevicesAborts | AdbAdapter.cs:64-85 | a failed listing ends with the device whose constructor threw, its exception is the listing's, and every device queried before it was built |
| ProcessTable.WordsOfRender | MinicapAdapter.cs:146 | space-free fields joined by runs of spaces read back as the same fields |
| ProcessTable.GapsOfRender | MinicapAdapter.cs:146 | space-free fields joined by runs of spaces read back with the same separators |
| ProcessTable.RenderOfWords | MinicapAdapter.cs:146 | text that neither starts nor ends with a space is exactly its words joined by its separators |
| ProcessTable.MatchProcessLine | MinicapAdapter.cs:146 | a match yields nine non-empty whitespace-free fields, with pid, ppid, vsize and rss all digits and a one-character state |
| ProcessTable.MatchProcessLineSound | MinicapAdapter.cs:146 | a matching reply, without its final '\n', is its nine fields separated by eight runs of spaces |
| ProcessTable.MatchProcessLineComplete | MinicapAdapter.cs:146 | any such nine fields joined by runs of spaces, with or without a final '\n', match with those fields |
| ProcessTable.MatchProcessLineSingleLine | MinicapAdapter.cs:146 | a reply with a '\n' before its last character never matches |
| ProcessTable.ProcessId | MinicapAdapter.cs:142-152 | no match keeps the previous pid; a match yields the pid field's value, or the overflow error when it exceeds 32 bits |
| ProcessTable.ProcessIdRoundTrip | MinicapAdapter.cs:142-152 | a process line printed with any 32-bit pid yields that pid |
| Checks.RemoveFirstBag | MinicapAdapter.cs:101 | `List.Remove` removes one occurrence of its argument when present, and otherwise nothing |
| Checks.RemoveEachBag | MinicapAdapter.cs:95-102 | the loop of `Remove` calls computes a multiset difference |
| Checks.RemoveEachDistinct | MinicapAdapter.cs:95-102 | on a list without repetitions, the calls leave exactly the elements never named, in order |
| Checks.KeysMembership | MinicapAdapter.cs:95-102 | a name is passed to `Remove` exactly when some non-empty line trims (and lower-cases, for the self test) to it |
| Checks.CheckedInstalledMeans | MinicapAdapter.cs:88-106 | minicap counts as installed exactly when at most one of minicap, minicap-nopie and minicap.so is not named by a non-empty trimmed line; duplicate and unrelated lines do not matter |
| Checks.ValidatedMeans | MinicapAdapter.cs:108-126 | the self test passes exactly when some non-empty line, trimmed and lower-cased, is "ok"; empty output fails |
| Checks.CheckedInstalled | MinicapAdapter.cs:88-106 | the install check over the `ls \| grep 'mini'` output; stated by Checks.CheckedInstalledMeans and Checks.KeysMembership |
| Checks.Validated | MinicapAdapter.cs:108-126 | the self-test verdict over the `-t` run's output; stated by Checks.ValidatedMeans and Checks.OkLine |
| Checks.OkLine | MinicapAdapter.cs:121 | a line accepts the self test exactly when it trims to ok, oK, Ok or OK |
| Minicap.DegreesDistinct | MinicapAdapter.cs:155-161 | the rotations are 0, 90, 180 and 270 degrees, and no two rotations share a value |
| Minicap.IsRunning | MinicapAdapter.cs:20 | running means a positive pid was read; a new session is not running (Minicap.NewSession), and `Stop` does not change it (MinicapProperties.StopKeepsSession) |
| Minicap.LaunchLine | MinicapAdapter.cs:128-134 | the launch command; what it carries is stated by Minicap.LaunchLineMeans and Minicap.SelfTestLineMeans |
| Minicap.KillLine | MinicapAdapter.cs:67 | `kill <pid>`; stated by Minicap.KillTargetsPid and MinicapProperties.StopNeverStarted |
| Minicap.PushMinicap | MinicapAdapter.cs:70-86 | the push; its reads, steps, caching and failure are stated by the MinicapProperties.Push* lemmas |
| Minicap.Prepare | MinicapAdapter.cs:46-47 | the install check and the push when it fails; stated by MinicapProperties.PrepareInstalled, PrepareMissing and PrepareKeeps |
| Minicap.Launch | MinicapAdapter.cs:49-58 | self test, launch, pid and forward; stated by the MinicapProperties.Launch* lemmas |
| Minicap.Start | MinicapAdapter.cs:44-59 | `Start`; stated by MinicapProperties.StartKeeps, StartSucceedsIff, StartSteps, StartSession and StartValidationFails |
| Minicap.Stop | MinicapAdapter.cs:61-68 | `Stop`; stated by MinicapProperties.StopKeepsSession, StopLines and StopNeverStarted |
| Minicap.SetRotation | MinicapAdapter.cs:21-32 | the rotation setter; stated by MinicapProperties.SetRotationMeans |
| Minicap.Restart | MinicapAdapter.cs:30 | the work the setter schedules; stated by MinicapProperties.RestartIsStopThenStart |
| Minicap.NewSession | MinicapAdapter.cs:33-42 | a new adapter is not running and has rotation 0 |
| Minicap.ProjectionRoundTrip | MinicapAdapter.cs:133 | a `-P` projection `WxH@VWxVH/D` reads back as the five numbers it was written from |
| Minicap.KillTargetsPid | MinicapAdapter.cs:67 | the kill line is `kill ` followed by text that parses back to the session's pid |
| Minicap.LaunchLineMeans | MinicapAdapter.cs:128-134 | the launch command carries the physical size, the virtual size (width and height exchanged exactly at 90 and 270 degrees) and the rotation in degrees |
| Minicap.SelfTestLineMeans | MinicapAdapter.cs:110 | the self test is the unrotated launch line at the physical size, followed by ` -t` |
| MinicapProperties.PushCaches | MinicapAdapter.cs:70-86 | after the push both the ABI and the SDK level are cached, with the values the push used; nothing else in the properties changes |
| MinicapProperties.PushReadsOnce | MinicapAdapter.cs:72-74 | from fresh properties the push issues the ABI query, pushes the executable, then issues the SDK query, once each |
| MinicapProperties.PushUsesReplies | MinicapAdapter.cs:72-74 | the ABI and SDK level the push uses are the device's replies to those two queries |
| MinicapProperties.PushFails | MinicapAdapter.cs:74 | an SDK level that `int.Parse` rejects ends the push with that error, right after the SDK read |
| MinicapProperties.PushLevel | MinicapAdapter.cs:74 | a readable SDK level completes the push with that level |
| MinicapProperties.PushForLevelCached | MinicapAdapter.cs:74-85 | with both properties cached, the rest of the push issues no read: the PIE-less executable below level 16, then the library, sleep, chmod, sleep |
| MinicapProperties.PushStepsBelow16 | MinicapAdapter.cs:70-86 | below SDK level 16 the push steps are the reads and the executable, then the PIE-less executable, the library for the level and ABI, sleep, chmod, sleep |
| MinicapProperties.PushStepsFrom16 | MinicapAdapter.cs:70-86 | from SDK level 16 on, the push steps are the same without the PIE-less executable |
| MinicapProperties.PrepareInstalled | MinicapAdapter.cs:46-47 | when the install check passes, `Start` issues only the `ls` before validating, and nothing is pushed |
| MinicapProperties.PrepareMissing | MinicapAdapter.cs:46-47 | when it fails, the `ls` is followed by the push, the properties are those the push leaves, and the push's error is `Start`'s error |
| MinicapProperties.LaunchValidationFails | MinicapAdapter.cs:49-50 | a failed self test throws the validation message naming the serial, after the self test and before any launch, forward or client start |
| MinicapProperties.LaunchPidFails | MinicapAdapter.cs:52-54 | a pid outside 32 bits throws after the launch and the process query, before the forward |
| MinicapProperties.LaunchSucceeds | MinicapAdapter.cs:49-58 | otherwise the steps are self test, launch, process query, forward and client start, and the pid becomes the one read |
| MinicapProperties.LaunchKeepsPidOnMiss | MinicapAdapter.cs:142-152 | a `ps` reply that does not match is no failure and keeps the previous pid |
| MinicapProperties.LaunchKeeps | MinicapAdapter.cs:49-58 | the launch changes nothing in the session but the pid |
| MinicapProperties.LaunchPid | MinicapAdapter.cs:150 | a pid the launch stores is between 0 and the 32-bit maximum |
| MinicapProperties.PrepareKeeps | MinicapAdapter.cs:46-47 | the install check and push change only the cached ABI and SDK level |
| MinicapProperties.StartKeeps | MinicapAdapter.cs:44-59 | `Start` changes only the cached ABI and SDK level and the pid, and a pid it stores fits in 32 bits |
| MinicapProperties.StartSucceedsIff | MinicapAdapter.cs:44-59 | `Start` succeeds exactly when the push, if any, read a level, the self test passed and the pid was readable |
| MinicapProperties.StartSteps | MinicapAdapter.cs:44-59 | a successful `Start` takes its steps in the fixed order: install check, push when needed, self test, launch, `ps`, `forward tcp:1313 localabstract:minicap`, client start |
| MinicapProperties.StartSession | MinicapAdapter.cs:44-59 | a successful `Start` leaves the prepared session with the pid read from the process list |
| MinicapProperties.StartValidationFails | MinicapAdapter.cs:49-50 | a failed self test makes `Start` throw the validation message, after the install check, push and self test only |
| MinicapProperties.StopKeepsSession | MinicapAdapter.cs:61-68 | `Stop` leaves the session, so `IsRunning` and the pid, unchanged, never fails, and repeats the same steps when called again |
| MinicapProperties.StopLines | MinicapAdapter.cs:61-68 | `Stop` disposes of the client, then sends `forward --remove-all`, then a `kill` of the session's pid without `-s` |
| MinicapProperties.StopNeverStarted | MinicapAdapter.cs:67 | a session that never found its process sends `kill -1` |
| MinicapProperties.SetRotationMeans | MinicapAdapter.cs:21-32 | the setter stores the rotation and schedules a restart exactly when the rotation changes; setting it again is a no-op |
| MinicapProperties.RestartIsStopThenStart | MinicapAdapter.cs:30 | the scheduled restart is `Stop` followed by `Start` on the same session |

## Left out

- Process creation and the asynchronous capture of standard output and standard error in
  `ProcessUtils` are not modelled, because they are operating-system I/O. The captured text is an
  input (`Adb.Capture`), and only the selection at the end of `HandleOutput` is modelled.
- Adb.RunAdbCommand: does not model the timeout branch, because `DEFAULT_TIMEOUT = -1` is an
  unbounded wait. `Adb.HandleOutput` still models the branch with an explicit `finished` flag.
- The `lock` around each adb call is not modelled. Commands form one sequential trace.
- The `Task.Run` of the rotation setter is not modelled as concurrency. The setter returns a
  "restart scheduled" flag, and `Minicap.Restart` is the work scheduled.
- The `Thread.Sleep(1000)` calls are `Sleep` steps, without a duration.
- The `AdbExecutable` path resolution and the executable directory are not modelled; the
  directory is a session field. Both depend on the file system.
- `StartServer` and `StopServer` are not modelled. Each is a single `RunAdbCommand` with a fixed
  argument whose reply is discarded.
- `MinicapClient` (its `Start` and `Dispose`) is not part of this model. It appears only as the
  `ClientStart` and `ClientDispose` steps. MainWindow.xaml.cs (the WPF UI) and MinicapBanner.cs
  (a plain record) are not part of this model either.
- The parsing branch of the `KV` getter is not modelled, because it is unreachable: the
  constructor sets the table and nothing sets it to null. `Adb.KvAlwaysEmpty` states the
  consequence.
- .NET Unicode whitespace, Unicode digits and culture-sensitive lower-casing are not modelled.
  The model uses the ASCII whitespace class, ASCII digits and ASCII lower-casing.
- Adb.KV: returns an immutable map, while the `DeviceProp.KV` getter hands out the live mutable
  `Dictionary` (AdbAdapter.cs:126-175), so any holder could add entries to it.
  `Adb.KvAlwaysEmpty` holds only because the model has no such writer.
- Decimal.Int32Parse: assumes the invariant culture. `int.Parse` (MinicapAdapter.cs:74, :150;
  AdbAdapter.cs:120-121) and `String.Format("{0}")` (MinicapAdapter.cs:67, :110, :133) use the
  current culture, whose sign and digit conventions may differ. `Decimal.IntToString` and
  `Decimal.NatToString` make the same assumption. The .NET number parser is not part of this
  model; `Decimal.Int32Parse` follows its `NumberStyles.Integer` rules: white space on both sides,
  a leading sign, and a final run of NUL characters, which the parser ignores.
- Adb.Executor: keys the oracle by the structured invocation rather than by the argument
  string. Two invocations with the same argument line could receive different replies in the
  model; this only admits more oracles than real adb.
- Adb.ReadProps: its own contract states only the number of values. What the reads return and
  issue is stated by the `ReadProps*` lemmas.
- Exceptions from adb itself, a missing adb executable and exceptions thrown by the frame client
  are not modelled. Only the exceptions the modelled code throws are: `Int32.Parse` format and
  overflow errors, and the validation failure.
