/**
 What the minicap session operations promise: the push plan and its property cache, the install
 check deciding the push, the self test guarding the launch, the order of `Start`'s steps and
 what it leaves unchanged, `Stop`'s kill line, and the rotation setter.
 */
module MinicapProperties {
  import opened Results
  import opened Decimal
  import opened Adb
  import opened ProcessTable
  import opened Checks
  import opened Minicap

  /** The steps of a push up to and including the SDK read: ABI read, executable push, SDK read. */
  function PushPrefix(exec: Executor, s: Session): seq<Step> {
    var abi := Abi(exec, s.device.serial, s.device.prop);
    var sdk := Sdk(exec, s.device.serial, abi.prop);
    Invokes(abi.issued) + [Invoke(Spawn(Plain(PushBinary(s.exeDir, abi.value, "minicap"))))] + Invokes(sdk.issued)
  }

  function PushedAbi(exec: Executor, s: Session): string {
    Abi(exec, s.device.serial, s.device.prop).value
  }

  function PushedSdk(exec: Executor, s: Session): string {
    Sdk(exec, s.device.serial, Abi(exec, s.device.serial, s.device.prop).prop).value
  }

  lemma PushCaches(exec: Executor, s: Session)
    ensures PushMinicap(exec, s).prop == s.device.prop.(abi := Some(PushedAbi(exec, s)), sdk := Some(PushedSdk(exec, s)))
  {
    var serial := s.device.serial;
    var abi := Abi(exec, serial, s.device.prop);
    var sdk := Sdk(exec, serial, abi.prop);
    if Int32Parse(sdk.value).Ok? {
      PushForLevelCached(exec, serial, s.exeDir, sdk.prop, Int32Parse(sdk.value).value);
    }
  }

  /** From a fresh property object the push reads the ABI, pushes, and reads the SDK level, once each. */
  lemma PushReadsOnce(exec: Executor, s: Session)
    requires s.device.prop.abi.None? && s.device.prop.sdk.None?
    ensures PushPrefix(exec, s) == [Invoke(AbiCommand(s.device.serial))] + [Invoke(Spawn(Plain(PushBinary(s.exeDir, PushedAbi(exec, s), "minicap"))))] + [Invoke(SdkCommand(s.device.serial))]
  {
    var abi := Abi(exec, s.device.serial, s.device.prop);
    var sdk := Sdk(exec, s.device.serial, abi.prop);
    assert Invokes(abi.issued) == [Invoke(AbiCommand(s.device.serial))];
    assert Invokes(sdk.issued) == [Invoke(SdkCommand(s.device.serial))];
  }

  /** ... and the values the push uses are the replies to those two reads. */
  lemma PushUsesReplies(exec: Executor, s: Session)
    requires s.device.prop.abi.None? && s.device.prop.sdk.None?
    ensures PushedAbi(exec, s) == RunShellCommand(exec, Serial(s.device.serial), AbiQuery).output
    ensures PushedSdk(exec, s) == RunShellCommand(exec, Serial(s.device.serial), SdkQuery).output
  {
  }

  lemma PushFails(exec: Executor, s: Session)
    requires Int32Parse(PushedSdk(exec, s)).Err?
    ensures PushMinicap(exec, s).result == Err(Int32Parse(PushedSdk(exec, s)).error)
    ensures PushMinicap(exec, s).steps == PushPrefix(exec, s)
  {
  }

  /** The library and the `chmod` between two waits, the last steps of every completed push. */
  function PushTail(exec: Executor, s: Session): seq<Step> {
    [Invoke(Spawn(Plain(PushLibrary(s.exeDir, PushedSdk(exec, s), PushedAbi(exec, s))))), Sleep, Invoke(Spawn(Shell(Chmod))), Sleep]
  }

  lemma PushLevel(exec: Executor, s: Session)
    requires Int32Parse(PushedSdk(exec, s)).Ok?
    ensures PushMinicap(exec, s).result == Int32Parse(PushedSdk(exec, s))
  {
  }

  /**
   Once both properties are cached, the rest of the push issues no read: it pushes the PIE-less
   executable below level 16, then the library for the cached SDK level and ABI, and changes
   nothing in the cache.
   */
  lemma PushForLevelCached(exec: Executor, serial: string, dir: string, p: DeviceProp, level: int)
    requires p.abi.Some? && p.sdk.Some?
    ensures var r := PushForLevel(exec, serial, dir, p, level);
      var tail := [Invoke(Spawn(Plain(PushLibrary(dir, p.sdk.value, p.abi.value)))), Sleep, Invoke(Spawn(Shell(Chmod))), Sleep];
      && r.prop == p
      && (level < 16 ==> r.steps == [Invoke(Spawn(Plain(PushBinary(dir, p.abi.value, "minicap-nopie"))))] + tail)
      && (level >= 16 ==> r.steps == tail)
  {
    var sdk3 := Sdk(exec, serial, p);
    var abi3 := Abi(exec, serial, sdk3.prop);
    assert Invokes(sdk3.issued + abi3.issued) == [];
  }

  lemma PushStepsBelow16(exec: Executor, s: Session)
    requires Int32Parse(PushedSdk(exec, s)).Ok? && Int32Parse(PushedSdk(exec, s)).value < 16
    ensures PushMinicap(exec, s).steps == PushPrefix(exec, s) + ([Invoke(Spawn(Plain(PushBinary(s.exeDir, PushedAbi(exec, s), "minicap-nopie"))))] + PushTail(exec, s))
  {
    var abi := Abi(exec, s.device.serial, s.device.prop);
    var sdk := Sdk(exec, s.device.serial, abi.prop);
    PushForLevelCached(exec, s.device.serial, s.exeDir, sdk.prop, Int32Parse(sdk.value).value);
  }

  lemma PushStepsFrom16(exec: Executor, s: Session)
    requires Int32Parse(PushedSdk(exec, s)).Ok? && Int32Parse(PushedSdk(exec, s)).value >= 16
    ensures PushMinicap(exec, s).steps == PushPrefix(exec, s) + PushTail(exec, s)
  {
    var abi := Abi(exec, s.device.serial, s.device.prop);
    var sdk := Sdk(exec, s.device.serial, abi.prop);
    PushForLevelCached(exec, s.device.serial, s.exeDir, sdk.prop, Int32Parse(sdk.value).value);
  }

  /** The `ls` of the install check. */
  function CheckCommand(s: Session): Command {
    Run(Serial(s.device.serial), Shell(ListFiles))
  }

  function CheckOutput(exec: Executor, s: Session): string {
    RunOnDevice(exec, s, ListFiles).output
  }

  lemma PrepareInstalled(exec: Executor, s: Session)
    requires CheckedInstalled(CheckOutput(exec, s))
    ensures Prepare(exec, s) == Outcome(s, [Invoke(CheckCommand(s))], Ok(()))
  {
  }

  lemma PrepareMissing(exec: Executor, s: Session)
    requires !CheckedInstalled(CheckOutput(exec, s))
    ensures Prepare(exec, s).steps == [Invoke(CheckCommand(s))] + PushMinicap(exec, s).steps
    ensures Prepare(exec, s).session == s.(device := s.device.(prop := PushMinicap(exec, s).prop))
    ensures Prepare(exec, s).result.Ok? <==> PushMinicap(exec, s).result.Ok?
    ensures PushMinicap(exec, s).result.Err? ==> Prepare(exec, s).result == Err(NumberFailure(PushMinicap(exec, s).result.error))
  {
  }

  function TestCommand(s: Session): Command {
    Run(Serial(s.device.serial), Shell(SelfTestLine(s.device.width, s.device.height)))
  }

  function TestOutput(exec: Executor, s: Session): string {
    RunOnDevice(exec, s, SelfTestLine(s.device.width, s.device.height)).output
  }

  function PsOutput(exec: Executor, s: Session): string {
    RunOnDevice(exec, s, ProcessQuery).output
  }

  /** The self test, the launch and the process query, the steps of every validated launch. */
  function LaunchPrefix(s: Session): seq<Step> {
    [Invoke(TestCommand(s)), Invoke(Spawn(Shell(LaunchLine(s)))), Invoke(Run(Serial(s.device.serial), Shell(ProcessQuery)))]
  }

  /** The steps of a launch that found its pid: the three above, the port forward and the client start. */
  function LaunchedSteps(s: Session): seq<Step> {
    LaunchPrefix(s) + [Invoke(Spawn(Plain(ForwardPort))), ClientStart]
  }

  lemma LaunchValidationFails(exec: Executor, s: Session)
    requires !Validated(TestOutput(exec, s))
    ensures Launch(exec, s) == Outcome(s, [Invoke(TestCommand(s))], Err(ValidationFailed(ValidationMessage(s.device.serial))))
  {
  }

  lemma LaunchPidFails(exec: Executor, s: Session)
    requires Validated(TestOutput(exec, s)) && ProcessId(PsOutput(exec, s), s.pid).Err?
    ensures Launch(exec, s) == Outcome(s, LaunchPrefix(s), Err(NumberFailure(ProcessId(PsOutput(exec, s), s.pid).error)))
  {
  }

  lemma LaunchSucceeds(exec: Executor, s: Session)
    requires Validated(TestOutput(exec, s)) && ProcessId(PsOutput(exec, s), s.pid).Ok?
    ensures Launch(exec, s).result == Ok(())
    ensures Launch(exec, s).session == s.(pid := ProcessId(PsOutput(exec, s), s.pid).value)
    ensures Launch(exec, s).steps == LaunchedSteps(s)
  {
  }

  lemma LaunchKeepsPidOnMiss(exec: Executor, s: Session)
    requires Validated(TestOutput(exec, s)) && MatchProcessLine(PsOutput(exec, s)).None?
    ensures Launch(exec, s).result == Ok(()) && Launch(exec, s).session == s
  {
    LaunchSucceeds(exec, s);
  }

  /**
   `t` is `s` up to the cached ABI and SDK level and the pid: the rotation, the directory, the
   device's serial, size and table are the same.
   */
  predicate SameSetup(s: Session, t: Session) {
    t == s.(device := s.device.(prop := s.device.prop.(abi := t.device.prop.abi, sdk := t.device.prop.sdk)), pid := t.pid)
  }

  /** The launch changes nothing but the pid... */
  lemma LaunchKeeps(exec: Executor, s: Session)
    ensures Launch(exec, s).session == s.(pid := Launch(exec, s).session.pid)
  {
  }

  /** ... and a pid it stores fits in 32 bits. */
  lemma LaunchPid(exec: Executor, s: Session)
    ensures Launch(exec, s).session.pid == s.pid || 0 <= Launch(exec, s).session.pid <= Int32Max
  {
  }

  /** The install check and the push change nothing but the cached properties. */
  lemma PrepareKeeps(exec: Executor, s: Session)
    ensures SameSetup(s, Prepare(exec, s).session) && Prepare(exec, s).session.pid == s.pid
  {
    if !CheckedInstalled(CheckOutput(exec, s)) {
      PrepareMissing(exec, s);
      PushCaches(exec, s);
    }
  }

  /**
   `Start` changes nothing but the cached properties and the pid: not the rotation, the
   directory, nor the device's serial, size or table; and a pid it stores fits in 32 bits.
   */
  lemma StartKeeps(exec: Executor, s: Session)
    ensures SameSetup(s, Start(exec, s).session)
    ensures Start(exec, s).session.pid == s.pid || 0 <= Start(exec, s).session.pid <= Int32Max
  {
    var p := Prepare(exec, s).session;
    PrepareKeeps(exec, s);
    if Prepare(exec, s).result.Ok? {
      LaunchKeeps(exec, p);
      LaunchPid(exec, p);
      assert Start(exec, s).session == Launch(exec, p).session;
    }
  }

  /** `Start` succeeds exactly when the push (if any) read a level, the self test passed and the pid was readable. */
  lemma StartSucceedsIff(exec: Executor, s: Session)
    ensures var p := Prepare(exec, s).session;
      Start(exec, s).result.Ok? <==>
        Prepare(exec, s).result.Ok? && Validated(TestOutput(exec, p)) && ProcessId(PsOutput(exec, p), p.pid).Ok?
  {
    var p := Prepare(exec, s).session;
    if Prepare(exec, s).result.Ok? {
      assert Start(exec, s).result == Launch(exec, p).result;
      if !Validated(TestOutput(exec, p)) {
        LaunchValidationFails(exec, p);
      } else if ProcessId(PsOutput(exec, p), p.pid).Err? {
        LaunchPidFails(exec, p);
      } else {
        LaunchSucceeds(exec, p);
      }
    }
  }

  /**
   A successful `Start` took its steps in the fixed order: install check, the push when needed,
   self test, launch, process query, port forward, client start.
   */
  lemma StartSteps(exec: Executor, s: Session)
    requires var p := Prepare(exec, s).session;
      Prepare(exec, s).result.Ok? && Validated(TestOutput(exec, p)) && ProcessId(PsOutput(exec, p), p.pid).Ok?
    ensures Start(exec, s).steps == Prepare(exec, s).steps + LaunchedSteps(Prepare(exec, s).session)
  {
    LaunchSucceeds(exec, Prepare(exec, s).session);
  }

  /** A successful `Start` leaves the prepared session with the pid read from the process list. */
  lemma StartSession(exec: Executor, s: Session)
    requires var p := Prepare(exec, s).session;
      Prepare(exec, s).result.Ok? && Validated(TestOutput(exec, p)) && ProcessId(PsOutput(exec, p), p.pid).Ok?
    ensures var p := Prepare(exec, s).session;
      Start(exec, s).session == p.(pid := ProcessId(PsOutput(exec, p), p.pid).value)
  {
    LaunchSucceeds(exec, Prepare(exec, s).session);
  }

  lemma StartValidationFails(exec: Executor, s: Session)
    requires Prepare(exec, s).result.Ok? && !Validated(TestOutput(exec, s))
    ensures Start(exec, s).result == Err(ValidationFailed(ValidationMessage(s.device.serial)))
    ensures Start(exec, s).steps == Prepare(exec, s).steps + [Invoke(TestCommand(s))]
  {
    var p := Prepare(exec, s).session;
    PrepareKeeps(exec, s);
    assert p.device.serial == s.device.serial && p.device.width == s.device.width && p.device.height == s.device.height;
    LaunchValidationFails(exec, p);
  }

  /** `Stop` leaves the session as it is, so stopping twice takes the same steps twice. */
  lemma StopKeepsSession(s: Session)
    ensures Stop(s).session == s && Stop(s).result == Ok(())
    ensures Stop(Stop(s).session) == Stop(s)
  {
  }

  /**
   After disposing of the client, `Stop` sends `forward --remove-all` and then the kill, both
   without `-s`, and the kill reads back (with `Int32.Parse`) as the session's pid.
   */
  lemma StopLines(s: Session)
    requires InInt32(s.pid)
    ensures var r := Stop(s);
      && |r.steps| == 3 && r.steps[0] == ClientDispose && r.steps[1].Invoke? && r.steps[2].Invoke?
      && ArgsOf(r.steps[1].command) == "forward --remove-all"
      && SplitAdbArgs(ArgsOf(r.steps[2].command)) == (Host, ShellArgs(KillLine(s.pid)))
      && KillLine(s.pid)[..5] == "kill " && Int32Parse(KillLine(s.pid)[5..]) == Ok(s.pid)
  {
    KillTargetsPid(s.pid);
    NoReturnLosesSerial(s.device.serial, KillLine(s.pid));
  }

  /** A session that never found its process sends `kill -1`. */
  lemma StopNeverStarted(device: Device, exeDir: string)
    ensures ArgsOf(Stop(NewSession(device, exeDir)).steps[2].command) == " shell \"kill -1\""
  {
    assert IntToString(-1) == "-1";
  }

  /** The setter stores the rotation, and schedules a restart exactly when the rotation changes. */
  lemma SetRotationMeans(s: Session, r: Rotation)
    ensures SetRotation(s, r).0 == s.(rotation := r)
    ensures SetRotation(s, r).1 <==> s.rotation != r
    ensures SetRotation(SetRotation(s, r).0, r) == (SetRotation(s, r).0, false)
  {
  }

  /** The scheduled restart stops the session and then starts the very same session. */
  lemma RestartIsStopThenStart(exec: Executor, s: Session)
    ensures Restart(exec, s).steps == Stop(s).steps + Start(exec, s).steps
    ensures Restart(exec, s).session == Start(exec, s).session && Restart(exec, s).result == Start(exec, s).result
  {
  }
}
