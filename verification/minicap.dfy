/**
 The minicap session of one device: installing minicap when it is missing, checking it runs,
 launching it with the projection for the current rotation, reading back its pid, forwarding its
 socket and starting the frame client; stopping it again; and the rotation setter that schedules a
 restart.

 A session step either invokes adb (through the device adapter), sleeps, or starts or disposes
 the frame client, whose protocol is not part of this model. Every operation returns the session
 after it, the ordered steps it took, and its outcome.
 */
module Minicap {
  import opened Results
  import opened Text
  import opened Decimal
  import opened Lines
  import opened Adb
  import opened ProcessTable
  import opened Checks

  /** `SurfaceRotation`: the display rotations and their values in degrees. */
  datatype Rotation = Rotation0 | Rotation90 | Rotation180 | Rotation270

  function Degrees(r: Rotation): nat {
    match r
    case Rotation0 => 0
    case Rotation90 => 90
    case Rotation180 => 180
    case Rotation270 => 270
  }

  /** The four rotations are told apart by their degrees, which are the four right angles. */
  lemma DegreesDistinct(a: Rotation, b: Rotation)
    ensures Degrees(a) in {0, 90, 180, 270}
    ensures Degrees(a) == Degrees(b) <==> a == b
  {
  }

  /** Rotations by a quarter or three quarters of a turn exchange the display's axes. */
  predicate IsSideways(r: Rotation) {
    r == Rotation90 || r == Rotation270
  }

  /**
   A `MinicapAdapter`: its device adapter, the rotation, the pid of the minicap process (-1
   before one was found) and the directory the minicap binaries are pushed from.
   */
  datatype Session = Session(device: Device, rotation: Rotation, pid: int, exeDir: string)

  /** `IsRunning`: a positive pid has been read. */
  predicate IsRunning(s: Session) {
    s.pid > 0
  }

  /** The constructor: no rotation, no process. */
  function NewSession(device: Device, exeDir: string): (s: Session)
    ensures !IsRunning(s) && s.rotation == Rotation0
    ensures s.device == device && s.exeDir == exeDir
  {
    Session(device, Rotation0, -1, exeDir)
  }

  /** One step of a session operation. */
  datatype Step = Invoke(command: Command) | Sleep | ClientStart | ClientDispose

  // ---------------------------------------------------------------------------------------
  // Command texts

  const TmpDir: string := "/data/local/tmp/"
  const ListFiles: string := "cd /data/local/tmp && ls | grep 'mini'"
  const Chmod: string := "cd /data/local/tmp && chmod 777 minicap*"
  const ProcessQuery: string := "ps | grep 'minicap'"
  const ForwardPort: string := "forward tcp:1313 localabstract:minicap"
  const RemoveForwards: string := "forward --remove-all"
  const Launcher: string := "LD_LIBRARY_PATH=/data/local/tmp /data/local/tmp/minicap -P "

  /** `push <dir>minicap/bin/<abi>/<name> /data/local/tmp/` */
  function PushBinary(dir: string, abi: string, name: string): string {
    "push " + dir + "minicap/bin/" + abi + "/" + name + " " + TmpDir
  }

  /** `push <dir>minicap/shared/android-<sdk>/<abi>/minicap.so /data/local/tmp/` */
  function PushLibrary(dir: string, sdk: string, abi: string): string {
    "push " + dir + "minicap/shared/android-" + sdk + "/" + abi + "/minicap.so " + TmpDir
  }

  /** `<width>x<height>` */
  function Dims(width: nat, height: nat): string {
    NatToString(width) + "x" + NatToString(height)
  }

  /** minicap's `-P` argument: `<width>x<height>@<virtual width>x<virtual height>/<degrees>`. */
  function Projection(width: nat, height: nat, vwidth: nat, vheight: nat, degrees: nat): string {
    Dims(width, height) + "@" + Dims(vwidth, vheight) + "/" + NatToString(degrees)
  }

  /** The text before the first `c` and the text after it. */
  function SplitAt(s: string, c: char): (r: Option<(string, string)>)
    ensures r.Some? ==> s == r.value.0 + [c] + r.value.1 && c !in r.value.0
  {
    var i := IndexOf(s, c);
    if i < |s| then
      assert s == s[..i] + [c] + s[i + 1..];
      Some((s[..i], s[i + 1..]))
    else None
  }

  lemma SplitAtAfter(a: string, c: char, b: string)
    requires c !in a
    ensures SplitAt(a + [c] + b, c) == Some((a, b))
  {
    var s := a + [c] + b;
    IndexOfAfter(a, c, b);
    assert s[..|a|] == a && s[|a| + 1..] == b;
  }

  /** Reading `<digits>x<digits>`. */
  function ParseDims(s: string): Option<(nat, nat)> {
    match SplitAt(s, 'x')
    case None => None
    case Some((w, h)) => if IsDigits(w) && IsDigits(h) then Some((Value(w), Value(h))) else None
  }

  /** Reading a projection back (the partner of `Projection`). */
  function ParseProjection(s: string): Option<(nat, nat, nat, nat, nat)> {
    match SplitAt(s, '@')
    case None => None
    case Some((physical, rest)) =>
      match SplitAt(rest, '/')
      case None => None
      case Some((virtual, degrees)) =>
        match (ParseDims(physical), ParseDims(virtual))
        case (Some((w, h)), Some((vw, vh))) => if IsDigits(degrees) then Some((w, h, vw, vh, Value(degrees))) else None
        case _ => None
  }

  lemma DigitsLack(s: string, c: char)
    requires AllDigits(s) && !IsDigit(c)
    ensures c !in s
  {
  }

  lemma DimsRoundTrip(width: nat, height: nat)
    ensures ParseDims(Dims(width, height)) == Some((width, height))
    ensures '@' !in Dims(width, height) && '/' !in Dims(width, height)
  {
    var w, h := NatToString(width), NatToString(height);
    DigitsLack(w, 'x');
    DigitsLack(w, '@');
    DigitsLack(h, '@');
    DigitsLack(w, '/');
    DigitsLack(h, '/');
    SplitAtAfter(w, 'x', h);
    assert Dims(width, height) == w + ['x'] + h;
  }

  /** Every projection reads back as the five numbers it was written from. */
  lemma ProjectionRoundTrip(width: nat, height: nat, vwidth: nat, vheight: nat, degrees: nat)
    ensures ParseProjection(Projection(width, height, vwidth, vheight, degrees)) == Some((width, height, vwidth, vheight, degrees))
  {
    var physical, virtual, d := Dims(width, height), Dims(vwidth, vheight), NatToString(degrees);
    var rest := virtual + ['/'] + d;
    assert Projection(width, height, vwidth, vheight, degrees) == physical + ['@'] + rest;
    assert SplitAt(physical + ['@'] + rest, '@') == Some((physical, rest)) by {
      DimsRoundTrip(width, height);
      SplitAtAfter(physical, '@', rest);
    }
    assert SplitAt(rest, '/') == Some((virtual, d)) by {
      DimsRoundTrip(vwidth, vheight);
      SplitAtAfter(virtual, '/', d);
    }
    assert ParseDims(physical) == Some((width, height)) by {
      DimsRoundTrip(width, height);
    }
    assert ParseDims(virtual) == Some((vwidth, vheight)) by {
      DimsRoundTrip(vwidth, vheight);
    }
    assert IsDigits(d) && Value(d) == degrees;
  }

  /** `kill <pid>` */
  function KillLine(pid: int): string {
    "kill " + IntToString(pid)
  }

  /** The process `Stop` kills is the session's pid, read back with `Int32.Parse`. */
  lemma KillTargetsPid(pid: int)
    requires InInt32(pid)
    ensures KillLine(pid)[..5] == "kill " && Int32Parse(KillLine(pid)[5..]) == Ok(pid)
  {
    assert KillLine(pid)[5..] == IntToString(pid);
    Int32RoundTrip(pid);
  }

  // ---------------------------------------------------------------------------------------
  // Install check, push, self test and launch

  /** The session's commands go to its device; the fire-and-forget ones go out without `-s`. */
  function RunOnDevice(exec: Executor, s: Session, line: string): Reply {
    RunShellCommand(exec, Serial(s.device.serial), line)
  }

  function Invokes(commands: seq<Command>): (r: seq<Step>)
    ensures |r| == |commands|
  {
    if commands == [] then [] else [Invoke(commands[0])] + Invokes(commands[1..])
  }

  /** The property state after the push, its steps and whether the SDK level could be read. */
  datatype Pushed = Pushed(prop: DeviceProp, steps: seq<Step>, result: Result<int, NumberError>)

  /**
   `PushMinicap`: push the executable for the device's ABI, the PIE-less one as well below SDK
   level 16, and the shared library for the SDK level and ABI; wait, make them executable, wait.
   The properties are read in the order `PushMinicap` reads them; all but the first read of each
   come from the cache. An SDK reply `Int32.Parse` rejects ends the push with that error.
   */
  function PushMinicap(exec: Executor, s: Session): Pushed {
    var serial, dir := s.device.serial, s.exeDir;
    var abi := Abi(exec, serial, s.device.prop);
    var pushExe := RunAdbCommandNoReturn(Serial(serial), Plain(PushBinary(dir, abi.value, "minicap")));
    var sdk := Sdk(exec, serial, abi.prop);
    var before := Invokes(abi.issued) + [Invoke(pushExe)] + Invokes(sdk.issued);
    match Int32Parse(sdk.value)
    case Err(e) => Pushed(sdk.prop, before, Err(e))
    case Ok(level) =>
      var rest := PushForLevel(exec, serial, dir, sdk.prop, level);
      Pushed(rest.prop, before + rest.steps, Ok(level))
  }

  /** The part of `PushMinicap` after the SDK level was read as `level`. */
  function PushForLevel(exec: Executor, serial: string, dir: string, p: DeviceProp, level: int): Pushed {
    var nopie :=
      if level < 16 then
        var abi2 := Abi(exec, serial, p);
        Invokes(abi2.issued) + [Invoke(RunAdbCommandNoReturn(Serial(serial), Plain(PushBinary(dir, abi2.value, "minicap-nopie"))))]
      else [];
    var sdk3 := Sdk(exec, serial, p);
    var abi3 := Abi(exec, serial, sdk3.prop);
    var pushLib := RunAdbCommandNoReturn(Serial(serial), Plain(PushLibrary(dir, sdk3.value, abi3.value)));
    var chmod := RunShellCommandNoReturn(Serial(serial), Chmod);
    Pushed(abi3.prop, nopie + Invokes(sdk3.issued + abi3.issued) + [Invoke(pushLib), Sleep, Invoke(chmod), Sleep], Ok(level))
  }

  /** `SelfTest(w, h)`: the `-t` run at the physical size, unrotated. */
  function SelfTestLine(width: nat, height: nat): string {
    Launcher + Projection(width, height, width, height, 0) + " -t"
  }

  /** The virtual size: the physical size, with the axes exchanged when the display is sideways. */
  function VirtualSize(d: Device, r: Rotation): (nat, nat) {
    if IsSideways(r) then (d.height, d.width) else (d.width, d.height)
  }

  /** `StartMinicap`'s command: the physical size, the virtual size and the rotation in degrees. */
  function LaunchLine(s: Session): string {
    var (vw, vh) := VirtualSize(s.device, s.rotation);
    Launcher + Projection(s.device.width, s.device.height, vw, vh, Degrees(s.rotation))
  }

  /**
   The launch command carries the physical size, the virtual size (exchanged exactly for the
   sideways rotations) and the rotation, each recoverable from the text.
   */
  lemma LaunchLineMeans(s: Session)
    ensures LaunchLine(s)[..|Launcher|] == Launcher
    ensures var p := ParseProjection(LaunchLine(s)[|Launcher|..]);
      && p.Some?
      && p.value.0 == s.device.width && p.value.1 == s.device.height
      && p.value.4 == Degrees(s.rotation)
      && (IsSideways(s.rotation) ==> p.value.2 == s.device.height && p.value.3 == s.device.width)
      && (!IsSideways(s.rotation) ==> p.value.2 == s.device.width && p.value.3 == s.device.height)
  {
    var (vw, vh) := VirtualSize(s.device, s.rotation);
    var p := Projection(s.device.width, s.device.height, vw, vh, Degrees(s.rotation));
    assert LaunchLine(s)[|Launcher|..] == p;
    ProjectionRoundTrip(s.device.width, s.device.height, vw, vh, Degrees(s.rotation));
  }

  /** The self test runs unrotated at the physical size, as the launch of an unrotated session does. */
  lemma SelfTestLineMeans(s: Session)
    ensures SelfTestLine(s.device.width, s.device.height) == LaunchLine(s.(rotation := Rotation0)) + " -t"
  {
  }

  // ---------------------------------------------------------------------------------------
  // Start, Stop and the rotation setter

  /** Why `Start` threw. */
  datatype StartError = NumberFailure(error: NumberError) | ValidationFailed(message: string)

  function ValidationMessage(serial: string): string {
    "Failed to validate the minicap environment on the device: " + serial
  }

  /** The session after an operation, the steps it took and its outcome. */
  datatype Outcome = Outcome(session: Session, steps: seq<Step>, result: Result<(), StartError>)

  /** The first half of `Start`: the install check, and the push when the check fails. */
  function Prepare(exec: Executor, s: Session): Outcome {
    var check := RunOnDevice(exec, s, ListFiles);
    if CheckedInstalled(check.output) then Outcome(s, [Invoke(check.issued)], Ok(()))
    else
      var pushed := PushMinicap(exec, s);
      var after := s.(device := s.device.(prop := pushed.prop));
      var steps := [Invoke(check.issued)] + pushed.steps;
      match pushed.result
      case Err(e) => Outcome(after, steps, Err(NumberFailure(e)))
      case Ok(_) => Outcome(after, steps, Ok(()))
  }

  /**
   The second half of `Start`, on a prepared session: the self test (a failure throws before
   anything is launched), the launch, the pid lookup, the port forward and the client start.
   */
  function Launch(exec: Executor, s: Session): Outcome {
    var test := RunOnDevice(exec, s, SelfTestLine(s.device.width, s.device.height));
    if !Validated(test.output) then Outcome(s, [Invoke(test.issued)], Err(ValidationFailed(ValidationMessage(s.device.serial))))
    else
      var launch := RunShellCommandNoReturn(Serial(s.device.serial), LaunchLine(s));
      var ps := RunOnDevice(exec, s, ProcessQuery);
      var steps := [Invoke(test.issued), Invoke(launch), Invoke(ps.issued)];
      match ProcessId(ps.output, s.pid)
      case Err(e) => Outcome(s, steps, Err(NumberFailure(e)))
      case Ok(pid) =>
        var forward := RunAdbCommandNoReturn(Serial(s.device.serial), Plain(ForwardPort));
        Outcome(s.(pid := pid), steps + [Invoke(forward), ClientStart], Ok(()))
  }

  /** `Start`. */
  function Start(exec: Executor, s: Session): Outcome {
    var prepared := Prepare(exec, s);
    if prepared.result.Err? then prepared
    else
      var launched := Launch(exec, prepared.session);
      Outcome(launched.session, prepared.steps + launched.steps, launched.result)
  }

  /** `Stop`: dispose of the client, drop all forwards, kill the recorded pid. */
  function Stop(s: Session): Outcome {
    var forward := RunAdbCommandNoReturn(Serial(s.device.serial), Plain(RemoveForwards));
    var kill := RunShellCommandNoReturn(Serial(s.device.serial), KillLine(s.pid));
    Outcome(s, [ClientDispose, Invoke(forward), Invoke(kill)], Ok(()))
  }

  /** The rotation setter: the session after it and whether a restart was scheduled. */
  function SetRotation(s: Session, r: Rotation): (Session, bool) {
    if s.rotation == r then (s, false) else (s.(rotation := r), true)
  }

  /** The scheduled restart: `Stop`, then `Start`. */
  function Restart(exec: Executor, s: Session): Outcome {
    var stopped := Stop(s);
    var started := Start(exec, stopped.session);
    Outcome(started.session, stopped.steps + started.steps, started.result)
  }
}
