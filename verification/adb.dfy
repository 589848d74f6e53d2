/**
 The adb side of the adapter: how command lines for the `adb` executable are composed, how the
 captured output of a finished adb process is reduced to one string, and the parsers that read
 the device list, the display size and the cached device properties out of that string.

 adb itself is an oracle (`Executor`): the model never runs it, it records every invocation in
 an ordered list of `Command`s and reads the reply of each waited-for invocation from the oracle.
 */
module Adb {
  import opened Results
  import opened Text
  import opened Decimal
  import opened Lines

  /** The text an adb process wrote to standard output and to standard error. */
  datatype Capture = Capture(stdout: string, stderr: string)

  /** The receiver of the adb calls: the plain adapter, or a device adapter bound to a serial. */
  datatype Adapter = Host | Serial(serial: string)

  /**
   What follows the receiver on an adb argument line: a command given as it is, or a device
   shell line that `RunShellCommand` wraps as `shell "<line>"`.
   */
  datatype AdbCommand = Plain(text: string) | Shell(line: string)

  /** One adb invocation: `Run` waits for the process and reads its output, `Spawn` does not. */
  datatype Command = Run(receiver: Adapter, command: AdbCommand) | Spawn(command: AdbCommand)

  /**
   The replies of adb: the capture of a finished run. The oracle is keyed by the invocation
   rather than by its argument line, which only allows more oracles than the real adb.
   */
  type Executor = Command -> Capture

  /** What `HandleOutput` returns when the process did not finish in time. */
  const ProcessTimeout: string := "PROCESS TIMEOUT"

  /**
   The selection at the end of `HandleOutput`: the trimmed standard error when it holds
   anything but whitespace and regular output is not forced, otherwise the trimmed standard
   output; the timeout marker when the waits did not all succeed.
   */
  function HandleOutput(finished: bool, c: Capture, forceRegular: bool): (r: string)
    ensures IsTrimmed(r)
  {
    if !finished then ProcessTimeout
    else if Trim(c.stderr) == [] || forceRegular then Trim(c.stdout)
    else Trim(c.stderr)
  }

  /** Which stream the output comes from, and that only its surrounding whitespace is dropped. */
  lemma HandleOutputMeans(finished: bool, c: Capture, forceRegular: bool)
    ensures var r := HandleOutput(finished, c, forceRegular);
      && (!finished ==> r == ProcessTimeout)
      && (finished && (forceRegular || AllSpace(c.stderr)) ==> PaddedBy(c.stdout, r))
      && (finished && !forceRegular && !AllSpace(c.stderr) ==> PaddedBy(c.stderr, r) && r != [])
  {
    TrimEmptyIffAllSpace(c.stderr);
    TrimPads(c.stdout);
    TrimPads(c.stderr);
  }

  /** The argument line `RunAdbCommand` hands to adb: a device adapter puts `-s <serial>` first. */
  function AdbArgs(a: Adapter, command: string): string {
    match a
    case Host => command
    case Serial(serial) => " -s " + serial + " " + command
  }

  /** The `shell "<command>"` wrapping of `RunShellCommand` and `RunShellCommandNoReturn`. */
  function ShellArgs(command: string): string {
    " shell \"" + command + "\""
  }

  function CommandText(c: AdbCommand): string {
    match c
    case Plain(text) => text
    case Shell(line) => ShellArgs(line)
  }

  /** The argument line adb is started with for an invocation. */
  function ArgsOf(c: Command): string {
    match c
    case Run(a, command) => AdbArgs(a, CommandText(command))
    case Spawn(command) => CommandText(command)
  }

  /** The output of a waited-for adb run, together with the invocation that produced it. */
  datatype Reply = Reply(output: string, issued: Command)

  /**
   `RunAdbCommand`: run adb with the adapter's argument line and wait. The timeout is
   `DEFAULT_TIMEOUT = -1`, an unbounded wait, so a reply always comes from a finished process.
   */
  function RunAdbCommand(exec: Executor, a: Adapter, command: AdbCommand): (r: Reply)
    ensures r.issued == Run(a, command)
    ensures IsTrimmed(r.output)
    ensures PaddedBy(exec(r.issued).stdout, r.output) || PaddedBy(exec(r.issued).stderr, r.output)
  {
    var issued := Run(a, command);
    HandleOutputMeans(true, exec(issued), false);
    Reply(HandleOutput(true, exec(issued), false), issued)
  }

  function RunShellCommand(exec: Executor, a: Adapter, line: string): Reply {
    RunAdbCommand(exec, a, Shell(line))
  }

  /**
   `RunAdbCommandNoReturn`. The device adapter's override hands the command to the base
   class unchanged, so no receiver ever adds `-s <serial>` to a fire-and-forget command.
   */
  function RunAdbCommandNoReturn(a: Adapter, command: AdbCommand): Command {
    Spawn(command)
  }

  function RunShellCommandNoReturn(a: Adapter, line: string): Command {
    RunAdbCommandNoReturn(a, Shell(line))
  }

  /** A serial as the device-list pattern captures it: one or more non-whitespace characters. */
  predicate IsSerial(d: string) {
    d != [] && NoSpace(d)
  }

  /**
   The partner of `AdbArgs`: which device an adb argument line addresses, and the command
   that follows. A line that does not start with `-s <serial> ` addresses no device.
   */
  function SplitAdbArgs(args: string): (r: (Adapter, string))
    ensures r.0.Serial? ==> IsSerial(r.0.serial) && args == AdbArgs(r.0, r.1)
    ensures r.0 == Host ==> r.1 == args
  {
    if |args| >= 4 && args[..4] == " -s " then
      var rest := args[4..];
      var i := IndexOf(rest, ' ');
      if 0 < i < |rest| && NoSpace(rest[..i]) then
        assert args == " -s " + rest[..i] + " " + rest[i + 1..];
        (Serial(rest[..i]), rest[i + 1..])
      else (Host, args)
    else (Host, args)
  }

  lemma NoSpaceHasNoBlank(s: string)
    requires NoSpace(s)
    ensures ' ' !in s
  {
  }

  /** A device command line names its device unambiguously. */
  lemma SplitDeviceArgs(serial: string, command: string)
    requires IsSerial(serial)
    ensures SplitAdbArgs(AdbArgs(Serial(serial), command)) == (Serial(serial), command)
  {
    var args := AdbArgs(Serial(serial), command);
    assert args[..4] == " -s ";
    var rest := args[4..];
    assert rest == serial + [' '] + command;
    NoSpaceHasNoBlank(serial);
    IndexOfAfter(serial, ' ', command);
    assert rest[..|serial|] == serial && rest[|serial| + 1..] == command;
  }

  /**
   A device shell command is `-s <serial>` followed by the two-space `shell "<command>"` line,
   and the device it addresses is read back from it.
   */
  lemma DeviceShellCommand(exec: Executor, serial: string, command: string)
    requires IsSerial(serial)
    ensures ArgsOf(RunShellCommand(exec, Serial(serial), command).issued) == " -s " + serial + "  shell \"" + command + "\""
    ensures SplitAdbArgs(ArgsOf(RunShellCommand(exec, Serial(serial), command).issued)) == (Serial(serial), ShellArgs(command))
  {
    assert " -s " + serial + " " + ShellArgs(command) == " -s " + serial + "  shell \"" + command + "\"";
    SplitDeviceArgs(serial, ShellArgs(command));
  }

  /** A fire-and-forget shell command on a device addresses no device at all. */
  lemma NoReturnLosesSerial(serial: string, command: string)
    ensures RunShellCommandNoReturn(Serial(serial), command) == RunShellCommandNoReturn(Host, command)
    ensures SplitAdbArgs(ArgsOf(RunShellCommandNoReturn(Serial(serial), command))) == (Host, ShellArgs(command))
  {
    assert ShellArgs(command)[..4] == " she";
  }

  // ---------------------------------------------------------------------------------------
  // The device list

  /** The tail `\tdevice` of the device-list pattern. */
  const DeviceSuffix: string := "\tdevice"

  /** One line of `adb devices` against `^(?<device>[\S]+)\tdevice$`, after `Trim()`. */
  function ParseDeviceLine(line: string): (r: Option<string>)
    ensures r.Some? ==> IsSerial(r.value)
  {
    var t := Trim(line);
    var n := |DeviceSuffix|;
    if |t| > n && t[|t| - n..] == DeviceSuffix && IsSerial(t[..|t| - n]) then Some(t[..|t| - n]) else None
  }

  /** A line yields a serial only when it trims to that serial followed by `\tdevice`. */
  lemma DeviceLineSound(line: string)
    requires ParseDeviceLine(line).Some?
    ensures Trim(line) == ParseDeviceLine(line).value + DeviceSuffix
  {
    var t := Trim(line);
    SplitAtSuffix(t, |DeviceSuffix|);
  }

  lemma SplitAtSuffix(t: string, n: nat)
    requires n <= |t|
    ensures t == t[..|t| - n] + t[|t| - n..]
  {
  }

  /** The converse: every line that trims to `<serial>\tdevice` yields that serial. */
  lemma DeviceLineComplete(line: string, serial: string)
    requires IsSerial(serial) && Trim(line) == serial + DeviceSuffix
    ensures ParseDeviceLine(line) == Some(serial)
  {
    var t := Trim(line);
    assert t[|t| - |DeviceSuffix|..] == DeviceSuffix;
    assert t[..|t| - |DeviceSuffix|] == serial;
  }

  /** The serial a single line contributes (empty lines are skipped before matching). */
  function LineSerials(line: string): seq<string> {
    if line == [] then []
    else match ParseDeviceLine(line)
      case Some(d) => [d]
      case None => []
  }

  /** The loop of `ConnectedDevices`: the serials of the matching lines, in input order. */
  function ParseDevices(lines: seq<string>): (serials: seq<string>)
    ensures |serials| <= |lines|
    ensures forall k :: 0 <= k < |serials| ==> IsSerial(serials[k])
  {
    if lines == [] then [] else LineSerials(lines[0]) + ParseDevices(lines[1..])
  }

  /** The device list is parsed line by line: splitting the input splits the result. */
  lemma {:induction false} ParseDevicesAppend(a: seq<string>, b: seq<string>)
    ensures ParseDevices(a + b) == ParseDevices(a) + ParseDevices(b)
  {
    if a != [] {
      assert (a + b)[1..] == a[1..] + b;
      ParseDevicesAppend(a[1..], b);
    } else {
      assert a + b == b;
    }
  }

  /** Line `k` of the listing announces `serial` as an attached device. */
  ghost predicate ListedAt(lines: seq<string>, k: int, serial: string) {
    0 <= k < |lines| && IsSerial(serial) && Trim(lines[k]) == serial + DeviceSuffix
  }

  /** Every line that announces a device contributes its serial. */
  lemma {:induction false} ParseDevicesComplete(lines: seq<string>, k: int, serial: string)
    requires ListedAt(lines, k, serial)
    ensures serial in ParseDevices(lines)
    decreases |lines|
  {
    assert ParseDevices(lines) == LineSerials(lines[0]) + ParseDevices(lines[1..]);
    if k == 0 {
      DeviceLineComplete(lines[0], serial);
      assert lines[0] != [] by {
        assert |Trim(lines[0])| > 0;
      }
      assert LineSerials(lines[0]) == [serial];
    } else {
      assert lines[1..][k - 1] == lines[k];
      ParseDevicesComplete(lines[1..], k - 1, serial);
    }
  }

  /** Every serial returned comes from a line that announces it. */
  lemma {:induction false} ParseDevicesSound(lines: seq<string>, serial: string)
    requires serial in ParseDevices(lines)
    ensures exists k :: ListedAt(lines, k, serial)
    decreases |lines|
  {
    assert ParseDevices(lines) == LineSerials(lines[0]) + ParseDevices(lines[1..]);
    if serial in LineSerials(lines[0]) {
      assert ParseDeviceLine(lines[0]) == Some(serial);
      DeviceLineSound(lines[0]);
      assert ListedAt(lines, 0, serial);
    } else {
      ParseDevicesSound(lines[1..], serial);
      var k :| ListedAt(lines[1..], k, serial);
      assert lines[1..][k] == lines[k + 1];
      assert ListedAt(lines, k + 1, serial);
    }
  }

  // ---------------------------------------------------------------------------------------
  // The display size

  const SizePrefix: string := "Physical size: "

  /** The two digit groups of `^Physical size: (?<width>[\d]+)x(?<height>[\d]+)$`. */
  function MatchDisplaySize(output: string): (r: Option<(string, string)>)
    ensures r.Some? ==> IsDigits(r.value.0) && IsDigits(r.value.1)
    ensures r.Some? ==> DropFinalNewline(output) == SizePrefix + r.value.0 + "x" + r.value.1
  {
    var s := DropFinalNewline(output);
    var n := |SizePrefix|;
    if |s| < n || s[..n] != SizePrefix then None
    else
      var rest := s[n..];
      var i := IndexOf(rest, 'x');
      if i < |rest| && IsDigits(rest[..i]) && IsDigits(rest[i + 1..]) then
        assert s == SizePrefix + rest[..i] + "x" + rest[i + 1..];
        Some((rest[..i], rest[i + 1..]))
      else None
  }

  lemma DigitsHaveNoX(s: string)
    requires AllDigits(s)
    ensures 'x' !in s
  {
  }

  /** The converse: the literal reply, with or without a final '\n', matches with its digits. */
  lemma MatchDisplaySizeComplete(w: string, h: string, tail: string)
    requires IsDigits(w) && IsDigits(h) && (tail == "" || tail == "\n")
    ensures MatchDisplaySize(SizePrefix + w + "x" + h + tail) == Some((w, h))
  {
    var body := SizePrefix + w + "x" + h;
    assert body[|body| - 1] == h[|h| - 1];
    DropAddedNewline(body, tail);
    assert body[..|SizePrefix|] == SizePrefix;
    var rest := body[|SizePrefix|..];
    assert rest == w + ['x'] + h;
    DigitsHaveNoX(w);
    IndexOfAfter(w, 'x', h);
    assert rest[..|w|] == w && rest[|w| + 1..] == h;
  }

  /** Text the display-size pattern accepts holds no '\n' once the final one is dropped. */
  lemma MatchedHasNoNewline(output: string)
    ensures MatchDisplaySize(output).Some? ==> '\n' !in DropFinalNewline(output)
  {
    var m := MatchDisplaySize(output);
    if m.Some? {
      var (w, h) := m.value;
      var line := SizePrefix + w + "x" + h;
      forall i | 0 <= i < |line|
        ensures line[i] != '\n'
      {
        if i < |SizePrefix| {
          assert line[i] == SizePrefix[i];
        } else if i < |SizePrefix| + |w| {
          assert line[i] == w[i - |SizePrefix|];
        } else if i > |SizePrefix| + |w| {
          assert line[i] == h[i - |SizePrefix| - |w| - 1];
        }
      }
    }
  }

  /** The reply pattern has no line break: multi-line output never matches. */
  lemma MatchDisplaySizeSingleLine(output: string, k: nat)
    requires k < |output| - 1 && output[k] == '\n'
    ensures MatchDisplaySize(output) == None
  {
    MatchedHasNoNewline(output);
    assert DropFinalNewline(output)[k] == '\n';
  }

  /** A display size in pixels, `(width, height)`. */
  type Size = (nat, nat)

  /**
   The body of `GetDisplaySize` after the command: both dimensions when the whole reply is the
   literal pattern (height converted first, as `DeviceAdapter.GetDisplaySize` does), the defaults 0 and 0 otherwise.
   */
  function DisplaySizeOf(output: string): (r: Result<Size, NumberError>)
    ensures MatchDisplaySize(output).None? ==> r == Ok((0, 0))
    ensures MatchDisplaySize(output).Some? ==>
      var digits := MatchDisplaySize(output).value;
      && (r.Ok? <==> Value(digits.0) <= Int32Max && Value(digits.1) <= Int32Max)
      && (r.Ok? ==> r.value == (Value(digits.0), Value(digits.1)))
      && (r.Err? ==> r.error == OverflowError(if Value(digits.1) > Int32Max then digits.1 else digits.0))
  {
    var m := MatchDisplaySize(output);
    if m.None? then Ok((0, 0))
    else
      var height := ParseDigitsInt32(m.value.1);
      if height.Err? then Err(height.error)
      else
        var width := ParseDigitsInt32(m.value.0);
        if width.Err? then Err(width.error)
        else Ok((width.value, height.value))
  }

  /** Every size within 32 bits survives being printed by `wm size` and parsed back. */
  lemma DisplaySizeRoundTrip(width: nat, height: nat)
    requires width <= Int32Max && height <= Int32Max
    ensures DisplaySizeOf(SizePrefix + NatToString(width) + "x" + NatToString(height)) == Ok((width, height))
  {
    var w, h := NatToString(width), NatToString(height);
    MatchDisplaySizeComplete(w, h, "");
    assert SizePrefix + w + "x" + h + "" == SizePrefix + w + "x" + h;
  }

  const WmSize: string := "wm size"

  /** The display-size query a device adapter issues for itself. */
  function SizeQuery(serial: string): Command {
    Run(Serial(serial), Shell(WmSize))
  }

  /**
   `GetDisplaySize`, run by the `DeviceAdapter` constructor for its own serial: it queries its own
   `wm size`; a reply that is not the literal pattern leaves the size at 0 x 0, and a matching one
   yields the two numbers it shows.
   */
  function GetDisplaySize(exec: Executor, serial: string): (r: (Result<Size, NumberError>, Command))
    ensures r.1 == SizeQuery(serial)
    ensures var reply := HandleOutput(true, exec(SizeQuery(serial)), false);
      && (MatchDisplaySize(reply).None? ==> r.0 == Ok((0, 0)))
      && (MatchDisplaySize(reply).Some? ==>
            var digits := MatchDisplaySize(reply).value;
            && (r.0.Ok? <==> Value(digits.0) <= Int32Max && Value(digits.1) <= Int32Max)
            && (r.0.Ok? ==> r.0.value == (Value(digits.0), Value(digits.1)))
            && (r.0.Err? ==> r.0.error == OverflowError(if Value(digits.1) > Int32Max then digits.1 else digits.0)))
  {
    var reply := RunShellCommand(exec, Serial(serial), WmSize);
    (DisplaySizeOf(reply.output), reply.issued)
  }

  /**
   A device that prints `Physical size: <width>x<height>` on its standard output, surrounded by
   nothing but whitespace (such as the line end the capture appends), and nothing but whitespace
   on its standard error, gets exactly that size.
   */
  lemma GetDisplaySizeOfReply(exec: Executor, serial: string, width: nat, height: nat, before: string, after: string)
    requires width <= Int32Max && height <= Int32Max
    requires AllSpace(before) && AllSpace(after) && AllSpace(exec(SizeQuery(serial)).stderr)
    requires exec(SizeQuery(serial)).stdout == before + (SizePrefix + NatToString(width) + "x" + NatToString(height)) + after
    ensures GetDisplaySize(exec, serial).0 == Ok((width, height))
  {
    var line := SizePrefix + NatToString(width) + "x" + NatToString(height);
    assert line[0] == 'P';
    assert line[|line| - 1] == NatToString(height)[|NatToString(height)| - 1];
    TrimOfConcat(before, line, after);
    TrimEmptyIffAllSpace(exec(SizeQuery(serial)).stderr);
    DisplaySizeRoundTrip(width, height);
  }

  // ---------------------------------------------------------------------------------------
  // Device properties

  /**
   The state of a `DeviceProp`: the cached `getprop` replies (`None` for a field still null)
   and the key/value table. Only the constructor assigns the table, so it is never null and the
   getter's parsing branch, guarded by a null check, is unreachable; the table is modelled as
   always present.
   */
  datatype DeviceProp = DeviceProp(abi: Option<string>, sdk: Option<string>, kv: map<string, string>)

  function NewDeviceProp(): DeviceProp {
    DeviceProp(None, None, map[])
  }

  const AbiQuery: string := "getprop ro.product.cpu.abi"
  const SdkQuery: string := "getprop ro.build.version.sdk"

  /** A property read: the value returned, the property state afterwards, the commands issued. */
  datatype PropRead = PropRead(value: string, prop: DeviceProp, issued: seq<Command>)

  /** The `Abi` getter: the cached reply, or the reply of one `getprop` which is then cached. */
  function Abi(exec: Executor, serial: string, p: DeviceProp): (r: PropRead)
    ensures r.prop == p.(abi := Some(r.value))
    ensures p.abi.Some? ==> r.value == p.abi.value && r.issued == []
    ensures p.abi.None? ==> r.issued == [AbiCommand(serial)] && r.value == RunShellCommand(exec, Serial(serial), AbiQuery).output
  {
    match p.abi
    case Some(v) => PropRead(v, p, [])
    case None =>
      var reply := RunShellCommand(exec, Serial(serial), AbiQuery);
      PropRead(reply.output, p.(abi := Some(reply.output)), [reply.issued])
  }

  /** The `SDK` getter, memoised like `Abi`. */
  function Sdk(exec: Executor, serial: string, p: DeviceProp): (r: PropRead)
    ensures r.prop == p.(sdk := Some(r.value))
    ensures p.sdk.Some? ==> r.value == p.sdk.value && r.issued == []
    ensures p.sdk.None? ==> r.issued == [SdkCommand(serial)] && r.value == RunShellCommand(exec, Serial(serial), SdkQuery).output
  {
    match p.sdk
    case Some(v) => PropRead(v, p, [])
    case None =>
      var reply := RunShellCommand(exec, Serial(serial), SdkQuery);
      PropRead(reply.output, p.(sdk := Some(reply.output)), [reply.issued])
  }

  /** The `KV` getter: the table, without any command. */
  function KV(p: DeviceProp): map<string, string> {
    p.kv
  }

  /** The three getters of `DeviceProp`, for reasoning about any sequence of reads. */
  datatype PropKey = AbiKey | SdkKey | KvKey

  datatype PropValue = Text(text: string) | Table(table: map<string, string>)

  datatype Reads = Reads(values: seq<PropValue>, prop: DeviceProp, issued: seq<Command>)

  /** Reading the properties in the given order, each read seeing the state the previous left. */
  function ReadProps(exec: Executor, serial: string, p: DeviceProp, keys: seq<PropKey>): (r: Reads)
    ensures |r.values| == |keys|
    decreases |keys|
  {
    if keys == [] then Reads([], p, [])
    else
      var before := ReadProps(exec, serial, p, keys[..|keys| - 1]);
      match keys[|keys| - 1]
      case AbiKey =>
        var a := Abi(exec, serial, before.prop);
        Reads(before.values + [Text(a.value)], a.prop, before.issued + a.issued)
      case SdkKey =>
        var s := Sdk(exec, serial, before.prop);
        Reads(before.values + [Text(s.value)], s.prop, before.issued + s.issued)
      case KvKey =>
        Reads(before.values + [Table(KV(before.prop))], before.prop, before.issued)
  }

  function AbiCommand(serial: string): Command {
    Run(Serial(serial), Shell(AbiQuery))
  }

  function SdkCommand(serial: string): Command {
    Run(Serial(serial), Shell(SdkQuery))
  }

  /**
   What a sequence of property reads issues, from any starting state: nothing but the two
   `getprop` queries (in particular never the table's ` getprop `), each at most once and only
   while its field is still null; the table is never changed.
   */
  lemma {:induction false} ReadPropsIssued(exec: Executor, serial: string, p: DeviceProp, keys: seq<PropKey>)
    ensures var r := ReadProps(exec, serial, p, keys);
      && r.prop.kv == p.kv
      && (p.abi.Some? ==> r.prop.abi == p.abi)
      && (p.sdk.Some? ==> r.prop.sdk == p.sdk)
      && (forall c :: c in r.issued ==> c == AbiCommand(serial) || c == SdkCommand(serial))
      && multiset(r.issued)[AbiCommand(serial)] == (if p.abi.None? && r.prop.abi.Some? then 1 else 0)
      && multiset(r.issued)[SdkCommand(serial)] == (if p.sdk.None? && r.prop.sdk.Some? then 1 else 0)
    decreases |keys|
  {
    if keys != [] {
      ReadPropsIssued(exec, serial, p, keys[..|keys| - 1]);
    }
  }

  /** One more read keeps the earlier values and the cache, and answers from the cache it leaves. */
  lemma ReadPropsStep(exec: Executor, serial: string, p: DeviceProp, keys: seq<PropKey>)
    requires keys != []
    ensures var before := ReadProps(exec, serial, p, keys[..|keys| - 1]);
      var r := ReadProps(exec, serial, p, keys);
      && r.values[..|keys| - 1] == before.values
      && r.prop.kv == before.prop.kv
      && (before.prop.abi.Some? ==> r.prop.abi == before.prop.abi)
      && (before.prop.sdk.Some? ==> r.prop.sdk == before.prop.sdk)
      && (keys[|keys| - 1] == AbiKey ==> r.prop.abi.Some? && r.values[|keys| - 1] == Text(r.prop.abi.value))
      && (keys[|keys| - 1] == SdkKey ==> r.prop.sdk.Some? && r.values[|keys| - 1] == Text(r.prop.sdk.value))
      && (keys[|keys| - 1] == KvKey ==> r.values[|keys| - 1] == Table(before.prop.kv))
  {
  }

  /** Every read of the ABI in a sequence of reads returns the one cached reply. */
  lemma {:induction false} ReadPropsAbiStable(exec: Executor, serial: string, p: DeviceProp, keys: seq<PropKey>)
    ensures var r := ReadProps(exec, serial, p, keys);
      forall k :: 0 <= k < |keys| && keys[k] == AbiKey ==> r.prop.abi.Some? && r.values[k] == Text(r.prop.abi.value)
    decreases |keys|
  {
    if keys != [] {
      var init := keys[..|keys| - 1];
      ReadPropsAbiStable(exec, serial, p, init);
      ReadPropsStep(exec, serial, p, keys);
      var before := ReadProps(exec, serial, p, init);
      var r := ReadProps(exec, serial, p, keys);
      forall k | 0 <= k < |keys| && keys[k] == AbiKey
        ensures r.prop.abi.Some? && r.values[k] == Text(r.prop.abi.value)
      {
        if k < |init| {
          assert init[k] == keys[k] && r.values[k] == r.values[..|init|][k];
        }
      }
    }
  }

  /** Every read of the SDK level in a sequence of reads returns the one cached reply. */
  lemma {:induction false} ReadPropsSdkStable(exec: Executor, serial: string, p: DeviceProp, keys: seq<PropKey>)
    ensures var r := ReadProps(exec, serial, p, keys);
      forall k :: 0 <= k < |keys| && keys[k] == SdkKey ==> r.prop.sdk.Some? && r.values[k] == Text(r.prop.sdk.value)
    decreases |keys|
  {
    if keys != [] {
      var init := keys[..|keys| - 1];
      ReadPropsSdkStable(exec, serial, p, init);
      ReadPropsStep(exec, serial, p, keys);
      var before := ReadProps(exec, serial, p, init);
      var r := ReadProps(exec, serial, p, keys);
      forall k | 0 <= k < |keys| && keys[k] == SdkKey
        ensures r.prop.sdk.Some? && r.values[k] == Text(r.prop.sdk.value)
      {
        if k < |init| {
          assert init[k] == keys[k] && r.values[k] == r.values[..|init|][k];
        }
      }
    }
  }

  lemma {:induction false} ReadPropsKeepTable(exec: Executor, serial: string, p: DeviceProp, keys: seq<PropKey>)
    ensures ReadProps(exec, serial, p, keys).prop.kv == p.kv
    decreases |keys|
  {
    if keys != [] {
      ReadPropsKeepTable(exec, serial, p, keys[..|keys| - 1]);
      ReadPropsStep(exec, serial, p, keys);
    }
  }

  /** Every read of the table in a sequence of reads returns the table the reads started with. */
  lemma {:induction false} ReadPropsKvStable(exec: Executor, serial: string, p: DeviceProp, keys: seq<PropKey>)
    ensures var r := ReadProps(exec, serial, p, keys);
      forall k :: 0 <= k < |keys| && keys[k] == KvKey ==> r.values[k] == Table(p.kv)
    decreases |keys|
  {
    if keys != [] {
      var init := keys[..|keys| - 1];
      ReadPropsKvStable(exec, serial, p, init);
      ReadPropsKeepTable(exec, serial, p, init);
      ReadPropsStep(exec, serial, p, keys);
      var r := ReadProps(exec, serial, p, keys);
      forall k | 0 <= k < |keys| && keys[k] == KvKey
        ensures r.values[k] == Table(p.kv)
      {
        if k < |init| {
          assert init[k] == keys[k] && r.values[k] == r.values[..|init|][k];
        }
      }
    }
  }

  /**
   The table getter of a `DeviceProp` built by its constructor returns the empty table, however
   the properties were read before.
   */
  lemma KvAlwaysEmpty(exec: Executor, serial: string, keys: seq<PropKey>)
    ensures KV(ReadProps(exec, serial, NewDeviceProp(), keys).prop) == map[]
    ensures forall k :: 0 <= k < |keys| && keys[k] == KvKey ==> ReadProps(exec, serial, NewDeviceProp(), keys).values[k] == Table(map[])
  {
    ReadPropsIssued(exec, serial, NewDeviceProp(), keys);
    ReadPropsKvStable(exec, serial, NewDeviceProp(), keys);
  }

  // ---------------------------------------------------------------------------------------
  // Connected devices

  /** A `DeviceAdapter`: its serial, the display size read at construction, its properties. */
  datatype Device = Device(serial: string, width: nat, height: nat, prop: DeviceProp)

  /** The reply a device gives to its display-size query. */
  function SizeReply(exec: Executor, serial: string): string {
    RunShellCommand(exec, Serial(serial), WmSize).output
  }

  /** The `DeviceAdapter` constructor: query the display size, start with fresh properties. */
  function NewDevice(exec: Executor, serial: string): (r: (Result<Device, NumberError>, Command))
    ensures r.1 == SizeQuery(serial)
    ensures r.0.Ok? ==> r.0.value.serial == serial && r.0.value.prop == NewDeviceProp()
  {
    var (size, issued) := GetDisplaySize(exec, serial);
    match size
    case Ok((w, h)) => (Ok(Device(serial, w, h, NewDeviceProp())), issued)
    case Err(e) => (Err(e), issued)
  }

  /** A device adapter holds the display size its device reported, or fails as the size parse does. */
  lemma NewDeviceSize(exec: Executor, serial: string)
    ensures var r := NewDevice(exec, serial).0;
      && (r.Err? <==> DisplaySizeOf(SizeReply(exec, serial)).Err?)
      && (r.Ok? ==> (r.value.width, r.value.height) == DisplaySizeOf(SizeReply(exec, serial)).value)
  {
  }

  /** An outcome together with the commands issued on the way to it. */
  datatype Listing = Listing(devices: Result<seq<Device>, NumberError>, issued: seq<Command>)

  /** A way of building the adapter for a serial: the adapter or the exception, and the query issued. */
  type Constructor = string -> (Result<Device, NumberError>, Command)

  /** The queries `build` issues for the given serials, in order. */
  function Queries(build: Constructor, serials: seq<string>): (r: seq<Command>)
    ensures |r| == |serials|
  {
    if serials == [] then [] else [build(serials[0]).1] + Queries(build, serials[1..])
  }

  /** The display-size queries of the given devices, in order. */
  function SizeQueries(serials: seq<string>): (r: seq<Command>)
    ensures |r| == |serials|
  {
    if serials == [] then [] else [SizeQuery(serials[0])] + SizeQueries(serials[1..])
  }

  /** The device adapter constructor issues exactly the display-size query of its serial. */
  lemma {:induction false} QueriesOfNewDevice(exec: Executor, serials: seq<string>)
    ensures Queries(s => NewDevice(exec, s), serials) == SizeQueries(serials)
  {
    if serials != [] {
      QueriesOfNewDevice(exec, serials[1..]);
    }
  }

  /** The serials of a list of device adapters, in order. */
  function SerialsOf(devices: seq<Device>): (r: seq<string>)
    ensures |r| == |devices|
  {
    if devices == [] then [] else [devices[0].serial] + SerialsOf(devices[1..])
  }

  /** Constructing the device adapters in list order; the first failing constructor aborts. */
  function MakeDevices(build: Constructor, serials: seq<string>): Listing {
    if serials == [] then Listing(Ok([]), [])
    else
      var first := build(serials[0]);
      if first.0.Err? then Listing(Err(first.0.error), [first.1])
      else
        var rest := MakeDevices(build, serials[1..]);
        var all := [first.1] + rest.issued;
        if rest.devices.Err? then Listing(Err(rest.devices.error), all)
        else Listing(Ok([first.0.value] + rest.devices.value), all)
  }

  /**
   One query per adapter constructed, in list order; every constructor before the last one tried
   succeeded, and a successful listing tried them all.
   */
  lemma {:induction false} MakeDevicesIssued(build: Constructor, serials: seq<string>)
    ensures var r := MakeDevices(build, serials);
      && |r.issued| <= |serials| && r.issued == Queries(build, serials[..|r.issued|])
      && (r.devices.Ok? ==> |r.issued| == |serials|)
      && (forall k :: 0 <= k < |r.issued| - 1 ==> build(serials[k]).0.Ok?)
  {
    if serials != [] {
      var r := MakeDevices(build, serials);
      if build(serials[0]).0.Err? {
        assert serials[..1][1..] == [];
      } else {
        var rest := MakeDevices(build, serials[1..]);
        MakeDevicesIssued(build, serials[1..]);
        assert r.issued == [build(serials[0]).1] + rest.issued;
        assert serials[..|r.issued|][1..] == serials[1..][..|r.issued| - 1];
        forall k | 0 <= k < |r.issued| - 1
          ensures build(serials[k]).0.Ok?
        {
          if k > 0 {
            assert serials[k] == serials[1..][k - 1];
          }
        }
      }
    }
  }

  /** When every constructor succeeds, there is one device adapter per serial, in list order. */
  lemma {:induction false} MakeDevicesSerials(build: Constructor, serials: seq<string>)
    requires forall s :: build(s).0.Ok? ==> build(s).0.value.serial == s
    ensures var r := MakeDevices(build, serials);
      r.devices.Ok? ==> SerialsOf(r.devices.value) == serials
  {
    if serials != [] {
      var r := MakeDevices(build, serials);
      MakeDevicesSerials(build, serials[1..]);
      if r.devices.Ok? {
        assert r.devices.value[1..] == MakeDevices(build, serials[1..]).devices.value;
      }
    }
  }

  /** Every device adapter built is the one its constructor makes for a listed serial. */
  lemma {:induction false} MakeDevicesBuilt(build: Constructor, serials: seq<string>)
    ensures var r := MakeDevices(build, serials);
      r.devices.Ok? ==> forall d :: d in r.devices.value ==> exists k :: 0 <= k < |serials| && build(serials[k]).0 == Ok(d)
  {
    if serials != [] {
      var r := MakeDevices(build, serials);
      MakeDevicesBuilt(build, serials[1..]);
      if r.devices.Ok? {
        forall d | d in r.devices.value
          ensures exists k :: 0 <= k < |serials| && build(serials[k]).0 == Ok(d)
        {
          if d == r.devices.value[0] {
            assert build(serials[0]).0 == Ok(d);
          } else {
            var k :| 0 <= k < |serials[1..]| && build(serials[1..][k]).0 == Ok(d);
            assert build(serials[k + 1]).0 == Ok(d);
          }
        }
      }
    }
  }

  /** Construction stops at the first constructor that throws, after issuing its query, with its exception. */
  lemma {:induction false} MakeDevicesAborts(build: Constructor, serials: seq<string>)
    ensures var r := MakeDevices(build, serials);
      r.devices.Err? ==>
        && 0 < |r.issued| <= |serials| && build(serials[|r.issued| - 1]).0.Err?
        && r.devices.error == build(serials[|r.issued| - 1]).0.error
  {
    var r := MakeDevices(build, serials);
    if serials != [] && r.devices.Err? {
      var first := build(serials[0]);
      if first.0.Ok? {
        var rest := MakeDevices(build, serials[1..]);
        MakeDevicesAborts(build, serials[1..]);
        assert r.issued == [first.1] + rest.issued;
        assert serials[1..][|rest.issued| - 1] == serials[|r.issued| - 1];
      } else {
        assert r.issued == [first.1];
      }
    }
  }

  /** The serials in the reply of `adb devices`. */
  function DeviceSerials(output: string): seq<string> {
    ParseDevices(ReadLines(output))
  }

  /** The adapter constructor `ConnectedDevices` applies to each listed serial. */
  function DeviceConstructor(exec: Executor): Constructor {
    s => NewDevice(exec, s)
  }

  /**
   `ConnectedDevices`: `adb devices` on the plain adapter, then one device adapter (and so one
   `wm size` query) per listed serial, in listing order, until a constructor throws.
   */
  function ConnectedDevices(exec: Executor): (r: Listing)
    ensures |r.issued| >= 1 && r.issued[0] == Run(Host, Plain("devices"))
    ensures var serials := DeviceSerials(RunAdbCommand(exec, Host, Plain("devices")).output);
      && |r.issued| <= 1 + |serials|
      && r.issued[1..] == SizeQueries(serials[..|r.issued| - 1])
      && (r.devices.Ok? ==> |r.issued| == 1 + |serials|)
  {
    var reply := RunAdbCommand(exec, Host, Plain("devices"));
    var serials := DeviceSerials(reply.output);
    var made := MakeDevices(DeviceConstructor(exec), serials);
    MakeDevicesIssued(DeviceConstructor(exec), serials);
    QueriesOfNewDevice(exec, serials[..|made.issued|]);
    Listing(made.devices, [reply.issued] + made.issued)
  }

  /** The devices `ConnectedDevices` builds from the listed serials. */
  lemma ConnectedDevicesAre(exec: Executor)
    ensures var serials := DeviceSerials(RunAdbCommand(exec, Host, Plain("devices")).output);
      && ConnectedDevices(exec).devices == MakeDevices(DeviceConstructor(exec), serials).devices
      && ConnectedDevices(exec).issued == [Run(Host, Plain("devices"))] + MakeDevices(DeviceConstructor(exec), serials).issued
  {
  }

  /** On success there is one device adapter per listed serial, in listing order. */
  lemma ConnectedDevicesSerials(exec: Executor)
    ensures var r := ConnectedDevices(exec);
      r.devices.Ok? ==> SerialsOf(r.devices.value) == DeviceSerials(RunAdbCommand(exec, Host, Plain("devices")).output)
  {
    var serials := DeviceSerials(RunAdbCommand(exec, Host, Plain("devices")).output);
    ConnectedDevicesAre(exec);
    MakeDevicesSerials(DeviceConstructor(exec), serials);
  }

  /** Every device adapter returned is the one its constructor builds for a listed device. */
  lemma ConnectedDevicesBuilt(exec: Executor)
    ensures var r := ConnectedDevices(exec);
      r.devices.Ok? ==> forall d :: d in r.devices.value ==>
        && IsSerial(d.serial)
        && d.prop == NewDeviceProp()
        && NewDevice(exec, d.serial).0 == Ok(d)
  {
    var serials := DeviceSerials(RunAdbCommand(exec, Host, Plain("devices")).output);
    var build := DeviceConstructor(exec);
    ConnectedDevicesAre(exec);
    MakeDevicesBuilt(build, serials);
    var r := ConnectedDevices(exec);
    if r.devices.Ok? {
      forall d | d in r.devices.value
        ensures IsSerial(d.serial) && d.prop == NewDeviceProp() && NewDevice(exec, d.serial).0 == Ok(d)
      {
        var k :| 0 <= k < |serials| && build(serials[k]).0 == Ok(d);
        assert NewDevice(exec, serials[k]).0 == Ok(d);
      }
    }
  }

  /** A failed listing stops at the first device whose adapter could not be built. */
  lemma ConnectedDevicesAborts(exec: Executor)
    ensures var r := ConnectedDevices(exec);
      var serials := DeviceSerials(RunAdbCommand(exec, Host, Plain("devices")).output);
      r.devices.Err? ==>
        && 2 <= |r.issued| && NewDevice(exec, serials[|r.issued| - 2]).0.Err?
        && r.devices.error == NewDevice(exec, serials[|r.issued| - 2]).0.error
        && (forall k :: 0 <= k < |r.issued| - 2 ==> NewDevice(exec, serials[k]).0.Ok?)
  {
    var serials := DeviceSerials(RunAdbCommand(exec, Host, Plain("devices")).output);
    var build := DeviceConstructor(exec);
    var made := MakeDevices(build, serials);
    var r := ConnectedDevices(exec);
    ConnectedDevicesAre(exec);
    if r.devices.Err? {
      MakeDevicesAborts(build, serials);
      MakeDevicesIssued(build, serials);
      assert |r.issued| == 1 + |made.issued|;
      assert build(serials[|made.issued| - 1]) == NewDevice(exec, serials[|made.issued| - 1]);
      forall k | 0 <= k < |r.issued| - 2
        ensures NewDevice(exec, serials[k]).0.Ok?
      {
        assert build(serials[k]).0.Ok?;
      }
    }
  }
}
