/**
 The C++ viewer's command line: how `argv[1..]` becomes either the help exit,
 an invalid-argument exit, or the suffix that is appended to the ingestion
 prefix of the graph description.

 Every option consumes the entry after it as its value, whatever that entry
 is; an option in the last position gets the empty value. So option k is
 `args[2k]` and its value is `args[2k + 1]` (or ""). Options are processed
 left to right until one of them ends the loop: `-h`, an unknown option, a
 `-s` with an unknown protocol, or any `-p`.

 `ParseCommandLine` follows the loop of `main` statement by statement;
 `Resolve` describes the same outcome declaratively, field by field ("the last
 `-a` before the stopping option wins", "`-s udp` anywhere before it sets the
 port"), and the method is proved to agree with it.
 */
module Options {
  import opened CTypes

  /** The local variables `main` updates while reading options. */
  datatype Settings = Settings(
    pre: string,
    stream: string,
    needsAddr: bool,
    addrType: string,
    addr: string,
    portType: string,
    port: string,
    streamOpts: string,
    profileGiven: bool,
    customPipeline: string)

  const Initial: Settings := Settings("", "", false, "", "", "", "", "", false, "")

  datatype Failure =
    | UnknownOption(option: string)
    | UnknownProtocol(protocol: string)
    | UnknownProfile(profile: string)
    | MissingRequired
    | MissingAddress(sink: string)

  datatype Resolution = Help | Invalid(failure: Failure) | Pipeline(suffix: string)

  /** Process exit status of the two resolutions that end the program early. */
  function ExitCode(r: Resolution): (code: int)
    requires !r.Pipeline?
    ensures code == 0 <==> r.Help?
    ensures code == 1 <==> r.Invalid?
  {
    if r.Help? then 0 else 1
  }

  predicate IsHelpFlag(a: string) { a == "-h" || a == "--help" }
  predicate IsAddrFlag(a: string) { a == "-a" || a == "--addr" }
  predicate IsStreamFlag(a: string) { a == "-s" || a == "--stream" }
  predicate IsProfileFlag(a: string) { a == "-p" || a == "--profile" }
  predicate IsPipelineFlag(a: string) { a == "-P" || a == "--pipeline" }

  predicate IsKnownFlag(a: string) {
    IsHelpFlag(a) || IsAddrFlag(a) || IsStreamFlag(a) || IsProfileFlag(a) || IsPipelineFlag(a)
  }

  predicate IsProtocol(v: string) { v == "auto" || v == "rtsp" || v == "udp" || v == "v4l2" }
  predicate IsProfileName(v: string) { v == "loopback" || v == "viewer" || v == "streamer" }

  /** Options that let the loop go on to the next option. */
  predicate ContinuesWith(a: string, v: string) {
    IsAddrFlag(a) || IsPipelineFlag(a) || (IsStreamFlag(a) && IsProtocol(v))
  }

  function OptionCount(args: seq<string>): nat {
    (|args| + 1) / 2
  }

  function Name(args: seq<string>, k: nat): string
    requires k < OptionCount(args)
  {
    args[2 * k]
  }

  /** The value option k swallows: the next entry, or "" when there is none. */
  function Value(args: seq<string>, k: nat): string
    requires k < OptionCount(args)
  {
    if 2 * k + 1 < |args| then args[2 * k + 1] else ""
  }

  predicate Continues(args: seq<string>, k: nat)
    requires k < OptionCount(args)
  {
    ContinuesWith(Name(args, k), Value(args, k))
  }

  /** The first option at or after k that ends the loop, or OptionCount(args). */
  function StopFrom(args: seq<string>, k: nat): (s: nat)
    requires k <= OptionCount(args)
    ensures k <= s <= OptionCount(args)
    ensures forall j :: k <= j < s ==> Continues(args, j)
    ensures s < OptionCount(args) ==> !Continues(args, s)
    decreases OptionCount(args) - k
  {
    if k == OptionCount(args) then k
    else if !Continues(args, k) then k
    else StopFrom(args, k + 1)
  }

  /** Index of the option that ends the loop, or OptionCount(args) when the
      loop runs to the end of the command line. */
  function StopIndex(args: seq<string>): (s: nat)
    ensures s <= OptionCount(args)
    ensures forall j :: 0 <= j < s ==> Continues(args, j)
    ensures s < OptionCount(args) ==> !Continues(args, s)
  {
    StopFrom(args, 0)
  }

  /** No option of `args` ends the loop. */
  predicate EveryOptionContinues(args: seq<string>) {
    forall j :: 0 <= j < OptionCount(args) ==> Continues(args, j)
  }

  /** Which options set a given field of the settings. */
  datatype Filter = AddrValues | PipelineValues | StreamValues | AddressingStreams | UdpStreams

  predicate Selects(f: Filter, a: string, v: string) {
    match f
    case AddrValues => IsAddrFlag(a)
    case PipelineValues => IsPipelineFlag(a)
    case StreamValues => IsStreamFlag(a)
    case AddressingStreams => IsStreamFlag(a) && v != "auto"
    case UdpStreams => IsStreamFlag(a) && v == "udp"
  }

  /** The value of the last of the first k options that `f` selects. */
  function Last(args: seq<string>, k: nat, f: Filter): Option<string>
    requires k <= OptionCount(args)
  {
    if k == 0 then None
    else if Selects(f, Name(args, k - 1), Value(args, k - 1)) then Some(Value(args, k - 1))
    else Last(args, k - 1, f)
  }

  /** `Last` finds nothing exactly when no option is selected by `f`. */
  lemma {:induction false} LastNoneIff(args: seq<string>, k: nat, f: Filter)
    requires k <= OptionCount(args)
    ensures Last(args, k, f).None? <==> forall j :: 0 <= j < k ==> !Selects(f, Name(args, j), Value(args, j))
  {
    if k > 0 {
      LastNoneIff(args, k - 1, f);
    }
  }

  /** The option `Last` takes its value from. */
  lemma {:induction false} LastSource(args: seq<string>, k: nat, f: Filter) returns (j: nat)
    requires k <= OptionCount(args) && Last(args, k, f).Some?
    ensures j < k && Selects(f, Name(args, j), Value(args, j)) && Value(args, j) == Last(args, k, f).value
    ensures forall i :: j < i < k ==> !Selects(f, Name(args, i), Value(args, i))
  {
    if Selects(f, Name(args, k - 1), Value(args, k - 1)) {
      j := k - 1;
    } else {
      j := LastSource(args, k - 1, f);
      assert forall i :: j < i < k - 1 ==> !Selects(f, Name(args, i), Value(args, i));
    }
  }

  /** `Last` finds a value exactly when some option selected by `f` occurs,
      and the value it finds is that of a selected option with no selected
      option after it. */
  lemma LastIsLastSelected(args: seq<string>, k: nat, f: Filter)
    requires k <= OptionCount(args)
    ensures Last(args, k, f).None? <==> forall j :: 0 <= j < k ==> !Selects(f, Name(args, j), Value(args, j))
    ensures Last(args, k, f).Some? ==>
      exists j :: 0 <= j < k && Selects(f, Name(args, j), Value(args, j)) && Value(args, j) == Last(args, k, f).value
        && forall i :: j < i < k ==> !Selects(f, Name(args, i), Value(args, i))
  {
    LastNoneIff(args, k, f);
    if Last(args, k, f).Some? {
      var j := LastSource(args, k, f);
    }
  }

  /** The sink element a protocol selects (`auto` becomes `autovideo`). */
  function SinkName(protocol: string): string {
    if protocol == "auto" then "autovideosink" else protocol + "sink"
  }

  /** The property name under which a sink takes its address. */
  function AddrTypeFor(protocol: string): string {
    if protocol == "rtsp" then "location="
    else if protocol == "udp" then "host="
    else "device="
  }

  /** The settings after the first k options, all of which continued the loop. */
  function LoopState(args: seq<string>, k: nat): (st: Settings)
    requires k <= OptionCount(args)
    ensures st.pre == "" && st.streamOpts == "" && !st.profileGiven
  {
    var stream := Last(args, k, StreamValues);
    var addressing := Last(args, k, AddressingStreams);
    var udp := Last(args, k, UdpStreams).Some?;
    Settings(
      pre := "",
      stream := if stream.Some? then SinkName(stream.value) else "",
      needsAddr := addressing.Some?,
      addrType := if addressing.Some? then AddrTypeFor(addressing.value) else "",
      addr := Last(args, k, AddrValues).GetOr(""),
      portType := if udp then "port=" else "",
      port := if udp then "5000" else "",
      streamOpts := "",
      profileGiven := false,
      customPipeline := Last(args, k, PipelineValues).GetOr(""))
  }

  const StreamerPreamble: string := "video/x-h264,width=3840,height=1920,framerate=30000/1001 ! rtspclientsink"

  /** A profile overwrites some fields and leaves the others as earlier options set them. */
  function ApplyProfile(st: Settings, profile: string): (r: Settings)
    requires IsProfileName(profile)
    ensures r.profileGiven && r.stream != ""
    ensures r.needsAddr == st.needsAddr && r.customPipeline == st.customPipeline
    ensures r.portType == st.portType && r.port == st.port
  {
    if profile == "loopback" then
      st.(pre := "queue", stream := "v4l2sink", addrType := "device=", addr := "/dev/video1",
          streamOpts := "sync=false", profileGiven := true)
    else if profile == "viewer" then
      st.(pre := "queue ! decodebin", stream := "autovideosink", streamOpts := "sync=false",
          profileGiven := true)
    else
      st.(pre := StreamerPreamble, stream := "udpsink", addrType := "location=",
          addr := "rtsp://192.168.43.90:8554/stream", streamOpts := "", profileGiven := true)
  }

  /** The two required-argument checks after the loop. */
  predicate PassesChecks(st: Settings) {
    (st.profileGiven || st.stream != "") && !(st.needsAddr && st.addr == "")
  }

  /** The default blocks after the checks: a missing sink becomes `udpsink`, a
      missing address of a non-display sink becomes host 192.168.43.111 port 5000. */
  function WithDefaults(st: Settings): Settings {
    var s1 := if st.stream == "" then st.(stream := "udpsink") else st;
    if s1.addr == "" && s1.stream != "autovideosink" then
      s1.(addrType := "host=", addr := "192.168.43.111", portType := "port=", port := "5000")
    else s1
  }

  /** The suffix text: a leading space, the preamble, the sink, and each of
      address, port and sink options only when non-empty. */
  function Assemble(st: Settings): string {
    " "
    + (if st.pre != "" then st.pre + " ! " else "")
    + st.stream
    + (if st.addr != "" then " " + st.addrType + st.addr else "")
    + (if st.port != "" then " " + st.portType + st.port else "")
    + (if st.streamOpts != "" then " " + st.streamOpts else "")
  }

  /** Everything `main` does after the loop, up to the suffix. */
  function Finish(st: Settings): (r: Resolution)
    ensures r.Help? == false
    ensures st.customPipeline != "" ==> r == Pipeline(st.customPipeline)
    ensures st.customPipeline == "" ==> (r.Pipeline? <==> PassesChecks(st))
  {
    if st.customPipeline != "" then Pipeline(st.customPipeline)
    else if !st.profileGiven && st.stream == "" then Invalid(MissingRequired)
    else if st.needsAddr && st.addr == "" then Invalid(MissingAddress(st.stream))
    else Pipeline(Assemble(WithDefaults(st)))
  }

  /** The exit taken when option `a` with value `v` ends the program from
      inside the loop (every stopping option except a valid `-p`). */
  function EarlyExit(a: string, v: string): (r: Resolution)
    ensures r.Help? <==> IsHelpFlag(a)
  {
    if IsHelpFlag(a) then Help
    else if IsStreamFlag(a) then Invalid(UnknownProtocol(v))
    else if IsProfileFlag(a) then Invalid(UnknownProfile(v))
    else Invalid(UnknownOption(a))
  }

  /** The loop's result: it either ended the program or left settings for the checks. */
  datatype Scan = Stopped(resolution: Resolution) | Completed(settings: Settings)

  function ScanOptions(args: seq<string>): Scan {
    var s := StopIndex(args);
    var st := LoopState(args, s);
    if s == OptionCount(args) then Completed(st)
    else
      var a := Name(args, s);
      var v := Value(args, s);
      if IsProfileFlag(a) && IsProfileName(v) then Completed(ApplyProfile(st, v))
      else Stopped(EarlyExit(a, v))
  }

  /** The declarative resolution of a command line. */
  function Resolve(args: seq<string>): Resolution {
    match ScanOptions(args)
    case Stopped(r) => r
    case Completed(st) => Finish(st)
  }

  /** Option k either supplies the field's new value or leaves it alone. */
  lemma LastStep(args: seq<string>, k: nat, f: Filter)
    requires k < OptionCount(args)
    ensures !Selects(f, Name(args, k), Value(args, k)) ==> Last(args, k + 1, f) == Last(args, k, f)
    ensures Selects(f, Name(args, k), Value(args, k)) ==> Last(args, k + 1, f) == Some(Value(args, k))
  {
  }

  /** How a continuing `-a` or `-P` changes the settings. */
  lemma ValueOptionStep(args: seq<string>, k: nat)
    requires k < OptionCount(args)
    requires IsAddrFlag(Name(args, k)) || IsPipelineFlag(Name(args, k))
    ensures IsAddrFlag(Name(args, k)) ==> LoopState(args, k + 1) == LoopState(args, k).(addr := Value(args, k))
    ensures IsPipelineFlag(Name(args, k)) ==> LoopState(args, k + 1) == LoopState(args, k).(customPipeline := Value(args, k))
  {
    LastStep(args, k, AddrValues);
    LastStep(args, k, PipelineValues);
    LastStep(args, k, StreamValues);
    LastStep(args, k, AddressingStreams);
    LastStep(args, k, UdpStreams);
  }

  /** How a continuing `-s` changes the settings. */
  lemma StreamOptionStep(args: seq<string>, k: nat)
    requires k < OptionCount(args)
    requires IsStreamFlag(Name(args, k)) && IsProtocol(Value(args, k))
    ensures var v, st := Value(args, k), LoopState(args, k);
      && (v == "auto" ==> LoopState(args, k + 1) == st.(stream := "autovideosink"))
      && (v == "rtsp" ==>
            LoopState(args, k + 1) == st.(needsAddr := true, addrType := "location=", stream := "rtspsink"))
      && (v == "udp" ==>
            LoopState(args, k + 1) == st.(needsAddr := true, addrType := "host=", portType := "port=", port := "5000", stream := "udpsink"))
      && (v == "v4l2" ==>
            LoopState(args, k + 1) == st.(needsAddr := true, addrType := "device=", stream := "v4l2sink"))
  {
    var v := Value(args, k);
    LastStep(args, k, AddrValues);
    LastStep(args, k, PipelineValues);
    LastStep(args, k, StreamValues);
    LastStep(args, k, AddressingStreams);
    LastStep(args, k, UdpStreams);
    assert Last(args, k + 1, StreamValues) == Some(v);
    if v == "auto" {
      assert Last(args, k + 1, AddressingStreams) == Last(args, k, AddressingStreams);
      assert Last(args, k + 1, UdpStreams) == Last(args, k, UdpStreams);
    } else if v == "rtsp" {
      assert SinkName(v) == "rtspsink";
      assert Last(args, k + 1, AddressingStreams) == Some(v);
      assert Last(args, k + 1, UdpStreams) == Last(args, k, UdpStreams);
    } else if v == "udp" {
      assert SinkName(v) == "udpsink";
      assert Last(args, k + 1, AddressingStreams) == Some(v);
      assert Last(args, k + 1, UdpStreams) == Some(v);
    } else {
      assert SinkName(v) == "v4l2sink";
      assert Last(args, k + 1, AddressingStreams) == Some(v);
      assert Last(args, k + 1, UdpStreams) == Last(args, k, UdpStreams);
    }
  }

  /** When option k ends the loop, the resolution is decided by it and the
      settings the earlier options left. */
  lemma StopsAt(args: seq<string>, k: nat)
    requires k <= StopIndex(args)
    requires k < OptionCount(args)
    requires !Continues(args, k)
    ensures StopIndex(args) == k
    ensures var a, v, st := Name(args, k), Value(args, k), LoopState(args, k);
      ScanOptions(args) == if IsProfileFlag(a) && IsProfileName(v) then Completed(ApplyProfile(st, v)) else Stopped(EarlyExit(a, v))
  {
  }

  /** What one pass of the loop body does with option `arg` and its value. */
  datatype Step = Next(settings: Settings) | Exit(resolution: Resolution) | ProfileChosen(settings: Settings)

  /** The body of the option loop of `main`: the if-chain over option names. */
  function ReadOption(st: Settings, arg: string, val: string): Step {
    if IsHelpFlag(arg) then Exit(Help)
    else if IsAddrFlag(arg) then Next(st.(addr := val))
    else if IsStreamFlag(arg) then
      if val == "auto" then Next(st.(stream := (val + "video") + "sink"))
      else if val == "rtsp" then Next(st.(needsAddr := true, addrType := "location=", stream := val + "sink"))
      else if val == "udp" then
        Next(st.(needsAddr := true, addrType := "host=", portType := "port=", port := "5000", stream := val + "sink"))
      else if val == "v4l2" then Next(st.(needsAddr := true, addrType := "device=", stream := val + "sink"))
      else Exit(Invalid(UnknownProtocol(val)))
    else if IsProfileFlag(arg) then
      if IsProfileName(val) then ProfileChosen(ApplyProfile(st, val)) else Exit(Invalid(UnknownProfile(val)))
    else if IsPipelineFlag(arg) then Next(st.(customPipeline := val))
    else Exit(Invalid(UnknownOption(arg)))
  }

  /** The loop body applied to option k agrees with the declarative reading:
      it continues exactly when option k continues, with the settings of the
      first k + 1 options, and otherwise it produces the declared outcome. */
  lemma ReadOptionAgrees(args: seq<string>, k: nat)
    requires k <= StopIndex(args)
    requires k < OptionCount(args)
    ensures match ReadOption(LoopState(args, k), Name(args, k), Value(args, k))
      case Next(st) => Continues(args, k) && st == LoopState(args, k + 1)
      case Exit(r) => StopIndex(args) == k && ScanOptions(args) == Stopped(r)
      case ProfileChosen(st) => StopIndex(args) == k && ScanOptions(args) == Completed(st)
  {
    var a, v, st := Name(args, k), Value(args, k), LoopState(args, k);
    if IsStreamFlag(a) && IsProtocol(v) {
      StreamReadAgrees(args, k);
    } else if IsAddrFlag(a) || IsPipelineFlag(a) {
      ValueOptionStep(args, k);
      assert ReadOption(st, a, v) == Next(LoopState(args, k + 1));
    } else {
      StopsAt(args, k);
      if IsProfileFlag(a) && IsProfileName(v) {
        assert ReadOption(st, a, v) == ProfileChosen(ApplyProfile(st, v));
      } else {
        assert ReadOption(st, a, v) == Exit(EarlyExit(a, v));
      }
    }
  }

  /** The loop body on a `-s` naming a protocol moves to the settings of the
      next option. */
  lemma StreamReadAgrees(args: seq<string>, k: nat)
    requires k < OptionCount(args)
    requires IsStreamFlag(Name(args, k)) && IsProtocol(Value(args, k))
    ensures ReadOption(LoopState(args, k), Name(args, k), Value(args, k)) == Next(LoopState(args, k + 1))
  {
    var v := Value(args, k);
    StreamOptionStep(args, k);
    if v == "auto" {
      assert v + "video" + "sink" == "autovideosink";
    } else if v == "rtsp" {
      assert v + "sink" == "rtspsink";
    } else if v == "udp" {
      assert v + "sink" == "udpsink";
    } else {
      assert v + "sink" == "v4l2sink";
    }
  }

  /** The option loop of `main`, as written: it returns from `main` on `-h`
      and on every invalid option, and leaves the loop after any valid `-p`. */
  method ReadOptions(args: seq<string>) returns (scan: Scan)
    ensures scan == ScanOptions(args)
  {
    var st := Initial;
    var i := 0;
    ghost var k: nat := 0;
    ghost var profileChosen := false;
    while i < |args|
      invariant !profileChosen
      invariant k <= StopIndex(args)
      invariant k < OptionCount(args) ==> i == 2 * k
      invariant k == OptionCount(args) ==> i == |args|
      invariant st == LoopState(args, k)
    {
      var arg := args[i];
      var val := "";
      if i + 1 < |args| {
        i := i + 1;
        val := args[i];
      }
      assert arg == Name(args, k) && val == Value(args, k);
      ReadOptionAgrees(args, k);
      match ReadOption(st, arg, val) {
        case Exit(exit) =>
          return Stopped(exit);
        case ProfileChosen(chosen) =>
          st := chosen;
          profileChosen := true;
          break;
        case Next(next) =>
          st := next;
          Advance(args, k);
      }
      i := i + 1;
      k := k + 1;
    }
    if !profileChosen {
      ScanCompleted(args, k);
    }
    scan := Completed(st);
  }

  /** A continuing option moves the loop to the next option, two entries on,
      or past the end when it was the last. */
  lemma Advance(args: seq<string>, k: nat)
    requires k < OptionCount(args) && k <= StopIndex(args) && Continues(args, k)
    ensures k + 1 <= StopIndex(args)
    ensures var i := if 2 * k + 1 < |args| then 2 * k + 2 else 2 * k + 1;
      && (k + 1 < OptionCount(args) ==> i == 2 * (k + 1))
      && (k + 1 == OptionCount(args) ==> i == |args|)
  {
  }

  /** Running out of options completes the scan with the settings of them all. */
  lemma ScanCompleted(args: seq<string>, k: nat)
    requires k <= StopIndex(args) && k == OptionCount(args)
    ensures ScanOptions(args) == Completed(LoopState(args, k))
  {
  }

  /** `main` from the start of the option loop to the finished suffix. */
  method ParseCommandLine(args: seq<string>) returns (r: Resolution)
    ensures r == Resolve(args)
  {
    var scan := ReadOptions(args);
    match scan {
      case Stopped(exit) =>
        r := exit;
      case Completed(st) =>
        r := Finish(st);
    }
  }
}
