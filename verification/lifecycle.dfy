/**
 The lifecycle of both viewers' `main`, from graph construction to exit, as a
 trace of calls into GStreamer, libuvc and pthreads.

 Each call whose result `main` inspects carries that result in its event; the
 results themselves come from `Outcomes`, so every path through `main` is one
 choice of outcomes. `Replay` gives the trace a meaning over the resources the
 program holds: it fails on a call that uses a resource that is absent or
 already released, which makes "no use after release, no double release" a
 property of a trace, and the resources still held at the end show what the
 program leaves behind when it exits.
 */
module Lifecycle {
  import opened CTypes
  import opened GraphDescription
  import opened BusWatch
  import opened Options
  import opened ProgramName

  /** `UVC_SUCCESS`; every libuvc error code is negative. */
  const UvcSuccess: int := 0

  datatype Event =
    | GstInit
    | NewMainLoop
    | ParseLaunch(description: string, ok: bool)
    | SetClock
    | GetIngress
    | SetCaps(caps: Caps)
    | AddBusWatch
    | UvcInit(res: int)
    | FindDevices(res: int)
    | ReadDescriptor(index: nat, ok: bool)
    | FreeDescriptor(index: nat)
    | FreeDeviceList
    | ResetFrameCount
    | FindDevice(res: int)
    | UvcOpen(res: int)
    | SetPlaying
    | StartKeyWait
    | GetStreamCtrl(res: int)
    | StartStreaming(res: int)
    | MainLoopRun(dispatched: nat)
    | StopStreaming
    | SetNull
    | RemoveBusWatch
    | UnrefLoop
    | CancelKeyWait
    | JoinKeyWait
    | UvcClose
    | UvcExit

  datatype Graph = NoGraph | GraphNull | GraphPlaying
  datatype Thread = NotStarted | Running | Cancelled | Joined

  /** What the process holds: GStreamer initialised, the main loop, the graph
      and its state, the bus watch, the libuvc context, the device list, the
      found device, the open handle, the key-wait thread, whether the stream
      control `ctrl` has been filled in by a successful negotiation, and
      whether frames are being streamed. */
  datatype Held = Held(
    gst: bool,
    loop: bool,
    graph: Graph,
    watch: bool,
    context: bool,
    deviceList: bool,
    device: bool,
    handle: bool,
    keyWait: Thread,
    ctrl: bool,
    streaming: bool)

  const Nothing: Held := Held(false, false, NoGraph, false, false, false, false, false, NotStarted, false, false)

  /** The effect of one call, or None when the call would use a resource that
      is absent or already released. `ctrl` is a plain local of `main`, not a
      resource: starting the stream with it unfilled is recorded, not refused. */
  function Effect(h: Held, e: Event): Option<Held> {
    match e
    case GstInit => if h.gst then None else Some(h.(gst := true))
    case NewMainLoop => if !h.gst || h.loop then None else Some(h.(loop := true))
    case ParseLaunch(_, ok) =>
      if !h.gst || h.graph != NoGraph then None else Some(if ok then h.(graph := GraphNull) else h)
    case SetClock => if h.graph == NoGraph then None else Some(h)
    case GetIngress => if h.graph == NoGraph then None else Some(h)
    case SetCaps(_) => if h.graph == NoGraph then None else Some(h)
    case AddBusWatch => if h.graph == NoGraph || !h.loop || h.watch then None else Some(h.(watch := true))
    case UvcInit(res) => if h.context then None else Some(h.(context := res == UvcSuccess))
    case FindDevices(res) =>
      if !h.context || h.deviceList then None else Some(h.(deviceList := res == UvcSuccess))
    case ReadDescriptor(_, _) => if !h.deviceList then None else Some(h)
    case FreeDescriptor(_) => if !h.deviceList then None else Some(h)
    case FreeDeviceList => if !h.deviceList then None else Some(h.(deviceList := false))
    case ResetFrameCount => Some(h)
    case FindDevice(res) => if !h.context || h.device then None else Some(h.(device := res == UvcSuccess))
    case UvcOpen(res) => if !h.device || h.handle then None else Some(h.(handle := res == UvcSuccess))
    case SetPlaying => if h.graph == NoGraph then None else Some(h.(graph := GraphPlaying))
    case StartKeyWait => if !h.loop || h.keyWait != NotStarted then None else Some(h.(keyWait := Running))
    case GetStreamCtrl(res) => if !h.handle then None else Some(h.(ctrl := res == UvcSuccess))
    case StartStreaming(res) =>
      if !h.handle || h.streaming then None else Some(h.(streaming := res == UvcSuccess))
    case MainLoopRun(_) => if !h.loop then None else Some(h)
    case StopStreaming => if !h.streaming then None else Some(h.(streaming := false))
    case SetNull => if h.graph == NoGraph then None else Some(h.(graph := GraphNull))
    case RemoveBusWatch => if !h.watch then None else Some(h.(watch := false))
    case UnrefLoop => if !h.loop then None else Some(h.(loop := false))
    case CancelKeyWait => if h.keyWait != Running then None else Some(h.(keyWait := Cancelled))
    case JoinKeyWait => if h.keyWait != Cancelled then None else Some(h.(keyWait := Joined))
    case UvcClose => if !h.handle || h.streaming then None else Some(h.(handle := false))
    case UvcExit => if !h.context || h.handle || h.deviceList then None else Some(h.(context := false))
  }

  /** The resources held after the calls of `t`, or None if one of them is unsafe. */
  function Replay(h: Held, t: seq<Event>): Option<Held>
    decreases |t|
  {
    if t == [] then Some(h)
    else match Effect(h, t[0])
      case None => None
      case Some(h') => Replay(h', t[1..])
  }

  /** Replaying from position k is one call followed by the rest. */
  lemma ReplayAt(h: Held, t: seq<Event>, k: nat)
    requires k < |t|
    ensures Replay(h, t[k..]) == if Effect(h, t[k]).Some? then Replay(Effect(h, t[k]).value, t[k + 1..]) else None
  {
    assert t[k..][0] == t[k];
    assert t[k..][1..] == t[k + 1..];
  }

  /** Replaying two traces one after the other. */
  lemma {:induction false} ReplayAppend(h: Held, a: seq<Event>, b: seq<Event>)
    ensures Replay(h, a + b) == if Replay(h, a).Some? then Replay(Replay(h, a).value, b) else None
    decreases |a|
  {
    if a != [] {
      assert (a + b)[0] == a[0];
      assert (a + b)[1..] == a[1..] + b;
      if Effect(h, a[0]).Some? {
        ReplayAppend(Effect(h, a[0]).value, a[1..], b);
      }
    } else {
      assert a + b == b;
    }
  }

  /** The results of every foreign call `main` inspects, and what reaches the
      main loop while frames stream. */
  datatype Outcomes = Outcomes(
    parsed: bool,
    initRes: int,
    listRes: int,
    descriptorsOk: seq<bool>,
    findRes: int,
    openRes: int,
    ctrlRes: int,
    startRes: int,
    inputs: seq<Input>)

  datatype Variant = Cpp | C

  /** How the process ends: with an exit status, or not at all. */
  datatype Status = Exited(code: int) | Hang

  datatype Run = Run(trace: seq<Event>, status: Status)

  /** `gst_src_init`: the calls it makes and whether it reports success. */
  function GraphSetup(suffix: string, parsed: bool): (t: seq<Event>)
    ensures |t| >= 3 && t[..3] == [GstInit, NewMainLoop, ParseLaunch(Describe(suffix), parsed)]
    ensures parsed ==> |t| == 7 && t[3..] == [SetClock, GetIngress, SetCaps(IngressCaps), AddBusWatch]
    ensures !parsed ==> |t| == 3
  {
    [GstInit, NewMainLoop, ParseLaunch(Describe(suffix), parsed)]
    + if parsed then [SetClock, GetIngress, SetCaps(IngressCaps), AddBusWatch] else []
  }

  /** The C `-l` loop from device `i` on. A device whose descriptor cannot be
      read is retried forever, because `continue` skips the increment of
      `idx`; the second component says whether the loop ends. */
  function ListFrom(ok: seq<bool>, i: nat): (r: (seq<Event>, bool))
    decreases |ok| - i
  {
    if i >= |ok| then ([], true)
    else if !ok[i] then ([ReadDescriptor(i, false)], false)
    else
      var rest := ListFrom(ok, i + 1);
      ([ReadDescriptor(i, true), FreeDescriptor(i)] + rest.0, rest.1)
  }

  /** The listing ends exactly when every descriptor from `i` on can be read,
      and it reads descriptors only while the device list is held. */
  lemma {:induction false} ListFromFacts(ok: seq<bool>, i: nat, h: Held)
    requires h.deviceList
    ensures ListFrom(ok, i).1 <==> forall j :: i <= j < |ok| ==> ok[j]
    ensures Replay(h, ListFrom(ok, i).0) == Some(h)
    decreases |ok| - i
  {
    if i < |ok| && ok[i] {
      var rest := ListFrom(ok, i + 1);
      ListFromFacts(ok, i + 1, h);
      ReplayAppend(h, [ReadDescriptor(i, true), FreeDescriptor(i)], rest.0);
    }
  }

  /** `main` after the suffix is known: `listing` is the C viewer's `-l`. */
  function Launch(variant: Variant, suffix: string, listing: bool, c: Outcomes): (r: Run)
    ensures GraphSetup(suffix, c.parsed) <= r.trace
    ensures |r.trace| >= 3 && r.trace[0] == GstInit && r.trace[2] == ParseLaunch(Describe(suffix), c.parsed)
  {
    var setup := GraphSetup(suffix, c.parsed);
    if !c.parsed then Run(setup, Exited(-1))
    else
      var init := setup + [UvcInit(c.initRes)];
      if c.initRes != UvcSuccess then Run(init, Exited(c.initRes))
      else if variant == C && listing then
        var found := init + [FindDevices(c.listRes)];
        if c.listRes != UvcSuccess then Run(found + [UvcExit], Exited(c.listRes))
        else
          var listed := ListFrom(c.descriptorsOk, 0);
          if !listed.1 then Run(found + listed.0, Hang)
          else Run(found + listed.0 + [FreeDeviceList, UvcExit], Exited(0))
      else
        var find := init + [ResetFrameCount, FindDevice(c.findRes)];
        if c.findRes != UvcSuccess then
          if variant == Cpp then Run(find, Exited(c.findRes)) else Run(find + [UvcExit], Exited(c.findRes))
        else
          var open := find + [UvcOpen(c.openRes)];
          if c.openRes != UvcSuccess then Run(open + [UvcExit], Exited(c.openRes))
          else
            var start := open + [SetPlaying, StartKeyWait, GetStreamCtrl(c.ctrlRes), StartStreaming(c.startRes)];
            if c.startRes != UvcSuccess then Run(start + [UvcClose, UvcExit], Exited(c.startRes))
            else
              var quit := FirstQuit(c.inputs);
              if quit == |c.inputs| then Run(start + [MainLoopRun(quit)], Hang)
              else
                Run(start + [MainLoopRun(quit + 1)] + Teardown + [UvcClose, UvcExit], Exited(c.startRes))
  }

  /** What follows the return of the main loop, in source order. */
  const Teardown: seq<Event> := [StopStreaming, SetNull, RemoveBusWatch, UnrefLoop, CancelKeyWait, JoinKeyWait]

  /** The C++ viewer: options first, which may end the program before any
      resource is acquired. */
  function CppMain(argv: seq<string>, c: Outcomes): (r: Run)
    requires |argv| >= 1
    ensures Resolve(argv[1..]).Help? ==> r == Run([], Exited(0))
    ensures Resolve(argv[1..]).Invalid? ==> r == Run([], Exited(1))
    ensures Resolve(argv[1..]).Pipeline? ==> r == Launch(Cpp, Resolve(argv[1..]).suffix, false, c)
  {
    var resolution := Resolve(argv[1..]);
    if resolution.Pipeline? then Launch(Cpp, resolution.suffix, false, c)
    else Run([], Exited(ExitCode(resolution)))
  }

  /** The C viewer: the suffix comes from the program name, and `-l` as the
      first argument lists devices instead of streaming. It has no argument
      errors: whatever the arguments, it starts by initialising GStreamer on
      the graph for its name. */
  function CMain(argv: seq<string>, c: Outcomes): (r: Run)
    requires |argv| >= 1
    ensures |r.trace| >= 3 && r.trace[0] == GstInit
    ensures r.trace[2] == ParseLaunch(Describe(PipelineFor(argv[0])), c.parsed)
  {
    Launch(C, PipelineFor(argv[0]), |argv| > 1 && argv[1] == "-l", c)
  }
}
