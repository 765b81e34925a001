/**
 What the lifecycle leaves behind on each path: the trace of every path is
 safe, a completed streaming session releases everything in order, and the
 error paths of the two viewers differ in what they release.
 */
module LifecycleProperties {
  import opened CTypes
  import opened BusWatch
  import opened Lifecycle

  /** The resources held when `main` returns or stops making calls. */
  function Final(r: Run): Option<Held> {
    Replay(Nothing, r.trace)
  }

  /** After `gst_src_init` succeeds: GStreamer, the loop, a stopped graph and the bus watch. */
  const GraphReady: Held := Nothing.(gst := true, loop := true, graph := GraphNull, watch := true)

  lemma SetupReplay(suffix: string, parsed: bool)
    ensures Replay(Nothing, GraphSetup(suffix, parsed))
      == Some(if parsed then GraphReady else Nothing.(gst := true, loop := true))
  {
    var t := GraphSetup(suffix, parsed);
    var h1 := Nothing.(gst := true);
    var h2 := h1.(loop := true);
    assert t[0..] == t;
    ReplayAt(Nothing, t, 0);
    ReplayAt(h1, t, 1);
    ReplayAt(h2, t, 2);
    if parsed {
      var h3 := h2.(graph := GraphNull);
      ReplayAt(h3, t, 3);
      ReplayAt(h3, t, 4);
      ReplayAt(h3, t, 5);
      ReplayAt(h3, t, 6);
      assert t[7..] == [];
    } else {
      assert t[3..] == [];
    }
  }

  /** Replaying `a + b` when `a` is known to end in `ha`. */
  lemma ReplayThen(h: Held, a: seq<Event>, b: seq<Event>, ha: Held)
    requires Replay(h, a) == Some(ha)
    ensures Replay(h, a + b) == Replay(ha, b)
  {
    ReplayAppend(h, a, b);
  }

  lemma ReplayOne(h: Held, e: Event)
    ensures Replay(h, [e]) == Effect(h, e)
  {
    ReplayAt(h, [e], 0);
    assert [e][1..] == [];
  }

  lemma ReplayTwo(h: Held, e1: Event, e2: Event)
    ensures Replay(h, [e1, e2]) == if Effect(h, e1).Some? then Effect(Effect(h, e1).value, e2) else None
  {
    ReplayAt(h, [e1, e2], 0);
    assert [e1, e2][1..] == [e2];
    if Effect(h, e1).Some? {
      ReplayOne(Effect(h, e1).value, e2);
    }
  }

  /** The libuvc context is open. */
  const Initialised: Held := GraphReady.(context := true)

  /** A device has been found and opened. */
  const Opened: Held := Initialised.(device := true, handle := true)

  /** The graph is playing and the key-wait thread runs; `ctrl` was filled in
      when `k`, and frames flow when `ok`. */
  function Started(k: bool, ok: bool): Held {
    Opened.(graph := GraphPlaying, keyWait := Running, ctrl := k, streaming := ok)
  }

  lemma StartReplay(ctrlRes: int, startRes: int)
    ensures Replay(Opened, [SetPlaying, StartKeyWait, GetStreamCtrl(ctrlRes), StartStreaming(startRes)])
      == Some(Started(ctrlRes == UvcSuccess, startRes == UvcSuccess))
  {
    var t := [SetPlaying, StartKeyWait, GetStreamCtrl(ctrlRes), StartStreaming(startRes)];
    var h1 := Opened.(graph := GraphPlaying);
    var h2 := h1.(keyWait := Running);
    var h3 := h2.(ctrl := ctrlRes == UvcSuccess);
    assert t[0..] == t;
    ReplayAt(Opened, t, 0);
    ReplayAt(h1, t, 1);
    ReplayAt(h2, t, 2);
    ReplayAt(h3, t, 3);
    assert t[4..] == [];
  }

  /** After the teardown: streaming stopped, graph back to NULL, watch removed,
      loop released, key-wait thread joined. */
  function TornDown(k: bool): Held {
    Opened.(graph := GraphNull, watch := false, loop := false, keyWait := Joined, ctrl := k, streaming := false)
  }

  /** Stopping the stream and the graph. */
  function Halted(k: bool): Held {
    Started(k, true).(streaming := false, graph := GraphNull)
  }

  /** Releasing the bus watch and the loop as well. */
  function Unwatched(k: bool): Held {
    Halted(k).(watch := false, loop := false)
  }

  lemma HaltReplay(k: bool)
    ensures Replay(Started(k, true), [StopStreaming, SetNull]) == Some(Halted(k))
  {
    ReplayTwo(Started(k, true), StopStreaming, SetNull);
  }

  lemma UnwatchReplay(k: bool)
    ensures Replay(Halted(k), [RemoveBusWatch, UnrefLoop]) == Some(Unwatched(k))
  {
    ReplayTwo(Halted(k), RemoveBusWatch, UnrefLoop);
  }

  lemma JoinReplay(k: bool)
    ensures Replay(Unwatched(k), [CancelKeyWait, JoinKeyWait]) == Some(TornDown(k))
  {
    ReplayTwo(Unwatched(k), CancelKeyWait, JoinKeyWait);
  }

  lemma TeardownReplay(k: bool)
    ensures Replay(Started(k, true), Teardown) == Some(TornDown(k))
  {
    var a, b, d := [StopStreaming, SetNull], [RemoveBusWatch, UnrefLoop], [CancelKeyWait, JoinKeyWait];
    assert Teardown == a + b + d;
    HaltReplay(k);
    UnwatchReplay(k);
    JoinReplay(k);
    ReplayThen(Started(k, true), a, b, Halted(k));
    ReplayThen(Started(k, true), a + b, d, Unwatched(k));
  }

  /** What each path of `main` still holds when it exits or hangs: a reference
      table, one row per path, written independently of the trace. */
  function HeldAtEnd(variant: Variant, listing: bool, c: Outcomes): Held {
    if !c.parsed then Nothing.(gst := true, loop := true)
    else if c.initRes != UvcSuccess then GraphReady
    else if variant == C && listing then
      if c.listRes != UvcSuccess then GraphReady
      else if forall j :: 0 <= j < |c.descriptorsOk| ==> c.descriptorsOk[j] then GraphReady
      else Initialised.(deviceList := true)
    else if c.findRes != UvcSuccess then
      if variant == Cpp then Initialised else GraphReady
    else if c.openRes != UvcSuccess then GraphReady.(device := true)
    else if c.startRes != UvcSuccess then Started(c.ctrlRes == UvcSuccess, false).(handle := false, context := false)
    else if FirstQuit(c.inputs) == |c.inputs| then Started(c.ctrlRes == UvcSuccess, true)
    else TornDown(c.ctrlRes == UvcSuccess).(handle := false, context := false)
  }

  /** Every path of `main` is safe (no call uses an absent or released
      resource) and ends holding exactly what the reference table says. */
  lemma LaunchHolds(variant: Variant, suffix: string, listing: bool, c: Outcomes)
    ensures Final(Launch(variant, suffix, listing, c)) == Some(HeldAtEnd(variant, listing, c))
  {
    SetupReplay(suffix, c.parsed);
    if c.parsed {
      InitReplay(GraphSetup(suffix, c.parsed), c.initRes);
      if c.initRes == UvcSuccess {
        InitialisedHolds(variant, suffix, listing, c);
      }
    }
  }

  /** Opening the libuvc context after the graph setup. */
  lemma InitReplay(setup: seq<Event>, initRes: int)
    requires Replay(Nothing, setup) == Some(GraphReady)
    ensures Replay(Nothing, setup + [UvcInit(initRes)]) == Some(GraphReady.(context := initRes == UvcSuccess))
  {
    ReplayThen(Nothing, setup, [UvcInit(initRes)], GraphReady);
    ReplayOne(GraphReady, UvcInit(initRes));
  }

  /** The paths of `main` that get past `uvc_init`. */
  lemma InitialisedHolds(variant: Variant, suffix: string, listing: bool, c: Outcomes)
    requires c.parsed && c.initRes == UvcSuccess
    ensures Final(Launch(variant, suffix, listing, c)) == Some(HeldAtEnd(variant, listing, c))
  {
    var init := GraphSetup(suffix, c.parsed) + [UvcInit(c.initRes)];
    assert Replay(Nothing, init) == Some(Initialised) by {
      SetupReplay(suffix, c.parsed);
      InitReplay(GraphSetup(suffix, c.parsed), c.initRes);
    }
    if variant == C && listing {
      ListingHolds(init, c);
    } else {
      FindHolds(init, c);
      if c.findRes == UvcSuccess {
        FoundDeviceHolds(init + [ResetFrameCount, FindDevice(c.findRes)], c);
      }
    }
  }

  /** Everything after a successful device search, as `Launch` lays it out. */
  lemma FoundDeviceHolds(find: seq<Event>, c: Outcomes)
    requires Replay(Nothing, find) == Some(Initialised.(device := true))
    ensures var open := find + [UvcOpen(c.openRes)];
      var start := open + [SetPlaying, StartKeyWait, GetStreamCtrl(c.ctrlRes), StartStreaming(c.startRes)];
      var quit := FirstQuit(c.inputs);
      var k := c.ctrlRes == UvcSuccess;
      && (c.openRes != UvcSuccess ==> Replay(Nothing, open + [UvcExit]) == Some(GraphReady.(device := true)))
      && (c.openRes == UvcSuccess && c.startRes != UvcSuccess ==>
            Replay(Nothing, start + [UvcClose, UvcExit]) == Some(Started(k, false).(handle := false, context := false)))
      && (c.openRes == UvcSuccess && c.startRes == UvcSuccess && quit == |c.inputs| ==>
            Replay(Nothing, start + [MainLoopRun(quit)]) == Some(Started(k, true)))
      && (c.openRes == UvcSuccess && c.startRes == UvcSuccess && quit < |c.inputs| ==>
            Replay(Nothing, start + [MainLoopRun(quit + 1)] + Teardown + [UvcClose, UvcExit])
              == Some(TornDown(k).(handle := false, context := false)))
  {
    OpenHolds(find, c);
    var open := find + [UvcOpen(c.openRes)];
    var start := open + [SetPlaying, StartKeyWait, GetStreamCtrl(c.ctrlRes), StartStreaming(c.startRes)];
    if c.openRes == UvcSuccess && c.startRes == UvcSuccess {
      RunHolds(start, c);
    }
  }

  /** The `-l` paths, from an open context on. */
  lemma ListingHolds(init: seq<Event>, c: Outcomes)
    requires Replay(Nothing, init) == Some(Initialised)
    ensures var found := init + [FindDevices(c.listRes)];
      var listed := ListFrom(c.descriptorsOk, 0);
      && (c.listRes != UvcSuccess ==> Replay(Nothing, found + [UvcExit]) == Some(GraphReady))
      && (c.listRes == UvcSuccess && !listed.1 ==> Replay(Nothing, found + listed.0) == Some(Initialised.(deviceList := true)))
      && (c.listRes == UvcSuccess && listed.1 ==>
            Replay(Nothing, found + listed.0 + [FreeDeviceList, UvcExit]) == Some(GraphReady))
      && (listed.1 <==> forall j :: 0 <= j < |c.descriptorsOk| ==> c.descriptorsOk[j])
  {
    var found := init + [FindDevices(c.listRes)];
    FoundReplay(init, c.listRes);
    ListFromFacts(c.descriptorsOk, 0, Initialised.(deviceList := true));
    if c.listRes != UvcSuccess {
      ContextExitReplay(found);
    } else {
      ListedReplay(found, c.descriptorsOk);
    }
  }

  /** Asking for the device list, from an open context on. */
  lemma FoundReplay(init: seq<Event>, listRes: int)
    requires Replay(Nothing, init) == Some(Initialised)
    ensures Replay(Nothing, init + [FindDevices(listRes)]) == Some(Initialised.(deviceList := listRes == UvcSuccess))
  {
    ReplayThen(Nothing, init, [FindDevices(listRes)], Initialised);
    ReplayOne(Initialised, FindDevices(listRes));
  }

  /** With nothing but the context acquired since the graph setup, closing
      the context leaves only the setup. */
  lemma ContextExitReplay(found: seq<Event>)
    requires Replay(Nothing, found) == Some(Initialised)
    ensures Replay(Nothing, found + [UvcExit]) == Some(GraphReady)
  {
    ReplayThen(Nothing, found, [UvcExit], Initialised);
    ReplayOne(Initialised, UvcExit);
  }

  /** Listing keeps the device list; freeing it and the context afterwards
      leaves only the graph setup. */
  lemma ListedReplay(found: seq<Event>, ok: seq<bool>)
    requires Replay(Nothing, found) == Some(Initialised.(deviceList := true))
    ensures var listed := ListFrom(ok, 0);
      && Replay(Nothing, found + listed.0) == Some(Initialised.(deviceList := true))
      && Replay(Nothing, found + listed.0 + [FreeDeviceList, UvcExit]) == Some(GraphReady)
  {
    var h := Initialised.(deviceList := true);
    var listed := ListFrom(ok, 0);
    ListFromFacts(ok, 0, h);
    ReplayThen(Nothing, found, listed.0, h);
    ReplayThen(Nothing, found + listed.0, [FreeDeviceList, UvcExit], h);
    ReplayTwo(h, FreeDeviceList, UvcExit);
  }

  /** Looking for the device, from an open context on. */
  lemma FindHolds(init: seq<Event>, c: Outcomes)
    requires Replay(Nothing, init) == Some(Initialised)
    ensures var find := init + [ResetFrameCount, FindDevice(c.findRes)];
      && Replay(Nothing, find) == Some(Initialised.(device := c.findRes == UvcSuccess))
      && (c.findRes != UvcSuccess ==> Replay(Nothing, find + [UvcExit]) == Some(GraphReady))
  {
    var find := init + [ResetFrameCount, FindDevice(c.findRes)];
    assert Replay(Nothing, find) == Some(Initialised.(device := c.findRes == UvcSuccess)) by {
      ReplayThen(Nothing, init, [ResetFrameCount, FindDevice(c.findRes)], Initialised);
      ReplayTwo(Initialised, ResetFrameCount, FindDevice(c.findRes));
    }
    if c.findRes != UvcSuccess {
      ContextExitReplay(find);
    }
  }

  /** Opening the device and starting the stream, from a found device on. */
  lemma OpenHolds(find: seq<Event>, c: Outcomes)
    requires Replay(Nothing, find) == Some(Initialised.(device := true))
    ensures var open := find + [UvcOpen(c.openRes)];
      var start := open + [SetPlaying, StartKeyWait, GetStreamCtrl(c.ctrlRes), StartStreaming(c.startRes)];
      && (c.openRes != UvcSuccess ==> Replay(Nothing, open + [UvcExit]) == Some(GraphReady.(device := true)))
      && (c.openRes == UvcSuccess ==> Replay(Nothing, start) == Some(Started(c.ctrlRes == UvcSuccess, c.startRes == UvcSuccess)))
      && (c.openRes == UvcSuccess && c.startRes != UvcSuccess ==>
            Replay(Nothing, start + [UvcClose, UvcExit])
              == Some(Started(c.ctrlRes == UvcSuccess, false).(handle := false, context := false)))
  {
    var open := find + [UvcOpen(c.openRes)];
    OpenReplay(find, c.openRes);
    if c.openRes != UvcSuccess {
      OpenFailReplay(open);
    } else {
      StartedReplay(open, c);
    }
  }

  /** Opening the found device. */
  lemma OpenReplay(find: seq<Event>, openRes: int)
    requires Replay(Nothing, find) == Some(Initialised.(device := true))
    ensures Replay(Nothing, find + [UvcOpen(openRes)]) == Some(Initialised.(device := true, handle := openRes == UvcSuccess))
  {
    ReplayThen(Nothing, find, [UvcOpen(openRes)], Initialised.(device := true));
    ReplayOne(Initialised.(device := true), UvcOpen(openRes));
  }

  /** A device that cannot be opened: the context is closed, the device kept. */
  lemma OpenFailReplay(open: seq<Event>)
    requires Replay(Nothing, open) == Some(Initialised.(device := true))
    ensures Replay(Nothing, open + [UvcExit]) == Some(GraphReady.(device := true))
  {
    ReplayThen(Nothing, open, [UvcExit], Initialised.(device := true));
    ReplayOne(Initialised.(device := true), UvcExit);
  }

  /** Starting the stream on an open device, and closing it when that fails. */
  lemma StartedReplay(open: seq<Event>, c: Outcomes)
    requires Replay(Nothing, open) == Some(Opened)
    ensures var start := open + [SetPlaying, StartKeyWait, GetStreamCtrl(c.ctrlRes), StartStreaming(c.startRes)];
      && Replay(Nothing, start) == Some(Started(c.ctrlRes == UvcSuccess, c.startRes == UvcSuccess))
      && (c.startRes != UvcSuccess ==>
            Replay(Nothing, start + [UvcClose, UvcExit])
              == Some(Started(c.ctrlRes == UvcSuccess, false).(handle := false, context := false)))
  {
    var seg := [SetPlaying, StartKeyWait, GetStreamCtrl(c.ctrlRes), StartStreaming(c.startRes)];
    assert Replay(Nothing, open + seg) == Some(Started(c.ctrlRes == UvcSuccess, c.startRes == UvcSuccess)) by {
      ReplayThen(Nothing, open, seg, Opened);
      StartReplay(c.ctrlRes, c.startRes);
    }
    if c.startRes != UvcSuccess {
      CloseUnstartedReplay(open + seg, c.ctrlRes == UvcSuccess);
    }
  }

  /** Closing the device and the context when the stream did not start. */
  lemma CloseUnstartedReplay(start: seq<Event>, k: bool)
    requires Replay(Nothing, start) == Some(Started(k, false))
    ensures Replay(Nothing, start + [UvcClose, UvcExit]) == Some(Started(k, false).(handle := false, context := false))
  {
    ReplayThen(Nothing, start, [UvcClose, UvcExit], Started(k, false));
    ReplayTwo(Started(k, false), UvcClose, UvcExit);
  }

  /** The main loop keeps everything as it is while it runs. */
  lemma LoopReplay(start: seq<Event>, n: nat, k: bool)
    requires Replay(Nothing, start) == Some(Started(k, true))
    ensures Replay(Nothing, start + [MainLoopRun(n)]) == Some(Started(k, true))
  {
    ReplayThen(Nothing, start, [MainLoopRun(n)], Started(k, true));
    ReplayOne(Started(k, true), MainLoopRun(n));
  }

  /** Closing the device and the context after the teardown. */
  lemma CloseReplay(k: bool)
    ensures Replay(TornDown(k), [UvcClose, UvcExit]) == Some(TornDown(k).(handle := false, context := false))
  {
    ReplayTwo(TornDown(k), UvcClose, UvcExit);
  }

  /** The main loop and everything after it, from a running stream on. */
  lemma RunHolds(start: seq<Event>, c: Outcomes)
    requires Replay(Nothing, start) == Some(Started(c.ctrlRes == UvcSuccess, true))
    ensures var quit, k := FirstQuit(c.inputs), c.ctrlRes == UvcSuccess;
      && (quit == |c.inputs| ==> Replay(Nothing, start + [MainLoopRun(quit)]) == Some(Started(k, true)))
      && (quit < |c.inputs| ==>
            Replay(Nothing, start + [MainLoopRun(quit + 1)] + Teardown + [UvcClose, UvcExit])
              == Some(TornDown(k).(handle := false, context := false)))
  {
    var quit, k := FirstQuit(c.inputs), c.ctrlRes == UvcSuccess;
    LoopReplay(start, quit, k);
    LoopReplay(start, quit + 1, k);
    var ran := start + [MainLoopRun(quit + 1)];
    ReplayThen(Nothing, ran, Teardown, Started(k, true));
    TeardownReplay(k);
    ReplayThen(Nothing, ran + Teardown, [UvcClose, UvcExit], TornDown(k));
    CloseReplay(k);
  }

  /** No path of either viewer uses a resource it does not hold or releases
      one twice. */
  lemma LaunchSafe(variant: Variant, suffix: string, listing: bool, c: Outcomes)
    ensures Final(Launch(variant, suffix, listing, c)).Some?
  {
    LaunchHolds(variant, suffix, listing, c);
  }

  /** A stream that starts and is stopped by a key press or a bus error ends
      with exit status 0 and the teardown in source order; the stream, the
      device handle, the context, the bus watch, the loop and the key-wait
      thread are released, while GStreamer, the stopped graph and the found
      device are still held. */
  lemma CompletedSessionReleasesAll(variant: Variant, suffix: string, listing: bool, c: Outcomes)
    requires c.parsed && c.initRes == UvcSuccess && c.findRes == UvcSuccess && c.openRes == UvcSuccess
    requires c.startRes == UvcSuccess
    requires !(variant == C && listing)
    requires exists i :: 0 <= i < |c.inputs| && Quits(c.inputs[i])
    ensures var r := Launch(variant, suffix, listing, c);
      && r.status == Exited(0)
      && |r.trace| >= 9
      && r.trace[|r.trace| - 9..] == [MainLoopRun(FirstQuit(c.inputs) + 1)] + Teardown + [UvcClose, UvcExit]
      && Final(r).Some?
      && var h := Final(r).value;
        !h.streaming && !h.handle && !h.context && !h.watch && !h.loop && h.keyWait == Joined && h.graph == GraphNull
        && h.gst && h.device
  {
    LaunchHolds(variant, suffix, listing, c);
    var i :| 0 <= i < |c.inputs| && Quits(c.inputs[i]);
    assert FirstQuit(c.inputs) < |c.inputs|;
  }

  /** Without a key press or a bus error the main loop never returns. */
  lemma NoQuitHangs(variant: Variant, suffix: string, listing: bool, c: Outcomes)
    requires c.parsed && c.initRes == UvcSuccess && c.findRes == UvcSuccess && c.openRes == UvcSuccess
    requires c.startRes == UvcSuccess
    requires !(variant == C && listing)
    requires forall i :: 0 <= i < |c.inputs| ==> !Quits(c.inputs[i])
    ensures Launch(variant, suffix, listing, c).status == Hang
  {
  }

  /** When the device is not found, the C++ viewer returns with the libuvc
      context still open, while the C viewer closes it first. */
  lemma FindFailureContext(suffix: string, c: Outcomes)
    requires c.parsed && c.initRes == UvcSuccess && c.findRes != UvcSuccess
    ensures Launch(Cpp, suffix, false, c).status == Exited(c.findRes)
    ensures Launch(C, suffix, false, c).status == Exited(c.findRes)
    ensures Final(Launch(Cpp, suffix, false, c)).Some? && Final(Launch(C, suffix, false, c)).Some?
    ensures Final(Launch(Cpp, suffix, false, c)).value.context
    ensures !Final(Launch(C, suffix, false, c)).value.context
    ensures Launch(C, suffix, false, c).trace == Launch(Cpp, suffix, false, c).trace + [UvcExit]
  {
    LaunchHolds(Cpp, suffix, false, c);
    LaunchHolds(C, suffix, false, c);
  }

  /** Neither viewer checks whether the stream negotiation succeeded: the
      stream is started right after it, with the device open, and `ctrl` is
      filled in at that point exactly when the negotiation succeeded. */
  lemma StreamStartIgnoresCtrl(variant: Variant, suffix: string, listing: bool, c: Outcomes)
    requires c.parsed && c.initRes == UvcSuccess && c.findRes == UvcSuccess && c.openRes == UvcSuccess
    requires !(variant == C && listing)
    ensures var r := Launch(variant, suffix, listing, c);
      && |r.trace| > 14
      && r.trace[13] == GetStreamCtrl(c.ctrlRes) && r.trace[14] == StartStreaming(c.startRes)
      && Replay(Nothing, r.trace[..14]).Some?
      && Replay(Nothing, r.trace[..14]).value.handle
      && (Replay(Nothing, r.trace[..14]).value.ctrl <==> c.ctrlRes == UvcSuccess)
  {
    var pre := StartPrefix(variant, suffix, listing, c);
  }

  /** Playing the graph, starting the key-wait thread and negotiating the
      stream, from an open device on. */
  lemma NegotiateReplay(ctrlRes: int)
    ensures Replay(Opened, [SetPlaying, StartKeyWait, GetStreamCtrl(ctrlRes)])
      == Some(Started(ctrlRes == UvcSuccess, false))
  {
    var t := [SetPlaying, StartKeyWait, GetStreamCtrl(ctrlRes)];
    var h1 := Opened.(graph := GraphPlaying);
    assert t[1..] == [StartKeyWait, GetStreamCtrl(ctrlRes)];
    ReplayAt(Opened, t, 0);
    ReplayTwo(h1, StartKeyWait, GetStreamCtrl(ctrlRes));
  }

  /** The calls up to the stream negotiation: 14 of them, ending with the
      device open, the graph playing, the key-wait thread running and `ctrl`
      filled in exactly when the negotiation succeeded. */
  lemma StartPrefix(variant: Variant, suffix: string, listing: bool, c: Outcomes) returns (pre: seq<Event>)
    requires c.parsed && c.initRes == UvcSuccess && c.findRes == UvcSuccess && c.openRes == UvcSuccess
    requires !(variant == C && listing)
    ensures var r := Launch(variant, suffix, listing, c);
      && |pre| == 14 && |r.trace| > 14 && r.trace[..14] == pre
      && pre[13] == GetStreamCtrl(c.ctrlRes) && r.trace[14] == StartStreaming(c.startRes)
      && Replay(Nothing, pre) == Some(Started(c.ctrlRes == UvcSuccess, false))
  {
    var setup := GraphSetup(suffix, c.parsed);
    var init := setup + [UvcInit(c.initRes)];
    var find := init + [ResetFrameCount, FindDevice(c.findRes)];
    var open := find + [UvcOpen(c.openRes)];
    pre := open + [SetPlaying, StartKeyWait, GetStreamCtrl(c.ctrlRes)];
    StartTrace(variant, suffix, listing, c, open);
    assert Replay(Nothing, open) == Some(Opened) by {
      SetupReplay(suffix, c.parsed);
      ReplayThen(Nothing, setup, [UvcInit(c.initRes)], GraphReady);
      ReplayOne(GraphReady, UvcInit(c.initRes));
      FindHolds(init, c);
      OpenReplay(find, c.openRes);
    }
    ReplayThen(Nothing, open, [SetPlaying, StartKeyWait, GetStreamCtrl(c.ctrlRes)], Opened);
    NegotiateReplay(c.ctrlRes);
  }

  /** Where the negotiation and the stream start stand in the trace. */
  lemma StartTrace(variant: Variant, suffix: string, listing: bool, c: Outcomes, open: seq<Event>)
    requires c.parsed && c.initRes == UvcSuccess && c.findRes == UvcSuccess && c.openRes == UvcSuccess
    requires !(variant == C && listing)
    requires open == GraphSetup(suffix, c.parsed) + [UvcInit(c.initRes)] + [ResetFrameCount, FindDevice(c.findRes)]
      + [UvcOpen(c.openRes)]
    ensures var r := Launch(variant, suffix, listing, c);
      && |open| == 11 && |r.trace| > 14
      && r.trace[..14] == open + [SetPlaying, StartKeyWait, GetStreamCtrl(c.ctrlRes)]
      && r.trace[14] == StartStreaming(c.startRes)
  {
    var r := Launch(variant, suffix, listing, c);
    var start := open + [SetPlaying, StartKeyWait, GetStreamCtrl(c.ctrlRes), StartStreaming(c.startRes)];
    assert start <= r.trace;
    assert start[..14] == open + [SetPlaying, StartKeyWait, GetStreamCtrl(c.ctrlRes)];
  }

  /** The viewers differ only there: on every other outcome they make the
      same calls and exit the same way. */
  lemma VariantsAgreeOtherwise(suffix: string, c: Outcomes)
    requires !(c.parsed && c.initRes == UvcSuccess && c.findRes != UvcSuccess)
    ensures Launch(Cpp, suffix, false, c) == Launch(C, suffix, false, c)
  {
  }

  /** When streaming cannot start, both viewers close the device and the
      context but leave the graph PLAYING, the bus watch and the main loop in
      place, and the key-wait thread running; the main loop never runs. */
  lemma StartFailureLeavesPlaying(variant: Variant, suffix: string, c: Outcomes)
    requires c.parsed && c.initRes == UvcSuccess && c.findRes == UvcSuccess && c.openRes == UvcSuccess
    requires c.startRes != UvcSuccess
    ensures var r := Launch(variant, suffix, false, c);
      && r.status == Exited(c.startRes)
      && (forall n :: MainLoopRun(n) !in r.trace)
      && StopStreaming !in r.trace && CancelKeyWait !in r.trace
      && Final(r).Some?
      && var h := Final(r).value;
        h.graph == GraphPlaying && h.watch && h.loop && h.keyWait == Running && !h.handle && !h.context
  {
    var r := Launch(variant, suffix, false, c);
    assert Final(r) == Some(Started(c.ctrlRes == UvcSuccess, false).(handle := false, context := false)) by {
      LaunchHolds(variant, suffix, false, c);
    }
    StartFailureTrace(variant, suffix, c);
  }

  /** A call that neither runs the main loop nor takes part in teardown's
      stopping of the stream and the key wait. */
  predicate Quiet(e: Event) {
    !e.MainLoopRun? && e != StopStreaming && e != CancelKeyWait
  }

  lemma QuietSetup(suffix: string)
    ensures forall e :: e in GraphSetup(suffix, true) ==> Quiet(e)
  {
    var setup := GraphSetup(suffix, true);
    assert setup == [GstInit, NewMainLoop, setup[2], SetClock, GetIngress, setup[5], AddBusWatch];
  }

  lemma QuietStartFailure(c: Outcomes)
    ensures forall e :: e in StartFailureCalls(c) ==> Quiet(e)
  {
  }

  /** What follows graph setup when streaming cannot start. */
  function StartFailureCalls(c: Outcomes): seq<Event> {
    [UvcInit(c.initRes), ResetFrameCount, FindDevice(c.findRes), UvcOpen(c.openRes),
     SetPlaying, StartKeyWait, GetStreamCtrl(c.ctrlRes), StartStreaming(c.startRes), UvcClose, UvcExit]
  }

  /** The calls made when streaming cannot start: none of them runs the loop,
      stops streaming or cancels the key wait. */
  lemma StartFailureTrace(variant: Variant, suffix: string, c: Outcomes)
    requires c.parsed && c.initRes == UvcSuccess && c.findRes == UvcSuccess && c.openRes == UvcSuccess
    requires c.startRes != UvcSuccess
    ensures var r := Launch(variant, suffix, false, c);
      && r.status == Exited(c.startRes)
      && forall e :: e in r.trace ==> Quiet(e)
  {
    var r := Launch(variant, suffix, false, c);
    var setup, tail := GraphSetup(suffix, true), StartFailureCalls(c);
    assert r.trace == setup + tail;
    QuietSetup(suffix);
    QuietStartFailure(c);
    forall e | e in r.trace
      ensures Quiet(e)
    {
      assert e in setup || e in tail;
    }
  }

  /** The result of the stream-control negotiation is overwritten unread: it
      never changes the exit status. */
  lemma ExitStatusIgnoresStreamCtrl(variant: Variant, suffix: string, listing: bool, c: Outcomes, ctrlRes: int)
    ensures Launch(variant, suffix, listing, c).status == Launch(variant, suffix, listing, c.(ctrlRes := ctrlRes)).status
  {
  }

  /** Outside the device listing, exit status 0 means every step succeeded
      and the session was ended by a key press or a bus error. */
  lemma ExitZeroIff(variant: Variant, suffix: string, c: Outcomes)
    ensures Launch(variant, suffix, false, c).status == Exited(0) <==>
      c.parsed && c.initRes == UvcSuccess && c.findRes == UvcSuccess && c.openRes == UvcSuccess
      && c.startRes == UvcSuccess && exists i :: 0 <= i < |c.inputs| && Quits(c.inputs[i])
  {
    if c.parsed && c.initRes == UvcSuccess && c.findRes == UvcSuccess && c.openRes == UvcSuccess
      && c.startRes == UvcSuccess && exists i :: 0 <= i < |c.inputs| && Quits(c.inputs[i]) {
      var i :| 0 <= i < |c.inputs| && Quits(c.inputs[i]);
      assert FirstQuit(c.inputs) < |c.inputs|;
    }
  }

  /** Exit status -1 does not tell a graph that failed to build from a libuvc
      initialisation that failed with UVC_ERROR_IO (-1). */
  lemma MinusOneAmbiguous(variant: Variant, suffix: string, c: Outcomes)
    ensures Launch(variant, suffix, false, c.(parsed := false)).status == Exited(-1)
    ensures Launch(variant, suffix, false, c.(parsed := true, initRes := -1)).status == Exited(-1)
    ensures Final(Launch(variant, suffix, false, c.(parsed := false))).Some?
    ensures Final(Launch(variant, suffix, false, c.(parsed := true, initRes := -1))).Some?
    ensures Final(Launch(variant, suffix, false, c.(parsed := false))).value.graph == NoGraph
    ensures Final(Launch(variant, suffix, false, c.(parsed := true, initRes := -1))).value.graph == GraphNull
  {
    LaunchHolds(variant, suffix, false, c.(parsed := false));
    LaunchHolds(variant, suffix, false, c.(parsed := true, initRes := -1));
  }

  /** The C viewer's `-l` exits 0 exactly when every descriptor can be read,
      having released the device list and the context; otherwise it spins on
      the first unreadable one, holding both. */
  lemma ListingIff(suffix: string, c: Outcomes)
    requires c.parsed && c.initRes == UvcSuccess && c.listRes == UvcSuccess
    ensures var r := Launch(C, suffix, true, c);
      && Final(r).Some?
      && (r.status == Exited(0) <==> forall j :: 0 <= j < |c.descriptorsOk| ==> c.descriptorsOk[j])
      && (r.status != Exited(0) ==> r.status == Hang && Final(r).value.deviceList && Final(r).value.context)
      && (r.status == Exited(0) ==> !Final(r).value.deviceList && !Final(r).value.context)
  {
    LaunchHolds(C, suffix, true, c);
    ListFromFacts(c.descriptorsOk, 0, Initialised.(deviceList := true));
  }
}
