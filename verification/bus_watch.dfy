/**
 The bus watch `gst_bus_cb` and the main loop it feeds.

 The main loop dispatches, in arrival order, the graph's bus messages and the
 key-wait thread's quit request; it returns at the first quit request. Only an
 ERROR message makes the bus callback request a quit, and the callback always
 answers TRUE, so it never removes its own watch.
 */
module BusWatch {
  import opened CTypes

  datatype MessageKind = Eos | Warning | Info | StateChanged | StreamStart | Latency | OtherKind

  /** A bus message: an ERROR carries the error's text and optional debug text. */
  datatype Message = ErrorMessage(error: string, debug: Option<string>) | Message(kind: MessageKind)

  /** What one call of the bus callback does. */
  datatype Reaction = Reaction(quit: bool, keepWatch: bool, log: seq<string>)

  function BusCallback(m: Message): (r: Reaction)
    ensures r.quit <==> m.ErrorMessage?
    ensures r.keepWatch
    ensures m.ErrorMessage? ==> r.log == ["Error: " + m.error, "Debug: " + m.debug.GetOr("none")]
    ensures !m.ErrorMessage? ==> r.log == []
  {
    match m
    case ErrorMessage(error, debug) =>
      var debugText := if debug.Some? then debug.value else "none";
      Reaction(true, true, ["Error: " + error, "Debug: " + debugText])
    case Message(_) =>
      Reaction(false, true, [])
  }

  /** End of stream is not an error: the loop keeps running after it. */
  lemma EndOfStreamKeepsRunning()
    ensures !BusCallback(Message(Eos)).quit && BusCallback(Message(Eos)).keepWatch
  {
  }

  /** What reaches the main loop: a bus message, or the key-wait thread's quit
      request after it has read one byte from the terminal. */
  datatype Input = Bus(message: Message) | KeyPressed

  /** Whether dispatching `x` makes `g_main_loop_run` return. */
  predicate Quits(x: Input) {
    match x
    case KeyPressed => true
    case Bus(m) => m.ErrorMessage?
  }

  /** `g_main_loop_run`: dispatch inputs until the first quit request. Returns
      how many inputs were dispatched, whether the loop returned, and what the
      bus callback logged on the way. */
  method RunLoop(inputs: seq<Input>) returns (dispatched: nat, returned: bool, log: seq<string>)
    ensures dispatched <= |inputs|
    ensures returned <==> exists i :: 0 <= i < |inputs| && Quits(inputs[i])
    ensures returned ==> dispatched > 0 && Quits(inputs[dispatched - 1])
    ensures forall i :: 0 <= i < dispatched - (if returned then 1 else 0) ==> !Quits(inputs[i])
    ensures !returned ==> dispatched == |inputs| && log == []
    ensures returned ==> dispatched == FirstQuit(inputs) + 1
    ensures returned && inputs[dispatched - 1].KeyPressed? ==> log == []
    ensures returned && inputs[dispatched - 1].Bus? ==> log == BusCallback(inputs[dispatched - 1].message).log
  {
    dispatched := 0;
    returned := false;
    log := [];
    while dispatched < |inputs| && !returned
      invariant 0 <= dispatched <= |inputs|
      invariant returned ==> dispatched > 0 && Quits(inputs[dispatched - 1])
      invariant forall i :: 0 <= i < dispatched - (if returned then 1 else 0) ==> !Quits(inputs[i])
      invariant !returned ==> log == []
      invariant returned && inputs[dispatched - 1].KeyPressed? ==> log == []
      invariant returned && inputs[dispatched - 1].Bus? ==> log == BusCallback(inputs[dispatched - 1].message).log
    {
      match inputs[dispatched] {
        case KeyPressed =>
          returned := true;
        case Bus(m) =>
          var reaction := BusCallback(m);
          log := log + reaction.log;
          returned := reaction.quit;
      }
      dispatched := dispatched + 1;
    }
  }

  /** Whichever of a bus error and a key press arrives first ends the loop; the
      later one is never dispatched, so the loop returns exactly once. */
  lemma {:induction false} FirstQuitWins(pre: seq<Input>, first: Input, rest: seq<Input>)
    requires forall i :: 0 <= i < |pre| ==> !Quits(pre[i])
    requires Quits(first)
    ensures FirstQuit(pre + [first] + rest) == |pre|
    decreases |pre|
  {
    if pre != [] {
      FirstQuitWins(pre[1..], first, rest);
      assert (pre + [first] + rest)[1..] == pre[1..] + [first] + rest;
    }
  }

  /** Index of the input that makes the loop return, or |inputs| if none does. */
  function FirstQuit(inputs: seq<Input>): (k: nat)
    ensures k <= |inputs|
    ensures k < |inputs| ==> Quits(inputs[k])
    ensures forall i :: 0 <= i < k ==> !Quits(inputs[i])
  {
    if inputs == [] then 0
    else if Quits(inputs[0]) then 0
    else 1 + FirstQuit(inputs[1..])
  }
}
