/**
 The frame bridge: the capture callback `cb` seen as a transition on the
 streaming context, and the driver's serialized delivery of many frames.

 The context keeps the frame interval read once from the stream control, the
 32-bit frame counter (`guint framecount`), the buffers handed to the ingress
 element so far, and the lines written to standard error.
 */
module FrameBridge {
  import opened CTypes
  import opened Sample

  /** The result of the ingress element's "push-buffer" signal. */
  datatype FlowReturn = FlowOk | NotLinked | Flushing | Eos | NotNegotiated | FlowError | NotSupported

  /** The diagnostic `cb` writes when a push is refused (the format string lacks
      its backslash, so the text ends in a literal `n` and no newline). */
  const PushErrorLine: string := "pushbuffer errorn"

  datatype Bridge = Bridge(interval: uint32, framecount: uint32, pushed: seq<Buffer>, log: seq<string>)

  /** `framecount` is reset to 0 before the device is searched for. */
  function Start(interval: uint32): (b: Bridge)
    ensures b.framecount == 0 && b.pushed == [] && b.log == []
    ensures b.interval == interval
  {
    Bridge(interval, 0, [], [])
  }

  /** One invocation of `cb`: build the buffer, count the frame, push exactly
      once, and only log a refused push. */
  function OnFrame(b: Bridge, f: Frame, ret: FlowReturn): (r: Bridge)
    requires ValidFrame(f)
    ensures r.interval == b.interval
    ensures r.pushed == b.pushed + [BuildSample(f, b.interval)]
    ensures r.pushed[|b.pushed|].payload == f.data[..f.dataBytes]
    ensures r.framecount == (b.framecount + 1) % Two32
    ensures ret == FlowOk ==> r.log == b.log
    ensures ret != FlowOk ==> r.log == b.log + [PushErrorLine]
  {
    var buffer := BuildSample(f, b.interval);
    var counted := b.(framecount := Wrap32(b.framecount + 1));
    var pushed := counted.(pushed := counted.pushed + [buffer]);
    if ret != FlowOk then pushed.(log := pushed.log + [PushErrorLine]) else pushed
  }

  /** A refused push changes nothing but the log: the same buffer was pushed,
      the counter still advanced, and no second push was attempted. */
  lemma RefusalOnlyLogs(b: Bridge, f: Frame, ret: FlowReturn)
    requires ValidFrame(f)
    requires ret != FlowOk
    ensures OnFrame(b, f, ret).(log := b.log) == OnFrame(b, f, FlowOk)
    ensures |OnFrame(b, f, ret).pushed| == |OnFrame(b, f, FlowOk).pushed| == |b.pushed| + 1
  {
  }

  /** The buffers the ingress should receive for `frames`, in arrival order. */
  function Expected(frames: seq<Frame>, interval: uint32): (bs: seq<Buffer>)
    requires forall i :: 0 <= i < |frames| ==> ValidFrame(frames[i])
    ensures |bs| == |frames|
    ensures forall i :: 0 <= i < |frames| ==> bs[i] == BuildSample(frames[i], interval)
  {
    seq(|frames|, i requires 0 <= i < |frames| => BuildSample(frames[i], interval))
  }

  /** Number of refused pushes among `rets`. */
  function Refused(rets: seq<FlowReturn>): nat {
    if rets == [] then 0 else Refused(rets[..|rets| - 1]) + (if rets[|rets| - 1] != FlowOk then 1 else 0)
  }

  /** The driver delivers `frames` one at a time; `rets[i]` is what the ingress
      answers to the i-th push. Every frame is pushed exactly once, in arrival
      order, no push is retried, and the counter advances once per frame. */
  method Deliver(b: Bridge, frames: seq<Frame>, rets: seq<FlowReturn>) returns (r: Bridge)
    requires |rets| == |frames|
    requires forall i :: 0 <= i < |frames| ==> ValidFrame(frames[i])
    ensures r.interval == b.interval
    ensures r.pushed == b.pushed + Expected(frames, b.interval)
    ensures r.framecount == (b.framecount + |frames|) % Two32
    ensures |r.log| == |b.log| + Refused(rets)
    ensures r.log[..|b.log|] == b.log
    ensures forall i :: |b.log| <= i < |r.log| ==> r.log[i] == PushErrorLine
  {
    r := b;
    var k := 0;
    while k < |frames|
      invariant 0 <= k <= |frames|
      invariant r.interval == b.interval
      invariant r.pushed == b.pushed + Expected(frames[..k], b.interval)
      invariant r.framecount == (b.framecount + k) % Two32
      invariant |r.log| == |b.log| + Refused(rets[..k])
      invariant PushErrorsAfter(b.log, r.log)
    {
      var before := r.log;
      r := OnFrame(r, frames[k], rets[k]);
      PushErrorStep(b.log, before, r.log);
      assert rets[..k + 1][..k] == rets[..k];
      assert frames[..k + 1][..k] == frames[..k];
      assert Expected(frames[..k + 1], b.interval) == Expected(frames[..k], b.interval) + [BuildSample(frames[k], b.interval)];
      ModAddOne(b.framecount + k, Two32);
      k := k + 1;
    }
    assert frames[..k] == frames;
    assert rets[..k] == rets;
  }

  /** A whole stream: the counter is reset before the device is searched for,
      then the driver delivers the frames. The ingress receives exactly one
      buffer per frame, and the counter ends at the number of frames, modulo
      2^32. */
  method Session(interval: uint32, frames: seq<Frame>, rets: seq<FlowReturn>) returns (r: Bridge)
    requires |rets| == |frames|
    requires forall i :: 0 <= i < |frames| ==> ValidFrame(frames[i])
    ensures r.interval == interval
    ensures r.pushed == Expected(frames, interval)
    ensures r.framecount == |frames| % Two32
    ensures |frames| < Two32 ==> r.framecount == |frames|
    ensures |r.log| == Refused(rets)
    ensures forall i :: 0 <= i < |r.log| ==> r.log[i] == PushErrorLine
  {
    r := Deliver(Start(interval), frames, rets);
    if |frames| < Two32 {
      ModSmall(|frames|, Two32);
    }
  }

  /** `log` is `base` followed by push-error lines only. */
  predicate PushErrorsAfter(base: seq<string>, log: seq<string>) {
    && |base| <= |log| && log[..|base|] == base
    && forall i :: |base| <= i < |log| ==> log[i] == PushErrorLine
  }

  /** One callback keeps that shape of the log. */
  lemma PushErrorStep(base: seq<string>, log: seq<string>, next: seq<string>)
    requires PushErrorsAfter(base, log)
    requires next == log || next == log + [PushErrorLine]
    ensures PushErrorsAfter(base, next)
  {
    if next != log {
      assert next[..|base|] == log[..|base|];
    }
  }

  /** Incrementing before or after reduction gives the same remainder. */
  lemma ModAddOne(x: int, m: int)
    requires m > 0
    ensures (x % m + 1) % m == (x + 1) % m
  {
    var q := x / m;
    assert x + 1 == (x % m + 1) + q * m;
    ModAddMultiple(x % m + 1, q, m);
  }
}
