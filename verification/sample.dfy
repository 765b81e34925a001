/**
 The sample builder inside the capture callback `cb`: how one captured frame
 becomes one timestamped GStreamer buffer.

 `frame->sequence` and `dwFrameInterval` are both `uint32_t`, so the
 timestamp product `sequence * dwFrameInterval * 100` is evaluated in
 unsigned 32-bit arithmetic before it is widened into the 64-bit clock time.
 */
module Sample {
  import opened CTypes

  /** GST_CLOCK_TIME_NONE: the all-ones clock time that means "unknown". */
  const ClockTimeNone: uint64 := Two64 - 1

  /** Frame intervals are in units of 100 ns; buffer times are in ns. */
  const NanosPerIntervalUnit: uint32 := 100

  /** A frame as the capture driver delivers it: a sequence number and a buffer
      whose first `dataBytes` bytes are the compressed payload. */
  datatype Frame = Frame(sequence: uint32, data: seq<byte>, dataBytes: nat)

  /** The driver's promise that `data_bytes` bytes can be read from `data`. */
  predicate ValidFrame(f: Frame) {
    f.dataBytes <= |f.data|
  }

  /** The fields `cb` writes into the buffer it allocates. */
  datatype Buffer = Buffer(pts: uint64, dts: uint64, duration: uint64, offset: uint64, payload: seq<byte>)

  /** The presentation timestamp as the C expression computes it. */
  function Pts(sequence: uint32, interval: uint32): (r: uint32)
    ensures r == (sequence * interval * 100) % Two32
  {
    ModMulLeft(sequence * interval, 100, Two32);
    Mul32(Mul32(sequence, interval), NanosPerIntervalUnit)
  }

  /** The per-buffer duration as the C expression computes it. */
  function Duration(interval: uint32): (r: uint32)
    ensures r == (interval * 100) % Two32
  {
    Mul32(interval, NanosPerIntervalUnit)
  }

  /** The buffer `cb` builds from `f` when the stream's frame interval is `interval`. */
  function BuildSample(f: Frame, interval: uint32): (b: Buffer)
    requires ValidFrame(f)
    ensures b.pts == (f.sequence * interval * 100) % Two32
    ensures b.dts == ClockTimeNone
    ensures b.duration == (interval * 100) % Two32
    ensures b.offset == f.sequence
    ensures |b.payload| == f.dataBytes
    ensures forall i :: 0 <= i < f.dataBytes ==> b.payload[i] == f.data[i]
  {
    Buffer(Pts(f.sequence, interval), ClockTimeNone, Duration(interval), f.sequence, f.data[..f.dataBytes])
  }

  /** While the exact product fits in 32 bits, the timestamp is the exact
      product sequence * interval * 100 nanoseconds. */
  lemma PtsExact(sequence: uint32, interval: uint32)
    requires sequence * interval * 100 < Two32
    ensures Pts(sequence, interval) == sequence * interval * 100
  {
    ModSmall(sequence * interval * 100, Two32);
  }

  /** Consecutive sequence numbers give timestamps exactly one duration apart,
      as long as the later product does not wrap. */
  lemma PtsAdvancesByDuration(n: uint32, interval: uint32)
    requires n + 1 < Two32
    requires (n + 1) * interval * 100 < Two32
    ensures Pts(n + 1, interval) == Pts(n, interval) + Duration(interval)
  {
    var step := interval * 100;
    assert (n + 1) * interval * 100 == n * interval * 100 + step;
    assert 0 <= n * interval * 100;
    PtsExact(n + 1, interval);
    PtsExact(n, interval);
    ModSmall(step, Two32);
  }

  /** A skipped run of sequence numbers makes the timestamp jump forward by one
      duration per skipped frame; nothing compensates for the gap. */
  lemma {:induction false} PtsGap(n: uint32, gap: nat, interval: uint32)
    requires n + gap < Two32
    requires (n + gap) * interval * 100 < Two32
    ensures Pts(n + gap, interval) == Pts(n, interval) + gap * Duration(interval)
    decreases gap
  {
    if gap > 0 {
      var prev := n + gap - 1;
      NextProduct(prev, interval);
      PtsGap(n, gap - 1, interval);
      PtsAdvancesByDuration(prev, interval);
      MulPred(gap, Duration(interval));
    }
  }

  /** One more frame adds one interval's worth of the product. */
  lemma NextProduct(p: nat, interval: nat)
    ensures (p + 1) * interval * 100 == p * interval * 100 + interval * 100
    ensures 0 <= p * interval * 100 && 0 <= interval * 100
  {
  }

  lemma MulPred(a: int, b: int)
    ensures a * b == (a - 1) * b + b
  {
  }

  /** Without wrap-around a positive interval makes timestamps strictly increasing
      in the sequence number. */
  lemma PtsStrictlyIncreasing(m: uint32, n: uint32, interval: uint32)
    requires interval > 0
    requires m < n
    requires n * interval * 100 < Two32
    ensures Pts(m, interval) < Pts(n, interval)
  {
    var gap := n - m;
    assert m + gap == n;
    PtsGap(m, gap, interval);
    DurationPositive(n, interval);
    assert gap * Duration(interval) >= Duration(interval) by {
      MulAtLeastOne(gap, Duration(interval));
    }
  }

  lemma MulAtLeastOne(a: int, b: int)
    requires a >= 1 && b >= 0
    ensures a * b >= b
  {
    assert a * b == (a - 1) * b + b;
  }

  lemma DurationPositive(n: uint32, interval: uint32)
    requires interval > 0 && n > 0
    requires n * interval * 100 < Two32
    ensures Duration(interval) == interval * 100 > 0
  {
    MulAtLeastOne(n, interval * 100);
    assert n * (interval * 100) == n * interval * 100;
    ModSmall(interval * 100, Two32);
  }

  /** The 32-bit product does wrap in practice: with an interval of 333667
      (29.97 frames per second) frame 129 is stamped earlier than frame 128,
      about 4.3 seconds into the stream. */
  lemma PtsWrapsAfter128Frames()
    ensures 128 * 333667 * 100 < Two32 <= 129 * 333667 * 100
    ensures Pts(129, 333667) < Pts(128, 333667)
    ensures Pts(129, 333667) == 9337004
  {
  }
}
