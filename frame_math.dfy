/**
  The frame-count arithmetic of the voice service (nanobot/voice/service.py).

  Every count the pipeline works with is derived from a duration in
  milliseconds divided by the chunk duration, with Python's `int(...)`
  (truncation toward zero of a float) and, for all counts but the frame
  length, clamped from below by `max(1, ...)`.  Floats are modelled as exact
  reals; seconds stay reals, milliseconds and the sample rate are integers.
*/
module FrameMath {
  import opened Common

  /** The runtime configuration that the pipeline reads (devices left out). */
  datatype RuntimeConfig = RuntimeConfig(
    sampleRate: int,
    chunkMs: int,
    preRollMs: int,
    maxRecordSeconds: real,
    minRecordSeconds: real,
    silenceThreshold: real,
    silenceMs: int)

  /** Python's `int(x)` for a float `x`: truncation toward zero. */
  function Trunc(x: real): int
  {
    if x >= 0.0 then x.Floor else -((-x).Floor)
  }

  /** Truncation moves toward zero by less than one. */
  lemma TruncBounds(x: real)
    ensures x >= 0.0 ==> 0 <= Trunc(x) && Trunc(x) as real <= x < Trunc(x) as real + 1.0
    ensures x < 0.0 ==> Trunc(x) <= 0 && Trunc(x) as real - 1.0 < x <= Trunc(x) as real
  {
  }

  /** On a non-negative quotient of integers, truncation is integer division. */
  lemma TruncOfQuotient(n: int, d: int)
    requires n >= 0 && d > 0
    ensures Trunc(n as real / d as real) == n / d
  {
    var q, r := n / d, n % d;
    assert n == q * d + r;
    assert n as real == q as real * d as real + r as real;
    var x := n as real / d as real;
    assert x == q as real + r as real / d as real;
    assert 0.0 <= r as real / d as real < 1.0;
  }

  /**
    `max(1, int(durationMs / chunk_ms))`: the number of chunks a duration
    spans, at least one.  The pre-roll ring capacity, the recorder's
    maximum and minimum lengths and its silence limit are all of this form.
  */
  function FramesFor(durationMs: real, chunkMs: int): (n: int)
    requires chunkMs != 0
    ensures n >= 1
  {
    Max(1, Trunc(durationMs / chunkMs as real))
  }

  /**
    With a positive chunk, the count is the largest number of whole chunks
    that fits in the duration; a duration shorter than one chunk still
    counts as one.
  */
  lemma FramesForCoversDuration(durationMs: real, chunkMs: int)
    requires chunkMs > 0
    ensures var n := FramesFor(durationMs, chunkMs);
      if durationMs >= chunkMs as real
      then (n as real) * (chunkMs as real) <= durationMs < ((n + 1) as real) * (chunkMs as real)
      else n == 1
  {
    var c := chunkMs as real;
    if durationMs >= c {
      QuotientAtLeastOne(durationMs, c);
      var t := Trunc(durationMs / c);
      assert FramesFor(durationMs, chunkMs) == t;
      ScaleBounds(t as real, durationMs, (t + 1) as real, c);
    } else {
      QuotientBelowOne(durationMs, c);
    }
  }

  lemma QuotientAtLeastOne(d: real, c: real)
    requires c > 0.0 && d >= c
    ensures d / c >= 1.0
  {
  }

  lemma QuotientBelowOne(d: real, c: real)
    requires c > 0.0 && d < c
    ensures d / c < 1.0
  {
  }

  /** Bounds on a quotient by a positive divisor are bounds on the dividend, scaled. */
  lemma ScaleBounds(lo: real, d: real, hi: real, c: real)
    requires c > 0.0 && lo <= d / c < hi
    ensures lo * c <= d < hi * c
  {
    var x := d / c;
    assert x * c == d;
    assert lo * c <= x * c;
    assert x * c < hi * c;
  }

  /** For whole milliseconds and a positive chunk, the count is `max(1, ms / chunk_ms)`. */
  lemma FramesForWholeMs(ms: int, chunkMs: int)
    requires ms >= 0 && chunkMs > 0
    ensures FramesFor(ms as real, chunkMs) == Max(1, ms / chunkMs)
  {
    TruncOfQuotient(ms, chunkMs);
  }

  /** `int(sample_rate * chunk_ms / 1000)`: samples per frame, not clamped. */
  function FrameSamples(cfg: RuntimeConfig): (n: int)
    ensures cfg.chunkMs == 0 || cfg.sampleRate == 0 ==> n == 0
  {
    Trunc((cfg.sampleRate * cfg.chunkMs) as real / 1000.0)
  }

  /** For a non-negative rate and chunk, the frame length is an integer division by 1000. */
  lemma FrameSamplesWhole(cfg: RuntimeConfig)
    requires cfg.sampleRate >= 0 && cfg.chunkMs >= 0
    ensures FrameSamples(cfg) == cfg.sampleRate * cfg.chunkMs / 1000
  {
    TruncOfQuotient(cfg.sampleRate * cfg.chunkMs, 1000);
  }

  /** What the listening loop derives from the configuration before it opens the stream. */
  datatype FrameLayout = FrameLayout(frameSamples: int, preRollFrames: int)

  /**
    The start of `_run_blocking`: a non-positive frame length is a
    configuration error (`None`); otherwise the frame length and the
    pre-roll ring capacity.  A positive frame length implies a non-zero
    chunk, so the ring capacity's division is defined.
  */
  function Layout(cfg: RuntimeConfig): (r: Option<FrameLayout>)
    ensures r.Some? <==> FrameSamples(cfg) > 0
    ensures r.Some? ==>
      && cfg.chunkMs != 0
      && r.value.frameSamples == FrameSamples(cfg) >= 1
      && r.value.preRollFrames >= 1
      && r.value.preRollFrames == FramesFor(cfg.preRollMs as real, cfg.chunkMs)
  {
    var n := FrameSamples(cfg);
    if n <= 0 then None
    else Some(FrameLayout(n, FramesFor(cfg.preRollMs as real, cfg.chunkMs)))
  }

  /** The recorder's three limits, in frames. */
  datatype Limits = Limits(maxFrames: int, minFrames: int, silenceLimit: int)

  /** Every limit is at least one frame. */
  ghost predicate ValidLimits(lim: Limits)
  {
    lim.maxFrames >= 1 && lim.minFrames >= 1 && lim.silenceLimit >= 1
  }

  /** The head of `_record_utterance`: seconds become milliseconds, then chunks. */
  function RecordLimits(cfg: RuntimeConfig): (lim: Limits)
    requires cfg.chunkMs != 0
    ensures ValidLimits(lim)
    ensures lim.maxFrames == FramesFor(cfg.maxRecordSeconds * 1000.0, cfg.chunkMs)
    ensures lim.minFrames == FramesFor(cfg.minRecordSeconds * 1000.0, cfg.chunkMs)
    ensures lim.silenceLimit == FramesFor(cfg.silenceMs as real, cfg.chunkMs)
  {
    Limits(
      FramesFor(cfg.maxRecordSeconds * 1000.0, cfg.chunkMs),
      FramesFor(cfg.minRecordSeconds * 1000.0, cfg.chunkMs),
      FramesFor(cfg.silenceMs as real, cfg.chunkMs))
  }
}
