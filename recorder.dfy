/**
  The utterance recorder of the voice service
  (nanobot/voice/service.py, `_record_utterance`).

  After a trigger the recorder takes frames off the shared queue, at most
  `maxFrames` of them, keeping a counter of consecutive quiet frames (RMS
  loudness below the silence threshold).  It stops early when the queue
  runs dry (a `queue.Empty` timeout, here: the end of the queue) or, after
  appending a frame, when at least `minFrames` frames are recorded and the
  counter has reached `silenceLimit`.  Loudness is a parameter: the RMS
  computation itself is not modelled.
*/
module Recorder {
  import opened Common
  import opened FrameMath
  import opened Pcm

  /** A frame is quiet when its loudness is below the threshold. */
  predicate Quiet(f: Frame, rms: Frame -> real, threshold: real)
  {
    rms(f) < threshold
  }

  /** The silence counter: the length of the run of quiet frames that ends `fs`. */
  function TrailingQuiet(fs: seq<Frame>, rms: Frame -> real, threshold: real): (n: nat)
    ensures n <= |fs|
  {
    if fs == [] then 0
    else if Quiet(fs[|fs| - 1], rms, threshold) then TrailingQuiet(fs[..|fs| - 1], rms, threshold) + 1
    else 0
  }

  /** The counted frames are quiet, and the frame before them, if any, is loud. */
  lemma {:induction false} TrailingQuietIsRun(fs: seq<Frame>, rms: Frame -> real, threshold: real)
    ensures var n := TrailingQuiet(fs, rms, threshold);
      && (forall i :: |fs| - n <= i < |fs| ==> Quiet(fs[i], rms, threshold))
      && (n < |fs| ==> !Quiet(fs[|fs| - n - 1], rms, threshold))
    decreases |fs|
  {
    if fs != [] && Quiet(fs[|fs| - 1], rms, threshold) {
      var init := fs[..|fs| - 1];
      TrailingQuietIsRun(init, rms, threshold);
      var n := TrailingQuiet(fs, rms, threshold);
      forall i | |fs| - n <= i < |fs|
        ensures Quiet(fs[i], rms, threshold)
      {
        if i < |fs| - 1 {
          assert fs[i] == init[i];
        }
      }
      if n < |fs| {
        assert fs[|fs| - n - 1] == init[|init| - (n - 1) - 1];
      }
    }
  }

  /** The recorder's stop condition on the frames recorded so far. */
  predicate Endpointed(fs: seq<Frame>, lim: Limits, rms: Frame -> real, threshold: real)
  {
    |fs| >= lim.minFrames && TrailingQuiet(fs, rms, threshold) >= lim.silenceLimit
  }

  /**
    How many frames the recorder ends with when it has already taken `k`
    frames of `q` without stopping.
  */
  function StopAfter(q: seq<Frame>, lim: Limits, rms: Frame -> real, threshold: real, k: nat): nat
    requires k <= |q|
    decreases |q| - k
  {
    if k == |q| || k >= lim.maxFrames then k
    else if Endpointed(q[..k + 1], lim, rms, threshold) then k + 1
    else StopAfter(q, lim, rms, threshold, k + 1)
  }

  /** The number of frames the recorder takes off the queue `q`. */
  function EndpointLength(q: seq<Frame>, lim: Limits, rms: Frame -> real, threshold: real): nat
  {
    StopAfter(q, lim, rms, threshold, 0)
  }

  lemma {:induction false} StopAfterFacts(q: seq<Frame>, lim: Limits, rms: Frame -> real, threshold: real, k: nat)
    requires k <= |q| && k <= lim.maxFrames
    ensures var n := StopAfter(q, lim, rms, threshold, k);
      && k <= n <= |q|
      && n <= lim.maxFrames
      && (k < Min(lim.maxFrames, |q|) ==> n > k)
      && (n < Min(lim.maxFrames, |q|) ==> Endpointed(q[..n], lim, rms, threshold))
      && (forall j :: k < j < n ==> !Endpointed(q[..j], lim, rms, threshold))
    decreases |q| - k
  {
    if k == |q| || k >= lim.maxFrames {
    } else if Endpointed(q[..k + 1], lim, rms, threshold) {
    } else {
      StopAfterFacts(q, lim, rms, threshold, k + 1);
    }
  }

  /**
    What the recorder returns: never more than `maxFrames` frames nor more
    than the queue holds, at least one frame when there is one; stopping
    short of both bounds only at the endpoint, where at least `minFrames`
    frames are recorded and the last `silenceLimit` of them are quiet; and
    never after an earlier prefix already met the endpoint.
  */
  lemma EndpointCharacterization(q: seq<Frame>, lim: Limits, rms: Frame -> real, threshold: real)
    requires ValidLimits(lim)
    ensures var n := EndpointLength(q, lim, rms, threshold);
      && n <= |q|
      && n <= lim.maxFrames
      && (|q| > 0 ==> n >= 1)
      && (n < Min(lim.maxFrames, |q|) ==>
            && n >= lim.minFrames
            && n >= lim.silenceLimit
            && forall i :: n - lim.silenceLimit <= i < n ==> Quiet(q[i], rms, threshold))
      && (forall j :: 0 < j < n ==> !Endpointed(q[..j], lim, rms, threshold))
  {
    StopAfterFacts(q, lim, rms, threshold, 0);
    var n := EndpointLength(q, lim, rms, threshold);
    if n < Min(lim.maxFrames, |q|) {
      var fs := q[..n];
      assert Endpointed(fs, lim, rms, threshold);
      TrailingQuietIsRun(fs, rms, threshold);
      forall i | n - lim.silenceLimit <= i < n
        ensures Quiet(q[i], rms, threshold)
      {
        assert fs[i] == q[i];
      }
    }
  }

  /**
    The characterization determines the length: any count that stops only
    at the first endpoint, or at the bound, is the recorder's.
  */
  lemma EndpointUnique(q: seq<Frame>, lim: Limits, rms: Frame -> real, threshold: real, m: nat)
    requires ValidLimits(lim)
    requires m <= Min(lim.maxFrames, |q|)
    requires |q| > 0 ==> m >= 1
    requires m < Min(lim.maxFrames, |q|) ==> Endpointed(q[..m], lim, rms, threshold)
    requires forall j :: 0 < j < m ==> !Endpointed(q[..j], lim, rms, threshold)
    ensures m == EndpointLength(q, lim, rms, threshold)
  {
    StopAfterFacts(q, lim, rms, threshold, 0);
  }

  /** With no quiet frame the recorder runs to `Min(maxFrames, |q|)`, whatever the minimum. */
  lemma AllLoudRunsToBound(q: seq<Frame>, lim: Limits, rms: Frame -> real, threshold: real)
    requires ValidLimits(lim)
    requires forall i :: 0 <= i < |q| ==> !Quiet(q[i], rms, threshold)
    ensures EndpointLength(q, lim, rms, threshold) == Min(lim.maxFrames, |q|)
  {
    EndpointCharacterization(q, lim, rms, threshold);
    var n := EndpointLength(q, lim, rms, threshold);
    assert 1 <= n <= |q| ==> !Quiet(q[n - 1], rms, threshold);
  }

  /**
    `loud` loud frames followed by `silenceLimit` quiet ones: when that
    reaches the minimum and fits under the maximum, the recorder stops
    right after the last quiet frame.
  */
  lemma LoudThenSilence(q: seq<Frame>, lim: Limits, rms: Frame -> real, threshold: real, loud: nat)
    requires ValidLimits(lim)
    requires loud + lim.silenceLimit <= |q|
    requires lim.minFrames <= loud + lim.silenceLimit <= lim.maxFrames
    requires forall i :: 0 <= i < loud ==> !Quiet(q[i], rms, threshold)
    requires forall i :: loud <= i < loud + lim.silenceLimit ==> Quiet(q[i], rms, threshold)
    ensures EndpointLength(q, lim, rms, threshold) == loud + lim.silenceLimit
  {
    var m := loud + lim.silenceLimit;
    TrailingQuietOfRun(q, rms, threshold, loud, m);
    forall j | 0 < j < m
      ensures !Endpointed(q[..j], lim, rms, threshold)
    {
      TrailingQuietOfRun(q, rms, threshold, loud, j);
    }
    EndpointUnique(q, lim, rms, threshold, m);
  }

  /** After a loud prefix of length `loud`, the counter is the number of frames taken since. */
  lemma {:induction false} TrailingQuietOfRun(q: seq<Frame>, rms: Frame -> real, threshold: real, loud: nat, j: nat)
    requires j <= |q|
    requires forall i :: 0 <= i < Min(loud, j) ==> !Quiet(q[i], rms, threshold)
    requires forall i :: loud <= i < j ==> Quiet(q[i], rms, threshold)
    ensures TrailingQuiet(q[..j], rms, threshold) == if j <= loud then 0 else j - loud
  {
    if j > 0 {
      assert q[..j][..j - 1] == q[..j - 1];
      TrailingQuietOfRun(q, rms, threshold, loud, j - 1);
    }
  }

  /**
    One more frame: the counter moves on to the trailing quiet run of the
    longer recording, and the recorder stops after that frame exactly when
    the stop condition holds.
  */
  lemma RecordStep(q: seq<Frame>, lim: Limits, rms: Frame -> real, threshold: real, i: nat, counter: nat)
    requires i < |q| && i < lim.maxFrames
    requires counter == TrailingQuiet(q[..i], rms, threshold)
    ensures var next := if rms(q[i]) < threshold then counter + 1 else 0;
      && next == TrailingQuiet(q[..i + 1], rms, threshold)
      && StopAfter(q, lim, rms, threshold, i)
           == if i + 1 >= lim.minFrames && next >= lim.silenceLimit then i + 1
              else StopAfter(q, lim, rms, threshold, i + 1)
  {
    assert q[..i + 1][..i] == q[..i];
  }

  /** Appending the next frame of the queue to a prefix gives the next prefix. */
  lemma PrefixExtend(q: seq<Frame>, i: nat)
    requires i < |q|
    ensures q[..i] + [q[i]] == q[..i + 1]
  {
  }

  /**
    The loop of `_record_utterance`: takes frames off the front of the
    queue, at most `maxFrames`, keeping the silence counter, and stops at
    the endpoint; returns them and what is left.
  */
  method RecordFrames(q: seq<Frame>, lim: Limits, rms: Frame -> real, threshold: real)
    returns (frames: seq<Frame>, rest: seq<Frame>)
    requires ValidLimits(lim)
    ensures frames + rest == q
    ensures |frames| <= lim.maxFrames
    ensures |frames| == EndpointLength(q, lim, rms, threshold)
  {
    ghost var total := EndpointLength(q, lim, rms, threshold);
    frames, rest := [], q;
    var silenceFrames := 0;
    for i := 0 to lim.maxFrames
      invariant i <= |q| && frames == q[..i] && rest == q[i..]
      invariant silenceFrames == TrailingQuiet(frames, rms, threshold)
      invariant StopAfter(q, lim, rms, threshold, i) == total
    {
      if rest == [] {
        break;
      }
      RecordStep(q, lim, rms, threshold, i, silenceFrames);
      var frame := rest[0];
      PrefixExtend(q, i);
      frames, rest := frames + [frame], rest[1..];
      silenceFrames := if rms(frame) < threshold then silenceFrames + 1 else 0;
      if |frames| >= lim.minFrames && silenceFrames >= lim.silenceLimit {
        break;
      }
    }
  }

  /** `_record_utterance`: the limits from the configuration, then the loop. */
  method RecordUtterance(q: seq<Frame>, cfg: RuntimeConfig, rms: Frame -> real)
    returns (frames: seq<Frame>, rest: seq<Frame>)
    requires cfg.chunkMs != 0
    ensures frames + rest == q
    ensures |frames| <= RecordLimits(cfg).maxFrames
    ensures |frames| == EndpointLength(q, RecordLimits(cfg), rms, cfg.silenceThreshold)
  {
    frames, rest := RecordFrames(q, RecordLimits(cfg), rms, cfg.silenceThreshold);
  }
}
