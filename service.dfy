/**
  The voice assistant service (nanobot/voice/service.py): the listening
  loop, the utterance handler's speaking flag, and start/stop.

  Everything outside the process is a parameter: the wake-word model's
  predictions, the transcription and speech services, the agent and the
  loudness measure are functions in `Capabilities`; the clock is a function
  of the loop step; the frame queue is a sequence, and its end stands for a
  `queue.Empty` timeout after which only `stop()` ends the loop.  The
  handoff to the asynchronous handler is a synchronous call, as the loop
  blocks on it.
*/
module VoiceService {
  import opened Common
  import opened FrameMath
  import opened Pcm
  import opened PreRoll
  import opened Recorder
  import opened WakeWord

  /** The collaborators the service calls. */
  datatype Capabilities = Capabilities(
    predict: Frame -> Predictions,  // model.predict(frame)
    transcribe: WavFile -> string,  // transcribe(path): "" on any failure
    respond: string -> string,      // agent.process_direct(text, ...): "" stands for any falsy reply
    synthesize: string -> bool,     // speak(reply, path): true when it returned a path
    rms: Frame -> real)             // _rms(frame)

  /** What the handler does, in order. */
  datatype HandlerEvent =
    | Transcribed(text: string)
    | AgentAsked(text: string)
    | AgentReplied(reply: string)
    | SpeakingSet(on: bool)
    | Synthesized(reply: string, ok: bool)
    | Played

  /**
    `_handle_utterance` as the sequence of its steps: an empty transcript
    ends the turn; otherwise the agent is asked; an empty reply ends the
    turn; otherwise the flag is set, speech is synthesised, played when
    synthesis gave a file, and the flag is cleared (the `finally`).
  */
  function HandlerTrace(wav: WavFile, caps: Capabilities): (events: seq<HandlerEvent>)
    ensures |events| >= 1 && events[0] == Transcribed(caps.transcribe(wav))
  {
    var text := caps.transcribe(wav);
    if text == "" then [Transcribed(text)]
    else
      var reply := caps.respond(text);
      var asked := [Transcribed(text), AgentAsked(text), AgentReplied(reply)];
      if reply == "" then asked
      else
        var ok := caps.synthesize(reply);
        asked + [SpeakingSet(true), Synthesized(reply, ok)]
          + (if ok then [Played] else []) + [SpeakingSet(false)]
  }

  /** The speaking flag after `events`, starting from `flag`. */
  function FlagAfter(events: seq<HandlerEvent>, flag: bool): bool
  {
    if events == [] then flag
    else FlagAfter(events[1..], if events[0].SpeakingSet? then events[0].on else flag)
  }

  lemma {:induction false} FlagAfterAppend(a: seq<HandlerEvent>, b: seq<HandlerEvent>, flag: bool)
    ensures FlagAfter(a + b, flag) == FlagAfter(b, FlagAfter(a, flag))
  {
    if a != [] {
      assert (a + b)[1..] == a[1..] + b;
      FlagAfterAppend(a[1..], b, if a[0].SpeakingSet? then a[0].on else flag);
    } else {
      assert a + b == b;
    }
  }

  lemma {:induction false} FlagAfterNoSet(events: seq<HandlerEvent>, flag: bool)
    requires forall i :: 0 <= i < |events| ==> !events[i].SpeakingSet?
    ensures FlagAfter(events, flag) == flag
  {
    if events != [] {
      FlagAfterNoSet(events[1..], flag);
    }
  }

  /**
    The handler leaves the flag cleared when it set it, and untouched when it
    returned early: it is never left set by the handler.
  */
  lemma HandlerFlag(wav: WavFile, caps: Capabilities, flag: bool)
    ensures var text := caps.transcribe(wav);
      var spoke := text != "" && caps.respond(text) != "";
      FlagAfter(HandlerTrace(wav, caps), flag) == if spoke then false else flag
  {
    var events := HandlerTrace(wav, caps);
    var text := caps.transcribe(wav);
    if text == "" || caps.respond(text) == "" {
      FlagAfterNoSet(events, flag);
    } else {
      var k := |events| - 1;
      assert events == events[..k] + [SpeakingSet(false)];
      FlagAfterAppend(events[..k], [SpeakingSet(false)], flag);
    }
  }

  /** The agent is asked exactly when the transcript is not empty. */
  lemma HandlerAsksAgent(wav: WavFile, caps: Capabilities)
    ensures (exists i :: 0 <= i < |HandlerTrace(wav, caps)| && HandlerTrace(wav, caps)[i].AgentAsked?)
      <==> caps.transcribe(wav) != ""
  {
    var events := HandlerTrace(wav, caps);
    if caps.transcribe(wav) != "" {
      assert events[1].AgentAsked?;
    }
  }

  /**
    The flag is set exactly when the transcript and the agent's reply are
    both non-empty, and only after that reply.
  */
  lemma HandlerSetsFlag(wav: WavFile, caps: Capabilities)
    ensures var events := HandlerTrace(wav, caps);
      var text := caps.transcribe(wav);
      && ((exists i :: 0 <= i < |events| && events[i] == SpeakingSet(true))
            <==> text != "" && caps.respond(text) != "")
      && forall i :: 0 <= i < |events| && events[i] == SpeakingSet(true) ==>
           exists j :: 0 <= j < i && events[j] == AgentReplied(caps.respond(text)) && caps.respond(text) != ""
  {
    var events := HandlerTrace(wav, caps);
    var text := caps.transcribe(wav);
    if text != "" && caps.respond(text) != "" {
      assert events[3] == SpeakingSet(true);
      assert events[2] == AgentReplied(caps.respond(text));
    }
  }

  /** Playback happens only while the flag is set. */
  lemma HandlerPlaysWhileSpeaking(wav: WavFile, caps: Capabilities)
    ensures var events := HandlerTrace(wav, caps);
      forall i :: 0 <= i < |events| && events[i] == Played ==> FlagAfter(events[..i], false)
  {
    var events := HandlerTrace(wav, caps);
    var text := caps.transcribe(wav);
    if text != "" && caps.respond(text) != "" && caps.synthesize(caps.respond(text)) {
      var before := events[..5];
      assert events[5] == Played;
      assert before == events[..3] + [SpeakingSet(true), events[4]];
      FlagAfterAppend(events[..3], [SpeakingSet(true), events[4]], false);
      FlagAfterNoSet(events[..3], false);
      assert [SpeakingSet(true), events[4]][1..] == [events[4]];
      assert FlagAfter([events[4]], true);
      assert FlagAfter(before, false);
      forall i | 0 <= i < |events| && events[i] == Played
        ensures i == 5
      {
      }
    } else {
      forall i | 0 <= i < |events|
        ensures events[i] != Played
      {
      }
    }
  }

  /**
    Every trigger recorded a non-empty utterance, its file was written, and
    the handler ran on that file.
  */
  predicate Delivered(triggers: seq<StepResult>, caps: Capabilities)
  {
    forall i :: 0 <= i < |triggers| ==>
      && triggers[i].Triggered?
      && triggers[i].utterance != []
      && triggers[i].wav.Some?
      && triggers[i].events == HandlerTrace(triggers[i].wav.value, caps)
  }

  lemma DeliveredExtends(triggers: seq<StepResult>, next: StepResult, caps: Capabilities)
    requires Delivered(triggers, caps)
    requires next.Triggered? && next.utterance != [] && next.wav.Some?
    requires next.events == HandlerTrace(next.wav.value, caps)
    ensures Delivered(triggers + [next], caps)
  {
  }

  /** Trigger times kept at least `cooldown` apart, none after `last`. */
  predicate Spaced(triggers: seq<StepResult>, last: real, cooldown: real)
  {
    && (forall i :: 0 <= i < |triggers| ==> triggers[i].Triggered? && triggers[i].at <= last)
    && forall i, j :: 0 <= i < j < |triggers| ==> triggers[j].at - triggers[i].at >= cooldown
  }

  /**
    A trigger at least a non-negative cooldown after the latest one keeps
    the spacing, and becomes the latest.
  */
  lemma SpacingExtends(triggers: seq<StepResult>, next: StepResult, last: real, cooldown: real)
    requires cooldown >= 0.0 && Spaced(triggers, last, cooldown)
    requires next.Triggered? && next.at - last >= cooldown
    ensures Spaced(triggers + [next], next.at, cooldown)
  {
    var ts := triggers + [next];
    forall i, j | 0 <= i < j < |ts|
      ensures ts[j].at - ts[i].at >= cooldown
    {
      if j == |triggers| {
        assert ts[i].at <= last;
      } else {
        assert ts[i] == triggers[i] && ts[j] == triggers[j];
      }
    }
  }

  /** What one pass of the listening loop did. */
  datatype StepResult =
    | Idle  // the queue was empty: the `queue.Empty` timeout
    | Dropped  // the service was speaking: the frame was discarded
    | Listened  // the frame went to the ring and the gate, which did not fire
    | Triggered(at: real, utterance: seq<Frame>, wav: Option<WavFile>, events: seq<HandlerEvent>)

  /** How `_run_blocking` ended. */
  datatype RunResult =
    | ConfigError  // a non-positive frame length
    | Stopped(triggers: seq<StepResult>, rest: seq<Frame>)

  /**
    What the listening loop does with the queue `q` while the service is
    not speaking: every frame joins the pre-roll `ring` (of `capacity`
    frames) and goes to the gate with the trigger time `last`, at the time
    the clock gives for loop step `step`; on a trigger, the recorder takes
    the frames after it, the ring snapshot and the recording are written,
    the handler runs on the file, and listening resumes after the
    recording.  The result lists the triggers in order.
  */
  function Run(cfg: RuntimeConfig, wake: WakeWordConfig, caps: Capabilities, clock: nat -> real,
               q: seq<Frame>, ring: seq<Frame>, capacity: nat, last: real, step: nat): seq<StepResult>
    requires cfg.chunkMs != 0
    decreases |q|
  {
    if q == [] then []
    else
      var now := clock(step);
      var items := LastN(ring + [q[0]], capacity);
      if Fires(wake, last, caps.predict(q[0]), now) then
        EndpointCharacterization(q[1..], RecordLimits(cfg), caps.rms, cfg.silenceThreshold);
        var n := EndpointLength(q[1..], RecordLimits(cfg), caps.rms, cfg.silenceThreshold);
        var utterance := items + q[1..1 + n];
        var wav := WriteWav(utterance, cfg.sampleRate);
        [Triggered(now, utterance, wav, if wav.Some? then HandlerTrace(wav.value, caps) else [])]
          + Run(cfg, wake, caps, clock, q[1 + n..], items, capacity, now, step + 1)
      else Run(cfg, wake, caps, clock, q[1..], items, capacity, last, step + 1)
  }

  /**
    One step of the replay: when a step of the loop took the head of
    `pending` into the ring (giving `items`) and either only listened or
    triggered and recorded, the replay of `pending` is that step's trigger,
    if any, followed by the replay of what is left.
  */
  lemma RunUnfolds(cfg: RuntimeConfig, wake: WakeWordConfig, caps: Capabilities, clock: nat -> real,
                   pending: seq<Frame>, held: seq<Frame>, capacity: nat, before: real, step: nat,
                   rest: seq<Frame>, items: seq<Frame>, outcome: StepResult, after: real)
    requires cfg.chunkMs != 0 && pending != []
    requires items == LastN(held + [pending[0]], capacity)
    requires outcome == Listened || outcome.Triggered?
    requires outcome.Triggered? <==> Fires(wake, before, caps.predict(pending[0]), clock(step))
    requires outcome == Listened ==> rest == pending[1..] && after == before
    requires outcome.Triggered? ==>
      var n := EndpointLength(pending[1..], RecordLimits(cfg), caps.rms, cfg.silenceThreshold);
      && n <= |pending| - 1
      && rest == pending[1 + n..]
      && after == outcome.at == clock(step)
      && outcome.utterance == items + pending[1..1 + n]
      && outcome.wav == WriteWav(outcome.utterance, cfg.sampleRate)
      && outcome.events == (if outcome.wav.Some? then HandlerTrace(outcome.wav.value, caps) else [])
    ensures Run(cfg, wake, caps, clock, pending, held, capacity, before, step)
      == (if outcome.Triggered? then [outcome] else [])
         + Run(cfg, wake, caps, clock, rest, items, capacity, after, step + 1)
  {
  }

  /** Regrouping a concatenation. */
  lemma RegroupAppend<T>(done: seq<T>, next: seq<T>, later: seq<T>, total: seq<T>)
    requires done + (next + later) == total
    ensures (done + next) + later == total
  {
  }

  /** Slicing the tail of a queue is slicing the queue one further on. */
  lemma TailSlices(q: seq<Frame>, n: nat)
    requires 1 + n <= |q|
    ensures q[1..][..n] == q[1..1 + n] && q[1..][n..] == q[1 + n..]
  {
  }

  class VoiceAssistantService {
    const config: RuntimeConfig
    const wakeConfig: WakeWordConfig
    var running: bool
    var speaking: bool

    constructor(config: RuntimeConfig, wakeConfig: WakeWordConfig)
      ensures this.config == config && this.wakeConfig == wakeConfig
      ensures !running && !speaking
    {
      this.config := config;
      this.wakeConfig := wakeConfig;
      running := false;
      speaking := false;
    }

    /** `stop`: the loop ends at its next check of the flag. */
    method Stop()
      modifies this`running
      ensures !running
    {
      running := false;
    }

    /** `_handle_utterance`: runs the turn and leaves the flag as `FlagAfter` says. */
    method HandleUtterance(wav: WavFile, caps: Capabilities) returns (events: seq<HandlerEvent>)
      modifies this`speaking
      ensures events == HandlerTrace(wav, caps)
      ensures var text := caps.transcribe(wav);
        speaking == if text != "" && caps.respond(text) != "" then false else old(speaking)
    {
      var text := caps.transcribe(wav);
      events := [Transcribed(text)];
      if text == "" {
        return;
      }
      events := events + [AgentAsked(text)];
      var reply := caps.respond(text);
      events := events + [AgentReplied(reply)];
      if reply == "" {
        return;
      }
      speaking := true;
      events := events + [SpeakingSet(true)];
      var ok := caps.synthesize(reply);
      events := events + [Synthesized(reply, ok)];
      if ok {
        events := events + [Played];
      }
      speaking := false;
      events := events + [SpeakingSet(false)];
    }

    /**
      The triggered branch of the loop: record the utterance from the queue,
      prepend the pre-roll snapshot, write it, and hand it to the handler
      when writing succeeded.
    */
    method CaptureAndHandle(q: seq<Frame>, preRoll: seq<Frame>, caps: Capabilities, now: real)
      returns (rest: seq<Frame>, result: StepResult)
      requires config.chunkMs != 0 && !speaking
      modifies this`speaking
      ensures !speaking
      ensures var n := EndpointLength(q, RecordLimits(config), caps.rms, config.silenceThreshold);
        n <= |q| && rest == q[n..] && result.Triggered? && result.at == now
        && result.utterance == preRoll + q[..n]
      ensures result.Triggered? && result.wav == WriteWav(result.utterance, config.sampleRate)
      ensures result.Triggered? && result.events == if result.wav.Some? then HandlerTrace(result.wav.value, caps) else []
    {
      var recorded, left := RecordUtterance(q, config, caps.rms);
      EndpointCharacterization(q, RecordLimits(config), caps.rms, config.silenceThreshold);
      var utterance := preRoll + recorded;
      var wav := WriteWav(utterance, config.sampleRate);
      var events := [];
      if wav.Some? {
        events := HandleUtterance(wav.value, caps);
      }
      return left, Triggered(now, utterance, wav, events);
    }

    /**
      One pass of the `while self._running` loop in `_run_blocking`, on the
      queue `q` at time `now`.
    */
    method ListenStep(q: seq<Frame>, ring: PreRollRing, detector: WakeWordDetector, caps: Capabilities, now: real)
      returns (rest: seq<Frame>, result: StepResult)
      requires ring.Valid() && ring.capacity >= 1 && config.chunkMs != 0
      modifies ring, detector, this`speaking
      ensures ring.Valid()
      ensures |rest| < |q| || (q == [] && rest == [])
      ensures speaking == old(speaking)
      ensures result.Triggered? ==>
        && !old(speaking)
        && result.at == now
        && result.utterance != []
        && result.wav.Some?
        && detector.lastTrigger == now
        && now - old(detector.lastTrigger) >= detector.config.cooldownS
      ensures !result.Triggered? ==> detector.lastTrigger == old(detector.lastTrigger)
      ensures q == [] ==>
        && rest == [] && result == Idle
        && ring.items == old(ring.items)
        && detector.lastTrigger == old(detector.lastTrigger)
        && speaking == old(speaking)
      ensures q != [] && old(speaking) ==>
        && rest == q[1..] && result == Dropped
        && ring.items == old(ring.items)
        && detector.lastTrigger == old(detector.lastTrigger)
        && speaking
      ensures q != [] && !old(speaking) ==>
        && ring.items == LastN(old(ring.items) + [q[0]], ring.capacity)
        && ring.items[|ring.items| - 1] == q[0]
        && (result == Listened || result.Triggered?)
        && (result.Triggered? <==> Fires(detector.config, old(detector.lastTrigger), caps.predict(q[0]), now))
      ensures result == Listened ==> rest == q[1..]
      ensures result.Triggered? ==>
        var n := EndpointLength(q[1..], RecordLimits(config), caps.rms, config.silenceThreshold);
        && n <= |q| - 1
        && rest == q[1 + n..]
        && result.utterance == ring.items + q[1..1 + n]
        && result.wav == WriteWav(result.utterance, config.sampleRate)
        && result.events == (if result.wav.Some? then HandlerTrace(result.wav.value, caps) else [])
    {
      if q == [] {
        return [], Idle;
      }
      var frame := q[0];
      rest := q[1..];
      if speaking {
        return rest, Dropped;
      }
      ring.Append(frame);
      var fired := detector.Detect(caps.predict(frame), now);
      if !fired {
        return rest, Listened;
      }
      ghost var n := EndpointLength(rest, RecordLimits(config), caps.rms, config.silenceThreshold);
      rest, result := CaptureAndHandle(rest, ring.items, caps, now);
      TailSlices(q, n);
    }

    /**
      The `while self._running` loop of `_run_blocking`, over the queue
      `q`, the pre-roll ring and the detector it set up.  It ends when the
      service stops or the queue runs out.  Every trigger records a
      non-empty utterance that is written and handled; while the service is
      not speaking and keeps running, the triggers are exactly the replay
      `Run` of the queue.  The speaking flag ends as it started, and with a
      non-negative cooldown any two triggers are at least a cooldown apart.
    */
    method Listen(q: seq<Frame>, ring: PreRollRing, detector: WakeWordDetector, caps: Capabilities, clock: nat -> real)
      returns (triggers: seq<StepResult>, rest: seq<Frame>)
      requires ring.Valid() && ring.capacity >= 1 && config.chunkMs != 0
      requires detector.config == wakeConfig
      modifies ring, detector, this`speaking
      ensures speaking == old(speaking)
      ensures Delivered(triggers, caps)
      ensures old(speaking) || !running ==> triggers == []
      ensures running ==> rest == []
      ensures running && !old(speaking) ==>
        triggers == Run(config, wakeConfig, caps, clock, q, old(ring.items), ring.capacity, old(detector.lastTrigger), 0)
      ensures wakeConfig.cooldownS >= 0.0 ==> Spaced(triggers, detector.lastTrigger, wakeConfig.cooldownS)
    {
      ghost var total := Run(config, wakeConfig, caps, clock, q, ring.items, ring.capacity, detector.lastTrigger, 0);
      rest := q;
      triggers := [];
      var step: nat := 0;
      while running && rest != []
        invariant ring.Valid()
        invariant detector.config == wakeConfig
        invariant speaking == old(speaking)
        invariant Delivered(triggers, caps)
        invariant old(speaking) || !running ==> triggers == []
        invariant !old(speaking) ==>
          triggers + Run(config, wakeConfig, caps, clock, rest, ring.items, ring.capacity, detector.lastTrigger, step) == total
        invariant wakeConfig.cooldownS >= 0.0 ==> Spaced(triggers, detector.lastTrigger, wakeConfig.cooldownS)
        decreases |rest|
      {
        var outcome;
        ghost var before := detector.lastTrigger;
        ghost var pending := rest;
        ghost var held := ring.items;
        rest, outcome := ListenStep(rest, ring, detector, caps, clock(step));
        if !old(speaking) {
          ghost var emitted := if outcome.Triggered? then [outcome] else [];
          RunUnfolds(config, wakeConfig, caps, clock, pending, held, ring.capacity, before, step,
                     rest, ring.items, outcome, detector.lastTrigger);
          RegroupAppend(triggers, emitted,
                        Run(config, wakeConfig, caps, clock, rest, ring.items, ring.capacity, detector.lastTrigger, step + 1),
                        total);
        }
        if outcome.Triggered? {
          if wakeConfig.cooldownS >= 0.0 {
            SpacingExtends(triggers, outcome, before, wakeConfig.cooldownS);
          }
          DeliveredExtends(triggers, outcome, caps);
          triggers := triggers + [outcome];
        }
        step := step + 1;
      }
    }

    /**
      `_run_blocking` from the frame-length check on: a non-positive frame
      length ends the run; otherwise it sets up an empty pre-roll ring and a
      detector that has never fired, and listens.
    */
    method RunBlocking(q: seq<Frame>, caps: Capabilities, clock: nat -> real) returns (result: RunResult)
      modifies this`speaking
      ensures speaking == old(speaking)
      ensures result.ConfigError? <==> Layout(config).None?
      ensures result.Stopped? ==>
        && Delivered(result.triggers, caps)
        && (old(speaking) || !running ==> result.triggers == [])
        && (running ==> result.rest == [])
        && (running && !old(speaking) ==>
              result.triggers == Run(config, wakeConfig, caps, clock, q, [], Layout(config).value.preRollFrames, 0.0, 0))
        && (wakeConfig.cooldownS >= 0.0 ==>
              forall i, j :: 0 <= i < j < |result.triggers| ==>
                result.triggers[j].at - result.triggers[i].at >= wakeConfig.cooldownS)
    {
      var layout := Layout(config);
      if layout.None? {
        return ConfigError;
      }
      var ring := new PreRollRing(layout.value.preRollFrames);
      var detector := new WakeWordDetector(wakeConfig);
      var triggers, rest := Listen(q, ring, detector, caps, clock);
      return Stopped(triggers, rest);
    }

    /**
      `start`: does nothing when already running; otherwise sets the
      running flag, runs the loop, and clears the flag when the loop ends.
    */
    method Start(q: seq<Frame>, caps: Capabilities, clock: nat -> real) returns (result: Option<RunResult>)
      modifies this`running, this`speaking
      ensures old(running) ==> result.None? && running
      ensures !old(running) ==> result.Some? && !running
      ensures speaking == old(speaking)
      ensures !old(running) ==>
        && (result.value.ConfigError? <==> Layout(config).None?)
        && (result.value.Stopped? ==>
              && result.value.rest == []
              && Delivered(result.value.triggers, caps)
              && (old(speaking) ==> result.value.triggers == [])
              && (!old(speaking) ==>
                    result.value.triggers
                      == Run(config, wakeConfig, caps, clock, q, [], Layout(config).value.preRollFrames, 0.0, 0))
              && (wakeConfig.cooldownS >= 0.0 ==>
                    forall i, j :: 0 <= i < j < |result.value.triggers| ==>
                      result.value.triggers[j].at - result.value.triggers[i].at >= wakeConfig.cooldownS))
    {
      if running {
        return None;
      }
      running := true;
      var r := RunBlocking(q, caps, clock);
      running := false;
      return Some(r);
    }
  }
}
