# Voice front-end of nanobot, modelled in Dafny

This project models the sequential core of nanobot's always-on voice
assistant. It covers two files.

`nanobot/voice/service.py` is the listening pipeline:
- the frame-count arithmetic;
- the pre-roll ring, a `deque(maxlen=…)`;
- one step of the real-time loop and the loop itself;
- the utterance recorder, also called the endpointer;
- the 16-bit WAV payload written for transcription and read back for playback;
- the speaking-flag discipline of the utterance handler;
- the `start`/`stop` running flag.

`nanobot/voice/wakeword.py` is the wake-word gate:
- keyword normalisation;
- target-keyword selection;
- the cooldown and threshold detector with its `last_trigger` state.

Things outside the process are parameters:
- The wake-word model's predictions, the transcription and speech services, the agent, and the RMS loudness measure are functions collected in `VoiceService.Capabilities`.
- Time is passed in as `now`, or as a clock indexed by loop step.
- The audio queue is a sequence of frames. Reaching its end stands for a `queue.Empty` timeout.
- The asynchronous handoff to the handler is a plain call, because the loop blocks on its result.

The modules are:
- `Common` (common.dfy): `Option`, `Min` and `Max`.
- `FrameMath` (frame_math.dfy): Python's `int()` truncation and the `max(1, …)` frame counts.
- `Pcm` (pcm.dfy): samples, frames, and the little-endian two's-complement payload.
- `PreRoll` (pre_roll.dfy): the ring and its FIFO eviction law.
- `Recorder` (recorder.dfy): `_record_utterance` as a loop, proved against a specification function.
- `WakeWord` (wakeword.dfy): normalisation, `_target_keywords`, and the `detect` class and its spacing law.
- `VoiceService` (service.dfy): the handler, the loop step, `_run_blocking`, `start` and `stop`.

`WakeWord.Fires` splits `detect`'s decision into two parts: the cooldown test, and `Qualifies`, which holds when the predictions are a dict with a target key at the threshold. `WakeWord.Triggers` replays a run of `detect` calls, each given by its `Qualifies` value and its time. `WakeWord.TriggersStep` proves that each step of that replay is exactly `Fires` with the running last trigger time, which is what `WakeWordDetector.Detect` returns and stores. The spacing law is proved over that run.

`VoiceService.Run` replays the listening loop over a queue of frames. Each frame joins the pre-roll ring and goes to the gate. On a trigger, the recorder takes the frames that follow and the result is written and handled. The loop method `Listen` is proved to produce exactly this replay while the service runs and is not speaking.

Two behaviours of the code are worth stating plainly:
- A frame read while `_speaking` is set is dropped before `ring.append` (nanobot/voice/service.py:167-170). `VoiceService.VoiceAssistantService.ListenStep` leaves the ring and the detector unchanged in that case. In this sequential model the drop branch cannot be reached from the loop. The handler clears the flag in its `finally` (nanobot/voice/service.py:265), and the loop waits for the handler at `future.result()` (nanobot/voice/service.py:181). So a loop that starts with the flag clear never sees it set, which is what `speaking == old(speaking)` on `Listen` and `RunBlocking` records. The branch matters only when the flag is set from outside the loop, and then every frame is dropped.
- Keyword normalisation is not idempotent: a leading or trailing `_` becomes a space that only a second pass strips. `WakeWord.NormalizeNotIdempotent` exhibits `"_hey"`.
- For the same reason, a keyword with `_` at either end does not match the keyword with a space in its place: `"_hey"` normalises to `" hey"` and `" hey"` to `"hey"` (likewise `"hey_"` and `"hey "`). `WakeWord.EdgeUnderscoreDiffers` exhibits this. The case and `_`/space equivalence holds when neither keyword's core has whitespace at either end, so that an `_` at an end of one core faces an `_` in the other (`WakeWord.NormalizeEquivalent`).

## Model

| member | source | states |
|---|---|---|
| Common.Max | nanobot/voice/service.py:139 | `max(a, b)` is at least both arguments and equals one of them |
| FrameMath.TruncBounds | nanobot/voice/service.py:133 | `int()` of a float truncates toward zero: `t <= x < t + 1` for non-negative `x`, `t - 1 < x <= t` for negative `x` |
| FrameMath.TruncOfQuotient | nanobot/voice/service.py:139 | on a non-negative integer quotient, truncation is integer division |
| FrameMath.FramesFor | nanobot/voice/service.py:189-191 | a frame count `max(1, int(ms / chunk_ms))` is at least 1 |
| FrameMath.FramesForCoversDuration | nanobot/voice/service.py:189-191 | for a positive chunk, a duration of at least one chunk gets the number of whole chunks that fit (`n*chunk <= d < (n+1)*chunk`); a shorter duration gets exactly one frame |
| FrameMath.FramesForWholeMs | nanobot/voice/service.py:139 | for whole milliseconds the pre-roll count is `max(1, pre_roll_ms div chunk_ms)` |
| FrameMath.FrameSamples | nanobot/voice/service.py:133 | a zero chunk or a zero sample rate gives frames of zero samples |
| FrameMath.FrameSamplesWhole | nanobot/voice/service.py:133 | for a non-negative rate and chunk, samples per frame is `sample_rate*chunk_ms div 1000` |
| FrameMath.Layout | nanobot/voice/service.py:133-140 | the loop starts exactly when the frame length is positive; the frame length is then `FrameSamples`, at least 1, the chunk is non-zero, and the ring capacity is the pre-roll frame count, at least 1 |
| FrameMath.RecordLimits | nanobot/voice/service.py:189-191 | `max_frames`, `min_frames` and `silence_limit` are each at least 1; seconds are converted to milliseconds and then to chunk counts |
| Pcm.FlattenAppend | nanobot/voice/service.py:172-173 | concatenating frame lists concatenates their samples |
| Pcm.FlattenLength | nanobot/voice/service.py:229-230 | frames of one fixed length `n` hold `|frames|*n` samples |
| Pcm.EncodeSample | nanobot/voice/service.py:230 | one int16 sample becomes two bytes |
| Pcm.SampleRoundTrip | nanobot/voice/service.py:273 | decoding an encoded sample gives it back, and encoding a decoded byte pair gives the pair back |
| Pcm.EncodeSamples | nanobot/voice/service.py:230 | `tobytes()` of `n` samples is `2n` bytes |
| Pcm.DecodeWords | nanobot/voice/service.py:273 | `frombuffer(int16)` of an even-length payload gives half as many samples |
| Pcm.WordsRoundTrip | nanobot/voice/service.py:272-273 | reading back the bytes of a sample sequence gives the same samples |
| Pcm.BytesRoundTrip | nanobot/voice/service.py:272-273 | re-encoding a decoded even-length payload gives the same bytes |
| Pcm.EncodeSamplesAppend | nanobot/voice/service.py:229-230 | encoding distributes over concatenation |
| Pcm.EncodeFramesIsFlatten | nanobot/voice/service.py:229-230 | writing frame by frame gives the encoding of all samples concatenated in order |
| Pcm.WriteWav | nanobot/voice/service.py:218-231 | no file for an empty frame list; otherwise 1 channel, 2-byte samples, the given rate, and a payload that is the little-endian encoding of the frames' samples in order, two bytes per sample |
| Pcm.Reshape | nanobot/voice/service.py:274 | `reshape(-1, channels)` succeeds exactly when the channel count is positive and divides the sample count |
| Pcm.Rows | nanobot/voice/service.py:274 | every row has `channels` samples, and the rows read in order give back the samples |
| Pcm.PlaybackData | nanobot/voice/service.py:271-275 | playback gets the file's rate and rows whose samples are the decoded payload |
| Pcm.WavRoundTrip | nanobot/voice/service.py:271-274 | a written utterance plays back at its rate as one-sample rows equal to its samples in order |
| Pcm.OneChannelRows | nanobot/voice/service.py:274 | one-channel rows are the samples one by one |
| PreRoll.LastN | nanobot/voice/service.py:139-140 | keeping the newest `n` items leaves `min(n, |s|)` of them |
| PreRoll.LastNOfExtended | nanobot/voice/service.py:140 | trimming to the newest `n` and then extending and trimming again is the same as trimming the whole history once |
| PreRoll.DequeAppend | nanobot/voice/service.py:170 | an append never lets the ring exceed its capacity |
| PreRoll.DequeAppendIsLastN | nanobot/voice/service.py:170 | one append keeps the newest `capacity` frames |
| PreRoll.AppendAllIsLastN | nanobot/voice/service.py:139-140 | the FIFO eviction law: any run of appends leaves the newest `capacity` frames, oldest first |
| PreRoll.RingBelowCapacity | nanobot/voice/service.py:140 | fewer appends than the capacity are all kept, in order |
| PreRoll.NewestIsLastAppended | nanobot/voice/service.py:170 | after an append to a ring of capacity at least 1, the newest frame is the one just appended |
| PreRoll.PreRollRing.constructor | nanobot/voice/service.py:140 | a new ring is empty, with the given capacity |
| PreRoll.PreRollRing.Append | nanobot/voice/service.py:170 | `ring.append` leaves the newest `capacity` frames of the old contents plus the new frame; that frame is last |
| Recorder.TrailingQuiet | nanobot/voice/service.py:202-206 | the silence counter never exceeds the number of frames recorded |
| Recorder.TrailingQuietIsRun | nanobot/voice/service.py:202-206 | the frames the silence counter counts are the quiet frames ending the recording, and the frame before them, if any, is loud |
| Recorder.StopAfterFacts | nanobot/voice/service.py:196-208 | from `k` frames taken, the recorder stops within the bound and the queue, at the first endpoint it reaches |
| Recorder.EndpointCharacterization | nanobot/voice/service.py:196-208 | the recording fits the queue and `max_frames`; it is non-empty for a non-empty queue; stopping early means at least `min_frames` and `silence_limit` frames, the last `silence_limit` quiet; no shorter prefix met the stop condition |
| Recorder.EndpointUnique | nanobot/voice/service.py:196-208 | those conditions determine the recording length |
| Recorder.AllLoudRunsToBound | nanobot/voice/service.py:196-208 | with no quiet frame, the recorder returns `min(max_frames, queue length)` frames |
| Recorder.LoudThenSilence | nanobot/voice/service.py:203-208 | loud frames followed by `silence_limit` quiet ones stop the recording right after the last quiet one, when that is within the bounds |
| Recorder.TrailingQuietOfRun | nanobot/voice/service.py:203-206 | after a loud prefix, the counter equals the number of quiet frames since |
| Recorder.RecordStep | nanobot/voice/service.py:201-208 | one more frame adds one to the counter if it is quiet and resets it otherwise, and the recorder stops after it exactly when the stop condition holds |
| Recorder.RecordFrames | nanobot/voice/service.py:193-209 | the loop takes a prefix of the queue and leaves exactly the rest, at most `max_frames` frames, of the length the endpoint specification gives; its invariant keeps the counter equal to the trailing quiet run |
| Recorder.RecordUtterance | nanobot/voice/service.py:187-209 | `_record_utterance` with its limits from the configuration: the recording is a prefix of the queue, the rest is the remaining suffix, at most `max_frames` long, of the endpoint length |
| WakeWord.Lower | nanobot/voice/wakeword.py:33 | lower-casing leaves no ASCII capital and keeps whitespace |
| WakeWord.StripLeft | nanobot/voice/wakeword.py:33 | the result starts with a non-space and only spaces were removed |
| WakeWord.StripRight | nanobot/voice/wakeword.py:33 | the result ends with a non-space and only spaces were removed |
| WakeWord.StripLeftIsSuffix | nanobot/voice/wakeword.py:33 | left stripping keeps a suffix of the input |
| WakeWord.StripRightIsPrefix | nanobot/voice/wakeword.py:33 | right stripping keeps a prefix of the input |
| WakeWord.StripTrimmed | nanobot/voice/wakeword.py:33 | a string without whitespace at either end is its own strip |
| WakeWord.FoldAll | nanobot/voice/wakeword.py:33 | `lower()` and `_` to space act character by character and keep the length |
| WakeWord.FoldAllGives | nanobot/voice/wakeword.py:33 | folding gives a string when it gives each of its characters in place |
| WakeWord.NormalizeKeyword | nanobot/voice/wakeword.py:32-33 | the result has the stripped input's length, no `_` and no ASCII capital |
| WakeWord.FoldCharIdentifies | nanobot/voice/wakeword.py:33 | two characters fold to the same one exactly when they differ only in ASCII case or `_` versus space |
| WakeWord.StripLeftSpaces | nanobot/voice/wakeword.py:33 | leading whitespace is stripped away |
| WakeWord.StripRightSpaces | nanobot/voice/wakeword.py:33 | trailing whitespace is stripped away |
| WakeWord.StripLeftAppend | nanobot/voice/wakeword.py:33 | appending to a string with a non-space does not change where left stripping stops |
| WakeWord.NormalizeIgnoresSurroundingSpace | nanobot/voice/wakeword.py:32-33 | whitespace around a keyword does not change its normal form |
| WakeWord.NormalizeEquivalent | nanobot/voice/wakeword.py:32-33 | two keywords normalise equal when each is surrounding whitespace around a core with no whitespace at either end, and the cores differ only in ASCII case and `_` versus space at the same positions |
| WakeWord.EdgeUnderscoreDiffers | nanobot/voice/wakeword.py:33 | without that condition on the cores the equivalence fails: `"_hey"` and `" hey"` differ only in `_` versus space at position 0, yet normalise to `" hey"` and `"hey"` |
| WakeWord.HeyNanoExample | nanobot/voice/wakeword.py:32-33 | `"Hey_Nano "` and `"hey nano"` both normalise to `"hey nano"` |
| WakeWord.HeyNanoFolds | nanobot/voice/wakeword.py:33 | lower-casing and replacing `_` turns `"Hey_Nano"` and `"hey nano"` into `"hey nano"` |
| WakeWord.NormalizeNotIdempotent | nanobot/voice/wakeword.py:33 | `"_hey"` normalises to `" hey"`, which normalises to `"hey"` |
| WakeWord.NormalizedKeys | nanobot/voice/wakeword.py:56 | one normalised name per prediction |
| WakeWord.LastIndexOf | nanobot/voice/wakeword.py:56-57 | the last position holding the name, or none when the name is absent |
| WakeWord.TargetKeywords | nanobot/voice/wakeword.py:52-59 | empty predictions give no keys, and never more keys than predictions |
| WakeWord.TargetKeywordsSelection | nanobot/voice/wakeword.py:55-59 | every key returned is a predicted key; when some key normalises to the normalised wake word, exactly one key is returned, the last key that matches (the one the dict comprehension keeps); otherwise all keys in order |
| WakeWord.ScoreOfKey | nanobot/voice/wakeword.py:72 | looking up a key of the predictions gives that key's score |
| WakeWord.AnyQualifiesIff | nanobot/voice/wakeword.py:71-73 | the scan over the target keys succeeds exactly when some target key's score reaches the threshold |
| WakeWord.FiresOnScores | nanobot/voice/wakeword.py:61-77 | outside the cooldown, the gate fires on the score of the last matching key when the wake word matches, and on any score otherwise |
| WakeWord.WakeWordDetector.constructor | nanobot/voice/wakeword.py:47-50 | a new detector has `last_trigger` 0 |
| WakeWord.WakeWordDetector.Detect | nanobot/voice/wakeword.py:61-77 | fires exactly when the predictions are a dict, the cooldown has passed and some target key reaches the threshold; `last_trigger` becomes `now` on a trigger and is unchanged otherwise |
| WakeWord.Triggers | nanobot/voice/wakeword.py:68-77 | one result per `detect` call, each call given by whether its predictions qualify and its time |
| WakeWord.TriggerAfterLast | nanobot/voice/wakeword.py:68-75 | with a non-negative cooldown, every trigger is at least a cooldown after the starting trigger time |
| WakeWord.TriggersStep | nanobot/voice/wakeword.py:61-77 | each step of the replay fires exactly when `Fires` holds for the running last trigger time, and the next step starts from `now` after a trigger and from the old time otherwise |
| WakeWord.CooldownSpacing | nanobot/voice/wakeword.py:68-75 | with a non-negative cooldown, any two triggers are at least a cooldown apart |
| VoiceService.HandlerTrace | nanobot/voice/service.py:236-240 | every turn starts by transcribing the written utterance |
| VoiceService.FlagAfterAppend | nanobot/voice/service.py:256-265 | the flag after two event runs is the flag after the second, started from the flag after the first |
| VoiceService.FlagAfterNoSet | nanobot/voice/service.py:241-254 | a run that never sets the flag leaves it as it was |
| VoiceService.HandlerFlag | nanobot/voice/service.py:256-265 | the handler leaves the flag cleared on every path that set it, including failed speech synthesis, and untouched on the early returns |
| VoiceService.HandlerAsksAgent | nanobot/voice/service.py:241-251 | the agent is called exactly when the transcript is non-empty |
| VoiceService.HandlerSetsFlag | nanobot/voice/service.py:241-256 | the flag is set exactly when the transcript and the reply are both non-empty, and only after that reply |
| VoiceService.HandlerPlaysWhileSpeaking | nanobot/voice/service.py:256-265 | playback happens only while the flag is set |
| VoiceService.SpacingExtends | nanobot/voice/wakeword.py:68-75 | with a non-negative cooldown, a trigger at least a cooldown after the latest keeps every pair of triggers a cooldown apart |
| VoiceService.VoiceAssistantService.constructor | nanobot/voice/service.py:46-47 | a new service is neither running nor speaking |
| VoiceService.VoiceAssistantService.Stop | nanobot/voice/service.py:108-110 | `stop` clears the running flag |
| VoiceService.VoiceAssistantService.HandleUtterance | nanobot/voice/service.py:236-265 | runs the handler's steps in order; afterwards the flag is cleared if the handler spoke, and unchanged otherwise |
| VoiceService.VoiceAssistantService.CaptureAndHandle | nanobot/voice/service.py:172-183 | on a trigger: the utterance is the pre-roll snapshot followed by the recorder's frames, the rest of the queue is what the recorder left, the WAV is written, and the handler runs when writing succeeded |
| VoiceService.VoiceAssistantService.ListenStep | nanobot/voice/service.py:161-183 | an empty queue is a timeout that changes nothing. While speaking, the frame is dropped: ring and `last_trigger` unchanged, no recording. Otherwise the ring keeps its newest frames with the new frame last, the detector decides, and a trigger records `ring + q[1..1+n]` for the endpoint length `n` and hands it on |
| VoiceService.RunUnfolds | nanobot/voice/service.py:161-183 | one pass of the loop that listened or triggered splits the replay `Run` into that pass's trigger, if any, followed by the replay of the rest of the queue from the new ring and trigger time |
| VoiceService.VoiceAssistantService.Listen | nanobot/voice/service.py:161-183 | while running and not speaking, the triggers are exactly the replay `Run` of the queue from the ring and trigger time the loop started with, and the whole queue is consumed. Every trigger records a non-empty utterance whose file is written and handled. Nothing triggers if the service was speaking or not running. The speaking flag ends as it started. With a non-negative cooldown, triggers are a cooldown apart |
| VoiceService.VoiceAssistantService.RunBlocking | nanobot/voice/service.py:132-185 | a run is a configuration error exactly when the frame length is not positive. Otherwise the loop starts with an empty ring of the pre-roll capacity and a detector that has never fired. While running and not speaking, its triggers are exactly the replay `Run` of the queue, each handled. Nothing triggers if the service was speaking or not running. The speaking flag ends as it started. With a non-negative cooldown, triggers are a cooldown apart |
| VoiceService.VoiceAssistantService.Start | nanobot/voice/service.py:95-106 | a second `start` does nothing. Otherwise the loop runs with the flag set, so it consumes the whole queue, and the flag is cleared when it ends. The run's result is a configuration error exactly when the frame length is not positive; otherwise its triggers are the replay `Run` of the queue (none if the service was speaking), each handled, and a cooldown apart when the cooldown is non-negative |

## Left out

- nanobot/voice/openai_audio.py is not part of this model. Transcription is a function to a string, with "" for a failed request. Speech synthesis is a function to success or failure.
- `_rms` (nanobot/voice/service.py:211-216) is a loudness function parameter. numpy's float32 square root and mean are floating point, so only the `<` comparison with the threshold is modelled.
- Audio devices are not modelled: the `sounddevice` input stream, its callback, `sd.play`/`sd.wait`, and the `Audio stream error` path. The queue is a sequence, and the `queue.get` timeouts are its end.
- Threads and the event loop are not modelled. `asyncio.to_thread` and `run_coroutine_threadsafe` become direct calls. The `self._loop` test at nanobot/voice/service.py:175 always holds, because the loop is reached only through `start`.
- Exceptions raised by transcription, the agent or speech synthesis are not modelled. Neither is the logged `Voice handler error`. The `finally` that clears the speaking flag is modelled as the only exit after the flag is set.
- `_import_deps` and detector construction failures (missing packages or a model that cannot load) are not modelled. Neither is `_play_wav`'s early return when the audio packages are missing.
- Model loading and `model.predict` are not modelled. Predictions are a given value per frame, and calling predict even during the cooldown has no modelled effect.
- The clock, file names, `mkdir`, write failures in `_write_wav`, and the RIFF header bytes are not modelled. A written file is its channel count, sample width, rate and payload.
- The constructor's configuration reading and the OpenAI API-key fallback (nanobot/voice/service.py:43-93) are not modelled. The service takes its runtime and wake-word configurations directly.
- WakeWord.NormalizeKeyword: handles ASCII only. `strip` removes ASCII whitespace (space, tab through carriage return, and 0x1C-0x1F), and `lower` folds A-Z. Unicode whitespace and case folding are not modelled.
- FrameMath.FramesFor: durations are exact reals. The binary floating-point rounding of `max_record_seconds * 1000 / chunk_ms` is not modelled.
- WakeWord.CooldownSpacing: the spacing law holds only for a non-negative cooldown. With a negative cooldown, triggers need not be that far apart: with cooldown -1, triggers at 0, -1 and -2 are each allowed, yet the first and last are 2 apart in the wrong direction.
- VoiceService.VoiceAssistantService.RunBlocking: the clock is any function of the loop step, as in `Listen` and `Run`, and the spacing promise inherits the non-negative-cooldown condition above. The loop ends when the queue runs out, which stands for a later `stop()`.
