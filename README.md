# ESP32-S3 voice assistant core, modelled in Dafny

This project models the sequential logic of four C files of the
ESP-32-S3-3-OPENAI firmware:

- `app_sr.c`, the speech-recognition front end:
  - the session record `g_sr_data` and its start, stop, set-language,
    get-result and start-once entry points;
  - the result queue of length 3, into which every send uses a zero timeout;
  - the feed task, which reads two-channel I2S frames and widens them in
    place to the three-channel layout the audio front end expects;
  - the detection task, a wake/command state machine driven by what the
    front end and the command recogniser report;
  - the teardown check at the top of both task loops.
- `gemini.c`, `gemini_init`: it trims the API key and replaces the
  stored copy.
- `app_tts.c`, the PicoTTS wrapper:
  - the sample callback, which duplicates up to 512 mono samples into a
    static stereo buffer;
  - the playing flag and done bit shared by speak, the engine callbacks,
    wait and is-playing.
- `wit.c`, the Wit.ai client:
  - the stored token;
  - the response collector that the HTTP event handler appends to, and
    the live-transcript callback;
  - the start/feed/stop state machine of the streaming client;
  - the scan that picks the final result out of the streamed JSON
    objects;
  - the input guards of the two one-shot queries.

Modules:

| module | file | contents |
|---|---|---|
| `Esp` | `esp.dfy` | error codes, an option type for nullable pointers, `int16`, C strings |
| `SrTypes` | `sr_types.dfy` | the esp-sr enumerations and the queued event record |
| `ResultQueue` | `result_queue.dfy` | the bounded FIFO |
| `DetectSpec` | `sr_detect.dfy` | a reference definition of one detection iteration, as a function, and its properties |
| `ChannelRemap` | `channel_remap.dfy` | the in-place widening and the frames the feed loop produces |
| `AppSr` | `app_sr.dfy` | the session class, whose task methods are proved against `DetectSpec` and `ChannelRemap` |
| `Gemini` | `gemini.dfy` | `gemini_init` |
| `AppTts` | `app_tts.dfy` | the TTS wrapper |
| `Wit` | `wit.dfy` | the Wit client |

How the model handles the outside world:

- The esp-sr engines, the I2S driver, the HTTP client and cJSON are
  outside the model.
- What they return becomes a parameter:
  - a fetch result, a recogniser verdict, a read capture;
  - the outcome of an HTTP exchange;
  - a `Parser` function standing for `cJSON_Parse`.
- A FreeRTOS task loop becomes a method that runs over a sequence of
  passes. Each pass carries the event-group bit the loop sees and the
  input it consumes.

Behaviours the code has that a reader might not expect are reproduced
rather than corrected. The contracts state them outright:

- `app_sr_start` returns only when every step succeeds, or when the
  session record cannot be allocated. Every later failure jumps to `err`,
  whose `app_sr_stop` never returns:
  - without a queue or an event group, setting a bit on the NULL event
    group trips the FreeRTOS assertion;
  - otherwise it waits forever for the handler task's acknowledgement,
    and that task was never created.
- `app_sr_set_language` destroys `model_data` without clearing the
  pointer, so a second change of language or `app_sr_stop` destroys it
  again.
- The statics `frame_keep` and `local_state` survive from one session to
  the next.
- A failed I2S read re-widens the previous frame. It does not re-feed the
  previous frame unchanged.
- `gemini_init` never strips the first character of the copy.
- The streamed results are chosen field by field.

Array bounds are checked by Dafny itself. So every index the remap loop,
the stereo loop and the collector append touch is proved to lie within its
buffer: `3 * chunk` samples, 1024 samples, and `size + len + 1` characters.

## Model

| member | source | states |
|---|---|---|
| `ResultQueue.Sent` | ESP-32-S3-3-OPENAI/main/app/app_sr.c:122 | a zero-timeout send appends the event exactly when fewer than 3 are queued, keeps the earlier events in place, and otherwise leaves the queue as it was |
| `ResultQueue.ResultQueue.constructor` | ESP-32-S3-3-OPENAI/main/app/app_sr.c:235 | a new queue is empty and bounded by 3 |
| `ResultQueue.ResultQueue.Send` | ESP-32-S3-3-OPENAI/main/app/app_sr.c:122 | reports that the event was queued iff the queue was not full; the new contents are `Sent` of the old |
| `ResultQueue.ResultQueue.Receive` | ESP-32-S3-3-OPENAI/main/app/app_sr.c:368 | a non-empty queue hands out its oldest event and keeps the rest in order; an empty one leaves the caller's buffer untouched |
| `DetectSpec.Inc8` | ESP-32-S3-3-OPENAI/main/app/app_sr.c:186 | `frame_keep++` on `uint8_t` adds one below 255 and wraps 255 to 0 |
| `DetectSpec.ApplySends` | ESP-32-S3-3-OPENAI/main/app/app_sr.c:235 | the queue never holds more than 3 events, whatever is sent |
| `DetectSpec.WakePart` | ESP-32-S3-3-OPENAI/main/app/app_sr.c:115-137 | reference definition of the wake part: WAKENET_DETECTED queues a wake event; a verified channel or a pending manual trigger enters command mode (see the lemmas below) |
| `DetectSpec.TrackVad` | ESP-32-S3-3-OPENAI/main/app/app_sr.c:182-187 | reference definition of the VAD bookkeeping: a change of VAD state is stored and zeroes the counter, otherwise the counter advances with 8-bit wrap |
| `DetectSpec.CommandPart` | ESP-32-S3-3-OPENAI/main/app/app_sr.c:139-201 | reference definition of the command part: the NULL-recogniser exit, the two verdicts, and the 100-silent-frame timeout, each ending with re-enabling wake detection |
| `DetectSpec.Step` | ESP-32-S3-3-OPENAI/main/app/app_sr.c:111-201 | reference definition of one iteration: skipped fetches do nothing, otherwise the wake part and, in command mode, the command part on the same frame |
| `DetectSpec.Run` | ESP-32-S3-3-OPENAI/main/app/app_sr.c:99-201 | reference definition of a sequence of iterations, threading the state and concatenating the actions |
| `DetectSpec.SkippedFetchChangesNothing` | ESP-32-S3-3-OPENAI/main/app/app_sr.c:111-114 | a NULL fetch result or one marked ESP_FAIL yields no action and no state change |
| `DetectSpec.WakeDetectedOnlyEmitsWakeEvent` | ESP-32-S3-3-OPENAI/main/app/app_sr.c:115-122 | WAKENET_DETECTED queues one `{WAKENET_DETECTED, DETECTING, 0}` first, never disables wake detection, keeps the manual flag; outside command mode that event is all the iteration does |
| `DetectSpec.EntersCommandMode` | ESP-32-S3-3-OPENAI/main/app/app_sr.c:123-137 | a verified channel or a pending manual trigger sets `detect_flag`, zeroes `frame_keep`, clears the manual flag, emits exactly one synthetic wake event iff the flag was pending, disables wake detection, then runs the command part on the same frame |
| `DetectSpec.ManualFlagIgnoredOnWakeDetected` | ESP-32-S3-3-OPENAI/main/app/app_sr.c:115-125 | on a WAKENET_DETECTED frame outside command mode the manual flag, set or not, is left as it is |
| `DetectSpec.MissingRecognizerFailsSoft` | ESP-32-S3-3-OPENAI/main/app/app_sr.c:140-145 | in command mode with `multinet` or `model_data` NULL the loop leaves command mode and re-enables wake detection with no event |
| `DetectSpec.VerdictEndsCommandMode` | ESP-32-S3-3-OPENAI/main/app/app_sr.c:148-174 | DETECTED queues `{NO_DETECT, DETECTED, command_id[0]}`, TIMEOUT queues `{NO_DETECT, TIMEOUT, 0}`; the send precedes `enable_wakenet` and command mode ends |
| `DetectSpec.SilenceCounter` | ESP-32-S3-3-OPENAI/main/app/app_sr.c:182-200 | a VAD change stores the state and zeroes the counter, otherwise the 8-bit counter advances; a timeout plus re-enable happens iff the counter is exactly 100 on a silent frame, and otherwise command mode continues |
| `DetectSpec.EnableIsLast` | ESP-32-S3-3-OPENAI/main/app/app_sr.c:139-201 | re-enabling wake detection is always the last action of an iteration |
| `DetectSpec.SilenceRun` | ESP-32-S3-3-OPENAI/main/app/app_sr.c:182-200 | starting from silence with the counter at 0, n silent frames up to 99 queue nothing and leave the counter at n; the 100th queues one timeout and re-enables wake detection |
| `DetectSpec.FlipAtHundredResets` | ESP-32-S3-3-OPENAI/main/app/app_sr.c:182-189 | speech on the frame that would have been the 100th silent one restarts the counter and queues nothing |
| `DetectSpec.FullQueueDropsEverything` | ESP-32-S3-3-OPENAI/main/app/app_sr.c:122 | any sends into a full queue leave it unchanged |
| `DetectSpec.Capped` | ESP-32-S3-3-OPENAI/main/app/app_sr.c:235 | the events that fit: a prefix of at most 3, all of them when fewer than 3 |
| `DetectSpec.SendsKeepOrder` | ESP-32-S3-3-OPENAI/main/app/app_sr.c:235 | the queue after any actions is the first 3 of the old contents followed by the events sent, in order |
| `AppSr.StartOutcome` | ESP-32-S3-3-OPENAI/main/app/app_sr.c:227-321 | reference definition of how start ends without a session: NO_MEM when the record cannot be allocated, the assertion when the queue or the event group is missing, a wait that never ends after any later failure, ESP_OK when every step succeeds |
| `AppSr.StartReturnsOnlyAtEnds` | ESP-32-S3-3-OPENAI/main/app/app_sr.c:227-321 | start returns at all iff every step succeeded or the allocation of the record failed, and returns ESP_OK iff every step succeeded |
| `AppSr.StopOutcome` | ESP-32-S3-3-OPENAI/main/app/app_sr.c:323-327 | reference definition of how stop ends for an existing record: the assertion without an event group, a wait that never ends unless the feed, detection and handler tasks all exist, ESP_OK otherwise |
| `AppSr.Teardown` | ESP-32-S3-3-OPENAI/main/app/app_sr.c:329-361 | stop always frees the record last |
| `AppSr.TeardownOrder` | ESP-32-S3-3-OPENAI/main/app/app_sr.c:329-350 | stopping a complete session deletes the queue, then the event group, destroys the model in whatever state set-language left it, and only then the front end |
| `AppSr.CompleteSessionIsReady` | ESP-32-S3-3-OPENAI/main/app/app_sr.c:140 | a complete session passes the recogniser NULL test, even after set-language destroyed its model |
| `AppSr.PassesBeforeTeardown` | ESP-32-S3-3-OPENAI/main/app/app_sr.c:105-110 | the passes a task loop completes: none of them sees a bit, and the next one, if any, does |
| `AppSr.PassesBeforeTeardownIs` | ESP-32-S3-3-OPENAI/main/app/app_sr.c:61-65 | conversely, any count with that property is the pass count |
| `AppSr.SrApp.constructor` | ESP-32-S3-3-OPENAI/main/app/app_sr.c:38-40 | no session, no manual trigger, statics zero (silence, counter 0) |
| `AppSr.SrApp.SetLanguage` | ESP-32-S3-3-OPENAI/main/app/app_sr.c:207-225 | INVALID_STATE without a session; ESP_OK and no change for the current language; otherwise the language changes, and a non-NULL model is destroyed (reported in `released`, again if it was already destroyed) and left non-NULL |
| `AppSr.SrApp.Start` | ESP-32-S3-3-OPENAI/main/app/app_sr.c:227-321 | INVALID_STATE while a session exists; otherwise ends as `StartOutcome` of the step outcomes; NO_MEM leaves no record; ESP_OK leaves a complete English session with a live model and a fresh empty queue; a call that never returns leaves the partial record, without a handler task, whose stop never returns in the same way |
| `AppSr.SrApp.Rollback` | ESP-32-S3-3-OPENAI/main/app/app_sr.c:318-320 | the `err` label calls stop on a record without a handler task; stop never returns, the assertion without an event group and the endless wait otherwise, and the record stays |
| `AppSr.SrApp.Stop` | ESP-32-S3-3-OPENAI/main/app/app_sr.c:323-363 | INVALID_STATE without a session; otherwise ends as `StopOutcome` of the record; when it returns, the releases are those of `Teardown` in order and no session is left; when it does not, nothing is released; on a complete session it always returns ESP_OK |
| `AppSr.SrApp.GetResult` | ESP-32-S3-3-OPENAI/main/app/app_sr.c:365-370 | INVALID_STATE without a session; otherwise ESP_OK whether or not an event was taken; an event taken is the oldest |
| `AppSr.SrApp.StartOnce` | ESP-32-S3-3-OPENAI/main/app/app_sr.c:372-377 | INVALID_STATE without a session; otherwise ESP_OK with the manual flag set |
| `AppSr.SrApp.DetectIteration` | ESP-32-S3-3-OPENAI/main/app/app_sr.c:111-201 | the new flag, statics and actions are those of `DetectSpec.Step`, and the queue receives exactly the sends among the actions |
| `AppSr.SrApp.WakeIteration` | ESP-32-S3-3-OPENAI/main/app/app_sr.c:115-137 | state and actions agree with `DetectSpec.WakePart`, and the queue receives its sends |
| `AppSr.SrApp.CommandIteration` | ESP-32-S3-3-OPENAI/main/app/app_sr.c:139-201 | state and actions agree with `DetectSpec.CommandPart`, and the queue receives its sends |
| `AppSr.SrApp.DetectTask` | ESP-32-S3-3-OPENAI/main/app/app_sr.c:99-111 | runs exactly the passes before the first set bit, ends by teardown iff one was seen, and leaves the state and queue of `DetectSpec.Run` over those frames |
| `AppSr.SrApp.FeedTask` | ESP-32-S3-3-OPENAI/main/app/app_sr.c:56-65 | records the buffer in the session, runs exactly the passes before the first set bit, and feeds `ChannelRemap.FedFrames` from the uninitialised buffer |
| `AppSr.FeedLoop` | ESP-32-S3-3-OPENAI/main/app/app_sr.c:61-94 | ends by teardown iff a bit was seen; the frames fed are those of `ChannelRemap.FedFrames` for the passes before it |
| `AppSr.FeedNext` | ESP-32-S3-3-OPENAI/main/app/app_sr.c:67-78 | one pass moves the buffer from `BufferAfter` i passes to i + 1 and feeds the new buffer |
| `AppSr.FeedPassInPlace` | ESP-32-S3-3-OPENAI/main/app/app_sr.c:68-75 | the buffer after a read and the widening is `ChannelRemap.FeedOnce` of the buffer before |
| `AppSr.Read` | ESP-32-S3-3-OPENAI/main/app/app_sr.c:68 | the captured samples overwrite the front of the buffer; the rest is kept |
| `ChannelRemap.Widen` | ESP-32-S3-3-OPENAI/main/app/app_sr.c:71-75 | widening `frames` two-channel frames yields `3 * frames` samples |
| `ChannelRemap.WidenFrame` | ESP-32-S3-3-OPENAI/main/app/app_sr.c:71-75 | frame i of the widened stream is `two[2i], two[2i+1], 0` |
| `ChannelRemap.WidenFromFrames` | ESP-32-S3-3-OPENAI/main/app/app_sr.c:71-75 | conversely, a stream whose every frame is so is the widened stream |
| `ChannelRemap.RemapStep` | ESP-32-S3-3-OPENAI/main/app/app_sr.c:72-74 | writing frame i reads only samples below frame i + 1, which no earlier pass has written, so all frames from i upwards are widened |
| `ChannelRemap.RemapInPlace` | ESP-32-S3-3-OPENAI/main/app/app_sr.c:71-75 | the whole `3 * chunk` buffer becomes the widening of its old first `2 * chunk` samples |
| `ChannelRemap.AfterRead` | ESP-32-S3-3-OPENAI/main/app/app_sr.c:68 | a read keeps the buffer length |
| `ChannelRemap.FeedOnce` | ESP-32-S3-3-OPENAI/main/app/app_sr.c:68-78 | a fed frame has `3 * chunk` samples |
| `ChannelRemap.BufferAfter` | ESP-32-S3-3-OPENAI/main/app/app_sr.c:61-78 | the buffer keeps `3 * chunk` samples across passes |
| `ChannelRemap.FedFrames` | ESP-32-S3-3-OPENAI/main/app/app_sr.c:61-78 | n passes feed n frames of `3 * chunk` samples |
| `ChannelRemap.FreshReadFrame` | ESP-32-S3-3-OPENAI/main/app/app_sr.c:68-75 | after a successful read, frame i fed is the two captured samples of frame i and a zero |
| `ChannelRemap.FreshReadForgetsHistory` | ESP-32-S3-3-OPENAI/main/app/app_sr.c:68-75 | after a successful read the buffer no longer depends on its earlier contents or captures |
| `ChannelRemap.FailedReadRewidens` | ESP-32-S3-3-OPENAI/main/app/app_sr.c:68-75 | after a failed read the buffer is the widening of the front of the previous three-channel frame |
| `ChannelRemap.FailedReadExample` | ESP-32-S3-3-OPENAI/main/app/app_sr.c:68-75 | `[1,2,0,3,4,0]` followed by a failed read is fed as `[1,2,0,0,3,0]` |
| `Gemini.Trimmed` | ESP-32-S3-3-OPENAI/main/app/gemini.c:14-29 | reference definition of the stored key: the input after its leading spaces, cut to `KeptLength` (its properties are the lemmas below) |
| `Gemini.LeadingSpaces` | ESP-32-S3-3-OPENAI/main/app/gemini.c:18-19 | the first loop steps over spaces only and stops at the first other character |
| `Gemini.KeptLength` | ESP-32-S3-3-OPENAI/main/app/gemini.c:21-25 | the second loop strips only spaces, line feeds and carriage returns at the end, never the first character, and stops at a character it does not strip |
| `Gemini.TrimmedSlice` | ESP-32-S3-3-OPENAI/main/app/gemini.c:18-25 | the stored key is the contiguous piece after the leading spaces, and everything after it is trailing junk |
| `Gemini.TrimmedEnds` | ESP-32-S3-3-OPENAI/main/app/gemini.c:18-25 | the stored key does not start with a space, does not end in junk unless it is one character long, and is empty iff the input is all spaces |
| `Gemini.LeadingControlKept` | ESP-32-S3-3-OPENAI/main/app/gemini.c:19 | a leading tab, line feed or carriage return is kept |
| `Gemini.LoneNewlineSurvives` | ESP-32-S3-3-OPENAI/main/app/gemini.c:21-22 | `" \n \r"` is stored as `"\n"`; `"   "` is stored as the empty string |
| `Gemini.TrimmedIdempotent` | ESP-32-S3-3-OPENAI/main/app/gemini.c:18-25 | trimming a stored key leaves it unchanged |
| `Gemini.GeminiClient.constructor` | ESP-32-S3-3-OPENAI/main/app/gemini.c:12 | no key stored |
| `Gemini.GeminiClient.Init` | ESP-32-S3-3-OPENAI/main/app/gemini.c:14-29 | always ESP_OK; the stored key is replaced by a fresh copy that reads back as `Trimmed(key)`, is as long as the key after its leading spaces plus a NUL, and holds only NULs after the key |
| `Gemini.StoredKey` | ESP-32-S3-3-OPENAI/main/app/gemini.c:20-26 | the copy left by the second loop reads back as the trimmed key |
| `Gemini.Strdup` | ESP-32-S3-3-OPENAI/main/app/gemini.c:20 | a fresh copy of the rest of the key with its NUL |
| `Gemini.SkipSpaces` | ESP-32-S3-3-OPENAI/main/app/gemini.c:18-19 | the pointer walk stops after exactly `LeadingSpaces(key)` characters |
| `Gemini.StripTrailing` | ESP-32-S3-3-OPENAI/main/app/gemini.c:21-25 | keeps `KeptLength` of the copy unchanged, NULs everything from there to the terminator, and touches nothing beyond it |
| `Gemini.KeptWhole` | ESP-32-S3-3-OPENAI/main/app/gemini.c:22 | a copy of at most one character, or one not ending in junk, is kept whole |
| `AppTts.Clamped` | ESP-32-S3-3-OPENAI/main/app/app_tts.c:37 | the samples written are `min(count, 512)` |
| `AppTts.Stereo` | ESP-32-S3-3-OPENAI/main/app/app_tts.c:39-42 | the stereo stream has two samples per mono sample |
| `AppTts.StereoFrameAt` | ESP-32-S3-3-OPENAI/main/app/app_tts.c:40-41 | stereo samples 2i and 2i+1 are both mono sample i |
| `AppTts.StereoChannels` | ESP-32-S3-3-OPENAI/main/app/app_tts.c:39-42 | the left and the right channel of the stereo stream are each the mono input |
| `AppTts.StereoFromPairs` | ESP-32-S3-3-OPENAI/main/app/app_tts.c:39-42 | conversely, a stream whose every pair is the matching sample twice is the stereo stream |
| `AppTts.DuplicateStep` | ESP-32-S3-3-OPENAI/main/app/app_tts.c:40-41 | one pass writes pair i and leaves the rest of the buffer as it was |
| `AppTts.Duplicate` | ESP-32-S3-3-OPENAI/main/app/app_tts.c:39-42 | the first 2n buffer samples become the stereo stream of the first n mono samples; the rest is unchanged |
| `AppTts.SpeakWaitProtocol` | ESP-32-S3-3-OPENAI/main/app/app_tts.c:48-131 | over the player's own methods: after speak a wait times out; after the end-of-speech callback one wait succeeds and the next times out, with nothing playing |
| `AppTts.TtsPlayer.constructor` | ESP-32-S3-3-OPENAI/main/app/app_tts.c:22-24 | not playing, done bit clear, no cached speaker handle |
| `AppTts.TtsPlayer.SampleCallback` | ESP-32-S3-3-OPENAI/main/app/app_tts.c:28-46 | the handle is looked up only while none is cached; a write happens iff a handle exists and count > 0; it writes `Stereo` of the first `min(count, 512)` samples with `n * 2 * 2` bytes, and the rest of the static buffer is unchanged |
| `AppTts.TtsPlayer.Speak` | ESP-32-S3-3-OPENAI/main/app/app_tts.c:95-112 | NULL text gives INVALID_ARG with no change; otherwise ESP_OK, playing, done bit cleared |
| `AppTts.TtsPlayer.DoneCallback` | ESP-32-S3-3-OPENAI/main/app/app_tts.c:48-58 | not playing, done bit set |
| `AppTts.TtsPlayer.ErrorCallback` | ESP-32-S3-3-OPENAI/main/app/app_tts.c:60-65 | not playing, done bit set |
| `AppTts.TtsPlayer.WaitDone` | ESP-32-S3-3-OPENAI/main/app/app_tts.c:127-131 | ESP_OK iff the done bit is seen, else TIMEOUT; the bit is cleared |
| `AppTts.TtsPlayer.IsPlaying` | ESP-32-S3-3-OPENAI/main/app/app_tts.c:122-125 | the playing flag; while playing the done bit is clear |
| `AppTts.TtsPlayer.Stop` | ESP-32-S3-3-OPENAI/main/app/app_tts.c:114-120 | always ESP_OK and changes nothing |
| `Wit.StoredToken` | ESP-32-S3-3-OPENAI/main/app/wit.c:22-24 | the token kept is the input cut to 164 characters |
| `Wit.Strncpy` | ESP-32-S3-3-OPENAI/main/app/wit.c:24 | `strncpy` with count n: the first n characters of the token, NUL-padded when the token is shorter |
| `Wit.StoredTokenReadsBack` | ESP-32-S3-3-OPENAI/main/app/wit.c:16-24 | the buffer `strncpy` leaves, with the final NUL, reads back as the cut token; storing it again stores the same |
| `Wit.Fill` | ESP-32-S3-3-OPENAI/main/app/wit.c:111-126 | a string `text` replaces the text; a first intent with a string name replaces intent and confidence; otherwise those fields are kept |
| `Wit.IsFinalType` | ESP-32-S3-3-OPENAI/main/app/wit.c:229 | the scan's FINAL test: a string `type` containing `"FINAL"` |
| `Wit.Absorb` | ESP-32-S3-3-OPENAI/main/app/wit.c:226-251 | reference definition of one object of the scan: a FINAL object fills the result, allocating it on first use; any other outcome leaves it |
| `Wit.SelectFinal` | ESP-32-S3-3-OPENAI/main/app/wit.c:220-254 | reference definition of the scan: the objects absorbed in order, from NULL |
| `Wit.SelectNoneIffNoFinal` | ESP-32-S3-3-OPENAI/main/app/wit.c:222-254 | the scan yields NULL iff no parsed object has a `type` containing `"FINAL"` |
| `Wit.LastFinalTextWins` | ESP-32-S3-3-OPENAI/main/app/wit.c:233-237 | the text is that of the last FINAL object with a string `text` |
| `Wit.LastFinalIntentWins` | ESP-32-S3-3-OPENAI/main/app/wit.c:239-249 | intent and confidence come from the last FINAL object whose first intent has a string name |
| `Wit.NoFinalTextNoText` | ESP-32-S3-3-OPENAI/main/app/wit.c:233-237 | without a FINAL object with a string `text` the result has no text |
| `Wit.FieldsChosenSeparately` | ESP-32-S3-3-OPENAI/main/app/wit.c:228-249 | a later FINAL object without an intent replaces the text and keeps the earlier intent |
| `Wit.Objects` | ESP-32-S3-3-OPENAI/main/app/wit.c:222-226 | at most one parse per character scanned |
| `Wit.NextBrace` | ESP-32-S3-3-OPENAI/main/app/wit.c:223 | `strstr(ptr, "{")` finds the first brace at or after `ptr`, or reaches the end |
| `Wit.ObjectsSkip` | ESP-32-S3-3-OPENAI/main/app/wit.c:223-224 | characters without a brace add no parse outcome |
| `Wit.LastBrace` | ESP-32-S3-3-OPENAI/main/app/wit.c:48-49 | `strrchr(buf, '{')` finds the last brace, or NULL when there is none |
| `Wit.LiveTranscript` | ESP-32-S3-3-OPENAI/main/app/wit.c:48-57 | reference definition of the live callback's arguments: the last object of the collected text, when it parses and has a non-empty string `text`, and whether its `type` passes `IsFinalType` |
| `Wit.ExactFinalIsFinal` | ESP-32-S3-3-OPENAI/main/app/wit.c:54-56 | the exact `"FINAL_TRANSCRIPTION"` test implies the `"FINAL"` substring test |
| `Wit.Collector.constructor` | ESP-32-S3-3-OPENAI/main/app/wit.c:78 | an empty collector: NULL buffer, size 0 |
| `Wit.Collector.Append` | ESP-32-S3-3-OPENAI/main/app/wit.c:38-42 | size grows by the chunk length, the contents are the old ones followed by the chunk, and the byte after them is NUL |
| `Wit.Collector.Clear` | ESP-32-S3-3-OPENAI/main/app/wit.c:261 | the collector is zeroed |
| `Wit.WitClient.constructor` | ESP-32-S3-3-OPENAI/main/app/wit.c:16-20 | zero token, no stream client, not ready, no callback, empty collector |
| `Wit.WitClient.Init` | ESP-32-S3-3-OPENAI/main/app/wit.c:22-29 | NULL or empty token: no change; otherwise the first 164 characters are those of `strncpy`, the last stays NUL, and the token reads back as `StoredToken` |
| `Wit.WitClient.OnData` | ESP-32-S3-3-OPENAI/main/app/wit.c:37-63 | a NULL collector or an empty chunk changes nothing and calls nothing; otherwise the chunk is appended, and with a callback set the callback gets `LiveTranscript` of the collected text |
| `Wit.WitClient.StreamStart` | ESP-32-S3-3-OPENAI/main/app/wit.c:149-182 | INVALID_STATE and no change while a client exists; otherwise the callback is set, the collector is emptied, and the client and ready flags are true iff the open succeeded, whose code is returned |
| `Wit.WitClient.StreamFeed` | ESP-32-S3-3-OPENAI/main/app/wit.c:184-207 | INVALID_STATE without a ready client; a negative write clears ready and returns ESP_FAIL, after which every feed is INVALID_STATE; otherwise ESP_OK |
| `Wit.WitClient.StreamStop` | ESP-32-S3-3-OPENAI/main/app/wit.c:209-264 | NULL and no change without a client; otherwise the result is `SelectFinal` over the parses at every brace of the collected text, and client, ready, callback and collector are reset |
| `Wit.WitClient.SttQuery` | ESP-32-S3-3-OPENAI/main/app/wit.c:70-139 | NULL when the token is empty or there is no audio; otherwise a result iff the exchange delivered status 200 with a body that parses; the result is filled from that object |
| `Wit.WitClient.TtsQuery` | ESP-32-S3-3-OPENAI/main/app/wit.c:266-325 | NULL when the token is empty or there is no text; otherwise a response iff the exchange delivered status 200 with a body; the response owns the collected bytes and their count |

## Left out

- FreeRTOS concurrency is not modelled:
  - task creation, priorities and pinning;
  - the parallelism between the feed and detection tasks;
  - the event-group handshake in `app_sr_stop` (`app_sr.c:326-327`). `StopOutcome` says only whether the wait can end: it does when the feed, detection and handler tasks all exist to acknowledge.
  - Teardown is a bit seen once per pass.
- The detection task's deletion of the handler task (`app_sr.c:108`) is not modelled. It can come before the handler has sent `HANDLE_DELETED`, a race that `StopOutcome` does not capture. `sr_handler_task` is not part of this model; the model takes it to acknowledge whenever it exists.
- The esp-sr engines are not modelled: front-end creation, fetch, feed, wake-word and VAD scoring, recogniser detection and result lists, and command registration (`app_sr.c:242-301`).
  - Their outputs are inputs to the model.
  - The return value of command registration only chooses a log line, so it has no effect here.
  - The `models` list and the `afe_handle` static are not modelled.
- `set_wakenet` and the model-name lookup in `app_sr_set_language` have no state in the model.
- Audio recording (`audio_record_init`, `audio_record_save`), the RMS diagnostic, and the detection log counter are left out. They involve floating point and logging only.
- `recordEn` of `app_sr_start` is accepted and unused, as in the source.
- The allocation failure that `assert(audio_buffer)` aborts on (`app_sr.c:58`) is not modelled.
  - The uninitialised contents of that allocation are the `garbage` parameter of `FeedTask`.
- AppSr.SrApp.FeedTask: every successful read delivers exactly `2 * chunk` samples. A short read, whose byte count the source ignores, is not modelled.
- AppSr.SrApp.GetResult: the wait of up to `xTicksToWait` is not modelled. An event sent while the caller waits is not seen.
- Freeing memory is not modelled:
  - the old key in `gemini_init`;
  - the freed record in `app_sr_stop`;
  - results and response buffers in `wit.c`.
  
  `wit_nlu_result_free` only frees, so it is not modelled. A `strdup`, `calloc` or `realloc` returning NULL is not modelled.
- Gemini.GeminiClient.Init: the key is a C string, so it contains no NUL. A NULL key, which the source dereferences, is not modelled.
- `gemini_audio_query` (HTTP, base64, JSON) is not part of this model, nor is `openai.c`.
- `app_tts_init` and PicoTTS are not modelled:
  - `picotts_add`;
  - `audio_player_stop`;
  - the microphone mute calls;
  - the result of `bsp_i2s_write`. `SampleCallback` returns the write it makes.
- AppTts.TtsPlayer.WaitDone: the timeout is a parameter only. The outcome is decided by the done bit as it stands when the wait ends.
- The HTTP client is not modelled: configuration, headers, TLS, `perform`, `open`, `write`, `fetch_headers` and cleanup. An exchange is an `HttpOutcome`, and the stream's open and write results are parameters.
- The rate limiting of logging and polling in `wit_stt_stream_feed` (static timestamps) is left out. It only chooses when to log and when to poll.
- cJSON is modelled only through what the client reads of its output:
  - `cJSON_Parse` is the `Parser` parameter;
  - an object is summarised by its `type`, `text` and `intents` members;
  - the request body that `wit_tts_query` prints is left out.
- Wit.IsFinalType: a `type` member that is not a string counts as not FINAL. The source passes its NULL `valuestring` to `strstr` or `strcmp` (`wit.c:54`, `:56`, `:229`), which is undefined behaviour.
- Wit.Fill: a missing `confidence` is taken as a given value. The source dereferences NULL there (`wit.c:123`, `:247`).
- `intent_conf` is a C `float`, modelled as a `real` without rounding.
- The live callback is not modelled as a call: `OnData` returns the arguments it would be called with.
  - HTTP events other than ON_DATA do nothing, as in the source.
- The collector's `int size` is unbounded in the model; its overflow is not modelled.
- `main.c`, `settings.c`, `bsp_board.c`, `GeminiAudio.h` and the headers are not part of this model.
