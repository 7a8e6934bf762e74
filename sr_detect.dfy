/** A reference definition of one iteration of the detection task of
    `app_sr.c` (`audio_detect_task`, after its teardown check), written as a
    function of the task's state and of what the engines report, and the
    properties of the wake/command state machine proved from it. */
module DetectSpec {
  import opened Esp
  import opened SrTypes
  import opened ResultQueue

  /** `uint8_t`. */
  newtype uint8 = x: int | 0 <= x < 0x100

  /** `frame_keep++` on a `uint8_t`: wraps from 255 to 0. */
  function Inc8(x: uint8): (r: uint8)
    ensures x < 255 ==> r as int == x as int + 1
    ensures x == 255 ==> r == 0
  {
    ((x as int + 1) % 0x100) as uint8
  }

  /** The silence run length at which the loop gives up on a command. */
  const SilenceFrames: uint8 := 100

  /** The state the detection loop carries from one frame to the next:
      the task-local `detect_flag`, the function-static `frame_keep` and
      `local_state`, and the file-static one-shot `manul_detect_flag`. */
  datatype DetectState = DetectState(detectFlag: bool, frameKeep: uint8, localState: VadState, manualFlag: bool)

  /** What one iteration does outside its own state, in order. */
  datatype Action = Send(ev: SrResult) | DisableWakenet | EnableWakenet

  datatype StepResult = StepResult(state: DetectState, actions: seq<Action>)

  /** One input frame: what `fetch` returned (None for NULL) and what the
      recogniser would say about that frame if it is asked. */
  datatype Frame = Frame(fetch: Option<FetchResult>, verdict: MnVerdict)

  predicate Skipped(fetch: Option<FetchResult>)
  {
    fetch.None? || fetch.value.retValue == FetchFail
  }

  /** Lines 115-137: the wake part of an iteration. */
  function WakePart(s: DetectState, f: FetchResult): StepResult
  {
    if f.wakeupState == WakenetDetected then
      StepResult(s, [Send(WakeEvent)])
    else if f.wakeupState == WakenetChannelVerified || s.manualFlag then
      StepResult(s.(detectFlag := true, manualFlag := false, frameKeep := 0),
                 (if s.manualFlag then [Send(WakeEvent)] else []) + [DisableWakenet])
    else
      StepResult(s, [])
  }

  /** Lines 182-187: the voice-activity bookkeeping while a command is awaited. */
  function TrackVad(s: DetectState, vad: VadState): DetectState
  {
    if s.localState != vad then s.(localState := vad, frameKeep := 0)
    else s.(frameKeep := Inc8(s.frameKeep))
  }

  /** Lines 139-201: the command part of an iteration, for a state whose
      `detect_flag` is set. `mnReady` says that neither `multinet` nor
      `model_data` is NULL. */
  function CommandPart(s: DetectState, vad: VadState, mnReady: bool, verdict: MnVerdict): StepResult
  {
    if !mnReady then
      StepResult(s.(detectFlag := false), [EnableWakenet])
    else match verdict
      case Detected(id) => StepResult(s.(detectFlag := false), [Send(CommandEvent(id)), EnableWakenet])
      case TimedOut => StepResult(s.(detectFlag := false), [Send(TimeoutEvent), EnableWakenet])
      case Detecting =>
        var t := TrackVad(s, vad);
        if t.frameKeep == SilenceFrames && vad == VadSilence then
          StepResult(t.(detectFlag := false), [Send(TimeoutEvent), EnableWakenet])
        else
          StepResult(t, [])
  }

  /** One iteration of the detection loop after its teardown check. */
  function Step(s: DetectState, fetch: Option<FetchResult>, mnReady: bool, verdict: MnVerdict): StepResult
  {
    if Skipped(fetch) then StepResult(s, [])
    else
      var w := WakePart(s, fetch.value);
      if !w.state.detectFlag then w
      else
        var c := CommandPart(w.state, fetch.value.vadState, mnReady, verdict);
        StepResult(c.state, w.actions + c.actions)
  }

  /** Iterations over a sequence of frames, with their actions concatenated. */
  function Run(s: DetectState, frames: seq<Frame>, mnReady: bool): StepResult
    decreases |frames|
  {
    if frames == [] then StepResult(s, [])
    else
      var r := Run(s, frames[..|frames| - 1], mnReady);
      var last := frames[|frames| - 1];
      var t := Step(r.state, last.fetch, mnReady, last.verdict);
      StepResult(t.state, r.actions + t.actions)
  }

  /** The events among some actions. */
  function Events(actions: seq<Action>): (evs: seq<SrResult>)
    ensures |evs| <= |actions|
  {
    if actions == [] then []
    else (if actions[0].Send? then [actions[0].ev] else []) + Events(actions[1..])
  }

  /** The result queue after the sends among some actions. */
  function ApplySends(items: seq<SrResult>, actions: seq<Action>): (r: seq<SrResult>)
    requires |items| <= QueueLength
    ensures |r| <= QueueLength
    decreases |actions|
  {
    if actions == [] then items
    else ApplySends(if actions[0].Send? then Sent(items, actions[0].ev) else items, actions[1..])
  }

  // ---------------------------------------------------------------------
  // Properties of one iteration

  /** A NULL fetch result or one marked ESP_FAIL skips the iteration:
      no event, no engine command, no state change. */
  lemma SkippedFetchChangesNothing(s: DetectState, fetch: Option<FetchResult>, mnReady: bool, verdict: MnVerdict)
    requires fetch.None? || fetch.value.retValue == FetchFail
    ensures Step(s, fetch, mnReady, verdict) == StepResult(s, [])
  {
  }

  /** A plain wake-word detection only queues one wake event: it neither enters
      command mode nor touches the manual flag or the silence counter; in
      command mode the frame then goes on to the recogniser as usual. */
  lemma WakeDetectedOnlyEmitsWakeEvent(s: DetectState, f: FetchResult, mnReady: bool, verdict: MnVerdict)
    requires f.retValue != FetchFail && f.wakeupState == WakenetDetected
    ensures var r := Step(s, Some(f), mnReady, verdict);
      && |r.actions| >= 1 && r.actions[0] == Send(WakeEvent)
      && DisableWakenet !in r.actions
      && r.state.manualFlag == s.manualFlag
      && (!s.detectFlag ==> r == StepResult(s, [Send(WakeEvent)]))
  {
    var r := Step(s, Some(f), mnReady, verdict);
    if s.detectFlag {
      var c := CommandPart(s, f.vadState, mnReady, verdict);
      assert r.actions == [Send(WakeEvent)] + c.actions;
      assert DisableWakenet !in c.actions;
    }
  }

  /** A verified wake channel, or a pending manual trigger on a frame that is
      not a plain wake detection, enters command mode: the manual flag is
      consumed and yields exactly one synthetic wake event, the silence counter
      restarts, wake detection is disabled, and the same frame is then handed
      to the recogniser. */
  lemma EntersCommandMode(s: DetectState, f: FetchResult, mnReady: bool, verdict: MnVerdict)
    requires f.retValue != FetchFail && f.wakeupState != WakenetDetected
    requires f.wakeupState == WakenetChannelVerified || s.manualFlag
    ensures var entered := s.(detectFlag := true, manualFlag := false, frameKeep := 0);
      var c := CommandPart(entered, f.vadState, mnReady, verdict);
      Step(s, Some(f), mnReady, verdict)
        == StepResult(c.state, (if s.manualFlag then [Send(WakeEvent)] else []) + [DisableWakenet] + c.actions)
    ensures !Step(s, Some(f), mnReady, verdict).state.manualFlag
    ensures Events(Step(s, Some(f), mnReady, verdict).actions)[..(if s.manualFlag then 1 else 0)]
      == (if s.manualFlag then [WakeEvent] else [])
  {
    var entered := s.(detectFlag := true, manualFlag := false, frameKeep := 0);
    var c := CommandPart(entered, f.vadState, mnReady, verdict);
    var pre := (if s.manualFlag then [Send(WakeEvent)] else []) + [DisableWakenet];
    EventsAppend(pre, c.actions);
    EventsAppend((if s.manualFlag then [Send(WakeEvent)] else []), [DisableWakenet]);
  }

  /** The manual flag is not consulted on a frame that reports a plain wake detection. */
  lemma ManualFlagIgnoredOnWakeDetected(s: DetectState, f: FetchResult, mnReady: bool, verdict: MnVerdict)
    requires f.retValue != FetchFail && f.wakeupState == WakenetDetected && !s.detectFlag
    ensures Step(s, Some(f), mnReady, verdict).state == s
    ensures Step(s.(manualFlag := !s.manualFlag), Some(f), mnReady, verdict).state == s.(manualFlag := !s.manualFlag)
  {
  }

  /** In command mode with no recogniser (`multinet` or `model_data` NULL), the
      loop leaves command mode and re-enables wake detection without any event. */
  lemma MissingRecognizerFailsSoft(s: DetectState, f: FetchResult, verdict: MnVerdict)
    requires f.retValue != FetchFail && f.wakeupState == WakenetNoDetect && !s.manualFlag
    requires s.detectFlag
    ensures Step(s, Some(f), false, verdict) == StepResult(s.(detectFlag := false), [EnableWakenet])
  {
  }

  /** A recognised command queues `{WAKENET_NO_DETECT, DETECTED, command_id[0]}`
      and a recogniser timeout queues `{WAKENET_NO_DETECT, TIMEOUT, 0}`; in both
      cases the event goes out before wake detection is re-enabled and command
      mode ends. */
  lemma VerdictEndsCommandMode(s: DetectState, f: FetchResult, verdict: MnVerdict)
    requires f.retValue != FetchFail && f.wakeupState == WakenetNoDetect && !s.manualFlag
    requires s.detectFlag && !verdict.Detecting?
    ensures var ev := if verdict.Detected? then CommandEvent(verdict.commandId0) else TimeoutEvent;
      Step(s, Some(f), true, verdict) == StepResult(s.(detectFlag := false), [Send(ev), EnableWakenet])
  {
  }

  /** While a command is awaited, a change of voice activity stores the new
      state and restarts the counter, and an unchanged one advances the 8-bit
      counter; the loop gives up with a timeout event exactly when the counter
      equals 100 while the frame is silent. */
  lemma SilenceCounter(s: DetectState, f: FetchResult)
    requires f.retValue != FetchFail && f.wakeupState == WakenetNoDetect && !s.manualFlag
    requires s.detectFlag
    ensures var r := Step(s, Some(f), true, Detecting);
      var k := if s.localState != f.vadState then 0 else Inc8(s.frameKeep);
      && r.state.localState == f.vadState
      && r.state.frameKeep == k
      && (r.actions != [] <==> k == 100 && f.vadState == VadSilence)
      && (r.actions != [] ==> r.actions == [Send(TimeoutEvent), EnableWakenet] && !r.state.detectFlag)
      && (r.actions == [] ==> r.state.detectFlag)
  {
  }

  /** Re-enabling wake detection is always the last thing an iteration does:
      no event is queued after it in the same iteration. */
  lemma EnableIsLast(s: DetectState, fetch: Option<FetchResult>, mnReady: bool, verdict: MnVerdict)
    ensures var acts := Step(s, fetch, mnReady, verdict).actions;
      forall i :: 0 <= i < |acts| && acts[i] == EnableWakenet ==> i == |acts| - 1
  {
    if !Skipped(fetch) {
      var w := WakePart(s, fetch.value);
      assert EnableWakenet !in w.actions;
      if w.state.detectFlag {
        var c := CommandPart(w.state, fetch.value.vadState, mnReady, verdict);
        var acts := w.actions + c.actions;
        forall i | 0 <= i < |acts| && acts[i] == EnableWakenet
          ensures i == |acts| - 1
        {
          assert i >= |w.actions|;
        }
      }
    }
  }

  // ---------------------------------------------------------------------
  // Sequences of iterations

  lemma {:induction false} EventsAppend(a: seq<Action>, b: seq<Action>)
    ensures Events(a + b) == Events(a) + Events(b)
  {
    if a != [] {
      var head := if a[0].Send? then [a[0].ev] else [];
      calc {
        Events(a + b);
        { assert (a + b)[0] == a[0]; assert (a + b)[1..] == a[1..] + b; }
        head + Events(a[1..] + b);
        { EventsAppend(a[1..], b); }
        head + (Events(a[1..]) + Events(b));
        (head + Events(a[1..])) + Events(b);
      }
    } else {
      assert a + b == b;
    }
  }

  /** A silent frame that the recogniser does not decide on. */
  const SilentFrame := Frame(Some(FetchResult(0, WakenetNoDetect, VadSilence)), Detecting)

  function SilentFrames(n: nat): (fs: seq<Frame>)
    ensures |fs| == n
    ensures forall i :: 0 <= i < n ==> fs[i] == SilentFrame
  {
    seq(n, _ => SilentFrame)
  }

  /** In command mode, with silence already recorded and the counter at 0,
      n < 101 further silent frames leave the counter at n and queue nothing
      until the 100th, which queues one timeout event and re-enables wake
      detection. */
  lemma {:induction false} SilenceRun(s: DetectState, n: nat)
    requires s.detectFlag && !s.manualFlag && s.localState == VadSilence && s.frameKeep == 0
    requires n <= 100
    ensures var r := Run(s, SilentFrames(n), true);
      && r.state.localState == VadSilence
      && r.state.manualFlag == false
      && (n < 100 ==> r.actions == [] && r.state.detectFlag && r.state.frameKeep as int == n)
      && (n == 100 ==> r.actions == [Send(TimeoutEvent), EnableWakenet] && !r.state.detectFlag)
  {
    if n > 0 {
      SilenceRun(s, n - 1);
      assert SilentFrames(n)[..n - 1] == SilentFrames(n - 1);
    }
  }

  /** A change of voice activity on the frame that would have been the 100th
      restarts the run: the counter is 0 and nothing is queued. */
  lemma FlipAtHundredResets(s: DetectState)
    requires s.detectFlag && !s.manualFlag && s.localState == VadSilence && s.frameKeep == 99
    ensures var r := Step(s, Some(FetchResult(0, WakenetNoDetect, VadSpeech)), true, Detecting);
      r.actions == [] && r.state.frameKeep == 0 && r.state.detectFlag
  {
  }

  /** Sends never grow the queue past its length, and a full queue drops them all. */
  lemma {:induction false} FullQueueDropsEverything(items: seq<SrResult>, actions: seq<Action>)
    requires |items| == QueueLength
    ensures ApplySends(items, actions) == items
    decreases |actions|
  {
    if actions != [] {
      FullQueueDropsEverything(items, actions[1..]);
    }
  }

  /** The first events of `s` that fit in the queue. */
  function Capped(s: seq<SrResult>): (r: seq<SrResult>)
    ensures |r| <= QueueLength && r <= s
    ensures |r| == QueueLength || r == s
  {
    if |s| < QueueLength then s else s[..QueueLength]
  }

  /** One send in front of later events: what fits afterwards is what fits
      of the old contents, the event and the later events together. */
  lemma SentThenCapped(items: seq<SrResult>, e: SrResult, rest: seq<SrResult>)
    requires |items| <= QueueLength
    ensures Capped(Sent(items, e) + rest) == Capped(items + ([e] + rest))
  {
    if |items| < QueueLength {
      assert Sent(items, e) + rest == items + ([e] + rest);
    } else {
      assert (items + rest)[..QueueLength] == items;
      assert (items + ([e] + rest))[..QueueLength] == items;
    }
  }

  /** The sends among some actions keep the first events that fit, in order:
      the queue afterwards is the longest prefix of at most three events of the
      old contents followed by the events sent. */
  lemma {:induction false} SendsKeepOrder(items: seq<SrResult>, actions: seq<Action>)
    requires |items| <= QueueLength
    ensures ApplySends(items, actions) == Capped(items + Events(actions))
    decreases |actions|
  {
    if actions == [] {
      assert items + Events(actions) == items;
    } else {
      var a := actions[0];
      var rest := Events(actions[1..]);
      var next := if a.Send? then Sent(items, a.ev) else items;
      SendsKeepOrder(next, actions[1..]);
      if a.Send? {
        assert Events(actions) == [a.ev] + rest;
        SentThenCapped(items, a.ev, rest);
      } else {
        assert Events(actions) == rest;
      }
    }
  }
}
