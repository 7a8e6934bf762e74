/** The speech-recognition front end of `app_sr.c`: the session record
    `g_sr_data` with its start/stop/set-language/get-result/trigger entry
    points, one iteration of the detection task, and the feed and detection
    task loops with their teardown check. The esp-sr engines, the I2S driver
    and FreeRTOS are outside the model: what they return is an input. */
module AppSr {
  import opened Esp
  import opened SrTypes
  import opened ResultQueue
  import opened DetectSpec
  import opened ChannelRemap

  /** `sr_data_t`, the record `g_sr_data` points to. A `bool` field says that
      the pointer or handle it stands for is not NULL. */
  datatype SrData = SrData(
    resultQue: Option<ResultQueue>,
    eventGroup: bool,
    fp: bool,
    lang: Lang,
    afeData: bool,
    multinet: bool,
    modelData: ModelData,
    afeInBuffer: bool,
    afeOutBuffer: bool,
    feedTask: bool,
    detectTask: bool,
    handleTask: bool)

  /** The record as `heap_caps_calloc` returns it: every field zero. */
  const CallocSrData := SrData(None, false, false, SrLangEn, false, false, ModelNull, false, false, false, false, false)

  /** `multinet != NULL && model_data != NULL`, the detection loop's test. */
  predicate MnReady(d: SrData)
  {
    d.multinet && d.modelData != ModelNull
  }

  /** What a session that `app_sr_start` completed holds. */
  predicate Complete(d: SrData)
  {
    && d.resultQue.Some? && d.eventGroup && d.afeData && MnReady(d)
    && d.feedTask && d.detectTask && d.handleTask
  }

  /** What each fallible step of `app_sr_start` yields. The steps the source
      does not check (front-end creation, model lookup, command registration)
      have no entry. */
  datatype StartEnv = StartEnv(
    callocOk: bool,
    queueOk: bool,
    eventGroupOk: bool,
    multinetFound: bool,
    modelCreated: bool,
    commandsAllocOk: bool,
    feedTaskOk: bool,
    detectTaskOk: bool,
    handlerTaskOk: bool)

  predicate AllStepsSucceed(env: StartEnv)
  {
    && env.callocOk && env.queueOk && env.eventGroupOk
    && env.multinetFound && env.modelCreated && env.commandsAllocOk
    && env.feedTaskOk && env.detectTaskOk && env.handlerTaskOk
  }

  /** How a call of an entry point ends: it returns a code, or it never
      returns, either because FreeRTOS asserts on a NULL event group or
      because it waits forever for an acknowledgement no task will send. */
  datatype Outcome = Returned(code: EspErr) | Asserts | Blocks

  /** How `app_sr_start` ends when no session exists. Only the calloc failure
      returns an error (line 233); every later failure jumps to `err`, whose
      `app_sr_stop` never returns: see `StopOutcome`. */
  function StartOutcome(env: StartEnv): Outcome
  {
    if !env.callocOk then Returned(ErrNoMem)
    else if !env.queueOk || !env.eventGroupOk then Asserts
    else if !AllStepsSucceed(env) then Blocks
    else Returned(EspOk)
  }

  /** `app_sr_start` returns only when every step succeeded, with ESP_OK, or
      when the record could not be allocated, with ESP_ERR_NO_MEM. */
  lemma StartReturnsOnlyAtEnds(env: StartEnv)
    ensures StartOutcome(env).Returned? <==> AllStepsSucceed(env) || !env.callocOk
    ensures StartOutcome(env) == Returned(EspOk) <==> AllStepsSucceed(env)
  {
  }

  /** How `app_sr_stop` ends for an existing record. Setting `NEED_DELETE` on
      a NULL event group trips the FreeRTOS assertion (line 326); the wait
      for all four acknowledgements (line 327) returns only if the feed, the
      detection and the handler task all exist to send them. */
  function StopOutcome(d: SrData): Outcome
  {
    if !d.eventGroup then Asserts
    else if !(d.feedTask && d.detectTask && d.handleTask) then Blocks
    else Returned(EspOk)
  }

  /** One resource `app_sr_stop` releases. */
  datatype Release = DeleteQueue | DeleteEventGroup | CloseFile | DestroyModel(model: ModelData)
    | DestroyAfe | FreeInBuffer | FreeOutBuffer | FreeSrData

  /** Lines 329-361: what `app_sr_stop` releases, in order. */
  function Teardown(d: SrData): (r: seq<Release>)
    ensures |r| > 0 && r[|r| - 1] == FreeSrData
  {
    (if d.resultQue.Some? then [DeleteQueue] else [])
    + (if d.eventGroup then [DeleteEventGroup] else [])
    + (if d.fp then [CloseFile] else [])
    + (if d.modelData != ModelNull then [DestroyModel(d.modelData)] else [])
    + (if d.afeData then [DestroyAfe] else [])
    + (if d.afeInBuffer then [FreeInBuffer] else [])
    + (if d.afeOutBuffer then [FreeOutBuffer] else [])
    + [FreeSrData]
  }

  /** Stopping a completed session releases the queue and the event group
      before the recogniser model, and the model before the front end; a model
      that `app_sr_set_language` already destroyed is destroyed a second time. */
  lemma TeardownOrder(d: SrData)
    requires Complete(d)
    ensures var r := Teardown(d);
      && r[0] == DeleteQueue && r[1] == DeleteEventGroup
      && DestroyModel(d.modelData) in r
      && (forall i :: 0 <= i < |r| && r[i] == DestroyAfe ==> i > 0 && r[i - 1] == DestroyModel(d.modelData))
  {
  }

  /** The passes a loop completes before it sees a bit set; `flags[k]` says
      whether the event group had a bit set when pass k looked at it. */
  function PassesBeforeTeardown(flags: seq<bool>): (n: nat)
    ensures n <= |flags|
    ensures forall i :: 0 <= i < n ==> !flags[i]
    ensures n < |flags| ==> flags[n]
  {
    if flags == [] || flags[0] then 0 else 1 + PassesBeforeTeardown(flags[1..])
  }

  lemma {:induction false} ApplySendsAppend(items: seq<SrResult>, a: seq<Action>, b: seq<Action>)
    requires |items| <= QueueLength
    ensures ApplySends(items, a + b) == ApplySends(ApplySends(items, a), b)
    decreases |a|
  {
    if a == [] {
      assert a + b == b;
    } else {
      assert (a + b)[0] == a[0];
      assert (a + b)[1..] == a[1..] + b;
      ApplySendsAppend(if a[0].Send? then Sent(items, a[0].ev) else items, a[1..], b);
    }
  }

  /** The queue after one more action. */
  lemma ApplySendsSnoc(items: seq<SrResult>, acts: seq<Action>, a: Action)
    requires |items| <= QueueLength
    ensures ApplySends(items, acts + [a])
      == if a.Send? then Sent(ApplySends(items, acts), a.ev) else ApplySends(items, acts)
  {
    ApplySendsAppend(items, acts, [a]);
  }

  /** The file-scope and function-static state of `app_sr.c`. */
  class SrApp {
    /** `g_sr_data`. */
    var srData: Option<SrData>
    /** `manul_detect_flag`. */
    var manualDetectFlag: bool
    /** `local_state` and `frame_keep`, static in `audio_detect_task`: they
        keep their values from one session to the next. */
    var localState: VadState
    var frameKeep: uint8

    /** The result queue of the session, when it has one. */
    function QueueSet(): set<ResultQueue>
      reads this
    {
      if srData.Some? && srData.value.resultQue.Some? then {srData.value.resultQue.value} else {}
    }

    function Queue(): ResultQueue
      reads this
      requires srData.Some? && srData.value.resultQue.Some?
    {
      srData.value.resultQue.value
    }

    /** The queue, if any, is a well-formed bounded queue. */
    ghost predicate QueueValid()
      reads this, QueueSet()
    {
      srData.Some? && srData.value.resultQue.Some? ==> Queue().Valid()
    }

    /** Between calls, a session either does not exist or is complete. */
    ghost predicate Valid()
      reads this, QueueSet()
    {
      QueueValid() && (srData.Some? ==> Complete(srData.value))
    }

    /** Program start: no session, statics zero-initialised. */
    constructor ()
      ensures Valid() && srData == None && !manualDetectFlag
      ensures localState == VadSilence && frameKeep == 0
    {
      srData := None;
      manualDetectFlag := false;
      localState := VadSilence;
      frameKeep := 0;
    }

    /** `app_sr_set_language`; `released` is the model it destroys, if any.
        The pointer is not reset, so a second change of language destroys the
        already destroyed model again. */
    method SetLanguage(newLang: Lang) returns (ret: EspErr, released: seq<Release>)
      requires QueueValid()
      modifies this
      ensures QueueValid() && (old(Valid()) ==> Valid())
      ensures old(srData).None? ==> ret == ErrInvalidState && srData == old(srData) && released == []
      ensures old(srData).Some? && newLang == old(srData).value.lang ==>
        ret == EspOk && srData == old(srData) && released == []
      ensures old(srData).Some? && newLang != old(srData).value.lang ==>
        var m := old(srData).value.modelData;
        && ret == EspOk
        && released == (if m == ModelNull then [] else [DestroyModel(m)])
        && srData == Some(old(srData).value.(lang := newLang, modelData := if m == ModelNull then ModelNull else ModelFreed))
      ensures manualDetectFlag == old(manualDetectFlag) && localState == old(localState) && frameKeep == old(frameKeep)
    {
      released := [];
      if srData.None? {
        return ErrInvalidState, released;
      }
      if newLang == srData.value.lang {
        return EspOk, released;
      }
      srData := Some(srData.value.(lang := newLang));
      if srData.value.modelData != ModelNull {
        released := [DestroyModel(srData.value.modelData)];
        srData := Some(srData.value.(modelData := ModelFreed));
      }
      // set_wakenet on the live front end has no state in the model
      return EspOk, released;
    }

    /** `app_sr_start`. `recordEn` is not used by the source. A failure after
        the record is allocated leaves the partly built record in place: the
        rollback at `err` never returns. */
    method Start(recordEn: bool, env: StartEnv) returns (out: Outcome)
      requires Valid()
      modifies this
      ensures QueueValid() && (out.Returned? ==> Valid())
      ensures old(srData).Some? ==> out == Returned(ErrInvalidState) && srData == old(srData)
      ensures old(srData).None? ==> out == StartOutcome(env)
      ensures old(srData).None? && out == Returned(ErrNoMem) ==> srData == None
      ensures old(srData).None? && out == Returned(EspOk) ==>
        && srData.Some? && Complete(srData.value)
        && srData.value.lang == SrLangEn && srData.value.modelData == ModelLive
        && fresh(Queue()) && Queue().items == []
      ensures !out.Returned? ==> srData.Some? && !srData.value.handleTask && StopOutcome(srData.value) == out
      ensures manualDetectFlag == old(manualDetectFlag) && localState == old(localState) && frameKeep == old(frameKeep)
    {
      if srData.Some? {
        return Returned(ErrInvalidState);
      }
      if !env.callocOk {
        return Returned(ErrNoMem);
      }
      srData := Some(CallocSrData);
      if !env.queueOk {
        out := Rollback();
        return;
      }
      var q := new ResultQueue();
      srData := Some(srData.value.(resultQue := Some(q)));
      if !env.eventGroupOk {
        out := Rollback();
        return;
      }
      srData := Some(srData.value.(eventGroup := true));
      srData := Some(srData.value.(afeData := true));
      srData := Some(srData.value.(lang := SrLangMax));
      var ret, _ := SetLanguage(SrLangEn);
      if ret != EspOk {
        // a session exists and SR_LANG_MAX differs from SR_LANG_EN
        assert false;
      }
      if !env.multinetFound || !env.modelCreated || !env.commandsAllocOk {
        out := Rollback();
        return;
      }
      srData := Some(srData.value.(multinet := true, modelData := ModelLive));
      if !env.feedTaskOk {
        out := Rollback();
        return;
      }
      srData := Some(srData.value.(feedTask := true));
      if !env.detectTaskOk {
        out := Rollback();
        return;
      }
      srData := Some(srData.value.(detectTask := true));
      if !env.handlerTaskOk {
        out := Rollback();
        return;
      }
      srData := Some(srData.value.(handleTask := true));
      return Returned(EspOk);
    }

    /** The `err:` label of `app_sr_start`: `app_sr_stop` on the partly built
        record. No handler task exists there to acknowledge, so it never
        returns and `ret` is never handed back. */
    method Rollback() returns (out: Outcome)
      requires srData.Some? && QueueValid() && !srData.value.handleTask
      modifies this
      ensures out == StopOutcome(old(srData).value) && !out.Returned?
      ensures srData == old(srData) && QueueValid()
      ensures manualDetectFlag == old(manualDetectFlag) && localState == old(localState) && frameKeep == old(frameKeep)
    {
      var o, _ := Stop();
      out := o;
    }

    /** `app_sr_stop`: returns only once every task has acknowledged the
        teardown request, and then releases everything. */
    method Stop() returns (out: Outcome, released: seq<Release>)
      requires QueueValid()
      modifies this
      ensures QueueValid()
      ensures old(srData).None? ==> out == Returned(ErrInvalidState) && released == [] && srData == None
      ensures old(srData).Some? ==> out == StopOutcome(old(srData).value)
      ensures old(srData).Some? && out.Returned? ==> released == Teardown(old(srData).value) && srData == None
      ensures old(srData).Some? && !out.Returned? ==> released == [] && srData == old(srData)
      ensures old(Valid()) ==> out.Returned? && Valid() && srData == None
      ensures manualDetectFlag == old(manualDetectFlag) && localState == old(localState) && frameKeep == old(frameKeep)
    {
      released := [];
      if srData.None? {
        return Returned(ErrInvalidState), released;
      }
      out := StopOutcome(srData.value);
      if out.Returned? {
        released := Teardown(srData.value);
        srData := None;
      }
    }

    /** `app_sr_get_result`: ESP_OK whenever a session exists, whether or not
        an event was there; an empty queue leaves `*result` as it was. */
    method GetResult(buffer: SrResult) returns (ret: EspErr, result: SrResult)
      requires Valid()
      modifies QueueSet()
      ensures Valid()
      ensures srData.None? ==> ret == ErrInvalidState && result == buffer
      ensures srData.Some? ==> ret == EspOk
      ensures srData.Some? && old(Queue().items) == [] ==> result == buffer && Queue().items == []
      ensures srData.Some? && old(Queue().items) != [] ==>
        result == old(Queue().items)[0] && Queue().items == old(Queue().items)[1..]
    {
      if srData.None? {
        return ErrInvalidState, buffer;
      }
      var _, r := Queue().Receive(buffer);
      return EspOk, r;
    }

    /** `app_sr_start_once`: request one manual trigger. */
    method StartOnce() returns (ret: EspErr)
      modifies this
      ensures srData == old(srData) && localState == old(localState) && frameKeep == old(frameKeep)
      ensures old(srData).None? ==> ret == ErrInvalidState && manualDetectFlag == old(manualDetectFlag)
      ensures old(srData).Some? ==> ret == EspOk && manualDetectFlag
    {
      if srData.None? {
        return ErrInvalidState;
      }
      manualDetectFlag := true;
      return EspOk;
    }

    /** The state the detection spec speaks of, for a given `detect_flag`. */
    function State(detectFlag: bool): DetectState
      reads this
    {
      DetectState(detectFlag, frameKeep, localState, manualDetectFlag)
    }

    /** Lines 111-201: one iteration of the detection loop after its teardown
        check. `detectFlag` is the task's local flag before and after. */
    method DetectIteration(detectFlag: bool, fetch: Option<FetchResult>, verdict: MnVerdict)
      returns (flag: bool, actions: seq<Action>)
      requires Valid() && srData.Some?
      modifies this, Queue()
      ensures Valid() && srData == old(srData)
      ensures var r := Step(old(State(detectFlag)), fetch, MnReady(srData.value), verdict);
        State(flag) == r.state && actions == r.actions
      ensures Queue().items == ApplySends(old(Queue().items), actions)
    {
      flag := detectFlag;
      actions := [];
      if fetch.None? || fetch.value.retValue == FetchFail {
        return;
      }
      flag, actions := WakeIteration(detectFlag, fetch.value);
      if flag {
        var more;
        flag, more := CommandIteration(fetch.value.vadState, verdict);
        ApplySendsAppend(old(Queue().items), actions, more);
        actions := actions + more;
      }
    }

    /** Lines 115-137: the wake part of an iteration. */
    method WakeIteration(detectFlag: bool, res: FetchResult) returns (flag: bool, actions: seq<Action>)
      requires Valid() && srData.Some?
      modifies this, Queue()
      ensures Valid() && srData == old(srData)
      ensures var r := WakePart(old(State(detectFlag)), res);
        State(flag) == r.state && actions == r.actions
      ensures Queue().items == ApplySends(old(Queue().items), actions)
    {
      flag := detectFlag;
      actions := [];
      var q := Queue();
      ghost var items0 := q.items;
      if res.wakeupState == WakenetDetected {
        var _ := q.Send(WakeEvent);
        ApplySendsSnoc(items0, actions, Send(WakeEvent));
        actions := actions + [Send(WakeEvent)];
      } else if res.wakeupState == WakenetChannelVerified || manualDetectFlag {
        flag := true;
        if manualDetectFlag {
          manualDetectFlag := false;
          var _ := q.Send(WakeEvent);
          ApplySendsSnoc(items0, actions, Send(WakeEvent));
          actions := actions + [Send(WakeEvent)];
        }
        frameKeep := 0;
        ApplySendsSnoc(items0, actions, DisableWakenet);
        actions := actions + [DisableWakenet];
      }
    }

    /** Lines 139-201: the command part of an iteration in command mode. */
    method CommandIteration(vad: VadState, verdict: MnVerdict) returns (flag: bool, actions: seq<Action>)
      requires Valid() && srData.Some?
      modifies this, Queue()
      ensures Valid() && srData == old(srData)
      ensures var r := CommandPart(old(State(true)), vad, MnReady(srData.value), verdict);
        State(flag) == r.state && actions == r.actions
      ensures Queue().items == ApplySends(old(Queue().items), actions)
    {
      flag := true;
      actions := [];
      var q := Queue();
      ghost var items0 := q.items;
      if !srData.value.multinet || srData.value.modelData == ModelNull {
        flag := false;
        ApplySendsSnoc(items0, actions, EnableWakenet);
        actions := actions + [EnableWakenet];
        return;
      }
      var ev: Option<SrResult> := None;
      match verdict {
        case Detected(id) => ev := Some(CommandEvent(id));
        case TimedOut => ev := Some(TimeoutEvent);
        case Detecting =>
          if localState != vad {
            localState := vad;
            frameKeep := 0;
          } else {
            frameKeep := Inc8(frameKeep);
          }
          if frameKeep == SilenceFrames && vad == VadSilence {
            ev := Some(TimeoutEvent);
          }
      }
      if ev.Some? {
        var _ := q.Send(ev.value);
        ApplySendsSnoc(items0, actions, Send(ev.value));
        actions := actions + [Send(ev.value)];
        ApplySendsSnoc(items0, actions, EnableWakenet);
        actions := actions + [EnableWakenet];
        flag := false;
      }
    }

    /** `audio_detect_task`: iterations until the first pass that sees an
        event-group bit set, where the task acknowledges and ends. `detect_flag`
        starts false; the statics carry over from earlier sessions. */
    method DetectTask(teardown: seq<bool>, frames: seq<Frame>) returns (handled: nat, deleted: bool, detectFlag: bool)
      requires Valid() && srData.Some? && |teardown| == |frames|
      modifies this, Queue()
      ensures Valid() && srData == old(srData)
      ensures handled == PassesBeforeTeardown(teardown)
      ensures deleted <==> handled < |frames|
      ensures var r := Run(old(State(false)), frames[..handled], MnReady(srData.value));
        State(detectFlag) == r.state && Queue().items == ApplySends(old(Queue().items), r.actions)
    {
      detectFlag := false;
      var i := 0;
      ghost var n := PassesBeforeTeardown(teardown);
      ghost var acts: seq<Action> := [];
      ghost var s0 := State(false);
      ghost var items0 := Queue().items;
      var mnReady := MnReady(srData.value);
      while i < |frames| && !teardown[i]
        invariant 0 <= i <= n
        invariant Valid() && srData == old(srData)
        invariant var r := Run(s0, frames[..i], mnReady);
          State(detectFlag) == r.state && acts == r.actions
        invariant Queue().items == ApplySends(items0, acts)
      {
        assert i < n;
        var f := frames[i];
        var a;
        detectFlag, a := DetectIteration(detectFlag, f.fetch, f.verdict);
        ApplySendsAppend(items0, acts, a);
        acts := acts + a;
        assert frames[..i + 1] == frames[..i] + [f];
        i := i + 1;
      }
      assert i == n;
      handled := i;
      deleted := i < |frames|;
    }

    /** `audio_feed_task`: allocates the `3 * chunk` sample buffer, then per
        pass checks the event group, reads a two-channel frame, widens it in
        place and feeds it; returns the frames fed. `garbage` is what the
        uninitialised allocation holds; pass k sees the teardown bit
        `teardown[k]` and reads `captures[k]`. */
    method FeedTask(chunk: nat, garbage: seq<int16>, teardown: seq<bool>, captures: seq<Option<seq<int16>>>)
      returns (fed: seq<seq<int16>>, deleted: bool)
      requires Valid() && srData.Some?
      requires |garbage| == FeedChannels * chunk && |teardown| == |captures|
      requires forall k :: 0 <= k < |captures| && captures[k].Some? ==> |captures[k].value| == I2sChannels * chunk
      modifies this
      ensures Valid() && srData == Some(old(srData).value.(afeInBuffer := true))
      ensures manualDetectFlag == old(manualDetectFlag) && localState == old(localState) && frameKeep == old(frameKeep)
      ensures var n := PassesBeforeTeardown(teardown);
        && (deleted <==> n < |captures|)
        && fed == FedFrames(garbage, chunk, captures, n)
    {
      var audioBuffer := new int16[FeedChannels * chunk](i requires 0 <= i < |garbage| => garbage[i]);
      srData := Some(srData.value.(afeInBuffer := true));
      assert audioBuffer[..] == garbage;
      fed, deleted := FeedLoop(audioBuffer, chunk, teardown, captures, srData.value.eventGroup,
                               PassesBeforeTeardown(teardown));
    }
  }

  /** Lines 61-94: the loop of `audio_feed_task` over its buffer; pass k
      sees the teardown bit `teardown[k]` and the read result `captures[k]`,
      and `n` passes come before the first bit that is set. */
  method FeedLoop(audioBuffer: array<int16>, chunk: nat, teardown: seq<bool>,
                  captures: seq<Option<seq<int16>>>, eventGroup: bool, ghost n: nat)
    returns (fed: seq<seq<int16>>, deleted: bool)
    requires audioBuffer.Length == FeedChannels * chunk && eventGroup
    requires |teardown| == |captures| && n <= |captures|
    requires forall k :: 0 <= k < n ==> !teardown[k]
    requires n < |captures| ==> teardown[n]
    requires forall k :: 0 <= k < |captures| && captures[k].Some? ==>
      |captures[k].value| == I2sChannels * chunk
    modifies audioBuffer
    ensures deleted <==> n < |captures|
    ensures fed == FedFrames(old(audioBuffer[..]), chunk, captures, n)
  {
    ghost var start := audioBuffer[..];
    fed := [];
    var i := 0;
    while i < |captures|
      invariant 0 <= i <= n
      invariant audioBuffer[..] == BufferAfter(start, chunk, captures, i)
      invariant fed == FedFrames(start, chunk, captures, i)
    {
      if eventGroup && teardown[i] {
        break;
      }
      assert i < n;
      fed := FeedNext(audioBuffer, chunk, start, captures, i, fed);
      i := i + 1;
    }
    assert i == n;
    deleted := i < |captures|;
  }

  /** Pass i of the feed loop, from the buffer the earlier passes left:
      the buffer is fed on and appended to the frames fed so far. */
  method FeedNext(buf: array<int16>, chunk: nat, ghost start: seq<int16>,
                  captures: seq<Option<seq<int16>>>, i: nat, fed: seq<seq<int16>>)
    returns (fed': seq<seq<int16>>)
    requires |start| == buf.Length == FeedChannels * chunk && i < |captures|
    requires captures[i].Some? ==> |captures[i].value| == I2sChannels * chunk
    requires buf[..] == BufferAfter(start, chunk, captures, i)
    requires fed == FedFrames(start, chunk, captures, i)
    modifies buf
    ensures buf[..] == BufferAfter(start, chunk, captures, i + 1)
    ensures fed' == FedFrames(start, chunk, captures, i + 1)
  {
    FeedPassInPlace(buf, chunk, captures[i]);
    fed' := fed + [buf[..]];
  }

  /** Lines 68-75: one read into the buffer, then the widening. */
  method FeedPassInPlace(buf: array<int16>, chunk: nat, capture: Option<seq<int16>>)
    requires buf.Length == FeedChannels * chunk
    requires capture.Some? ==> |capture.value| == I2sChannels * chunk
    modifies buf
    ensures buf[..] == FeedOnce(old(buf[..]), chunk, capture)
  {
    if capture.Some? {
      Read(buf, capture.value);
    }
    assert buf[..2 * chunk] == AfterRead(old(buf[..]), capture)[..2 * chunk];
    RemapInPlace(buf, chunk);
  }

  /** `bsp_i2s_read` into the front of the buffer. */
  method Read(buf: array<int16>, data: seq<int16>)
    requires |data| <= buf.Length
    modifies buf
    ensures buf[..] == data + old(buf[|data|..])
  {
    var k := 0;
    while k < |data|
      invariant 0 <= k <= |data|
      invariant forall j :: 0 <= j < k ==> buf[j] == data[j]
      invariant forall j :: k <= j < buf.Length ==> buf[j] == old(buf[j])
    {
      buf[k] := data[k];
      k := k + 1;
    }
    assert buf[..] == data + old(buf[|data|..]);
  }

  /** Conversely, the pass count is the only count with no bit set before
      it and the bit set at it (or the end of the passes). */
  lemma {:induction false} PassesBeforeTeardownIs(flags: seq<bool>, n: nat)
    requires n <= |flags| && (forall k :: 0 <= k < n ==> !flags[k]) && (n < |flags| ==> flags[n])
    ensures PassesBeforeTeardown(flags) == n
    decreases n
  {
    if n > 0 {
      assert !flags[0];
      PassesBeforeTeardownIs(flags[1..], n - 1);
    }
  }

  /** A completed session's recogniser always passes the detection loop's
      readiness test, even after `app_sr_set_language` destroyed its model. */
  lemma CompleteSessionIsReady(d: SrData)
    requires Complete(d)
    ensures MnReady(d)
    ensures MnReady(d.(modelData := ModelFreed))
  {
  }
}
