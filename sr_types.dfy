/** The values that cross the speech-recognition pipeline: what the front end
    (AFE) hands back on each fetch, what the command recogniser (MultiNet)
    reports, and the events queued for the consumer. The enumerations mirror
    the esp-sr ones; their numeric values play no part in the logic. */
module SrTypes {

  /** `wakenet_state_t`: what the wake-word engine reports for a frame. */
  datatype WakenetState = WakenetNoDetect | WakenetChannelVerified | WakenetDetected

  /** `afe_vad_state_t`. Silence is value 0, so a zero-initialised static holds it. */
  datatype VadState = VadSilence | VadSpeech

  /** `esp_mn_state_t`. */
  datatype MnState = MnStateDetecting | MnStateDetected | MnStateTimeout

  /** `sr_result_t`: one event for the consumer of the result queue. */
  datatype SrResult = SrResult(wakenetMode: WakenetState, state: MnState, commandId: int)

  /** The event sent when a wake word is heard or a manual trigger is consumed. */
  const WakeEvent := SrResult(WakenetDetected, MnStateDetecting, 0)

  /** The event sent when a command window ends without a command. */
  const TimeoutEvent := SrResult(WakenetNoDetect, MnStateTimeout, 0)

  /** The event sent when the recogniser reports a command. */
  function CommandEvent(commandId: int): SrResult
  {
    SrResult(WakenetNoDetect, MnStateDetected, commandId)
  }

  /** `ESP_FAIL`, the failure marker in `afe_fetch_result_t.ret_value`. */
  const FetchFail := -1

  /** The parts of `afe_fetch_result_t` the detection loop looks at; the audio
      data handed to the recogniser is summarised by the recogniser's verdict. */
  datatype FetchResult = FetchResult(retValue: int, wakeupState: WakenetState, vadState: VadState)

  /** What `multinet->detect` returns for a frame; for a detected command,
      `commandId0` is `command_id[0]` of `get_results` (the others are only logged). */
  datatype MnVerdict = Detecting | Detected(commandId0: int) | TimedOut

  /** `sr_language_t`. */
  datatype Lang = SrLangEn | SrLangCn | SrLangMax

  /** The `model_data` pointer of a session: NULL, a live recogniser model,
      or a pointer whose model has been destroyed but not reset to NULL. */
  datatype ModelData = ModelNull | ModelLive | ModelFreed
}
