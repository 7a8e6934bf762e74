/** The PicoTTS wrapper of `app_tts.c`: the sample callback that duplicates
    each mono sample into a stereo pair (at most 512 samples per call) in a
    static buffer of 1024 samples, and the playing flag and done bit that
    `app_tts_speak`, the two engine callbacks and `app_tts_wait_done` keep. */
module AppTts {
  import opened Esp

  /** Size of the static `stereo_buf`. */
  const StereoBufLength := 1024
  /** The most mono samples one callback writes. */
  const MaxSamples := 512
  /** `sizeof(int16_t)`. */
  const SampleBytes := 2

  /** The samples one callback writes: `min(count, 512)`. */
  function Clamped(count: nat): (n: nat)
    ensures n <= count && n <= MaxSamples
    ensures n == count || n == MaxSamples
  {
    if count > MaxSamples then MaxSamples else count
  }

  /** The interleaved stereo stream that plays `mono` on both channels. */
  function Stereo(mono: seq<int16>): (r: seq<int16>)
    ensures |r| == 2 * |mono|
    decreases |mono|
  {
    if mono == [] then []
    else Stereo(mono[..|mono| - 1]) + [mono[|mono| - 1], mono[|mono| - 1]]
  }

  /** The even-indexed (left) samples of an interleaved stream. */
  function LeftChannel(s: seq<int16>): (r: seq<int16>)
    requires |s| % 2 == 0
    ensures 2 * |r| == |s|
    decreases |s|
  {
    if s == [] then [] else LeftChannel(s[..|s| - 2]) + [s[|s| - 2]]
  }

  /** The odd-indexed (right) samples of an interleaved stream. */
  function RightChannel(s: seq<int16>): (r: seq<int16>)
    requires |s| % 2 == 0
    ensures 2 * |r| == |s|
    decreases |s|
  {
    if s == [] then [] else RightChannel(s[..|s| - 2]) + [s[|s| - 1]]
  }

  /** Frame i of the stereo stream is sample i twice. */
  lemma {:induction false} StereoFrameAt(mono: seq<int16>, i: nat)
    requires i < |mono|
    ensures Stereo(mono)[2 * i] == mono[i] && Stereo(mono)[2 * i + 1] == mono[i]
    decreases |mono|
  {
    if i < |mono| - 1 {
      var init := mono[..|mono| - 1];
      StereoFrameAt(init, i);
      assert Stereo(mono)[2 * i] == Stereo(init)[2 * i];
      assert Stereo(mono)[2 * i + 1] == Stereo(init)[2 * i + 1];
    }
  }

  /** Each channel of the stereo stream is the mono input. */
  lemma {:induction false} StereoChannels(mono: seq<int16>)
    ensures LeftChannel(Stereo(mono)) == mono
    ensures RightChannel(Stereo(mono)) == mono
    decreases |mono|
  {
    if mono != [] {
      var init := mono[..|mono| - 1];
      var s := Stereo(mono);
      assert s[..|s| - 2] == Stereo(init);
      StereoChannels(init);
      assert mono == init + [mono[|mono| - 1]];
    }
  }

  /** Frame k of `s` is mono sample k on both channels. */
  ghost predicate PairAt(s: seq<int16>, mono: seq<int16>, k: nat)
    requires 2 * k + 1 < |s| && k < |mono|
  {
    s[2 * k] == mono[k] && s[2 * k + 1] == mono[k]
  }

  /** Conversely to `StereoFrameAt`, a stream whose every frame is the
      matching mono sample twice is the stereo stream of the mono input. */
  lemma {:induction false} StereoFromPairs(s: seq<int16>, mono: seq<int16>)
    requires |s| == 2 * |mono|
    requires forall k :: 0 <= k < |mono| ==> PairAt(s, mono, k)
    ensures s == Stereo(mono)
    decreases |mono|
  {
    if mono != [] {
      var n := |mono| - 1;
      forall k | 0 <= k < n
        ensures PairAt(s[..2 * n], mono[..n], k)
      {
        assert PairAt(s, mono, k);
      }
      StereoFromPairs(s[..2 * n], mono[..n]);
      assert PairAt(s, mono, n);
      assert s == s[..2 * n] + [mono[n], mono[n]];
    }
  }

  /** The state of the duplication loop after i samples: the first i frames
      hold the samples, the rest of the buffer is as it was. */
  ghost predicate DuplicateLoop(s: seq<int16>, orig: seq<int16>, mono: seq<int16>, i: nat)
    requires |s| == |orig| && 2 * i <= |s| && i <= |mono|
  {
    && (forall k :: 0 <= k < i ==> PairAt(s, mono, k))
    && (forall j :: 2 * i <= j < |s| ==> s[j] == orig[j])
  }

  /** One pass of the loop writes frame i and nothing after it. */
  lemma DuplicateStep(s: seq<int16>, orig: seq<int16>, mono: seq<int16>, i: nat)
    requires |s| == |orig| && 2 * i + 1 < |s| && i < |mono|
    requires DuplicateLoop(s, orig, mono, i)
    ensures DuplicateLoop(s[2 * i := mono[i]][2 * i + 1 := mono[i]], orig, mono, i + 1)
  {
    var t := s[2 * i := mono[i]][2 * i + 1 := mono[i]];
    assert PairAt(t, mono, i);
    forall k | 0 <= k < i
      ensures PairAt(t, mono, k)
    {
      assert PairAt(s, mono, k);
    }
  }

  /** Lines 39-42: the first n samples of `mono` duplicated into `stereo`. */
  method Duplicate(stereo: array<int16>, mono: seq<int16>, n: nat)
    requires n <= |mono| && 2 * n <= stereo.Length
    modifies stereo
    ensures stereo[..2 * n] == Stereo(mono[..n])
    ensures stereo[2 * n..] == old(stereo[2 * n..])
  {
    ghost var orig := stereo[..];
    var i := 0;
    while i < n
      invariant 0 <= i <= n
      invariant DuplicateLoop(stereo[..], orig, mono, i)
    {
      ghost var before := stereo[..];
      stereo[i * 2] := mono[i];
      stereo[i * 2 + 1] := mono[i];
      assert stereo[..] == before[2 * i := mono[i]][2 * i + 1 := mono[i]];
      DuplicateStep(before, orig, mono, i);
      i := i + 1;
    }
    forall k | 0 <= k < n
      ensures PairAt(stereo[..2 * n], mono[..n], k)
    {
      assert PairAt(stereo[..], mono, k);
    }
    StereoFromPairs(stereo[..2 * n], mono[..n]);
    assert stereo[2 * n..] == orig[2 * n..];
  }

  /** One `bsp_i2s_write` call: the samples and the byte count passed. */
  datatype I2sWrite = I2sWrite(samples: seq<int16>, bytes: nat)

  class TtsPlayer {
    /** `g_tts_playing`. */
    var playing: bool
    /** The `TTS_DONE_BIT` of `tts_event_group`. */
    var doneBit: bool
    /** `g_speaker_dev`: whether the cached speaker handle is not NULL. */
    var speakerDev: bool
    /** The static `stereo_buf`. */
    const stereoBuf: array<int16>

    /** The buffer has its static size, and the done bit is never set while
        speech is in progress. */
    ghost predicate Valid()
      reads this
    {
      stereoBuf.Length == StereoBufLength && (doneBit ==> !playing)
    }

    /** Static initialisation: not playing, done bit clear, no cached handle. */
    constructor ()
      ensures Valid() && fresh(stereoBuf)
      ensures !playing && !doneBit && !speakerDev
    {
      playing := false;
      doneBit := false;
      speakerDev := false;
      stereoBuf := new int16[StereoBufLength];
    }

    /** Lines 28-46: `tts_sample_cb(buf, count)` with `count == |buf|`.
        `handleAvailable` is what `bsp_board_get_play_handle` returns when it
        is asked, which happens only while no handle is cached. */
    method SampleCallback(buf: seq<int16>, handleAvailable: bool) returns (write: Option<I2sWrite>)
      requires Valid()
      modifies this, stereoBuf
      ensures Valid() && playing == old(playing) && doneBit == old(doneBit)
      ensures speakerDev == (old(speakerDev) || handleAvailable)
      ensures write.Some? <==> speakerDev && |buf| > 0
      ensures write.None? ==> stereoBuf[..] == old(stereoBuf[..])
      ensures write.Some? ==>
        var n := Clamped(|buf|);
        && write.value == I2sWrite(Stereo(buf[..n]), n * 2 * SampleBytes)
        && stereoBuf[..2 * n] == Stereo(buf[..n])
        && stereoBuf[2 * n..] == old(stereoBuf[2 * n..])
    {
      if !speakerDev {
        speakerDev := handleAvailable;
      }
      if !speakerDev || |buf| == 0 {
        return None;
      }
      var toWrite := if |buf| > MaxSamples then MaxSamples else |buf|;
      Duplicate(stereoBuf, buf, toWrite);
      write := Some(I2sWrite(stereoBuf[..2 * toWrite], toWrite * 2 * SampleBytes));
    }

    /** Lines 95-112: `app_tts_speak`. */
    method Speak(text: Option<seq<char>>) returns (ret: EspErr)
      requires Valid()
      modifies this
      ensures Valid() && speakerDev == old(speakerDev)
      ensures text.None? ==> ret == ErrInvalidArg && playing == old(playing) && doneBit == old(doneBit)
      ensures text.Some? ==> ret == EspOk && playing && !doneBit
    {
      if text.None? {
        return ErrInvalidArg;
      }
      playing := true;
      doneBit := false;
      return EspOk;
    }

    /** Lines 48-58: `tts_done_cb`. */
    method DoneCallback()
      requires Valid()
      modifies this
      ensures Valid() && speakerDev == old(speakerDev)
      ensures !playing && doneBit
    {
      playing := false;
      doneBit := true;
    }

    /** Lines 60-65: `tts_error_cb`. */
    method ErrorCallback()
      requires Valid()
      modifies this
      ensures Valid() && speakerDev == old(speakerDev)
      ensures !playing && doneBit
    {
      playing := false;
      doneBit := true;
    }

    /** Lines 127-131: `app_tts_wait_done`, with the bit as it stands when
        the wait ends. */
    method WaitDone(timeoutMs: nat) returns (ret: EspErr)
      requires Valid()
      modifies this
      ensures Valid() && speakerDev == old(speakerDev)
      ensures ret == (if old(doneBit) then EspOk else ErrTimeout)
      ensures !doneBit && playing == old(playing)
    {
      ret := if doneBit then EspOk else ErrTimeout;
      doneBit := false;
    }

    /** Lines 122-125: `app_tts_is_playing`. */
    method IsPlaying() returns (p: bool)
      requires Valid()
      ensures p == playing
      ensures p ==> !doneBit
    {
      p := playing;
    }

    /** Lines 114-120: `app_tts_stop` does nothing. */
    method Stop() returns (ret: EspErr)
      ensures ret == EspOk
    {
      ret := EspOk;
    }
  }

  /** The speak-and-wait protocol of lines 48-65 and 95-131: after speaking
      starts a wait times out; after the end-of-speech callback one wait
      succeeds and the next times out again, with speech no longer playing. */
  method SpeakWaitProtocol(p: TtsPlayer, text: seq<char>) returns (first: EspErr, second: EspErr, third: EspErr)
    requires p.Valid()
    modifies p
    ensures first == ErrTimeout && second == EspOk && third == ErrTimeout
    ensures p.Valid() && !p.playing && !p.doneBit
  {
    var _ := p.Speak(Some(text));
    first := p.WaitDone(0);
    p.DoneCallback();
    second := p.WaitDone(0);
    third := p.WaitDone(0);
  }
}
