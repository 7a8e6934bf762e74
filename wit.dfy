/** The Wit.ai client of `wit.c`: the stored token, the response collector
    that the HTTP event handler appends to, the live-transcript callback, the
    streaming client's state machine and the scan that picks the final
    result out of the streamed JSON objects. JSON parsing is an oracle: a
    function from the text at a `'{'` to the object cJSON would build, if any. */
module Wit {
  import opened Esp

  /** `KEY_SIZE`: the token buffer holds at most 164 characters and a NUL. */
  const KeySize := 165

  // ---------------------------------------------------------------------
  // Token

  /** The token `wit_init` stores for a non-empty `tok`. */
  function StoredToken(tok: seq<char>): (r: seq<char>)
    ensures |r| <= KeySize - 1 && |r| <= |tok| && r == tok[..|r|]
    ensures |r| == KeySize - 1 || r == tok
  {
    if |tok| <= KeySize - 1 then tok else tok[..KeySize - 1]
  }

  /** What `strncpy(g_token, tok, 164)` leaves in the first 164 characters:
      the first n characters of `tok`, padded with NULs when it is shorter. */
  function Strncpy(tok: seq<char>, n: nat): (r: seq<char>)
    ensures |r| == n
    ensures n <= |tok| ==> r == tok[..n]
    ensures |tok| < n ==> r[..|tok|] == tok && forall i :: |tok| <= i < n ==> r[i] == '\0'
  {
    seq(n, i requires 0 <= i < n => if i < |tok| then tok[i] else '\0')
  }

  /** The stored token reads back as the input cut to 164 characters, and
      storing it again stores the same token. */
  lemma StoredTokenReadsBack(tok: seq<char>)
    requires '\0' !in tok
    ensures CString(Strncpy(tok, KeySize - 1) + ['\0']) == StoredToken(tok)
    ensures StoredToken(StoredToken(tok)) == StoredToken(tok)
  {
    var a := Strncpy(tok, KeySize - 1) + ['\0'];
    var n := |StoredToken(tok)|;
    assert a[..n] == StoredToken(tok);
    CStringOfPadded(a, n);
  }

  // ---------------------------------------------------------------------
  // JSON objects as cJSON reports them

  /** An object member: absent, a string, or some other JSON value. */
  datatype JsonItem = Missing | JString(s: seq<char>) | JOther

  /** One element of `intents`. */
  datatype IntentObj = IntentObj(name: JsonItem, confidence: real)

  /** The members of a parsed Wit object that the client reads; `intents`
      is None unless the member is an array. */
  datatype WitObject = WitObject(typ: JsonItem, text: JsonItem, intents: Option<seq<IntentObj>>)

  /** `cJSON_Parse` on the C string starting at a given position. */
  type Parser = seq<char> -> Option<WitObject>

  /** `wit_nlu_result_t`; NULL strings are None. */
  datatype NluResult = NluResult(text: Option<seq<char>>, intent: Option<seq<char>>, intentConf: real)

  /** A result as `calloc` returns it. */
  const EmptyNlu := NluResult(None, None, 0.0)

  /** `type` is a string containing `"FINAL"`. */
  predicate IsFinalType(t: JsonItem)
  {
    t.JString? && Contains(t.s, "FINAL")
  }

  predicate IsFinal(o: Option<WitObject>)
  {
    o.Some? && IsFinalType(o.value.typ)
  }

  /** The object's first intent has a string name. */
  predicate HasIntent(o: WitObject)
  {
    o.intents.Some? && |o.intents.value| > 0 && o.intents.value[0].name.JString?
  }

  /** Lines 111-126 and 233-249: a parsed object's fields written into a result. */
  function Fill(r: NluResult, o: WitObject): (f: NluResult)
    ensures f.text == if o.text.JString? then Some(o.text.s) else r.text
    ensures !HasIntent(o) ==> f.intent == r.intent && f.intentConf == r.intentConf
    ensures HasIntent(o) ==>
      f.intent == Some(o.intents.value[0].name.s) && f.intentConf == o.intents.value[0].confidence
  {
    var r1 := if o.text.JString? then r.(text := Some(o.text.s)) else r;
    if HasIntent(o) then
      r1.(intent := Some(o.intents.value[0].name.s), intentConf := o.intents.value[0].confidence)
    else r1
  }

  /** One object seen by the scan of `wit_stt_stream_stop`. */
  function Absorb(res: Option<NluResult>, o: Option<WitObject>): Option<NluResult>
  {
    if IsFinal(o) then Some(Fill(if res.Some? then res.value else EmptyNlu, o.value)) else res
  }

  /** The scan's result after a sequence of parse outcomes. */
  function SelectFinal(objs: seq<Option<WitObject>>): Option<NluResult>
    decreases |objs|
  {
    if objs == [] then None
    else Absorb(SelectFinal(objs[..|objs| - 1]), objs[|objs| - 1])
  }

  predicate HasFinalText(o: Option<WitObject>)
  {
    IsFinal(o) && o.value.text.JString?
  }

  predicate HasFinalIntent(o: Option<WitObject>)
  {
    IsFinal(o) && HasIntent(o.value)
  }

  /** The scan yields NULL exactly when no object is FINAL. */
  lemma {:induction false} SelectNoneIffNoFinal(objs: seq<Option<WitObject>>)
    ensures SelectFinal(objs).None? <==> forall i :: 0 <= i < |objs| ==> !IsFinal(objs[i])
    decreases |objs|
  {
    if objs != [] {
      var init := objs[..|objs| - 1];
      SelectNoneIffNoFinal(init);
      assert forall i :: 0 <= i < |init| ==> init[i] == objs[i];
    }
  }

  /** The text is that of the last FINAL object with a string `text`. */
  lemma {:induction false} LastFinalTextWins(objs: seq<Option<WitObject>>, i: nat)
    requires i < |objs| && HasFinalText(objs[i])
    requires forall j :: i < j < |objs| ==> !HasFinalText(objs[j])
    ensures SelectFinal(objs).Some? && SelectFinal(objs).value.text == Some(objs[i].value.text.s)
    decreases |objs|
  {
    if i < |objs| - 1 {
      var init := objs[..|objs| - 1];
      LastFinalTextWins(init, i);
    }
  }

  /** The intent and its confidence are those of the last FINAL object
      whose first intent has a string name. */
  lemma {:induction false} LastFinalIntentWins(objs: seq<Option<WitObject>>, i: nat)
    requires i < |objs| && HasFinalIntent(objs[i])
    requires forall j :: i < j < |objs| ==> !HasFinalIntent(objs[j])
    ensures var r := SelectFinal(objs);
      && r.Some?
      && r.value.intent == Some(objs[i].value.intents.value[0].name.s)
      && r.value.intentConf == objs[i].value.intents.value[0].confidence
    decreases |objs|
  {
    if i < |objs| - 1 {
      var init := objs[..|objs| - 1];
      LastFinalIntentWins(init, i);
    }
  }

  /** Without any FINAL object carrying a string text, the result has no text. */
  lemma {:induction false} NoFinalTextNoText(objs: seq<Option<WitObject>>)
    requires forall j :: 0 <= j < |objs| ==> !HasFinalText(objs[j])
    ensures SelectFinal(objs).None? || SelectFinal(objs).value.text.None?
    decreases |objs|
  {
    if objs != [] {
      NoFinalTextNoText(objs[..|objs| - 1]);
    }
  }

  /** The fields are chosen separately: a later FINAL object without an
      intent replaces the text but keeps the earlier intent. */
  lemma FieldsChosenSeparately()
    ensures var a := WitObject(JString("FINAL_UNDERSTANDING"), JString("hi bro"),
                               Some([IntentObj(JString("greet"), 0.75)]));
      var b := WitObject(JString("FINAL_TRANSCRIPTION"), JString("hi bro!"), None);
      SelectFinal([Some(a), Some(b)]) == Some(NluResult(Some("hi bro!"), Some("greet"), 0.75))
  {
    assert OccursAt("FINAL_UNDERSTANDING", "FINAL", 0);
    assert OccursAt("FINAL_TRANSCRIPTION", "FINAL", 0);
    var a := WitObject(JString("FINAL_UNDERSTANDING"), JString("hi bro"),
                       Some([IntentObj(JString("greet"), 0.75)]));
    var b := WitObject(JString("FINAL_TRANSCRIPTION"), JString("hi bro!"), None);
    assert [Some(a), Some(b)][..1] == [Some(a)];
    assert [Some(a)][..0] == [];
  }

  /** The parse outcomes, in order, for every `'{'` among the first `n`
      characters of the C string `s`. */
  function Objects(s: seq<char>, n: nat, parse: Parser): (objs: seq<Option<WitObject>>)
    requires n <= |s|
    ensures |objs| <= n
    decreases n
  {
    if n == 0 then []
    else Objects(s, n - 1, parse) + (if s[n - 1] == '{' then [parse(s[n - 1..])] else [])
  }

  /** `strstr(ptr, "{")`: the first `'{'` at or after `p`, or `|s|`. */
  function NextBrace(s: seq<char>, p: nat): (q: nat)
    requires p <= |s|
    ensures p <= q <= |s|
    ensures forall j :: p <= j < q ==> s[j] != '{'
    ensures q < |s| ==> s[q] == '{'
    decreases |s| - p
  {
    if p == |s| || s[p] == '{' then p else NextBrace(s, p + 1)
  }

  lemma {:induction false} ObjectsSkip(s: seq<char>, p: nat, q: nat, parse: Parser)
    requires p <= q <= |s|
    requires forall j :: p <= j < q ==> s[j] != '{'
    ensures Objects(s, q, parse) == Objects(s, p, parse)
    decreases q - p
  {
    if p < q {
      ObjectsSkip(s, p, q - 1, parse);
    }
  }

  // ---------------------------------------------------------------------
  // Live transcript

  /** `strrchr(s, '{')`. */
  function LastBrace(s: seq<char>): (r: Option<nat>)
    ensures r.Some? ==>
      && r.value < |s| && s[r.value] == '{'
      && forall j :: r.value < j < |s| ==> s[j] != '{'
    ensures r.None? ==> forall j :: 0 <= j < |s| ==> s[j] != '{'
    decreases |s|
  {
    if s == [] then None
    else if s[|s| - 1] == '{' then Some(|s| - 1)
    else LastBrace(s[..|s| - 1])
  }

  /** What the live callback receives: a transcript and whether it is final. */
  datatype Transcript = Transcript(text: seq<char>, isFinal: bool)

  /** Lines 48-57: the last object in the collected text, if it parses and
      has a non-empty string `text`. */
  function LiveTranscript(s: seq<char>, parse: Parser): Option<Transcript>
  {
    match LastBrace(s)
    case None => None
    case Some(i) =>
      var o := parse(s[i..]);
      if o.Some? && o.value.text.JString? && |o.value.text.s| > 0
      then Some(Transcript(o.value.text.s, IsFinalType(o.value.typ)))
      else None
  }

  /** The exact `"FINAL_TRANSCRIPTION"` test adds nothing to the `"FINAL"`
      substring test that follows it. */
  lemma ExactFinalIsFinal(t: JsonItem)
    requires t.JString? && t.s == "FINAL_TRANSCRIPTION"
    ensures IsFinalType(t)
  {
    assert OccursAt(t.s, "FINAL", 0);
  }

  // ---------------------------------------------------------------------
  // Response collector

  /** `response_collector_t`. */
  class Collector {
    var buf: array?<char>
    var size: int

    ghost predicate Valid()
      reads this, buf
    {
      && 0 <= size
      && (buf == null ==> size == 0)
      && (buf != null ==> buf.Length == size + 1 && buf[size] == '\0')
    }

    /** The bytes collected so far. */
    function Contents(): seq<char>
      reads this, buf
      requires Valid()
    {
      if buf == null then [] else buf[..size]
    }

    /** The collected bytes as the C string that `strrchr`, `strstr` and
        `cJSON_Parse` see. */
    function Text(): seq<char>
      reads this, buf
      requires Valid()
    {
      if buf == null then [] else CString(buf[..])
    }

    constructor ()
      ensures Valid() && buf == null && size == 0
    {
      buf := null;
      size := 0;
    }

    /** Lines 39-42: `realloc`, `memcpy` of the chunk, size update, NUL. */
    method Append(data: seq<char>)
      requires Valid() && |data| > 0
      modifies this
      ensures Valid() && buf != null && fresh(buf)
      ensures size == old(size) + |data|
      ensures Contents() == old(Contents()) + data
    {
      var prev := Contents();
      var n := size + |data| + 1;
      var nb := new char[n](i requires 0 <= i < n => if i < |prev| then prev[i] else '\0');
      forall j | 0 <= j < |data| {
        nb[size + j] := data[j];
      }
      size := size + |data|;
      nb[size] := '\0';
      buf := nb;
      assert buf[..size] == prev + data;
    }

    /** `memset(&collector, 0, sizeof collector)`. */
    method Clear()
      modifies this
      ensures Valid() && buf == null && size == 0
    {
      buf := null;
      size := 0;
    }
  }

  // ---------------------------------------------------------------------
  // The client

  /** What an HTTP exchange yields: whether `esp_http_client_perform`
      succeeded, the status code, and the collector's buffer afterwards
      (None while no data arrived). */
  datatype HttpOutcome = HttpOutcome(performOk: bool, status: int, body: Option<seq<char>>)

  /** `gemini_response_t`: the audio and its length. */
  datatype AudioResponse = AudioResponse(audio: seq<char>, audioLen: int)

  /** The exchange delivered a body with status 200. */
  predicate Delivered(h: HttpOutcome)
  {
    h.performOk && h.status == 200 && h.body.Some?
  }

  /** The globals of `wit.c`. A callback is named by an opaque number. */
  class WitClient {
    /** `g_token`. */
    const token: array<char>
    /** `g_stream_client != NULL`. */
    var streamClient: bool
    /** `g_stream_ready`. */
    var streamReady: bool
    /** `g_stt_cb`. */
    var sttCb: Option<nat>
    /** `g_stream_collector`. */
    const streamCollector: Collector

    ghost predicate Valid()
      reads this, token, streamCollector, streamCollector.buf
    {
      && token.Length == KeySize && token[KeySize - 1] == '\0'
      && streamCollector.Valid()
      && (streamReady ==> streamClient)
    }

    /** `strlen(g_token) == 0`. */
    predicate NoToken()
      reads this, token
    {
      CString(token[..]) == []
    }

    /** Static initialisation: zeroed token, no stream, no callback. */
    constructor ()
      ensures Valid() && fresh(token) && fresh(streamCollector)
      ensures forall i :: 0 <= i < token.Length ==> token[i] == '\0'
      ensures !streamClient && !streamReady && sttCb.None?
      ensures streamCollector.buf == null
    {
      token := new char[KeySize](_ => '\0');
      streamClient := false;
      streamReady := false;
      sttCb := None;
      streamCollector := new Collector();
    }

    /** Lines 22-29: `wit_init`. A NULL or empty token changes nothing. */
    method Init(tok: Option<seq<char>>)
      requires Valid() && (tok.Some? ==> '\0' !in tok.value)
      modifies token
      ensures Valid()
      ensures tok.None? || tok.value == [] ==> token[..] == old(token[..])
      ensures tok.Some? && tok.value != [] ==>
        && token[..] == Strncpy(tok.value, KeySize - 1) + ['\0']
        && CString(token[..]) == StoredToken(tok.value)
    {
      if tok.Some? && |tok.value| > 0 {
        var t := tok.value;
        forall i | 0 <= i < KeySize - 1 {
          token[i] := if i < |t| then t[i] else '\0';
        }
        assert token[..] == Strncpy(t, KeySize - 1) + ['\0'];
        StoredTokenReadsBack(t);
      }
    }

    /** Lines 37-63: the ON_DATA event for the collector `collector`; the
        result is the call made to the live callback, if any. */
    method OnData(collector: Collector?, data: seq<char>, parse: Parser) returns (live: Option<Transcript>)
      requires collector != null ==> collector.Valid()
      modifies collector
      ensures collector != null ==> collector.Valid()
      ensures collector == null || |data| == 0 ==> live.None? && (collector != null ==> unchanged(collector))
      ensures collector != null && |data| > 0 ==>
        && collector.Contents() == old(collector.Contents()) + data
        && live == (if sttCb.Some? then LiveTranscript(collector.Text(), parse) else None)
    {
      live := None;
      if collector == null || |data| == 0 {
        return;
      }
      collector.Append(data);
      if sttCb.None? {
        return;
      }
      var s := collector.Text();
      var lastBrace := LastBrace(s);
      if lastBrace.None? {
        return;
      }
      var root := parse(s[lastBrace.value..]);
      if root.None? {
        return;
      }
      var o := root.value;
      var exact := o.typ.JString? && o.typ.s == "FINAL_TRANSCRIPTION";
      if exact {
        ExactFinalIsFinal(o.typ);
      }
      if o.text.JString? && |o.text.s| > 0 {
        live := Some(Transcript(o.text.s, exact || IsFinalType(o.typ)));
      }
    }

    /** Lines 149-182: `wit_stt_stream_start`; `openResult` is what
        `esp_http_client_open` returns. */
    method StreamStart(cb: Option<nat>, openResult: EspErr) returns (ret: EspErr)
      requires Valid()
      modifies this, streamCollector
      ensures Valid()
      ensures old(streamClient) ==>
        && ret == ErrInvalidState
        && unchanged(this) && unchanged(streamCollector)
      ensures !old(streamClient) ==>
        && ret == openResult && sttCb == cb
        && streamCollector.buf == null && streamCollector.size == 0
        && streamClient == (openResult == EspOk) && streamReady == (openResult == EspOk)
    {
      if streamClient {
        return ErrInvalidState;
      }
      sttCb := cb;
      streamReady := false;
      streamCollector.Clear();
      streamClient := true;
      if openResult != EspOk {
        streamClient := false;
        return openResult;
      }
      streamReady := true;
      return EspOk;
    }

    /** Lines 184-207: `wit_stt_stream_feed`; `written` is what
        `esp_http_client_write` returns. */
    method StreamFeed(pcm: seq<bv8>, written: int) returns (ret: EspErr)
      requires Valid()
      modifies this
      ensures Valid() && streamClient == old(streamClient) && sttCb == old(sttCb)
      ensures !(old(streamClient) && old(streamReady)) ==> ret == ErrInvalidState && streamReady == old(streamReady)
      ensures old(streamClient) && old(streamReady) && written < 0 ==> ret == EspFail && !streamReady
      ensures old(streamClient) && old(streamReady) && written >= 0 ==> ret == EspOk && streamReady
    {
      if !streamClient || !streamReady {
        return ErrInvalidState;
      }
      if written < 0 {
        streamReady := false;
        return EspFail;
      }
      return EspOk;
    }

    /** Lines 209-264: `wit_stt_stream_stop`. */
    method StreamStop(parse: Parser) returns (res: Option<NluResult>)
      requires Valid()
      modifies this, streamCollector
      ensures Valid()
      ensures !old(streamClient) ==> res.None? && unchanged(this) && unchanged(streamCollector)
      ensures old(streamClient) ==>
        && res == SelectFinal(Objects(old(streamCollector.Text()), |old(streamCollector.Text())|, parse))
        && !streamClient && !streamReady && sttCb.None?
        && streamCollector.buf == null && streamCollector.size == 0
    {
      if !streamClient {
        return None;
      }
      streamReady := false;
      var s := streamCollector.Text();
      res := None;
      if streamCollector.buf != null {
        var p := 0;
        while true
          modifies {}
          invariant 0 <= p <= |s|
          invariant res == SelectFinal(Objects(s, p, parse))
          decreases |s| - p
        {
          var q := NextBrace(s, p);
          ObjectsSkip(s, p, q, parse);
          if q == |s| {
            break;
          }
          var root := parse(s[q..]);
          if root.Some? && IsFinalType(root.value.typ) {
            var r := if res.Some? then res.value else EmptyNlu;
            res := Some(Fill(r, root.value));
          }
          assert Objects(s, q + 1, parse) == Objects(s, q, parse) + [root];
          p := q + 1;
        }
      }
      streamClient := false;
      sttCb := None;
      streamCollector.Clear();
    }

    /** Lines 70-139: `wit_stt_query`, with the exchange as an input. */
    method SttQuery(pcm: Option<seq<bv8>>, http: HttpOutcome, parse: Parser) returns (res: Option<NluResult>)
      requires Valid()
      ensures NoToken() || pcm.None? ==> res.None?
      ensures !NoToken() && pcm.Some? ==>
        (res.Some? <==> Delivered(http) && parse(CString(http.body.value)).Some?)
      ensures res.Some? ==> res.value == Fill(EmptyNlu, parse(CString(http.body.value)).value)
    {
      if CString(token[..]) == [] || pcm.None? {
        return None;
      }
      res := None;
      if http.performOk && http.status == 200 && http.body.Some? {
        var root := parse(CString(http.body.value));
        if root.Some? {
          res := Some(Fill(EmptyNlu, root.value));
        }
      }
    }

    /** Lines 266-325: `wit_tts_query`, with the exchange as an input; the
        response takes over the collected bytes. */
    method TtsQuery(text: Option<seq<char>>, http: HttpOutcome) returns (res: Option<AudioResponse>)
      requires Valid()
      ensures NoToken() || text.None? ==> res.None?
      ensures !NoToken() && text.Some? ==> (res.Some? <==> Delivered(http))
      ensures res.Some? ==> res.value.audio == http.body.value && res.value.audioLen == |http.body.value|
    {
      if CString(token[..]) == [] || text.None? {
        return None;
      }
      res := None;
      if http.performOk && http.status == 200 && http.body.Some? {
        res := Some(AudioResponse(http.body.value, |http.body.value|));
      }
    }
  }
}
