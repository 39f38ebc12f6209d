/** The floating translation overlay: the transcript reducer fed by the speech
    recognizer's result events, the unsupported-browser error record, the pause
    control that starts and stops the recognizer, and the render keys of the
    transcript lines. */
module Overlay {

  import opened Wrappers

  /** What the recognizer's result handler reads off one result event: the
      index of the changed result, the text of its first alternative and
      whether that result is final. */
  datatype ResultEvent = ResultEvent(resultIndex: nat, transcript: string, isFinal: bool)

  /** One line of the transcript. `id` is a millisecond clock reading (or 0 for
      the error record) and is not unique. */
  datatype Record = Record(id: nat, original: string, translated: string, isUser: bool)

  /** The fixed marker that the mock translation puts in front of the text. */
  const TranslationPrefix: string := "अनुवाद: "

  /** The record shown when the browser has no speech recognition. */
  const UnsupportedRecord: Record := Record(0, "Error", "Browser not supported", false)

  /** The mock "translation" of a final transcript: the marker, then the text. */
  function MockTranslation(transcript: string): (r: string)
    ensures |r| == |TranslationPrefix| + |transcript|
    ensures r[..|TranslationPrefix|] == TranslationPrefix
    ensures r[|TranslationPrefix|..] == transcript
  {
    TranslationPrefix + transcript
  }

  /** Recovers the text from a mock translation; `None` when the marker is missing. */
  function StripTranslationPrefix(translated: string): (r: Option<string>)
    ensures r.Some? <==> |translated| >= |TranslationPrefix| && translated[..|TranslationPrefix|] == TranslationPrefix
    ensures r.Some? ==> translated == TranslationPrefix + r.value
  {
    if |translated| >= |TranslationPrefix| && translated[..|TranslationPrefix|] == TranslationPrefix then
      Some(translated[|TranslationPrefix|..])
    else
      None
  }

  /** Stripping the marker undoes the mock translation. */
  lemma StripMockTranslation(transcript: string)
    ensures StripTranslationPrefix(MockTranslation(transcript)) == Some(transcript)
  {
  }

  /** Distinct transcripts get distinct mock translations. */
  lemma MockTranslationInjective(t1: string, t2: string)
    ensures MockTranslation(t1) == MockTranslation(t2) ==> t1 == t2
  {
  }

  /** The record a final result event appends. */
  function FinalRecord(transcript: string, id: nat): (r: Record)
    ensures r.id == id && r.original == transcript && r.isUser
    ensures StripTranslationPrefix(r.translated) == Some(transcript)
  {
    StripMockTranslation(transcript);
    Record(id, transcript, MockTranslation(transcript), true)
  }

  /** The state update of the result handler: a final event appends one record
      to the end; an interim event leaves the transcript as it is. */
  function AppendResult(prev: seq<Record>, e: ResultEvent, id: nat): (r: seq<Record>)
    ensures !e.isFinal ==> r == prev
    ensures e.isFinal ==> |r| == |prev| + 1 && r[..|prev|] == prev && r[|prev|] == FinalRecord(e.transcript, id)
  {
    if e.isFinal then prev + [FinalRecord(e.transcript, id)] else prev
  }

  /** The result handler applied to a sequence of events, event i receiving the
      clock reading ids[i] (read only when the event is final). */
  function ReduceEvents(prev: seq<Record>, events: seq<ResultEvent>, ids: seq<nat>): (r: seq<Record>)
    requires |ids| == |events|
    ensures |prev| <= |r| <= |prev| + |events|
    decreases |events|
  {
    if events == [] then prev
    else ReduceEvents(AppendResult(prev, events[0], ids[0]), events[1..], ids[1..])
  }

  /** The number of final events in a sequence. */
  function FinalCount(events: seq<ResultEvent>): nat
  {
    if events == [] then 0
    else (if events[0].isFinal then 1 else 0) + FinalCount(events[1..])
  }

  /** The transcripts of the final events, in event order. */
  function FinalTranscripts(events: seq<ResultEvent>): seq<string>
  {
    if events == [] then []
    else (if events[0].isFinal then [events[0].transcript] else []) + FinalTranscripts(events[1..])
  }

  /** The records the final events of a sequence create, independently of any
      starting transcript. */
  function FinalRecords(events: seq<ResultEvent>, ids: seq<nat>): seq<Record>
    requires |ids| == |events|
  {
    if events == [] then []
    else (if events[0].isFinal then [FinalRecord(events[0].transcript, ids[0])] else [])
         + FinalRecords(events[1..], ids[1..])
  }

  /** The original texts of a transcript, in order. */
  function Originals(ts: seq<Record>): (r: seq<string>)
    ensures |r| == |ts|
    ensures forall i :: 0 <= i < |ts| ==> r[i] == ts[i].original
  {
    if ts == [] then [] else [ts[0].original] + Originals(ts[1..])
  }

  /** The originals of two joined transcripts are the two lists of originals joined. */
  lemma {:induction false} OriginalsAppend(a: seq<Record>, b: seq<Record>)
    ensures Originals(a + b) == Originals(a) + Originals(b)
    decreases |a|
  {
    if a == [] {
      assert a + b == b;
    } else {
      assert (a + b)[1..] == a[1..] + b;
      OriginalsAppend(a[1..], b);
    }
  }

  /** Reducing events appends exactly the records their final events create. */
  lemma {:induction false} ReduceEventsAppends(prev: seq<Record>, events: seq<ResultEvent>, ids: seq<nat>)
    requires |ids| == |events|
    ensures ReduceEvents(prev, events, ids) == prev + FinalRecords(events, ids)
    decreases |events|
  {
    if events != [] {
      var head := if events[0].isFinal then [FinalRecord(events[0].transcript, ids[0])] else [];
      var rest := FinalRecords(events[1..], ids[1..]);
      assert AppendResult(prev, events[0], ids[0]) == prev + head;
      calc {
        ReduceEvents(prev, events, ids);
        ReduceEvents(prev + head, events[1..], ids[1..]);
        { ReduceEventsAppends(prev + head, events[1..], ids[1..]); }
        (prev + head) + rest;
        { assert (prev + head) + rest == prev + (head + rest); }
        prev + (head + rest);
        prev + FinalRecords(events, ids);
      }
    }
  }

  /** One record per final event. */
  lemma {:induction false} FinalRecordsCount(events: seq<ResultEvent>, ids: seq<nat>)
    requires |ids| == |events|
    ensures |FinalRecords(events, ids)| == FinalCount(events)
    decreases |events|
  {
    if events != [] {
      FinalRecordsCount(events[1..], ids[1..]);
    }
  }

  /** The records of the final events carry their transcripts, in event order. */
  lemma {:induction false} FinalRecordsOriginals(events: seq<ResultEvent>, ids: seq<nat>)
    requires |ids| == |events|
    ensures Originals(FinalRecords(events, ids)) == FinalTranscripts(events)
    decreases |events|
  {
    if events != [] {
      var head := if events[0].isFinal then [FinalRecord(events[0].transcript, ids[0])] else [];
      FinalRecordsOriginals(events[1..], ids[1..]);
      OriginalsAppend(head, FinalRecords(events[1..], ids[1..]));
    }
  }

  /** Every record the final events create is a user line whose translation is
      the mock translation of its original. */
  lemma {:induction false} FinalRecordsShape(events: seq<ResultEvent>, ids: seq<nat>, k: nat)
    requires |ids| == |events|
    requires k < |FinalRecords(events, ids)|
    ensures FinalRecords(events, ids)[k].isUser
    ensures FinalRecords(events, ids)[k].translated == MockTranslation(FinalRecords(events, ids)[k].original)
    decreases |events|
  {
    if events[0].isFinal {
      if k > 0 {
        FinalRecordsShape(events[1..], ids[1..], k - 1);
      }
    } else {
      FinalRecordsShape(events[1..], ids[1..], k);
    }
  }

  /** After any sequence of events: the earlier records are kept unchanged and
      in place, the length grows by the number of final events, the new
      originals are the final transcripts in event order, and every new record
      is a user line carrying the mock translation. */
  lemma ReduceEventsSpec(prev: seq<Record>, events: seq<ResultEvent>, ids: seq<nat>)
    requires |ids| == |events|
    ensures |ReduceEvents(prev, events, ids)| == |prev| + FinalCount(events)
    ensures ReduceEvents(prev, events, ids)[..|prev|] == prev
    ensures Originals(ReduceEvents(prev, events, ids)) == Originals(prev) + FinalTranscripts(events)
    ensures forall k :: |prev| <= k < |ReduceEvents(prev, events, ids)| ==>
              ReduceEvents(prev, events, ids)[k].isUser &&
              ReduceEvents(prev, events, ids)[k].translated == MockTranslation(ReduceEvents(prev, events, ids)[k].original)
  {
    var fr := FinalRecords(events, ids);
    ReduceEventsAppends(prev, events, ids);
    FinalRecordsCount(events, ids);
    FinalRecordsOriginals(events, ids);
    OriginalsAppend(prev, fr);
    assert (prev + fr)[..|prev|] == prev;
    forall k | |prev| <= k < |prev| + |fr|
      ensures (prev + fr)[k].isUser && (prev + fr)[k].translated == MockTranslation((prev + fr)[k].original)
    {
      FinalRecordsShape(events, ids, k - |prev|);
    }
  }

  /** A sequence of interim events leaves the transcript unchanged. */
  lemma InterimEventsChangeNothing(prev: seq<Record>, events: seq<ResultEvent>, ids: seq<nat>)
    requires |ids| == |events|
    requires forall i :: 0 <= i < |events| ==> !events[i].isFinal
    ensures ReduceEvents(prev, events, ids) == prev
  {
    NoFinalsCountZero(events);
    ReduceEventsSpec(prev, events, ids);
  }

  /** A sequence with no final event has no final events to count. */
  lemma {:induction false} NoFinalsCountZero(events: seq<ResultEvent>)
    requires forall i :: 0 <= i < |events| ==> !events[i].isFinal
    ensures FinalCount(events) == 0
    decreases |events|
  {
    if events != [] {
      assert !events[0].isFinal;
      NoFinalsCountZero(events[1..]);
    }
  }

  /** Handling events in two batches is handling them all at once. */
  lemma {:induction false} ReduceEventsConcat(prev: seq<Record>, e1: seq<ResultEvent>, i1: seq<nat>, e2: seq<ResultEvent>, i2: seq<nat>)
    requires |i1| == |e1| && |i2| == |e2|
    ensures ReduceEvents(prev, e1 + e2, i1 + i2) == ReduceEvents(ReduceEvents(prev, e1, i1), e2, i2)
    decreases |e1|
  {
    if e1 != [] {
      assert (e1 + e2)[1..] == e1[1..] + e2;
      assert (i1 + i2)[1..] == i1[1..] + i2;
      ReduceEventsConcat(AppendResult(prev, e1[0], i1[0]), e1[1..], i1[1..], e2, i2);
    } else {
      assert e1 + e2 == e2 && i1 + i2 == i2;
    }
  }

  // ---------------------------------------------------------------------------
  // Render keys: each line is keyed by the template `${id}-${index}`.

  /** The decimal digit character of a value below ten. */
  function DigitChar(d: nat): (c: char)
    requires d < 10
    ensures '0' <= c <= '9'
    ensures c as int - '0' as int == d
  {
    "0123456789"[d]
  }

  /** The decimal numeral JavaScript prints for a non-negative integer. */
  function Decimal(n: nat): (s: string)
    ensures |s| >= 1
    ensures forall i :: 0 <= i < |s| ==> '0' <= s[i] <= '9'
    decreases n
  {
    if n < 10 then [DigitChar(n)] else Decimal(n / 10) + [DigitChar(n % 10)]
  }

  /** Distinct numbers print as distinct numerals. */
  lemma {:induction false} DecimalInjective(m: nat, n: nat)
    ensures Decimal(m) == Decimal(n) ==> m == n
    decreases m
  {
    if Decimal(m) == Decimal(n) {
      if m < 10 && n < 10 {
        assert DigitChar(m) == Decimal(m)[0] == Decimal(n)[0] == DigitChar(n);
      } else if m >= 10 && n >= 10 {
        var sm, sn := Decimal(m), Decimal(n);
        assert sm[|sm| - 1] == DigitChar(m % 10) && sn[|sn| - 1] == DigitChar(n % 10);
        assert sm[..|sm| - 1] == Decimal(m / 10) && sn[..|sn| - 1] == Decimal(n / 10);
        DecimalInjective(m / 10, n / 10);
      }
    }
  }

  /** The React key of the line at position `index` holding `id`. */
  function RenderKey(id: nat, index: nat): (key: string)
    ensures AfterLastDash(key) == Decimal(index)
    ensures |key| == |Decimal(id)| + 1 + |Decimal(index)|
    ensures key[..|Decimal(id)|] == Decimal(id)
  {
    DashJoin(Decimal(id), Decimal(index));
    Decimal(id) + "-" + Decimal(index)
  }

  /** Joining two strings with a '-', the second without one: the parts can be read back. */
  lemma DashJoin(a: string, b: string)
    requires forall i :: 0 <= i < |b| ==> '0' <= b[i] <= '9'
    ensures AfterLastDash(a + "-" + b) == b
    ensures |a + "-" + b| == |a| + 1 + |b|
    ensures (a + "-" + b)[..|a|] == a
  {
    AfterLastDashOf(a, b);
    assert (a + "-" + b)[..|a|] == a;
  }

  /** The characters after the last '-' of a string (all of it when it has none). */
  function AfterLastDash(s: string): (r: string)
    ensures |r| <= |s|
  {
    if s == [] || s[|s| - 1] == '-' then [] else AfterLastDash(s[..|s| - 1]) + [s[|s| - 1]]
  }

  /** In `x-y` with no '-' in `y`, the last '-' is the one before `y`. */
  lemma {:induction false} AfterLastDashOf(x: string, y: string)
    requires forall i :: 0 <= i < |y| ==> y[i] != '-'
    ensures AfterLastDash(x + "-" + y) == y
    decreases |y|
  {
    if y == [] {
      assert x + "-" + y == x + "-";
    } else {
      var y' := y[..|y| - 1];
      assert (x + "-" + y)[..|x + "-" + y| - 1] == x + "-" + y';
      AfterLastDashOf(x, y');
      assert y' + [y[|y| - 1]] == y;
    }
  }

  /** Two strings joined by a '-' split back into the same halves when the
      second half holds no '-'. */
  lemma DashSplit(a: string, b: string, c: string, d: string)
    requires forall i :: 0 <= i < |b| ==> b[i] != '-'
    requires forall i :: 0 <= i < |d| ==> d[i] != '-'
    requires a + "-" + b == c + "-" + d
    ensures a == c && b == d
  {
    AfterLastDashOf(a, b);
    AfterLastDashOf(c, d);
    assert (a + "-" + b)[..|a|] == a;
    assert (c + "-" + d)[..|c|] == c;
  }

  /** A key determines the id and the index it was built from. */
  lemma RenderKeyInjective(id1: nat, index1: nat, id2: nat, index2: nat)
    ensures RenderKey(id1, index1) == RenderKey(id2, index2) ==> id1 == id2 && index1 == index2
  {
    if RenderKey(id1, index1) == RenderKey(id2, index2) {
      DashSplit(Decimal(id1), Decimal(index1), Decimal(id2), Decimal(index2));
      DecimalInjective(id1, id2);
      DecimalInjective(index1, index2);
    }
  }

  /** The keys of all rendered lines, in order. */
  function RenderKeys(ts: seq<Record>): (keys: seq<string>)
    ensures |keys| == |ts|
    ensures forall i :: 0 <= i < |ts| ==> keys[i] == RenderKey(ts[i].id, i)
  {
    seq(|ts|, i requires 0 <= i < |ts| => RenderKey(ts[i].id, i))
  }

  /** The keys of a transcript are pairwise distinct whatever its ids. */
  lemma RenderKeysDistinct(ts: seq<Record>, i: nat, j: nat)
    requires i < |ts| && j < |ts| && i != j
    ensures RenderKeys(ts)[i] != RenderKeys(ts)[j]
  {
    RenderKeyInjective(ts[i].id, i, ts[j].id, j);
  }

  /** Ids alone are not unique: two final events that read the same clock
      value give two records with the same id, and their keys still differ. */
  lemma SameClockReadingDuplicatesId(transcript: string, now: nat)
    ensures var ts := ReduceEvents([], [ResultEvent(0, transcript, true), ResultEvent(1, transcript, true)], [now, now]);
            |ts| == 2 && ts[0].id == ts[1].id && RenderKeys(ts)[0] != RenderKeys(ts)[1]
  {
    var r := FinalRecord(transcript, now);
    var events := [ResultEvent(0, transcript, true), ResultEvent(1, transcript, true)];
    var ts := ReduceEvents([], events, [now, now]);
    assert ReduceEvents([r], events[1..], [now]) == [r, r] by {
      assert ReduceEvents([r, r], events[2..], []) == [r, r];
    }
    assert ts == [r, r];
    RenderKeysDistinct(ts, 0, 1);
  }

  // ---------------------------------------------------------------------------
  // Derived text of the header and of the empty transcript.

  /** The status text next to the dot. */
  function StatusLabel(isPaused: bool): (s: string)
    ensures s == "Paused" <==> isPaused
    ensures s == "Listening..." <==> !isPaused
  {
    if isPaused then "Paused" else "Listening..."
  }

  /** The hint shown in place of the transcript, which appears only while it is empty. */
  function EmptyHint(ts: seq<Record>, isPaused: bool): (hint: Option<string>)
    ensures hint.Some? <==> |ts| == 0
    ensures hint.Some? ==> (hint.value == "Translation paused" <==> isPaused)
    ensures hint.Some? ==> (hint.value == "Speak now..." <==> !isPaused)
  {
    if |ts| == 0 then Some(if isPaused then "Translation paused" else "Speak now...") else None
  }

  // ---------------------------------------------------------------------------
  // The recognizer handle and the component's mutable state.

  datatype RecognizerCall = StartCall | StopCall

  /** Where a speech recognizer is in its session: idle, listening, or ending
      (asked to stop, its `end` event still to come). The browser counts an
      ending recognizer as started, so `start` still raises then. */
  datatype RecognizerPhase = Idle | Listening | Ending

  /** An abstract speech recognizer handle that records the calls made on it.
      Starting a handle that is not idle raises the "already started" error
      and changes nothing, as the browser's recognizer does. */
  class Recognizer {
    var phase: RecognizerPhase
    var calls: seq<RecognizerCall>

    constructor ()
      ensures phase == Idle && calls == []
    {
      phase := Idle;
      calls := [];
    }

    /** Starts a session when idle; `threw` reports the "already started"
        error, raised while listening or ending. */
    method Start() returns (threw: bool)
      modifies this
      ensures threw <==> old(phase) != Idle
      ensures !threw ==> phase == Listening
      ensures threw ==> phase == old(phase)
      ensures calls == old(calls) + [StartCall]
    {
      threw := phase != Idle;
      if !threw {
        phase := Listening;
      }
      calls := calls + [StartCall];
    }

    /** Asks a listening handle to stop: it is ending until its `end` event.
        Stopping a handle that is idle or already ending does nothing. */
    method Stop()
      modifies this
      ensures old(phase) == Listening ==> phase == Ending
      ensures old(phase) != Listening ==> phase == old(phase)
      ensures calls == old(calls) + [StopCall]
    {
      if phase == Listening {
        phase := Ending;
      }
      calls := calls + [StopCall];
    }

    /** The `end` event, fired by the browser after a stop or when a session
        ends on its own: the handle is idle again. No call is made. */
    method End()
      requires phase != Idle
      modifies this
      ensures phase == Idle
      ensures calls == old(calls)
    {
      phase := Idle;
    }
  }

  /** The overlay component: its pause flag, its transcript and the
      recognizer handle held in its ref (null when there is none). */
  class OverlayComponent {
    var isPaused: bool
    var transcripts: seq<Record>
    var recognition: Recognizer?

    /** A paused overlay never has a listening handle. An unpaused one need
        not have one either: a start that raised left the handle as it was. */
    predicate PausedIsSilent()
      reads this, recognition
    {
      recognition != null && isPaused ==> recognition.phase != Listening
    }

    /** Mounting: the initial state, then the two mount-time effects in order,
        the one that creates the recognizer (or records the error) and the
        pause effect with the flag still false. */
    constructor Mount(speechSupported: bool)
      ensures !isPaused
      ensures speechSupported ==> transcripts == [] && recognition != null && fresh(recognition)
      ensures speechSupported ==> recognition.phase == Listening && recognition.calls == [StartCall]
      ensures !speechSupported ==> transcripts == [UnsupportedRecord] && recognition == null
      ensures PausedIsSilent()
    {
      isPaused := false;
      if speechSupported {
        var r := new Recognizer();
        var _ := r.Start();
        transcripts := [];
        recognition := r;
      } else {
        transcripts := [UnsupportedRecord];
        recognition := null;
      }
    }

    /** The pause effect: without a handle nothing happens; otherwise the
        handle is stopped when paused and started when not, an "already
        started" error being ignored. */
    method SyncRecognizer()
      modifies recognition
      ensures recognition != null && isPaused ==>
                recognition.phase == (if old(recognition.phase) == Listening then Ending else old(recognition.phase)) &&
                recognition.calls == old(recognition.calls) + [StopCall]
      ensures recognition != null && !isPaused ==>
                recognition.phase == (if old(recognition.phase) == Idle then Listening else old(recognition.phase)) &&
                recognition.calls == old(recognition.calls) + [StartCall]
    {
      if recognition == null {
        return;
      }
      if isPaused {
        recognition.Stop();
      } else {
        var _ := recognition.Start();
      }
    }

    /** The pause button: flips the flag, leaves the transcript alone, and the
        pause effect then stops or starts the handle. A pause always silences
        the handle; a resume starts it only if it is idle. */
    method TogglePause()
      modifies this, recognition
      ensures isPaused == !old(isPaused)
      ensures transcripts == old(transcripts) && recognition == old(recognition)
      ensures recognition != null && isPaused ==>
                recognition.phase == (if old(recognition.phase) == Listening then Ending else old(recognition.phase)) &&
                recognition.calls == old(recognition.calls) + [StopCall]
      ensures recognition != null && !isPaused ==>
                recognition.phase == (if old(recognition.phase) == Idle then Listening else old(recognition.phase)) &&
                recognition.calls == old(recognition.calls) + [StartCall]
      ensures PausedIsSilent()
    {
      isPaused := !isPaused;
      SyncRecognizer();
    }

    /** The recognizer's result handler. It does not look at the pause flag. */
    method OnResult(e: ResultEvent, now: nat)
      modifies this
      ensures transcripts == AppendResult(old(transcripts), e, now)
      ensures isPaused == old(isPaused) && recognition == old(recognition)
      ensures old(PausedIsSilent()) ==> PausedIsSilent()
    {
      transcripts := AppendResult(transcripts, e, now);
    }

    /** The cleanup of the mount effect: a held handle is stopped. */
    method Unmount()
      modifies recognition
      ensures recognition != null ==>
                recognition.phase == (if old(recognition.phase) == Listening then Ending else old(recognition.phase)) &&
                recognition.calls == old(recognition.calls) + [StopCall]
    {
      if recognition != null {
        recognition.Stop();
      }
    }
  }

  /** Toggling pause twice with no `end` event in between: the flag, the
      transcript and the handle reference are back where they were, and a
      handle saw one stop and one start. From unpaused, the handle ends
      up listening only if it was idle before: a listening handle is left
      ending by the stop, and the start that follows raises. From paused,
      the handle ends up ending whatever its phase was. */
  method PauseThenResume(o: OverlayComponent)
    modifies o, o.recognition
    ensures o.isPaused == old(o.isPaused) && o.transcripts == old(o.transcripts)
    ensures o.recognition == old(o.recognition)
    ensures o.recognition != null && !o.isPaused ==>
              o.recognition.calls == old(o.recognition.calls) + [StopCall, StartCall] &&
              o.recognition.phase == (if old(o.recognition.phase) == Idle then Listening else Ending)
    ensures o.recognition != null && o.isPaused ==>
              o.recognition.calls == old(o.recognition.calls) + [StartCall, StopCall] &&
              o.recognition.phase == Ending
  {
    o.TogglePause();
    o.TogglePause();
  }

  /** A quick pause and resume right after mounting: the overlay is unpaused
      and its header reads "Listening...", but the handle is not listening. */
  method QuickResumeAfterMount() returns (o: OverlayComponent)
    ensures fresh(o) && o.recognition != null && fresh(o.recognition)
    ensures !o.isPaused && StatusLabel(o.isPaused) == "Listening..."
    ensures o.recognition.phase == Ending
    ensures o.recognition.calls == [StartCall, StopCall, StartCall]
  {
    o := new OverlayComponent.Mount(true);
    o.TogglePause();
    o.TogglePause();
  }

  /** A pause, then the handle's `end` event, then a resume: the handle is
      listening again. */
  method ResumeAfterEnd() returns (o: OverlayComponent)
    ensures fresh(o) && o.recognition != null && fresh(o.recognition)
    ensures !o.isPaused && o.recognition.phase == Listening
    ensures o.recognition.calls == [StartCall, StopCall, StartCall]
  {
    o := new OverlayComponent.Mount(true);
    o.TogglePause();
    o.recognition.End();
    o.TogglePause();
  }
}
