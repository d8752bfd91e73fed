/** The first client's translation worker (`src/worker.py`): final speech
    transcripts are collected into a sentence buffer, committed as one text
    when three have arrived or when the commit timer fires, and translated
    with the last three translated texts as context. */
module SentenceWorker {
  import opened Wrappers
  import opened Text
  import opened Json
  import opened FlatConfig

  /** `MAX_BUFFER_SIZE`. */
  const MaxBufferSize: nat := 3
  /** `maxlen` of `context_history`. */
  const HistoryLength: nat := 3

  const StatusTranslating: string := "번역 중..."
  const StatusNoTargets: string := "오류: 번역할 언어가 선택되지 않음"
  const StatusWaiting: string := "번역 대기 중..."
  const StatusStarting: string := "초기화 중..."
  const StatusComposing: string := "문장 조합 중..."

  // ---------------------------------------------------------------- history

  /** `context_history.append(text)` on a deque of length at most three: the
      text goes last and, past three, the oldest entry falls off the front. */
  function Remember(history: seq<string>, text: string): seq<string> {
    var all := history + [text];
    if |all| > HistoryLength then all[|all| - HistoryLength..] else all
  }

  /** The remembered text comes last, after the most recent of the earlier
      entries, and the history never grows past its length once full. */
  lemma RememberKeeps(history: seq<string>, text: string)
    ensures var h := Remember(history, text);
      && (|h| <= HistoryLength || |h| == |history| + 1)
      && (|history| < HistoryLength ==> h == history + [text])
      && |h| > 0 && h[|h| - 1] == text
      && h == (history + [text])[|history| + 1 - |h|..]
  {
  }

  /** The history after remembering each of `texts` in turn. */
  function RememberAll(history: seq<string>, texts: seq<string>): seq<string> {
    if texts == [] then history else Remember(RememberAll(history, texts[..|texts| - 1]), texts[|texts| - 1])
  }

  /** The last `n` entries of `s` (all of them when there are fewer). */
  function Latest(s: seq<string>, n: nat): (r: seq<string>)
    ensures |r| <= n && |r| <= |s|
  {
    if |s| <= n then s else s[|s| - n..]
  }

  /** Starting from an empty history, the history always holds the three most
      recent texts, oldest first. */
  lemma {:induction false} HistoryIsLatest(texts: seq<string>)
    ensures RememberAll([], texts) == Latest(texts, HistoryLength)
  {
    if texts != [] {
      var front := texts[..|texts| - 1];
      var last := texts[|texts| - 1];
      HistoryIsLatest(front);
      var h := Latest(front, HistoryLength);
      assert RememberAll([], texts) == Remember(h, last);
      assert texts == front + [last];
      if |front| >= HistoryLength {
        RememberFull(front, last);
      }
    }
  }

  /** Remembering a text after a full history drops the oldest entry. */
  lemma RememberFull(front: seq<string>, last: string)
    requires |front| >= HistoryLength
    ensures Remember(Latest(front, HistoryLength), last) == Latest(front + [last], HistoryLength)
  {
    var h := front[|front| - 3..];
    var texts := front + [last];
    assert Latest(front, HistoryLength) == h;
    var all := h + [last];
    assert |all| == 4;
    assert Remember(h, last) == all[1..];
    assert Latest(texts, HistoryLength) == texts[|texts| - 3..];
    assert all[1..] == [h[1], h[2], last];
    assert texts[|texts| - 3..] == [front[|front| - 2], front[|front| - 1], last];
  }

  // ---------------------------------------------------------------- buffering

  /** What one transcript does to the sentence buffer of a running worker: the
      new buffer, and the text committed for translation if any. */
  function Offer(buffer: seq<string>, transcript: string, isFinal: bool): (r: (seq<string>, Option<string>))
    ensures !isFinal || AllSpace(transcript) ==> r == (buffer, None)
    ensures isFinal && !AllSpace(transcript) && |buffer| + 1 < MaxBufferSize ==>
      r == (buffer + [Strip(transcript)], None)
    ensures isFinal && !AllSpace(transcript) && |buffer| + 1 >= MaxBufferSize ==>
      r == ([], Some(Join(buffer + [Strip(transcript)], " ")))
    ensures |buffer| < MaxBufferSize ==> |r.0| < MaxBufferSize
  {
    if isFinal && Strip(transcript) != [] then
      var b := buffer + [Strip(transcript)];
      if |b| >= MaxBufferSize then ([], Some(Join(b, " "))) else (b, None)
    else (buffer, None)
  }

  /** Every buffered sentence is stripped and non-empty, so a committed text
      never starts or ends with whitespace. */
  lemma {:induction false} JoinStripped(parts: seq<string>)
    requires parts != []
    requires forall i :: 0 <= i < |parts| ==> parts[i] != [] && Stripped(parts[i])
    ensures Join(parts, " ") != [] && Stripped(Join(parts, " "))
  {
    if |parts| > 1 {
      JoinStripped(parts[1..]);
      var rest := Join(parts[1..], " ");
      assert Join(parts, " ") == parts[0] + " " + rest;
      assert Join(parts, " ")[0] == parts[0][0];
      assert Join(parts, " ")[|Join(parts, " ")| - 1] == rest[|rest| - 1];
    }
  }

  /** Three transcripts in a row commit exactly their stripped texts, joined
      by spaces in arrival order. */
  lemma ThreeSentences(a: string, b: string, c: string)
    requires !AllSpace(a) && !AllSpace(b) && !AllSpace(c)
    ensures var r1 := Offer([], a, true);
      var r2 := Offer(r1.0, b, true);
      var r3 := Offer(r2.0, c, true);
      && r1.1 == None && r2.1 == None
      && r3 == ([], Some(Strip(a) + " " + Strip(b) + " " + Strip(c)))
  {
    var x, y, z := Strip(a), Strip(b), Strip(c);
    assert x != [] && y != [] && z != [];
    assert [] + [x] == [x];
    assert Offer([], a, true) == ([x], None);
    assert [x] + [y] == [x, y];
    assert Offer([x], b, true) == ([x, y], None);
    assert [x, y] + [z] == [x, y, z];
    assert [x, y, z][1..] == [y, z] && [y, z][1..] == [z];
    assert Join([z], " ") == z;
    assert Join([y, z], " ") == y + " " + z;
    assert Join([x, y, z], " ") == x + " " + (y + " " + z);
    assert x + " " + (y + " " + z) == x + " " + y + " " + z;
  }

  // ---------------------------------------------------------------- worker

  /** What the worker emits: status texts, finished translations and the
      start-up failure. */
  datatype Event = Status(text: string) | TranslationReady(source: string, results: Value) | InitFailed

  /** How far `start_processing` gets inside its `try`: everything starts,
      the translation engine cannot be created, or a later step fails. */
  datatype Startup = StartupOk | EngineFails | LaterStepFails

  /** Whether `translate_text` raised, and the events and history it leaves. */
  datatype After = After(raised: bool, events: seq<Event>, history: seq<string>)

  /** `translate_text(text)` with the target languages as read from the
      configuration (`Raises` when the configuration is not a dictionary),
      whether the engine exists, and the events and history before the call.
      An empty text does nothing. Otherwise the translating status is emitted
      first; without target languages the error status follows and nothing is
      translated; without an engine the call raises; otherwise the engine gets
      the text, the targets and the history joined by newlines, the result is
      emitted with the text, and only then is the text remembered. */
  function Translate(text: string, targets: Outcome<Value>, hasEngine: bool, engine: (string, Value, string) -> Value,
                     events: seq<Event>, history: seq<string>): After
  {
    if text == [] then After(false, events, history)
    else
      var e := events + [Status(StatusTranslating)];
      if targets.Raises? then After(true, e, history)
      else if !Truthy(targets.value) then After(false, e + [Status(StatusNoTargets)], history)
      else if !hasEngine then After(true, e, history)
      else
        var results := engine(text, targets.value, Join(history, "\n"));
        After(false, e + [TranslationReady(text, results), Status(StatusWaiting)], Remember(history, text))
  }

  /** What `translate_text` promises: it only appends events, the first
      being the translating status; it raises exactly when the configuration
      cannot be read or the engine is missing while there are targets; and it
      emits a translation, computed with the earlier history as context, exactly
      when it remembers the text. */
  lemma TranslateFacts(text: string, targets: Outcome<Value>, hasEngine: bool, engine: (string, Value, string) -> Value,
                       events: seq<Event>, history: seq<string>)
    ensures var a := Translate(text, targets, hasEngine, engine, events, history);
      && (text == [] ==> a == After(false, events, history))
      && (a.raised <==> text != [] && (targets.Raises? || (Truthy(targets.value) && !hasEngine)))
      && |events| <= |a.events| <= |events| + 3 && a.events[..|events|] == events
      && (text != [] ==> a.events[|events|] == Status(StatusTranslating))
      && (|a.events| == |events| + 3 <==> text != [] && targets.Returns? && Truthy(targets.value) && hasEngine)
      && (|a.events| == |events| + 3 ==>
            && a.events[|events| + 1] == TranslationReady(text, engine(text, targets.value, Join(history, "\n")))
            && a.history == Remember(history, text))
      && (|a.events| < |events| + 3 ==> a.history == history)
  {
  }

  /** The interval `QTimer.setInterval(int)` takes from a configured value,
      as the binding converts a number to a C `int`: an integer within the
      range (a wider one overflows), a float within the range truncated
      toward zero, or a boolean, which Python counts as 0 or 1. Any other
      value (a string, null, a list or a dictionary) is a `TypeError`. */
  function TimerInterval(v: Value): (r: Option<int>)
    ensures r.Some? <==>
      || (v.Int? && -0x8000_0000 <= v.i <= 0x7FFF_FFFF)
      || (v.Float? && -0x8000_0000 as real <= v.f <= 0x7FFF_FFFF as real)
      || v.Bool?
    ensures r.Some? ==> -0x8000_0000 <= r.value <= 0x7FFF_FFFF
    ensures r.Some? && v.Int? ==> r.value == v.i
    ensures r.Some? && v.Float? && v.f >= 0.0 ==> 0 <= r.value && r.value as real <= v.f < r.value as real + 1.0
    ensures r.Some? && v.Float? && v.f < 0.0 ==> r.value <= 0 && r.value as real - 1.0 < v.f <= r.value as real
    ensures v.Bool? ==> r == Some(if v.b then 1 else 0)
  {
    match v
    case Int(i) => if -0x8000_0000 <= i <= 0x7FFF_FFFF then Some(i) else None
    case Float(f) =>
      if -0x8000_0000 as real <= f <= 0x7FFF_FFFF as real then
        Some(if f >= 0.0 then f.Floor else -((-f).Floor))
      else None
    case Bool(b) => Some(if b then 1 else 0)
    case _ => None
  }

  /** `Worker`. The translation engine is the pure function `engine`, applied
      to the text, the target languages and the context; `hasEngine` says
      whether `mt_engine` has been created. The single-shot commit timer is
      `timerActive`, and its interval in milliseconds the last one
      `setInterval` accepted (Qt's default is 0). */
  class Worker {
    const store: ConfigManager
    const engine: (string, Value, string) -> Value
    var running: bool
    var hasEngine: bool
    var buffer: seq<string>
    var history: seq<string>
    var timerActive: bool
    var interval: int
    var events: seq<Event>

    constructor (store: ConfigManager, engine: (string, Value, string) -> Value)
      ensures this.store == store && this.engine == engine
      ensures !running && !hasEngine && buffer == [] && history == [] && !timerActive && events == []
      ensures interval == 0
    {
      this.store := store;
      this.engine := engine;
      running := false;
      hasEngine := false;
      buffer := [];
      history := [];
      timerActive := false;
      interval := 0;
      events := [];
    }

    /** `translate_text(text)`. Reading the target languages raises when the
        configuration is not a dictionary, and calling the engine raises
        while it has not been created; both leave everything after the first
        status undone. */
    method TranslateText(text: string) returns (raised: bool)
      modifies this
      ensures After(raised, events, history) ==
        Translate(text, store.GetValue("target_languages", List([])), hasEngine, engine, old(events), old(history))
      ensures running == old(running) && hasEngine == old(hasEngine) && buffer == old(buffer)
      ensures timerActive == old(timerActive) && interval == old(interval)
    {
      if text == [] {
        return false;
      }
      var targets := store.GetValue("target_languages", List([]));
      ghost var want := Translate(text, targets, hasEngine, engine, events, history);
      var emitted := events + [Status(StatusTranslating)];
      var context := Join(history, "\n");
      if targets.Raises? {
        assert want == After(true, emitted, history);
        events := emitted;
        return true;
      }
      if !Truthy(targets.value) {
        assert want == After(false, emitted + [Status(StatusNoTargets)], history);
        events := emitted + [Status(StatusNoTargets)];
        return false;
      }
      if !hasEngine {
        assert want == After(true, emitted, history);
        events := emitted;
        return true;
      }
      var results := engine(text, targets.value, context);
      assert want == After(false, emitted + [TranslationReady(text, results), Status(StatusWaiting)], Remember(history, text));
      emitted := emitted + [TranslationReady(text, results)];
      history := Remember(history, text);
      events := emitted + [Status(StatusWaiting)];
      return false;
    }

    /** `commit_stt_translation()`: nothing on an empty buffer; otherwise the
        buffered sentences are joined by spaces, the buffer is cleared and the
        text translated. */
    method Commit() returns (raised: bool)
      modifies this
      ensures buffer == []
      ensures old(buffer) == [] ==> !raised && events == old(events) && history == old(history)
      ensures old(buffer) != [] ==>
        After(raised, events, history) ==
        Translate(Join(old(buffer), " "), store.GetValue("target_languages", List([])), hasEngine, engine, old(events), old(history))
      ensures running == old(running) && hasEngine == old(hasEngine)
      ensures timerActive == old(timerActive) && interval == old(interval)
    {
      if buffer == [] {
        return false;
      }
      var full := Join(buffer, " ");
      buffer := [];
      raised := TranslateText(full);
    }

    /** `on_stt_transcript_updated(transcript, is_final)`: ignored unless
        running; a final transcript with text goes into the buffer stripped,
        and either commits the buffer (three sentences, timer stopped) or
        restarts the timer. */
    method OnTranscript(transcript: string, isFinal: bool) returns (raised: bool)
      modifies this
      ensures !old(running) ==> !raised && buffer == old(buffer) && events == old(events) && timerActive == old(timerActive)
      ensures old(running) ==>
        var r := Offer(old(buffer), transcript, isFinal);
        && buffer == r.0
        && (!isFinal || AllSpace(transcript) ==> !raised && events == old(events) && timerActive == old(timerActive))
        && (r.1.None? && isFinal && !AllSpace(transcript) ==>
              !raised && timerActive && events == old(events) + [Status(StatusComposing)])
        && (r.1.Some? ==>
              && !timerActive
              && After(raised, events, history) ==
                 Translate(r.1.value, store.GetValue("target_languages", List([])), hasEngine, engine, old(events), old(history)))
      ensures |old(buffer)| < MaxBufferSize ==> |buffer| < MaxBufferSize
      ensures running == old(running) && hasEngine == old(hasEngine) && interval == old(interval)
    {
      if !running {
        return false;
      }
      var s := Strip(transcript);
      if isFinal && s != [] {
        buffer := buffer + [s];
        if |buffer| >= MaxBufferSize {
          timerActive := false;
          raised := Commit();
        } else {
          timerActive := true;
          events := events + [Status(StatusComposing)];
          raised := false;
        }
      } else {
        raised := false;
      }
    }

    /** The commit timer's `timeout`: the single-shot timer stops and the
        buffer is committed. */
    method OnTimeout() returns (raised: bool)
      modifies this
      ensures !timerActive && buffer == []
      ensures old(buffer) != [] ==>
        After(raised, events, history) ==
        Translate(Join(old(buffer), " "), store.GetValue("target_languages", List([])), hasEngine, engine, old(events), old(history))
      ensures old(buffer) == [] ==> !raised && events == old(events)
    {
      timerActive := false;
      raised := Commit();
    }

    /** `start_processing()`: nothing when already running; otherwise the
        worker is marked running, history and buffer are cleared and the
        commit delay is read (700 by default) and handed to `setInterval`,
        both before the `try`, so either can raise out of the method: reading
        when the configuration is not a dictionary, and `setInterval` when
        the delay cannot be converted to a C `int`. Then the engine and threads start. */
    method StartProcessing(startup: Startup) returns (raised: bool)
      modifies this
      ensures old(running) ==> !raised && events == old(events) && buffer == old(buffer) && history == old(history)
      ensures !old(running) ==>
        var delay := store.GetValue("sentence_commit_delay_ms", Int(700));
        && running && buffer == [] && history == []
        && (raised <==> delay.Raises? || TimerInterval(delay.value).None?)
        && (raised ==> events == old(events) + [Status(StatusStarting)] && hasEngine == old(hasEngine))
        && (raised ==> interval == old(interval))
        && (!raised ==> interval == TimerInterval(delay.value).value)
        && (!raised && startup == StartupOk ==> hasEngine && events == old(events) + [Status(StatusStarting), Status(StatusWaiting)])
        && (!raised && startup == EngineFails ==> hasEngine == old(hasEngine) && events == old(events) + [Status(StatusStarting), InitFailed])
        && (!raised && startup == LaterStepFails ==> hasEngine && events == old(events) + [Status(StatusStarting), InitFailed])
      ensures timerActive == old(timerActive)
    {
      if running {
        return false;
      }
      running := true;
      events := events + [Status(StatusStarting)];
      history := [];
      buffer := [];
      var delay := store.GetValue("sentence_commit_delay_ms", Int(700));
      if delay.Raises? {
        return true;
      }
      var ms := TimerInterval(delay.value);
      if ms.None? {
        return true;
      }
      interval := ms.value;
      if startup == EngineFails {
        events := events + [InitFailed];
        return false;
      }
      hasEngine := true;
      if startup == LaterStepFails {
        events := events + [InitFailed];
        return false;
      }
      events := events + [Status(StatusWaiting)];
      return false;
    }

    /** `stop_processing()`: nothing when not running; otherwise the worker
        stops and the commit timer with it. The buffer is kept. */
    method StopProcessing()
      modifies this
      ensures !old(running) ==> timerActive == old(timerActive)
      ensures old(running) ==> !running && !timerActive
      ensures !running && buffer == old(buffer) && history == old(history) && events == old(events)
    {
      if !running {
        return;
      }
      running := false;
      timerActive := false;
    }
  }
}
