/** The second client's translation worker
    (`ariel_client/src/core/translation_worker.py`): it turns recognised speech
    into a translated message and a captured screen region into translated
    patches, one per recognised text line. Speech recognition, Tesseract and
    the translation engine are foreign services and appear as function
    parameters; the configuration is the profile-based store. */
module TranslationWorker {
  import opened Wrappers
  import opened PyDict
  import opened Json
  import opened Text
  import opened ProfileConfig
  import opened OverlayWindow

  // ---------------------------------------------------------------- languages

  const Auto: Value := Str("auto")

  /** `DEEPL_TO_TESSERACT`. */
  const DeeplToTesseract: Dict<string, string> :=
    [("EN", "eng"), ("KO", "kor"), ("JA", "jpn"), ("ZH", "chi_sim"), ("DE", "deu"), ("FR", "fra"), ("ES", "spa")]

  /** The Tesseract language used for automatic detection and unmapped codes. */
  const FallbackTesseract: string := "eng+kor"

  /** The Tesseract language for the configured OCR source language: the
      mapped code for a mapped DeepL code, otherwise `eng+kor`. A list or a
      dictionary cannot be looked up and raises. */
  function TesseractLang(source: Value): (r: Outcome<string>)
    ensures source == Auto ==> r == Returns(FallbackTesseract)
    ensures r.Raises? <==> !Hashable(source)
    ensures r.Returns? && source.Str? && source.s in Keys(DeeplToTesseract) ==>
      (source.s, r.value) in DeeplToTesseract
    ensures r.Returns? && !(source.Str? && source.s in Keys(DeeplToTesseract)) ==> r.value == FallbackTesseract
  {
    if source == Auto then Returns(FallbackTesseract)
    else if source.Str? then Returns(Get(DeeplToTesseract, source.s).GetOr(FallbackTesseract))
    else if Hashable(source) then Returns(FallbackTesseract)
    else Raises
  }

  /** `_resolve_target_language(code)` with the system locale name (such as
      `ko_KR`): `auto` becomes the locale's language part in upper case, any
      other string its upper case; anything but a string has no `upper` and raises. */
  function ResolveTarget(code: Value, locale: string): (r: Outcome<string>)
    ensures r.Raises? <==> !code.Str?
    ensures r.Returns? ==> IsUpper(r.value)
    ensures code.Str? && code != Auto ==> r == Returns(Upper(code.s))
    ensures code == Auto ==>
      && r.Returns? && |r.value| <= |locale|
      && r.value == Upper(locale[..|r.value|])
      && '_' !in r.value
      && (|r.value| < |locale| ==> locale[|r.value|] == '_')
  {
    if code == Auto then
      var lang := Split(locale, '_')[0];
      SplitFirst(locale, '_');
      assert lang in Split(locale, '_');
      UpperIsUpper(lang);
      assert forall i :: 0 <= i < |lang| ==> Upper(lang)[i] != '_';
      Returns(Upper(lang))
    else if code.Str? then
      UpperIsUpper(code.s);
      Returns(Upper(code.s))
    else Raises
  }

  /** The source language handed to the translation engine: none for `auto`. */
  function SourceParam(source: Value): (r: Option<Value>)
    ensures r.None? <==> source == Auto
    ensures r.Some? ==> r.value == source
  {
    if source != Auto then Some(source) else None
  }

  // ---------------------------------------------------------------- OCR words

  /** One row of Tesseract's `image_to_data` table. */
  datatype Word = Word(page: int, block: int, par: int, line: int, text: string, conf: real,
                       left: int, top: int, width: int, height: int)

  /** The grouping key `(page_num, block_num, par_num, line_num)`. */
  datatype LineKey = LineKey(page: int, block: int, par: int, line: int)

  function KeyOf(w: Word): LineKey { LineKey(w.page, w.block, w.par, w.line) }

  /** A word's box as `QRect(left, top, width, height)`. */
  function WordRect(w: Word): Rect {
    Rect(w.left, w.top, w.left + w.width - 1, w.top + w.height - 1)
  }

  /** `ocr_min_confidence` as pandas compares it: a number or a boolean is a
      threshold; JSON null is a missing value, against which every comparison
      is false, so it keeps no row (`None`); anything else raises. */
  function MinConfidence(v: Value): (r: Outcome<Option<real>>)
    ensures r.Raises? <==> !(v.Int? || v.Float? || v.Bool? || v.Null?)
    ensures r == Returns(None) <==> v.Null?
    ensures v.Int? ==> r == Returns(Some(v.i as real))
    ensures v.Float? ==> r == Returns(Some(v.f))
    ensures v.Bool? ==> r == Returns(Some(if v.b then 1.0 else 0.0))
  {
    match v
    case Int(i) => Returns(Some(i as real))
    case Float(f) => Returns(Some(f))
    case Bool(b) => Returns(Some(if b then 1.0 else 0.0))
    case Null => Returns(None)
    case _ => Raises
  }

  /** `ocr_data[ocr_data.conf > min_conf]`: the rows whose confidence is
      strictly greater than the minimum, in their original order. */
  function Confident(words: seq<Word>, minConf: real): (r: seq<Word>)
    ensures |r| <= |words|
    ensures forall w :: w in r <==> w in words && w.conf > minConf
  {
    if words == [] then []
    else
      var front := Confident(words[..|words| - 1], minConf);
      var w := words[|words| - 1];
      assert words == words[..|words| - 1] + [w];
      if w.conf > minConf then front + [w] else front
  }

  /** The filter keeps the original order: filtering two runs of rows one
      after the other gives the kept rows of the first run, then those of the
      second. */
  lemma {:induction false} ConfidentInOrder(a: seq<Word>, b: seq<Word>, minConf: real)
    ensures Confident(a + b, minConf) == Confident(a, minConf) + Confident(b, minConf)
  {
    if b == [] {
      assert a + b == a;
    } else {
      var n := |b| - 1;
      assert a + b == (a + b[..n]) + [b[n]];
      assert b == b[..n] + [b[n]];
      ConfidentInOrder(a, b[..n], minConf);
      ConfidentSnoc(a + b[..n], b[n], minConf);
      ConfidentSnoc(b[..n], b[n], minConf);
      var last := if b[n].conf > minConf then [b[n]] else [];
      assert (Confident(a, minConf) + Confident(b[..n], minConf)) + last
          == Confident(a, minConf) + (Confident(b[..n], minConf) + last);
    }
  }

  /** One filtering step: a row added at the end is kept, at the end, exactly
      when it is confident enough. */
  lemma ConfidentSnoc(s: seq<Word>, x: Word, minConf: real)
    ensures Confident(s + [x], minConf) == Confident(s, minConf) + (if x.conf > minConf then [x] else [])
  {
    assert (s + [x])[..|s|] == s;
  }

  /** The order `groupby` sorts its keys in: page, then block, paragraph
      and line number. */
  predicate KeyBefore(a: LineKey, b: LineKey) {
    || a.page < b.page
    || (a.page == b.page && a.block < b.block)
    || (a.page == b.page && a.block == b.block && a.par < b.par)
    || (a.page == b.page && a.block == b.block && a.par == b.par && a.line < b.line)
  }

  predicate Increasing(ks: seq<LineKey>) {
    forall i, j :: 0 <= i < j < |ks| ==> KeyBefore(ks[i], ks[j])
  }

  /** `k` placed into an increasing sequence of keys that lacks it. */
  function InsertKey(k: LineKey, ks: seq<LineKey>): (r: seq<LineKey>)
    requires Increasing(ks) && k !in ks
    ensures Increasing(r) && |r| == |ks| + 1
    ensures forall x :: x in r <==> x in ks || x == k
  {
    if ks == [] || KeyBefore(k, ks[0]) then [k] + ks
    else
      assert KeyBefore(ks[0], k);
      var rest := InsertKey(k, ks[1..]);
      assert forall x :: x in rest ==> KeyBefore(ks[0], x);
      [ks[0]] + rest
  }

  /** The distinct line keys of the words, in increasing order. */
  function LineKeys(words: seq<Word>): (ks: seq<LineKey>)
    ensures Increasing(ks)
    ensures forall k :: k in ks <==> exists w :: w in words && KeyOf(w) == k
  {
    if words == [] then []
    else
      var front := words[..|words| - 1];
      var w := words[|words| - 1];
      assert words == front + [w];
      var ks := LineKeys(front);
      if KeyOf(w) in ks then ks else InsertKey(KeyOf(w), ks)
  }

  /** The words of one line, in their original order. */
  function WithKey(words: seq<Word>, k: LineKey): (g: seq<Word>)
    ensures forall w :: w in g <==> w in words && KeyOf(w) == k
  {
    if words == [] then []
    else
      var front := WithKey(words[..|words| - 1], k);
      var w := words[|words| - 1];
      assert words == words[..|words| - 1] + [w];
      if KeyOf(w) == k then front + [w] else front
  }

  /** A line's words keep their original order: the words of two runs, one
      after the other, are those of the first run, then those of the second. */
  lemma {:induction false} WithKeyInOrder(a: seq<Word>, b: seq<Word>, k: LineKey)
    ensures WithKey(a + b, k) == WithKey(a, k) + WithKey(b, k)
  {
    if b == [] {
      assert a + b == a;
    } else {
      var n := |b| - 1;
      assert a + b == (a + b[..n]) + [b[n]];
      assert b == b[..n] + [b[n]];
      WithKeyInOrder(a, b[..n], k);
      WithKeySnoc(a + b[..n], b[n], k);
      WithKeySnoc(b[..n], b[n], k);
      var last := if KeyOf(b[n]) == k then [b[n]] else [];
      assert (WithKey(a, k) + WithKey(b[..n], k)) + last == WithKey(a, k) + (WithKey(b[..n], k) + last);
    }
  }

  /** One grouping step: a word added at the end joins the group, at its
      end, exactly when it has the group's key. */
  lemma WithKeySnoc(s: seq<Word>, x: Word, k: LineKey)
    ensures WithKey(s + [x], k) == WithKey(s, k) + (if KeyOf(x) == k then [x] else [])
  {
    assert (s + [x])[..|s|] == s;
  }

  /** `groupby([...line keys...])`: one non-empty group per line, in
      increasing key order, every word in the group of its own line. */
  function Groups(words: seq<Word>): (gs: seq<seq<Word>>)
    ensures |gs| == |LineKeys(words)|
    ensures forall i :: 0 <= i < |gs| ==> gs[i] == WithKey(words, LineKeys(words)[i])
    ensures forall i :: 0 <= i < |gs| ==> gs[i] != [] && forall w :: w in gs[i] ==> KeyOf(w) == LineKeys(words)[i]
    ensures forall w :: w in words ==> exists i :: 0 <= i < |gs| && w in gs[i]
  {
    var ks := LineKeys(words);
    var gs := seq(|ks|, i requires 0 <= i < |ks| => WithKey(words, ks[i]));
    forall i | 0 <= i < |gs| ensures gs[i] != [] {
      assert ks[i] in ks;
      var w :| w in words && KeyOf(w) == ks[i];
      assert w in gs[i];
    }
    forall w | w in words ensures exists i :: 0 <= i < |gs| && w in gs[i] {
      assert KeyOf(w) in ks;
      var i :| 0 <= i < |ks| && ks[i] == KeyOf(w);
      assert w in gs[i];
    }
    gs
  }

  // ---------------------------------------------------------------- lines

  /** One recognised line: its text and its box. */
  datatype Line = Line(text: string, rect: Rect)

  function MinOf(xs: seq<int>): (m: int)
    requires xs != []
    ensures m in xs && forall x :: x in xs ==> m <= x
  {
    if |xs| == 1 then xs[0]
    else
      var rest := MinOf(xs[1..]);
      assert forall x :: x in xs[1..] ==> x in xs;
      assert forall x :: x in xs ==> x == xs[0] || x in xs[1..];
      if xs[0] <= rest then xs[0] else rest
  }

  function MaxOf(xs: seq<int>): (m: int)
    requires xs != []
    ensures m in xs && forall x :: x in xs ==> x <= m
  {
    if |xs| == 1 then xs[0]
    else
      var rest := MaxOf(xs[1..]);
      assert forall x :: x in xs[1..] ==> x in xs;
      assert forall x :: x in xs ==> x == xs[0] || x in xs[1..];
      if xs[0] >= rest then xs[0] else rest
  }

  function Lefts(g: seq<Word>): seq<int> { seq(|g|, i requires 0 <= i < |g| => g[i].left) }
  function Tops(g: seq<Word>): seq<int> { seq(|g|, i requires 0 <= i < |g| => g[i].top) }
  function Rights(g: seq<Word>): seq<int> { seq(|g|, i requires 0 <= i < |g| => g[i].left + g[i].width) }
  function Bottoms(g: seq<Word>): seq<int> { seq(|g|, i requires 0 <= i < |g| => g[i].top + g[i].height) }
  function Texts(g: seq<Word>): seq<string> { seq(|g|, i requires 0 <= i < |g| => g[i].text) }

  /** `aggregate_line_data(group)`: the words joined by single spaces, and the
      box from the smallest left and top to the largest right and bottom
      edge, as `QRect(x0, y0, x1 - x0, y1 - y0)`; `None` unless that box has
      positive width and height. */
  function Aggregate(g: seq<Word>): (r: Option<Line>)
    requires g != []
    ensures r.Some? <==> MaxOf(Rights(g)) > MinOf(Lefts(g)) && MaxOf(Bottoms(g)) > MinOf(Tops(g))
    ensures r.Some? ==> r.value.text == Join(Texts(g), " ") && IsValid(r.value.rect)
  {
    var x0 := MinOf(Lefts(g));
    var y0 := MinOf(Tops(g));
    var x1 := MaxOf(Rights(g));
    var y1 := MaxOf(Bottoms(g));
    if x1 > x0 && y1 > y0 then Some(Line(Join(Texts(g), " "), Rect(x0, y0, x0 + (x1 - x0) - 1, y0 + (y1 - y0) - 1)))
    else None
  }

  /** A line's box encloses the box of each of its words, and each of its
      edges is the edge of one of them. */
  lemma AggregateEncloses(g: seq<Word>, i: nat)
    requires i < |g| && Aggregate(g).Some?
    ensures Encloses(Aggregate(g).value.rect, WordRect(g[i]))
    ensures var r := Aggregate(g).value.rect;
      && (exists j :: 0 <= j < |g| && r.x1 == g[j].left)
      && (exists j :: 0 <= j < |g| && r.y1 == g[j].top)
      && (exists j :: 0 <= j < |g| && r.x2 == WordRect(g[j]).x2)
      && (exists j :: 0 <= j < |g| && r.y2 == WordRect(g[j]).y2)
  {
    assert Lefts(g)[i] in Lefts(g) && Tops(g)[i] in Tops(g);
    assert Rights(g)[i] in Rights(g) && Bottoms(g)[i] in Bottoms(g);
    var r := Aggregate(g).value.rect;
    var a :| 0 <= a < |g| && Lefts(g)[a] == r.x1;
    var b :| 0 <= b < |g| && Tops(g)[b] == r.y1;
    var c :| 0 <= c < |g| && Rights(g)[c] == r.x2 + 1;
    var d :| 0 <= d < |g| && Bottoms(g)[d] == r.y2 + 1;
    assert r.x2 == WordRect(g[c]).x2 && r.y2 == WordRect(g[d]).y2;
  }

  /** The lines of the kept groups, `dropna()` removing the groups without a box. */
  function Lines(groups: seq<seq<Word>>): (ls: seq<Line>)
    requires forall i :: 0 <= i < |groups| ==> groups[i] != []
    ensures |ls| <= |groups|
    ensures forall l :: l in ls ==> IsValid(l.rect)
  {
    if groups == [] then []
    else
      var front := Lines(groups[..|groups| - 1]);
      var a := Aggregate(groups[|groups| - 1]);
      if a.Some? then front + [a.value] else front
  }

  /** The lines follow the groups: the lines of two runs of groups are those
      of the first run, then those of the second. */
  lemma {:induction false} LinesInOrder(a: seq<seq<Word>>, b: seq<seq<Word>>)
    requires forall i :: 0 <= i < |a| ==> a[i] != []
    requires forall i :: 0 <= i < |b| ==> b[i] != []
    ensures Lines(a + b) == Lines(a) + Lines(b)
  {
    if b == [] {
      assert a + b == a;
    } else {
      var n := |b| - 1;
      assert a + b == (a + b[..n]) + [b[n]];
      assert b == b[..n] + [b[n]];
      LinesInOrder(a, b[..n]);
      LinesSnoc(a + b[..n], b[n]);
      LinesSnoc(b[..n], b[n]);
      var last := if Aggregate(b[n]).Some? then [Aggregate(b[n]).value] else [];
      assert (Lines(a) + Lines(b[..n])) + last == Lines(a) + (Lines(b[..n]) + last);
    }
  }

  /** One step of `dropna`: a group added at the end gives, at the end, its
      `Aggregate` line when it has a box and nothing otherwise. */
  lemma LinesSnoc(groups: seq<seq<Word>>, g: seq<Word>)
    requires forall i :: 0 <= i < |groups| ==> groups[i] != []
    requires g != []
    ensures Lines(groups + [g]) == Lines(groups) + (if Aggregate(g).Some? then [Aggregate(g).value] else [])
  {
    assert (groups + [g])[..|groups|] == groups;
  }

  // ---------------------------------------------------------------- patches

  /** A translated patch: the line's text, its translation and its box. */
  datatype LinePatch = LinePatch(original: string, translated: string, rect: Rect)

  /** The rows of the first `n` lines that get a patch: those with a
      non-empty translation at the same position. */
  function KeptRows(translated: seq<string>, n: nat): (rows: seq<nat>)
    ensures forall j :: 0 <= j < |rows| ==> rows[j] < n
    ensures forall j, k :: 0 <= j < k < |rows| ==> rows[j] < rows[k]
    ensures forall j :: 0 <= j < |rows| ==> rows[j] < |translated| && translated[rows[j]] != []
    ensures forall i: nat :: i in rows <==> i < n && i < |translated| && translated[i] != []
  {
    if n == 0 then []
    else
      var front := KeptRows(translated, n - 1);
      var i := n - 1;
      if i < |translated| && translated[i] != [] then front + [i] else front
  }

  /** The list comprehension building `patches`: one patch per kept row, in row order. */
  function Patches(lines: seq<Line>, translated: seq<string>): (ps: seq<LinePatch>)
    ensures var rows := KeptRows(translated, |lines|);
      && |ps| == |rows|
      && forall j :: 0 <= j < |ps| ==>
           ps[j] == LinePatch(lines[rows[j]].text, translated[rows[j]], lines[rows[j]].rect)
  {
    var rows := KeptRows(translated, |lines|);
    seq(|rows|, j requires 0 <= j < |rows| => LinePatch(lines[rows[j]].text, translated[rows[j]], lines[rows[j]].rect))
  }

  /** Every patch carries a non-empty translation and a valid box, so it can
      be placed by the overlay. */
  lemma PatchesShown(lines: seq<Line>, translated: seq<string>, j: nat)
    requires forall l :: l in lines ==> IsValid(l.rect)
    requires j < |Patches(lines, translated)|
    ensures Patches(lines, translated)[j].translated != []
    ensures IsValid(Patches(lines, translated)[j].rect)
  {
    var rows := KeptRows(translated, |lines|);
    assert rows[j] in rows;
    assert lines[rows[j]] in lines;
  }

  // ---------------------------------------------------------------- worker

  const StatusTranscribing: string := "음성을 텍스트로 변환 중..."
  const StatusListening: string := "음성 듣는 중..."
  const StatusTranslating: string := "텍스트 번역 중..."
  const StatusExtracting: string := "이미지에서 텍스트 추출 중..."
  const SttFailed: string := "STT 번역에 실패했습니다."
  const OcrFailed: string := "번역에 실패했습니다. API 키와 사용량을 확인하세요."

  /** What the worker emits. `LinesStatus(n)` is the status that `n` lines are
      being translated; `SttError`/`OcrError` are the caught exceptions. */
  datatype Event =
    | Status(text: string)
    | LinesStatus(count: nat)
    | SttReady(original: string, target: string, translated: string)
    | PatchesReady(patches: seq<LinePatch>)
    | Failed(message: string)
    | SttError
    | OcrError

  /** Patches that the overlay can show: each with a non-empty translation and a valid box. */
  predicate Placeable(e: Event) {
    e.PatchesReady? ==> forall j :: 0 <= j < |e.patches| ==> e.patches[j].translated != [] && IsValid(e.patches[j].rect)
  }

  function LineTexts(lines: seq<Line>): seq<string> { seq(|lines|, i requires 0 <= i < |lines| => lines[i].text) }

  /** What `process_ocr_image` emits once Tesseract has returned `rows`: an
      error when the minimum confidence cannot be read or compared, an empty
      patch list when no line is left, a failure when the engine gives
      nothing back, and otherwise the line count, the patches and an empty
      status. Everything it emits can be placed by the overlay. */
  function Recognition(rows: seq<Word>, minSetting: Outcome<Value>, source: Option<Value>, lang: string,
                       mt: (seq<string>, Option<Value>, string) -> Option<seq<string>>): (es: seq<Event>)
    ensures es != []
    ensures es == [OcrError] <==> minSetting.Raises? || MinConfidence(minSetting.value).Raises?
    ensures minSetting.Returns? && minSetting.value.Null? ==> es == [PatchesReady([])]
    ensures forall i :: 0 <= i < |es| ==> Placeable(es[i])
    ensures es[|es| - 1].PatchesReady? ==> es[|es| - 1].patches == []
  {
    if minSetting.Raises? then [OcrError]
    else
      var minConf := MinConfidence(minSetting.value);
      if minConf.Raises? then [OcrError]
      else
        var kept := if minConf.value.None? then [] else Confident(rows, minConf.value.value);
        if kept == [] then [PatchesReady([])]
        else
          var lines := Lines(Groups(kept));
          if lines == [] then [PatchesReady([])]
          else
            var translated := mt(LineTexts(lines), source, lang);
            if translated.None? || translated.value == [] then [LinesStatus(|lines|), Failed(OcrFailed)]
            else
              var patches := Patches(lines, translated.value);
              assert Placeable(PatchesReady(patches)) by {
                forall j | 0 <= j < |patches| ensures patches[j].translated != [] && IsValid(patches[j].rect) {
                  PatchesShown(lines, translated.value, j);
                }
              }
              [LinesStatus(|lines|), PatchesReady(patches), Status("")]
  }

  /** `TranslationWorker`: the configuration it reads and what it has emitted. */
  class Worker {
    const store: ConfigManager
    var events: seq<Event>

    constructor (store: ConfigManager)
      ensures this.store == store && events == []
    {
      this.store := store;
      events := [];
    }

    /** `process_stt_audio(audio, channels)` with the recognised text `heard`
        and the engine `mt` (text, source language, target language). An empty
        or blank result goes back to listening; otherwise the message is
        translated into the resolved target language, the source being `None`
        for `auto`. A failed configuration read ends in the caught error. */
    method ProcessSttAudio(heard: Option<string>, locale: string, mt: (string, Option<Value>, string) -> Option<string>)
      modifies this
      ensures var before := old(events) + [Status(StatusTranscribing)];
        var target := GetSetting(store.config, "stt_target_language", Auto);
        var source := GetSetting(store.config, "stt_source_language", Auto);
        && (heard.None? || AllSpace(heard.value) ==> events == before + [Status(StatusListening)])
        && (heard.Some? && !AllSpace(heard.value) ==>
              var started := before + [Status(StatusTranslating)];
              if target.Raises? || ResolveTarget(target.value, locale).Raises? || source.Raises? then
                events == started + [SttError]
              else
                var lang := ResolveTarget(target.value, locale).value;
                var t := mt(heard.value, SourceParam(source.value), lang);
                events == started + (if t.None? then [Failed(SttFailed)] else [SttReady(heard.value, lang, t.value), Status(StatusListening)]))
    {
      events := events + [Status(StatusTranscribing)];
      if heard.None? || Strip(heard.value) == [] {
        events := events + [Status(StatusListening)];
        return;
      }
      events := events + [Status(StatusTranslating)];
      var target := GetSetting(store.config, "stt_target_language", Auto);
      if target.Raises? {
        events := events + [SttError];
        return;
      }
      var lang := ResolveTarget(target.value, locale);
      if lang.Raises? {
        events := events + [SttError];
        return;
      }
      var source := GetSetting(store.config, "stt_source_language", Auto);
      if source.Raises? {
        events := events + [SttError];
        return;
      }
      var t := mt(heard.value, SourceParam(source.value), lang.value);
      if t.None? {
        events := events + [Failed(SttFailed)];
        return;
      }
      events := events + [SttReady(heard.value, lang.value, t.value), Status(StatusListening)];
    }

    /** `process_ocr_image(image)` with Tesseract as `tesseract` (language to
        rows) and the engine `mt` (texts, source language, target language).
        Settings are read in the source's order, and a read or conversion that
        raises ends in the caught error with nothing further emitted. */
    method ProcessOcrImage(locale: string, tesseract: string -> seq<Word>,
                           mt: (seq<string>, Option<Value>, string) -> Option<seq<string>>)
      modifies this
      ensures var source := GetSetting(store.config, "ocr_source_language", Auto);
        var tess := if source.Raises? then Raises else TesseractLang(source.value);
        var target := GetSetting(store.config, "ocr_target_language", Auto);
        var lang := if target.Raises? then Raises else ResolveTarget(target.value, locale);
        && (tess.Raises? || lang.Raises? ==> events == old(events) + [OcrError])
        && (tess.Returns? && lang.Returns? ==>
              events == old(events) + [Status(StatusExtracting)] +
                Recognition(tesseract(tess.value), GetSetting(store.config, "ocr_min_confidence", Int(30)),
                            SourceParam(source.value), lang.value, mt))
    {
      var source := GetSetting(store.config, "ocr_source_language", Auto);
      if source.Raises? {
        events := events + [OcrError];
        return;
      }
      var tess := TesseractLang(source.value);
      if tess.Raises? {
        events := events + [OcrError];
        return;
      }
      var target := GetSetting(store.config, "ocr_target_language", Auto);
      if target.Raises? {
        events := events + [OcrError];
        return;
      }
      var lang := ResolveTarget(target.value, locale);
      if lang.Raises? {
        events := events + [OcrError];
        return;
      }
      var rows := tesseract(tess.value);
      var minSetting := GetSetting(store.config, "ocr_min_confidence", Int(30));
      events := events + [Status(StatusExtracting)] + Recognition(rows, minSetting, SourceParam(source.value), lang.value, mt);
    }
  }
}
