/** The second client's voice-activity segmenter
    (`ariel_client/src/core/audio_processor.py`): it picks a sample rate the
    loopback device supports, then reads 30 ms frames, buffers the frames the
    voice-activity detector calls speech, counts the silent frames after them,
    and emits the buffered speech as one chunk once the silence has lasted
    long enough. Device access and the detector are inputs here: the device
    found (or why none was), the rates it supports, whether the stream opens,
    and the frames read with the detector's verdict on each. Durations are
    whole milliseconds. */
module AudioProcessor {
  import opened Wrappers

  type Bytes = seq<bv8>

  /** The sample rates tried, in order of preference. */
  const SupportedRates: seq<nat> := [48000, 32000, 16000, 8000]

  /** Length of one frame; the detector accepts only 10, 20 or 30 ms. */
  const FrameMs: nat := 30

  /** `silence_threshold_s` and `min_audio_length_s` when the profile has none. */
  const DefaultSilenceMs: nat := 1000
  const DefaultMinAudioMs: nat := 500

  const StatusUnsupported: string := "지원되지 않는 오디오 장치"
  const StatusOpenFailed: string := "오디오 장치 열기 실패"
  const StatusListening: string := "음성 듣는 중..."
  const StatusDisconnected: string := "오디오 장치 연결 끊김"
  const StatusAudioSystem: string := "오디오 시스템 오류"
  const StatusNoOutput: string := "출력 장치 없음"
  const StatusNoLoopback: string := "루프백 장치 없음"

  // ---------------------------------------------------------------- negotiation

  /** The first rate of `rates` the device supports. */
  function FirstSupported(rates: seq<nat>, supported: set<nat>): (r: Option<nat>)
    ensures r.Some? ==> r.value in rates && r.value in supported
    ensures r.None? <==> forall k :: k in rates ==> k !in supported
    ensures r.Some? ==> exists i :: 0 <= i < |rates| && rates[i] == r.value && forall j :: 0 <= j < i ==> rates[j] !in supported
  {
    if rates == [] then None
    else if rates[0] in supported then Some(rates[0])
    else
      var r := FirstSupported(rates[1..], supported);
      assert forall k :: k in rates ==> k == rates[0] || k in rates[1..];
      if r.Some? then
        var i :| 0 <= i < |rates[1..]| && rates[1..][i] == r.value && forall j :: 0 <= j < i ==> rates[1..][j] !in supported;
        assert rates[i + 1] == r.value;
        r
      else r
  }

  /** The negotiation loop of `start_processing`: the first preferred rate the
      device supports, or `None` when it supports none of them. */
  method NegotiateRate(supported: set<nat>) returns (rate: Option<nat>)
    ensures rate == FirstSupported(SupportedRates, supported)
  {
    var i := 0;
    while i < |SupportedRates|
      invariant 0 <= i <= |SupportedRates|
      invariant FirstSupported(SupportedRates, supported) == FirstSupported(SupportedRates[i..], supported)
    {
      if SupportedRates[i] in supported {
        return Some(SupportedRates[i]);
      }
      assert SupportedRates[i..][1..] == SupportedRates[i + 1..];
      i := i + 1;
    }
    return None;
  }

  /** `chunk_size`: the samples in one 30 ms frame at `rate`. */
  function ChunkSize(rate: nat): (n: nat)
    ensures rate in SupportedRates ==> n * 1000 == rate * FrameMs
  {
    rate * FrameMs / 1000
  }

  /** The byte length a frame must have to reach the detector: 16-bit mono samples. */
  function FrameBytes(rate: nat): nat {
    ChunkSize(rate) * 2
  }

  // ---------------------------------------------------------------- frames

  /** `frame_data[::2]`: every other byte, starting with the first. */
  function EveryOther(b: Bytes): (r: Bytes)
    ensures |r| == (|b| + 1) / 2
    ensures forall i :: 0 <= i < |r| ==> r[i] == b[2 * i]
    ensures forall j :: 0 <= j < |b| && j % 2 == 0 ==> j / 2 < |r| && r[j / 2] == b[j]
  {
    seq((|b| + 1) / 2, i requires 0 <= i < (|b| + 1) / 2 => b[2 * i])
  }

  /** The "mono" frame: with two channels, every other byte of the read. */
  function Mono(channels: nat, frame: Bytes): Bytes {
    if channels == 2 then EveryOther(frame) else frame
  }

  /** A full read of `chunk_size` samples on every channel reaches the detector
      exactly when the device has one or two channels: with more, every frame
      is skipped. */
  lemma FullReadReachesDetector(rate: nat, channels: nat, frame: Bytes)
    requires rate in SupportedRates && channels > 0
    requires |frame| == ChunkSize(rate) * channels * 2
    ensures |Mono(channels, frame)| == FrameBytes(rate) <==> channels == 1 || channels == 2
  {
    var n := ChunkSize(rate);
    assert n > 0;
    if channels > 2 {
      assert |frame| >= n * 3 * 2;
      assert |Mono(channels, frame)| == |frame|;
    }
  }

  // ---------------------------------------------------------------- segmentation

  /** The loop variables `voiced_frames` and `silence_counter`. */
  datatype Segmenter = Segmenter(voiced: seq<Bytes>, silence: nat)

  /** The settings the segmentation depends on. */
  datatype Params = Params(rate: nat, channels: nat, silenceMs: nat, minAudioMs: nat)

  /** `b''.join(frames)`. */
  function Concat(frames: seq<Bytes>): (r: Bytes)
    ensures |r| == Total(frames)
  {
    if frames == [] then [] else Concat(frames[..|frames| - 1]) + frames[|frames| - 1]
  }

  /** The join keeps every frame, in order: frame `i` sits right after the
      bytes of the frames before it. */
  lemma {:induction false} ConcatInOrder(frames: seq<Bytes>, i: nat)
    requires i < |frames|
    ensures Total(frames[..i]) + |frames[i]| == Total(frames[..i + 1]) <= |Concat(frames)|
    ensures Concat(frames)[Total(frames[..i])..Total(frames[..i + 1])] == frames[i]
  {
    var front := frames[..|frames| - 1];
    assert frames[..i + 1][..i] == frames[..i];
    if i == |frames| - 1 {
      assert frames[..i] == front;
      assert frames[..i + 1] == frames;
    } else {
      ConcatInOrder(front, i);
      assert front[..i] == frames[..i] && front[..i + 1] == frames[..i + 1] && front[i] == frames[i];
    }
  }

  function Total(frames: seq<Bytes>): nat {
    if frames == [] then 0 else Total(frames[..|frames| - 1]) + |frames[|frames| - 1]|
  }

  /** `audio_duration_s >= min_audio_length_s` for `len(audio) / (rate * 2)`
      seconds, compared exactly. */
  predicate LongEnough(p: Params, audio: Bytes) {
    |audio| * 1000 >= p.minAudioMs * p.rate * 2
  }

  /** `silence_duration_s > silence_threshold_s` for `silence * 30 / 1000` seconds. */
  predicate SilenceOver(p: Params, silence: nat) {
    silence * FrameMs > p.silenceMs
  }

  /** One pass of the loop body for a frame that was read, with the detector's
      verdict on it:
      - a frame of the wrong length is skipped and changes nothing;
      - a speech frame is buffered and resets the silence count, so no chunk
        can follow it;
      - a silent frame is only counted; when speech is buffered and the
        silence now lasts longer than the threshold, the buffer and the count
        are reset, and the buffered frames, joined in order, are emitted if they
        last at least the minimum length. */
  function Step(p: Params, s: Segmenter, frame: Bytes, speech: bool): (Segmenter, Option<Bytes>) {
    var mono := Mono(p.channels, frame);
    if |mono| != FrameBytes(p.rate) then (s, None)
    else
      var t := if speech then Segmenter(s.voiced + [mono], 0) else Segmenter(s.voiced, s.silence + 1);
      if t.voiced != [] && SilenceOver(p, t.silence) then
        var audio := Concat(t.voiced);
        (Segmenter([], 0), if LongEnough(p, audio) then Some(audio) else None)
      else (t, None)
  }

  /** The three cases of a step, as the loop body takes them (a proof helper). */
  lemma StepCases(p: Params, s: Segmenter, frame: Bytes, speech: bool)
    ensures var r := Step(p, s, frame, speech);
      && (|Mono(p.channels, frame)| != FrameBytes(p.rate) ==> r == (s, None))
      && (|Mono(p.channels, frame)| == FrameBytes(p.rate) && speech ==>
            r == (Segmenter(s.voiced + [Mono(p.channels, frame)], 0), None))
      && (|Mono(p.channels, frame)| == FrameBytes(p.rate) && !speech ==>
            if s.voiced != [] && SilenceOver(p, s.silence + 1) then
              && r.0 == Segmenter([], 0)
              && r.1 == (if LongEnough(p, Concat(s.voiced)) then Some(Concat(s.voiced)) else None)
            else r == (Segmenter(s.voiced, s.silence + 1), None))
  {
  }

  /** A step never loses buffered audio: the buffer is kept, possibly with
      the new frame appended, or it is flushed, and a flushed buffer is
      emitted whole, joined in order, unless it is too short. A chunk is
      emitted only on a silent frame. */
  lemma StepKeepsBuffer(p: Params, s: Segmenter, frame: Bytes, speech: bool)
    ensures var r := Step(p, s, frame, speech);
      || (r.1.None? && r.0.voiced == s.voiced)
      || (r.1.None? && r.0.voiced == s.voiced + [Mono(p.channels, frame)])
      || (r.0.voiced == [] && s.voiced != [] && r.1 == (if LongEnough(p, Concat(s.voiced)) then Some(Concat(s.voiced)) else None))
    ensures Step(p, s, frame, speech).1.Some? ==>
      && !speech && s.voiced != []
      && Step(p, s, frame, speech).1.value == Concat(s.voiced)
      && Step(p, s, frame, speech).0 == Segmenter([], 0)
  {
  }

  /** What holds between frames: every buffered frame has the detector's length,
      and speech is never held longer than the silence threshold allows. */
  predicate Inv(p: Params, s: Segmenter) {
    && (forall i :: 0 <= i < |s.voiced| ==> |s.voiced[i]| == FrameBytes(p.rate))
    && (s.voiced != [] ==> !SilenceOver(p, s.silence))
  }

  /** An emitted chunk holds at least one whole frame, is a whole number of
      frames, and is at least the minimum length. */
  predicate ChunkOk(p: Params, c: Bytes) {
    && |c| > 0
    && FrameBytes(p.rate) > 0
    && |c| % FrameBytes(p.rate) == 0
    && LongEnough(p, c)
  }

  lemma {:induction false} TotalFrames(p: Params, frames: seq<Bytes>)
    requires forall i :: 0 <= i < |frames| ==> |frames[i]| == FrameBytes(p.rate)
    ensures Total(frames) == |frames| * FrameBytes(p.rate)
  {
    if frames != [] {
      var front := frames[..|frames| - 1];
      assert forall i :: 0 <= i < |front| ==> front[i] == frames[i];
      TotalFrames(p, front);
    }
  }

  /** Every step keeps the invariant and emits only well-formed chunks. */
  lemma StepInv(p: Params, s: Segmenter, frame: Bytes, speech: bool)
    requires p.rate in SupportedRates
    requires Inv(p, s)
    ensures Inv(p, Step(p, s, frame, speech).0)
    ensures Step(p, s, frame, speech).1.Some? ==> ChunkOk(p, Step(p, s, frame, speech).1.value)
  {
    var mono := Mono(p.channels, frame);
    if |mono| == FrameBytes(p.rate) && !speech && s.voiced != [] && SilenceOver(p, s.silence + 1) {
      WholeFrames(p, s.voiced);
    }
  }

  /** The buffered frames, joined, are a non-empty whole number of frames. */
  lemma WholeFrames(p: Params, frames: seq<Bytes>)
    requires p.rate in SupportedRates
    requires frames != []
    requires forall i :: 0 <= i < |frames| ==> |frames[i]| == FrameBytes(p.rate)
    ensures FrameBytes(p.rate) > 0
    ensures |Concat(frames)| > 0 && |Concat(frames)| % FrameBytes(p.rate) == 0
  {
    TotalFrames(p, frames);
    WholeMultiple(p.rate, |frames|);
  }

  /** A whole number of frames at a supported rate is divisible by the frame length. */
  lemma WholeMultiple(rate: nat, n: nat)
    requires rate in SupportedRates
    ensures FrameBytes(rate) > 0 && (n * FrameBytes(rate)) % FrameBytes(rate) == 0
  {
    var k := FrameBytes(rate);
    assert k == 2880 || k == 1920 || k == 960 || k == 480;
    if k == 2880 {
      assert (n * 2880) % 2880 == 0;
    } else if k == 1920 {
      assert (n * 1920) % 1920 == 0;
    } else if k == 960 {
      assert (n * 960) % 960 == 0;
    } else {
      assert (n * 480) % 480 == 0;
    }
  }

  /** What the device delivered to one `stream.read`: a frame and the detector's
      verdict on it, or an `IOError`. */
  datatype Read = Frame(data: Bytes, speech: bool) | ReadError

  /** The loop over the input: it runs until a read fails (or, when the input
      run out, until `stop()` clears the running flag from outside), and
      collects the chunks emitted. */
  function Run(p: Params, s: Segmenter, input: seq<Read>): (r: (Segmenter, seq<Bytes>))
    decreases |input|
  {
    if input == [] || input[0].ReadError? then (s, [])
    else
      var (s1, c) := Step(p, s, input[0].data, input[0].speech);
      var (s2, cs) := Run(p, s1, input[1..]);
      (s2, (if c.Some? then [c.value] else []) + cs)
  }

  /** A run from a frame is that frame's step followed by the run of the rest. */
  lemma RunFrame(p: Params, s: Segmenter, input: seq<Read>, i: nat)
    requires i < |input| && input[i].Frame?
    ensures var (next, chunk) := Step(p, s, input[i].data, input[i].speech);
      var rest := Run(p, next, input[i + 1..]);
      Run(p, s, input[i..]) == (rest.0, (if chunk.Some? then [chunk.value] else []) + rest.1)
  {
    assert input[i..][1..] == input[i + 1..];
  }

  /** Over a whole run the invariant holds at the end and every emitted chunk
      is well formed. */
  lemma {:induction false} RunInv(p: Params, s: Segmenter, input: seq<Read>)
    requires p.rate in SupportedRates
    requires Inv(p, s)
    ensures Inv(p, Run(p, s, input).0)
    ensures forall i :: 0 <= i < |Run(p, s, input).1| ==> ChunkOk(p, Run(p, s, input).1[i])
    decreases |input|
  {
    if input != [] && input[0].Frame? {
      var (s1, c) := Step(p, s, input[0].data, input[0].speech);
      StepInv(p, s, input[0].data, input[0].speech);
      RunInv(p, s1, input[1..]);
    }
  }

  /** Every `audio_chunk_ready` a run from the empty buffer sends carries a
      well-formed chunk. */
  lemma ChunkEventsOk(p: Params, input: seq<Read>)
    requires p.rate in SupportedRates
    ensures var es := ChunkEvents(Run(p, Segmenter([], 0), input).1);
      forall i :: 0 <= i < |es| ==> es[i].ChunkReady? && ChunkOk(p, es[i].audio)
  {
    RunInv(p, Segmenter([], 0), input);
  }

  /** Without any speech frame nothing is ever emitted. */
  lemma {:induction false} SilenceEmitsNothing(p: Params, input: seq<Read>)
    requires forall i :: 0 <= i < |input| ==> input[i].Frame? ==> !input[i].speech
    ensures Run(p, Segmenter([], 0), input).1 == []
  {
    if input != [] && input[0].Frame? {
      var s1 := Step(p, Segmenter([], 0), input[0].data, false).0;
      assert s1.voiced == [];
      assert s1 == Segmenter([], s1.silence);
      SilenceFrom(p, s1.silence, input[1..]);
    }
  }

  lemma {:induction false} SilenceFrom(p: Params, n: nat, input: seq<Read>)
    requires forall i :: 0 <= i < |input| ==> input[i].Frame? ==> !input[i].speech
    ensures Run(p, Segmenter([], n), input).1 == []
    decreases |input|
  {
    if input != [] && input[0].Frame? {
      var s1 := Step(p, Segmenter([], n), input[0].data, false).0;
      assert s1.voiced == [];
      assert forall i :: 0 <= i < |input[1..]| ==> input[1..][i] == input[i + 1];
      SilenceFrom(p, s1.silence, input[1..]);
    }
  }

  // ---------------------------------------------------------------- the processor

  /** How the search for a loopback device ended. */
  datatype Discovery =
    | AudioSystemError(created: bool)   // PyAudio or its WASAPI host API failed; `created` says whether `self.p` was set
    | NoOutputDevice                    // no default output device
    | NoLoopbackDevice                  // no loopback or stereo-mix input device
    | Found(index: nat, inputChannels: nat)

  datatype Event = Status(text: string) | ChunkReady(audio: Bytes) | Stopped | Finished

  function ChunkEvents(cs: seq<Bytes>): (es: seq<Event>)
    ensures |es| == |cs| && forall i :: 0 <= i < |cs| ==> es[i] == ChunkReady(cs[i])
  {
    seq(|cs|, i requires 0 <= i < |cs| => ChunkReady(cs[i]))
  }

  /** The status the device search reports when it finds nothing. */
  function DiscoveryStatus(d: Discovery): string
    requires !d.Found?
  {
    match d
    case AudioSystemError(_) => StatusAudioSystem
    case NoOutputDevice => StatusNoOutput
    case NoLoopbackDevice => StatusNoLoopback
  }

  /** The events `stop()` adds once there is something to stop. */
  const StopEvents: seq<Event> := [Stopped, Finished]

  /** `AudioProcessor`: the running flag, whether a PyAudio handle and a stream
      are held, the negotiated format, and the signals emitted so far. */
  class Processor {
    const silenceMs: nat
    const minAudioMs: nat
    var running: bool
    var hasPyAudio: bool
    var hasStream: bool
    var sampleRate: nat
    var chunkSize: nat
    var channels: nat
    var events: seq<Event>

    /** `__init__`, with the two thresholds already read from the profile. */
    constructor (silenceMs: nat, minAudioMs: nat)
      ensures this.silenceMs == silenceMs && this.minAudioMs == minAudioMs
      ensures !running && !hasPyAudio && !hasStream
      ensures sampleRate == 16000 && chunkSize == 0 && channels == 0 && events == []
    {
      this.silenceMs := silenceMs;
      this.minAudioMs := minAudioMs;
      running := false;
      hasPyAudio := false;
      hasStream := false;
      sampleRate := 16000;
      chunkSize := 0;
      channels := 0;
      events := [];
    }

    /** `stop()`: nothing happens when not running and holding neither a
        stream nor a PyAudio handle; otherwise both are released, the flag is
        cleared, and `stopped` then `finished` are emitted. */
    method Stop()
      modifies this
      ensures !old(running) && !old(hasStream) && !old(hasPyAudio) ==> events == old(events)
      ensures old(running) || old(hasStream) || old(hasPyAudio) ==> events == old(events) + StopEvents
      ensures !running && !hasStream && !hasPyAudio
      ensures sampleRate == old(sampleRate) && chunkSize == old(chunkSize) && channels == old(channels)
    {
      if !running && !hasStream && !hasPyAudio {
        return;
      }
      running := false;
      hasStream := false;
      hasPyAudio := false;
      events := events + StopEvents;
    }

    function Settings(): Params
      reads this
    {
      Params(sampleRate, channels, silenceMs, minAudioMs)
    }

    /** The `while self._is_running` loop, from the first read to the last. */
    method Listen(input: seq<Read>)
      requires running
      modifies this
      ensures var (_, cs) := Run(old(Settings()), Segmenter([], 0), input);
        events == old(events) + ChunkEvents(cs)
          + (if exists i :: 0 <= i < |input| && input[i].ReadError? then [Status(StatusDisconnected)] else [])
      ensures sampleRate == old(sampleRate) && chunkSize == old(chunkSize) && channels == old(channels)
      ensures hasStream == old(hasStream) && hasPyAudio == old(hasPyAudio)
    {
      var chunks, failed := ReadLoop(Settings(), input);
      assert ChunkEvents(chunks) == ChunkEvents(Run(Settings(), Segmenter([], 0), input).1);
      events := events + ChunkEvents(chunks);
      if failed {
        events := events + [Status(StatusDisconnected)];
        running := false;
      }
    }

    /** The reads of the loop, each frame passed through the segmenter, until
        a read fails: the chunks in the order they are emitted, and whether a
        read failed. */
    static method ReadLoop(p: Params, input: seq<Read>) returns (chunks: seq<Bytes>, failed: bool)
      ensures chunks == Run(p, Segmenter([], 0), input).1
      ensures failed <==> exists i :: 0 <= i < |input| && input[i].ReadError?
    {
      var seg := Segmenter([], 0);
      chunks, failed := [], false;
      var i := 0;
      assert input[0..] == input;
      assert [] + Run(p, seg, input).1 == Run(p, seg, input).1;
      while i < |input| && !failed
        invariant 0 <= i <= |input|
        invariant !failed ==> forall j :: 0 <= j < i ==> input[j].Frame?
        invariant !failed ==> Run(p, Segmenter([], 0), input).1 == chunks + Run(p, seg, input[i..]).1
        invariant failed ==> 0 < i && input[i - 1].ReadError? && chunks == Run(p, Segmenter([], 0), input).1
        decreases |input| - i
      {
        if input[i].ReadError? {
          assert Run(p, seg, input[i..]).1 == [];
          assert chunks + [] == chunks;
          failed := true;
        } else {
          var (next, chunk) := Step(p, seg, input[i].data, input[i].speech);
          RunFrame(p, seg, input, i);
          var out := if chunk.Some? then [chunk.value] else [];
          assert chunks + (out + Run(p, next, input[i + 1..]).1) == (chunks + out) + Run(p, next, input[i + 1..]).1;
          chunks := chunks + out;
          seg := next;
        }
        i := i + 1;
      }
      if !failed {
        assert input[i..] == [];
        assert chunks + [] == chunks;
      }
    }

    /** `start_processing()`: search for the device, negotiate the rate, open
        the stream, listen until the reads end, and stop. Every failure
        reports a status and stops; every chunk emitted is well formed. */
    method StartProcessing(discovery: Discovery, supported: set<nat>, opens: bool, input: seq<Read>)
      modifies this
      ensures !running && !hasStream && !hasPyAudio
      ensures !discovery.Found? ==>
        events == old(events) + [Status(DiscoveryStatus(discovery))]
          + (if old(running) || old(hasStream) || old(hasPyAudio) || discovery != AudioSystemError(false) then StopEvents else [])
      ensures discovery.Found? && FirstSupported(SupportedRates, supported).None? ==>
        events == old(events) + [Status(StatusUnsupported)] + StopEvents
      ensures discovery.Found? && FirstSupported(SupportedRates, supported).Some? ==>
        var rate := FirstSupported(SupportedRates, supported).value;
        && sampleRate == rate && chunkSize == ChunkSize(rate) && channels == discovery.inputChannels
        && events == old(events)
          + (if opens then
               [Status(StatusListening)]
               + ChunkEvents(Run(Params(rate, discovery.inputChannels, silenceMs, minAudioMs), Segmenter([], 0), input).1)
               + (if exists i :: 0 <= i < |input| && input[i].ReadError? then [Status(StatusDisconnected)] else [])
             else [Status(StatusOpenFailed)])
          + StopEvents
    {
      if !discovery.Found? {
        if discovery != AudioSystemError(false) {
          hasPyAudio := true;
        }
        events := events + [Status(DiscoveryStatus(discovery))];
        Stop();
        return;
      }
      hasPyAudio := true;
      var rate := NegotiateRate(supported);
      if rate.None? {
        events := events + [Status(StatusUnsupported)];
        Stop();
        return;
      }
      sampleRate := rate.value;
      chunkSize := ChunkSize(sampleRate);
      channels := discovery.inputChannels;
      if !opens {
        events := events + [Status(StatusOpenFailed)];
        Stop();
        return;
      }
      hasStream := true;
      running := true;
      events := events + [Status(StatusListening)];
      Listen(input);
      Stop();
    }
  }
}
