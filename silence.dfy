/**
 * Trimming of leading and trailing silence from synthesized audio
 * (`TTS.remove_silence`). Decoding the WAV container, finding the non-silent
 * stretches and exporting WAV again belong to an audio library; they are
 * parameters here (AudioLib). What is modelled exactly is the rule built on
 * top of them: keep the audio from the start of the first non-silent
 * interval to the end of the last one, or return the input untouched when
 * there is no non-silent interval.
 */
module SilenceTrimmer {
  import opened Types

  /** A silent stretch must last at least this many milliseconds. */
  const MIN_SILENCE_LEN: nat := 500

  /** Audio quieter than this many dBFS counts as silence. */
  const SILENCE_THRESH: int := -40

  /** The PCM data of one millisecond of audio. */
  type Frame = Bytes

  /** Decoded audio, indexed by millisecond as the audio library's segments are. */
  datatype Segment = Segment(frames: seq<Frame>)

  /** A half-open range [start, end) of milliseconds. */
  datatype Interval = Interval(start: nat, end: nat)

  /** The audio library the trimmer is built on:
      - fromWav decodes a WAV file, or fails (None) on bytes it cannot read;
      - detectNonsilent(segment, minSilenceLen, silenceThresh) lists the
        non-silent intervals;
      - exportWav encodes a segment as a WAV file. */
  datatype AudioLib = AudioLib(
    fromWav: Bytes -> Option<Segment>,
    detectNonsilent: (Segment, nat, int) -> seq<Interval>,
    exportWav: Segment -> Bytes)

  /** Slicing a segment by milliseconds, `audio[start:end]`: both bounds are
      first clamped to the length of the segment. */
  function Slice(seg: Segment, start: nat, end: nat): (r: Segment)
    ensures |r.frames| <= |seg.frames|
    ensures start <= end <= |seg.frames| ==>
      |r.frames| == end - start &&
      forall k :: start <= k < end ==> r.frames[k - start] == seg.frames[k]
  {
    var n := |seg.frames|;
    var s := if start < n then start else n;
    var e := if end < n then end else n;
    if s <= e then Segment(seg.frames[s..e]) else Segment([])
  }

  /** The span the trimmer keeps: from the start of the first interval to the
      end of the last; None when there are no intervals. */
  function KeptSpan(intervals: seq<Interval>): (span: Option<Interval>)
    ensures span.Some? <==> intervals != []
  {
    if intervals == [] then None
    else Some(Interval(intervals[0].start, intervals[|intervals| - 1].end))
  }

  /** The intervals an interval detector reports: each non-empty, in
      ascending order without overlap, and inside the segment. */
  predicate WellFormed(intervals: seq<Interval>, length: nat) {
    (forall i :: 0 <= i < |intervals| ==> intervals[i].start < intervals[i].end <= length) &&
    (forall i :: 0 <= i < |intervals| - 1 ==> intervals[i].end <= intervals[i + 1].start)
  }

  /** In well-formed intervals, a later interval starts and ends no earlier
      than an earlier one. */
  lemma {:induction false} Ascending(intervals: seq<Interval>, length: nat, i: nat, j: nat)
    requires WellFormed(intervals, length)
    requires i <= j < |intervals|
    ensures intervals[i].start <= intervals[j].start
    ensures intervals[i].end <= intervals[j].end
    decreases j - i
  {
    if i < j {
      Ascending(intervals, length, i + 1, j);
    }
  }

  /** The kept span contains every non-silent interval: trimming never cuts
      audio the detector found non-silent. */
  lemma SpanCoversIntervals(intervals: seq<Interval>, length: nat)
    requires WellFormed(intervals, length) && intervals != []
    ensures KeptSpan(intervals).value.start <= KeptSpan(intervals).value.end <= length
    ensures forall i :: 0 <= i < |intervals| ==>
      KeptSpan(intervals).value.start <= intervals[i].start &&
      intervals[i].end <= KeptSpan(intervals).value.end
  {
    forall i | 0 <= i < |intervals|
      ensures KeptSpan(intervals).value.start <= intervals[i].start
      ensures intervals[i].end <= KeptSpan(intervals).value.end
    {
      Ascending(intervals, length, 0, i);
      Ascending(intervals, length, i, |intervals| - 1);
    }
  }

  /** `TTS.remove_silence` (main.py lines 114-126); None when the library
      cannot decode the input. */
  function RemoveSilence(lib: AudioLib, audio: Bytes): (r: Option<Bytes>)
    ensures r.None? <==> lib.fromWav(audio).None?
  {
    match lib.fromWav(audio)
    case None => None
    case Some(seg) =>
      match KeptSpan(lib.detectNonsilent(seg, MIN_SILENCE_LEN, SILENCE_THRESH))
      case None => Some(audio)
      case Some(span) => Some(lib.exportWav(Slice(seg, span.start, span.end)))
  }

  /** Audio with no non-silent interval comes back byte for byte. */
  lemma AllSilenceUnchanged(lib: AudioLib, audio: Bytes, seg: Segment)
    requires lib.fromWav(audio) == Some(seg)
    requires lib.detectNonsilent(seg, MIN_SILENCE_LEN, SILENCE_THRESH) == []
    ensures RemoveSilence(lib, audio) == Some(audio)
  {
  }

  /** For any non-empty interval list the detector reports, in whatever
      order, the trimmer exports the slice from the first interval's start to
      the last interval's end. */
  lemma TrimSelectsSpan(lib: AudioLib, audio: Bytes, seg: Segment)
    requires lib.fromWav(audio) == Some(seg)
    requires lib.detectNonsilent(seg, MIN_SILENCE_LEN, SILENCE_THRESH) != []
    ensures var iv := lib.detectNonsilent(seg, MIN_SILENCE_LEN, SILENCE_THRESH);
      RemoveSilence(lib, audio) == Some(lib.exportWav(Slice(seg, iv[0].start, iv[|iv| - 1].end)))
  {
  }

  /** Audio with non-silent intervals comes back as the WAV export of exactly
      the frames from the first interval's start to the last interval's end,
      and every frame of every non-silent interval is among them, at the same
      position relative to the start of the kept span. */
  lemma TrimKeepsNonsilentSpan(lib: AudioLib, audio: Bytes, seg: Segment)
    requires lib.fromWav(audio) == Some(seg)
    requires var iv := lib.detectNonsilent(seg, MIN_SILENCE_LEN, SILENCE_THRESH);
      iv != [] && WellFormed(iv, |seg.frames|)
    ensures var iv := lib.detectNonsilent(seg, MIN_SILENCE_LEN, SILENCE_THRESH);
      var first, last := iv[0].start, iv[|iv| - 1].end;
      exists kept: Segment ::
        RemoveSilence(lib, audio) == Some(lib.exportWav(kept)) &&
        |kept.frames| == last - first &&
        (forall k :: first <= k < last ==> kept.frames[k - first] == seg.frames[k]) &&
        forall i, k :: 0 <= i < |iv| && iv[i].start <= k < iv[i].end ==>
          first <= k < last && kept.frames[k - first] == seg.frames[k]
  {
    var iv := lib.detectNonsilent(seg, MIN_SILENCE_LEN, SILENCE_THRESH);
    SpanCoversIntervals(iv, |seg.frames|);
    var first, last := iv[0].start, iv[|iv| - 1].end;
    var kept := Slice(seg, first, last);
    TrimSelectsSpan(lib, audio, seg);
  }
}
