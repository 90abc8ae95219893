/**
 * The open-vocabulary detection pass (OWL-ViT): the detector is driven by text
 * prompts, each detection is labelled with the prompt it matched, nothing is
 * filtered, and the confidence is always present.
 */
module OpenVocab {
  import opened Wrappers
  import opened Detections
  import opened Sampler
  import opened Pipeline

  const DefaultModelId: string := "google/owlvit-base-patch32"

  /** The prompts used when none, or an empty list, are given. */
  const DefaultPrompts: seq<string> :=
    ["katana", "sword", "blade", "yellow jumpsuit", "yellow suit", "yellow outfit"]

  /** The post-processed `results`: three parallel lists the loop zips together. */
  datatype RawResults = RawResults(boxes: seq<Box>, scores: seq<real>, labels: seq<int>)

  /** A decoded frame: its size and what the detector returned for it. */
  datatype Frame = Frame(w: Dim, h: Dim, results: RawResults)

  /** The run's parameters; `prompts` may be `None`. */
  datatype Config = Config(sampleFps: real, scoreThreshold: real, modelId: string, prompts: Option<seq<string>>)

  const DefaultConfig: Config := Config(2.0, 0.20, DefaultModelId, None)

  /** `prompts or [...]`: `None` and the empty list are both replaced by the defaults. */
  function EffectivePrompts(prompts: Option<seq<string>>): (ps: seq<string>)
    ensures |ps| >= 1
    ensures prompts.Some? && prompts.value != [] ==> ps == prompts.value
    ensures prompts.None? || prompts.value == [] ==> ps == DefaultPrompts
  {
    if prompts.Some? && prompts.value != [] then prompts.value else DefaultPrompts
  }

  /**
   * `prompts[int(label_idx)]` with Python's indexing: a negative index counts from
   * the end, and an index outside the list raises.
   */
  function PromptLabel(prompts: seq<string>, index: int): (r: Result<string, Failure>)
    ensures r.Ok? <==> -|prompts| <= index < |prompts|
    ensures 0 <= index < |prompts| ==> r == Ok(prompts[index])
    ensures -|prompts| <= index < 0 ==> r == Ok(prompts[|prompts| + index])
    ensures r.Ok? ==> r.value in prompts
    ensures r.Err? ==> r.error == PromptIndexOutOfRange(index)
  {
    if 0 <= index < |prompts| then Ok(prompts[index])
    else if -|prompts| <= index < 0 then Ok(prompts[|prompts| + index])
    else Err(PromptIndexOutOfRange(index))
  }

  /** `zip` stops at the shortest of the three lists. */
  function ZipLength(r: RawResults): (n: nat)
    ensures n <= |r.boxes| && n <= |r.scores| && n <= |r.labels|
    ensures n == |r.boxes| || n == |r.scores| || n == |r.labels|
  {
    if |r.boxes| <= |r.scores| && |r.boxes| <= |r.labels| then |r.boxes|
    else if |r.scores| <= |r.labels| then |r.scores|
    else |r.labels|
  }

  /** The `boxes` list after the loop has seen the first `n` zipped detections. */
  function DetectionsUpTo(r: RawResults, prompts: seq<string>, w: Dim, h: Dim, n: nat): Result<seq<Detection>, Failure>
    requires n <= ZipLength(r)
  {
    if n == 0 then Ok([])
    else match DetectionsUpTo(r, prompts, w, h, n - 1)
      case Err(e) => Err(e)
      case Ok(before) =>
        match PromptLabel(prompts, r.labels[n - 1])
        case Err(e) => Err(e)
        case Ok(labelName) => Ok(before + [NormalizeBox(labelName, Some(r.scores[n - 1]), r.boxes[n - 1], w, h)])
  }

  /** What one sampled frame contributes, or the error its labels raise. */
  function FrameDetections(f: Frame, prompts: seq<string>): Result<seq<Detection>, Failure>
  {
    DetectionsUpTo(f.results, prompts, f.w, f.h, ZipLength(f.results))
  }

  /** The per-frame step of the sampling loop. */
  function Detect(prompts: seq<string>): Frame -> Result<seq<Detection>, Failure>
  {
    f => FrameDetections(f, prompts)
  }

  /** The inner `for box, score, label_idx in zip(...)` loop of one sampled frame. */
  method NormalizeFrame(f: Frame, prompts: seq<string>) returns (r: Result<seq<Detection>, Failure>)
    ensures r == FrameDetections(f, prompts)
  {
    var boxes: seq<Detection> := [];
    var n := ZipLength(f.results);
    for i := 0 to n
      invariant DetectionsUpTo(f.results, prompts, f.w, f.h, i) == Ok(boxes)
    {
      var conf := f.results.scores[i];
      var labelName := PromptLabel(prompts, f.results.labels[i]);
      if labelName.Err? {
        PropagateError(f.results, prompts, f.w, f.h, i + 1, n);
        return Err(labelName.error);
      }
      boxes := boxes + [NormalizeBox(labelName.value, Some(conf), f.results.boxes[i], f.w, f.h)];
    }
    return Ok(boxes);
  }

  /** Once a prefix raises, every longer prefix raises the same error. */
  lemma {:induction false} PropagateError(r: RawResults, prompts: seq<string>, w: Dim, h: Dim, m: nat, n: nat)
    requires m <= n <= ZipLength(r)
    requires DetectionsUpTo(r, prompts, w, h, m).Err?
    ensures DetectionsUpTo(r, prompts, w, h, n) == DetectionsUpTo(r, prompts, w, h, m)
    decreases n - m
  {
    if m < n {
      PropagateError(r, prompts, w, h, m + 1, n);
    }
  }

  /** The whole run as a value: the artifact, or the error the script raises. */
  function Run(video: Video<Frame>, cfg: Config): Result<Artifact, Failure>
  {
    var prompts := EffectivePrompts(cfg.prompts);
    if video.Unavailable? then Err(VideoUnavailable)
    else
      var fps := SourceFps(video.reportedFps);
      if cfg.sampleFps == 0.0 then Err(ZeroSampleRate)
      else
        match SampleFrom(video.frames, Stride(fps, cfg.sampleFps), fps, Detect(prompts), 0)
        case Err(e) => Err(e)
        case Ok(records) =>
          Ok(Artifact(VideoSource, cfg.sampleFps, fps, cfg.modelId, OpenVocabParams(cfg.scoreThreshold, prompts), records))
  }

  /** `run_detection`: the prompt default, the fps fallback, the stride, then the sampling loop. */
  method RunDetection(video: Video<Frame>, cfg: Config) returns (r: Result<Artifact, Failure>)
    ensures r == Run(video, cfg)
  {
    var prompts := EffectivePrompts(cfg.prompts);
    if video.Unavailable? {
      return Err(VideoUnavailable);
    }
    var videoFps := SourceFps(video.reportedFps);
    if cfg.sampleFps == 0.0 {
      return Err(ZeroSampleRate);
    }
    var stride := Stride(videoFps, cfg.sampleFps);
    var frames := SampleFrames(video.frames, stride, videoFps, prompts);
    match frames
    case Err(e) =>
      r := Err(e);
    case Ok(records) =>
      r := Ok(Artifact(VideoSource, cfg.sampleFps, videoFps, cfg.modelId, OpenVocabParams(cfg.scoreThreshold, prompts), records));
  }

  /**
   * The `while True` loop: `frame_idx` advances once per decoded frame, a record is
   * appended for each frame that passes the stride test, and an error raised while
   * labelling a frame ends the run.
   */
  method SampleFrames(decoded: seq<Frame>, stride: nat, videoFps: real, prompts: seq<string>)
    returns (r: Result<seq<FrameRecord>, Failure>)
    requires stride >= 1 && videoFps != 0.0
    ensures r == SampleFrom(decoded, stride, videoFps, Detect(prompts), 0)
  {
    var frames: seq<FrameRecord> := [];
    var frameIdx: nat := 0;
    PrependNothing(SampleFrom(decoded, stride, videoFps, Detect(prompts), 0));
    while frameIdx < |decoded|
      invariant frameIdx <= |decoded|
      invariant SampleFrom(decoded, stride, videoFps, Detect(prompts), 0)
             == Prepend(frames, SampleFrom(decoded, stride, videoFps, Detect(prompts), frameIdx))
      decreases |decoded| - frameIdx
    {
      if frameIdx % stride != 0 {
        SampleFromSkip(decoded, stride, videoFps, Detect(prompts), frameIdx);
        frameIdx := frameIdx + 1;
        continue;
      }
      var boxes := NormalizeFrame(decoded[frameIdx], prompts);
      if boxes.Err? {
        return Err(boxes.error);
      }
      SampleFromTake(decoded, stride, videoFps, Detect(prompts), frameIdx, frames, boxes.value);
      frames := frames + [FrameRecord(FrameTime(frameIdx, videoFps), frameIdx, boxes.value)];
      frameIdx := frameIdx + 1;
    }
    assert frames + [] == frames;
    return Ok(frames);
  }

  /**
   * Nothing is filtered: when labelling succeeds, every zipped detection yields
   * exactly one box, in emission order, labelled with the prompt it matched and
   * carrying its confidence.
   */
  lemma {:induction false} OneBoxPerDetection(r: RawResults, prompts: seq<string>, w: Dim, h: Dim, n: nat,
                                              boxes: seq<Detection>)
    requires n <= ZipLength(r)
    requires DetectionsUpTo(r, prompts, w, h, n) == Ok(boxes)
    ensures |boxes| == n
    ensures forall k :: 0 <= k < n ==>
      && PromptLabel(prompts, r.labels[k]).Ok?
      && boxes[k] == NormalizeBox(PromptLabel(prompts, r.labels[k]).value, Some(r.scores[k]), r.boxes[k], w, h)
  {
    if n > 0 {
      var before := DetectionsUpTo(r, prompts, w, h, n - 1);
      OneBoxPerDetection(r, prompts, w, h, n - 1, before.value);
      assert boxes == before.value + [boxes[n - 1]];
    }
  }

  /** Labelling a frame fails exactly when some zipped label index is outside the prompt list. */
  lemma {:induction false} DetectionsFailure(r: RawResults, prompts: seq<string>, w: Dim, h: Dim, n: nat)
    requires n <= ZipLength(r)
    ensures DetectionsUpTo(r, prompts, w, h, n).Err? <==>
      exists k :: 0 <= k < n && !(-|prompts| <= r.labels[k] < |prompts|)
  {
    if n > 0 {
      DetectionsFailure(r, prompts, w, h, n - 1);
    }
  }

  /**
   * A run fails when the video cannot be opened, when the sample rate is 0, or when
   * some sampled frame carries a label index outside the prompt list; only then.
   */
  lemma RunFailure(video: Video<Frame>, cfg: Config)
    ensures Run(video, cfg).Err? <==>
      || video.Unavailable?
      || cfg.sampleFps == 0.0
      || exists j :: && 0 <= j < |video.frames|
                     && IsSampled(j, Stride(SourceFps(video.reportedFps), cfg.sampleFps))
                     && FrameDetections(video.frames[j], EffectivePrompts(cfg.prompts)).Err?
  {
    if video.Opened? && cfg.sampleFps != 0.0 {
      var fps := SourceFps(video.reportedFps);
      SampleFromFailure(video.frames, Stride(fps, cfg.sampleFps), fps, Detect(EffectivePrompts(cfg.prompts)), 0);
    }
  }

  /**
   * A successful run records the measured rate and the prompt list it used, and one
   * frame per sampled index, in ascending order of absolute index, each with one box
   * per zipped detection of that frame, every box labelled with a prompt and carrying
   * a confidence.
   */
  lemma RunFrames(video: Video<Frame>, cfg: Config, a: Artifact)
    requires Run(video, cfg) == Ok(a)
    ensures video.Opened? && cfg.sampleFps != 0.0
    ensures a.videoFps == SourceFps(video.reportedFps) && a.sampleFps == cfg.sampleFps
    ensures a.source == VideoSource && a.model == cfg.modelId
    ensures a.params == OpenVocabParams(cfg.scoreThreshold, EffectivePrompts(cfg.prompts))
    ensures FrameIndices(a.frames) == SampledIndices(0, |video.frames|, Stride(a.videoFps, cfg.sampleFps))
    ensures StrictlyAscending(FrameIndices(a.frames))
    ensures forall k :: 0 <= k < |a.frames| ==>
      && a.frames[k].frameIndex < |video.frames|
      && FrameDetections(video.frames[a.frames[k].frameIndex], a.params.prompts) == Ok(a.frames[k].boxes)
      && |a.frames[k].boxes| == ZipLength(video.frames[a.frames[k].frameIndex].results)
      && a.frames[k].time == FrameTime(a.frames[k].frameIndex, a.videoFps)
    ensures forall k, d :: 0 <= k < |a.frames| && d in a.frames[k].boxes ==>
      d.labelName in a.params.prompts && d.confidence.Some?
  {
    var prompts := EffectivePrompts(cfg.prompts);
    var fps := SourceFps(video.reportedFps);
    var stride := Stride(fps, cfg.sampleFps);
    SampleFromRecords(video.frames, stride, fps, Detect(prompts), 0, a.frames);
    SampledIndicesAscending(0, |video.frames|, stride);
    forall k | 0 <= k < |a.frames|
      ensures |a.frames[k].boxes| == ZipLength(video.frames[a.frames[k].frameIndex].results)
      ensures forall d :: d in a.frames[k].boxes ==> d.labelName in prompts && d.confidence.Some?
    {
      var f := video.frames[a.frames[k].frameIndex];
      assert Detect(prompts)(f) == Ok(a.frames[k].boxes);
      OneBoxPerDetection(f.results, prompts, f.w, f.h, ZipLength(f.results), a.frames[k].boxes);
    }
  }

  /** A sampled frame with no detections still has its record, with an empty `boxes` list. */
  lemma EmptyFrameStillRecorded(video: Video<Frame>, cfg: Config, a: Artifact, j: nat)
    requires Run(video, cfg) == Ok(a)
    requires video.Opened? && j < |video.frames|
    requires IsSampled(j, Stride(a.videoFps, cfg.sampleFps))
    requires ZipLength(video.frames[j].results) == 0
    ensures exists k :: 0 <= k < |a.frames| && a.frames[k].frameIndex == j && a.frames[k].boxes == []
  {
    RunFrames(video, cfg, a);
    var fps := SourceFps(video.reportedFps);
    RecordForEverySampledFrame(video.frames, Stride(fps, cfg.sampleFps), fps,
                               Detect(EffectivePrompts(cfg.prompts)), a.frames, j);
  }
}
