/**
 * The closed-vocabulary detection pass (YOLOv8n): class ids are resolved through the
 * result's `names`, boxes whose label is outside a non-empty allow-list are dropped,
 * and the confidence may be absent.
 */
module ClosedVocab {
  import opened Wrappers
  import opened Numeric
  import opened Detections
  import opened Sampler
  import opened Pipeline

  const ModelName: string := "yolov8n.pt"

  /** `ALLOWED_CLASSES`. */
  const AllowedClasses: set<string> := {"person"}

  /** A result's `names`: a dictionary from class id to class name, or anything else. */
  datatype Names = NameMap(classes: map<int, string>) | NotAMap

  /** One entry of `r.boxes`: its `xyxy` corners, and `cls` and `conf` when present. */
  datatype RawBox = RawBox(xyxy: Box, cls: Option<real>, conf: Option<real>)

  /** One entry of the list `model.predict` returns; `boxes` may be `None`. */
  datatype RawResult = RawResult(names: Names, boxes: Option<seq<RawBox>>)

  /** A decoded frame: its size and what the detector returned for it. */
  datatype Frame = Frame(w: Dim, h: Dim, results: seq<RawResult>)

  /** The run's parameters; `conf` and `imgsz` go to the detector and into the metadata. */
  datatype Config = Config(sampleFps: real, conf: real, imgsz: int, allowed: set<string>)

  const DefaultConfig: Config := Config(3.0, 0.4, 960, AllowedClasses)

  /** `int(b.cls[0].item())`, or -1 when the box has no class. */
  function ClassId(cls: Option<real>): int
  {
    match cls
    case None => -1
    case Some(c) => Trunc(c)
  }

  /**
   * `names.get(cls_id, f"class-{cls_id}")` when `names` is a dictionary, otherwise
   * `str(cls_id)`.
   */
  function LabelName(names: Names, id: int): string
  {
    match names
    case NameMap(classes) => if id in classes then classes[id] else "class-" + IntToString(id)
    case NotAMap => IntToString(id)
  }

  /** A known id is labelled with its name; an unknown one with `class-` and its decimal rendering. */
  lemma NameMapLabel(classes: map<int, string>, id: int)
    ensures id in classes ==> LabelName(NameMap(classes), id) == classes[id]
    ensures id !in classes ==>
      var s := LabelName(NameMap(classes), id);
      |s| > 6 && s[..6] == "class-" && s[6..] == IntToString(id)
  {
    if id !in classes {
      IntToStringSign(id);
    }
  }

  /** The allow-list test: an empty allow-list lets every label through. */
  predicate Passes(labelName: string, allowed: set<string>)
  {
    allowed == {} || labelName in allowed
  }

  function BoxLabel(b: RawBox, names: Names): string
  {
    LabelName(names, ClassId(b.cls))
  }

  function NormalizeRaw(b: RawBox, names: Names, w: Dim, h: Dim): Detection
  {
    NormalizeBox(BoxLabel(b, names), b.conf, b.xyxy, w, h)
  }

  /** The `boxes` list after the inner loop has seen the first `n` raw boxes. */
  function Kept(raw: seq<RawBox>, names: Names, allowed: set<string>, w: Dim, h: Dim, n: nat): seq<Detection>
    requires n <= |raw|
  {
    if n == 0 then []
    else
      var before := Kept(raw, names, allowed, w, h, n - 1);
      if Passes(BoxLabel(raw[n - 1], names), allowed) then before + [NormalizeRaw(raw[n - 1], names, w, h)]
      else before
  }

  /** What one sampled frame contributes: nothing unless there is a first result with boxes. */
  function FrameDetections(f: Frame, allowed: set<string>): seq<Detection>
  {
    if |f.results| > 0 && f.results[0].boxes.Some? then
      var r := f.results[0];
      Kept(r.boxes.value, r.names, allowed, f.w, f.h, |r.boxes.value|)
    else []
  }

  /** The per-frame step of the sampling loop; this backend never raises. */
  function Detect(allowed: set<string>): Frame -> Result<seq<Detection>, Failure>
  {
    f => Ok(FrameDetections(f, allowed))
  }

  /** The inner `for b in r.boxes` loop of one sampled frame. */
  method NormalizeFrame(f: Frame, allowed: set<string>) returns (boxes: seq<Detection>)
    ensures boxes == FrameDetections(f, allowed)
  {
    boxes := [];
    if |f.results| > 0 {
      var r := f.results[0];
      var names := r.names;
      if r.boxes.Some? {
        var raw := r.boxes.value;
        for i := 0 to |raw|
          invariant boxes == Kept(raw, names, allowed, f.w, f.h, i)
        {
          var b := raw[i];
          var labelName := LabelName(names, ClassId(b.cls));
          if !(allowed == {} || labelName in allowed) {
            continue;
          }
          boxes := boxes + [NormalizeBox(labelName, b.conf, b.xyxy, f.w, f.h)];
        }
      }
    }
  }

  /** The whole run as a value: the artifact, or the error the script raises. */
  function Run(video: Video<Frame>, cfg: Config): Result<Artifact, Failure>
  {
    if video.Unavailable? then Err(VideoUnavailable)
    else
      var fps := SourceFps(video.reportedFps);
      if cfg.sampleFps == 0.0 then Err(ZeroSampleRate)
      else
        match SampleFrom(video.frames, Stride(fps, cfg.sampleFps), fps, Detect(cfg.allowed), 0)
        case Err(e) => Err(e)
        case Ok(records) =>
          Ok(Artifact(VideoSource, cfg.sampleFps, fps, ModelName, ClosedVocabParams(cfg.conf, cfg.imgsz), records))
  }

  /** `run_detection`: the fps fallback, the stride, and then the sampling loop. */
  method RunDetection(video: Video<Frame>, cfg: Config) returns (r: Result<Artifact, Failure>)
    ensures r == Run(video, cfg)
  {
    if video.Unavailable? {
      return Err(VideoUnavailable);
    }
    var videoFps := SourceFps(video.reportedFps);
    if cfg.sampleFps == 0.0 {
      return Err(ZeroSampleRate);
    }
    var stride := Stride(videoFps, cfg.sampleFps);
    var frames := SampleFrames(video.frames, stride, videoFps, cfg.allowed);
    r := Ok(Artifact(VideoSource, cfg.sampleFps, videoFps, ModelName, ClosedVocabParams(cfg.conf, cfg.imgsz), frames));
  }

  /**
   * The `while True` loop: `frame_idx` advances once per decoded frame, and a record
   * is appended for each frame that passes the stride test.
   */
  method SampleFrames(decoded: seq<Frame>, stride: nat, videoFps: real, allowed: set<string>)
    returns (frames: seq<FrameRecord>)
    requires stride >= 1 && videoFps != 0.0
    ensures Ok(frames) == SampleFrom(decoded, stride, videoFps, Detect(allowed), 0)
  {
    frames := [];
    var frameIdx: nat := 0;
    PrependNothing(SampleFrom(decoded, stride, videoFps, Detect(allowed), 0));
    while frameIdx < |decoded|
      invariant frameIdx <= |decoded|
      invariant SampleFrom(decoded, stride, videoFps, Detect(allowed), 0)
             == Prepend(frames, SampleFrom(decoded, stride, videoFps, Detect(allowed), frameIdx))
      decreases |decoded| - frameIdx
    {
      if frameIdx % stride != 0 {
        SampleFromSkip(decoded, stride, videoFps, Detect(allowed), frameIdx);
        frameIdx := frameIdx + 1;
        continue;
      }
      var boxes := NormalizeFrame(decoded[frameIdx], allowed);
      SampleFromTake(decoded, stride, videoFps, Detect(allowed), frameIdx, frames, boxes);
      frames := frames + [FrameRecord(FrameTime(frameIdx, videoFps), frameIdx, boxes)];
      frameIdx := frameIdx + 1;
    }
    assert frames + [] == frames;
  }

  /** With a non-empty allow-list, no kept box carries a label outside it. */
  lemma {:induction false} KeptRespectsAllowList(raw: seq<RawBox>, names: Names, allowed: set<string>,
                                                 w: Dim, h: Dim, n: nat)
    requires n <= |raw| && allowed != {}
    ensures forall d :: d in Kept(raw, names, allowed, w, h, n) ==> d.labelName in allowed
  {
    if n > 0 {
      KeptRespectsAllowList(raw, names, allowed, w, h, n - 1);
    }
  }

  /** With an empty allow-list every box is kept, in order. */
  lemma KeptAllWithoutAllowList(raw: seq<RawBox>, names: Names, w: Dim, h: Dim, n: nat)
    requires n <= |raw|
    ensures |Kept(raw, names, {}, w, h, n)| == n
    ensures forall k :: 0 <= k < n ==> Kept(raw, names, {}, w, h, n)[k] == NormalizeRaw(raw[k], names, w, h)
  {
    KeptIsFilteredInOrder(raw, names, {}, w, h, n);
    PassingBoxesWithoutAllowList(raw[..n], names);
  }

  /** An empty allow-list filters nothing out. */
  lemma {:induction false} PassingBoxesWithoutAllowList(raw: seq<RawBox>, names: Names)
    ensures PassingBoxes(raw, names, {}) == raw
  {
    if raw != [] {
      PassingBoxesWithoutAllowList(raw[1..], names);
      assert raw == [raw[0]] + raw[1..];
    }
  }

  /** Filtering drops nothing that passes: every passing box is kept, normalised as without a filter. */
  lemma {:induction false} KeptIncludesPassing(raw: seq<RawBox>, names: Names, allowed: set<string>,
                                               w: Dim, h: Dim, n: nat)
    requires n <= |raw|
    ensures forall k :: 0 <= k < n && Passes(BoxLabel(raw[k], names), allowed) ==>
      NormalizeRaw(raw[k], names, w, h) in Kept(raw, names, allowed, w, h, n)
  {
    if n > 0 {
      KeptIncludesPassing(raw, names, allowed, w, h, n - 1);
      var before := Kept(raw, names, allowed, w, h, n - 1);
      var b := raw[n - 1];
      if Passes(BoxLabel(b, names), allowed) {
        assert Kept(raw, names, allowed, w, h, n) == before + [NormalizeRaw(b, names, w, h)];
      } else {
        assert Kept(raw, names, allowed, w, h, n) == before;
      }
    }
  }

  /** Filtering adds nothing: every kept box is the normalisation of a passing raw box. */
  lemma {:induction false} KeptOnlyPassing(raw: seq<RawBox>, names: Names, allowed: set<string>,
                                           w: Dim, h: Dim, n: nat)
    requires n <= |raw|
    ensures forall d :: d in Kept(raw, names, allowed, w, h, n) ==>
      exists k :: 0 <= k < n && Passes(BoxLabel(raw[k], names), allowed) && d == NormalizeRaw(raw[k], names, w, h)
  {
    if n > 0 {
      KeptOnlyPassing(raw, names, allowed, w, h, n - 1);
      var before := Kept(raw, names, allowed, w, h, n - 1);
      var b := raw[n - 1];
      if Passes(BoxLabel(b, names), allowed) {
        assert Kept(raw, names, allowed, w, h, n) == before + [NormalizeRaw(b, names, w, h)];
      } else {
        assert Kept(raw, names, allowed, w, h, n) == before;
      }
    }
  }

  /** Reference definition of the filter: the raw boxes whose label passes, in order. */
  function PassingBoxes(raw: seq<RawBox>, names: Names, allowed: set<string>): seq<RawBox>
  {
    if raw == [] then []
    else (if Passes(BoxLabel(raw[0], names), allowed) then [raw[0]] else [])
         + PassingBoxes(raw[1..], names, allowed)
  }

  lemma {:induction false} PassingBoxesAppend(raw: seq<RawBox>, b: RawBox, names: Names, allowed: set<string>)
    ensures PassingBoxes(raw + [b], names, allowed)
         == PassingBoxes(raw, names, allowed) + (if Passes(BoxLabel(b, names), allowed) then [b] else [])
  {
    var last := if Passes(BoxLabel(b, names), allowed) then [b] else [];
    if raw == [] {
      assert PassingBoxes([b], names, allowed) == last + PassingBoxes([], names, allowed);
    } else {
      var head := if Passes(BoxLabel(raw[0], names), allowed) then [raw[0]] else [];
      var whole := raw + [b];
      assert whole[0] == raw[0];
      assert whole[1..] == raw[1..] + [b];
      PassingBoxesAppend(raw[1..], b, names, allowed);
      assert PassingBoxes(whole, names, allowed) == head + (PassingBoxes(raw[1..], names, allowed) + last);
      assert PassingBoxes(raw, names, allowed) == head + PassingBoxes(raw[1..], names, allowed);
    }
  }

  function NormalizeAll(bs: seq<RawBox>, names: Names, w: Dim, h: Dim): seq<Detection>
  {
    seq(|bs|, k requires 0 <= k < |bs| => NormalizeRaw(bs[k], names, w, h))
  }

  /**
   * The inner loop is the filter followed by normalisation: its boxes are the
   * passing raw boxes, in their original order, each normalised exactly as it would
   * be without any allow-list.
   */
  lemma {:induction false} KeptIsFilteredInOrder(raw: seq<RawBox>, names: Names, allowed: set<string>,
                                                 w: Dim, h: Dim, n: nat)
    requires n <= |raw|
    ensures Kept(raw, names, allowed, w, h, n) == NormalizeAll(PassingBoxes(raw[..n], names, allowed), names, w, h)
  {
    if n == 0 {
      assert raw[..0] == [];
    } else {
      KeptIsFilteredInOrder(raw, names, allowed, w, h, n - 1);
      var b := raw[n - 1];
      var before := PassingBoxes(raw[..n - 1], names, allowed);
      assert raw[..n] == raw[..n - 1] + [b];
      PassingBoxesAppend(raw[..n - 1], b, names, allowed);
      if Passes(BoxLabel(b, names), allowed) {
        NormalizeAllAppend(before, b, names, w, h);
      } else {
        assert before + [] == before;
      }
    }
  }

  lemma NormalizeAllAppend(bs: seq<RawBox>, b: RawBox, names: Names, w: Dim, h: Dim)
    ensures NormalizeAll(bs + [b], names, w, h) == NormalizeAll(bs, names, w, h) + [NormalizeRaw(b, names, w, h)]
  {
  }

  /** A box without a class gets id -1, hence the label `class--1` (or `-1` without a name map). */
  lemma MissingClassLabel(classes: map<int, string>)
    requires -1 !in classes
    ensures ClassId(None) == -1
    ensures LabelName(NameMap(classes), ClassId(None)) == "class--1"
    ensures LabelName(NotAMap, ClassId(None)) == "-1"
  {
  }

  /** Unknown class ids keep distinct labels: `class-<id>` determines the id. */
  lemma UnknownClassLabelsDistinct(classes: map<int, string>, i: int, j: int)
    requires i !in classes && j !in classes && i != j
    ensures LabelName(NameMap(classes), i) != LabelName(NameMap(classes), j)
    ensures LabelName(NotAMap, i) != LabelName(NotAMap, j)
  {
    var prefix := "class-";
    if LabelName(NameMap(classes), i) == LabelName(NameMap(classes), j) {
      assert IntToString(i) == (prefix + IntToString(i))[|prefix|..];
      assert IntToString(j) == (prefix + IntToString(j))[|prefix|..];
      IntToStringInjective(i, j);
    }
    if LabelName(NotAMap, i) == LabelName(NotAMap, j) {
      IntToStringInjective(i, j);
    }
  }

  /** This backend only fails before sampling: the video cannot be opened, or the sample rate is 0. */
  lemma RunFailure(video: Video<Frame>, cfg: Config)
    ensures Run(video, cfg).Err? <==> video.Unavailable? || cfg.sampleFps == 0.0
  {
    if video.Opened? && cfg.sampleFps != 0.0 {
      var fps := SourceFps(video.reportedFps);
      SampleFromFailure(video.frames, Stride(fps, cfg.sampleFps), fps, Detect(cfg.allowed), 0);
    }
  }

  /**
   * A successful run records the measured rate and one frame per sampled index, in
   * ascending order of absolute index, each with that frame's filtered detections.
   */
  lemma RunFrames(video: Video<Frame>, cfg: Config, a: Artifact)
    requires Run(video, cfg) == Ok(a)
    ensures video.Opened? && cfg.sampleFps != 0.0
    ensures a.videoFps == SourceFps(video.reportedFps) && a.sampleFps == cfg.sampleFps
    ensures a.source == VideoSource && a.model == ModelName
    ensures a.params == ClosedVocabParams(cfg.conf, cfg.imgsz)
    ensures FrameIndices(a.frames) == SampledIndices(0, |video.frames|, Stride(a.videoFps, cfg.sampleFps))
    ensures StrictlyAscending(FrameIndices(a.frames))
    ensures forall k :: 0 <= k < |a.frames| ==>
      && a.frames[k].frameIndex < |video.frames|
      && a.frames[k].boxes == FrameDetections(video.frames[a.frames[k].frameIndex], cfg.allowed)
      && a.frames[k].time == FrameTime(a.frames[k].frameIndex, a.videoFps)
  {
    var fps := SourceFps(video.reportedFps);
    var stride := Stride(fps, cfg.sampleFps);
    SampleFromRecords(video.frames, stride, fps, Detect(cfg.allowed), 0, a.frames);
    SampledIndicesAscending(0, |video.frames|, stride);
  }

  /** With a non-empty allow-list, such as `{"person"}`, no recorded box has another label. */
  lemma RunRespectsAllowList(video: Video<Frame>, cfg: Config, a: Artifact)
    requires Run(video, cfg) == Ok(a) && cfg.allowed != {}
    ensures forall k, d :: 0 <= k < |a.frames| && d in a.frames[k].boxes ==> d.labelName in cfg.allowed
  {
    RunFrames(video, cfg, a);
    forall k, d | 0 <= k < |a.frames| && d in a.frames[k].boxes
      ensures d.labelName in cfg.allowed
    {
      var f := video.frames[a.frames[k].frameIndex];
      if |f.results| > 0 && f.results[0].boxes.Some? {
        var r := f.results[0];
        KeptRespectsAllowList(r.boxes.value, r.names, cfg.allowed, f.w, f.h, |r.boxes.value|);
      }
    }
  }

  /**
   * A sampled frame with no result, or whose result has no boxes, still has its
   * record, with an empty `boxes` list.
   */
  lemma EmptyFrameStillRecorded(video: Video<Frame>, cfg: Config, a: Artifact, j: nat)
    requires Run(video, cfg) == Ok(a)
    requires video.Opened? && j < |video.frames|
    requires IsSampled(j, Stride(a.videoFps, cfg.sampleFps))
    requires |video.frames[j].results| == 0 || video.frames[j].results[0].boxes.None?
    ensures exists k :: 0 <= k < |a.frames| && a.frames[k].frameIndex == j && a.frames[k].boxes == []
  {
    RunFrames(video, cfg, a);
    var fps := SourceFps(video.reportedFps);
    RecordForEverySampledFrame(video.frames, Stride(fps, cfg.sampleFps), fps, Detect(cfg.allowed), a.frames, j);
  }

  /**
   * The default run over a 100-frame clip reported at 30 fps samples at 3 fps: ten
   * records, at frames 0, 10, ..., 90.
   */
  lemma DefaultRunOnHundredFrames(video: Video<Frame>)
    requires video.Opened? && video.reportedFps == 30.0 && |video.frames| == 100
    ensures Run(video, DefaultConfig).Ok?
    ensures FrameIndices(Run(video, DefaultConfig).value.frames) == [0, 10, 20, 30, 40, 50, 60, 70, 80, 90]
  {
    RunFailure(video, DefaultConfig);
    StrideExample();
    RunFrames(video, DefaultConfig, Run(video, DefaultConfig).value);
    SampledIndicesExample();
  }
}
