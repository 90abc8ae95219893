/**
 * What the two detection scripts share: the decoded video as an input, the frame
 * records they accumulate, the artifact they write, and the sampling loop stated as
 * a specification that both scripts' loops are proved against. The detector enters
 * as a function from a frame to its normalised detections (or the error it raised).
 */
module Pipeline {
  import opened Wrappers
  import opened Numeric
  import opened Detections
  import opened Sampler

  /** The errors a run can end with instead of an artifact. */
  datatype Failure =
    | VideoUnavailable                    // the capture could not be opened
    | ZeroSampleRate                      // `video_fps / sample_fps` divided by zero
    | PromptIndexOutOfRange(index: int)   // `prompts[label_idx]` raised IndexError

  /**
   * The capture: either it could not be opened, or it reports a frame rate and
   * decodes a finite sequence of frames, each carrying what the detector saw in it.
   */
  datatype Video<F> = Unavailable | Opened(reportedFps: real, frames: seq<F>)

  /** One entry of the artifact's `frames` list. */
  datatype FrameRecord = FrameRecord(time: real, frameIndex: nat, boxes: seq<Detection>)

  /** The backend-specific metadata of the artifact. */
  datatype DetectorParams =
    | ClosedVocabParams(conf: real, imgsz: int)
    | OpenVocabParams(scoreThreshold: real, prompts: seq<string>)

  /** The document each run writes, once, at the end of the stream. */
  datatype Artifact = Artifact(
    source: string,
    sampleFps: real,
    videoFps: real,
    model: string,
    params: DetectorParams,
    frames: seq<FrameRecord>)

  /** The clip both scripts read, relative to the repository root. */
  const VideoSource: string := "public/Kill_Bill_Vol1_Part2_30FPS_1428s-1432s.mp4"

  /** `round(frame_idx / video_fps, 3)`: within half a millisecond of the exact time. */
  function FrameTime(frameIndex: nat, fps: real): (t: real)
    requires fps != 0.0
    ensures frameIndex as real / fps - 0.0005 <= t <= frameIndex as real / fps + 0.0005
  {
    RoundDecimals(frameIndex as real / fps, 1000)
  }

  /** Records already produced, followed by those of the rest of the run (or its error). */
  function Prepend(done: seq<FrameRecord>, rest: Result<seq<FrameRecord>, Failure>): Result<seq<FrameRecord>, Failure>
  {
    match rest
    case Ok(later) => Ok(done + later)
    case Err(e) => Err(e)
  }

  lemma PrependNothing(rest: Result<seq<FrameRecord>, Failure>)
    ensures Prepend([], rest) == rest
  {
    if rest.Ok? {
      assert [] + rest.value == rest.value;
    }
  }

  /**
   * The sampling loop from absolute index `from` on: each frame that passes the
   * stride test goes to `detect`, and its detections become one record; the first
   * detector error ends the run.
   */
  function SampleFrom<F>(frames: seq<F>, stride: nat, fps: real,
                         detect: F -> Result<seq<Detection>, Failure>, from: nat): Result<seq<FrameRecord>, Failure>
    requires stride >= 1 && fps != 0.0
    decreases |frames| - from
  {
    if from >= |frames| then Ok([])
    else if !IsSampled(from, stride) then SampleFrom(frames, stride, fps, detect, from + 1)
    else match detect(frames[from])
      case Err(e) => Err(e)
      case Ok(boxes) => Prepend([FrameRecord(FrameTime(from, fps), from, boxes)],
                                SampleFrom(frames, stride, fps, detect, from + 1))
  }

  /** One pass of the loop over a frame the stride test skips. */
  lemma SampleFromSkip<F>(frames: seq<F>, stride: nat, fps: real,
                          detect: F -> Result<seq<Detection>, Failure>, from: nat)
    requires stride >= 1 && fps != 0.0
    requires from < |frames| && !IsSampled(from, stride)
    ensures SampleFrom(frames, stride, fps, detect, from) == SampleFrom(frames, stride, fps, detect, from + 1)
  {
  }

  /** One pass of the loop over a sampled frame the detector handles. */
  lemma SampleFromTake<F>(frames: seq<F>, stride: nat, fps: real,
                          detect: F -> Result<seq<Detection>, Failure>, from: nat,
                          done: seq<FrameRecord>, boxes: seq<Detection>)
    requires stride >= 1 && fps != 0.0
    requires from < |frames| && IsSampled(from, stride) && detect(frames[from]) == Ok(boxes)
    ensures Prepend(done, SampleFrom(frames, stride, fps, detect, from))
         == Prepend(done + [FrameRecord(FrameTime(from, fps), from, boxes)],
                    SampleFrom(frames, stride, fps, detect, from + 1))
  {
    var rest := SampleFrom(frames, stride, fps, detect, from + 1);
    if rest.Ok? {
      assert done + ([FrameRecord(FrameTime(from, fps), from, boxes)] + rest.value)
          == (done + [FrameRecord(FrameTime(from, fps), from, boxes)]) + rest.value;
    }
  }

  /** The `frame_index` values of a list of records, in order. */
  function FrameIndices(records: seq<FrameRecord>): seq<nat>
  {
    if records == [] then [] else [records[0].frameIndex] + FrameIndices(records[1..])
  }

  /**
   * A successful run holds one record per sampled frame, in decoding order, at the
   * frame's absolute index: the record carries exactly what the detector gave for
   * that frame and the frame's time.
   */
  lemma {:induction false} SampleFromRecords<F>(frames: seq<F>, stride: nat, fps: real,
                                                detect: F -> Result<seq<Detection>, Failure>, from: nat,
                                                records: seq<FrameRecord>)
    requires stride >= 1 && fps != 0.0
    requires SampleFrom(frames, stride, fps, detect, from) == Ok(records)
    ensures FrameIndices(records) == SampledIndices(from, |frames|, stride)
    ensures forall k :: 0 <= k < |records| ==>
      && records[k].frameIndex < |frames|
      && detect(frames[records[k].frameIndex]) == Ok(records[k].boxes)
      && records[k].time == FrameTime(records[k].frameIndex, fps)
    decreases |frames| - from
  {
    if from < |frames| {
      if !IsSampled(from, stride) {
        SampleFromRecords(frames, stride, fps, detect, from + 1, records);
      } else {
        var rest := records[1..];
        assert records == [FrameRecord(FrameTime(from, fps), from, records[0].boxes)] + rest;
        SampleFromRecords(frames, stride, fps, detect, from + 1, rest);
        forall k | 0 <= k < |records|
          ensures && records[k].frameIndex < |frames|
                  && detect(frames[records[k].frameIndex]) == Ok(records[k].boxes)
                  && records[k].time == FrameTime(records[k].frameIndex, fps)
        {
          if k > 0 {
            assert records[k] == rest[k - 1];
          }
        }
      }
    }
  }

  /**
   * A run fails exactly when the detector fails on some sampled frame, and then with
   * the error of the first such frame.
   */
  lemma {:induction false} SampleFromFailure<F>(frames: seq<F>, stride: nat, fps: real,
                                                detect: F -> Result<seq<Detection>, Failure>, from: nat)
    requires stride >= 1 && fps != 0.0
    ensures SampleFrom(frames, stride, fps, detect, from).Err? <==>
      exists j :: from <= j < |frames| && IsSampled(j, stride) && detect(frames[j]).Err?
    ensures SampleFrom(frames, stride, fps, detect, from).Err? ==>
      exists j :: && from <= j < |frames| && IsSampled(j, stride)
                  && detect(frames[j]) == Err(SampleFrom(frames, stride, fps, detect, from).error)
                  && forall i :: from <= i < j && IsSampled(i, stride) ==> detect(frames[i]).Ok?
    decreases |frames| - from
  {
    if from < |frames| {
      SampleFromFailure(frames, stride, fps, detect, from + 1);
      var r := SampleFrom(frames, stride, fps, detect, from);
      if IsSampled(from, stride) && detect(frames[from]).Err? {
        assert detect(frames[from]) == Err(r.error);
      }
    }
  }

  /** Every sampled frame has its record, even when the detector found nothing in it. */
  lemma RecordForEverySampledFrame<F>(frames: seq<F>, stride: nat, fps: real,
                                      detect: F -> Result<seq<Detection>, Failure>,
                                      records: seq<FrameRecord>, j: nat)
    requires stride >= 1 && fps != 0.0
    requires SampleFrom(frames, stride, fps, detect, 0) == Ok(records)
    requires j < |frames| && IsSampled(j, stride)
    ensures exists k :: 0 <= k < |records| && records[k].frameIndex == j && detect(frames[j]) == Ok(records[k].boxes)
  {
    SampleFromRecords(frames, stride, fps, detect, 0, records);
    SampledIndicesExact(0, |frames|, stride);
    var k := FrameIndexPosition(records, j);
  }

  /** Where in a list of records a given `frame_index` occurs. */
  lemma {:induction false} FrameIndexPosition(records: seq<FrameRecord>, j: nat) returns (k: nat)
    requires j in FrameIndices(records)
    ensures k < |records| && records[k].frameIndex == j
  {
    if records[0].frameIndex == j {
      k := 0;
    } else {
      k := FrameIndexPosition(records[1..], j);
      k := k + 1;
    }
  }
}
