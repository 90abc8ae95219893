/**
 * The frame sampler: the source frame rate with its fallback, the stride, and the
 * set of absolute frame indices a run processes.
 */
module Sampler {
  import opened Numeric

  /** The rate used when the capture reports 0 frames per second. */
  const FallbackFps: real := 30.0

  /**
   * `cap.get(CAP_PROP_FPS) or 30.0`: a reported rate of 0 is falsy and replaced by
   * the fallback, so the rate every later division uses is never 0.
   */
  function SourceFps(reported: real): (fps: real)
    ensures fps != 0.0
    ensures reported != 0.0 ==> fps == reported
    ensures reported == 0.0 ==> fps == FallbackFps
  {
    if reported == 0.0 then FallbackFps else reported
  }

  /**
   * `max(1, int(round(video_fps / sample_fps)))`. The stride is at least 1. It is 1
   * when the rate ratio is at most 1/2 (a negative sample rate included) and when the
   * requested rate is at least the source rate. Above 1/2 it is the half-to-even
   * rounding of the ratio, so within half a frame of it.
   */
  function Stride(videoFps: real, sampleFps: real): (s: nat)
    requires sampleFps != 0.0
    ensures s >= 1
    ensures 0.0 < sampleFps && videoFps <= sampleFps ==> s == 1
    ensures videoFps / sampleFps >= 0.5 ==>
      videoFps / sampleFps - 0.5 <= s as real <= videoFps / sampleFps + 0.5
    ensures videoFps / sampleFps > 0.5 ==> s == RoundHalfEven(videoFps / sampleFps)
    ensures videoFps / sampleFps <= 0.5 ==> s == 1
  {
    RatioAtMostOne(videoFps, sampleFps);
    var r := RoundHalfEven(videoFps / sampleFps);
    if r < 1 then 1 else r
  }

  lemma RatioAtMostOne(v: real, s: real)
    requires s != 0.0
    ensures 0.0 < s && v <= s ==> v / s <= 1.0
  {
  }

  /**
   * A 30 fps source sampled at 3 fps keeps every tenth frame; ties in the ratio go to
   * the even stride, and a negative sample rate gives stride 1.
   */
  lemma StrideExample()
    ensures Stride(30.0, 3.0) == 10
    ensures Stride(30.0, 2.0) == 15
    ensures Stride(30.0, 60.0) == 1
    ensures Stride(25.0, 10.0) == 2 && Stride(30.0, 4.0) == 8
    ensures Stride(30.0, -3.0) == 1
  {
  }

  /** `frame_idx % stride == 0`: the test that lets a decoded frame through to the detector. */
  predicate IsSampled(frameIndex: nat, stride: nat)
    requires stride >= 1
  {
    frameIndex % stride == 0
  }

  /** The indices in `[from, n)` that pass the sampling test, in the order they are decoded. */
  function SampledIndices(from: nat, n: nat, stride: nat): seq<nat>
    requires stride >= 1
    decreases n - from
  {
    if from >= n then []
    else if IsSampled(from, stride) then [from] + SampledIndices(from + 1, n, stride)
    else SampledIndices(from + 1, n, stride)
  }

  /** The sampled indices are exactly the multiples of the stride in `[from, n)`. */
  lemma {:induction false} SampledIndicesExact(from: nat, n: nat, stride: nat)
    requires stride >= 1
    ensures forall j :: j in SampledIndices(from, n, stride) <==> from <= j < n && IsSampled(j, stride)
    decreases n - from
  {
    if from < n {
      SampledIndicesExact(from + 1, n, stride);
    }
  }

  predicate StrictlyAscending(xs: seq<nat>)
  {
    forall a, b :: 0 <= a < b < |xs| ==> xs[a] < xs[b]
  }

  /** The sampled indices are strictly ascending. */
  lemma {:induction false} SampledIndicesAscending(from: nat, n: nat, stride: nat)
    requires stride >= 1
    ensures StrictlyAscending(SampledIndices(from, n, stride))
    decreases n - from
  {
    if from < n {
      SampledIndicesAscending(from + 1, n, stride);
      SampledIndicesExact(from + 1, n, stride);
      var xs, rest := SampledIndices(from, n, stride), SampledIndices(from + 1, n, stride);
      if IsSampled(from, stride) {
        assert xs == [from] + rest;
        forall a, b | 0 <= a < b < |xs| ensures xs[a] < xs[b] {
          assert xs[b] == rest[b - 1] && rest[b - 1] in rest;
          assert from + 1 <= rest[b - 1];
          if a > 0 {
            assert xs[a] == rest[a - 1];
            assert rest[a - 1] < rest[b - 1];
          }
        }
      }
    }
  }

  /** Frames that fail the sampling test contribute nothing. */
  lemma {:induction false} SkipUnsampled(from: nat, until: nat, n: nat, stride: nat)
    requires stride >= 1 && from <= until
    requires forall j :: from <= j < until ==> !IsSampled(j, stride)
    ensures SampledIndices(from, n, stride) == SampledIndices(until, n, stride)
    decreases until - from
  {
    if from < until {
      SkipUnsampled(from + 1, until, n, stride);
    }
  }

  /** A 100-frame source at stride 10 is sampled at frames 0, 10, ..., 90. */
  lemma SampledIndicesExample()
    ensures SampledIndices(0, 100, 10) == [0, 10, 20, 30, 40, 50, 60, 70, 80, 90]
  {
    var k := 10;
    while k > 0
      invariant 0 <= k <= 10
      invariant SampledIndices(10 * k, 100, 10) == seq(10 - k, i => 10 * k + 10 * i)
    {
      k := k - 1;
      SkipUnsampled(10 * k + 1, 10 * k + 10, 100, 10);
      assert SampledIndices(10 * k, 100, 10) == [10 * k] + SampledIndices(10 * k + 10, 100, 10);
    }
  }
}
