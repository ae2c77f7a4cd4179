/** extract_frames (main.py lines 26-43): read the video frame by frame and
    save every `fps * interval`-th one as `frames/frame_{k // (fps * interval)}.jpg`.
    The video is the sequence of frames `vidcap.read()` returns before it
    reports failure; the frames themselves are opaque. */
module Sampling {
  import opened Outcomes
  import opened FrameNames

  /** One `cv2.imwrite(f"frames/{name}", image)` call. */
  datatype Write<Image> = Write(name: string, image: Image)

  /** A positive multiple of `step` is at least `step`. */
  lemma MulAtLeast(d: nat, step: nat)
    requires d >= 1
    ensures d * step >= step
  {
  }

  /** Euclidean quotient and remainder are determined by `a == q * step + r`, `0 <= r < step`. */
  lemma DivModUnique(a: int, step: int, q: int, r: int)
    requires step > 0 && 0 <= r < step && a == q * step + r
    ensures a / step == q && a % step == r
  {
    var q', r' := a / step, a % step;
    assert a == q' * step + r';
    if q' < q {
      assert (q - q') * step == r' - r;
      MulAtLeast(q - q', step);
    } else if q < q' {
      assert (q' - q) * step == r - r';
      MulAtLeast(q' - q, step);
    }
  }

  /** While `w` frames are saved and the counter is `count`, the next frame to
      save is frame `w * step`. */
  lemma NextKept(count: nat, step: nat, w: nat)
    requires step > 0 && (w - 1) * step < count <= w * step
    ensures count % step == 0 <==> count == w * step
    ensures count == w * step ==> count / step == w
  {
    if count == w * step {
      DivModUnique(count, step, w, 0);
    } else {
      DivModUnique(count, step, w - 1, count - (w - 1) * step);
    }
  }

  /** Once the counter has reached `n` with `w` frames saved, `w` is `ceil(n / step)`. */
  lemma SavedCount(n: nat, step: nat, w: nat)
    requires step > 0 && (w - 1) * step < n <= w * step
    ensures w == (n + step - 1) / step
  {
    DivModUnique(n + step - 1, step, w, n + step - 1 - w * step);
  }

  /** A frame index divisible by the step lies below `w * step` only if its quotient lies below `w`. */
  lemma KeptIndexBelow(k: nat, step: nat, w: nat)
    requires step > 0 && k < w * step && k % step == 0
    ensures k / step < w && (k / step) * step == k
  {
  }

  /** The frame loop of extract_frames. `fps * interval == 0` raises
      ZeroDivisionError at the first frame read, before anything is written;
      with an unreadable video the modulo is never evaluated and nothing
      happens. Otherwise frame `k` is saved exactly when `k % step == 0`, as
      `frame_{k / step}.jpg`, so the saved names are `frame_0.jpg`,
      `frame_1.jpg`, … without gaps and their number is `ceil(N / step)`. */
  method ExtractFrames<Image>(video: seq<Image>, fps: nat, interval: nat)
    returns (r: Result<seq<Write<Image>>, PyError>)
    ensures r.Failure? <==> fps * interval == 0 && |video| > 0
    ensures r.Failure? ==> r.error == ZeroDivisionError
    ensures r.Success? && |video| == 0 ==> r.value == []
    ensures r.Success? && |video| > 0 ==>
      |r.value| == (|video| + fps * interval - 1) / (fps * interval)
    ensures r.Success? ==> forall j :: 0 <= j < |r.value| ==>
      j * (fps * interval) < |video| &&
      r.value[j] == Write(FrameName(j), video[j * (fps * interval)])
    ensures r.Success? ==> forall k :: 0 <= k < |video| && fps * interval > 0 && k % (fps * interval) == 0 ==>
      k / (fps * interval) < |r.value| &&
      r.value[k / (fps * interval)] == Write(FrameName(k / (fps * interval)), video[k])
  {
    var step := fps * interval;
    var frameCount := 0;
    var success := frameCount < |video|;  // the first vidcap.read()
    var writes: seq<Write<Image>> := [];
    while success
      invariant frameCount <= |video|
      invariant success <==> frameCount < |video|
      invariant step == 0 ==> frameCount == 0 && writes == []
      invariant step > 0 ==> (|writes| - 1) * step < frameCount <= |writes| * step
      invariant forall j :: 0 <= j < |writes| ==>
        j * step < frameCount && writes[j] == Write(FrameName(j), video[j * step])
      decreases |video| - frameCount
    {
      if step == 0 {
        return Failure(ZeroDivisionError);
      }
      NextKept(frameCount, step, |writes|);
      if frameCount % step == 0 {
        writes := writes + [Write(FrameName(frameCount / step), video[frameCount])];
      }
      success := frameCount + 1 < |video|;  // vidcap.read()
      frameCount := frameCount + 1;
    }
    if step > 0 {
      if |video| > 0 {
        SavedCount(|video|, step, |writes|);
      }
      forall k | 0 <= k < |video| && k % step == 0
        ensures k / step < |writes| && writes[k / step] == Write(FrameName(k / step), video[k])
      {
        KeptIndexBelow(k, step, |writes|);
      }
    }
    r := Success(writes);
  }
}
