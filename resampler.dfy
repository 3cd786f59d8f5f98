/**
 * The frame drop/duplicate procedure of `FFmpegConverter.convert`, as a function of the grabbed
 * frames. Frames without an image are recorded as they come. The `k`-th recorded image is
 * the grabbed image `round(k * step)`, so an image is recorded once for each `k` that maps to
 * it: several times when the target rate is higher (`step < 1`), not at all when it is skipped
 * (`step > 1`).
 *
 * Rates and `step` are exact reals here; `Math.round` is `floor(x + 1/2)`.
 */
module Resampling {
  import opened Sequences

  /** A grabbed frame: whether it carries an image (else audio or data), and what it holds. */
  datatype Frame = Frame(hasImage: bool, content: int)

  /** `Math.round(double)`. */
  function Round(x: real): int {
    (x + 0.5).Floor
  }

  /** The grabbed image index that the `recorded`-th recorded image copies. */
  function RequiredIndex(recorded: nat, step: real): int {
    Round(recorded as real * step)
  }

  /** `totalFrameNum / newFrameNum` as `convert` computes it. */
  function Step(sourceRate: real, lengthInSec: real, targetRate: real): real
    requires lengthInSec * targetRate != 0.0
  {
    (sourceRate * lengthInSec) / (lengthInSec * targetRate)
  }

  /** In exact arithmetic the step is the ratio of the source rate to the target rate. */
  lemma StepIsRateRatio(sourceRate: real, lengthInSec: real, targetRate: real)
    requires lengthInSec != 0.0 && targetRate != 0.0
    ensures lengthInSec * targetRate != 0.0
    ensures Step(sourceRate, lengthInSec, targetRate) == sourceRate / targetRate
  {
    var a, b := sourceRate * lengthInSec, lengthInSec * targetRate;
    assert (sourceRate / targetRate) * b == a;
  }

  /** No recorded count at or beyond this bound can still copy grabbed image `grabbed`. */
  function Bound(grabbed: nat, step: real): int
    requires step > 0.0
  {
    ((grabbed as real + 1.0) / step).Floor + 1
  }

  lemma BelowBound(recorded: nat, grabbed: nat, step: real)
    requires step > 0.0 && RequiredIndex(recorded, step) == grabbed
    ensures recorded < Bound(grabbed, step)
  {
    var x := (grabbed as real + 1.0) / step;
    assert x * step == grabbed as real + 1.0;
    assert recorded as real * step < x * step;
    assert (x - recorded as real) * step > 0.0;
  }

  /**
   * How many times the inner loop records the current image: the run of recorded counts,
   * starting at `recorded`, that all map to `grabbed`.
   */
  function Copies(recorded: nat, grabbed: nat, step: real): nat
    requires step > 0.0
    decreases Bound(grabbed, step) - recorded
  {
    if RequiredIndex(recorded, step) == grabbed then
      BelowBound(recorded, grabbed, step);
      1 + Copies(recorded + 1, grabbed, step)
    else 0
  }

  function Repeat(f: Frame, n: nat): (r: seq<Frame>)
    ensures |r| == n && forall i :: 0 <= i < n ==> r[i] == f
  {
    seq(n, _ => f)
  }

  /** The recorded frames and the two counters, `recordedFrameNumber` and `grabbedFrameIndex`. */
  datatype Cadence = Cadence(output: seq<Frame>, recorded: nat, grabbed: nat)

  /**
   * One pass of the loop of `convert`: a frame without an image is recorded once; an image is
   * recorded for each count of its run, and the grabbed counter moves past it.
   */
  function Advance(c: Cadence, f: Frame, step: real): Cadence
    requires step > 0.0
  {
    if !f.hasImage then Cadence(c.output + [f], c.recorded, c.grabbed)
    else
      var n := Copies(c.recorded, c.grabbed, step);
      Cadence(c.output + Repeat(f, n), c.recorded + n, c.grabbed + 1)
  }

  /** `Advance` only appends: what was recorded before the cadence's output stays in front of it. */
  lemma AdvanceAfter(before: seq<Frame>, c: Cadence, f: Frame, step: real)
    requires step > 0.0
    ensures var d := Advance(c, f, step);
      Advance(Cadence(before + c.output, c.recorded, c.grabbed), f, step) == Cadence(before + d.output, d.recorded, d.grabbed)
  {
    if f.hasImage {
      AppendAssociates(before, c.output, Repeat(f, Copies(c.recorded, c.grabbed, step)));
    } else {
      AppendAssociates(before, c.output, [f]);
    }
  }

  /** What `convert` records for the grabbed frames, in order, with the counters it ends with. */
  function Resample(frames: seq<Frame>, step: real): Cadence
    requires step > 0.0
    decreases |frames|
  {
    if frames == [] then Cadence([], 0, 0)
    else Advance(Resample(frames[..|frames| - 1], step), frames[|frames| - 1], step)
  }

  /** Resampling one more grabbed frame of a slice is one more `Advance`. */
  lemma ResampleSliceNext(frames: seq<Frame>, i: nat, j: nat, step: real)
    requires step > 0.0 && i <= j < |frames|
    ensures Resample(frames[i..j + 1], step) == Advance(Resample(frames[i..j], step), frames[j], step)
  {
    SliceNext(frames, i, j);
    AppendLast(frames[i..j], frames[j]);
  }

  /** No frame of `frames` carries an image. */
  predicate ImageFree(frames: seq<Frame>) {
    forall i :: 0 <= i < |frames| ==> !frames[i].hasImage
  }

  /** Without image frames the step is never consulted: every frame is recorded once, in order. */
  lemma {:induction false} ResampleImageFree(frames: seq<Frame>, step: real)
    requires step > 0.0 && ImageFree(frames)
    ensures Resample(frames, step) == Cadence(frames, 0, 0)
    decreases |frames|
  {
    if frames != [] {
      var prefix := frames[..|frames| - 1];
      assert ImageFree(prefix) by {
        forall i | 0 <= i < |prefix| ensures !prefix[i].hasImage {
          assert prefix[i] == frames[i];
        }
      }
      ResampleImageFree(prefix, step);
      assert prefix + [frames[|frames| - 1]] == frames;
    }
  }

  /** The frames of `s` that carry an image (`image == true`) or that do not, in order. */
  function Select(s: seq<Frame>, image: bool): seq<Frame>
    decreases |s|
  {
    if s == [] then []
    else Select(s[..|s| - 1], image) + (if s[|s| - 1].hasImage == image then [s[|s| - 1]] else [])
  }

  // ---------------------------------------------------------------------------
  // Arithmetic of the cadence
  // ---------------------------------------------------------------------------

  lemma RequiredIndexMonotone(j: nat, k: nat, step: real)
    requires step > 0.0 && j <= k
    ensures 0 <= RequiredIndex(j, step) <= RequiredIndex(k, step)
  {
    assert (k as real - j as real) * step >= 0.0;
  }

  /** Each recorded count of the run maps to `grabbed`, and the first count after it does not. */
  lemma {:induction false} CopiesRun(recorded: nat, grabbed: nat, step: real)
    requires step > 0.0
    ensures var n := Copies(recorded, grabbed, step);
      (forall j :: recorded <= j < recorded + n ==> RequiredIndex(j, step) == grabbed)
      && RequiredIndex(recorded + n, step) != grabbed
    decreases Bound(grabbed, step) - recorded
  {
    if RequiredIndex(recorded, step) == grabbed {
      BelowBound(recorded, grabbed, step);
      CopiesRun(recorded + 1, grabbed, step);
    }
  }

  /** Started at or past `grabbed`, the run ends past it. */
  lemma CopiesEndPast(recorded: nat, grabbed: nat, step: real)
    requires step > 0.0 && RequiredIndex(recorded, step) >= grabbed
    ensures RequiredIndex(recorded + Copies(recorded, grabbed, step), step) > grabbed
  {
    CopiesRun(recorded, grabbed, step);
    RequiredIndexMonotone(recorded, recorded + Copies(recorded, grabbed, step), step);
  }

  lemma {:induction false} SelectAppend(a: seq<Frame>, b: seq<Frame>, image: bool)
    ensures Select(a + b, image) == Select(a, image) + Select(b, image)
    decreases |b|
  {
    if b == [] {
      assert a + b == a;
    } else {
      var b' := b[..|b| - 1];
      assert (a + b)[..|a + b| - 1] == a + b';
      SelectAppend(a, b', image);
    }
  }

  lemma {:induction false} SelectRepeat(f: Frame, n: nat, image: bool)
    ensures Select(Repeat(f, n), image) == if f.hasImage == image then Repeat(f, n) else []
    decreases n
  {
    if n > 0 {
      assert Repeat(f, n)[..n - 1] == Repeat(f, n - 1);
      SelectRepeat(f, n - 1, image);
    }
  }

  // ---------------------------------------------------------------------------
  // What the resampler records
  // ---------------------------------------------------------------------------

  /**
   * The counters count the grabbed and the recorded images; the `k`-th recorded image is the
   * grabbed image `round(k * step)`; the next count already maps past the grabbed images; and the
   * frames without an image are recorded exactly once each, in their order.
   */
  ghost predicate Characterizes(c: Cadence, frames: seq<Frame>, step: real)
    requires step > 0.0
  {
    c.grabbed == |Select(frames, true)|
    && |Select(c.output, true)| == c.recorded
    && (forall k :: 0 <= k < c.recorded ==>
          0 <= RequiredIndex(k, step) < c.grabbed
          && Select(c.output, true)[k] == Select(frames, true)[RequiredIndex(k, step)])
    && RequiredIndex(c.recorded, step) >= c.grabbed
    && Select(c.output, false) == Select(frames, false)
  }

  /**
   * The run of copies of image `f` extends the mapping from recorded counts to grabbed images:
   * the new counts map to `f`, the new grabbed index, and the count after them maps past it.
   */
  lemma RunExtendsMapping(recordedImages: seq<Frame>, images: seq<Frame>, f: Frame, step: real)
    requires step > 0.0
    requires RequiredIndex(|recordedImages|, step) >= |images|
    requires forall k :: 0 <= k < |recordedImages| ==>
               0 <= RequiredIndex(k, step) < |images| && recordedImages[k] == images[RequiredIndex(k, step)]
    ensures var n := Copies(|recordedImages|, |images|, step);
      var out, grabbed := recordedImages + Repeat(f, n), images + [f];
      (forall k :: 0 <= k < |out| ==> 0 <= RequiredIndex(k, step) < |grabbed| && out[k] == grabbed[RequiredIndex(k, step)])
      && RequiredIndex(|out|, step) >= |grabbed|
  {
    var r, g := |recordedImages|, |images|;
    var n := Copies(r, g, step);
    var out, grabbed := recordedImages + Repeat(f, n), images + [f];
    CopiesRun(r, g, step);
    CopiesEndPast(r, g, step);
    forall k | 0 <= k < |out|
      ensures 0 <= RequiredIndex(k, step) < |grabbed| && out[k] == grabbed[RequiredIndex(k, step)]
    {
      RequiredIndexMonotone(0, k, step);
      if k >= r {
        assert out[k] == Repeat(f, n)[k - r];
        assert RequiredIndex(k, step) == g;
      } else {
        assert out[k] == recordedImages[k];
      }
    }
  }

  /** Recording an image for each count of its run keeps the characterization. */
  lemma AdvanceImage(c: Cadence, frames: seq<Frame>, f: Frame, step: real)
    requires step > 0.0 && f.hasImage && Characterizes(c, frames, step)
    ensures Characterizes(Advance(c, f, step), frames + [f], step)
  {
    var n := Copies(c.recorded, c.grabbed, step);
    AppendLast(frames, f);
    SelectAppend(c.output, Repeat(f, n), true);
    SelectAppend(c.output, Repeat(f, n), false);
    SelectRepeat(f, n, true);
    SelectRepeat(f, n, false);
    assert Select(frames + [f], true) == Select(frames, true) + [f];
    assert Select(frames + [f], false) == Select(frames, false);
    RunExtendsMapping(Select(c.output, true), Select(frames, true), f, step);
  }

  /** Recording a frame without an image once keeps the characterization. */
  lemma AdvanceOther(c: Cadence, frames: seq<Frame>, f: Frame, step: real)
    requires step > 0.0 && !f.hasImage && Characterizes(c, frames, step)
    ensures Characterizes(Advance(c, f, step), frames + [f], step)
  {
    AppendLast(frames, f);
    SelectAppend(c.output, [f], true);
    SelectAppend(c.output, [f], false);
    assert Select([f], true) == [] by {
      assert [f][..0] == [];
    }
    assert Select([f], false) == [f] by {
      assert [f][..0] == [];
    }
    assert Select(frames + [f], true) == Select(frames, true);
    assert Select(frames + [f], false) == Select(frames, false) + [f];
  }

  lemma {:induction false} ResampleCharacterized(frames: seq<Frame>, step: real)
    requires step > 0.0
    ensures Characterizes(Resample(frames, step), frames, step)
    decreases |frames|
  {
    if frames != [] {
      var prefix, f := frames[..|frames| - 1], frames[|frames| - 1];
      ResampleCharacterized(prefix, step);
      DropLast(frames);
      if f.hasImage {
        AdvanceImage(Resample(prefix, step), prefix, f, step);
      } else {
        AdvanceOther(Resample(prefix, step), prefix, f, step);
      }
    }
  }

  /** The recorded counts are exactly those that map to a grabbed image. */
  lemma RecordedExactlyTheRequired(frames: seq<Frame>, step: real, k: nat)
    requires step > 0.0
    ensures var c := Resample(frames, step);
      k < c.recorded <==> RequiredIndex(k, step) < c.grabbed
  {
    ResampleCharacterized(frames, step);
    var c := Resample(frames, step);
    if k >= c.recorded {
      RequiredIndexMonotone(c.recorded, k, step);
    }
  }

  /** A frame without an image is recorded once, at its place, and moves neither counter. */
  lemma ResampleFrameWithoutImage(frames: seq<Frame>, f: Frame, step: real)
    requires step > 0.0 && !f.hasImage
    ensures var c := Resample(frames, step);
      Resample(frames + [f], step) == Cadence(c.output + [f], c.recorded, c.grabbed)
  {
    assert (frames + [f])[..|frames|] == frames;
  }

  /**
   * An image frame is recorded consecutively, once for each recorded count that maps to its
   * grabbed index and for no other; the grabbed counter then moves past it.
   */
  lemma ResampleImage(frames: seq<Frame>, f: Frame, step: real)
    requires step > 0.0 && f.hasImage
    ensures var c, d := Resample(frames, step), Resample(frames + [f], step);
      d.output == c.output + Repeat(f, d.recorded - c.recorded) && d.grabbed == c.grabbed + 1
      && c.recorded <= d.recorded
      && forall k: nat :: c.recorded <= k < d.recorded <==> RequiredIndex(k, step) == c.grabbed
  {
    assert (frames + [f])[..|frames|] == frames;
    var c, d := Resample(frames, step), Resample(frames + [f], step);
    CopiesRun(c.recorded, c.grabbed, step);
    forall k: nat ensures c.recorded <= k < d.recorded <==> RequiredIndex(k, step) == c.grabbed {
      RecordedExactlyTheRequired(frames, step, k);
      RecordedExactlyTheRequired(frames + [f], step, k);
    }
  }

  /** With `step >= 1` a run has at most one count: consecutive counts map to distinct images. */
  lemma CopiesAtMostOne(recorded: nat, grabbed: nat, step: real)
    requires step >= 1.0
    ensures Copies(recorded, grabbed, step) <= 1
  {
    assert (recorded + 1) as real * step >= recorded as real * step + 1.0;
  }

  /** With `step <= 1` consecutive counts never skip an image, so a run that starts at its image is not empty. */
  lemma CopiesAtLeastOne(recorded: nat, grabbed: nat, step: real)
    requires 0.0 < step <= 1.0 && RequiredIndex(recorded, step) >= grabbed
    requires recorded > 0 ==> RequiredIndex(recorded - 1, step) < grabbed
    ensures Copies(recorded, grabbed, step) >= 1
  {
    if recorded > 0 {
      assert recorded as real * step <= (recorded - 1) as real * step + 1.0;
    }
  }

  /** With `step >= 1` (a target rate no higher than the source's), no image is recorded twice. */
  lemma DroppingRecordsAtMostOnce(frames: seq<Frame>, f: Frame, step: real)
    requires step >= 1.0 && f.hasImage
    ensures Resample(frames + [f], step).recorded <= Resample(frames, step).recorded + 1
  {
    assert (frames + [f])[..|frames|] == frames;
    var c := Resample(frames, step);
    CopiesAtMostOne(c.recorded, c.grabbed, step);
  }

  /** With `step <= 1` (a target rate no lower than the source's), every image is recorded. */
  lemma DuplicatingRecordsAtLeastOnce(frames: seq<Frame>, f: Frame, step: real)
    requires 0.0 < step <= 1.0 && f.hasImage
    ensures Resample(frames + [f], step).recorded >= Resample(frames, step).recorded + 1
  {
    assert (frames + [f])[..|frames|] == frames;
    var c := Resample(frames, step);
    ResampleCharacterized(frames, step);
    if c.recorded > 0 {
      RecordedExactlyTheRequired(frames, step, c.recorded - 1);
    }
    CopiesAtLeastOne(c.recorded, c.grabbed, step);
  }

  /** At `step == 1` the resampler records exactly the grabbed frames. */
  lemma {:induction false} ResampleAtUnitStep(frames: seq<Frame>)
    ensures Resample(frames, 1.0).output == frames
    ensures Resample(frames, 1.0).recorded == Resample(frames, 1.0).grabbed
    decreases |frames|
  {
    if frames != [] {
      var prefix := frames[..|frames| - 1];
      ResampleAtUnitStep(prefix);
      var c := Resample(prefix, 1.0);
      if frames[|frames| - 1].hasImage {
        assert RequiredIndex(c.recorded, 1.0) == c.grabbed;
        assert RequiredIndex(c.recorded + 1, 1.0) != c.grabbed;
        assert Copies(c.recorded + 1, c.grabbed, 1.0) == 0;
        assert Copies(c.recorded, c.grabbed, 1.0) == 1;
      }
      assert prefix + [frames[|frames| - 1]] == frames;
    }
  }
}
