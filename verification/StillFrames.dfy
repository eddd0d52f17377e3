// Frames rendered with a camera that does not move: what every pixel has stored after them.
module StillFrames {
  import opened Grid
  import opened Vectors
  import opened Reprojection
  import opened TemporalHistory

  // ------------------------------------------------------------------------------------------
  // A still pixel: how long the stored value is the exact mean
  // ------------------------------------------------------------------------------------------

  // What repeated single passes with a still camera store after the samples of `run`.
  function StillValue(run: seq<Rgb>): (v: Sample)
    requires run != []
    ensures v.a >= 0.0
  {
    var last := run[|run| - 1];
    if |run| == 1 then Blend(Sample(BLACK, 0.0), 0.0, last)
    else
      var prev := StillValue(run[..|run| - 1]);
      Blend(prev, MinR(prev.a, KEEP_STILL), last)
  }

  lemma {:induction false} StillMean(run: seq<Rgb>)
    requires 1 <= |run| <= 2049
    ensures StillValue(run) == Mean(run)
  {
    if |run| == 1 {
      assert run == [run[0]];
      FirstSample(Sample(BLACK, 0.0), run[0]);
    } else {
      var init := run[..|run| - 1];
      StillMean(init);
      BlendKeepsMean(init, run[|run| - 1]);
      assert init + [run[|run| - 1]] == run;
    }
  }

  // One bright sample followed by black ones.
  function Flash(k: nat): (run: seq<Rgb>)
    requires k > 0
    ensures |run| == k
  {
    if k == 1 then [Rgb(1.0, 1.0, 1.0)] else Flash(k - 1) + [BLACK]
  }

  lemma FlashStep(k: nat)
    requires k > 2049 && StillValue(Flash(k - 1)).a == 2049.0
    ensures StillValue(Flash(k)).a == 2049.0
    ensures StillValue(Flash(k)).rgb.r == StillValue(Flash(k - 1)).rgb.r * 2048.0 / 2049.0
  {
    assert Flash(k)[..k - 1] == Flash(k - 1);
  }

  lemma FlashFirst(k: nat)
    requires k == 2049
    ensures StillValue(Flash(k)).a == 2049.0 && StillValue(Flash(k)).rgb.r * k as real == 1.0
  {
    hide StillValue, Flash;
    StillMean(Flash(k));
    FlashSum(k);
  }

  lemma {:induction false} FlashFades(k: nat)
    requires k >= 2049
    ensures StillValue(Flash(k)).a == 2049.0
    ensures 0.0 < StillValue(Flash(k)).rgb.r * k as real <= 1.0
    ensures k > 2049 ==> StillValue(Flash(k)).rgb.r * k as real < 1.0
  {
    hide StillValue, Flash;
    if k == 2049 {
      FlashFirst(k);
    } else {
      FlashFades(k - 1);
      FlashStep(k);
      FadesFaster(StillValue(Flash(k - 1)).rgb.r, (k - 1) as real, StillValue(Flash(k)).rgb.r, k as real);
    }
  }

  lemma {:induction false} FlashSum(k: nat)
    requires k > 0
    ensures Sum(Flash(k)) == Rgb(1.0, 1.0, 1.0)
  {
    if k == 1 {
      assert Flash(1)[..0] == [];
    } else {
      FlashSum(k - 1);
      assert Flash(k)[..k - 1] == Flash(k - 1);
    }
  }

  lemma PositiveFactor(v: real, n: real)
    requires n > 0.0 && v * n > 0.0
    ensures v > 0.0
  {
  }

  lemma ScaleMonotone(a: real, b: real, k: real)
    requires a <= b && k >= 0.0
    ensures k * a <= k * b
  {
  }

  lemma ScaleBoth(v: real, w: real, n: real)
    requires w * 2049.0 == v * 2048.0
    ensures (w * n) * 2049.0 == (v * n) * 2048.0
  {
    assert (w * 2049.0) * n == (v * 2048.0) * n;
  }

  lemma FadeBounds(p: real, v: real, q: real, w: real)
    requires 0.0 < p <= 1.0 && 0.0 < v && v * 2049.0 <= p && q * 2049.0 == p * 2048.0 && w * 2049.0 == v * 2048.0
    ensures 0.0 < q + w < 1.0
  {
  }

  lemma FadesFaster(v: real, n: real, w: real, m: real)
    requires n >= 2049.0 && 0.0 < v * n <= 1.0
    requires w * 2049.0 == v * 2048.0 && m == n + 1.0
    ensures 0.0 < w * m < 1.0
  {
    var p, q := v * n, w * n;
    PositiveFactor(v, n);
    ScaleMonotone(2049.0, n, v);
    ScaleBoth(v, w, n);
    FadeBounds(p, v, q, w);
    assert w * m == q + w;
  }

  // The stored value is the mean of every run of k samples if and only if k is at most 2049:
  // the cap on trusted samples is 2048, and one more is blended in.
  lemma StillMeanExactlyTo2049(k: nat)
    requires k > 0
    ensures (forall run :: |run| == k ==> StillValue(run) == Mean(run)) <==> k <= 2049
  {
    if k <= 2049 {
      forall run: seq<Rgb> | |run| == k
        ensures StillValue(run) == Mean(run)
      {
        StillMean(run);
      }
    } else {
      FlashFades(k);
      FlashSum(k);
      assert Mean(Flash(k)).rgb.r * k as real == 1.0;
      assert StillValue(Flash(k)) != Mean(Flash(k));
    }
  }

  // ------------------------------------------------------------------------------------------
  // A run of frames with a still camera
  // ------------------------------------------------------------------------------------------

  // Depth of the surface under each pixel, or nothing where there is only sky.
  type Depths = seq<Option<real>>

  ghost predicate InFront(depths: Depths, s: Screen) {
    |depths| == s.w * s.h && forall p :: 0 <= p < |depths| && depths[p].Some? ==> depths[p].value > 0.0
  }

  // What the still camera's ray through a pixel finds in every frame.
  function SurfaceUnder(c: Camera, s: Screen, depth: Option<real>, p: nat): Surface {
    match depth
    case Some(k) => Surface(PointUnder(c, s, p, k), true)
    case None => Surface(c.pos, false)
  }

  function StillInputs(c: Camera, s: Screen, depths: Depths, cols: seq<Rgb>): (inputs: seq<PixelInput>)
    requires |depths| == |cols|
    ensures |inputs| == |cols|
  {
    seq(|cols|, p requires 0 <= p < |cols| == |depths| => PixelInput(cols[p], SurfaceUnder(c, s, depths[p], p)))
  }

  // The pixel keeps its history from frame to frame: it always does without reprojection, and with
  // it if there is a surface under the pixel that is not closer than the least depth.
  predicate Keeps(reproject: bool, depth: Option<real>) {
    !reproject || (depth.Some? && depth.value > DEPTH_MIN)
  }

  // The samples of one pixel over the frames.
  function RunOf(frames: seq<seq<Rgb>>, p: nat): (run: seq<Rgb>)
    requires forall f :: 0 <= f < |frames| ==> p < |frames[f]|
    ensures |run| == |frames|
  {
    seq(|frames|, f requires 0 <= f < |frames| => frames[f][p])
  }

  // What a pixel has stored after the frames: the running average if it keeps its history, and
  // otherwise just the last sample.
  function StillPixel(keeps: bool, run: seq<Rgb>): Sample
    requires run != []
  {
    if keeps then StillValue(run) else Mean([run[|run| - 1]])
  }

  ghost predicate StoresStill(buf: seq<Sample>, frames: seq<seq<Rgb>>, reproject: bool, depths: Depths) {
    && frames != [] && |buf| == |depths| && (forall f :: 0 <= f < |frames| ==> |frames[f]| == |buf|)
    && forall p :: 0 <= p < |buf| ==> buf[p] == StillPixel(Keeps(reproject, depths[p]), RunOf(frames, p))
  }

  // Where reprojection looks for the pixel's history, when the previous frame saw the same.
  lemma StillSource(c: Camera, s: Screen, depths: Depths, cols: seq<Rgb>, was: seq<Surface>, reproject: bool, p: nat)
    requires Orthonormal(c) && Wide(c) && InFront(depths, s) && |cols| == |depths| == |was| && p < |was|
    requires was[p] == SurfaceUnder(c, s, depths[p], p)
    ensures HistorySource(reproject, ViewOf(c), s, was, p, StillInputs(c, s, depths, cols)[p])
         == if Keeps(reproject, depths[p]) then Some(p) else None
  {
    hide Orthonormal, Wide, ViewOf, PointUnder, Reproject;
    if depths[p].Some? {
      StillCameraKeepsHistory(c, s, p, depths[p].value, was);
    }
  }

  // One pixel, one more frame.
  lemma StillStep(prev: seq<Sample>, stored: Sample, frames: seq<seq<Rgb>>, cols: seq<Rgb>, accumFrame: nat,
                  keeps: bool, source: Option<nat>, cap: real, p: nat)
    requires p < |prev| == |cols| && forall f :: 0 <= f < |frames| ==> |frames[f]| == |cols|
    requires ShadedPixel(accumFrame, source, cap, cols[p], prev, stored) && (accumFrame == 0 <==> frames == [])
    requires frames != [] ==> cap == KEEP_STILL && source == if keeps then Some(p) else None
    requires frames != [] ==> prev[p] == StillPixel(keeps, RunOf(frames, p))
    ensures stored == StillPixel(keeps, RunOf(frames + [cols], p))
  {
    var run := RunOf(frames + [cols], p);
    assert run[|run| - 1] == cols[p];
    var hist := if source.Some? then prev[source.value] else Sample(BLACK, 0.0);
    FirstSample(hist, cols[p]);
    FirstSample(Sample(BLACK, 0.0), cols[p]);
    if frames != [] {
      assert run[..|run| - 1] == RunOf(frames, p);
    }
    hide Blend, Mean;
  }

  lemma StillFrame(c: Camera, s: Screen, depths: Depths, prev: seq<Sample>, cur: seq<Sample>, was: seq<Surface>,
                   v: View, frames: seq<seq<Rgb>>, cols: seq<Rgb>, accumFrame: nat, reproject: bool, cap: real)
    requires Orthonormal(c) && Wide(c) && InFront(depths, s) && |cols| == |depths| == |was|
    requires Shaded(accumFrame, Sources(reproject, v, s, was, StillInputs(c, s, depths, cols)), cap,
                    SamplesOf(StillInputs(c, s, depths, cols)), prev, cur)
    requires accumFrame == 0 <==> frames == []
    requires frames != [] ==>
      && cap == KEEP_STILL && StoresStill(prev, frames, reproject, depths) && v == ViewOf(c)
      && forall p :: 0 <= p < |was| ==> was[p] == SurfaceUnder(c, s, depths[p], p)
    ensures StoresStill(cur, frames + [cols], reproject, depths)
  {
    var inputs := StillInputs(c, s, depths, cols);
    var sources := Sources(reproject, v, s, was, inputs);
    hide Orthonormal, Wide, ViewOf, HistorySource, ShadedPixel, StillPixel, RunOf, Keeps, SurfaceUnder;
    forall p | 0 <= p < |cur|
      ensures cur[p] == StillPixel(Keeps(reproject, depths[p]), RunOf(frames + [cols], p))
    {
      if frames != [] {
        StillSource(c, s, depths, cols, was, reproject, p);
      }
      assert ShadedPixel(accumFrame, sources[p], cap, cols[p], prev, cur[p]);
      StillStep(prev, cur[p], frames, cols, accumFrame, Keeps(reproject, depths[p]), sources[p], cap, p);
    }
  }

  // With one pass per frame, the same scene and a camera that does not move, the buffer holds for
  // every pixel that keeps its history what StillValue says - the exact mean up to 2049 frames -
  // and for every other pixel, the sky above all, the last sample alone.
  method RenderStillFrames(h: History, c: Camera, cam: CameraKey, scene: SceneKey, ceiling: int,
                           root: real -> real, depths: Depths, frames: seq<seq<Rgb>>, filtered: seq<Sample>)
    requires h.Valid() && !h.accHave && scene.lightingMode == 1 && !(h.denoiseReady && scene.giDenoiser != 0)
    requires Orthonormal(c) && Wide(c) && InFront(depths, h.screen) && IsRoot(root)
    requires 0 < |frames| <= UINT_RANGE && forall f :: 0 <= f < |frames| ==> |frames[f]| == |depths|
    requires |filtered| == |depths| && forall p :: 0 <= p < |filtered| ==> filtered[p].a >= 0.0
    modifies h, h.Buffers()
    ensures h.Valid() && StoresStill(h.Previous()[..], frames, old(h.giReproject), depths)
    ensures |frames| <= 2049 ==> forall p :: 0 <= p < |depths| && Keeps(old(h.giReproject), depths[p]) ==>
      h.Previous()[p] == Mean(RunOf(frames, p))
    ensures forall p :: 0 <= p < |depths| && !Keeps(old(h.giReproject), depths[p]) ==>
      h.Previous()[p] == Mean([frames[|frames| - 1][p]])
  {
    hide ExactMeans, NextRuns, NextExact, Shaded, StoresStill, StillInputs, Orthonormal, Wide, InFront, IsRoot, ViewOf,
         Sources, SamplesOf, SeesStill, SurfacesOf;
    ghost var reproject := h.giReproject;
    DepthCount(depths, h.screen);
    for f := 0 to |frames|
      invariant h.Valid() && h.giReproject == reproject
      invariant if f == 0 then !h.accHave
                else h.accHave && h.accumFrame == f - 1 && h.accCamKey == cam && h.accSceneKey == scene
                     && StoresStill(h.Previous()[..], frames[..f], reproject, depths)
                     && h.prevVP == Some(ViewOf(c)) && SeesStill(h.PreviousHits()[..], c, h.screen, depths)
    {
      ghost var prev, was, v := h.Previous()[..], h.PreviousHits()[..], h.ViewRead(ViewOf(c));
      var shot := Shot(cam, c, scene, ceiling, StillInputs(c, h.screen, depths, frames[f]), filtered);
      var histMax, multipass := h.RenderFrame(shot, root);
      SurfacesStay(c, h.screen, depths, frames[f]);
      StillFrameSeen(c, h.screen, depths, prev, h.Previous()[..], was, v, frames[..f], frames[f], h.accumFrame,
                     reproject, Cap(h.giDenoise, histMax));
      assert frames[..f] + [frames[f]] == frames[..f + 1];
    }
    assert frames[..|frames|] == frames;
    StillMeans(h.Previous()[..], frames, reproject, depths);
  }

  // The previous frame saw what the still camera sees.
  ghost predicate SeesStill(was: seq<Surface>, c: Camera, s: Screen, depths: Depths) {
    |was| == |depths| && forall p :: 0 <= p < |was| ==> was[p] == SurfaceUnder(c, s, depths[p], p)
  }

  lemma SurfacesStay(c: Camera, s: Screen, depths: Depths, cols: seq<Rgb>)
    requires |cols| == |depths|
    ensures SeesStill(SurfacesOf(StillInputs(c, s, depths, cols)), c, s, depths)
  {
    hide SurfaceUnder;
  }

  lemma StillFrameSeen(c: Camera, s: Screen, depths: Depths, prev: seq<Sample>, cur: seq<Sample>, was: seq<Surface>,
                       v: View, frames: seq<seq<Rgb>>, cols: seq<Rgb>, accumFrame: nat, reproject: bool, cap: real)
    requires Orthonormal(c) && Wide(c) && InFront(depths, s) && |cols| == |depths| == |was|
    requires Shaded(accumFrame, Sources(reproject, v, s, was, StillInputs(c, s, depths, cols)), cap,
                    SamplesOf(StillInputs(c, s, depths, cols)), prev, cur)
    requires accumFrame == |frames| && (frames != [] ==> cap == KEEP_STILL)
    requires frames != [] ==> StoresStill(prev, frames, reproject, depths)
    requires frames != [] ==> v == ViewOf(c) && SeesStill(was, c, s, depths)
    ensures StoresStill(cur, frames + [cols], reproject, depths)
  {
    hide Orthonormal, Wide, InFront, Shaded, Sources, SamplesOf, StillInputs, StoresStill, ViewOf, SurfaceUnder;
    StillFrame(c, s, depths, prev, cur, was, v, frames, cols, accumFrame, reproject, cap);
  }

  lemma DepthCount(depths: Depths, s: Screen)
    requires InFront(depths, s)
    ensures |depths| == s.w * s.h
  {
  }

  lemma StillMeans(buf: seq<Sample>, frames: seq<seq<Rgb>>, reproject: bool, depths: Depths)
    requires StoresStill(buf, frames, reproject, depths)
    ensures |buf| == |depths|
    ensures |frames| <= 2049 ==> forall p :: 0 <= p < |depths| && Keeps(reproject, depths[p]) ==>
      buf[p] == Mean(RunOf(frames, p))
    ensures forall p :: 0 <= p < |depths| && !Keeps(reproject, depths[p]) ==> buf[p] == Mean([frames[|frames| - 1][p]])
  {
    hide StillValue, Mean, Keeps;
    if |frames| <= 2049 {
      forall p | 0 <= p < |depths| && Keeps(reproject, depths[p])
        ensures buf[p] == Mean(RunOf(frames, p))
      {
        StillMean(RunOf(frames, p));
      }
    }
  }
}
