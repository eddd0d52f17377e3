// Temporal accumulation of path-traced frames: when old samples may be reused, which buffer
// they come from, and what the stored value is.
module TemporalHistory {
  import opened Grid
  import opened Vectors
  import opened Reprojection

  const KEEP_STILL: real := 2048.0
  const UINT_RANGE: nat := 0x1_0000_0000

  datatype Rgb = Rgb(r: real, g: real, b: real)

  const BLACK := Rgb(0.0, 0.0, 0.0)
  const NO_SURFACE := Surface(Vec3(0.0, 0.0, 0.0), false)

  function Plus(u: Rgb, v: Rgb): Rgb {
    Rgb(u.r + v.r, u.g + v.g, u.b + v.b)
  }

  function Times(u: Rgb, k: real): Rgb {
    Rgb(u.r * k, u.g * k, u.b * k)
  }

  function Over(u: Rgb, k: real): Rgb
    requires k != 0.0
  {
    Rgb(u.r / k, u.g / k, u.b / k)
  }

  // One entry of an accumulation buffer: running average and sample count.
  datatype Sample = Sample(rgb: Rgb, a: real)

  // The shader's running average: old value weighted by n, new sample by one.
  function Blend(hist: Sample, n: real, col: Rgb): Sample
    requires n >= 0.0
  {
    Sample(Over(Plus(Times(hist.rgb, n), col), n + 1.0), n + 1.0)
  }

  function Sum(run: seq<Rgb>): Rgb {
    if run == [] then BLACK else Plus(Sum(run[..|run| - 1]), run[|run| - 1])
  }

  function Mean(run: seq<Rgb>): Sample
    requires run != []
  {
    Sample(Over(Sum(run), |run| as real), |run| as real)
  }

  lemma ScaleBack(s: real, n: real, c: real)
    requires n > 0.0
    ensures (s / n) * n + c == s + c
  {
  }

  // Blending one more sample into an exact mean gives the exact mean of the longer run.
  lemma BlendKeepsMean(run: seq<Rgb>, col: Rgb)
    requires run != []
    ensures Blend(Mean(run), |run| as real, col) == Mean(run + [col])
  {
    var longer, n := run + [col], |run| as real;
    assert longer[..|longer| - 1] == run;
    var s := Sum(run);
    ScaleBack(s.r, n, col.r);
    ScaleBack(s.g, n, col.g);
    ScaleBack(s.b, n, col.b);
    assert Plus(Times(Mean(run).rgb, n), col) == Sum(longer);
  }

  lemma FirstSample(hist: Sample, col: Rgb)
    ensures Blend(hist, 0.0, col) == Mean([col])
  {
    assert Sum([col]) == Plus(BLACK, col);
  }

  // Everything but the camera that the accumulated value depends on.
  datatype SceneKey = SceneKey(lightingMode: int, giDenoiser: int, others: seq<real>)

  datatype CameraKey = CameraKey(x: real, y: real, z: real, yaw: real, pitch: real, fov: real)

  function CameraStep2(a: CameraKey, b: CameraKey): real {
    (a.x - b.x) * (a.x - b.x) + (a.y - b.y) * (a.y - b.y) + (a.z - b.z) * (a.z - b.z)
  }

  // World voxels moved plus radians turned, as the renderer weighs them.
  function Motion(posDelta: real, a: CameraKey, b: CameraKey): real {
    posDelta * 0.20 + (AbsR(a.yaw - b.yaw) + AbsR(a.pitch - b.pitch) + AbsR(a.fov - b.fov)) * 2.0
  }

  // The renderer's square root.
  ghost predicate IsRoot(root: real -> real) {
    forall x :: x >= 0.0 ==> root(x) >= 0.0 && Mul(root(x), root(x)) == x
  }

  ghost predicate WayBetween(a: CameraKey, b: CameraKey, way: real) {
    way >= 0.0 && Mul(way, way) == Mul(a.x - b.x, a.x - b.x) + Mul(a.y - b.y, a.y - b.y) + Mul(a.z - b.z, a.z - b.z)
  }

  ghost predicate AngleBetween(a: real, b: real, angle: real) {
    angle >= 0.0 && (angle == a - b || angle == b - a)
  }

  // The camera moved: each voxel of its way counts a fifth, each radian turned counts two.
  ghost predicate MovedBy(a: CameraKey, b: CameraKey, motion: real) {
    exists way, yaw, pitch, fov ::
      && WayBetween(a, b, way)
      && AngleBetween(a.yaw, b.yaw, yaw) && AngleBetween(a.pitch, b.pitch, pitch) && AngleBetween(a.fov, b.fov, fov)
      && motion == way / 5.0 + 2.0 * (yaw + pitch + fov)
  }

  // How many old samples stay trusted in motion. With reprojection it is the ceiling divided by
  // 1 + 4 motion, but at least 8; without it the new sample's weight grows from 0.15 to 0.45.
  ghost predicate TrustInMotion(reproject: bool, ceiling: int, motion: real, histMax: real) {
    if reproject then
      var c := (if ceiling < 8 then 8 else ceiling) as real;
      var shrunk := Mul(histMax, 1.0 + 4.0 * motion);
      histMax >= 8.0 && shrunk >= c && (histMax == 8.0 || shrunk == c)
    else
      Mul(if motion < 0.3 then 0.15 + motion else 0.45, histMax + 1.0) == 1.0
  }

  ghost predicate CapRule(moved: bool, reproject: bool, denoise: bool, ceiling: int, a: CameraKey, b: CameraKey,
                          histMax: real) {
    if moved && (reproject || denoise)
    then exists motion :: MovedBy(a, b, motion) && TrustInMotion(reproject, ceiling, motion, histMax)
    else histMax == KEEP_STILL
  }

  // What a pixel's primary ray found in a frame, and the radiance sampled there.
  datatype PixelInput = PixelInput(col: Rgb, surface: Surface)

  // Which pixel's history the shader reads: its own, unless reprojection is on. Then it is the
  // pixel in which the previous frame saw the same point, if there is one.
  function HistorySource(reproject: bool, v: View, s: Screen, was: seq<Surface>, p: nat,
                         input: PixelInput): (q: Option<nat>)
    requires |was| == s.w * s.h && p < |was|
    ensures q.Some? ==> q.value < |was|
  {
    if !reproject then Some(p)
    else if input.surface.hit then Reproject(v, s, input.surface.pos, was)
    else None
  }

  function Sources(reproject: bool, v: View, s: Screen, was: seq<Surface>,
                   inputs: seq<PixelInput>): (sources: seq<Option<nat>>)
    requires |was| == |inputs| == s.w * s.h
    ensures InRange(sources, |inputs|)
  {
    seq(|inputs|, p requires 0 <= p < |inputs| && |was| == |inputs| == s.w * s.h =>
      HistorySource(reproject, v, s, was, p, inputs[p]))
  }

  ghost predicate InRange(sources: seq<Option<nat>>, n: nat) {
    |sources| == n && forall p :: 0 <= p < n && sources[p].Some? ==> sources[p].value < n
  }

  function SamplesOf(inputs: seq<PixelInput>): seq<Rgb> {
    seq(|inputs|, p requires 0 <= p < |inputs| => inputs[p].col)
  }

  function SurfacesOf(inputs: seq<PixelInput>): seq<Surface> {
    seq(|inputs|, p requires 0 <= p < |inputs| => inputs[p].surface)
  }

  // Who wrote a buffer: the frame's number, its scene key, and how many edits and toggles came before.
  datatype Stamp = Stamp(frame: nat, scene: SceneKey, epoch: nat)

  // Number of old samples trusted for a pixel.
  function Trusted(accumFrame: nat, source: Option<nat>, prev: seq<Sample>, cap: real): real
    requires source.Some? ==> source.value < |prev|
  {
    if accumFrame == 0 || source.None? then 0.0 else MinR(prev[source.value].a, cap)
  }

  // Each stored value that is still exact is the mean of the run of samples recorded for it.
  ghost predicate ExactMeans(buf: seq<Sample>, runs: seq<seq<Rgb>>, exact: seq<bool>) {
    && |buf| == |runs| == |exact|
    && (forall p :: 0 <= p < |buf| ==> buf[p].a >= 0.0)
    && (forall p :: 0 <= p < |buf| && exact[p] ==> runs[p] != [] && buf[p] == Mean(runs[p]))
  }

  // The run of samples behind each pixel after one more frame.
  ghost function NextRuns(accumFrame: nat, sources: seq<Option<nat>>, cols: seq<Rgb>,
                          runs: seq<seq<Rgb>>): (next: seq<seq<Rgb>>)
    requires InRange(sources, |cols|) && (accumFrame != 0 ==> |runs| == |cols|)
    ensures |next| == |cols|
  {
    seq(|cols|, p requires 0 <= p < |cols| =>
      if accumFrame == 0 || sources[p].None? then [cols[p]] else runs[sources[p].value] + [cols[p]])
  }

  // A value stays an exact mean until the cap makes the shader forget old samples.
  ghost function NextExact(accumFrame: nat, sources: seq<Option<nat>>, cap: real, runs: seq<seq<Rgb>>,
                           exact: seq<bool>):
    (next: seq<bool>)
    requires InRange(sources, |sources|) && (accumFrame != 0 ==> |runs| == |exact| == |sources|)
    ensures |next| == |sources|
  {
    seq(|sources|, p requires 0 <= p < |sources| =>
      accumFrame == 0 || sources[p].None? || (exact[sources[p].value] && |runs[sources[p].value]| as real <= cap))
  }

  // What the single pass stores for every pixel.
  ghost predicate Shaded(accumFrame: nat, sources: seq<Option<nat>>, cap: real, cols: seq<Rgb>, prev: seq<Sample>,
                         cur: seq<Sample>) {
    && |cur| == |prev| == |cols| == |sources|
    && forall p :: 0 <= p < |cur| ==> ShadedPixel(accumFrame, sources[p], cap, cols[p], prev, cur[p])
  }

  ghost predicate ShadedPixel(accumFrame: nat, source: Option<nat>, cap: real, col: Rgb, prev: seq<Sample>,
                              stored: Sample) {
    && (source.Some? ==> source.value < |prev|)
    && var n := Trusted(accumFrame, source, prev, cap);
    n >= 0.0 && stored == Blend(if source.Some? then prev[source.value] else Sample(BLACK, 0.0), n, col)
  }

  // What is remembered about the stored values: each pixel's run of samples, and whether the value is
  // still its exact mean.
  datatype Tally = Tally(runs: seq<seq<Rgb>>, exact: seq<bool>)

  // What a pair of buffers holds.
  datatype Contents = Contents(samples: seq<Sample>, surfaces: seq<Surface>)

  // A single pass over the buffers of the previous frame: the surfaces seen are recorded, each sample
  // is blended into the history of the pixel that reprojection names, and the tally grows by it.
  ghost predicate SinglePass(accumFrame: nat, reproject: bool, v: View, s: Screen, cap: real, inputs: seq<PixelInput>,
                             was: Contents, now: Contents, t: Tally, t': Tally)
    requires |was.surfaces| == |inputs| == s.w * s.h
  {
    var sources, cols := Sources(reproject, v, s, was.surfaces, inputs), SamplesOf(inputs);
    && Shaded(accumFrame, sources, cap, cols, was.samples, now.samples)
    && (accumFrame != 0 ==> |t.runs| == |t.exact| == |inputs|)
    && t' == Tally(NextRuns(accumFrame, sources, cols, t.runs), NextExact(accumFrame, sources, cap, t.runs, t.exact))
  }

  // The stored value takes up the history of a pixel, of which at most `cap` samples count, or it is
  // the sample alone.
  ghost predicate TakesUp(was: Sample, cap: real, col: Rgb, stored: Sample) {
    var n := MinR(was.a, cap);
    n >= 0.0 && stored == Blend(was, n, col)
  }

  ghost predicate Alone(col: Rgb, stored: Sample) {
    stored == Sample(col, 1.0)
  }

  // With reprojection a pixel takes up the history of the pixel in whose cone its surface point lay
  // for the previous camera, if that pixel saw the same surface. Without a surface, such a pixel,
  // or any history, its sample stands alone.
  ghost predicate FollowsSurfaces(accumFrame: nat, c: Camera, s: Screen, cap: real, inputs: seq<PixelInput>,
                                  was: Contents, now: Contents)
    requires |now.samples| == |was.samples| == |was.surfaces| == |inputs| == s.w * s.h
  {
    && (forall p, q :: 0 <= p < |inputs| && 0 <= q < |inputs| && LiesIn(c, s, q, inputs[p].surface) ==>
          if accumFrame != 0 && SameSurface(c, was.surfaces[q], inputs[p].surface)
          then TakesUp(was.samples[q], cap, inputs[p].col, now.samples[p])
          else Alone(inputs[p].col, now.samples[p]))
    && (forall p :: 0 <= p < |inputs| && !(inputs[p].surface.hit && SeenBefore(c, s, inputs[p].surface.pos)) ==>
          Alone(inputs[p].col, now.samples[p]))
  }

  ghost predicate LiesIn(c: Camera, s: Screen, q: nat, now: Surface) {
    now.hit && InCone(c, s, q, now.pos)
  }

  ghost predicate SeenBefore(c: Camera, s: Screen, a: Vec3) {
    exists q :: 0 <= q < s.w * s.h && InCone(c, s, q, a)
  }

  // Without reprojection every pixel takes up its own.
  ghost predicate FollowsPixels(accumFrame: nat, cap: real, inputs: seq<PixelInput>, was: Contents, now: Contents)
    requires |now.samples| == |was.samples| == |inputs|
  {
    forall p :: 0 <= p < |inputs| ==>
      if accumFrame != 0 then TakesUp(was.samples[p], cap, inputs[p].col, now.samples[p])
      else Alone(inputs[p].col, now.samples[p])
  }

  lemma StoredIs(accumFrame: nat, source: Option<nat>, cap: real, col: Rgb, prev: seq<Sample>, stored: Sample)
    requires ShadedPixel(accumFrame, source, cap, col, prev, stored)
    ensures if accumFrame != 0 && source.Some? then TakesUp(prev[source.value], cap, col, stored)
            else Alone(col, stored)
  {
  }

  lemma SinglePassFollows(accumFrame: nat, reproject: bool, c: Camera, s: Screen, cap: real, inputs: seq<PixelInput>,
                          was: Contents, now: Contents, t: Tally, t': Tally)
    requires |was.surfaces| == |inputs| == s.w * s.h
    requires SinglePass(accumFrame, reproject, ViewOf(c), s, cap, inputs, was, now, t, t')
    ensures |now.samples| == |was.samples| == |inputs|
    ensures if reproject then FollowsSurfaces(accumFrame, c, s, cap, inputs, was, now)
            else FollowsPixels(accumFrame, cap, inputs, was, now)
  {
    var sources := Sources(reproject, ViewOf(c), s, was.surfaces, inputs);
    hide ViewOf, InCone, SameSurface, Reproject, TakesUp, Alone, NextRuns, NextExact, ShadedPixel;
    forall p | 0 <= p < |inputs|
      ensures if accumFrame != 0 && sources[p].Some?
              then TakesUp(was.samples[sources[p].value], cap, inputs[p].col, now.samples[p])
              else Alone(inputs[p].col, now.samples[p])
    {
      StoredIs(accumFrame, sources[p], cap, inputs[p].col, was.samples, now.samples[p]);
    }
    hide Shaded, Sources, SameSurface, HistorySource;
    forall p | 0 <= p < |inputs|
      ensures reproject ==> FoundIn(c, s, was.surfaces, inputs[p].surface, sources[p])
      ensures !reproject ==> sources[p] == Some(p)
    {
      SourceFound(reproject, c, s, was.surfaces, inputs, p);
    }
    hide LiesIn, SeenBefore;
  }

  // The source is the pixel in whose cone the point lies, if that pixel saw the same surface.
  ghost predicate FoundIn(c: Camera, s: Screen, was: seq<Surface>, now: Surface, source: Option<nat>)
    requires |was| == s.w * s.h
  {
    && (forall q :: 0 <= q < |was| && LiesIn(c, s, q, now) ==>
          source == if SameSurface(c, was[q], now) then Some(q) else None)
    && (!(now.hit && SeenBefore(c, s, now.pos)) ==> source.None?)
  }

  lemma SourceFound(reproject: bool, c: Camera, s: Screen, was: seq<Surface>, inputs: seq<PixelInput>, p: nat)
    requires |was| == |inputs| == s.w * s.h && p < |inputs|
    ensures var source := Sources(reproject, ViewOf(c), s, was, inputs)[p];
      if reproject then FoundIn(c, s, was, inputs[p].surface, source) else source == Some(p)
  {
    var now := inputs[p].surface;
    hide ViewOf, InCone, SameSurface, Reproject;
    if reproject && now.hit {
      forall q | 0 <= q < |was| && LiesIn(c, s, q, now)
        ensures Reproject(ViewOf(c), s, now.pos, was) == if SameSurface(c, was[q], now) then Some(q) else None
      {
        ReprojectByCone(c, s, now, was, q);
      }
      if !SeenBefore(c, s, now.pos) {
        NoCone(c, s, now.pos, was);
      }
    }
  }

  // One more frame keeps every exact value the mean of its run.
  lemma ExactMeansKept(accumFrame: nat, sources: seq<Option<nat>>, cap: real, cols: seq<Rgb>, prev: seq<Sample>,
                       cur: seq<Sample>, runs: seq<seq<Rgb>>, exact: seq<bool>)
    requires InRange(sources, |cols|) && Shaded(accumFrame, sources, cap, cols, prev, cur)
    requires accumFrame != 0 ==> ExactMeans(prev, runs, exact)
    ensures accumFrame != 0 ==> |runs| == |exact| == |cols|
    ensures ExactMeans(cur, NextRuns(accumFrame, sources, cols, runs), NextExact(accumFrame, sources, cap, runs, exact))
  {
    var runs', exact' := NextRuns(accumFrame, sources, cols, runs), NextExact(accumFrame, sources, cap, runs, exact);
    forall p | 0 <= p < |cur|
      ensures cur[p].a >= 0.0
      ensures exact'[p] ==> runs'[p] != [] && cur[p] == Mean(runs'[p])
    {
      var source, col := sources[p], cols[p];
      assert ShadedPixel(accumFrame, source, cap, col, prev, cur[p]);
      if accumFrame == 0 || source.None? {
        FirstSample(if source.Some? then prev[source.value] else Sample(BLACK, 0.0), col);
      } else if exact'[p] {
        BlendKeepsMean(runs[source.value], col);
      }
    }
  }

  lemma NothingExact(values: seq<Sample>)
    requires forall p :: 0 <= p < |values| ==> values[p].a >= 0.0
    ensures ExactMeans(values, seq(|values|, _ => []), seq(|values|, _ => false))
  {
  }

  // One frame: the camera as a key and as a basis, the scene key, the trusted ceiling in motion,
  // what the pixels' rays found, and whatever the multi-pass denoiser leaves in the accumulation
  // buffer.
  datatype Shot = Shot(cam: CameraKey, camera: Camera, scene: SceneKey, ceiling: int,
                       pixels: seq<PixelInput>, filtered: seq<Sample>)

  ghost predicate ShotFits(shot: Shot, s: Screen) {
    && |shot.pixels| == |shot.filtered| == s.w * s.h
    && forall p :: 0 <= p < |shot.filtered| ==> shot.filtered[p].a >= 0.0
  }

  // The toggles that change how samples are computed.
  datatype Switches = Switches(denoise: bool, reproject: bool, skip: bool, debug: bool)

  class History {
    var accumFrame: nat
    var accHave: bool
    var accCamKey: CameraKey
    var accSceneKey: SceneKey
    var accumPair: nat
    var prevVP: Option<View>
    var giDenoise: bool
    var giReproject: bool
    var giDebug: bool
    var emptySkip: bool
    const denoiseReady: bool
    const screen: Screen
    const accumA: array<Sample>
    const accumB: array<Sample>
    const hitPosA: array<Surface>
    const hitPosB: array<Surface>

    // What really happened, for the specification only; prevVP is the view of prevCamera.
    ghost var prevCamera: Camera
    ghost var frames: nat
    ghost var epoch: nat
    ghost var stampA: Option<Stamp>
    ghost var stampB: Option<Stamp>
    ghost var tally: Tally

    function SwitchesNow(): Switches
      reads this
    {
      Switches(giDenoise, giReproject, emptySkip, giDebug)
    }

    ghost function Buffers(): set<object> {
      var a: object := accumA;
      {a, accumB, hitPosA, hitPosB}
    }

    function Current(): array<Sample>
      reads this
    {
      if accumPair == 0 then accumA else accumB
    }

    function Previous(): array<Sample>
      reads this
    {
      if accumPair == 0 then accumB else accumA
    }

    function CurrentHits(): array<Surface>
      reads this
    {
      if accumPair == 0 then hitPosA else hitPosB
    }

    function PreviousHits(): array<Surface>
      reads this
    {
      if accumPair == 0 then hitPosB else hitPosA
    }

    // What the coming frame reads, and what stands in the buffers it will overwrite.
    ghost function Readable(): Contents
      reads this, Buffers()
    {
      Contents(Previous()[..], PreviousHits()[..])
    }

    ghost function Writable(): Contents
      reads this, Buffers()
    {
      Contents(Current()[..], CurrentHits()[..])
    }

    ghost function PreviousStamp(): Option<Stamp>
      reads this
    {
      if accumPair == 0 then stampB else stampA
    }

    // One entry per pixel in each of four separate buffers.
    ghost predicate Shape()
      reads this
    {
      && accumPair <= 1 && accumA != accumB && hitPosA != hitPosB
      && accumA.Length == accumB.Length == hitPosA.Length == hitPosB.Length == screen.w * screen.h
    }

    ghost predicate Valid()
      reads this, Buffers()
    {
      && Shape() && accumFrame < UINT_RANGE && (prevVP.Some? ==> prevVP.value == ViewOf(prevCamera))
      && (!accHave ==> accumFrame == 0)
      && (accHave ==> frames > 0)
      && (accHave && accSceneKey.lightingMode == 1 ==>
            && PreviousStamp() == Some(Stamp(frames - 1, accSceneKey, epoch))
            && ExactMeans(Previous()[..], tally.runs, tally.exact))
    }

    constructor (size: Screen, ready: bool)
      ensures Valid() && fresh(Buffers()) && screen == size && !accHave && accumFrame == 0
    {
      accumFrame, accHave, accumPair, prevVP := 0, false, 0, None;
      prevCamera := NO_CAMERA;
      accCamKey := CameraKey(0.0, 0.0, 0.0, 0.0, 0.0, 0.0);
      accSceneKey := SceneKey(0, 0, []);
      giDenoise, giReproject, giDebug, emptySkip := true, true, false, true;
      denoiseReady, screen := ready, size;
      accumA := new Sample[size.w * size.h](_ => Sample(BLACK, 0.0));
      accumB := new Sample[size.w * size.h](_ => Sample(BLACK, 0.0));
      hitPosA := new Surface[size.w * size.h](_ => NO_SURFACE);
      hitPosB := new Surface[size.w * size.h](_ => NO_SURFACE);
      frames, epoch, stampA, stampB, tally := 0, 0, None, None, Tally([], []);
    }

    // An edit of the voxels, or a toggle of the way samples are computed.
    method Restart()
      requires Valid()
      modifies this`accumFrame, this`accHave, this`epoch
      ensures Valid() && accumFrame == 0 && !accHave && epoch == old(epoch) + 1
    {
      accumFrame := 0;
      accHave := false;
      epoch := epoch + 1;
    }

    method SetGiDenoise(enabled: bool)
      requires Valid()
      modifies this`giDenoise, this`accumFrame, this`accHave, this`epoch
      ensures Valid() && SwitchesNow() == old(SwitchesNow()).(denoise := enabled)
      ensures if enabled == old(giDenoise)
              then accHave == old(accHave) && accumFrame == old(accumFrame) && epoch == old(epoch)
              else !accHave && accumFrame == 0 && epoch == old(epoch) + 1
    {
      if giDenoise == enabled { return; }
      giDenoise := enabled;
      Restart();
    }

    method SetGiReproject(enabled: bool)
      requires Valid()
      modifies this`giReproject, this`accumFrame, this`accHave, this`epoch
      ensures Valid() && SwitchesNow() == old(SwitchesNow()).(reproject := enabled)
      ensures if enabled == old(giReproject)
              then accHave == old(accHave) && accumFrame == old(accumFrame) && epoch == old(epoch)
              else !accHave && accumFrame == 0 && epoch == old(epoch) + 1
    {
      if giReproject == enabled { return; }
      giReproject := enabled;
      Restart();
    }

    method SetEmptySpaceSkip(enabled: bool)
      requires Valid()
      modifies this`emptySkip, this`accumFrame, this`accHave, this`epoch
      ensures Valid() && SwitchesNow() == old(SwitchesNow()).(skip := enabled)
      ensures if enabled == old(emptySkip)
              then accHave == old(accHave) && accumFrame == old(accumFrame) && epoch == old(epoch)
              else !accHave && accumFrame == 0 && epoch == old(epoch) + 1
    {
      if emptySkip == enabled { return; }
      emptySkip := enabled;
      Restart();
    }

    method SetGiDebug(enabled: bool)
      requires Valid()
      modifies this`giDebug, this`accumFrame, this`accHave, this`epoch
      ensures Valid() && SwitchesNow() == old(SwitchesNow()).(debug := enabled)
      ensures if enabled == old(giDebug)
              then accHave == old(accHave) && accumFrame == old(accumFrame) && epoch == old(epoch)
              else !accHave && accumFrame == 0 && epoch == old(epoch) + 1
    {
      if giDebug == enabled { return; }
      giDebug := enabled;
      Restart();
    }

    // The view the coming frame projects into: the previous frame's, or its own if it is the first.
    function ViewRead(own: View): View
      reads this
    {
      if prevVP.Some? then prevVP.value else own
    }

    // The camera of that view.
    ghost function CameraRead(own: Camera): Camera
      reads this
    {
      if prevVP.Some? then prevCamera else own
    }

    // Accumulation counter and history cap of the coming frame.
    method Advance(cam: CameraKey, scene: SceneKey, historyCeiling: int, root: real -> real) returns (histMax: real)
      requires Valid() && IsRoot(root)
      modifies this`accumFrame, this`accCamKey, this`accSceneKey, this`accHave
      ensures accHave && accCamKey == cam && accSceneKey == scene && accumFrame < UINT_RANGE && histMax >= 0.0
      ensures
        var sceneSame, camSame := old(accHave) && scene == old(accSceneKey), old(accHave) && cam == old(accCamKey);
        && accumFrame == (if scene.lightingMode == 1 && sceneSame && (camSame || giReproject || giDenoise)
                          then (old(accumFrame) + 1) % 4294967296 else 0)
        && CapRule(scene.lightingMode == 1 && sceneSame && !camSame, giReproject, giDenoise, historyCeiling, cam,
                   old(accCamKey), histMax)
        && (camSame ==> histMax == KEEP_STILL)
    {
      var sceneSame := accHave && scene == accSceneKey;
      var camSame := accHave && cam == accCamKey;
      var motion := MotionOf(root, cam, accCamKey);
      MotionIsMoved(root, cam, accCamKey);
      hide Motion, CameraStep2, MotionOf, MovedBy, TrustInMotion, IsRoot;
      histMax := KEEP_STILL;
      if scene.lightingMode != 1 {
        accumFrame := 0;
      } else if !sceneSame {
        accumFrame := 0;
      } else if camSame {
        accumFrame := (accumFrame + 1) % UINT_RANGE;
      } else if giReproject {
        accumFrame := (accumFrame + 1) % UINT_RANGE;
        var ceiling := Max(8, historyCeiling) as real;
        histMax := MaxR(8.0, ceiling / (1.0 + motion * 4.0));
        ShrunkCeiling(historyCeiling, motion, histMax);
      } else if giDenoise {
        accumFrame := (accumFrame + 1) % UINT_RANGE;
        var alpha := MinR(0.45, 0.15 + motion);
        histMax := 1.0 / alpha - 1.0;
        CapFromAlpha(historyCeiling, motion, alpha, histMax);
      } else {
        accumFrame := 0;
      }
      accCamKey := cam;
      accSceneKey := scene;
      accHave := true;
    }

    // The draw of a QUALITY frame: fills the current buffers, reading only the previous ones.
    method Draw(multipass: bool, cap: real, v: View, inputs: seq<PixelInput>, filtered: seq<Sample>)
      requires Shape() && |inputs| == |filtered| == screen.w * screen.h && cap >= 0.0
      requires forall p :: 0 <= p < |filtered| ==> filtered[p].a >= 0.0
      requires accumFrame != 0 ==> ExactMeans(Previous()[..], tally.runs, tally.exact)
      modifies this`tally, Current(), CurrentHits()
      ensures ExactMeans(Current()[..], tally.runs, tally.exact) && CurrentHits()[..] == SurfacesOf(inputs)
      ensures !multipass ==>
        SinglePass(accumFrame, giReproject, v, screen, cap, inputs, old(Readable()), Writable(), old(tally), tally)
    {
      hide ExactMeans, NextRuns, NextExact, Shaded, Sources;
      var cur, prev, hits := Current(), Previous(), PreviousHits();
      if multipass {
        WriteAll(cur, filtered);
        NothingExact(filtered);
        tally := Tally(seq(|filtered|, _ => []), seq(|filtered|, _ => false));
      } else {
        ghost var sources, cols := Sources(giReproject, v, screen, hits[..], inputs), SamplesOf(inputs);
        ShadePixels(cur, prev, hits, accumFrame, giReproject, v, screen, cap, inputs, tally);
        ExactMeansKept(accumFrame, sources, cap, cols, prev[..], cur[..], tally.runs, tally.exact);
        tally := Tally(NextRuns(accumFrame, sources, cols, tally.runs),
                       NextExact(accumFrame, sources, cap, tally.runs, tally.exact));
      }
      WriteAll(CurrentHits(), SurfacesOf(inputs));
    }

    // One frame.
    method RenderFrame(shot: Shot, root: real -> real) returns (histMax: real, multipass: bool)
      requires Valid() && ShotFits(shot, screen) && IsRoot(root)
      modifies this, Current(), CurrentHits()
      ensures Valid() && accHave && frames == old(frames) + 1 && epoch == old(epoch)
      ensures accumPair == 1 - old(accumPair) && accCamKey == shot.cam && accSceneKey == shot.scene
      ensures prevVP == Some(ViewOf(shot.camera)) && prevCamera == shot.camera && SwitchesNow() == old(SwitchesNow())
      ensures CapRule(shot.scene.lightingMode == 1 && old(accHave) && shot.scene == old(accSceneKey)
                        && shot.cam != old(accCamKey),
                      giReproject, giDenoise, shot.ceiling, shot.cam, old(accCamKey), histMax)
      ensures histMax >= 0.0 && (old(accHave) && shot.cam == old(accCamKey) ==> Cap(giDenoise, histMax) == KEEP_STILL)
      ensures multipass == (denoiseReady && shot.scene.giDenoiser != 0 && shot.scene.lightingMode == 1)
      ensures accumFrame == (if shot.scene.lightingMode == 1 && old(accHave) && shot.scene == old(accSceneKey)
                                && (shot.cam == old(accCamKey) || giReproject || giDenoise)
                             then (old(accumFrame) + 1) % 4294967296 else 0)
      // History is read only from the buffer the previous frame wrote, under the same scene key
      // and with no edit or toggle in between.
      ensures shot.scene.lightingMode == 1 && accumFrame != 0 ==>
        old(frames) > 0 && old(PreviousStamp()) == Some(Stamp(old(frames) - 1, shot.scene, epoch))
      // A QUALITY frame records the surfaces it saw; a single pass blends each sample into the
      // history of the pixel reprojection names.
      ensures shot.scene.lightingMode == 1 ==> Readable().surfaces == SurfacesOf(shot.pixels)
      ensures shot.scene.lightingMode == 1 && !multipass ==>
        SinglePass(accumFrame, giReproject, old(ViewRead(ViewOf(shot.camera))), screen, Cap(giDenoise, histMax),
                   shot.pixels, old(Readable()), Readable(), old(tally), tally)
      // So whose history a pixel takes up is settled by what was seen.
      ensures shot.scene.lightingMode == 1 && !multipass ==>
        if giReproject
        then FollowsSurfaces(accumFrame, old(CameraRead(shot.camera)), screen, if giDenoise then histMax else 2048.0,
                             shot.pixels, old(Readable()), Readable())
        else FollowsPixels(accumFrame, if giDenoise then histMax else 2048.0, shot.pixels, old(Readable()), Readable())
    {
      hide ExactMeans, SinglePass, FollowsSurfaces, FollowsPixels, IsRoot, ViewOf, SurfacesOf, CapRule;
      ghost var was, t, c, v := Readable(), tally, CameraRead(shot.camera), ViewRead(ViewOf(shot.camera));
      histMax, multipass := Fill(shot, root);
      accumPair := 1 - accumPair;
      frames := frames + 1;
      if shot.scene.lightingMode == 1 && !multipass {
        SinglePassFollows(accumFrame, giReproject, c, screen, Cap(giDenoise, histMax), shot.pixels, was, Readable(), t,
                          tally);
      }
    }

    // The frame up to the moment when the buffers change places.
    method Fill(shot: Shot, root: real -> real) returns (histMax: real, multipass: bool)
      requires Valid() && ShotFits(shot, screen) && IsRoot(root)
      modifies this`accumFrame, this`accHave, this`accCamKey, this`accSceneKey, this`prevVP, this`prevCamera
      modifies this`tally, this`stampA, this`stampB
      modifies Current(), CurrentHits()
      ensures accHave && accCamKey == shot.cam && accSceneKey == shot.scene && accumFrame < UINT_RANGE
      ensures prevVP == Some(ViewOf(shot.camera)) && prevCamera == shot.camera
      ensures CapRule(shot.scene.lightingMode == 1 && old(accHave) && shot.scene == old(accSceneKey)
                        && shot.cam != old(accCamKey),
                      giReproject, giDenoise, shot.ceiling, shot.cam, old(accCamKey), histMax)
      ensures histMax >= 0.0 && (old(accHave) && shot.cam == old(accCamKey) ==> Cap(giDenoise, histMax) == KEEP_STILL)
      ensures multipass == (denoiseReady && shot.scene.giDenoiser != 0 && shot.scene.lightingMode == 1)
      ensures accumFrame == (if shot.scene.lightingMode == 1 && old(accHave) && shot.scene == old(accSceneKey)
                                && (shot.cam == old(accCamKey) || giReproject || giDenoise)
                             then (old(accumFrame) + 1) % 4294967296 else 0)
      ensures shot.scene.lightingMode == 1 ==>
        && (if accumPair == 0 then stampA else stampB) == Some(Stamp(frames, shot.scene, epoch))
        && ExactMeans(Current()[..], tally.runs, tally.exact) && CurrentHits()[..] == SurfacesOf(shot.pixels)
      ensures shot.scene.lightingMode == 1 && !multipass ==>
        SinglePass(accumFrame, giReproject, old(ViewRead(ViewOf(shot.camera))), screen, Cap(giDenoise, histMax),
                   shot.pixels, old(Readable()), Writable(), old(tally), tally)
    {
      hide ExactMeans, SinglePass, IsRoot, ViewOf, SurfacesOf, CapRule;
      var v := ViewRead(ViewOf(shot.camera));
      prevVP := Some(ViewOf(shot.camera));
      prevCamera := shot.camera;
      histMax := Advance(shot.cam, shot.scene, shot.ceiling, root);
      multipass := denoiseReady && shot.scene.giDenoiser != 0 && shot.scene.lightingMode == 1;
      if shot.scene.lightingMode == 1 {
        Draw(multipass, Cap(giDenoise, histMax), v, shot.pixels, shot.filtered);
        Sign(Stamp(frames, shot.scene, epoch));
      }
    }

    // Notes who wrote the current buffers.
    ghost method Sign(s: Stamp)
      modifies this`stampA, this`stampB
      ensures if accumPair == 0 then stampA == Some(s) && stampB == old(stampB)
              else stampB == Some(s) && stampA == old(stampA)
    {
      if accumPair == 0 {
        stampA := Some(s);
      } else {
        stampB := Some(s);
      }
    }
  }

  // The per-pixel cap handed to the shader.
  function Cap(giDenoise: bool, histMax: real): (cap: real)
    ensures cap >= 0.0
  {
    if giDenoise then MaxR(histMax, 0.0) else KEEP_STILL
  }

  method ShadePixels(cur: array<Sample>, prev: array<Sample>, hits: array<Surface>, accumFrame: nat, reproject: bool,
                     v: View, s: Screen, cap: real, inputs: seq<PixelInput>, ghost t: Tally)
    requires cur != prev && cur.Length == prev.Length == hits.Length == |inputs| == s.w * s.h && cap >= 0.0
    requires accumFrame != 0 ==> ExactMeans(prev[..], t.runs, t.exact)
    modifies cur
    ensures Shaded(accumFrame, Sources(reproject, v, s, hits[..], inputs), cap, SamplesOf(inputs), prev[..], cur[..])
  {
    hide HistorySource;
    ghost var sources := Sources(reproject, v, s, hits[..], inputs);
    for p := 0 to cur.Length
      invariant prev[..] == old(prev[..]) && hits[..] == old(hits[..])
      invariant forall q :: 0 <= q < p ==> ShadedPixel(accumFrame, sources[q], cap, inputs[q].col, prev[..], cur[q])
    {
      var source := HistorySource(reproject, v, s, hits[..], p, inputs[p]);
      var hist := if source.Some? then prev[source.value] else Sample(BLACK, 0.0);
      var n := if accumFrame == 0 || source.None? then 0.0 else MinR(hist.a, cap);
      cur[p] := Blend(hist, n, inputs[p].col);
    }
  }

  method WriteAll<T>(cur: array<T>, values: seq<T>)
    requires cur.Length == |values|
    modifies cur
    ensures cur[..] == values
  {
    for p := 0 to cur.Length
      invariant forall q :: 0 <= q < p ==> cur[q] == values[q]
    {
      cur[p] := values[p];
    }
  }

  function MotionOf(root: real -> real, a: CameraKey, b: CameraKey): (m: real)
    requires IsRoot(root)
    ensures m >= 0.0
  {
    StepNotNegative(a, b);
    Motion(root(CameraStep2(a, b)), a, b)
  }

  lemma StepNotNegative(a: CameraKey, b: CameraKey)
    ensures CameraStep2(a, b) >= 0.0
  {
  }

  lemma MotionIsMoved(root: real -> real, a: CameraKey, b: CameraKey)
    requires IsRoot(root)
    ensures MovedBy(a, b, MotionOf(root, a, b))
  {
    StepNotNegative(a, b);
    var way, yaw, pitch := root(CameraStep2(a, b)), AbsR(a.yaw - b.yaw), AbsR(a.pitch - b.pitch);
    var fov := AbsR(a.fov - b.fov);
    assert WayBetween(a, b, way);
    assert AngleBetween(a.yaw, b.yaw, yaw) && AngleBetween(a.pitch, b.pitch, pitch) && AngleBetween(a.fov, b.fov, fov);
  }

  lemma ShrunkCeiling(historyCeiling: int, motion: real, histMax: real)
    requires motion >= 0.0
    requires histMax == MaxR(8.0, Max(8, historyCeiling) as real / (1.0 + motion * 4.0))
    ensures histMax >= 0.0 && TrustInMotion(true, historyCeiling, motion, histMax)
  {
    var c, shrink := Max(8, historyCeiling) as real, 1.0 + 4.0 * motion;
    var shrunk := c / shrink;
    GrownBack(c, shrink);
    hide Mul;
  }

  lemma GrownBack(c: real, shrink: real)
    requires shrink >= 1.0
    ensures Mul(c / shrink, shrink) == c && (c / shrink < 8.0 ==> Mul(8.0, shrink) >= c)
  {
    var shrunk := c / shrink;
    assert shrunk * shrink == c;
    assert shrunk < 8.0 ==> (8.0 - shrunk) * shrink >= 0.0;
    assert 8.0 * shrink - shrunk * shrink == (8.0 - shrunk) * shrink;
  }

  lemma CapFromAlpha(historyCeiling: int, motion: real, alpha: real, histMax: real)
    requires motion >= 0.0 && alpha == MinR(0.45, 0.15 + motion) && histMax == 1.0 / alpha - 1.0
    ensures histMax >= 0.0 && TrustInMotion(false, historyCeiling, motion, histMax)
  {
    assert 1.0 / alpha >= 1.0;
    assert Mul(alpha, histMax + 1.0) == 1.0;
  }
}
