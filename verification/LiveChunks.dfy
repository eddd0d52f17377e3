// The list of live debris chunks: how it matches the body pool, and what a frame does to it.
module LiveChunks {
  import opened Grid
  import opened Vectors
  import opened Rotation
  import opened Terrain
  import opened Bricks
  import opened Physics
  import opened DebrisChunks
  import opened Overlay
  import opened Repaint

  // Live chunks have distinct bodies, and these are exactly the acquired slots of the pool.
  ghost predicate IdsMatch(live: seq<DebrisChunk>, d: seq<Body>) {
    && (forall i, j :: 0 <= i < j < |live| ==> live[i].id != live[j].id)
    && (forall id :: id in InUse(d) <==> exists i :: 0 <= i < |live| && live[i].id == id)
  }

  // Among other things, no chunk is older than twelve seconds.
  ghost predicate ChunksValid(live: seq<DebrisChunk>) {
    forall i :: 0 <= i < |live| ==>
      && ChunkShape(live[i]) && live[i].solidCount > 0 && live[i].age <= 12.0
      && (live[i].hasPrev ==> BoxInGrid(live[i].prev))
  }

  lemma LiveCount(live: seq<DebrisChunk>, d: seq<Body>)
    requires IdsMatch(live, d)
    ensures |live| == |InUse(d)|
  {
    var ids := seq(|live|, i requires 0 <= i < |live| => live[i].id);
    DistinctSize(ids);
    assert forall i :: 0 <= i < |live| ==> live[i].id == ids[i];
    assert (set id | id in ids) == InUse(d);
  }

  lemma IdsInUse(live: seq<DebrisChunk>, d: seq<Body>)
    requires IdsMatch(live, d)
    ensures forall i :: 0 <= i < |live| ==> live[i].id in InUse(d) && Slot(d, live[i].id)
  {
  }

  // Every live chunk has a simulated body with a proper pose.
  lemma BodiesAreLive(live: seq<DebrisChunk>, d: seq<Body>, free: seq<int>)
    requires IdsMatch(live, d) && PoolValid(d, free)
    ensures forall i :: 0 <= i < |live| ==> Slot(d, live[i].id) && Live(d[live[i].id]) && Unit(d[live[i].id].pose)
  {
    IdsInUse(live, d);
    hide Unit, FreeListExact, IdsMatch;
  }

  lemma IdsMatchAdd(was: seq<DebrisChunk>, d: seq<Body>, d': seq<Body>, t: DebrisChunk)
    requires IdsMatch(was, d) && t.id !in InUse(d) && InUse(d') == InUse(d) + {t.id}
    ensures IdsMatch(was + [t], d')
  {
    hide InUse;
    var now := was + [t];
    forall id | id in InUse(d')
      ensures exists i :: 0 <= i < |now| && now[i].id == id
    {
      if id == t.id {
        assert now[|was|].id == id;
      } else {
        var i :| 0 <= i < |was| && was[i].id == id;
        assert now[i].id == id;
      }
    }
  }

  // Bodies of the given chunks are left alone.
  ghost predicate KeepsBodies(live: seq<DebrisChunk>, d: seq<Body>, d': seq<Body>) {
    forall i :: 0 <= i < |live| && Slot(d, live[i].id) ==> Slot(d', live[i].id) && d'[live[i].id] == d[live[i].id]
  }

  lemma OthersKept(live: seq<DebrisChunk>, d: seq<Body>, d': seq<Body>, id: int)
    requires IdsMatch(live, d) && id !in InUse(d) && |d| <= |d'|
    requires forall i :: 0 <= i < |d| && i != id ==> d'[i] == d[i]
    ensures KeepsBodies(live, d, d')
  {
  }

  lemma KeepsTrans(base: seq<DebrisChunk>, live: seq<DebrisChunk>, d: seq<Body>, d': seq<Body>, d'': seq<Body>)
    requires base <= live && KeepsBodies(base, d, d') && SlotsStable(d, d') && SlotsStable(d', d'')
    requires KeepsBodies(live, d', d'')
    ensures KeepsBodies(base, d, d'') && SlotsStable(d, d'')
  {
  }

  // ------------------------------------------------------------------------------------------
  // Culling
  // ------------------------------------------------------------------------------------------

  const KILL_Y: real := -2.0
  const TTL_SECONDS: real := 12.0

  // Below the kill plane, out of time, or without a body.
  predicate Doomed(t: DebrisChunk, d: seq<Body>, dt: real) {
    !Slot(d, t.id) || !Live(d[t.id]) || d[t.id].pose.py < KILL_Y || t.age + dt > TTL_SECONDS
  }

  function Survivors(live: seq<DebrisChunk>, d: seq<Body>, dt: real): seq<DebrisChunk> {
    if live == [] then []
    else
      var last := live[|live| - 1];
      Survivors(live[..|live| - 1], d, dt) + if Doomed(last, d, dt) then [] else [last.(age := last.age + dt)]
  }

  // A live chunk of that body and age.
  ghost predicate Aged(live: seq<DebrisChunk>, id: nat, age: real) {
    exists i :: 0 <= i < |live| && live[i].id == id && live[i].age == age
  }

  // The body is alive and has not fallen more than two units below the ground.
  ghost predicate Upheld(d: seq<Body>, id: nat) {
    Slot(d, id) && Live(d[id]) && d[id].pose.py >= -2.0
  }

  // What a frame of dt seconds leaves of the chunks: those whose bodies are upheld and that are not
  // older than twelve seconds by now.
  ghost predicate OutlastFrame(was: seq<DebrisChunk>, d: seq<Body>, dt: real, now: seq<DebrisChunk>) {
    forall id, age :: Aged(now, id, age) <==> Aged(was, id, age - dt) && Upheld(d, id) && age <= 12.0
  }

  lemma {:induction false} SurvivorsOutlast(live: seq<DebrisChunk>, d: seq<Body>, dt: real)
    ensures OutlastFrame(live, d, dt, Survivors(live, d, dt))
  {
    if live != [] {
      var init, last := live[..|live| - 1], live[|live| - 1];
      SurvivorsOutlast(init, d, dt);
      forall id, age
        ensures Aged(live, id, age - dt) <==> Aged(init, id, age - dt) || (last.id == id && last.age == age - dt)
        ensures Aged(Survivors(live, d, dt), id, age) <==>
          Aged(Survivors(init, d, dt), id, age) || (!Doomed(last, d, dt) && last.id == id && last.age + dt == age)
      {
        AgedAppend(init, last, id, age - dt);
        AgedAppend(Survivors(init, d, dt), last.(age := last.age + dt), id, age);
        assert init + [last] == live;
        assert Survivors(init, d, dt) + [] == Survivors(init, d, dt);
      }
      hide Survivors, Aged;
    }
  }

  lemma AgedAppend(live: seq<DebrisChunk>, t: DebrisChunk, id: nat, age: real)
    ensures Aged(live + [t], id, age) <==> Aged(live, id, age) || (t.id == id && t.age == age)
  {
    if Aged(live, id, age) {
      var i :| 0 <= i < |live| && live[i].id == id && live[i].age == age;
      assert (live + [t])[i].id == id;
    }
    assert (live + [t])[|live|] == t;
  }

  // Drawing the survivors changes neither their bodies nor their ages.
  lemma DrawnOutlast(was: seq<DebrisChunk>, d: seq<Body>, dt: real, jobs: seq<DebrisChunk>, now: seq<Body>, m: Voxels)
    requires FrameJobs(Survivors(was, d, dt), jobs, now, m)
    ensures OutlastFrame(was, d, dt, AllFinished(jobs))
  {
    var live, done := Survivors(was, d, dt), AllFinished(jobs);
    SurvivorsOutlast(was, d, dt);
    hide Survivors;
    forall i | 0 <= i < |live|
      ensures done[i].id == live[i].id && done[i].age == live[i].age
    {
      assert JobOf(live[i], jobs[i], now, m);
    }
    forall id, age
      ensures Aged(done, id, age) <==> Aged(live, id, age)
    {
    }
  }

  // Seconds that passed in the first n frames.
  function Elapsed(dts: seq<real>, n: nat): real
    requires n <= |dts|
  {
    if n == 0 then 0.0 else Elapsed(dts, n - 1) + dts[n - 1]
  }

  // Over any number of frames in which nothing new breaks off, a chunk is still there if and only if
  // its body was upheld in every frame and no more than twelve seconds have passed since it broke off.
  lemma {:induction false} LifeSpan(lives: seq<seq<DebrisChunk>>, bodies: seq<seq<Body>>, dts: seq<real>, n: nat,
                                    id: nat, age: real)
    requires n < |lives| == |bodies| + 1 == |dts| + 1
    requires forall i :: 0 <= i < n ==> dts[i] >= 0.0 && OutlastFrame(lives[i], bodies[i], dts[i], lives[i + 1])
    ensures Aged(lives[n], id, age) <==>
      Aged(lives[0], id, age - Elapsed(dts, n)) && (forall i :: 0 <= i < n ==> Upheld(bodies[i], id))
        && (n > 0 ==> age <= 12.0)
  {
    if n > 0 {
      LifeSpan(lives, bodies, dts, n - 1, id, age - dts[n - 1]);
      hide Aged, Upheld;
      assert OutlastFrame(lives[n - 1], bodies[n - 1], dts[n - 1], lives[n]);
      assert age - dts[n - 1] - Elapsed(dts, n - 1) == age - Elapsed(dts, n);
    }
  }

  // A doomed chunk's box goes back to terrain; every other cell stays.
  ghost predicate CulledCells(was: seq<Word>, now: seq<Word>, m: Voxels, live: seq<DebrisChunk>, d: seq<Body>,
                              dt: real) {
    && VoxelSized(was) && VoxelSized(now)
    && forall c :: InGrid(c) ==>
         Peek(now, WORLD_DIM, c) == if InDoomed(live, d, dt, c) then At(m, c) else Peek(was, WORLD_DIM, c)
  }

  ghost predicate InDoomed(live: seq<DebrisChunk>, d: seq<Body>, dt: real, c: Cell) {
    exists i :: 0 <= i < |live| && Doomed(live[i], d, dt) && live[i].hasPrev && InBox(live[i].prev, c)
  }

  // Removing a chunk and giving its body back.
  lemma IdsMatchDrop(live: seq<DebrisChunk>, d: seq<Body>, d': seq<Body>, k: nat)
    requires IdsMatch(live, d) && k < |live| && InUse(d') == InUse(d) - {live[k].id}
    ensures IdsMatch(live[..k] + live[k + 1..], d')
  {
    hide InUse;
    var rest := live[..k] + live[k + 1..];
    forall id
      ensures id in InUse(d') <==> exists i :: 0 <= i < |rest| && rest[i].id == id
    {
      if id in InUse(d') {
        var i :| 0 <= i < |live| && live[i].id == id;
        assert rest[if i < k then i else i - 1].id == id;
      }
      if i :| 0 <= i < |rest| && rest[i].id == id {
        assert live[if i < k then i else i + 1].id == id && live[k].id != id;
      }
    }
  }

  lemma IdsMatchSame(live: seq<DebrisChunk>, live': seq<DebrisChunk>, d: seq<Body>)
    requires IdsMatch(live, d) && |live| == |live'| && forall i :: 0 <= i < |live| ==> live'[i].id == live[i].id
    ensures IdsMatch(live', d)
  {
    hide InUse;
    forall id
      ensures id in InUse(d) <==> exists i :: 0 <= i < |live'| && live'[i].id == id
    {
      if id in InUse(d) {
        var i :| 0 <= i < |live| && live[i].id == id;
        assert live'[i].id == id;
      }
      if i :| 0 <= i < |live'| && live'[i].id == id {
        assert live[i].id == id;
      }
    }
  }

  // ------------------------------------------------------------------------------------------
  // The culling loop: `k` chunks were looked at, those that survived stand before the others
  // ------------------------------------------------------------------------------------------

  ghost predicate Culling(was: seq<DebrisChunk>, d: seq<Body>, dt: real, live: seq<DebrisChunk>, now: seq<Body>, k: nat,
                          i: nat) {
    && k <= |was| && i == |Survivors(was[..k], d, dt)| && live == Survivors(was[..k], d, dt) + was[k..]
    && ChunksValid(live) && IdsMatch(live, now)
    && |now| == |d| && SlotsStable(d, now) && KeepsBodies(live, d, now)
  }

  lemma CullingStart(was: seq<DebrisChunk>, d: seq<Body>, dt: real)
    requires ChunksValid(was) && IdsMatch(was, d)
    ensures Culling(was, d, dt, was, d, 0, 0)
  {
    assert was[..0] == [] && Survivors(was[..0], d, dt) + was[0..] == was;
  }

  lemma CullingEnd(was: seq<DebrisChunk>, d: seq<Body>, dt: real, live: seq<DebrisChunk>, now: seq<Body>, k: nat,
                   i: nat)
    requires Culling(was, d, dt, live, now, k, i) && i >= |live|
    ensures k == |was|
    ensures live == Survivors(was, d, dt) && ChunksValid(live) && IdsMatch(live, now)
    ensures |now| == |d| && SlotsStable(d, now) && KeepsBodies(live, d, now)
  {
    assert was[..|was|] == was && was[|was|..] == [];
  }

  lemma CullingHere(was: seq<DebrisChunk>, d: seq<Body>, dt: real, live: seq<DebrisChunk>, now: seq<Body>, k: nat,
                    i: nat)
    requires Culling(was, d, dt, live, now, k, i) && i < |live|
    ensures k < |was| && live[i] == was[k] && ChunksValid(live) && IdsMatch(live, now)
    ensures live[i].id in InUse(now) && Slot(now, live[i].id)
    ensures Doomed(was[k], now, dt) <==> Doomed(was[k], d, dt)
  {
    IdsInUse(live, now);
    assert was[k..][0] == was[k];
  }

  lemma CullingKeep(was: seq<DebrisChunk>, d: seq<Body>, dt: real, live: seq<DebrisChunk>, now: seq<Body>, k: nat,
                    i: nat)
    requires Culling(was, d, dt, live, now, k, i) && i < |live|
    requires k < |was| && !Doomed(was[k], d, dt)
    ensures live[i] == was[k]
    ensures Culling(was, d, dt, live[i := was[k].(age := was[k].age + dt)], now, k + 1, i + 1)
  {
    var live' := live[i := was[k].(age := was[k].age + dt)];
    SurvivorsStep(was, d, dt, k);
    assert was[k..] == [was[k]] + was[k + 1..];
    assert live' == Survivors(was[..k + 1], d, dt) + was[k + 1..];
    hide Survivors;
    IdsMatchSame(live, live', now);
  }

  lemma SurvivorsStep(was: seq<DebrisChunk>, d: seq<Body>, dt: real, k: nat)
    requires k < |was|
    ensures Survivors(was[..k + 1], d, dt) ==
      Survivors(was[..k], d, dt) + if Doomed(was[k], d, dt) then [] else [was[k].(age := was[k].age + dt)]
  {
    assert was[..k + 1][..k] == was[..k];
  }

  lemma CullingDrop(was: seq<DebrisChunk>, d: seq<Body>, dt: real, live: seq<DebrisChunk>, now: seq<Body>,
                    now': seq<Body>, k: nat, i: nat)
    requires Culling(was, d, dt, live, now, k, i) && i < |live|
    requires k < |was| && Doomed(was[k], d, dt) && |now'| == |now| && InUse(now') == InUse(now) - {was[k].id}
    requires SlotsStable(now, now')
    requires forall j :: 0 <= j < |now| && j != was[k].id ==> now'[j] == now[j]
    ensures live[i] == was[k]
    ensures Culling(was, d, dt, live[..i] + live[i + 1..], now', k + 1, i)
  {
    var live' := live[..i] + live[i + 1..];
    SurvivorsStep(was, d, dt, k);
    assert was[k..] == [was[k]] + was[k + 1..];
    assert live' == Survivors(was[..k + 1], d, dt) + was[k + 1..];
    hide Survivors;
    IdsMatchDrop(live, now, now', i);
    forall j | 0 <= j < |live'|
      ensures live'[j].id != was[k].id && live'[j] in live
    {
      assert live'[j] == live[if j < i then j else j + 1];
    }
  }

  // The grid while culling: the doomed chunks among the first k are gone from it.
  ghost predicate GridCulling(g: seq<Word>, g': seq<Word>, m: Voxels, was: seq<DebrisChunk>, d: seq<Body>, dt: real,
                              live: seq<DebrisChunk>, k: nat) {
    k <= |was| && CulledCells(g, g', m, was[..k], d, dt) && Consistent(g', m, live)
  }

  lemma GridStart(g: seq<Word>, m: Voxels, was: seq<DebrisChunk>, d: seq<Body>, dt: real)
    requires Consistent(g, m, was)
    ensures GridCulling(g, g, m, was, d, dt, was, 0)
  {
  }

  lemma InDoomedStep(was: seq<DebrisChunk>, d: seq<Body>, dt: real, k: nat, c: Cell)
    requires k < |was|
    ensures InDoomed(was[..k + 1], d, dt, c) <==>
      InDoomed(was[..k], d, dt, c) || (Doomed(was[k], d, dt) && was[k].hasPrev && InBox(was[k].prev, c))
  {
    var a, b := was[..k], was[..k + 1];
    hide Doomed;
    if InDoomed(b, d, dt, c) {
      var i :| 0 <= i < |b| && Doomed(b[i], d, dt) && b[i].hasPrev && InBox(b[i].prev, c);
      assert i == k || a[i] == b[i];
    }
    if InDoomed(a, d, dt, c) {
      var i :| 0 <= i < |a| && Doomed(a[i], d, dt) && a[i].hasPrev && InBox(a[i].prev, c);
      assert b[i] == a[i];
    }
    assert b[k] == was[k];
  }

  lemma GridKeep(g: seq<Word>, g': seq<Word>, m: Voxels, was: seq<DebrisChunk>, d: seq<Body>, dt: real,
                 live: seq<DebrisChunk>, k: nat, i: nat)
    requires GridCulling(g, g', m, was, d, dt, live, k) && k < |was| && i < |live| && live[i] == was[k]
    requires !Doomed(was[k], d, dt)
    ensures GridCulling(g, g', m, was, d, dt, live[i := was[k].(age := was[k].age + dt)], k + 1)
  {
    AgeingKeeps(g', m, live, i, was[k].age + dt);
    hide Consistent, Doomed, InDoomed;
    forall c | InGrid(c)
      ensures InDoomed(was[..k + 1], d, dt, c) <==> InDoomed(was[..k], d, dt, c)
    {
      InDoomedStep(was, d, dt, k, c);
    }
  }

  lemma GridDrop(g: seq<Word>, g': seq<Word>, g'': seq<Word>, m: Voxels, was: seq<DebrisChunk>, d: seq<Body>, dt: real,
                 live: seq<DebrisChunk>, k: nat, i: nat)
    requires GridCulling(g, g', m, was, d, dt, live, k) && k < |was| && i < |live| && live[i] == was[k]
    requires Doomed(was[k], d, dt) && if was[k].hasPrev then Cleared(g', g'', m, was[k].prev) else g'' == g'
    ensures GridCulling(g, g'', m, was, d, dt, live[..i] + live[i + 1..], k + 1)
  {
    DropCleared(g', g'', m, live, i);
    hide Consistent, Doomed, InDoomed;
    forall c | InGrid(c)
      ensures Peek(g'', WORLD_DIM, c) == if InDoomed(was[..k + 1], d, dt, c) then At(m, c) else Peek(g, WORLD_DIM, c)
    {
      InDoomedStep(was, d, dt, k, c);
    }
  }

  lemma GridEnd(g: seq<Word>, g': seq<Word>, m: Voxels, was: seq<DebrisChunk>, d: seq<Body>, dt: real,
                live: seq<DebrisChunk>)
    requires GridCulling(g, g', m, was, d, dt, live, |was|)
    ensures CulledCells(g, g', m, was, d, dt) && Consistent(g', m, live)
  {
    assert was[..|was|] == was;
  }

  // ------------------------------------------------------------------------------------------
  // A frame's jobs
  // ------------------------------------------------------------------------------------------

  // The current box reaches every grid cell in which the chunk could show something.
  ghost predicate Covers(t: DebrisChunk) {
    forall c :: InGrid(c) && InLocal(t, LocalCell(t, t.pose, c)) ==> InBox(t.cur, c)
  }

  // The chunk with its body's pose and the box it reaches there.
  ghost predicate Aimed(t: DebrisChunk, t': DebrisChunk, d: seq<Body>) {
    && Slot(d, t.id) && t' == t.(pose := d[t.id].pose, cur := t'.cur)
    && BoxInGrid(t'.cur) && TightBox(t, t'.pose, t'.cur) && Covers(t')
  }

  // ... and with its upload buffer built.
  ghost predicate Built(t: DebrisChunk, t': DebrisChunk, m: Voxels) {
    t' == t.(region := t'.region) && RegionShows(t'.cur, t'.region, t', m)
  }

  lemma AimedHolds(t: DebrisChunk, d: seq<Body>, a: Box)
    requires Slot(d, t.id) && BoxInGrid(a) && TightBox(t, d[t.id].pose, a)
    requires forall c :: InGrid(c) && InLocal(t, LocalCell(t, d[t.id].pose, c)) ==> InBox(a, c)
    ensures Aimed(t, t.(pose := d[t.id].pose, cur := a), d)
  {
    var t' := t.(pose := d[t.id].pose, cur := a);
    forall c
      ensures LocalCell(t', t'.pose, c) == LocalCell(t, t'.pose, c)
    {
    }
    hide LocalCell, TightBox;
  }

  // The first `i` chunks have been aimed.
  ghost predicate AimedUpTo(was: seq<DebrisChunk>, live: seq<DebrisChunk>, d: seq<Body>, i: nat) {
    && i <= |was| == |live|
    && (forall j :: 0 <= j < i ==> Aimed(was[j], live[j], d)) && (forall j :: i <= j < |was| ==> live[j] == was[j])
  }

  lemma AimNext(was: seq<DebrisChunk>, live: seq<DebrisChunk>, d: seq<Body>, i: nat, t: DebrisChunk)
    requires AimedUpTo(was, live, d, i) && i < |was| && Aimed(was[i], t, d)
    ensures AimedUpTo(was, live[i := t], d, i + 1)
  {
    hide Aimed;
  }

  lemma BuiltHolds(t: DebrisChunk, region: seq<Word>, m: Voxels)
    requires RegionShows(t.cur, region, t, m)
    ensures Built(t, t.(region := region), m)
  {
    var t' := t.(region := region);
    forall c
      ensures OverlayAt(t', m, c) == OverlayAt(t, m, c)
    {
      assert LocalCell(t', t'.pose, c) == LocalCell(t, t.pose, c);
    }
    hide OverlayAt;
  }

  // A chunk's finished job: aimed at its body, built from the world.
  ghost predicate JobOf(t: DebrisChunk, j: DebrisChunk, d: seq<Body>, m: Voxels) {
    && Slot(d, t.id) && j == t.(pose := d[t.id].pose, cur := j.cur, region := j.region)
    && BoxInGrid(j.cur) && TightBox(t, j.pose, j.cur) && Covers(j) && RegionShows(j.cur, j.region, j, m)
  }

  ghost predicate FrameJobs(live: seq<DebrisChunk>, jobs: seq<DebrisChunk>, d: seq<Body>, m: Voxels) {
    |jobs| == |live| && forall i :: 0 <= i < |jobs| ==> JobOf(live[i], jobs[i], d, m)
  }

  lemma JobHolds(t: DebrisChunk, aimed: DebrisChunk, j: DebrisChunk, d: seq<Body>, m: Voxels)
    requires Aimed(t, aimed, d) && Built(aimed, j, m)
    ensures JobOf(t, j, d, m)
  {
    forall c
      ensures LocalCell(j, j.pose, c) == LocalCell(aimed, aimed.pose, c)
    {
    }
    hide LocalCell, TightBox, RegionShows;
  }

  lemma FrameJobsHold(live: seq<DebrisChunk>, aimed: seq<DebrisChunk>, jobs: seq<DebrisChunk>, d: seq<Body>, m: Voxels)
    requires |live| == |aimed| == |jobs|
    requires forall i :: 0 <= i < |live| ==> Aimed(live[i], aimed[i], d) && Built(aimed[i], jobs[i], m)
    ensures FrameJobs(live, jobs, d, m)
  {
    hide Aimed, Built, JobOf;
    forall i | 0 <= i < |jobs|
      ensures JobOf(live[i], jobs[i], d, m)
    {
      JobHolds(live[i], aimed[i], jobs[i], d, m);
    }
  }

  function AllFinished(jobs: seq<DebrisChunk>): seq<DebrisChunk> {
    seq(|jobs|, i requires 0 <= i < |jobs| => Finished(jobs[i]))
  }

  // Ready for upload.
  ghost predicate Paintable(t: DebrisChunk, m: Voxels) {
    (t.hasPrev ==> BoxInGrid(t.prev)) && BoxInGrid(t.cur) && RegionShows(t.cur, t.region, t, m)
  }

  lemma PaintableMeans(t: DebrisChunk, m: Voxels)
    requires Paintable(t, m)
    ensures (t.hasPrev ==> BoxInGrid(t.prev)) && BoxInGrid(t.cur) && RegionShows(t.cur, t.region, t, m)
  {
  }

  lemma PaintedNone(g: seq<Word>, m: Voxels, jobs: seq<DebrisChunk>)
    requires VoxelSized(g)
    ensures PaintedAll(g, g, m, jobs[..0])
  {
  }

  lemma PaintedNext(g: seq<Word>, mid: seq<Word>, now: seq<Word>, m: Voxels, jobs: seq<DebrisChunk>, i: nat)
    requires i < |jobs| && PaintedAll(g, mid, m, jobs[..i]) && PaintedOne(mid, now, m, jobs[i])
    ensures PaintedAll(g, now, m, jobs[..i + 1])
  {
    var upTo := jobs[..i + 1];
    assert upTo[..i] == jobs[..i] && upTo[i] == jobs[i];
    hide CellAfter, ChunkShape;
  }

  // After the uploads the chunks are valid again and the grid shows them.
  lemma FrameDone(live: seq<DebrisChunk>, jobs: seq<DebrisChunk>, d: seq<Body>, m: Voxels, g: seq<Word>, now: seq<Word>)
    requires ChunksValid(live) && IdsMatch(live, d) && Consistent(g, m, live)
    requires FrameJobs(live, jobs, d, m) && PaintedAll(g, now, m, jobs)
    ensures var done := AllFinished(jobs); ChunksValid(done) && IdsMatch(done, d) && Consistent(now, m, done)
  {
    forall i | 0 <= i < |jobs|
      ensures jobs[i].id == live[i].id && jobs[i].hasPrev == live[i].hasPrev && jobs[i].prev == live[i].prev
      ensures BoxInGrid(jobs[i].cur) && ChunkShape(Finished(jobs[i])) && jobs[i].solidCount == live[i].solidCount
    {
      assert JobOf(live[i], jobs[i], d, m);
    }
    hide JobOf, ChunkShape, PaintedAll, Consistent, IdsMatch;
    FrameKeepsConsistent(g, now, m, live, jobs);
    IdsMatchSame(live, AllFinished(jobs), d);
  }

  // What a finished frame shows: the last chunk that touches a cell decides it, so a chunk's voxel
  // that stands out is on show if and only if no later turn touches its cell.
  lemma FrameShows(live: seq<DebrisChunk>, jobs: seq<DebrisChunk>, d: seq<Body>, m: Voxels, g: seq<Word>,
                   now: seq<Word>, k: nat, c: Cell)
    requires FrameJobs(live, jobs, d, m) && PaintedAll(g, now, m, jobs) && InGrid(c) && k < |jobs|
    ensures Touches(jobs[k], c) && NoLaterTouch(jobs, k, c) ==>
      Peek(now, WORLD_DIM, c) == if InBox(jobs[k].cur, c) then OverlayAt(jobs[k], m, c) else At(m, c)
    ensures StandsOut(m, jobs, k, c) ==>
      (Peek(now, WORLD_DIM, c) == Sample(jobs[k], jobs[k].pose, c) <==> NoLaterTouch(jobs, k, c))
  {
    PaintedMeans(g, now, m, jobs, c);
    if StandsOut(m, jobs, k, c) {
      VoxelsAreReached(live, jobs, d, m, k, c);
    }
    var was := Peek(g, WORLD_DIM, c);
    hide *;
    if Touches(jobs[k], c) && NoLaterTouch(jobs, k, c) {
      LastTouchDecides(was, m, jobs, k, c);
    }
    if StandsOut(m, jobs, k, c) {
      ShownIffNotTouchedLater(was, m, jobs, k, c);
    }
  }

  // Every cell in which a chunk of the frame has a voxel lies in its current box.
  lemma VoxelsAreReached(live: seq<DebrisChunk>, jobs: seq<DebrisChunk>, d: seq<Body>, m: Voxels, k: nat, c: Cell)
    requires FrameJobs(live, jobs, d, m) && k < |jobs| && InGrid(c) && ChunkShape(jobs[k])
    requires Sample(jobs[k], jobs[k].pose, c) != 0
    ensures InBox(jobs[k].cur, c)
  {
    assert JobOf(live[k], jobs[k], d, m);
    hide LocalCell, TightBox, RegionShows;
  }

  // A chunk of one voxel whose body stands upright in the middle of the cell.
  ghost predicate SingleVoxel(t: DebrisChunk, d: seq<Body>, c: Cell) {
    && ChunkShape(t) && t.dx == 1 && t.dy == 1 && t.dz == 1 && t.mats[0] != 0
    && Slot(d, t.id)
    && d[t.id].pose == Pose(c.x as real + 0.5, c.y as real + 0.5, c.z as real + 0.5, 0.0, 0.0, 0.0, 1.0)
  }

  // Two such chunks next to each other over air: the padding of the second one's box wipes out the
  // first one's voxel.
  lemma PaddingHidesVoxel(live: seq<DebrisChunk>, jobs: seq<DebrisChunk>, d: seq<Body>, m: Voxels, g: seq<Word>,
                          now: seq<Word>, c: Cell)
    requires FrameJobs(live, jobs, d, m) && PaintedAll(g, now, m, jobs) && |live| == 2
    requires SingleVoxel(live[0], d, c) && SingleVoxel(live[1], d, c.(x := c.x + 1))
    requires InGrid(c) && InGrid(c.(x := c.x + 1)) && At(m, c) == 0
    ensures |jobs| == 2 && ChunkShape(jobs[0]) && Sample(jobs[0], jobs[0].pose, c) != 0
    ensures Peek(now, WORLD_DIM, c) == 0
  {
    hide FrameJobs, SingleVoxel, Sample, ChunkShape, CellAfterAll, PaintedAll, InBox;
    var next := c.(x := c.x + 1);
    SingleSample(live, jobs, d, m, 0, c, c);
    SingleSample(live, jobs, d, m, 1, next, c);
    SingleReach(live, jobs, d, m, 1, next, c);
    PaintedMeans(g, now, m, jobs, c);
    LastTouchDecides(Peek(g, WORLD_DIM, c), m, jobs, 1, c);
  }

  // Such a chunk shows its voxel in its own cell only ...
  lemma SingleSample(live: seq<DebrisChunk>, jobs: seq<DebrisChunk>, d: seq<Body>, m: Voxels, k: nat, at: Cell, c: Cell)
    requires FrameJobs(live, jobs, d, m) && k < |live| && SingleVoxel(live[k], d, at)
    ensures |jobs| == |live| && ChunkShape(jobs[k])
    ensures Sample(jobs[k], jobs[k].pose, c) != 0 <==> c == at
  {
    JobFacts(live, jobs, d, m, k);
    hide FrameJobs, TightBox, Sample;
    UprightSample(jobs[k], at, c);
  }

  // ... but its box takes in the cells next to it.
  lemma SingleReach(live: seq<DebrisChunk>, jobs: seq<DebrisChunk>, d: seq<Body>, m: Voxels, k: nat, at: Cell, c: Cell)
    requires FrameJobs(live, jobs, d, m) && k < |live| && SingleVoxel(live[k], d, at)
    requires InGrid(c) && c.y == at.y && c.z == at.z && at.x - 1 <= c.x <= at.x + 1
    ensures |jobs| == |live| && InBox(jobs[k].cur, c)
  {
    JobFacts(live, jobs, d, m, k);
    hide FrameJobs, TightBox;
    UprightBox(live[k], at, jobs[k].pose, jobs[k].cur, c);
  }

  lemma UprightBox(t: DebrisChunk, at: Cell, pose: Pose, a: Box, c: Cell)
    requires ChunkShape(t) && t.dx == 1 && t.dy == 1 && t.dz == 1 && TightBox(t, pose, a)
    requires pose == Pose(at.x as real + 0.5, at.y as real + 0.5, at.z as real + 0.5, 0.0, 0.0, 0.0, 1.0)
    requires InGrid(c) && c.y == at.y && c.z == at.z && at.x - 1 <= c.x <= at.x + 1
    ensures InBox(a, c)
  {
    UprightCorner(t, at, pose);
    hide ChunkShape, TightBox, Corner, LowSide, HighSide, InBox;
    TightSides(t, pose, a, Cell(0, 0, 0));
    TightSides(t, pose, a, Cell(1, 1, 1));
    SidesReach(a, at, c);
  }

  lemma SidesReach(a: Box, at: Cell, c: Cell)
    requires a.x0 <= LowSide(at.x as real) && a.y0 <= LowSide(at.y as real) && a.z0 <= LowSide(at.z as real)
    requires HighSide(at.x as real + 1.0) <= a.x1 && HighSide(at.y as real + 1.0) <= a.y1
    requires HighSide(at.z as real + 1.0) <= a.z1
    requires InGrid(c) && c.y == at.y && c.z == at.z && at.x - 1 <= c.x <= at.x + 1
    ensures InBox(a, c)
  {
  }

  lemma JobFacts(live: seq<DebrisChunk>, jobs: seq<DebrisChunk>, d: seq<Body>, m: Voxels, k: nat)
    requires FrameJobs(live, jobs, d, m) && k < |live|
    ensures |jobs| == |live| && Slot(d, live[k].id)
    ensures jobs[k] == live[k].(pose := d[live[k].id].pose, cur := jobs[k].cur, region := jobs[k].region)
    ensures TightBox(live[k], jobs[k].pose, jobs[k].cur)
  {
    assert JobOf(live[k], jobs[k], d, m);
    hide TightBox, Covers, RegionShows;
  }

  lemma TightSides(t: DebrisChunk, pose: Pose, a: Box, s: Cell)
    requires TightBox(t, pose, a) && InCube(2, s)
    ensures var w := Corner(t, pose, s);
      && a.x0 <= LowSide(w.x) && a.y0 <= LowSide(w.y) && a.z0 <= LowSide(w.z)
      && HighSide(w.x) <= a.x1 && HighSide(w.y) <= a.y1 && HighSide(w.z) <= a.z1
  {
    hide Corner, LowSide, HighSide;
  }

  lemma PaintedMeans(g: seq<Word>, now: seq<Word>, m: Voxels, jobs: seq<DebrisChunk>, c: Cell)
    requires PaintedAll(g, now, m, jobs) && InGrid(c)
    ensures VoxelSized(g) && VoxelSized(now) && AllShaped(jobs)
    ensures Peek(now, WORLD_DIM, c) == CellAfterAll(Peek(g, WORLD_DIM, c), m, jobs, c)
  {
  }

  lemma UprightSample(t: DebrisChunk, at: Cell, c: Cell)
    requires ChunkShape(t) && t.dx == 1 && t.dy == 1 && t.dz == 1
    requires t.pose == Pose(at.x as real + 0.5, at.y as real + 0.5, at.z as real + 0.5, 0.0, 0.0, 0.0, 1.0)
    ensures Sample(t, t.pose, c) == if c == at then t.mats[0] else 0
  {
    var v := Vec3((c.x - at.x) as real, (c.y - at.y) as real, (c.z - at.z) as real);
    NoRotation(v, t.pose.px, t.pose.py, t.pose.pz);
    hide QuatRotate, QuatRotateInv;
    assert LocalDelta(t.pose, c) == v;
    assert LocalCell(t, t.pose, c) == Cell(c.x - at.x, c.y - at.y, c.z - at.z);
  }

  lemma UprightCorner(t: DebrisChunk, at: Cell, pose: Pose)
    requires ChunkShape(t) && t.dx == 1 && t.dy == 1 && t.dz == 1
    requires pose == Pose(at.x as real + 0.5, at.y as real + 0.5, at.z as real + 0.5, 0.0, 0.0, 0.0, 1.0)
    ensures Corner(t, pose, Cell(0, 0, 0)) == Vec3(at.x as real, at.y as real, at.z as real)
    ensures Corner(t, pose, Cell(1, 1, 1)) == Vec3(at.x as real + 1.0, at.y as real + 1.0, at.z as real + 1.0)
  {
    NoRotation(CornerOffset(t, Cell(0, 0, 0)), pose.px, pose.py, pose.pz);
    NoRotation(CornerOffset(t, Cell(1, 1, 1)), pose.px, pose.py, pose.pz);
    hide QuatRotate, QuatRotateInv;
  }

  lemma UntouchedIsTerrain(live: seq<DebrisChunk>, jobs: seq<DebrisChunk>, d: seq<Body>, m: Voxels, g: seq<Word>,
                           now: seq<Word>, c: Cell)
    requires Consistent(g, m, live) && FrameJobs(live, jobs, d, m) && PaintedAll(g, now, m, jobs) && InGrid(c)
    requires forall k :: 0 <= k < |jobs| ==> !Touches(jobs[k], c)
    ensures Peek(now, WORLD_DIM, c) == At(m, c)
  {
    var was := Peek(g, WORLD_DIM, c);
    AfterAllCases(was, m, jobs, c);
    hide CellAfterAll, Sample;
    forall i | 0 <= i < |live|
      ensures !ShownBy(live[i], c, was)
    {
      assert JobOf(live[i], jobs[i], d, m) && !Touches(jobs[i], c);
    }
  }

  lemma AimedShape(was: seq<DebrisChunk>, aimed: seq<DebrisChunk>, d: seq<Body>)
    requires |was| == |aimed| && ChunksValid(was) && forall i :: 0 <= i < |was| ==> Aimed(was[i], aimed[i], d)
    ensures forall i :: 0 <= i < |aimed| ==> ChunkShape(aimed[i])
  {
    hide Covers, TightBox;
  }

  lemma BuiltPaintable(was: seq<DebrisChunk>, aimed: seq<DebrisChunk>, jobs: seq<DebrisChunk>, d: seq<Body>, m: Voxels)
    requires |was| == |aimed| == |jobs| && ChunksValid(was)
    requires forall i :: 0 <= i < |was| ==> Aimed(was[i], aimed[i], d) && Built(aimed[i], jobs[i], m)
    ensures FrameJobs(was, jobs, d, m)
    ensures forall i :: 0 <= i < |jobs| ==> Paintable(jobs[i], m)
  {
    FrameJobsHold(was, aimed, jobs, d, m);
    hide Covers, TightBox, RegionShows, FrameJobs;
  }
}
