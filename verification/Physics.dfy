// The body pool: a slot table with stable ids, tombstones and a free list of parked actors.
module Physics {
  import opened Grid

  // Position and orientation quaternion of a body.
  datatype Pose = Pose(px: real, py: real, pz: real, qx: real, qy: real, qz: real, qw: real)

  predicate Unit(p: Pose) {
    p.qx * p.qx + p.qy * p.qy + p.qz * p.qz + p.qw * p.qw == 1.0
  }

  const BOX_HALF_EXTENT: real := 0.5
  const NEW_ACTOR := Body(true, BOX_HALF_EXTENT, true, false, PARKED)
  const PARKED := Pose(0.0, -1.0e6, 0.0, 0.0, 0.0, 0.0, 1.0)

  datatype Body = Body(actor: bool, half: real, pooled: bool, inScene: bool, pose: Pose)

  datatype BodyState = BodyState(id: int, pose: Pose)

  predicate Slot(d: seq<Body>, id: int) {
    0 <= id < |d|
  }

  // Simulated: not a tombstone and not parked.
  predicate Live(b: Body) {
    b.actor && (!b.pooled || b.inScene)
  }

  predicate Parked(b: Body) {
    b.actor && b.pooled && !b.inScene
  }

  // A pooled body goes back to where it is parked, any other is destroyed.
  ghost predicate Dismissed(was: Body, now: Body) {
    if was.actor && was.pooled then
      now == if was.inScene then was.(inScene := false, pose := now.pose) else was
    else now == was.(actor := false)
  }

  // The greatest of three half extents, each of which is a half when it is not positive.
  ghost predicate IsExtent(half: real, hx: real, hy: real, hz: real) {
    && (half == hx || half == hy || half == hz || half == 0.5) && half > 0.0
    && half >= hx && half >= hy && half >= hz && ((hx <= 0.0 || hy <= 0.0 || hz <= 0.0) ==> half >= 0.5)
    && (half == 0.5 ==> hx == 0.5 || hy == 0.5 || hz == 0.5 || hx <= 0.0 || hy <= 0.0 || hz <= 0.0)
  }

  function GreatestHalf(hx: real, hy: real, hz: real): (half: real)
    ensures IsExtent(half, hx, hy, hz)
  {
    var ex := if hx <= 0.0 then BOX_HALF_EXTENT else hx;
    var ey := if hy <= 0.0 then BOX_HALF_EXTENT else hy;
    var ez := if hz <= 0.0 then BOX_HALF_EXTENT else hz;
    if ex >= ey && ex >= ez then ex else if ey >= ez then ey else ez
  }

  // Slots handed out by the pool and not yet given back.
  function InUse(d: seq<Body>): set<int> {
    set i | 0 <= i < |d| && d[i].pooled && d[i].inScene
  }

  function LiveSlots(d: seq<Body>): set<int> {
    set i | 0 <= i < |d| && Live(d[i])
  }

  function PooledSlots(d: seq<Body>): set<int> {
    set i | 0 <= i < |d| && d[i].pooled
  }

  // The free list is duplicate-free and holds exactly the parked slots.
  ghost predicate FreeListExact(d: seq<Body>, free: seq<int>) {
    && (forall i, j :: 0 <= i < j < |free| ==> free[i] != free[j])
    && (forall id :: id in free <==> Slot(d, id) && Parked(d[id]))
  }

  ghost predicate PoolValid(d: seq<Body>, free: seq<int>) {
    && FreeListExact(d, free)
    && (forall i :: 0 <= i < |d| && d[i].pooled ==> d[i].actor)
    && (forall i :: 0 <= i < |d| && d[i].actor ==> Unit(d[i].pose))
  }

  // Slots keep their number and their owner for ever.
  ghost predicate SlotsStable(d: seq<Body>, d': seq<Body>) {
    |d| <= |d'| && forall i :: 0 <= i < |d| ==> d'[i].pooled == d[i].pooled
  }

  lemma UprightIsUnit(x: real, y: real, z: real)
    ensures Unit(Pose(x, y, z, 0.0, 0.0, 0.0, 1.0))
  {
  }

  // Every pooled slot is either in use or on the free list.
  lemma PoolAccounting(d: seq<Body>, free: seq<int>)
    requires PoolValid(d, free)
    ensures |PooledSlots(d)| == |InUse(d)| + |free|
  {
    var parked := set id | id in free;
    assert PooledSlots(d) == InUse(d) + parked;
    assert InUse(d) !! parked;
    DistinctSize(free);
  }

  lemma DistinctSize(s: seq<int>)
    requires forall i, j :: 0 <= i < j < |s| ==> s[i] != s[j]
    ensures |(set id | id in s)| == |s|
  {
    if s != [] {
      var init, last := s[..|s| - 1], s[|s| - 1];
      DistinctSize(init);
      assert (set id | id in s) == (set id | id in init) + {last};
    }
  }

  lemma GrowPool(d: seq<Body>, free: seq<int>)
    requires PoolValid(d, free)
    ensures PoolValid(d + [NEW_ACTOR], free + [|d|]) && InUse(d + [NEW_ACTOR]) == InUse(d)
  {
    var d', free' := d + [NEW_ACTOR], free + [|d|];
    assert |d| !in free;
    forall id
      ensures id in free' <==> Slot(d', id) && Parked(d'[id])
    {
      assert id in free' <==> id in free || id == |d|;
    }
  }

  // Taking the last free slot into use.
  lemma TakeSlot(d: seq<Body>, free: seq<int>, b: Body)
    requires PoolValid(d, free) && free != [] && b.actor && b.pooled && b.inScene && Unit(b.pose)
    ensures var id := free[|free| - 1];
      && Slot(d, id) && Parked(d[id]) && id !in InUse(d)
      && PoolValid(d[id := b], free[..|free| - 1])
      && InUse(d[id := b]) == InUse(d) + {id}
  {
    var id, rest := free[|free| - 1], free[..|free| - 1];
    assert id in free && forall i :: i in free <==> i in rest || i == id;
    assert id !in rest;
  }

  // The pool at one moment.
  datatype PoolState = PoolState(slots: seq<Body>, free: seq<int>, left: nat)

  // How many bodies can still be had from it: parked ones, and actors yet to be made.
  function Supply(p: PoolState): nat {
    |p.free| + p.left
  }

  // The pool with one more parked actor, and with its last free slot taken.
  function Grown(p: PoolState): PoolState
    requires p.left > 0
  {
    PoolState(p.slots + [NEW_ACTOR], p.free + [|p.slots|], p.left - 1)
  }

  function Taken(p: PoolState, b: Body): PoolState
    requires p.free != [] && Slot(p.slots, p.free[|p.free| - 1])
  {
    PoolState(p.slots[p.free[|p.free| - 1] := b], p.free[..|p.free| - 1], p.left)
  }

  // A body was handed out: it was not in use before, and all others are untouched.
  ghost predicate HandedOut(p: PoolState, id: int, q: PoolState) {
    && PoolValid(q.slots, q.free) && SlotsStable(p.slots, q.slots)
    && Slot(q.slots, id) && id !in InUse(p.slots) && InUse(q.slots) == InUse(p.slots) + {id}
    && Supply(q) == Supply(p) - 1
    && forall i :: 0 <= i < |p.slots| && i != id ==> q.slots[i] == p.slots[i]
  }

  lemma TakenIsHandedOut(p: PoolState, b: Body)
    requires PoolValid(p.slots, p.free) && p.free != [] && b.actor && b.pooled && b.inScene && Unit(b.pose)
    ensures var id := p.free[|p.free| - 1]; Slot(p.slots, id) && HandedOut(p, id, Taken(p, b))
  {
    var id := p.free[|p.free| - 1];
    TakeSlot(p.slots, p.free, b);
    assert p.slots[id].pooled;
    hide PoolValid, InUse, Unit;
  }

  lemma GrownIsHandedOut(p: PoolState, b: Body)
    requires PoolValid(p.slots, p.free) && p.free == [] && p.left > 0
    requires b.actor && b.pooled && b.inScene && Unit(b.pose)
    ensures PoolValid(Grown(p).slots, Grown(p).free) && Grown(p).free == [|p.slots|]
    ensures HandedOut(p, |p.slots|, Taken(Grown(p), b))
  {
    GrowPool(p.slots, p.free);
    TakenIsHandedOut(Grown(p), b);
    hide PoolValid, InUse, Unit;
  }

  // Parking a slot that is in use.
  lemma GiveBackSlot(d: seq<Body>, free: seq<int>, id: int)
    requires PoolValid(d, free) && Slot(d, id) && d[id].pooled && d[id].inScene
    ensures var d' := d[id := d[id].(inScene := false, pose := PARKED)];
      PoolValid(d', free + [id]) && InUse(d') == InUse(d) - {id}
  {
    assert id !in free;
    assert forall i :: i in free + [id] <==> i in free || i == id;
  }

  // Destroying a body keeps the pool in order if and only if it does not belong to the pool.
  lemma RemovalKeepsPool(d: seq<Body>, free: seq<int>, id: int)
    requires PoolValid(d, free) && Slot(d, id) && d[id].actor
    ensures PoolValid(d[id := d[id].(actor := false)], free) <==> !d[id].pooled
  {
    var d' := d[id := d[id].(actor := false)];
    assert !d'[id].actor && d'[id].pooled == d[id].pooled;
    assert !d[id].pooled ==> forall i :: Slot(d, i) ==> (Parked(d'[i]) <==> Parked(d[i]));
  }

  class PhysicsWorld {
    var dynamics: seq<Body>
    var freeList: seq<int>
    // How many more actors the physics library will be able to create.
    var actorsLeft: nat

    ghost predicate Valid()
      reads this
    {
      PoolValid(dynamics, freeList)
    }

    ghost function Pool(): PoolState
      reads this
    {
      PoolState(dynamics, freeList, actorsLeft)
    }

    constructor (actors: nat)
      ensures Valid() && dynamics == [] && freeList == [] && actorsLeft == actors
    {
      dynamics, freeList, actorsLeft := [], [], actors;
    }

    // A fresh parked actor in a new slot, or -1 when the library cannot make one.
    method CreatePooledActor() returns (id: int)
      requires Valid()
      modifies this
      ensures Valid()
      ensures id == if old(actorsLeft) == 0 then -1 else |old(dynamics)|
      ensures actorsLeft == if id < 0 then 0 else old(actorsLeft) - 1
      ensures dynamics == if id < 0 then old(dynamics) else old(dynamics) + [NEW_ACTOR]
      ensures freeList == if id < 0 then old(freeList) else old(freeList) + [id]
    {
      if actorsLeft == 0 {
        return -1;
      }
      actorsLeft := actorsLeft - 1;
      id := |dynamics|;
      GrowPool(dynamics, freeList);
      dynamics := dynamics + [NEW_ACTOR];
      freeList := freeList + [id];
    }

    method CountPooled() returns (n: nat)
      ensures n == |PooledSlots(dynamics)|
    {
      n := 0;
      for i := 0 to |dynamics|
        invariant n == |PooledSlots(dynamics[..i])|
      {
        CountStep(dynamics, i);
        if dynamics[i].pooled {
          n := n + 1;
        }
      }
      assert dynamics[..|dynamics|] == dynamics;
    }

    // Grows the pool to `count` slots; it never shrinks.
    method ReservePool(count: int)
      requires Valid()
      modifies this
      ensures Valid() && SlotsStable(old(dynamics), dynamics) && old(dynamics) <= dynamics
      ensures InUse(dynamics) == InUse(old(dynamics))
      ensures |PooledSlots(dynamics)| >= count || actorsLeft == 0
      ensures |PooledSlots(dynamics)| <= Max(count, |PooledSlots(old(dynamics))|)
      ensures |PooledSlots(old(dynamics))| + old(actorsLeft) >= count ==> |PooledSlots(dynamics)| >= count
      ensures Supply(Pool()) == old(Supply(Pool()))
    {
      if count <= 0 {
        return;
      }
      var pooledTotal := CountPooled();
      var i := pooledTotal;
      while i < count
        invariant Valid() && old(dynamics) <= dynamics && i == |PooledSlots(dynamics)|
        invariant InUse(dynamics) == InUse(old(dynamics))
        invariant i <= Max(count, pooledTotal) && actorsLeft == old(actorsLeft) - (i - pooledTotal)
        invariant Supply(Pool()) == old(Supply(Pool()))
      {
        ghost var before := dynamics;
        GrowPool(dynamics, freeList);
        var id := CreatePooledActor();
        if id < 0 {
          break;
        }
        assert dynamics[..id] == before;
        CountStep(dynamics, id);
        assert dynamics[..id + 1] == dynamics;
        i := i + 1;
      }
    }

    // Hands out a parked slot, growing the pool by one when there is none.
    method AcquireBox(x: real, y: real, z: real, hx: real, hy: real, hz: real) returns (id: int)
      requires Valid()
      modifies this
      ensures Valid() && SlotsStable(old(dynamics), dynamics)
      ensures id < 0 <==> old(freeList) == [] && old(actorsLeft) == 0
      ensures id < 0 ==> dynamics == old(dynamics) && freeList == old(freeList) && actorsLeft == old(actorsLeft)
      ensures id >= 0 ==> id !in InUse(old(dynamics)) && InUse(dynamics) == InUse(old(dynamics)) + {id}
      // the slot parked last, or a new one, with an upright box of the given size
      ensures id >= 0 ==>
        if old(freeList) == [] then id == |old(dynamics)| && freeList == []
        else old(freeList) == freeList + [id]
      ensures id >= 0 ==>
        && Slot(dynamics, id) && IsExtent(dynamics[id].half, hx, hy, hz)
        && dynamics[id] == Body(true, dynamics[id].half, true, true, Pose(x, y, z, 0.0, 0.0, 0.0, 1.0))
      ensures forall i :: 0 <= i < |old(dynamics)| && i != id ==> dynamics[i] == old(dynamics)[i]
      ensures id >= 0 ==> Supply(Pool()) == old(Supply(Pool())) - 1
      // no actor is created while a parked one is available
      ensures old(freeList) != [] ==>
        |dynamics| == |old(dynamics)| && actorsLeft == old(actorsLeft) && |freeList| == |old(freeList)| - 1
    {
      UprightIsUnit(x, y, z);
      hide PoolValid, InUse, Unit, PooledSlots, IsExtent, GreatestHalf;
      var b := Body(true, GreatestHalf(hx, hy, hz), true, true, Pose(x, y, z, 0.0, 0.0, 0.0, 1.0));
      if freeList == [] {
        if actorsLeft > 0 {
          GrownIsHandedOut(Pool(), b);
        }
        var made := CreatePooledActor();
        if made < 0 {
          return -1;
        }
      } else {
        TakenIsHandedOut(Pool(), b);
      }
      id := freeList[|freeList| - 1];
      freeList := freeList[..|freeList| - 1];
      dynamics := dynamics[id := b];
    }

    // Parks an acquired slot; anything else is ignored.
    method ReleaseBox(id: int)
      requires Valid()
      modifies this
      ensures Valid() && SlotsStable(old(dynamics), dynamics) && actorsLeft == old(actorsLeft)
      ensures |dynamics| == |old(dynamics)| && InUse(dynamics) == InUse(old(dynamics)) - {id}
      ensures forall i :: 0 <= i < |dynamics| && i != id ==> dynamics[i] == old(dynamics)[i]
      ensures id !in InUse(old(dynamics)) ==> dynamics == old(dynamics) && freeList == old(freeList)
      ensures id in InUse(old(dynamics)) ==>
        && freeList == old(freeList) + [id] && Parked(dynamics[id]) && dynamics[id].half == old(dynamics)[id].half
        && dynamics[id].pose == Pose(0.0, -1000000.0, 0.0, 0.0, 0.0, 0.0, 1.0)
    {
      if id < 0 || id >= |dynamics| {
        return;
      }
      var b := dynamics[id];
      if !b.actor || !b.pooled || !b.inScene {
        return;
      }
      GiveBackSlot(dynamics, freeList, id);
      dynamics := dynamics[id := b.(inScene := false, pose := PARKED)];
      freeList := freeList + [id];
    }

    // A body outside of the pool.
    method AddBox(x: real, y: real, z: real, half: real) returns (id: int)
      requires Valid()
      modifies this
      ensures Valid() && SlotsStable(old(dynamics), dynamics) && freeList == old(freeList)
      ensures if old(actorsLeft) == 0 then id == -1 && dynamics == old(dynamics) && actorsLeft == 0
              else
                && actorsLeft == old(actorsLeft) - 1 && id == |old(dynamics)| && |dynamics| == id + 1
                && old(dynamics) <= dynamics && dynamics[id].half == (if half > 0.0 then half else 0.5)
                && dynamics[id] == Body(true, dynamics[id].half, false, true, Pose(x, y, z, 0.0, 0.0, 0.0, 1.0))
    {
      if actorsLeft == 0 {
        return -1;
      }
      actorsLeft := actorsLeft - 1;
      id := |dynamics|;
      var h := if half <= 0.0 then BOX_HALF_EXTENT else half;
      dynamics := dynamics + [Body(true, h, false, true, Pose(x, y, z, 0.0, 0.0, 0.0, 1.0))];
    }

    // Destroys a body; its slot stays behind as a tombstone. The pool stays in order exactly if the
    // body does not belong to it.
    method RemoveBody(id: int)
      requires Valid()
      modifies this
      ensures Valid() <==> Slot(dynamics, id) ==> !dynamics[id].pooled
      ensures freeList == old(freeList) && actorsLeft == old(actorsLeft) && SlotsStable(old(dynamics), dynamics)
      ensures dynamics == if Slot(old(dynamics), id)
                          then old(dynamics)[id := old(dynamics)[id].(actor := false)]
                          else old(dynamics)
    {
      if id < 0 || id >= |dynamics| {
        return;
      }
      if !dynamics[id].actor {
        assert dynamics[id].(actor := false) == dynamics[id];
        return;
      }
      RemovalKeepsPool(dynamics, freeList, id);
      dynamics := dynamics[id := dynamics[id].(actor := false)];
    }

    // Parks every pooled body and destroys the others, then rebuilds the free list.
    method ClearDynamics()
      requires Valid()
      modifies this
      ensures Valid() && SlotsStable(old(dynamics), dynamics) && |dynamics| == |old(dynamics)|
      ensures InUse(dynamics) == {} && actorsLeft == old(actorsLeft)
      ensures forall i :: 0 <= i < |dynamics| ==> !Live(dynamics[i])
      ensures PooledSlots(dynamics) == PooledSlots(old(dynamics))
      ensures forall i :: 0 <= i < |dynamics| ==> Dismissed(old(dynamics)[i], dynamics[i])
      // parked in the order of their numbers
      ensures forall a, b :: 0 <= a < b < |freeList| ==> freeList[a] < freeList[b]
    {
      freeList := [];
      for i := 0 to |dynamics|
        invariant |dynamics| == |old(dynamics)| && actorsLeft == old(actorsLeft)
        invariant forall j :: i <= j < |dynamics| ==> dynamics[j] == old(dynamics)[j]
        invariant forall j :: 0 <= j < i ==> !Live(dynamics[j]) && dynamics[j].pooled == old(dynamics)[j].pooled
        invariant forall j :: 0 <= j < i ==> Dismissed(old(dynamics)[j], dynamics[j])
        invariant forall j :: 0 <= j < i && dynamics[j].pooled ==> dynamics[j].actor
        invariant forall j :: 0 <= j < i && dynamics[j].actor ==> Unit(dynamics[j].pose)
        invariant forall a :: 0 <= a < |freeList| ==> 0 <= freeList[a] < i
        invariant forall a, b :: 0 <= a < b < |freeList| ==> freeList[a] < freeList[b]
        invariant forall id :: id in freeList <==> 0 <= id < i && Parked(dynamics[id])
      {
        var b := dynamics[i];
        if b.actor {
          if b.pooled {
            if b.inScene {
              dynamics := dynamics[i := b.(inScene := false, pose := PARKED)];
            }
            freeList := freeList + [i];
          } else {
            dynamics := dynamics[i := b.(actor := false)];
          }
        }
      }
    }

    // Simulation is the library's business: bodies end up at arbitrary poses.
    method Step(poses: seq<Pose>)
      requires Valid() && |poses| == |dynamics| && forall i :: 0 <= i < |poses| ==> Unit(poses[i])
      modifies this`dynamics
      ensures Valid() && SlotsStable(old(dynamics), dynamics) && |dynamics| == |old(dynamics)|
      ensures InUse(dynamics) == InUse(old(dynamics)) && PooledSlots(dynamics) == PooledSlots(old(dynamics))
      ensures forall i :: 0 <= i < |dynamics| ==>
        dynamics[i] == if Live(old(dynamics)[i]) then old(dynamics)[i].(pose := poses[i]) else old(dynamics)[i]
    {
      dynamics := seq(|dynamics|, i requires 0 <= i < |dynamics| && |dynamics| == |poses| reads this =>
        if Live(dynamics[i]) then dynamics[i].(pose := poses[i]) else dynamics[i]);
    }

    // Height of a live body, or nothing for a tombstone, a parked slot or an unknown id.
    function BodyPosY(id: int): (y: Option<real>)
      reads this
      ensures y.Some? <==> Slot(dynamics, id) && Live(dynamics[id])
    {
      if id < 0 || id >= |dynamics| then None
      else if !dynamics[id].actor || (dynamics[id].pooled && !dynamics[id].inScene) then None
      else Some(dynamics[id].pose.py)
    }

    // The poses of the live bodies, in slot order.
    method EnumerateBodies() returns (states: seq<BodyState>)
      ensures forall s <- states :: Slot(dynamics, s.id) && Live(dynamics[s.id]) && s.pose == dynamics[s.id].pose
      ensures forall i :: 0 <= i < |dynamics| && Live(dynamics[i]) ==> BodyState(i, dynamics[i].pose) in states
      ensures |states| == |LiveSlots(dynamics)|
    {
      states := [];
      ghost var seen: set<int> := {};
      for i := 0 to |dynamics|
        invariant forall s <- states :: 0 <= s.id < i && Live(dynamics[s.id]) && s.pose == dynamics[s.id].pose
        invariant forall j :: 0 <= j < i && Live(dynamics[j]) ==> BodyState(j, dynamics[j].pose) in states
        invariant seen == (set j | 0 <= j < i && Live(dynamics[j])) && |states| == |seen|
      {
        if Live(dynamics[i]) {
          states := states + [BodyState(i, dynamics[i].pose)];
          seen := seen + {i};
        }
      }
    }

    method BodyCount() returns (n: nat)
      ensures n == |LiveSlots(dynamics)|
    {
      n := 0;
      ghost var seen: set<int> := {};
      for i := 0 to |dynamics|
        invariant seen == (set j | 0 <= j < i && Live(dynamics[j])) && n == |seen|
      {
        if dynamics[i].actor && (!dynamics[i].pooled || dynamics[i].inScene) {
          n := n + 1;
          seen := seen + {i};
        }
      }
    }
  }

  lemma CountStep(d: seq<Body>, i: nat)
    requires i < |d|
    ensures |PooledSlots(d[..i + 1])| == |PooledSlots(d[..i])| + if d[i].pooled then 1 else 0
  {
    if d[i].pooled {
      assert PooledSlots(d[..i + 1]) == PooledSlots(d[..i]) + {i};
    } else {
      assert PooledSlots(d[..i + 1]) == PooledSlots(d[..i]);
    }
  }
}
