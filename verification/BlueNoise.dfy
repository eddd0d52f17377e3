// The void-and-cluster bake of the blue-noise tile.
module BlueNoise {
  const BN: nat := 64

  // Energy of a cell under a pattern of ones and zeros.
  type Energy = (seq<int>, int) -> real

  // The searches start from -1 and 1e30.
  ghost predicate InRange(energy: Energy) {
    forall p, i :: -1.0 < energy(p, i) < 1.0e30
  }

  predicate Binary(p: seq<int>) {
    forall i :: 0 <= i < |p| ==> p[i] == 0 || p[i] == 1
  }

  function Ones(p: seq<int>): nat {
    if p == [] then 0 else Ones(p[..|p| - 1]) + if p[|p| - 1] != 0 then 1 else 0
  }

  lemma {:induction false} OnesBound(p: seq<int>)
    ensures Ones(p) <= |p|
    ensures Ones(p) == 0 <==> forall i :: 0 <= i < |p| ==> p[i] == 0
    ensures Ones(p) == |p| <==> forall i :: 0 <= i < |p| ==> p[i] != 0
  {
    if p != [] {
      var init := p[..|p| - 1];
      OnesBound(init);
      assert forall i :: 0 <= i < |init| ==> init[i] == p[i];
    }
  }

  lemma {:induction false} OnesUpdate(p: seq<int>, i: nat, v: int)
    requires i < |p|
    ensures Ones(p[i := v]) == Ones(p) - (if p[i] != 0 then 1 else 0) + if v != 0 then 1 else 0
  {
    var init := p[..|p| - 1];
    if i < |init| {
      OnesUpdate(init, i, v);
      assert p[i := v][..|p| - 1] == init[i := v];
    } else {
      assert p[i := v][..|p| - 1] == init;
    }
  }

  // ------------------------------------------------------------------------------------------
  // The source's energy is in range
  // ------------------------------------------------------------------------------------------

  const REACH: int := 7
  const WINDOW: nat := 2 * REACH + 1

  function Dist2(dx: int, dy: int): nat {
    dx * dx + dy * dy
  }

  // Sum of the kernel over the first k cells of the 15 x 15 window that are set, wrapping around.
  function KernelSum(p: seq<int>, c: int, kernel: nat -> real, k: nat): real {
    if k == 0 then 0.0
    else
      var dx, dy := (k - 1) % WINDOW - REACH, (k - 1) / WINDOW - REACH;
      var at := (c / BN + dy + BN) % BN * BN + (c % BN + dx + BN) % BN;
      KernelSum(p, c, kernel, k - 1) + if 0 <= at < |p| && p[at] != 0 then kernel(Dist2(dx, dy)) else 0.0
  }

  lemma {:induction false} KernelSumRange(p: seq<int>, c: int, kernel: nat -> real, k: nat)
    requires forall d2: nat :: 0.0 < kernel(d2) <= 1.0
    ensures 0.0 <= KernelSum(p, c, kernel, k) <= k as real
  {
    if k > 0 {
      KernelSumRange(p, c, kernel, k - 1);
    }
  }

  // A Gaussian kernel stays within (0, 1], so every energy is between 0 and 225.
  lemma WindowEnergyInRange(kernel: nat -> real)
    requires forall d2: nat :: 0.0 < kernel(d2) <= 1.0
    ensures InRange((p, c) => KernelSum(p, c, kernel, WINDOW * WINDOW))
  {
    forall p, c
      ensures 0.0 <= KernelSum(p, c, kernel, WINDOW * WINDOW) <= 225.0
    {
      KernelSumRange(p, c, kernel, WINDOW * WINDOW);
    }
  }

  // Cells are 64 to a row, and the tile wraps around: the shorter way from one column or row to another.
  function Around(d: int): int {
    (d + 32) % 64 - 32
  }

  predicate InWindow(dx: int, dy: int) {
    -REACH <= dx <= REACH && -REACH <= dy <= REACH
  }

  // What a one in cell i adds to the energy of cell c.
  function Pull(kernel: nat -> real, c: int, i: int): real {
    var dx, dy := Around(i % 64 - c % 64), Around(i / 64 - c / 64);
    if -7 <= dx <= 7 && -7 <= dy <= 7 then kernel(dx * dx + dy * dy) else 0.0
  }

  lemma {:induction false} NoEnergy(p: seq<int>, c: int, kernel: nat -> real, k: nat)
    requires Ones(p) == 0
    ensures KernelSum(p, c, kernel, k) == 0.0
  {
    OnesBound(p);
    if k > 0 {
      NoEnergy(p, c, kernel, k - 1);
    }
  }

  // The energy is the sum of what the ones add: without ones there is none, and a further one in
  // cell i adds its pull, by the shorter way around the tile.
  lemma EnergyIsSum(p: seq<int>, c: int, kernel: nat -> real, i: nat)
    requires |p| == BN * BN && i < |p| && 0 <= c < |p| && p[i] == 0
    ensures var n := WINDOW * WINDOW;
      && (Ones(p) == 0 ==> KernelSum(p, c, kernel, n) == 0.0)
      && KernelSum(p[i := 1], c, kernel, n) == KernelSum(p, c, kernel, n) + Pull(kernel, c, i)
  {
    if Ones(p) == 0 {
      NoEnergy(p, c, kernel, WINDOW * WINDOW);
    }
    OneAdds(p, c, kernel, i, WINDOW * WINDOW);
    PlaceInWindow(Around(i % BN - c % BN), Around(i / BN - c / BN));
    hide KernelSum, Around;
  }

  // Where a step stands in the order of the window.
  function WindowIndex(dx: int, dy: int): int {
    (dy + REACH) * WINDOW + dx + REACH
  }

  lemma PlaceInWindow(dx: int, dy: int)
    ensures InWindow(dx, dy) ==> 0 <= WindowIndex(dx, dy) < WINDOW * WINDOW
  {
  }

  lemma {:induction false} OneAdds(p: seq<int>, c: int, kernel: nat -> real, i: nat, k: nat)
    requires |p| == BN * BN && i < |p| && 0 <= c < |p| && p[i] == 0 && k <= WINDOW * WINDOW
    ensures var dx, dy := Around(i % BN - c % BN), Around(i / BN - c / BN);
      KernelSum(p[i := 1], c, kernel, k) == KernelSum(p, c, kernel, k)
        + if InWindow(dx, dy) && WindowIndex(dx, dy) < k then kernel(Dist2(dx, dy)) else 0.0
  {
    hide Dist2, Around;
    if k > 0 {
      OneAdds(p, c, kernel, i, k - 1);
      var dx, dy := (k - 1) % WINDOW - REACH, (k - 1) / WINDOW - REACH;
      StepLands(c, i, dx, dy);
      IndexIsPlace(k - 1, Around(i % BN - c % BN), Around(i / BN - c / BN));
    }
  }

  // The step (dx, dy) from c lands on i if and only if it is the shorter way there.
  lemma StepLands(c: int, i: int, dx: int, dy: int)
    requires 0 <= c < BN * BN && 0 <= i < BN * BN && InWindow(dx, dy)
    ensures (c / BN + dy + BN) % BN * BN + (c % BN + dx + BN) % BN == i
      <==> dx == Around(i % BN - c % BN) && dy == Around(i / BN - c / BN)
  {
    LandsOn(c % BN, i % BN, dx);
    LandsOn(c / BN, i / BN, dy);
    hide Around;
  }

  lemma LandsOn(a: int, b: int, d: int)
    requires 0 <= a < BN && 0 <= b < BN && -REACH <= d <= REACH
    ensures (a + d + BN) % BN == b <==> d == Around(b - a)
  {
  }

  lemma IndexIsPlace(k: nat, dx: int, dy: int)
    requires k < WINDOW * WINDOW
    ensures InWindow(k % WINDOW - REACH, k / WINDOW - REACH)
    ensures InWindow(dx, dy) ==> (WindowIndex(dx, dy) == k <==> dx == k % WINDOW - REACH && dy == k / WINDOW - REACH)
  {
  }

  // ------------------------------------------------------------------------------------------
  // The searches
  // ------------------------------------------------------------------------------------------

  // The first one of greatest energy, and the first zero of least energy.
  ghost predicate Tightest(energy: Energy, p: seq<int>, at: int) {
    && 0 <= at < |p| && p[at] != 0
    && forall j :: 0 <= j < |p| && p[j] != 0 ==>
      energy(p, j) <= energy(p, at) && (j < at ==> energy(p, j) < energy(p, at))
  }

  ghost predicate Emptiest(energy: Energy, p: seq<int>, at: int) {
    && 0 <= at < |p| && p[at] == 0
    && forall j :: 0 <= j < |p| && p[j] == 0 ==>
      energy(p, at) <= energy(p, j) && (j < at ==> energy(p, at) < energy(p, j))
  }

  // Tightest cluster: the first one of greatest energy, or -1 when there are no ones.
  method FindCluster(p: array<int>, energy: Energy) returns (at: int)
    requires InRange(energy)
    ensures -1 <= at < p.Length && (at < 0 <==> Ones(p[..]) == 0)
    ensures at >= 0 ==> Tightest(energy, p[..], at)
  {
    at := -1;
    var maxE := -1.0;
    for i := 0 to p.Length
      invariant -1 <= at < i && (at >= 0 ==> p[at] != 0 && maxE == energy(p[..], at))
      invariant at < 0 ==> maxE == -1.0 && forall j :: 0 <= j < i ==> p[j] == 0
      invariant forall j :: 0 <= j < i && p[j] != 0 ==> energy(p[..], j) <= maxE && (j < at ==> energy(p[..], j) < maxE)
    {
      if p[i] != 0 {
        var e := energy(p[..], i);
        if e > maxE {
          maxE, at := e, i;
        }
      }
    }
    OnesBound(p[..]);
  }

  // Largest void: the first zero of least energy, or -1 when there are no zeros.
  method FindVoid(p: array<int>, energy: Energy) returns (at: int)
    requires InRange(energy)
    ensures -1 <= at < p.Length && (at < 0 <==> Ones(p[..]) == p.Length)
    ensures at >= 0 ==> Emptiest(energy, p[..], at)
  {
    at := -1;
    var minE := 1.0e30;
    for i := 0 to p.Length
      invariant -1 <= at < i && (at >= 0 ==> p[at] == 0 && minE == energy(p[..], at))
      invariant at < 0 ==> minE == 1.0e30 && forall j :: 0 <= j < i ==> p[j] != 0
      invariant forall j :: 0 <= j < i && p[j] == 0 ==> minE <= energy(p[..], j) && (j < at ==> minE < energy(p[..], j))
    {
      if p[i] == 0 {
        var e := energy(p[..], i);
        if e < minE {
          minE, at := e, i;
        }
      }
    }
    OnesBound(p[..]);
  }

  // ------------------------------------------------------------------------------------------
  // Swap rounds and ranking
  // ------------------------------------------------------------------------------------------

  // One round: the tightest cluster moves into the largest void.
  ghost predicate Moved(energy: Energy, p: seq<int>, p': seq<int>) {
    exists c, v :: Tightest(energy, p, c) && Emptiest(energy, p, v) && p' == p[c := 0][v := 1]
  }

  ghost predicate MovedTimes(energy: Energy, p: seq<int>, p': seq<int>, n: nat)
    decreases n
  {
    if n == 0 then p' == p else exists mid :: MovedTimes(energy, p, mid, n - 1) && Moved(energy, mid, p')
  }

  // 200 rounds, unless there is nothing to move or nowhere to move it.
  ghost predicate Settled(energy: Energy, p: seq<int>, p': seq<int>) {
    exists n :: 0 <= n <= 200 && MovedTimes(energy, p, p', n) && (n < 200 ==> Ones(p') == 0 || Ones(p') == |p'|)
  }

  // Moves ones from clusters into voids; their number stays.
  method SwapRounds(p: array<int>, energy: Energy)
    requires InRange(energy) && Binary(p[..])
    modifies p
    ensures Binary(p[..]) && Ones(p[..]) == Ones(old(p[..]))
    ensures Settled(energy, old(p[..]), p[..])
  {
    hide Ones, Moved, Binary;
    for round := 0 to 200
      invariant Binary(p[..]) && Ones(p[..]) == Ones(old(p[..])) && MovedTimes(energy, old(p[..]), p[..], round)
    {
      var moved := SwapOnce(p, energy);
      if !moved {
        break;
      }
    }
  }

  method SwapOnce(p: array<int>, energy: Energy) returns (moved: bool)
    requires InRange(energy) && Binary(p[..])
    modifies p
    ensures Binary(p[..]) && Ones(p[..]) == Ones(old(p[..]))
    ensures if moved then Moved(energy, old(p[..]), p[..])
            else p[..] == old(p[..]) && (Ones(p[..]) == 0 || Ones(p[..]) == p.Length)
  {
    hide Ones, Tightest, Emptiest, Moved, InRange;
    var cluster := FindCluster(p, energy);
    var space := FindVoid(p, energy);
    if space < 0 || cluster < 0 || cluster == space {
      TightestIsOne(energy, p[..], cluster, space);
      return false;
    }
    ghost var was := p[..];
    TightestIsOne(energy, was, cluster, space);
    p[cluster] := 0;
    p[space] := 1;
    assert p[..] == was[cluster := 0][space := 1];
    OnesUpdate(was, cluster, 0);
    OnesUpdate(was[cluster := 0], space, 1);
    MovedBy(energy, was, cluster, space);
    return true;
  }

  lemma TightestIsOne(energy: Energy, p: seq<int>, c: int, v: int)
    ensures Tightest(energy, p, c) ==> 0 <= c < |p| && p[c] != 0
    ensures Emptiest(energy, p, v) ==> 0 <= v < |p| && p[v] == 0
  {
  }

  lemma MovedBy(energy: Energy, p: seq<int>, c: int, v: int)
    requires Tightest(energy, p, c) && Emptiest(energy, p, v)
    ensures Moved(energy, p, p[c := 0][v := 1])
  {
  }

  // No rank is given twice.
  ghost predicate OnceEach(rank: seq<int>) {
    forall i, j :: 0 <= i < j < |rank| && rank[i] >= 0 ==> rank[i] != rank[j]
  }

  ghost predicate Given(rank: seq<int>, k: int) {
    exists i :: 0 <= i < |rank| && rank[i] == k
  }

  lemma GivenOnce(rank: seq<int>, at: nat, r: int)
    requires at < |rank| && rank[at] == -1 && OnceEach(rank) && r >= 0 && !Given(rank, r)
    ensures OnceEach(rank[at := r]) && Given(rank[at := r], r)
    ensures forall k :: k >= 0 && Given(rank, k) ==> Given(rank[at := r], k)
  {
    var rank' := rank[at := r];
    assert rank'[at] == r;
    forall k | k >= 0 && Given(rank, k)
      ensures Given(rank', k)
    {
      var i :| 0 <= i < |rank| && rank[i] == k;
      assert rank'[i] == k;
    }
  }

  // Ranks r + 1 .. ones are given out, to the ones of p that `cur` has lost.
  ghost predicate TakingOut(p: seq<int>, cur: seq<int>, rank: seq<int>, r: int, ones: int) {
    && |cur| == |rank| == |p| && Ones(cur) == r + 1 && -1 <= r < ones
    && (forall i :: 0 <= i < |p| ==> (0 <= rank[i] <==> p[i] != 0 && cur[i] == 0) && (cur[i] != 0 ==> p[i] != 0))
    && (forall i :: 0 <= i < |p| ==> rank[i] == -1 || r < rank[i] < ones)
    && OnceEach(rank) && (forall k :: r < k < ones ==> Given(rank, k))
  }

  lemma TakeOut(p: seq<int>, cur: seq<int>, rank: seq<int>, r: int, ones: int, at: nat)
    requires TakingOut(p, cur, rank, r, ones) && r >= 0 && at < |p| && cur[at] != 0
    ensures TakingOut(p, cur[at := 0], rank[at := r], r - 1, ones)
  {
    OnesUpdate(cur, at, 0);
    assert !Given(rank, r);
    GivenOnce(rank, at, r);
    hide Given, OnceEach, Ones;
    var rank' := rank[at := r];
    forall k | r - 1 < k < ones
      ensures Given(rank', k)
    {
      assert k == r || Given(rank, k);
    }
  }

  // The ranks below `ones` went to the ones of p, each once.
  ghost predicate OnesDone(p: seq<int>, rank: seq<int>, ones: int) {
    && |rank| == |p| && ones == Ones(p)
    && (forall i :: 0 <= i < |p| ==> (p[i] != 0 <==> 0 <= rank[i]) && -1 <= rank[i] < ones)
    && OnceEach(rank) && (forall k :: 0 <= k < ones ==> Given(rank, k))
  }

  lemma AllTakenOut(p: seq<int>, cur: seq<int>, rank: seq<int>, ones: int)
    requires TakingOut(p, cur, rank, -1, ones) && ones == Ones(p)
    ensures OnesDone(p, rank, ones)
  {
    OnesBound(cur);
    hide Given, OnceEach, Ones;
  }

  // ------------------------------------------------------------------------------------------
  // The ranks follow the energies
  // ------------------------------------------------------------------------------------------

  // The ones that are left when all ranks above r have been taken out.
  function Left(p: seq<int>, rank: seq<int>, r: int): seq<int>
    requires |rank| == |p|
  {
    seq(|p|, i requires 0 <= i < |p| && |rank| == |p| => if p[i] != 0 && rank[i] <= r then 1 else 0)
  }

  // Every rank given so far went to the tightest cluster of what was left.
  ghost predicate ClustersRanked(energy: Energy, p: seq<int>, rank: seq<int>) {
    |rank| == |p| && forall i :: 0 <= i < |p| && rank[i] >= 0 ==> Tightest(energy, Left(p, rank, rank[i]), i)
  }

  lemma CurIsLeft(p: seq<int>, cur: seq<int>, rank: seq<int>, r: int, ones: int)
    requires TakingOut(p, cur, rank, r, ones) && Binary(cur)
    ensures cur == Left(p, rank, r)
  {
    hide OnceEach, Given, Ones;
  }

  lemma ClusterRanked(energy: Energy, p: seq<int>, cur: seq<int>, rank: seq<int>, r: nat, ones: int, at: int)
    requires TakingOut(p, cur, rank, r, ones) && Binary(cur) && ClustersRanked(energy, p, rank)
    requires Tightest(energy, cur, at)
    ensures 0 <= at < |rank| && ClustersRanked(energy, p, rank[at := r])
  {
    CurIsLeft(p, cur, rank, r, ones);
    hide OnceEach, Given, Ones;
    TightestIsOne(energy, cur, at, at);
    hide Tightest;
    var rank' := rank[at := r];
    forall i | 0 <= i < |p| && rank'[i] >= 0
      ensures Tightest(energy, Left(p, rank', rank'[i]), i)
    {
      assert Left(p, rank', rank'[i]) == Left(p, rank, rank'[i]);
    }
  }

  // The cells of rank r and below.
  function Upto(rank: seq<int>, r: int): seq<int> {
    seq(|rank|, i requires 0 <= i < |rank| => if 0 <= rank[i] <= r then 1 else 0)
  }

  // Every one has been the tightest cluster of the cells ranked up to it, every zero the largest
  // void of the cells ranked below it.
  ghost predicate InOrder(energy: Energy, p: seq<int>, rank: seq<int>) {
    |rank| == |p| && forall i :: 0 <= i < |p| && rank[i] >= 0 ==>
      if p[i] != 0 then Tightest(energy, Upto(rank, rank[i]), i) else Emptiest(energy, Upto(rank, rank[i] - 1), i)
  }

  lemma OnesInOrder(energy: Energy, p: seq<int>, rank: seq<int>, ones: int)
    requires OnesDone(p, rank, ones) && ClustersRanked(energy, p, rank)
    ensures InOrder(energy, p, rank)
  {
    hide OnceEach, Given, Ones, Tightest, Emptiest;
    forall i | 0 <= i < |p| && rank[i] >= 0
      ensures Left(p, rank, rank[i]) == Upto(rank, rank[i])
    {
    }
  }

  lemma VoidRanked(energy: Energy, p: seq<int>, cur: seq<int>, rank: seq<int>, r: nat, ones: int, at: int)
    requires FillingIn(p, cur, rank, r, ones) && Binary(cur) && InOrder(energy, p, rank) && Emptiest(energy, cur, at)
    ensures 0 <= at < |rank| && InOrder(energy, p, rank[at := r])
  {
    hide OnceEach, Given, Ones;
    assert cur == Upto(rank, r - 1);
    TightestIsOne(energy, cur, at, at);
    hide Tightest, Emptiest;
    var rank' := rank[at := r];
    forall i | 0 <= i < |p| && rank'[i] >= 0
      ensures if p[i] != 0 then Tightest(energy, Upto(rank', rank'[i]), i)
              else Emptiest(energy, Upto(rank', rank'[i] - 1), i)
    {
      if i == at {
        assert Upto(rank', r - 1) == Upto(rank, r - 1);
      } else {
        assert Upto(rank', rank[i]) == Upto(rank, rank[i]) && Upto(rank', rank[i] - 1) == Upto(rank, rank[i] - 1);
      }
    }
  }

  // Phase 1: the ones are taken out in cluster order and get the ranks below their number.
  method RankOnes(p: array<int>, rank: array<int>, energy: Energy) returns (ones: nat)
    requires InRange(energy) && p != rank && rank.Length == p.Length && Binary(p[..])
    requires forall i :: 0 <= i < rank.Length ==> rank[i] == -1
    modifies rank
    ensures OnesDone(p[..], rank[..], ones) && ClustersRanked(energy, p[..], rank[..])
  {
    var cur := new int[p.Length](i requires 0 <= i < p.Length reads p => p[i]);
    assert cur[..] == p[..];
    TakingStarts(p[..], rank[..], energy);
    hide TakingOut, OnesDone, Ones, OnceEach, Given, ClustersRanked, Binary, InRange;
    ones := CountOnes(cur);
    var r := ones - 1;
    while r >= 0
      invariant -1 <= r && TakingOut(p[..], cur[..], rank[..], r, ones)
      invariant Binary(cur[..]) && ClustersRanked(energy, p[..], rank[..])
    {
      var found := RankCluster(p, cur, rank, r, ones, energy);
      if !found {
        break;
      }
      r := r - 1;
    }
    AllTakenOut(p[..], cur[..], rank[..], ones);
  }

  // One turn of phase 1. There is a one left for every rank left, so the loop is never left early.
  method RankCluster(p: array<int>, cur: array<int>, rank: array<int>, r: nat, ghost ones: nat, energy: Energy)
    returns (found: bool)
    requires InRange(energy) && p != rank && p != cur && cur != rank && TakingOut(p[..], cur[..], rank[..], r, ones)
    requires Binary(cur[..]) && ClustersRanked(energy, p[..], rank[..])
    modifies cur, rank
    ensures found && TakingOut(p[..], cur[..], rank[..], r - 1, ones)
    ensures Binary(cur[..]) && ClustersRanked(energy, p[..], rank[..])
  {
    hide TakingOut, Ones, ClustersRanked;
    TakingFacts(p[..], cur[..], rank[..], r, ones);
    var ci := FindCluster(cur, energy);
    assert ci >= 0;
    if ci < 0 {
      return false;
    }
    ghost var was, ranked := cur[..], rank[..];
    ClusterRanked(energy, p[..], was, ranked, r, ones, ci);
    TightestIsOne(energy, was, ci, ci);
    hide Tightest, InRange;
    TakeOut(p[..], was, ranked, r, ones, ci);
    rank[ci] := r;
    cur[ci] := 0;
    assert cur[..] == was[ci := 0] && rank[..] == ranked[ci := r];
    return true;
  }

  lemma TakingStarts(p: seq<int>, rank: seq<int>, energy: Energy)
    requires |rank| == |p| && forall i :: 0 <= i < |rank| ==> rank[i] == -1
    ensures TakingOut(p, p, rank, Ones(p) - 1, Ones(p)) && ClustersRanked(energy, p, rank)
  {
    NoneGiven(rank);
    hide OnceEach, Given;
  }

  lemma TakingFacts(p: seq<int>, cur: seq<int>, rank: seq<int>, r: int, ones: int)
    requires TakingOut(p, cur, rank, r, ones)
    ensures |cur| == |rank| == |p| && Ones(cur) == r + 1
  {
  }

  lemma NoneGiven(rank: seq<int>)
    requires forall i :: 0 <= i < |rank| ==> rank[i] == -1
    ensures OnceEach(rank)
  {
  }

  method CountOnes(p: array<int>) returns (ones: nat)
    ensures ones == Ones(p[..])
  {
    ones := 0;
    for i := 0 to p.Length
      invariant ones == Ones(p[..i])
    {
      assert p[..i + 1][..i] == p[..i];
      if p[i] != 0 {
        ones := ones + 1;
      }
    }
    assert p[..p.Length] == p[..];
  }

  // Ranks below r are given out, to the cells that are set in `cur`.
  ghost predicate FillingIn(p: seq<int>, cur: seq<int>, rank: seq<int>, r: int, ones: int) {
    && |cur| == |rank| == |p| && Ones(cur) == r && ones <= r <= |p|
    && (forall i :: 0 <= i < |p| ==> (0 <= rank[i] <==> cur[i] != 0) && -1 <= rank[i] < r)
    && (forall i :: 0 <= i < |p| ==> (p[i] != 0 ==> cur[i] != 0) && (rank[i] >= 0 ==> (p[i] != 0 <==> rank[i] < ones)))
    && OnceEach(rank) && (forall k :: 0 <= k < r ==> Given(rank, k))
  }

  lemma FillIn(p: seq<int>, cur: seq<int>, rank: seq<int>, r: int, ones: int, at: nat)
    requires FillingIn(p, cur, rank, r, ones) && r < |p| && at < |p| && cur[at] == 0
    ensures FillingIn(p, cur[at := 1], rank[at := r], r + 1, ones)
  {
    OnesUpdate(cur, at, 1);
    assert !Given(rank, r);
    GivenOnce(rank, at, r);
    hide Given, OnceEach, Ones;
    var rank' := rank[at := r];
    forall k | 0 <= k < r + 1
      ensures Given(rank', k)
    {
      assert k == r || Given(rank, k);
    }
  }

  // The ranks are a permutation of 0..|p|, the lowest ones going to the ones of p.
  ghost predicate AllRanked(p: seq<int>, rank: seq<int>) {
    && |rank| == |p|
    && (forall i :: 0 <= i < |p| ==> 0 <= rank[i] < |p| && (p[i] != 0 <==> rank[i] < Ones(p)))
    && OnceEach(rank) && (forall k :: 0 <= k < |p| ==> Given(rank, k))
  }

  lemma AllFilledIn(p: seq<int>, cur: seq<int>, rank: seq<int>)
    requires FillingIn(p, cur, rank, |p|, Ones(p))
    ensures AllRanked(p, rank)
  {
    OnesBound(cur);
    hide Given, OnceEach, Ones;
  }

  // Phase 2: the zeros are filled in void order and get the remaining ranks.
  method RankZeros(p: array<int>, rank: array<int>, ones: nat, energy: Energy)
    requires InRange(energy) && p != rank && OnesDone(p[..], rank[..], ones)
    requires Binary(p[..]) && ClustersRanked(energy, p[..], rank[..])
    modifies rank
    ensures AllRanked(p[..], rank[..]) && InOrder(energy, p[..], rank[..])
  {
    var cur := new int[p.Length](i requires 0 <= i < p.Length reads p => p[i]);
    assert cur[..] == p[..];
    FillingStarts(p[..], rank[..], ones);
    OnesInOrder(energy, p[..], rank[..], ones);
    var r := ones;
    hide FillingIn, AllRanked, Ones, OnceEach, Given, OnesDone, ClustersRanked, InOrder, Binary;
    while r < p.Length
      invariant ones <= r <= p.Length && FillingIn(p[..], cur[..], rank[..], r, ones)
      invariant Binary(cur[..]) && InOrder(energy, p[..], rank[..])
    {
      var found := RankVoid(p, cur, rank, r, ones, energy);
      if !found {
        break;
      }
      r := r + 1;
    }
    AllFilledIn(p[..], cur[..], rank[..]);
  }

  // One turn of phase 2; a zero is left for every rank left.
  method RankVoid(p: array<int>, cur: array<int>, rank: array<int>, r: nat, ghost ones: nat, energy: Energy)
    returns (found: bool)
    requires InRange(energy) && p != rank && p != cur && cur != rank && r < p.Length
    requires FillingIn(p[..], cur[..], rank[..], r, ones) && Binary(cur[..]) && InOrder(energy, p[..], rank[..])
    modifies cur, rank
    ensures found && FillingIn(p[..], cur[..], rank[..], r + 1, ones)
    ensures Binary(cur[..]) && InOrder(energy, p[..], rank[..])
  {
    hide FillingIn, Ones, InOrder;
    FillingFacts(p[..], cur[..], rank[..], r, ones);
    var vi := FindVoid(cur, energy);
    assert vi >= 0;
    if vi < 0 {
      return false;
    }
    ghost var was, ranked := cur[..], rank[..];
    VoidRanked(energy, p[..], was, ranked, r, ones, vi);
    TightestIsOne(energy, was, vi, vi);
    hide Emptiest, InRange;
    FillIn(p[..], was, ranked, r, ones, vi);
    rank[vi] := r;
    cur[vi] := 1;
    assert cur[..] == was[vi := 1] && rank[..] == ranked[vi := r];
    return true;
  }

  lemma FillingStarts(p: seq<int>, rank: seq<int>, ones: nat)
    requires OnesDone(p, rank, ones)
    ensures FillingIn(p, p, rank, ones, ones)
  {
    OnesBound(p);
    hide OnceEach, Given;
  }

  lemma FillingFacts(p: seq<int>, cur: seq<int>, rank: seq<int>, r: int, ones: int)
    requires FillingIn(p, cur, rank, r, ones)
    ensures |cur| == |rank| == |p| && Ones(cur) == r
  {
  }

  // The tile's values: the ranks, centred in n equal steps of (0, 1).
  function TileValue(rank: int, n: nat): real
    requires n > 0
  {
    (rank as real + 0.5) / n as real
  }

  lemma TileValueSpread(r: int, q: int, n: nat)
    requires n > 0 && 0 <= r < n && 0 <= q < n
    ensures 0.0 < TileValue(r, n) < 1.0 && (r <= q <==> TileValue(r, n) <= TileValue(q, n))
  {
    Scale(TileValue(r, n), r as real + 0.5, n as real);
    Scale(TileValue(q, n), q as real + 0.5, n as real);
  }

  lemma Scale(v: real, a: real, n: real)
    requires n > 0.0 && v == a / n
    ensures v * n == a
    ensures a > 0.0 ==> v > 0.0
    ensures a < n ==> v < 1.0
  {
  }

  // v stands in the middle of step k, which goes from k / n to (k + 1) / n.
  ghost predicate InMiddle(v: real, k: int, n: nat)
    requires n > 0
  {
    2.0 * v == k as real / n as real + (k + 1) as real / n as real
  }

  lemma ValueInMiddle(r: int, n: nat)
    requires n > 0
    ensures InMiddle(TileValue(r, n), r, n)
  {
    Scale(TileValue(r, n), r as real + 0.5, n as real);
    Scale(r as real / n as real, r as real, n as real);
    Scale((r + 1) as real / n as real, r as real + 1.0, n as real);
  }

  ghost predicate HasValue(tile: seq<real>, k: int, n: nat)
    requires n > 0
  {
    exists i :: 0 <= i < |tile| && InMiddle(tile[i], k, n)
  }

  // Each of the n values stands in exactly one cell, the ones of the pattern taking the lowest.
  ghost predicate Uniform(p: seq<int>, tile: seq<real>) {
    && |tile| == |p|
    && (forall i :: 0 <= i < |p| ==> 0.0 < tile[i] < 1.0 && (p[i] != 0 ==> IsLow(tile[i], Ones(p), |p|)))
    && (forall i, j :: 0 <= i < j < |p| ==> tile[i] != tile[j])
    && (forall k :: 0 <= k < |p| ==> HasValue(tile, k, |p|))
  }

  // One of the `low` smallest values.
  ghost predicate IsLow(v: real, low: nat, n: nat)
    requires n > 0
  {
    exists k :: 0 <= k < low && InMiddle(v, k, n)
  }

  lemma RanksAreUniform(p: seq<int>, rank: seq<int>, tile: seq<real>)
    requires AllRanked(p, rank) && |tile| == |p| && forall i :: 0 <= i < |p| ==> tile[i] == TileValue(rank[i], |p|)
    ensures Uniform(p, tile)
  {
    hide TileValue, Ones, HasValue, IsLow;
    forall i | 0 <= i < |p|
      ensures 0.0 < tile[i] < 1.0 && (p[i] != 0 ==> IsLow(tile[i], Ones(p), |p|))
    {
      TileValueSpread(rank[i], rank[i], |p|);
      if p[i] != 0 {
        RankIsLow(rank[i], Ones(p), |p|);
      }
    }
    forall i, j | 0 <= i < j < |p|
      ensures tile[i] != tile[j]
    {
      TileValueSpread(rank[i], rank[j], |p|);
      TileValueSpread(rank[j], rank[i], |p|);
    }
    forall k | 0 <= k < |p|
      ensures HasValue(tile, k, |p|)
    {
      assert Given(rank, k);
      var i :| 0 <= i < |rank| && rank[i] == k;
      ValueStands(tile, i, k, |p|);
    }
  }

  lemma RankIsLow(r: int, low: nat, n: nat)
    requires n > 0 && 0 <= r < low
    ensures IsLow(TileValue(r, n), low, n)
  {
    ValueInMiddle(r, n);
  }

  lemma ValueStands(tile: seq<real>, i: nat, k: int, n: nat)
    requires n > 0 && i < |tile| && tile[i] == TileValue(k, n)
    ensures HasValue(tile, k, n)
  {
    ValueInMiddle(k, n);
  }

  // The cells of the values up to v, and those of the values below v.
  function AtMost(tile: seq<real>, v: real): seq<int> {
    seq(|tile|, i requires 0 <= i < |tile| => if tile[i] <= v then 1 else 0)
  }

  function Below(tile: seq<real>, v: real): seq<int> {
    seq(|tile|, i requires 0 <= i < |tile| => if tile[i] < v then 1 else 0)
  }

  // Whatever the threshold, the cells below it are spread out: a one of the pattern was the tightest
  // cluster of the cells up to it, a zero the largest void of the cells below it.
  ghost predicate Dithers(energy: Energy, p: seq<int>, tile: seq<real>) {
    |tile| == |p| && forall i :: 0 <= i < |p| ==>
      if p[i] != 0 then Tightest(energy, AtMost(tile, tile[i]), i) else Emptiest(energy, Below(tile, tile[i]), i)
  }

  lemma OrderDithers(energy: Energy, p: seq<int>, rank: seq<int>, tile: seq<real>)
    requires AllRanked(p, rank) && InOrder(energy, p, rank) && |tile| == |p|
    requires forall i :: 0 <= i < |p| ==> tile[i] == TileValue(rank[i], |p|)
    ensures Dithers(energy, p, tile)
  {
    hide TileValue, Ones, OnceEach, Given, Tightest, Emptiest;
    forall i | 0 <= i < |p|
      ensures AtMost(tile, tile[i]) == Upto(rank, rank[i]) && Below(tile, tile[i]) == Upto(rank, rank[i] - 1)
    {
      forall j | 0 <= j < |p|
        ensures (tile[j] <= tile[i] <==> rank[j] <= rank[i]) && (tile[i] <= tile[j] <==> rank[i] <= rank[j])
      {
        TileValueSpread(rank[j], rank[i], |p|);
        TileValueSpread(rank[i], rank[j], |p|);
      }
    }
  }

  // The whole bake.
  method Bake(p: array<int>, energy: Energy) returns (tile: array<real>)
    requires InRange(energy) && Binary(p[..])
    modifies p
    ensures fresh(tile) && Binary(p[..]) && Ones(p[..]) == Ones(old(p[..])) && Uniform(p[..], tile[..])
    ensures Settled(energy, old(p[..]), p[..]) && Dithers(energy, p[..], tile[..])
  {
    SwapRounds(p, energy);
    var rank := new int[p.Length](_ => -1);
    var ones := RankOnes(p, rank, energy);
    hide Ones, OnceEach, Given, TileValue, OnesDone, Uniform, InOrder, ClustersRanked, Settled, Dithers, Binary,
         InRange;
    RankZeros(p, rank, ones, energy);
    var n := p.Length;
    tile := new real[n](i requires 0 <= i < n && n == rank.Length reads rank =>
      if rank[i] >= 0 then TileValue(rank[i], n) else 0.0);
    RanksAreUniform(p[..], rank[..], tile[..]);
    OrderDithers(energy, p[..], rank[..], tile[..]);
  }
}
