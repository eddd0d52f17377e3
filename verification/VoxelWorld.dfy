// The sparse voxel world: a map of 32^3 chunks that refines a total function from cells to
// materials, together with the merged colour palette.
module VoxelWorlds {
  import opened Grid
  import opened Chunks
  import opened Terrain
  import opened Rays
  import opened Vectors
  import opened Palettes
  import opened Stamping

  // One chunk: a flat 32^3 array of material ids, 0 meaning empty.
  class Chunk {
    const mats: array<Byte>

    constructor ()
      ensures fresh(mats) && mats.Length == CHUNK_VOXELS
      ensures forall i :: 0 <= i < CHUNK_VOXELS ==> mats[i] == 0
    {
      mats := new Byte[CHUNK_VOXELS](_ => 0);
    }

    function Get(c: Cell): Byte
      requires mats.Length == CHUNK_VOXELS
      reads mats
    {
      mats[Slot(c)]
    }

    method Set(c: Cell, m: Byte)
      requires mats.Length == CHUNK_VOXELS
      modifies mats
      ensures forall i :: 0 <= i < CHUNK_VOXELS ==> mats[i] == if i == Slot(c) then m else old(mats[i])
    {
      mats[Slot(c)] := m;
    }

    method Empty() returns (e: bool)
      ensures e <==> forall i :: 0 <= i < mats.Length ==> mats[i] == 0
    {
      for i := 0 to mats.Length
        invariant forall j :: 0 <= j < i ==> mats[j] == 0
      {
        if mats[i] != 0 {
          return false;
        }
      }
      return true;
    }
  }

  class VoxelWorld {
    var chunks: map<ChunkCoord, Chunk>
    var palette: Palette
    var paletteUsed: nat

    ghost var Contents: Voxels
    ghost var Repr: set<object>

    ghost predicate Shape()
      reads this, Repr
    {
      && this in Repr
      && (forall cc <- chunks ::
            chunks[cc] in Repr && chunks[cc].mats in Repr && chunks[cc].mats.Length == CHUNK_VOXELS)
      && (forall cc <- chunks, cd <- chunks :: cc != cd ==> chunks[cc].mats != chunks[cd].mats)
    }

    // What the chunk map says about one cell.
    ghost function Raw(c: Cell): Byte
      requires Shape()
      reads this, Repr
    {
      var cc := WorldToChunk(c);
      if cc in chunks then chunks[cc].Get(c) else 0
    }

    ghost predicate Refines()
      requires Shape()
      reads this, Repr
    {
      && (forall c: Cell :: c in Contents <==> Raw(c) != 0)
      && (forall c <- Contents :: Contents[c] == Raw(c))
    }

    // No resident chunk is all zero.
    ghost predicate NoneEmpty()
      reads this
    {
      forall cc <- chunks :: Occupied(Contents, cc)
    }

    ghost predicate Valid()
      reads this, Repr
      ensures Valid() ==> this in Repr
    {
      Shape() && Refines() && NoneEmpty() && 1 <= paletteUsed <= PALETTE_SIZE
    }

    constructor ()
      ensures Valid() && fresh(Repr)
      ensures Contents == map[] && palette == EMPTY_PALETTE && paletteUsed == 1
    {
      chunks := map[];
      palette := EMPTY_PALETTE;
      paletteUsed := 1;
      Contents := map[];
      Repr := {this};
    }

    method Clear()
      requires Valid()
      modifies this
      ensures Valid() && Repr == old(Repr)
      ensures Contents == map[] && palette == EMPTY_PALETTE && paletteUsed == 1
    {
      chunks := map[];
      palette := EMPTY_PALETTE;
      paletteUsed := 1;
      Contents := map[];
    }

    function GetVoxel(c: Cell): (m: Byte)
      requires Valid()
      reads this, Repr
      ensures m == At(Contents, c) && (m != 0 <==> c in Contents)
    {
      var cc := WorldToChunk(c);
      if cc in chunks then chunks[cc].Get(c) else 0
    }

    function ResidentChunks(): (n: nat)
      requires Valid()
      reads this, Repr
      ensures n == |set c <- Contents :: WorldToChunk(c)|
    {
      assert chunks.Keys == set c <- Contents :: WorldToChunk(c);
      |chunks|
    }

    method GetOrCreateChunk(cc: ChunkCoord)
      requires Shape() && Refines()
      modifies this
      ensures Shape() && Refines() && fresh(Repr - old(Repr)) && old(Repr) <= Repr
      ensures chunks.Keys == old(chunks.Keys) + {cc} && (forall cd <- old(chunks) :: chunks[cd] == old(chunks)[cd])
      ensures Contents == old(Contents) && palette == old(palette) && paletteUsed == old(paletteUsed)
    {
      if cc !in chunks {
        var k := new Chunk();
        chunks := chunks[cc := k];
        Repr := Repr + {k, k.mats};
      }
    }

    // Writes one slot of a resident chunk; the chunk may be left all zero.
    method SetInChunk(c: Cell, mat: Byte)
      requires Shape() && Refines() && WorldToChunk(c) in chunks
      modifies Repr
      ensures Shape() && Refines() && Repr == old(Repr) && chunks == old(chunks)
      ensures Contents == Write(old(Contents), c, mat)
      ensures palette == old(palette) && paletteUsed == old(paletteUsed)
    {
      chunks[WorldToChunk(c)].Set(c, mat);
      Contents := Write(Contents, c, mat);
      forall d: Cell
        ensures Raw(d) == if d == c then mat else old(Raw(d))
      {
        if WorldToChunk(d) == WorldToChunk(c) && Slot(d) == Slot(c) {
          SlotInjective(c, d);
        }
      }
    }

    // An all-zero chunk holds no solid cell, so dropping it changes nothing.
    method EvictIfEmpty(cc: ChunkCoord)
      requires Shape() && Refines() && cc in chunks
      requires forall cd <- chunks :: cd != cc ==> Occupied(Contents, cd)
      modifies this
      ensures Shape() && Refines() && NoneEmpty() && Repr == old(Repr)
      ensures Contents == old(Contents) && palette == old(palette) && paletteUsed == old(paletteUsed)
    {
      var e := chunks[cc].Empty();
      if e {
        chunks := chunks - {cc};
        assert forall d: Cell :: Raw(d) == old(Raw(d));
      } else {
        SolidSlotOccupies(cc);
      }
    }

    lemma SolidSlotOccupies(cc: ChunkCoord)
      requires Shape() && Refines() && cc in chunks && exists i :: 0 <= i < CHUNK_VOXELS && chunks[cc].mats[i] != 0
      ensures Occupied(Contents, cc)
    {
      var i :| 0 <= i < CHUNK_VOXELS && chunks[cc].mats[i] != 0;
      var d := SlotSurjective(cc, i);
      assert Raw(d) != 0;
    }

    // The resident chunks are exactly the ones that hold a solid cell.
    lemma ResidentsAreOccupied()
      requires Valid()
      ensures chunks.Keys == set c <- Contents :: WorldToChunk(c)
    {
      forall c <- Contents
        ensures WorldToChunk(c) in chunks
      {
        assert Raw(c) != 0;
      }
    }

    method SetVoxel(c: Cell, mat: Byte)
      requires Valid()
      modifies Repr
      ensures Valid() && fresh(Repr - old(Repr)) && old(Repr) <= Repr
      ensures Contents == Write(old(Contents), c, mat)
      ensures palette == old(palette) && paletteUsed == old(paletteUsed)
    {
      var cc := WorldToChunk(c);
      forall cd | Occupied(Contents, cd) && (mat != 0 || cd != cc)
        ensures Occupied(Write(Contents, c, mat), cd)
      {
        OccupiedAfterWrite(Contents, c, mat, cd);
      }
      if mat == 0 {
        if cc in chunks {
          hide VoxelWorld.Shape, VoxelWorld.Refines;
          SetInChunk(c, 0);
          EvictIfEmpty(cc);
        } else {
          assert Raw(c) == 0;
        }
      } else {
        hide VoxelWorld.Shape, VoxelWorld.Refines;
        GetOrCreateChunk(cc);
        SetInChunk(c, mat);
        assert c in Contents;
      }
    }

    // One turn of the innermost carving loop.
    method CarveCell(centre: Cell, radius: nat, c: Cell, ghost m: Voxels) returns (hit: bool)
      requires Valid() && InGrid(c)
      requires Contents == CarvedBefore(m, centre, radius, c)
      modifies Repr
      ensures Valid() && fresh(Repr - old(Repr)) && old(Repr) <= Repr
      ensures Contents == CarvedBefore(m, centre, radius, c.(x := c.x + 1))
      ensures |Contents| == |old(Contents)| - if hit then 1 else 0
      ensures palette == old(palette) && paletteUsed == old(paletteUsed)
    {
      CarveStep(m, centre, radius, c);
      if Dist2(c, centre) > radius * radius { return false; }
      if GetVoxel(c) == 0 { return false; }
      SetVoxel(c, 0);
      return true;
    }

    // One turn of the middle loop: carves the row (y, z) of the box from x0 to x1 inclusive.
    method CarveRow(centre: Cell, radius: nat, x0: int, x1: int, y: int, z: int, ghost m: Voxels) returns (removed: nat)
      requires Valid() && 0 <= y < WORLD_DIM && 0 <= z < WORLD_DIM
      requires x0 == CarveBox(centre, radius).x0 && x1 + 1 == CarveBox(centre, radius).x1
      requires Contents == CarvedBefore(m, centre, radius, Cell(x0, y, z))
      modifies Repr
      ensures Valid() && fresh(Repr - old(Repr)) && old(Repr) <= Repr
      ensures Contents == CarvedBefore(m, centre, radius, Cell(x0, y + 1, z))
      ensures |Contents| == |old(Contents)| - removed
      ensures palette == old(palette) && paletteUsed == old(paletteUsed)
    {
      hide VoxelWorld.Valid;
      removed := 0;
      var x := x0;
      while x <= x1
        invariant Valid() && fresh(Repr - old(Repr)) && old(Repr) <= Repr
        invariant x0 <= x && |Contents| == |old(Contents)| - removed
        invariant Contents == CarvedBefore(m, centre, radius, Cell(x, y, z))
        invariant palette == old(palette) && paletteUsed == old(paletteUsed)
        decreases x1 - x
      {
        var hit := CarveCell(centre, radius, Cell(x, y, z), m);
        if hit {
          removed := removed + 1;
        }
        x := x + 1;
      }
      CarveWrap(m, centre, radius, Cell(x, y, z), Cell(x0, y + 1, z));
    }

    // Erases the solid voxels of the ball that lie in the grid and counts them.
    method CarveSphere(centre: Cell, radius: int) returns (removed: nat)
      requires Valid()
      modifies Repr
      ensures Valid() && fresh(Repr - old(Repr)) && old(Repr) <= Repr
      ensures Contents == AfterCarve(old(Contents), centre, radius)
      ensures removed == |old(Contents)| - |Contents|
      ensures palette == old(palette) && paletteUsed == old(paletteUsed)
    {
      hide VoxelWorld.Valid;
      ghost var m := Contents;
      if radius < 0 {
        assert AfterCarve(m, centre, radius) == m;
        return 0;
      }
      var x0, y0, z0 := Max(0, centre.x - radius), Max(0, centre.y - radius), Max(0, centre.z - radius);
      var x1, y1, z1 := Min(WORLD_DIM - 1, centre.x + radius), Min(WORLD_DIM - 1, centre.y + radius),
                        Min(WORLD_DIM - 1, centre.z + radius);
      removed := 0;
      CarveEnds(m, centre, radius, Cell(x0, y0, z0));
      var z := z0;
      while z <= z1
        invariant Valid() && fresh(Repr - old(Repr)) && old(Repr) <= Repr
        invariant |Contents| == |m| - removed
        invariant Contents == CarvedBefore(m, centre, radius, Cell(x0, y0, z))
        invariant palette == old(palette) && paletteUsed == old(paletteUsed)
        decreases z1 - z
      {
        var y := y0;
        while y <= y1
          invariant Valid() && fresh(Repr - old(Repr)) && old(Repr) <= Repr
          invariant y0 <= y && |Contents| == |m| - removed
          invariant Contents == CarvedBefore(m, centre, radius, Cell(x0, y, z))
          invariant palette == old(palette) && paletteUsed == old(paletteUsed)
          decreases y1 - y
        {
          var n := CarveRow(centre, radius, x0, x1, y, z, m);
          removed := removed + n;
          y := y + 1;
        }
        CarveWrap(m, centre, radius, Cell(x0, y, z), Cell(x0, y0, z + 1));
        z := z + 1;
      }
      CarveEnds(m, centre, radius, Cell(x0, y0, z));
    }

    // Index for a colour: its first slot, else a free slot, else the nearest colour's slot.
    method AddPaletteColor(rgba: Word) returns (idx: Byte)
      requires Valid()
      modifies this`palette, this`paletteUsed
      ensures Valid() && StandsFor(palette, paletteUsed, rgba, idx)
      ensures Extends(old(palette), old(paletteUsed), palette, paletteUsed)
      ensures paletteUsed == old(paletteUsed) + if Holds(old(palette), old(paletteUsed), rgba) || old(paletteUsed)
        == PALETTE_SIZE then 0 else 1
      ensures forall i :: old(paletteUsed) <= i < paletteUsed ==> palette[i] == rgba
    {
      for i := 1 to paletteUsed
        invariant forall j :: 1 <= j < i ==> palette[j] != rgba
      {
        if palette[i] == rgba {
          return i;
        }
      }
      if paletteUsed < PALETTE_SIZE {
        idx := paletteUsed;
        palette := palette[paletteUsed := rgba];
        paletteUsed := paletteUsed + 1;
        assert palette[idx] == rgba;
        return;
      }
      var bestDist, bestIdx := 0xFFFF_FFFF, 1;
      for i := 1 to PALETTE_SIZE
        invariant 1 <= bestIdx < PALETTE_SIZE
        invariant i > 1 ==> bestIdx < i && bestDist == ColourDist2(palette[bestIdx], rgba)
        invariant forall j :: 1 <= j < i ==> bestDist <= ColourDist2(palette[j], rgba)
        invariant forall j :: 1 <= j < i && j < bestIdx ==> bestDist < ColourDist2(palette[j], rgba)
        invariant i == 1 ==> bestDist == 0xFFFF_FFFF
      {
        var d := ColourDist2(palette[i], rgba);
        if d < bestDist {
          bestDist, bestIdx := d, i;
        }
      }
      return bestIdx;
    }

    method SetPaletteColor(idx: Byte, rgba: Word)
      requires Valid()
      modifies this`palette, this`paletteUsed
      ensures Valid()
      ensures palette == if idx == 0 then old(palette) else old(palette)[idx := rgba]
      ensures paletteUsed == if idx == 0 then old(paletteUsed) else Max(old(paletteUsed), idx + 1)
    {
      if idx == 0 {
        return;
      }
      palette := palette[idx := rgba];
      if idx >= paletteUsed {
        paletteUsed := idx + 1;
      }
    }

    // First solid grid cell along a ray. `len` is the length of `dir`.
    method RaycastSolid(o: Vec3, dir: Vec3, len: real, maxDist: real) returns (hit: Option<Cell>, ghost capped: bool)
      requires Valid() && len >= 0.0 && len * len == Dot(dir, dir)
      ensures len < TINY ==> hit == None
      ensures len >= TINY && hit.Some? ==> FirstHit(Contents, o, Scaled(dir, len), maxDist, hit.value)
      ensures len >= TINY && hit == None ==> Missed(Contents, o, Scaled(dir, len), maxDist)
      // from inside the grid a miss is a miss, and the step cap is never used up
      ensures len >= TINY && hit == None && InGrid(StartCell(o)) ==>
        ClearTo(Contents, o, Scaled(dir, len), maxDist) && !capped
    {
      capped := false;
      if len < TINY {
        return None, capped;
      }
      var d := Scaled(dir, len);
      ScaledIsUnit(dir, len);
      hide VoxelWorld.Valid, FirstHit, Missed, Searching, ClearTo, PastGrid, Advanced, StartMarch, AllOnWay;
      var w := StartMarch(o, d);
      SearchStarts(Contents, o, d);
      if InGrid(StartCell(o)) && GetVoxel(StartCell(o)) != 0 {
        return Some(StartCell(o)), capped;
      }
      for i := 0 to MAX_STEPS
        invariant Searching(Contents, o, d, w, i)
        invariant InGrid(StartCell(o)) ==> i < MAX_STEPS && InGrid(w.cell)
      {
        SearchStep(Contents, o, d, w, i, maxDist);
        w := Advanced(w, d);
        if w.t > maxDist {
          MissedInside(Contents, o, d, maxDist);
          return None, capped;
        }
        if InGrid(w.cell) {
          if GetVoxel(w.cell) != 0 {
            return Some(w.cell), capped;
          }
        } else if PastGrid(d, w.cell) {
          SearchLeaves(Contents, o, d, w, i + 1, maxDist);
          MissedInside(Contents, o, d, maxDist);
          return None, capped;
        }
        if InGrid(StartCell(o)) {
          StartedInside(Contents, o, d, w, i + 1);
        }
      }
      SearchGivesUp(Contents, o, d, w, maxDist);
      capped := true;
      return None, capped;
    }

    // Chunk-granular bounds of the solid cells, exclusive maximum.
    method Bounds() returns (b: Box)
      requires Valid()
      ensures SolidBounds(Contents, b)
    {
      ResidentsAreOccupied();
      b := JoinChunks(chunks.Keys);
      BoundsHold(Contents, chunks.Keys, b);
    }

    ghost function Painted(): Canvas
      reads this
    {
      Canvas(Contents, palette, paletteUsed)
    }

    // One turn of the innermost stamping loop, for source cell c.
    method StampCell(src: VoxelWorld, srcPalette: Palette, o: Cell, c: Cell, ghost was: Canvas, ghost added: set<Word>)
      returns (ghost added': set<Word>)
      requires Valid() && src.Valid() && Repr !! src.Repr
      requires Overlaid(was, Model(src.Contents, srcPalette), o, c, Painted())
      requires Filled(was, Model(src.Contents, srcPalette), o, c, Painted(), added)
      modifies Repr
      ensures Valid() && fresh(Repr - old(Repr))
      ensures Overlaid(was, Model(src.Contents, srcPalette), o, c.(x := c.x + 1), Painted())
      ensures Filled(was, Model(src.Contents, srcPalette), o, c.(x := c.x + 1), Painted(), added')
    {
      hide VoxelWorld.Valid, Overlaid, Filled, StandsFor, Extends;
      ghost var model := Model(src.Contents, srcPalette);
      ghost var before := Painted();
      var d := Shift(c, o);
      var srcMat := src.GetVoxel(c);
      added' := added;
      if srcMat == 0 || !InGrid(d) {
        OverlayStep(was, model, o, c, before, 0, before);
        SkipFill(was, model, o, c, before, added);
        return;
      }
      var rgba := srcPalette[srcMat];
      var idx := AddPaletteColor(rgba);
      ExactWhenHeld(palette, paletteUsed, rgba, idx);
      SetVoxel(d, idx);
      OverlayStep(was, model, o, c, before, idx, Painted());
      assert Extends(was.palette, was.used, before.palette, before.used) by { OverlaidGrew(was, model, o, c, before); }
      added' := FillStep(was, model, o, c, before, Painted(), added);
    }

    // The row (y, z) of the source's bounding box.
    method StampRow(src: VoxelWorld, srcPalette: Palette, o: Cell, b: Box, y: int, z: int, ghost was: Canvas,
                    ghost added: set<Word>)
      returns (ghost added': set<Word>)
      requires Valid() && src.Valid() && Repr !! src.Repr
      requires Bounded(src.Contents, b)
      requires Overlaid(was, Model(src.Contents, srcPalette), o, Cell(b.x0, y, z), Painted())
      requires Filled(was, Model(src.Contents, srcPalette), o, Cell(b.x0, y, z), Painted(), added)
      modifies Repr
      ensures Valid() && fresh(Repr - old(Repr))
      ensures Overlaid(was, Model(src.Contents, srcPalette), o, Cell(b.x0, y + 1, z), Painted())
      ensures Filled(was, Model(src.Contents, srcPalette), o, Cell(b.x0, y + 1, z), Painted(), added')
    {
      hide VoxelWorld.Valid, Overlaid, Filled;
      ghost var model := Model(src.Contents, srcPalette);
      added' := added;
      var x := b.x0;
      while x < b.x1
        invariant Valid() && fresh(Repr - old(Repr)) && unchanged(src.Repr) && src.Valid() && Repr !! src.Repr
        invariant Overlaid(was, model, o, Cell(x, y, z), Painted())
        invariant Filled(was, model, o, Cell(x, y, z), Painted(), added')
      {
        added' := StampCell(src, srcPalette, o, Cell(x, y, z), was, added');
        x := x + 1;
      }
      StampWrap(was, model, o, b, Painted(), Cell(x, y, z), Cell(b.x0, y + 1, z), added');
    }

    // The slice z of the source's bounding box.
    method StampSlice(src: VoxelWorld, srcPalette: Palette, o: Cell, b: Box, z: int, ghost was: Canvas,
                      ghost added: set<Word>)
      returns (ghost added': set<Word>)
      requires Valid() && src.Valid() && Repr !! src.Repr
      requires Bounded(src.Contents, b)
      requires Overlaid(was, Model(src.Contents, srcPalette), o, Cell(b.x0, b.y0, z), Painted())
      requires Filled(was, Model(src.Contents, srcPalette), o, Cell(b.x0, b.y0, z), Painted(), added)
      modifies Repr
      ensures Valid() && fresh(Repr - old(Repr))
      ensures Overlaid(was, Model(src.Contents, srcPalette), o, Cell(b.x0, b.y0, z + 1), Painted())
      ensures Filled(was, Model(src.Contents, srcPalette), o, Cell(b.x0, b.y0, z + 1), Painted(), added')
    {
      hide VoxelWorld.Valid, Overlaid, Filled;
      ghost var model := Model(src.Contents, srcPalette);
      added' := added;
      var y := b.y0;
      while y < b.y1
        invariant Valid() && fresh(Repr - old(Repr)) && unchanged(src.Repr) && src.Valid() && Repr !! src.Repr
        invariant Overlaid(was, model, o, Cell(b.x0, y, z), Painted())
        invariant Filled(was, model, o, Cell(b.x0, y, z), Painted(), added')
      {
        added' := StampRow(src, srcPalette, o, b, y, z, was, added');
        y := y + 1;
      }
      StampWrap(was, model, o, b, Painted(), Cell(b.x0, y, z), Cell(b.x0, b.y0, z + 1), added');
    }

    lemma UsedInRange()
      requires Valid()
      ensures 1 <= paletteUsed <= PALETTE_SIZE
    {
    }

    // All the slices of the source's bounding box.
    method StampSlices(src: VoxelWorld, srcPalette: Palette, o: Cell, b: Box) returns (ghost added: set<Word>)
      requires Valid() && src.Valid() && Repr !! src.Repr
      requires Bounded(src.Contents, b)
      modifies Repr
      ensures Valid() && fresh(Repr - old(Repr))
      ensures Overlaid(old(Painted()), Model(src.Contents, srcPalette), o, Cell(b.x0, b.y0, Max(b.z0, b.z1)), Painted())
      ensures Filled(old(Painted()), Model(src.Contents, srcPalette), o, Cell(b.x0, b.y0, Max(b.z0, b.z1)), Painted(),
                     added)
    {
      hide VoxelWorld.Valid, Overlaid, Filled, Bounded;
      ghost var model, was := Model(src.Contents, srcPalette), Painted();
      added := {};
      UsedInRange();
      StartStamp(was, model, o, b);
      for z := b.z0 to Max(b.z0, b.z1)
        invariant Valid() && fresh(Repr - old(Repr)) && unchanged(src.Repr) && src.Valid() && Repr !! src.Repr
        invariant Overlaid(was, model, o, Cell(b.x0, b.y0, z), Painted())
        invariant Filled(was, model, o, Cell(b.x0, b.y0, z), Painted(), added)
      {
        added := StampSlice(src, srcPalette, o, b, z, was, added);
      }
    }

    // Additive stamp of a source world; `o` is moved so that the whole model fits when it can.
    method StampVox(src: VoxelWorld, srcPalette: Palette, o: Cell)
      requires Valid() && src.Valid() && Repr !! src.Repr
      modifies Repr
      ensures Valid() && fresh(Repr - old(Repr))
      ensures Extends(old(palette), old(paletteUsed), palette, paletteUsed)
      ensures forall b :: SolidBounds(src.Contents, b) ==>
        var model := Model(src.Contents, srcPalette);
        && NearestPlacement(b, o, Placement(b, o))
        && StampOf(old(Painted()), model, Placement(b, o), Painted())
        && (ColoursKept(model, Placement(b, o), Painted()) <==> HasRoom(old(Painted()), model, Placement(b, o)))
    {
      hide VoxelWorld.Valid, Overlaid, Filled, StampOf, ColoursKept, HasRoom, Placement, Extends, NearestPlacement;
      var b := src.Bounds();
      forall b' | SolidBounds(src.Contents, b') ensures b' == b { SolidBoundsUnique(src.Contents, b, b'); }
      ghost var model, was := Model(src.Contents, srcPalette), Painted();
      assert Bounded(src.Contents, b);
      ghost var next := Cell(b.x0, b.y0, Max(b.z0, b.z1));
      ghost var added := StampSlices(src, srcPalette, Placement(b, o), b);
      assert forall c <- src.Contents :: Precedes(c, next);
      OverlaidGrew(was, model, Placement(b, o), next, Painted());
      FinishStamp(was, model, Placement(b, o), next, Painted(), added);
      PlacementIsNearest(b, o);
    }

    // Flat grid for the renderer: index z*dim*dim + y*dim + x holds the material of (x, y, z).
    method BakeFlatGrid(dim: nat) returns (grid: array<Word>)
      requires Valid()
      ensures fresh(grid) && Bakes(Contents, grid[..], dim)
      ensures Valid() && unchanged(Repr)
    {
      ResidentsAreOccupied();
      forall cc <- chunks
        ensures ChunkHolds(Contents, cc, chunks[cc].mats[..])
      {
        assert forall c: Cell :: WorldToChunk(c) == cc ==> chunks[cc].mats[..][Slot(c)] == Raw(c) == At(Contents, c);
      }
      grid := BakeChunks(chunks, Contents, dim);
    }
  }

  // A solid voxel in plain view and in range is not found when it is too many cells away.
  method FarTargetMissed(world: VoxelWorld) returns (hit: Option<Cell>)
    requires world.Valid() && world.Contents == map[FAR_TARGET := 1]
    ensures Inside(FAR_ORIGIN, Scaled(FAR_DIR, 3.0), FAR_TARGET, 243.0) && FAR_TARGET in world.Contents
    ensures hit == None
  {
    hide VoxelWorld.Valid, ClearTo, Scaled, StartCell, Inside, InGrid;
    CapCanBite();
    ghost var capped;
    hit, capped := world.RaycastSolid(FAR_ORIGIN, FAR_DIR, 3.0, 256.0);
  }

  // The loop of Bounds; the chunk map is visited in an arbitrary order.
  method JoinChunks(keys: set<ChunkCoord>) returns (b: Box)
    ensures if keys == {} then b == Box(0, 0, 0, 0, 0, 0) else BoundsOf(keys, b)
  {
    hide *;
    var done: set<ChunkCoord> := {};
    b := Box(0, 0, 0, 0, 0, 0);
    while done != keys
      invariant done <= keys
      invariant if done == {} then b == Box(0, 0, 0, 0, 0, 0) else BoundsOf(done, b)
      decreases keys - done
    {
      var cc :| cc in keys && cc !in done;
      if done == {} {
        b := ChunkBox(cc);
        BoundsOfOne(cc);
        assert done + {cc} == {cc};
      } else {
        BoundsGrow(done, b, cc);
        b := Join(b, ChunkBox(cc));
      }
      done := done + {cc};
    }
  }

  // The per-chunk loops of BakeFlatGrid.
  method BakeChunk(cc: ChunkCoord, k: Chunk, grid: array<Word>, dim: nat)
    requires k.mats.Length == CHUNK_VOXELS && grid.Length == dim * dim * dim && k.mats as object != grid
    modifies grid
    ensures PartlyBaked(k.mats[..], cc, dim, old(grid[..]), grid[..], Cell(0, 0, CHUNK_SIZE))
  {
    hide PartlyBaked, Slot, WorldToChunk, ChunkLocal;
    ghost var mats, was := k.mats[..], grid[..];
    BakeNothing(mats, cc, dim, was);
    for lz := 0 to CHUNK_SIZE
      invariant k.mats[..] == mats && PartlyBaked(mats, cc, dim, was, grid[..], Cell(0, 0, lz))
    {
      for ly := 0 to CHUNK_SIZE
        invariant k.mats[..] == mats && PartlyBaked(mats, cc, dim, was, grid[..], Cell(0, ly, lz))
      {
        for lx := 0 to CHUNK_SIZE
          invariant k.mats[..] == mats && PartlyBaked(mats, cc, dim, was, grid[..], Cell(lx, ly, lz))
        {
          var c := CellAt(cc, Cell(lx, ly, lz));
          PartlyBakedStep(mats, cc, dim, was, grid[..], Cell(lx, ly, lz));
          if InCube(dim, c) && k.Get(c) != 0 {
            grid[Flat(dim, c)] := k.Get(c);
          }
        }
        PartlyBakedWrap(mats, cc, dim, was, grid[..], ly, lz);
      }
      PartlyBakedWrap(mats, cc, dim, was, grid[..], 0, lz);
    }
  }

  // The outer loop of BakeFlatGrid; the chunk map is visited in an arbitrary order.
  method BakeChunks(chunks: map<ChunkCoord, Chunk>, ghost m: Voxels, dim: nat) returns (grid: array<Word>)
    requires forall cc <- chunks :: ChunkHolds(m, cc, chunks[cc].mats[..])
    requires chunks.Keys == set c <- m :: WorldToChunk(c)
    ensures fresh(grid) && Bakes(m, grid[..], dim)
  {
    hide BakedChunks, PartlyBaked, Bakes;
    MulNonNegative(dim);
    grid := new Word[dim * dim * dim](_ => 0);
    BakedNone(m, grid[..], dim);
    var done: set<ChunkCoord> := {};
    while done != chunks.Keys
      invariant done <= chunks.Keys
      invariant forall cc <- chunks :: ChunkHolds(m, cc, chunks[cc].mats[..])
      invariant BakedChunks(m, done, grid[..], dim)
      decreases chunks.Keys - done
    {
      var cc :| cc in chunks.Keys && cc !in done;
      ghost var was := grid[..];
      BakeChunk(cc, chunks[cc], grid, dim);
      BakedChunksStep(m, chunks[cc].mats[..], cc, done, was, grid[..], dim);
      done := done + {cc};
    }
    BakedAll(m, done, grid[..], dim);
  }
}
