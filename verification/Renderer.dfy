// The renderer's scene state: the voxel grid and brick index the shaders read, the palette, and
// the temporal history that every geometry change restarts.
module Rendering {
  import opened Grid
  import opened Palettes
  import opened Bricks
  import opened Reprojection
  import opened TemporalHistory

  method ZeroFill(dst: array<Word>, start: nat)
    requires start <= dst.Length
    modifies dst
    ensures forall i :: 0 <= i < dst.Length ==> dst[i] == if i < start then old(dst[i]) else 0
  {
    for i := start to dst.Length
      invariant forall j :: 0 <= j < dst.Length ==> dst[j] == if start <= j < i then 0 else old(dst[j])
    {
      dst[i] := 0;
    }
  }

  // Copies what fits and clears the remainder.
  method CopyWords(dst: array<Word>, src: array<Word>)
    requires dst != src
    modifies dst
    ensures forall i :: 0 <= i < dst.Length ==> dst[i] == if i < src.Length then src[i] else 0
  {
    var toCopy := Min(src.Length, dst.Length);
    for i := 0 to toCopy
      invariant forall j :: 0 <= j < i ==> dst[j] == src[j]
    {
      dst[i] := src[i];
    }
    if toCopy < dst.Length {
      ZeroFill(dst, toCopy);
    }
  }

  class Renderer {
    const voxelPtr: array<Word>
    const brickPtr: array<Word>
    const history: History
    var palette: Palette

    ghost function Repr(): set<object> {
      {this, voxelPtr, brickPtr, history} + history.Buffers()
    }

    // The brick index is exact, whatever sequence of uploads and edits came before.
    ghost predicate Valid()
      reads Repr()
    {
      voxelPtr != brickPtr && BricksExact(voxelPtr[..], brickPtr[..]) && history.Valid()
    }

    // The grid of words the shaders see.
    ghost function Cells(): seq<Word>
      reads voxelPtr
    {
      voxelPtr[..]
    }

    // Init: a grid of any other size than 128^3, or none, gives way to the renderer's own scene.
    constructor (grid: Option<array<Word>>, generated: seq<Word>, startPalette: Palette, screen: Screen, ready: bool)
      requires VoxelSized(generated)
      ensures Valid() && fresh(Repr()) && history.screen == screen && palette == startPalette
      ensures Cells() == if grid.Some? && grid.value.Length == VOXELS then grid.value[..] else generated
    {
      var scene := if grid.Some? && grid.value.Length == VOXELS then grid.value[..] else generated;
      var v := new Word[VOXELS](i requires 0 <= i < |scene| => scene[i]);
      var occ := BuildBrickOccupancy(v);
      var h := new History(screen, ready);
      voxelPtr, brickPtr, history, palette := v, occ, h, startPalette;
      new;
      assert v[..VOXELS] == v[..] == scene;
    }

    method SetVoxels(grid: array<Word>, newPalette: Option<Palette>)
      requires Valid() && grid !in Repr()
      modifies voxelPtr, brickPtr, this`palette, history`accumFrame, history`accHave, history`epoch
      ensures Valid()
      ensures forall i :: 0 <= i < VOXELS ==> Cells()[i] == if i < grid.Length then grid[i] else 0
      ensures palette == if newPalette.Some? then newPalette.value else old(palette)
      ensures history.accumFrame == 0 && !history.accHave
    {
      CopyWords(voxelPtr, grid);
      if newPalette.Some? {
        palette := newPalette.value;
      }
      ZeroFill(brickPtr, 0);
      MarkBricks(voxelPtr, brickPtr);
      history.Restart();
    }

    // Overwrites the cells of a box, clamped to the grid, and refreshes the bricks it overlaps. The
    // region lists the cells of the clamped box.
    method EditVoxels(box: Box, region: seq<Word>, newPalette: Option<Palette>)
      requires Valid()
      requires var b := Clamped(box); !EmptyBox(b) ==> |region| == BoxSize(b)
      modifies voxelPtr, brickPtr, this`palette, history`accumFrame, history`accHave, history`epoch
      ensures Valid()
      ensures var b := Clamped(box);
        && (if EmptyBox(b) then Cells() == old(Cells()) else Edited(old(Cells()), Cells(), b, region))
        && palette == (if !EmptyBox(b) && newPalette.Some? then newPalette.value else old(palette))
        && (!EmptyBox(b) ==> history.accumFrame == 0 && !history.accHave)
    {
      var b := Clamped(box);
      if EmptyBox(b) {
        return;
      }
      ghost var was := voxelPtr[..];
      CopyRegion(voxelPtr, b, region);
      if newPalette.Some? {
        palette := newPalette.value;
      }
      RescanBricks(voxelPtr, brickPtr, b, was, region);
      history.Restart();
    }
  }
}
