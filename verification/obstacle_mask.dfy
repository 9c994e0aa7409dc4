/**
 * The obstacle mask built by the surfaceMesh constructor.
 *
 * The mask is allocated with (width+2)*(height+2) cells, but every write and
 * every read indexes it with stride `width`, not `width+2`. Grid point (i, j)
 * therefore owns mask cell (j+1)*width + i + 1, and the "wall" writes meant
 * for the padded border land partly on the own cells of columns 0 and
 * width-1. Cells that are never written keep whatever the allocation held:
 * that prior content is the parameter `junk` below.
 */
module ObstacleMask {
  import opened Indexing

  function MaskSize(w: nat, h: nat): nat { (w + 2) * (h + 2) }

  /** Mask cell tested for the west neighbour of grid point (i, j). */
  function WestLookup(w: int, i: int, j: int): int { (j + 1) * w + i }

  /** Mask cell tested for the east neighbour of grid point (i, j). */
  function EastLookup(w: int, i: int, j: int): int { (j + 1) * w + i + 2 }

  /** Mask cell tested for the south neighbour (row j-1) of grid point (i, j). */
  function SouthLookup(w: int, i: int, j: int): int { j * w + i + 1 }

  /** Mask cell tested for the north neighbour (row j+1) of grid point (i, j). */
  function NorthLookup(w: int, i: int, j: int): int { (j + 2) * w + i + 1 }

  /** Mask cell that decides whether grid point (i, j) itself is frozen. */
  function SelfLookup(w: int, i: int, j: int): int { (j + 1) * w + i + 1 }

  /** Cell set by the first wall loop for padded row r, meant as its left border. */
  function LeftWall(w: int, r: int): int { r * w }

  /** Cell set by the first wall loop for padded row r, meant as its right border. */
  function RightWall(w: int, r: int): int { r * w + w + 1 }

  /** Cell set by the second wall loop for padded column c, meant as the top border. */
  function TopWall(c: int): int { c }

  /** Cell set by the second wall loop for padded column c, meant as the bottom border. */
  function BottomWall(w: int, h: int, c: int): int { (h + 1) * w + c }

  function Abs(x: int): nat { if x < 0 then -x else x }

  /** Grid point (i, j) lies in the centred block of obstacles (integer division). */
  predicate Centred(w: nat, h: nat, i: int, j: int)
  {
    Abs(i - w / 2) < w / 6 && Abs(j - h / 2) < h / 6
  }

  /** Cell k is set by one of the two wall loops. */
  ghost predicate WallCell(w: nat, h: nat, k: int)
  {
    (exists r :: 0 <= r < h + 2 && k == LeftWall(w, r)) ||
    (exists r :: 0 <= r < h + 2 && k == RightWall(w, r)) ||
    0 <= k < w + 2 ||
    (h + 1) * w <= k < (h + 1) * w + w + 2
  }

  /** Cell k is set by the construction loop as part of the centred block. */
  ghost predicate BlockCell(w: nat, h: nat, k: int)
  {
    exists i, j :: 0 <= i < w && 0 <= j < h && Centred(w, h, i, j) && k == SelfLookup(w, i, j)
  }

  ghost predicate Flagged(w: nat, h: nat, k: int)
  {
    WallCell(w, h, k) || BlockCell(w, h, k)
  }

  /** The mask after construction: 1 on every cell written, the prior content elsewhere. */
  ghost function BuiltMask(w: nat, h: nat, junk: seq<int>): (m: seq<int>)
    requires |junk| == MaskSize(w, h)
    ensures |m| == |junk|
  {
    seq(|junk|, k requires 0 <= k < |junk| => if Flagged(w, h, k) then 1 else junk[k])
  }

  /**
   * A mask that differs from `junk` only by 1s on flagged cells, and that
   * holds 1 on every cell the wall loops and the block write, is BuiltMask.
   */
  lemma MaskAssembled(w: nat, h: nat, junk: seq<int>, ob: seq<int>)
    requires |junk| == MaskSize(w, h) && |ob| == |junk|
    requires forall q :: 0 <= q < |ob| ==> ob[q] == junk[q] || (ob[q] == 1 && Flagged(w, h, q))
    requires forall r :: 0 <= r < h + 2 ==>
               0 <= LeftWall(w, r) < |ob| && ob[LeftWall(w, r)] == 1 &&
               0 <= RightWall(w, r) < |ob| && ob[RightWall(w, r)] == 1
    requires forall c :: 0 <= c < w + 2 ==>
               TopWall(c) < |ob| && ob[TopWall(c)] == 1 &&
               0 <= BottomWall(w, h, c) < |ob| && ob[BottomWall(w, h, c)] == 1
    requires forall i, j :: 0 <= i < w && 0 <= j < h && Centred(w, h, i, j) ==>
               0 <= SelfLookup(w, i, j) < |ob| && ob[SelfLookup(w, i, j)] == 1
    ensures ob == BuiltMask(w, h, junk)
  {
    forall q | 0 <= q < |ob| ensures ob[q] == BuiltMask(w, h, junk)[q] {
      if Flagged(w, h, q) {
        if exists r :: 0 <= r < h + 2 && q == LeftWall(w, r) {
          var r :| 0 <= r < h + 2 && q == LeftWall(w, r);
        } else if exists r :: 0 <= r < h + 2 && q == RightWall(w, r) {
          var r :| 0 <= r < h + 2 && q == RightWall(w, r);
        } else if 0 <= q < w + 2 {
          assert q == TopWall(q);
        } else if (h + 1) * w <= q < (h + 1) * w + w + 2 {
          assert q == BottomWall(w, h, q - (h + 1) * w);
        } else {
          var i, j :| 0 <= i < w && 0 <= j < h && Centred(w, h, i, j) && q == SelfLookup(w, i, j);
        }
      }
    }
  }

  /** A flagged cell inside the allocation reads 1 in the built mask. */
  lemma BuiltMaskAt(w: nat, h: nat, junk: seq<int>, k: int)
    requires |junk| == MaskSize(w, h) && 0 <= k < |junk| && Flagged(w, h, k)
    ensures BuiltMask(w, h, junk)[k] == 1
  {
  }

  /** The allocation happened to be zero-filled (nothing in the source guarantees it). */
  predicate ZeroFilled(junk: seq<int>)
  {
    forall k :: 0 <= k < |junk| ==> junk[k] == 0
  }

  /** Every cell holds 0 (open) or 1 (obstacle). */
  predicate Binary(mask: seq<int>)
  {
    forall k :: 0 <= k < |mask| ==> mask[k] == 0 || mask[k] == 1
  }

  /**
   * Every mask lookup that reaches past the edge of the grid finds a set cell:
   * the west lookup of column 0, the east lookup of column w-1, the south
   * lookup of row 0 and the north lookup of row h-1.
   */
  predicate Guarded(w: nat, h: nat, mask: seq<int>)
  {
    |mask| == MaskSize(w, h) &&
    (forall i, j :: 0 <= i < w && 0 <= j < h && i == 0 ==>
       0 <= WestLookup(w, i, j) < |mask| && mask[WestLookup(w, i, j)] != 0) &&
    (forall i, j :: 0 <= i < w && 0 <= j < h && i == w - 1 ==>
       0 <= EastLookup(w, i, j) < |mask| && mask[EastLookup(w, i, j)] != 0) &&
    (forall i, j :: 0 <= i < w && 0 <= j < h && j == 0 ==>
       0 <= SouthLookup(w, i, j) < |mask| && mask[SouthLookup(w, i, j)] != 0) &&
    (forall i, j :: 0 <= i < w && 0 <= j < h && j == h - 1 ==>
       0 <= NorthLookup(w, i, j) < |mask| && mask[NorthLookup(w, i, j)] != 0)
  }

  lemma MaskSizeExpanded(w: nat, h: nat)
    ensures MaskSize(w, h) == (h + 2) * w + 2 * h + 4
  {
  }

  /** The five lookups made for any grid point stay inside the mask allocation. */
  lemma MaskLookupsInRange(w: nat, h: nat, i: int, j: int)
    requires 0 <= i < w && 0 <= j < h
    ensures 0 <= WestLookup(w, i, j) < MaskSize(w, h)
    ensures 0 <= EastLookup(w, i, j) < MaskSize(w, h)
    ensures 0 <= SouthLookup(w, i, j) < MaskSize(w, h)
    ensures 0 <= NorthLookup(w, i, j) < MaskSize(w, h)
    ensures 0 <= SelfLookup(w, i, j) < MaskSize(w, h)
  {
    MulMono(0, j, w);
    MulMono(j + 2, h + 1, w);
    assert (h + 1) * w + w == (h + 2) * w;
    MaskSizeExpanded(w, h);
  }

  /** The cells written by the wall loops stay inside the mask allocation. */
  lemma WallsInRange(w: nat, h: nat, r: int)
    requires 0 <= r < h + 2
    ensures 0 <= LeftWall(w, r) && RightWall(w, r) < MaskSize(w, h)
    ensures (h + 1) * w + w + 2 <= MaskSize(w, h)
  {
    MulMono(0, r, w);
    MulMono(r, h + 1, w);
    assert (h + 1) * w + w == (h + 2) * w;
    MaskSizeExpanded(w, h);
  }

  /**
   * Neighbour selection of the obstacle stencil: a neighbour whose mask cell
   * is set is replaced by the point itself.
   */
  function MaskedNeighbours(w: nat, h: nat, mask: seq<int>, i: int, j: int): Neighbours
    requires |mask| == MaskSize(w, h) && 0 <= i < w && 0 <= j < h
  {
    MaskLookupsInRange(w, h, i, j);
    Neighbours(if mask[WestLookup(w, i, j)] != 0 then i else i - 1,
               if mask[EastLookup(w, i, j)] != 0 then i else i + 1,
               if mask[SouthLookup(w, i, j)] != 0 then j else j - 1,
               if mask[NorthLookup(w, i, j)] != 0 then j else j + 1)
  }

  /** On a guarded mask, obstacle neighbour selection never leaves the grid. */
  lemma MaskedNeighboursInGrid(w: nat, h: nat, mask: seq<int>, i: int, j: int)
    requires Guarded(w, h, mask) && 0 <= i < w && 0 <= j < h
    ensures InGrid(w, h, MaskedNeighbours(w, h, mask, i, j))
  {
    if i == 0 { assert mask[WestLookup(w, i, j)] != 0; }
    if i == w - 1 { assert mask[EastLookup(w, i, j)] != 0; }
    if j == 0 { assert mask[SouthLookup(w, i, j)] != 0; }
    if j == h - 1 { assert mask[NorthLookup(w, i, j)] != 0; }
  }

  /**
   * Despite the stride, the constructed mask is guarded: every lookup past
   * the edge of the grid lands on a cell one of the wall loops set.
   */
  lemma BuiltMaskGuarded(w: nat, h: nat, junk: seq<int>)
    requires |junk| == MaskSize(w, h)
    ensures Guarded(w, h, BuiltMask(w, h, junk))
  {
    WestGuarded(w, h, junk);
    EastGuarded(w, h, junk);
    SouthGuarded(w, h, junk);
    NorthGuarded(w, h, junk);
  }

  /** The west lookups of column 0 land on the right-wall cells of the rows before. */
  lemma WestGuarded(w: nat, h: nat, junk: seq<int>)
    requires |junk| == MaskSize(w, h)
    ensures forall i, j :: 0 <= i < w && 0 <= j < h && i == 0 ==>
              0 <= WestLookup(w, i, j) < |junk| && BuiltMask(w, h, junk)[WestLookup(w, i, j)] != 0
  {
    forall i, j | 0 <= i < w && 0 <= j < h && i == 0
      ensures 0 <= WestLookup(w, i, j) < |junk| && BuiltMask(w, h, junk)[WestLookup(w, i, j)] != 0
    {
      WallsInRange(w, h, j + 1);
      assert WestLookup(w, i, j) == LeftWall(w, j + 1);
      assert WallCell(w, h, LeftWall(w, j + 1));
      BuiltMaskAt(w, h, junk, WestLookup(w, i, j));
    }
  }

  /** The east lookups of column w-1 land on right-wall cells. */
  lemma EastGuarded(w: nat, h: nat, junk: seq<int>)
    requires |junk| == MaskSize(w, h)
    ensures forall i, j :: 0 <= i < w && 0 <= j < h && i == w - 1 ==>
              0 <= EastLookup(w, i, j) < |junk| && BuiltMask(w, h, junk)[EastLookup(w, i, j)] != 0
  {
    forall i, j | 0 <= i < w && 0 <= j < h && i == w - 1
      ensures 0 <= EastLookup(w, i, j) < |junk| && BuiltMask(w, h, junk)[EastLookup(w, i, j)] != 0
    {
      WallsInRange(w, h, j + 1);
      assert EastLookup(w, i, j) == RightWall(w, j + 1);
      assert WallCell(w, h, RightWall(w, j + 1));
      BuiltMaskAt(w, h, junk, EastLookup(w, i, j));
    }
  }

  /** The south lookups of row 0 land on the top wall. */
  lemma SouthGuarded(w: nat, h: nat, junk: seq<int>)
    requires |junk| == MaskSize(w, h)
    ensures forall i, j :: 0 <= i < w && 0 <= j < h && j == 0 ==>
              0 <= SouthLookup(w, i, j) < |junk| && BuiltMask(w, h, junk)[SouthLookup(w, i, j)] != 0
  {
    forall i, j | 0 <= i < w && 0 <= j < h && j == 0
      ensures 0 <= SouthLookup(w, i, j) < |junk| && BuiltMask(w, h, junk)[SouthLookup(w, i, j)] != 0
    {
      WallsInRange(w, h, 0);
      assert SouthLookup(w, i, j) == i + 1;
      assert WallCell(w, h, SouthLookup(w, i, j));
      BuiltMaskAt(w, h, junk, SouthLookup(w, i, j));
    }
  }

  /** The north lookups of row h-1 land on the bottom wall. */
  lemma NorthGuarded(w: nat, h: nat, junk: seq<int>)
    requires |junk| == MaskSize(w, h)
    ensures forall i, j :: 0 <= i < w && 0 <= j < h && j == h - 1 ==>
              0 <= NorthLookup(w, i, j) < |junk| && BuiltMask(w, h, junk)[NorthLookup(w, i, j)] != 0
  {
    forall i, j | 0 <= i < w && 0 <= j < h && j == h - 1
      ensures 0 <= NorthLookup(w, i, j) < |junk| && BuiltMask(w, h, junk)[NorthLookup(w, i, j)] != 0
    {
      WallsInRange(w, h, 0);
      assert NorthLookup(w, i, j) == (h + 1) * w + i + 1;
      assert WallCell(w, h, NorthLookup(w, i, j));
      BuiltMaskAt(w, h, junk, NorthLookup(w, i, j));
    }
  }

  /**
   * Because of the stride, the wall writes land on the own cells of grid
   * columns 0 and w-1: those columns are frozen in obstacle mode.
   */
  lemma EdgeColumnsFrozen(w: nat, h: nat, junk: seq<int>, j: int)
    requires |junk| == MaskSize(w, h) && w > 0 && 0 <= j < h
    ensures 0 <= SelfLookup(w, 0, j) < |junk| && BuiltMask(w, h, junk)[SelfLookup(w, 0, j)] == 1
    ensures 0 <= SelfLookup(w, w - 1, j) < |junk| && BuiltMask(w, h, junk)[SelfLookup(w, w - 1, j)] == 1
  {
    MaskLookupsInRange(w, h, 0, j);
    MaskLookupsInRange(w, h, w - 1, j);
    assert SelfLookup(w, 0, j) == RightWall(w, j);
    assert WallCell(w, h, RightWall(w, j));
    BuiltMaskAt(w, h, junk, SelfLookup(w, 0, j));
    assert SelfLookup(w, w - 1, j) == LeftWall(w, j + 2);
    assert WallCell(w, h, LeftWall(w, j + 2));
    BuiltMaskAt(w, h, junk, SelfLookup(w, w - 1, j));
  }

  lemma BlockCellWitness(w: nat, h: nat, i: int, j: int)
    requires 0 <= i < w && 0 <= j < h && Centred(w, h, i, j)
    ensures BlockCell(w, h, SelfLookup(w, i, j))
  {
  }

  /** Every grid point of the centred block is frozen. */
  lemma BlockFrozen(w: nat, h: nat, junk: seq<int>, i: int, j: int)
    requires |junk| == MaskSize(w, h) && 0 <= i < w && 0 <= j < h && Centred(w, h, i, j)
    ensures 0 <= SelfLookup(w, i, j) < |junk| && BuiltMask(w, h, junk)[SelfLookup(w, i, j)] == 1
  {
    MaskLookupsInRange(w, h, i, j);
    BlockCellWitness(w, h, i, j);
    BuiltMaskAt(w, h, junk, SelfLookup(w, i, j));
  }

  /** If the allocation was zero-filled, the built mask holds only 0 and 1. */
  lemma ZeroFilledMaskIsBinary(w: nat, h: nat, junk: seq<int>)
    requires |junk| == MaskSize(w, h) && ZeroFilled(junk)
    ensures Binary(BuiltMask(w, h, junk))
  {
  }
}
