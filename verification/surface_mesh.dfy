/**
 * The surface mesh: a width-by-height lattice of points stored as four reals
 * each (x, y, z, w) in `mesh`, an accumulator `heightf` with one real per
 * point, and the obstacle mask. Every simulation step rewrites component 1
 * (the height) of each point and nothing else of the point buffer.
 *
 * The host variants run the source's nested loops; the device variants copy
 * the buffers, apply the kernel to every point at once (a `forall`
 * statement) and copy the accumulator back. Both kinds are specified by the
 * pass functions of Stencil, so equal postconditions mean equal results.
 */
module Surface {
  import opened Indexing
  import opened ObstacleMask
  import opened Stencil

  /** x coordinate of column i; the offset is half the *height* times the spacing, as in the constructor. */
  function LatticeX(h: nat, s: real, i: int): real
  {
    i as real * s - h as real * s / 2.0
  }

  /** z coordinate of row j; the offset is half the *width* times the spacing. */
  function LatticeZ(w: nat, s: real, j: int): real
  {
    j as real * s - w as real * s / 2.0
  }

  /** Component c of point p as the constructor lays it out. */
  function InitialComponent(w: nat, h: nat, s: real, p: int, c: int): real
    requires 0 <= p < w * h
  {
    CoordsInGrid(w, h, p);
    if c == 0 then LatticeX(h, s, Col(w, p))
    else if c == 2 then LatticeZ(w, s, Row(w, p))
    else if c == 3 then 1.0
    else 0.0
  }

  /** The point buffer right after construction. */
  function InitialMesh(w: nat, h: nat, s: real): (m: seq<real>)
    ensures Shaped(w, h, m)
  {
    seq(4 * (w * h), c requires 0 <= c < 4 * (w * h) => InitialComponent(w, h, s, c / 4, c % 4))
  }

  /**
   * Grid point (i, j) starts at x = i*s - h*s/2, height 0, z = j*s - w*s/2,
   * with homogeneous coordinate 1.
   */
  lemma InitialMeshAt(w: nat, h: nat, s: real, i: int, j: int)
    requires 0 <= i < w && 0 <= j < h
    ensures 0 <= Point(w, i, j) < w * h
    ensures InitialMesh(w, h, s)[Slot(Point(w, i, j), 0)] == LatticeX(h, s, i)
    ensures InitialMesh(w, h, s)[Slot(Point(w, i, j), 1)] == 0.0
    ensures InitialMesh(w, h, s)[Slot(Point(w, i, j), 2)] == LatticeZ(w, s, j)
    ensures InitialMesh(w, h, s)[Slot(Point(w, i, j), 3)] == 1.0
  {
    PointInGrid(w, h, i, j);
    PointCoords(w, i, j);
    var k := Point(w, i, j);
    assert Slot(k, 0) / 4 == k && Slot(k, 0) % 4 == 0;
    assert Slot(k, 1) / 4 == k && Slot(k, 1) % 4 == 1;
    assert Slot(k, 2) / 4 == k && Slot(k, 2) % 4 == 2;
    assert Slot(k, 3) / 4 == k && Slot(k, 3) % 4 == 3;
  }

  /** The constructor leaves every height at zero. */
  lemma InitialMeshIsLevel(w: nat, h: nat, s: real)
    ensures Heights(InitialMesh(w, h, s)) == Zeros(w * h)
  {
    var m := InitialMesh(w, h, s);
    forall p | 0 <= p < w * h ensures Heights(m)[p] == 0.0 {
      assert Slot(p, 1) / 4 == p && Slot(p, 1) % 4 == 1;
    }
  }

  /** Components x, z and w of every point are still those of the initial layout. */
  predicate LatticeIntact(w: nat, h: nat, s: real, mesh: seq<real>)
    requires Shaped(w, h, mesh)
  {
    forall p, c :: 0 <= p < w * h && 0 <= c < 4 && c != 1 ==>
      mesh[Slot(p, c)] == InitialMesh(w, h, s)[Slot(p, c)]
  }

  /** Rewriting the heights leaves the lattice where it was. */
  lemma LatticeSurvivesHeights(w: nat, h: nat, s: real, mesh: seq<real>, ys: seq<real>)
    requires Shaped(w, h, mesh) && |ys| == w * h && LatticeIntact(w, h, s, mesh)
    ensures Shaped(w, h, WithHeights(mesh, ys)) && LatticeIntact(w, h, s, WithHeights(mesh, ys))
  {
    forall p, c | 0 <= p < w * h && 0 <= c < 4 && c != 1
      ensures WithHeights(mesh, ys)[Slot(p, c)] == InitialMesh(w, h, s)[Slot(p, c)]
    {
      WithHeightsAt(mesh, ys, p, c);
    }
  }

  lemma RowsFit(w: nat, h: nat, j: int)
    requires 0 <= j < h
    ensures Point(w, 0, j) + w == Point(w, 0, j + 1) <= w * h
  {
    MulMono(j + 1, h, w);
  }

  /** Mask cells hold their prior content, or 1 where the constructor flags them. */
  ghost predicate OnlyFlagsSet(w: nat, h: nat, junk: seq<int>, ob: seq<int>)
  {
    |ob| == |junk| && forall q :: 0 <= q < |ob| ==> ob[q] == junk[q] || (ob[q] == 1 && Flagged(w, h, q))
  }

  /** The own cell of every centred grid point in rows [0, rows) is set. */
  predicate BlockSet(w: nat, h: nat, ob: seq<int>, rows: int)
  {
    forall i, j :: 0 <= i < w && 0 <= j < rows && j < h && Centred(w, h, i, j) ==>
      0 <= SelfLookup(w, i, j) < |ob| && ob[SelfLookup(w, i, j)] == 1
  }

  /** The own cell of every centred grid point (i, j) with i < cols is set. */
  predicate RowBlockSet(w: nat, h: nat, ob: seq<int>, j: int, cols: int)
  {
    forall i :: 0 <= i < cols && Centred(w, h, i, j) ==>
      0 <= SelfLookup(w, i, j) < |ob| && ob[SelfLookup(w, i, j)] == 1
  }

  /** Setting one more flagged cell to 1 keeps the mask invariants. */
  lemma SetFlagKeeps(w: nat, h: nat, junk: seq<int>, ob: seq<int>, q: int, rows: int)
    requires OnlyFlagsSet(w, h, junk, ob) && 0 <= q < |ob| && Flagged(w, h, q)
    ensures OnlyFlagsSet(w, h, junk, ob[q := 1])
    ensures BlockSet(w, h, ob, rows) ==> BlockSet(w, h, ob[q := 1], rows)
    ensures forall j, cols :: RowBlockSet(w, h, ob, j, cols) ==> RowBlockSet(w, h, ob[q := 1], j, cols)
  {
  }

  /** A row whose block cells are all set extends the rows below it. */
  lemma RowCompletesBlock(w: nat, h: nat, ob: seq<int>, j: int)
    requires 0 <= j < h && BlockSet(w, h, ob, j) && RowBlockSet(w, h, ob, j, w)
    ensures BlockSet(w, h, ob, j + 1)
  {
  }

  /**
   * The constructor's first loop nest: every point gets its lattice position,
   * zero height and zero accumulator, and the own mask cell of every point of
   * the centred block is set.
   */
  method LayOutPoints(w: nat, h: nat, s: real, m: array<real>, hf: array<real>, ob: array<int>, ghost junk: seq<int>)
    requires m.Length == 4 * (w * h) && hf.Length == w * h && ob.Length == MaskSize(w, h) && m != hf
    requires OnlyFlagsSet(w, h, junk, ob[..])
    modifies m, hf, ob
    ensures m[..] == InitialMesh(w, h, s) && hf[..] == Zeros(w * h)
    ensures OnlyFlagsSet(w, h, junk, ob[..]) && BlockSet(w, h, ob[..], h)
  {
    var j := 0;
    while j < h
      invariant 0 <= j <= h && Point(w, 0, j) <= w * h
      invariant LaidOut(w, h, s, m[..], hf[..], Point(w, 0, j))
      invariant OnlyFlagsSet(w, h, junk, ob[..]) && BlockSet(w, h, ob[..], j)
    {
      LayOutRow(w, h, s, m, hf, ob, junk, j);
      j := j + 1;
    }
    LaidOutDone(w, h, s, m[..], hf[..]);
  }

  /** Once every point is laid out, the buffers are the initial ones. */
  lemma LaidOutDone(w: nat, h: nat, s: real, m: seq<real>, hf: seq<real>)
    requires |m| == 4 * (w * h) && |hf| == w * h && Point(w, 0, h) == w * h
    requires LaidOut(w, h, s, m, hf, Point(w, 0, h))
    ensures m == InitialMesh(w, h, s) && hf == Zeros(w * h)
  {
  }

  /** One row of the first loop nest. */
  method LayOutRow(w: nat, h: nat, s: real, m: array<real>, hf: array<real>, ob: array<int>, ghost junk: seq<int>, j: int)
    requires m.Length == 4 * (w * h) && hf.Length == w * h && ob.Length == MaskSize(w, h) && m != hf
    requires 0 <= j < h && LaidOut(w, h, s, m[..], hf[..], Point(w, 0, j))
    requires OnlyFlagsSet(w, h, junk, ob[..]) && BlockSet(w, h, ob[..], j)
    modifies m, hf, ob
    ensures Point(w, 0, j + 1) <= w * h && LaidOut(w, h, s, m[..], hf[..], Point(w, 0, j + 1))
    ensures OnlyFlagsSet(w, h, junk, ob[..]) && BlockSet(w, h, ob[..], j + 1)
  {
    RowsFit(w, h, j);
    var i := 0;
    var k := Point(w, 0, j);
    while i < w
      invariant 0 <= i <= w && k == Point(w, i, j) <= w * h
      invariant LaidOut(w, h, s, m[..], hf[..], k)
      invariant OnlyFlagsSet(w, h, junk, ob[..]) && BlockSet(w, h, ob[..], j)
      invariant RowBlockSet(w, h, ob[..], j, i)
    {
      LayOutPoint(w, h, s, m, hf, i, j, k);
      FlagBlockPoint(w, h, ob, junk, i, j);
      i, k := i + 1, k + 1;
    }
    RowCompletesBlock(w, h, ob[..], j);
  }

  /** The mask write of the first loop nest for grid point (i, j): its own cell is set when the point is in the centred block. */
  method FlagBlockPoint(w: nat, h: nat, ob: array<int>, ghost junk: seq<int>, i: int, j: int)
    requires ob.Length == MaskSize(w, h) && 0 <= i < w && 0 <= j < h
    requires OnlyFlagsSet(w, h, junk, ob[..]) && BlockSet(w, h, ob[..], j) && RowBlockSet(w, h, ob[..], j, i)
    modifies ob
    ensures OnlyFlagsSet(w, h, junk, ob[..]) && BlockSet(w, h, ob[..], j) && RowBlockSet(w, h, ob[..], j, i + 1)
    ensures Centred(w, h, i, j) ==>
              0 <= SelfLookup(w, i, j) < ob.Length && ob[..] == old(ob[..])[SelfLookup(w, i, j) := 1]
    ensures !Centred(w, h, i, j) ==> ob[..] == old(ob[..])
  {
    if Abs(i - w / 2) < w / 6 && Abs(j - h / 2) < h / 6 {
      MaskLookupsInRange(w, h, i, j);
      BlockCellWitness(w, h, i, j);
      SetFlagKeeps(w, h, junk, ob[..], SelfLookup(w, i, j), j);
      ob[SelfLookup(w, i, j)] := 1;
    }
  }

  /** Points [0, k) of the buffers hold their initial values. */
  predicate LaidOut(w: nat, h: nat, s: real, m: seq<real>, hf: seq<real>, k: int)
    requires |m| == 4 * (w * h) && |hf| == w * h && 0 <= k <= w * h
  {
    (forall c :: 0 <= c < 4 * k ==> m[c] == InitialMesh(w, h, s)[c])
    && (forall p :: 0 <= p < k ==> hf[p] == 0.0)
  }

  /** The point writes of the first loop nest for grid point (i, j), whose linear index is k. */
  method LayOutPoint(w: nat, h: nat, s: real, m: array<real>, hf: array<real>, i: int, j: int, k: int)
    requires m.Length == 4 * (w * h) && hf.Length == w * h && m != hf
    requires 0 <= i < w && 0 <= j < h && k == Point(w, i, j) && k < w * h
    requires LaidOut(w, h, s, m[..], hf[..], k)
    modifies m, hf
    ensures LaidOut(w, h, s, m[..], hf[..], k + 1)
  {
    InitialMeshAt(w, h, s, i, j);
    m[Slot(k, 0)] := i as real * s - h as real * s / 2.0;
    m[Slot(k, 1)] := 0.0;
    m[Slot(k, 2)] := j as real * s - w as real * s / 2.0;
    m[Slot(k, 3)] := 1.0;
    hf[k] := 0.0;
  }

  /** The wall cells of padded rows [0, rows) are set. */
  predicate RowEndsSet(w: nat, h: nat, ob: seq<int>, rows: int)
  {
    forall r :: 0 <= r < rows ==>
      0 <= LeftWall(w, r) < |ob| && ob[LeftWall(w, r)] == 1 &&
      0 <= RightWall(w, r) < |ob| && ob[RightWall(w, r)] == 1
  }

  /** The top and bottom wall cells of padded columns [0, cols) are set. */
  predicate TopBottomSet(w: nat, h: nat, ob: seq<int>, cols: int)
  {
    forall c :: 0 <= c < cols ==>
      TopWall(c) < |ob| && ob[TopWall(c)] == 1 &&
      0 <= BottomWall(w, h, c) < |ob| && ob[BottomWall(w, h, c)] == 1
  }

  /** Setting a cell to 1 keeps every cell that was 1. */
  lemma SetFlagKeepsWalls(w: nat, h: nat, ob: seq<int>, q: int, rows: int, cols: int)
    requires 0 <= q < |ob|
    ensures RowEndsSet(w, h, ob, rows) ==> RowEndsSet(w, h, ob[q := 1], rows)
    ensures TopBottomSet(w, h, ob, cols) ==> TopBottomSet(w, h, ob[q := 1], cols)
  {
  }

  /**
   * The constructor's wall loops: for every padded row its first and last
   * cell (by stride w), then the first w+2 cells and the w+2 cells from
   * (h+1)*w on.
   */
  method FlagWalls(w: nat, h: nat, ob: array<int>, ghost junk: seq<int>)
    requires ob.Length == MaskSize(w, h) && OnlyFlagsSet(w, h, junk, ob[..]) && BlockSet(w, h, ob[..], h)
    modifies ob
    ensures ob[..] == BuiltMask(w, h, junk)
  {
    FlagRowEnds(w, h, ob, junk);
    FlagTopBottom(w, h, ob, junk);
    MaskAssembled(w, h, junk, ob[..]);
  }

  /** First wall loop: cells r*w and r*w+w+1 of every padded row r. */
  method FlagRowEnds(w: nat, h: nat, ob: array<int>, ghost junk: seq<int>)
    requires ob.Length == MaskSize(w, h) && OnlyFlagsSet(w, h, junk, ob[..]) && BlockSet(w, h, ob[..], h)
    modifies ob
    ensures OnlyFlagsSet(w, h, junk, ob[..]) && BlockSet(w, h, ob[..], h) && RowEndsSet(w, h, ob[..], h + 2)
  {
    var r := 0;
    while r < h + 2
      invariant 0 <= r <= h + 2
      invariant OnlyFlagsSet(w, h, junk, ob[..]) && BlockSet(w, h, ob[..], h) && RowEndsSet(w, h, ob[..], r)
    {
      WallsInRange(w, h, r);
      assert WallCell(w, h, LeftWall(w, r)) && WallCell(w, h, RightWall(w, r));
      SetFlagKeeps(w, h, junk, ob[..], LeftWall(w, r), h);
      SetFlagKeepsWalls(w, h, ob[..], LeftWall(w, r), r, 0);
      ob[LeftWall(w, r)] := 1;
      SetFlagKeeps(w, h, junk, ob[..], RightWall(w, r), h);
      SetFlagKeepsWalls(w, h, ob[..], RightWall(w, r), r, 0);
      ob[RightWall(w, r)] := 1;
      r := r + 1;
    }
  }

  /** Second wall loop: cells c and (h+1)*w+c for every padded column c. */
  method FlagTopBottom(w: nat, h: nat, ob: array<int>, ghost junk: seq<int>)
    requires ob.Length == MaskSize(w, h) && OnlyFlagsSet(w, h, junk, ob[..])
    requires BlockSet(w, h, ob[..], h) && RowEndsSet(w, h, ob[..], h + 2)
    modifies ob
    ensures OnlyFlagsSet(w, h, junk, ob[..]) && BlockSet(w, h, ob[..], h)
    ensures RowEndsSet(w, h, ob[..], h + 2) && TopBottomSet(w, h, ob[..], w + 2)
  {
    WallsInRange(w, h, 0);
    var c := 0;
    while c < w + 2
      invariant 0 <= c <= w + 2
      invariant OnlyFlagsSet(w, h, junk, ob[..]) && BlockSet(w, h, ob[..], h)
      invariant RowEndsSet(w, h, ob[..], h + 2) && TopBottomSet(w, h, ob[..], c)
    {
      SetFlagKeeps(w, h, junk, ob[..], TopWall(c), h);
      SetFlagKeepsWalls(w, h, ob[..], TopWall(c), h + 2, c);
      ob[TopWall(c)] := 1;
      SetFlagKeeps(w, h, junk, ob[..], BottomWall(w, h, c), h);
      SetFlagKeepsWalls(w, h, ob[..], BottomWall(w, h, c), h + 2, c);
      ob[BottomWall(w, h, c)] := 1;
      c := c + 1;
    }
  }

  /**
   * The host loop's conditional clamps read the same four heights as the
   * kernel rule HeightfieldCell.
   */
  lemma HostHeightfieldCell(w: nat, h: nat, m: seq<real>, i: int, j: int, acc: real)
    requires Shaped(w, h, m) && 0 <= i < w && 0 <= j < h
    ensures 0 <= Point(w, i, j) < w * h && InGrid(w, h, HostClamp(w, h, i, j))
    ensures var n := HostClamp(w, h, i, j);
            HeightfieldCell(w, h, m, Point(w, i, j), acc)
            == (acc + (Height(w, h, m, n.iLo, j) + Height(w, h, m, n.iHi, j)
                       + Height(w, h, m, i, n.jLo) + Height(w, h, m, i, n.jHi)) / 4.0
                    - Height(w, h, m, i, j)) * Decay
  {
    PointInGrid(w, h, i, j);
    PointCoords(w, i, j);
    ClampAgree(w, h, i, j);
  }

  /** The host obstacle loop's body computes the rule ObstacleCell. */
  lemma HostObstacleCell(w: nat, h: nat, m: seq<real>, mask: seq<int>, i: int, j: int, acc: real)
    requires Shaped(w, h, m) && Guarded(w, h, mask) && 0 <= i < w && 0 <= j < h
    ensures 0 <= Point(w, i, j) < w * h && 0 <= SelfLookup(w, i, j) < |mask|
    ensures InGrid(w, h, MaskedNeighbours(w, h, mask, i, j))
    ensures var n := MaskedNeighbours(w, h, mask, i, j);
            ObstacleCell(w, h, m, mask, Point(w, i, j), acc)
            == if mask[SelfLookup(w, i, j)] != 0 then acc
               else (acc + (Height(w, h, m, n.iLo, j) + Height(w, h, m, n.iHi, j)
                            + Height(w, h, m, i, n.jLo) + Height(w, h, m, i, n.jHi)) / 4.0
                         - Height(w, h, m, i, j)) * Decay
  {
    PointInGrid(w, h, i, j);
    PointCoords(w, i, j);
    MaskLookupsInRange(w, h, i, j);
    MaskedNeighboursInGrid(w, h, mask, i, j);
  }

  /** HostHeightfieldCell for any rule that computes HeightfieldCell. */
  lemma HostHeightfieldStep(rule: (nat, real) -> real, w: nat, h: nat, m: seq<real>, i: int, j: int, acc: real)
    requires Shaped(w, h, m) && HeightfieldRuleOf(rule, w, h, m) && 0 <= i < w && 0 <= j < h
    ensures 0 <= Point(w, i, j) < w * h && InGrid(w, h, HostClamp(w, h, i, j))
    ensures var n := HostClamp(w, h, i, j);
            rule(Point(w, i, j), acc)
            == (acc + (Height(w, h, m, n.iLo, j) + Height(w, h, m, n.iHi, j)
                       + Height(w, h, m, i, n.jLo) + Height(w, h, m, i, n.jHi)) / 4.0
                    - Height(w, h, m, i, j)) * Decay
  {
    HostHeightfieldCell(w, h, m, i, j, acc);
  }

  /** HostObstacleCell for any rule that computes ObstacleCell. */
  lemma HostObstacleStep(rule: (nat, real) -> real, w: nat, h: nat, m: seq<real>, mask: seq<int>, i: int, j: int, acc: real)
    requires Shaped(w, h, m) && Guarded(w, h, mask) && ObstacleRuleOf(rule, w, h, m, mask) && 0 <= i < w && 0 <= j < h
    ensures 0 <= Point(w, i, j) < w * h && 0 <= SelfLookup(w, i, j) < |mask|
    ensures InGrid(w, h, MaskedNeighbours(w, h, mask, i, j))
    ensures var n := MaskedNeighbours(w, h, mask, i, j);
            rule(Point(w, i, j), acc)
            == if mask[SelfLookup(w, i, j)] != 0 then acc
               else (acc + (Height(w, h, m, n.iLo, j) + Height(w, h, m, n.iHi, j)
                            + Height(w, h, m, i, n.jLo) + Height(w, h, m, i, n.jHi)) / 4.0
                         - Height(w, h, m, i, j)) * Decay
  {
    HostObstacleCell(w, h, m, mask, i, j, acc);
  }

  /** The constructor's allocations and loops: the point buffer, the accumulator and the mask. */
  method Build(w: nat, h: nat, s: real, junk: seq<int>) returns (m: array<real>, hf: array<real>, ob: array<int>)
    requires |junk| == MaskSize(w, h)
    ensures fresh(m) && fresh(hf) && fresh(ob) && m != hf
    ensures m[..] == InitialMesh(w, h, s) && hf[..] == Zeros(w * h)
    ensures ob[..] == BuiltMask(w, h, junk)
  {
    var n := w * h;
    m := new real[4 * n];
    hf := new real[n];
    ob := new int[MaskSize(w, h)](k requires 0 <= k < |junk| => junk[k]);
    LayOutPoints(w, h, s, m, hf, ob, junk);
    FlagWalls(w, h, ob, junk);
  }

  class SurfaceMesh {
    const width: nat
    const height: nat
    const spacing: real
    /** x, y, z, w of every point, row by row. */
    const mesh: array<real>
    /** Accumulator of the height-field diffusion, one per point. */
    const heightf: array<real>
    /** Obstacle flags, addressed as described in ObstacleMask. */
    const obstacle: array<int>

    ghost predicate Valid()
      reads mesh, heightf, obstacle
    {
      mesh != heightf
      && mesh.Length == 4 * (width * height)
      && heightf.Length == width * height
      && Guarded(width, height, obstacle[..])
      && LatticeIntact(width, height, spacing, mesh[..])
    }

    /**
     * Lay out w*h points at the given spacing with zero heights and zero
     * accumulators, and flag the obstacle cells. `junk` is the content of the
     * mask allocation before the constructor writes to it.
     */
    constructor (w: nat, h: nat, s: real, junk: seq<int>)
      requires |junk| == MaskSize(w, h)
      ensures width == w && height == h && spacing == s
      ensures fresh(mesh) && fresh(heightf) && fresh(obstacle)
      ensures Valid()
      ensures mesh[..] == InitialMesh(w, h, s) && heightf[..] == Zeros(w * h)
      ensures Heights(mesh[..]) == Zeros(w * h)
      ensures obstacle[..] == BuiltMask(w, h, junk)
    {
      var m, hf, ob := Build(w, h, s, junk);
      InitialMeshIsLevel(w, h, s);
      BuiltMaskGuarded(w, h, junk);
      width, height, spacing := w, h, s;
      mesh, heightf, obstacle := m, hf, ob;
    }

    /** Zero every height and every accumulator; x, z and w stay. */
    method Reset()
      requires Valid()
      modifies mesh, heightf
      ensures Valid()
      ensures mesh[..] == WithHeights(old(mesh[..]), Zeros(width * height))
      ensures heightf[..] == Zeros(width * height)
    {
      ghost var m0 := mesh[..];
      ghost var ys := Zeros(width * height);
      var j := 0;
      while j < height
        invariant 0 <= j <= height && Point(width, 0, j) <= width * height
        invariant HeightsPrefix(m0, mesh[..], ys, Point(width, 0, j))
        invariant forall p :: 0 <= p < Point(width, 0, j) ==> heightf[p] == 0.0
      {
        ResetRow(j, m0);
        j := j + 1;
      }
      HeightsPrefixDone(m0, mesh[..], ys);
      LatticeSurvivesHeights(width, height, spacing, m0, ys);
    }

    /** Row j of Reset. */
    method ResetRow(j: int, ghost m0: seq<real>)
      requires mesh.Length == 4 * (width * height) && heightf.Length == width * height && mesh != heightf
      requires 0 <= j < height
      requires HeightsPrefix(m0, mesh[..], Zeros(width * height), Point(width, 0, j))
      requires forall p :: 0 <= p < Point(width, 0, j) ==> heightf[p] == 0.0
      modifies mesh, heightf
      ensures Point(width, 0, j + 1) <= width * height
      ensures HeightsPrefix(m0, mesh[..], Zeros(width * height), Point(width, 0, j + 1))
      ensures forall p :: 0 <= p < Point(width, 0, j + 1) ==> heightf[p] == 0.0
    {
      RowsFit(width, height, j);
      ghost var ys := Zeros(width * height);
      var i := 0;
      var k := Point(width, 0, j);
      while i < width
        invariant 0 <= i <= width && k == Point(width, i, j) <= width * height
        invariant HeightsPrefix(m0, mesh[..], ys, k)
        invariant forall p :: 0 <= p < k ==> heightf[p] == 0.0
      {
        HeightsPrefixStep(m0, mesh[..], ys, k);
        mesh[Slot(k, 1)] := 0.0;
        heightf[k] := 0.0;
        i, k := i + 1, k + 1;
      }
    }

    /**
     * Host procedural waves: every height becomes the sum of three sine waves
     * of the time and the point's coordinates.
     */
    method Procedural(time: real, sin: real -> real)
      requires Valid()
      modifies mesh
      ensures Valid()
      ensures mesh[..] == WithHeights(old(mesh[..]), WaveHeights(width, height, spacing, time, sin))
    {
      ghost var m0 := mesh[..];
      ghost var ys := WaveHeights(width, height, spacing, time, sin);
      WaveHeightsAreWaves(width, height, spacing, time, sin);
      ProceduralRows(time, sin, ys);
      LatticeSurvivesHeights(width, height, spacing, m0, ys);
    }

    /** The row loop of Procedural, writing the heights `ys`. */
    method ProceduralRows(time: real, sin: real -> real, ghost ys: seq<real>)
      requires mesh.Length == 4 * (width * height) && WaveHeightsOf(ys, width, height, spacing, time, sin)
      modifies mesh
      ensures mesh[..] == WithHeights(old(mesh[..]), ys)
    {
      ghost var m0 := mesh[..];
      var j := 0;
      while j < height
        invariant 0 <= j <= height && Point(width, 0, j) <= width * height
        invariant HeightsPrefix(m0, mesh[..], ys, Point(width, 0, j))
      {
        ProceduralRow(time, sin, j, m0, ys);
        j := j + 1;
      }
      HeightsPrefixDone(m0, mesh[..], ys);
    }

    /** Row j of Procedural. */
    method ProceduralRow(time: real, sin: real -> real, j: int, ghost m0: seq<real>, ghost ys: seq<real>)
      requires mesh.Length == 4 * (width * height) && 0 <= j < height
      requires WaveHeightsOf(ys, width, height, spacing, time, sin)
      requires HeightsPrefix(m0, mesh[..], ys, Point(width, 0, j))
      modifies mesh
      ensures Point(width, 0, j + 1) <= width * height
      ensures HeightsPrefix(m0, mesh[..], ys, Point(width, 0, j + 1))
    {
      RowsFit(width, height, j);
      var i := 0;
      var k := Point(width, 0, j);
      while i < width
        invariant 0 <= i <= width && k == Point(width, i, j) <= width * height
        invariant HeightsPrefix(m0, mesh[..], ys, k)
      {
        assert ys[k] == Wave(spacing, time, sin, i, j);
        HeightsPrefixStep(m0, mesh[..], ys, k);
        mesh[Slot(k, 1)] := 0.1 * sin(0.01 * time + i as real * spacing)
                            + 0.15 * sin(0.02 * time + j as real * spacing)
                            + 0.2 * sin(0.03 * time + (i + j) as real * spacing);
        i, k := i + 1, k + 1;
      }
    }

    /** Device procedural waves: one work item per point, same result as Procedural. */
    method ProceduralDevice(time: real, sin: real -> real)
      requires Valid()
      modifies mesh
      ensures Valid()
      ensures mesh[..] == WithHeights(old(mesh[..]), WaveHeights(width, height, spacing, time, sin))
    {
      ghost var m0 := mesh[..];
      var ys := WaveHeights(width, height, spacing, time, sin);
      forall c | 0 <= c < mesh.Length && c % 4 == 1 {
        mesh[c] := ys[c / 4];
      }
      assert mesh[..] == WithHeights(m0, ys);
      LatticeSurvivesHeights(width, height, spacing, m0, ys);
    }

    /** Pass 2, shared by all four diffusion variants: add each accumulator to its point's height. */
    method FoldHeights()
      requires Valid()
      modifies mesh
      ensures Valid()
      ensures mesh[..] == AddAccumulator(old(mesh[..]), heightf[..])
    {
      ghost var m0 := mesh[..];
      ghost var ys := RaisedHeights(m0, heightf[..]);
      var j := 0;
      while j < height
        invariant 0 <= j <= height && Point(width, 0, j) <= width * height
        invariant HeightsPrefix(m0, mesh[..], ys, Point(width, 0, j))
      {
        FoldRow(j, m0);
        j := j + 1;
      }
      HeightsPrefixDone(m0, mesh[..], ys);
      LatticeSurvivesHeights(width, height, spacing, m0, ys);
    }

    /** Row j of FoldHeights. */
    method FoldRow(j: int, ghost m0: seq<real>)
      requires mesh.Length == 4 * (width * height) && heightf.Length == width * height && mesh != heightf
      requires |m0| == mesh.Length && 0 <= j < height
      requires HeightsPrefix(m0, mesh[..], RaisedHeights(m0, heightf[..]), Point(width, 0, j))
      modifies mesh
      ensures Point(width, 0, j + 1) <= width * height
      ensures HeightsPrefix(m0, mesh[..], RaisedHeights(m0, heightf[..]), Point(width, 0, j + 1))
    {
      RowsFit(width, height, j);
      ghost var ys := RaisedHeights(m0, heightf[..]);
      var i := 0;
      var k := Point(width, 0, j);
      while i < width
        invariant 0 <= i <= width && k == Point(width, i, j) <= width * height
        invariant HeightsPrefix(m0, mesh[..], ys, k)
      {
        HeightsPrefixStep(m0, mesh[..], ys, k);
        mesh[Slot(k, 1)] := mesh[Slot(k, 1)] + heightf[k];
        i, k := i + 1, k + 1;
      }
    }

    /**
     * Host diffusion step with clamp-to-edge neighbours. Pass 1 runs in
     * row-major order but leaves the same accumulator as the data-parallel
     * kernel; pass 2 folds it into the heights.
     */
    method Heightfield()
      requires Valid()
      modifies mesh, heightf
      ensures Valid()
      ensures heightf[..] == HeightfieldPass(width, height, old(mesh[..]), old(heightf[..]))
      ensures mesh[..] == AddAccumulator(old(mesh[..]), heightf[..])
    {
      RulesComputeCells(width, height, mesh[..], obstacle[..]);
      HeightfieldAccumulate(HeightfieldRule(width, height, mesh[..]));
      FoldHeights();
    }

    /** Pass 1 of Heightfield: `rule` applied to every accumulator in row-major order. */
    method HeightfieldAccumulate(ghost rule: (nat, real) -> real)
      requires mesh.Length == 4 * (width * height) && heightf.Length == width * height && mesh != heightf
      requires HeightfieldRuleOf(rule, width, height, mesh[..])
      modifies heightf
      ensures mesh[..] == old(mesh[..])
      ensures heightf[..] == Pointwise(rule, old(heightf[..]))
    {
      ghost var hf0, m0 := heightf[..], mesh[..];
      var j := 0;
      while j < height
        invariant 0 <= j <= height && Point(width, 0, j) <= width * height
        invariant mesh[..] == m0
        invariant PassPrefix(rule, hf0, heightf[..], Point(width, 0, j))
      {
        HeightfieldRow(j, hf0, m0, rule);
        j := j + 1;
      }
      PassPrefixDone(rule, hf0, heightf[..]);
    }

    /** Row j of pass 1 of Heightfield. */
    method HeightfieldRow(j: int, ghost hf0: seq<real>, ghost m: seq<real>, ghost rule: (nat, real) -> real)
      requires mesh.Length == 4 * (width * height) && heightf.Length == width * height && mesh != heightf
      requires mesh[..] == m && HeightfieldRuleOf(rule, width, height, m) && 0 <= j < height
      requires PassPrefix(rule, hf0, heightf[..], Point(width, 0, j))
      modifies heightf
      ensures Point(width, 0, j + 1) <= width * height
      ensures mesh[..] == m
      ensures PassPrefix(rule, hf0, heightf[..], Point(width, 0, j + 1))
    {
      RowsFit(width, height, j);
      var i := 0;
      var k := Point(width, 0, j);
      while i < width
        invariant 0 <= i <= width && k == Point(width, i, j) <= width * height
        invariant mesh[..] == m
        invariant PassPrefix(rule, hf0, heightf[..], k)
      {
        PassPrefixStep(rule, hf0, heightf[..], k);
        HeightfieldPoint(i, j, m, rule);
        i, k := i + 1, k + 1;
      }
    }

    /** Pass 1 of Heightfield at grid point (i, j): the clamped Laplacian, damped. */
    method HeightfieldPoint(i: int, j: int, ghost m: seq<real>, ghost rule: (nat, real) -> real)
      requires mesh.Length == 4 * (width * height) && heightf.Length == width * height && mesh != heightf
      requires mesh[..] == m && HeightfieldRuleOf(rule, width, height, m) && 0 <= i < width && 0 <= j < height
      modifies heightf
      ensures mesh[..] == m
      ensures 0 <= Point(width, i, j) < heightf.Length
              && heightf[..] == old(heightf[..])[Point(width, i, j) := rule(Point(width, i, j), old(heightf[Point(width, i, j)]))]
    {
      var k := Point(width, i, j);
      PointInGrid(width, height, i, j);
      ghost var acc := heightf[k];
      HostHeightfieldStep(rule, width, height, m, i, j, acc);
      var li := if i == 0 then 1 else i;
      var hi := if i == width - 1 then width - 2 else i;
      var lj := if j == 0 then 1 else j;
      var hj := if j == height - 1 then height - 2 else j;
      PointInGrid(width, height, li - 1, j);
      PointInGrid(width, height, hi + 1, j);
      PointInGrid(width, height, i, lj - 1);
      PointInGrid(width, height, i, hj + 1);
      assert HostClamp(width, height, i, j) == Neighbours(li - 1, hi + 1, lj - 1, hj + 1);
      assert rule(k, acc) == (acc + (mesh[Slot(Point(width, li - 1, j), 1)] + mesh[Slot(Point(width, hi + 1, j), 1)]
                                     + mesh[Slot(Point(width, i, lj - 1), 1)] + mesh[Slot(Point(width, i, hj + 1), 1)]) / 4.0
                                  - mesh[Slot(k, 1)]) * Decay;
      heightf[k] := heightf[k] + (mesh[Slot(Point(width, li - 1, j), 1)] + mesh[Slot(Point(width, hi + 1, j), 1)]
                                  + mesh[Slot(Point(width, i, lj - 1), 1)] + mesh[Slot(Point(width, i, hj + 1), 1)]) / 4.0
                               - mesh[Slot(k, 1)];
      heightf[k] := heightf[k] * Decay;
    }


    /** Device diffusion step: the kernel runs on copies, the accumulator is read back, then pass 2. */
    method HeightfieldDevice()
      requires Valid()
      modifies mesh, heightf
      ensures Valid()
      ensures heightf[..] == HeightfieldPass(width, height, old(mesh[..]), old(heightf[..]))
      ensures mesh[..] == AddAccumulator(old(mesh[..]), heightf[..])
    {
      var meshD := mesh[..];
      LaunchKernel(HeightfieldRule(width, height, meshD));
      FoldHeights();
    }

    /**
     * One work item per point, all reading the accumulator as it was at the
     * launch: `kernel` maps a point index and its accumulator to the new
     * accumulator, reading only buffers copied before the launch.
     */
    method LaunchKernel(kernel: (nat, real) -> real)
      modifies heightf
      ensures heightf[..] == Pointwise(kernel, old(heightf[..]))
    {
      var heightfD := heightf[..];
      forall p | 0 <= p < heightf.Length {
        heightf[p] := kernel(p, heightfD[p]);
      }
    }

    /** A ripple adds 20 to the accumulator of grid point (x, y) and to nothing else. */
    method AddHFRipple(x: int, y: int)
      requires Valid() && 0 <= x < width && 0 <= y < height
      modifies heightf
      ensures Valid()
      ensures 0 <= Point(width, x, y) < heightf.Length
              && heightf[..] == old(heightf[..])[Point(width, x, y) := old(heightf[Point(width, x, y)]) + 20.0]
    {
      PointInGrid(width, height, x, y);
      heightf[Point(width, x, y)] := heightf[Point(width, x, y)] + 20.0;
    }

    /**
     * Host diffusion with obstacles: a neighbour behind a set mask cell is
     * replaced by the point itself, and a frozen point's accumulator is left
     * alone.
     */
    method HeightfieldObstacle()
      requires Valid()
      modifies mesh, heightf
      ensures Valid()
      ensures heightf[..] == ObstaclePass(width, height, old(mesh[..]), obstacle[..], old(heightf[..]))
      ensures mesh[..] == AddAccumulator(old(mesh[..]), heightf[..])
    {
      RulesComputeCells(width, height, mesh[..], obstacle[..]);
      ObstacleAccumulate(ObstacleRule(width, height, mesh[..], obstacle[..]));
      FoldHeights();
    }

    /** Pass 1 of HeightfieldObstacle: `rule` applied to every accumulator in row-major order. */
    method ObstacleAccumulate(ghost rule: (nat, real) -> real)
      requires mesh.Length == 4 * (width * height) && heightf.Length == width * height && mesh != heightf
      requires Guarded(width, height, obstacle[..]) && ObstacleRuleOf(rule, width, height, mesh[..], obstacle[..])
      modifies heightf
      ensures mesh[..] == old(mesh[..])
      ensures heightf[..] == Pointwise(rule, old(heightf[..]))
    {
      ghost var hf0, m0, ob := heightf[..], mesh[..], obstacle[..];
      var j := 0;
      while j < height
        invariant 0 <= j <= height && Point(width, 0, j) <= width * height
        invariant mesh[..] == m0
        invariant PassPrefix(rule, hf0, heightf[..], Point(width, 0, j))
      {
        ObstacleRow(j, hf0, m0, ob, rule);
        j := j + 1;
      }
      PassPrefixDone(rule, hf0, heightf[..]);
    }

    /** Row j of pass 1 of HeightfieldObstacle. */
    method ObstacleRow(j: int, ghost hf0: seq<real>, ghost m: seq<real>, ghost ob: seq<int>, ghost rule: (nat, real) -> real)
      requires mesh.Length == 4 * (width * height) && heightf.Length == width * height && mesh != heightf
      requires mesh[..] == m && obstacle[..] == ob && Guarded(width, height, ob)
      requires ObstacleRuleOf(rule, width, height, m, ob) && 0 <= j < height
      requires PassPrefix(rule, hf0, heightf[..], Point(width, 0, j))
      modifies heightf
      ensures Point(width, 0, j + 1) <= width * height
      ensures mesh[..] == m
      ensures PassPrefix(rule, hf0, heightf[..], Point(width, 0, j + 1))
    {
      RowsFit(width, height, j);
      var i := 0;
      var k := Point(width, 0, j);
      while i < width
        invariant 0 <= i <= width && k == Point(width, i, j) <= width * height
        invariant mesh[..] == m
        invariant PassPrefix(rule, hf0, heightf[..], k)
      {
        PassPrefixStep(rule, hf0, heightf[..], k);
        ObstaclePoint(i, j, m, ob, rule);
        i, k := i + 1, k + 1;
      }
    }

    /** Pass 1 of HeightfieldObstacle at grid point (i, j): masked Laplacian unless the point is frozen. */
    method ObstaclePoint(i: int, j: int, ghost m: seq<real>, ghost ob: seq<int>, ghost rule: (nat, real) -> real)
      requires mesh.Length == 4 * (width * height) && heightf.Length == width * height && mesh != heightf
      requires mesh[..] == m && obstacle[..] == ob && Guarded(width, height, ob) && ObstacleRuleOf(rule, width, height, m, ob)
      requires 0 <= i < width && 0 <= j < height
      modifies heightf
      ensures mesh[..] == m
      ensures 0 <= Point(width, i, j) < heightf.Length
              && heightf[..] == old(heightf[..])[Point(width, i, j) := rule(Point(width, i, j), old(heightf[Point(width, i, j)]))]
    {
      var k := Point(width, i, j);
      PointInGrid(width, height, i, j);
      ghost var acc := heightf[k];
      HostObstacleStep(rule, width, height, m, ob, i, j, acc);
      var li := if obstacle[WestLookup(width, i, j)] != 0 then i else i - 1;
      var hi := if obstacle[EastLookup(width, i, j)] != 0 then i else i + 1;
      var lj := if obstacle[SouthLookup(width, i, j)] != 0 then j else j - 1;
      var hj := if obstacle[NorthLookup(width, i, j)] != 0 then j else j + 1;
      if obstacle[SelfLookup(width, i, j)] == 0 {
        PointInGrid(width, height, li, j);
        PointInGrid(width, height, hi, j);
        PointInGrid(width, height, i, lj);
        PointInGrid(width, height, i, hj);
        assert MaskedNeighbours(width, height, ob, i, j) == Neighbours(li, hi, lj, hj);
        assert rule(k, acc) == (acc + (mesh[Slot(Point(width, li, j), 1)] + mesh[Slot(Point(width, hi, j), 1)]
                                       + mesh[Slot(Point(width, i, lj), 1)] + mesh[Slot(Point(width, i, hj), 1)]) / 4.0
                                    - mesh[Slot(k, 1)]) * Decay;
        heightf[k] := heightf[k] + (mesh[Slot(Point(width, li, j), 1)] + mesh[Slot(Point(width, hi, j), 1)]
                                    + mesh[Slot(Point(width, i, lj), 1)] + mesh[Slot(Point(width, i, hj), 1)]) / 4.0
                                 - mesh[Slot(k, 1)];
        heightf[k] := heightf[k] * Decay;
      }
    }

    /**
     * Device diffusion with obstacles: the kernel multiplies the change by
     * (1 - flag) instead of branching, and damps every accumulator.
     */
    method HeightfieldObstacleDevice()
      requires Valid()
      modifies mesh, heightf
      ensures Valid()
      ensures heightf[..] == ObstacleKernelPass(width, height, old(mesh[..]), obstacle[..], old(heightf[..]))
      ensures mesh[..] == AddAccumulator(old(mesh[..]), heightf[..])
    {
      var meshD, obstacleD := mesh[..], obstacle[..];
      LaunchKernel(ObstacleKernelRule(width, height, meshD, obstacleD));
      FoldHeights();
    }
  }
}
