/**
 * Row-major addressing of the height-field grid.
 *
 * Grid point (i, j), with i the column (0 <= i < width) and j the row
 * (0 <= j < height), lives at linear index j*width + i; its four floats in the
 * point buffer start at 4*(j*width + i).
 */
module Indexing {

  /** Linear index of grid point (i, j) in a grid `w` points wide. */
  function Point(w: int, i: int, j: int): int { j * w + i }

  /** Offset of component `c` (0:x, 1:y, 2:z, 3:w) of point `p` in the flat point buffer. */
  function Slot(p: int, c: int): int { 4 * p + c }

  /**
   * The four neighbour coordinates a stencil reads for one grid point: the
   * columns west (iLo) and east (iHi) in its own row, the rows south (jLo)
   * and north (jHi) in its own column.
   */
  datatype Neighbours = Neighbours(iLo: int, iHi: int, jLo: int, jHi: int)

  /** All four neighbour coordinates lie inside a w-by-h grid. */
  predicate InGrid(w: nat, h: nat, n: Neighbours)
  {
    0 <= n.iLo < w && 0 <= n.iHi < w && 0 <= n.jLo < h && 0 <= n.jHi < h
  }

  function Max(a: int, b: int): int { if a < b then b else a }

  function Min(a: int, b: int): int { if a < b then a else b }

  /** Column of linear index `p`: what remains after taking off whole rows. */
  function Col(w: nat, p: nat): nat
    requires w > 0
    decreases p
  {
    if p < w then p else Col(w, p - w)
  }

  /** Row of linear index `p`: how many whole rows precede it. */
  function Row(w: nat, p: nat): nat
    requires w > 0
    decreases p
  {
    if p < w then 0 else Row(w, p - w) + 1
  }

  lemma MulMono(a: int, b: int, w: nat)
    requires a <= b
    ensures a * w <= b * w
  {
    assert b * w - a * w == (b - a) * w;
  }

  /** Every point of a w-by-h grid has a linear index inside the w*h buffer. */
  lemma PointInGrid(w: nat, h: nat, i: int, j: int)
    requires 0 <= i < w && 0 <= j < h
    ensures 0 <= Point(w, i, j) < w * h
  {
    MulMono(j, h - 1, w);
    assert (h - 1) * w + w == h * w;
    MulMono(0, j, w);
  }

  /** Column and row recover the coordinates a linear index was built from. */
  lemma {:induction false} PointCoords(w: nat, i: int, j: int)
    requires 0 <= i < w && 0 <= j
    ensures Point(w, i, j) >= 0
    ensures Col(w, Point(w, i, j)) == i && Row(w, Point(w, i, j)) == j
    decreases j
  {
    MulMono(0, j, w);
    if j > 0 {
      assert Point(w, i, j) - w == Point(w, i, j - 1);
      PointCoords(w, i, j - 1);
    }
  }

  /** Column and row split a linear index into a column below w and whole rows. */
  lemma {:induction false} ColRow(w: nat, p: nat)
    requires w > 0
    ensures Col(w, p) < w && Point(w, Col(w, p), Row(w, p)) == p
    decreases p
  {
    if p >= w {
      ColRow(w, p - w);
      assert Point(w, Col(w, p), Row(w, p)) == Point(w, Col(w, p - w), Row(w, p - w)) + w;
    }
  }

  /** Every linear index inside the buffer is the index of a grid point. */
  lemma CoordsInGrid(w: nat, h: nat, p: int)
    requires 0 <= p < w * h
    ensures w > 0 && h > 0
    ensures Col(w, p) < w && Row(w, p) < h && Point(w, Col(w, p), Row(w, p)) == p
  {
    ColRow(w, p);
    if Row(w, p) >= h {
      MulMono(h, Row(w, p), w);
      assert false;
    }
  }
}
