/**
 * The per-point recurrences of the height-field simulation, as pure functions
 * over snapshots of the point buffer (`mesh`, four reals per point) and the
 * accumulator (`hf`, one real per point).
 *
 * Every update family is a "rule": given a linear point index p and the
 * current accumulator value at p, it yields the new accumulator value at p,
 * reading nothing else but a fixed snapshot of `mesh` (and of the mask). The
 * data-parallel kernels apply a rule to every point at once (Pointwise); the
 * host loops apply it to one point after another, each write landing in the
 * accumulator that later points read from (ApplyInOrder). The two coincide
 * because a rule reads the accumulator only at its own point.
 */
module Stencil {
  import opened Indexing
  import opened ObstacleMask

  /** Damping factor applied to the accumulator every step. */
  const Decay: real := 0.998

  /** The point buffer holds four components for each of the w*h points. */
  predicate Shaped(w: nat, h: nat, mesh: seq<real>)
  {
    |mesh| == 4 * (w * h)
  }

  /** Height (component 1) of grid point (i, j). */
  function Height(w: nat, h: nat, mesh: seq<real>, i: int, j: int): real
    requires Shaped(w, h, mesh) && 0 <= i < w && 0 <= j < h
  {
    PointInGrid(w, h, i, j);
    mesh[Slot(Point(w, i, j), 1)]
  }

  /** Mean of the four neighbour heights minus the point's own height. */
  function Laplacian(w: nat, h: nat, mesh: seq<real>, i: int, j: int, n: Neighbours): real
    requires Shaped(w, h, mesh) && 0 <= i < w && 0 <= j < h && InGrid(w, h, n)
  {
    (Height(w, h, mesh, n.iLo, j) + Height(w, h, mesh, n.iHi, j)
     + Height(w, h, mesh, i, n.jLo) + Height(w, h, mesh, i, n.jHi)) / 4.0
    - Height(w, h, mesh, i, j)
  }

  // ---------------------------------------------------------------------
  // Clamp-to-edge neighbours of the unconstrained diffusion

  /** Neighbours as the host loop computes them, with conditionals. */
  function HostClamp(w: int, h: int, i: int, j: int): Neighbours
  {
    var li := if i == 0 then 1 else i;
    var hi := if i == w - 1 then w - 2 else i;
    var lj := if j == 0 then 1 else j;
    var hj := if j == h - 1 then h - 2 else j;
    Neighbours(li - 1, hi + 1, lj - 1, hj + 1)
  }

  /** Neighbours as the data-parallel kernel computes them, with max and min. */
  function KernelClamp(w: int, h: int, i: int, j: int): Neighbours
  {
    Neighbours(Max(1, i) - 1, Min(w - 2, i) + 1, Max(1, j) - 1, Min(h - 2, j) + 1)
  }

  /**
   * The host conditionals and the kernel's max/min select the same
   * neighbours, namely the clamp-to-edge ones, and these lie in the grid.
   */
  lemma ClampAgree(w: nat, h: nat, i: int, j: int)
    requires 0 <= i < w && 0 <= j < h
    ensures HostClamp(w, h, i, j) == KernelClamp(w, h, i, j)
    ensures KernelClamp(w, h, i, j)
            == Neighbours(Max(i - 1, 0), Min(i + 1, w - 1), Max(j - 1, 0), Min(j + 1, h - 1))
    ensures InGrid(w, h, KernelClamp(w, h, i, j))
  {
  }

  // ---------------------------------------------------------------------
  // Rules

  /** One point of the unconstrained diffusion kernel. */
  function HeightfieldCell(w: nat, h: nat, mesh: seq<real>, p: nat, acc: real): real
  {
    if Shaped(w, h, mesh) && p < w * h then
      CoordsInGrid(w, h, p);
      var i, j := Col(w, p), Row(w, p);
      ClampAgree(w, h, i, j);
      (acc + Laplacian(w, h, mesh, i, j, KernelClamp(w, h, i, j))) * Decay
    else acc
  }

  /** One point of the obstacle diffusion as the host loop does it: frozen points keep their accumulator. */
  function ObstacleCell(w: nat, h: nat, mesh: seq<real>, mask: seq<int>, p: nat, acc: real): real
  {
    if Shaped(w, h, mesh) && Guarded(w, h, mask) && p < w * h then
      CoordsInGrid(w, h, p);
      var i, j := Col(w, p), Row(w, p);
      MaskLookupsInRange(w, h, i, j);
      MaskedNeighboursInGrid(w, h, mask, i, j);
      if mask[SelfLookup(w, i, j)] != 0 then acc
      else (acc + Laplacian(w, h, mesh, i, j, MaskedNeighbours(w, h, mask, i, j))) * Decay
    else acc
  }

  /**
   * One point of the obstacle diffusion as the kernel does it, without a
   * branch: the change is multiplied by (1 - flag), and the damping applies
   * to every point, frozen or not.
   */
  function ObstacleKernelCell(w: nat, h: nat, mesh: seq<real>, mask: seq<int>, p: nat, acc: real): real
  {
    if Shaped(w, h, mesh) && Guarded(w, h, mask) && p < w * h then
      CoordsInGrid(w, h, p);
      var i, j := Col(w, p), Row(w, p);
      MaskLookupsInRange(w, h, i, j);
      MaskedNeighboursInGrid(w, h, mask, i, j);
      (acc + Laplacian(w, h, mesh, i, j, MaskedNeighbours(w, h, mask, i, j))
             * (1 - mask[SelfLookup(w, i, j)]) as real) * Decay
    else acc
  }

  function HeightfieldRule(w: nat, h: nat, mesh: seq<real>): (nat, real) -> real
  {
    (p: nat, acc: real) => HeightfieldCell(w, h, mesh, p, acc)
  }

  function ObstacleRule(w: nat, h: nat, mesh: seq<real>, mask: seq<int>): (nat, real) -> real
  {
    (p: nat, acc: real) => ObstacleCell(w, h, mesh, mask, p, acc)
  }

  function ObstacleKernelRule(w: nat, h: nat, mesh: seq<real>, mask: seq<int>): (nat, real) -> real
  {
    (p: nat, acc: real) => ObstacleKernelCell(w, h, mesh, mask, p, acc)
  }

  /**
   * `rule` computes HeightfieldCell over `mesh` at every point. The fact is
   * keyed on the cell itself, so a proof that only moves `rule` around never
   * unfolds it.
   */
  ghost predicate HeightfieldRuleOf(rule: (nat, real) -> real, w: nat, h: nat, mesh: seq<real>)
  {
    forall p: nat, acc: real {:trigger HeightfieldCell(w, h, mesh, p, acc)} ::
      rule(p, acc) == HeightfieldCell(w, h, mesh, p, acc)
  }

  /** `rule` computes ObstacleCell over `mesh` and `mask` at every point, keyed like HeightfieldRuleOf. */
  ghost predicate ObstacleRuleOf(rule: (nat, real) -> real, w: nat, h: nat, mesh: seq<real>, mask: seq<int>)
  {
    forall p: nat, acc: real {:trigger ObstacleCell(w, h, mesh, mask, p, acc)} ::
      rule(p, acc) == ObstacleCell(w, h, mesh, mask, p, acc)
  }

  lemma RulesComputeCells(w: nat, h: nat, mesh: seq<real>, mask: seq<int>)
    ensures HeightfieldRuleOf(HeightfieldRule(w, h, mesh), w, h, mesh)
    ensures ObstacleRuleOf(ObstacleRule(w, h, mesh, mask), w, h, mesh, mask)
  {
  }

  // ---------------------------------------------------------------------
  // Applying a rule: all points at once, or one after another

  /** Every point's new accumulator computed from the same snapshot. */
  function Pointwise(rule: (nat, real) -> real, acc: seq<real>): seq<real>
  {
    seq(|acc|, p requires 0 <= p < |acc| => rule(p, acc[p]))
  }

  /** Pass 1 of the unconstrained diffusion over the whole grid. */
  function HeightfieldPass(w: nat, h: nat, mesh: seq<real>, hf: seq<real>): seq<real>
  {
    Pointwise(HeightfieldRule(w, h, mesh), hf)
  }

  /** Pass 1 of the obstacle diffusion, host semantics. */
  function ObstaclePass(w: nat, h: nat, mesh: seq<real>, mask: seq<int>, hf: seq<real>): seq<real>
  {
    Pointwise(ObstacleRule(w, h, mesh, mask), hf)
  }

  /** Pass 1 of the obstacle diffusion, kernel semantics. */
  function ObstacleKernelPass(w: nat, h: nat, mesh: seq<real>, mask: seq<int>, hf: seq<real>): seq<real>
  {
    Pointwise(ObstacleKernelRule(w, h, mesh, mask), hf)
  }

  /**
   * Progress of a host pass-1 loop: points [0, k) hold the rule applied to
   * their original accumulator, later points are untouched.
   */
  predicate PassPrefix(rule: (nat, real) -> real, before: seq<real>, after: seq<real>, k: int)
  {
    |after| == |before| &&
    forall p :: 0 <= p < |before| ==> after[p] == if p < k then rule(p, before[p]) else before[p]
  }

  lemma PassPrefixStep(rule: (nat, real) -> real, before: seq<real>, after: seq<real>, k: nat)
    requires PassPrefix(rule, before, after, k) && k < |before|
    ensures after[k] == before[k]
    ensures PassPrefix(rule, before, after[k := rule(k, after[k])], k + 1)
  {
  }

  /** A finished host pass has applied the rule to every point, as the kernel does. */
  lemma PassPrefixDone(rule: (nat, real) -> real, before: seq<real>, after: seq<real>)
    requires PassPrefix(rule, before, after, |before|)
    ensures after == Pointwise(rule, before)
  {
  }

  /** The visiting order of the host loops: 0, 1, ..., n-1 (row-major). */
  function Range(n: nat): (r: seq<nat>)
    ensures |r| == n && forall k :: 0 <= k < n ==> r[k] == k
  {
    seq(n, k requires 0 <= k < n => k as nat)
  }

  predicate Distinct(order: seq<nat>)
  {
    forall a, b :: 0 <= a < b < |order| ==> order[a] != order[b]
  }

  predicate Within(order: seq<nat>, n: nat)
  {
    forall a :: 0 <= a < |order| ==> order[a] < n
  }

  /**
   * Apply the rule at the points of `order`, one after another, each time to
   * the accumulator as the previous steps left it.
   */
  function ApplyInOrder(rule: (nat, real) -> real, order: seq<nat>, acc: seq<real>): (r: seq<real>)
    requires Within(order, |acc|)
    ensures |r| == |acc|
    decreases |order|
  {
    if order == [] then acc
    else
      var prev := ApplyInOrder(rule, order[..|order| - 1], acc);
      var p := order[|order| - 1];
      prev[p := rule(p, prev[p])]
  }

  /**
   * Visiting distinct points one after another has the effect of applying the
   * rule to the original accumulator at each visited point: no visit sees an
   * earlier visit's write, because a rule reads the accumulator only at its
   * own point.
   */
  lemma {:induction false} ApplyInOrderPointwise(rule: (nat, real) -> real, order: seq<nat>, acc: seq<real>)
    requires Within(order, |acc|) && Distinct(order)
    ensures forall p :: 0 <= p < |acc| ==>
              ApplyInOrder(rule, order, acc)[p] == if p in order then rule(p, acc[p]) else acc[p]
    decreases |order|
  {
    if order != [] {
      var front := order[..|order| - 1];
      var last := order[|order| - 1];
      ApplyInOrderPointwise(rule, front, acc);
      assert last !in front by {
        forall a | 0 <= a < |front| ensures front[a] != last {
          assert order[a] != order[|order| - 1];
        }
      }
      forall p | 0 <= p < |acc|
        ensures ApplyInOrder(rule, order, acc)[p] == if p in order then rule(p, acc[p]) else acc[p]
      {
        assert order == front + [last];
        assert p in order <==> p in front || p == last;
      }
    }
  }

  /** The row-major host loop and the data-parallel dispatch compute the same pass. */
  lemma SequentialIsPointwise(rule: (nat, real) -> real, acc: seq<real>)
    ensures Within(Range(|acc|), |acc|)
    ensures ApplyInOrder(rule, Range(|acc|), acc) == Pointwise(rule, acc)
  {
    var order := Range(|acc|);
    ApplyInOrderPointwise(rule, order, acc);
    forall p | 0 <= p < |acc| ensures p in order {
      assert order[p] == p;
    }
  }

  /**
   * The invariant of the host pass-1 loops is the sequential semantics: after
   * the row-major loop has visited points 0 to k-1, the accumulator is
   * exactly what applying the rule at those points one after another yields.
   */
  lemma PassPrefixIsInOrder(rule: (nat, real) -> real, before: seq<real>, after: seq<real>, k: nat)
    requires k <= |before|
    ensures Within(Range(k), |before|) && Distinct(Range(k))
    ensures PassPrefix(rule, before, after, k) <==> after == ApplyInOrder(rule, Range(k), before)
  {
    var order := Range(k);
    ApplyInOrderPointwise(rule, order, before);
    forall p | 0 <= p < |before| ensures p in order <==> p < k {
      if p < k {
        assert order[p] == p;
      }
    }
  }

  /** Any two visiting orders of the same points give the same accumulator. */
  lemma OrderIrrelevant(rule: (nat, real) -> real, o1: seq<nat>, o2: seq<nat>, acc: seq<real>)
    requires Within(o1, |acc|) && Distinct(o1) && Within(o2, |acc|) && Distinct(o2)
    requires forall p :: p in o1 <==> p in o2
    ensures ApplyInOrder(rule, o1, acc) == ApplyInOrder(rule, o2, acc)
  {
    ApplyInOrderPointwise(rule, o1, acc);
    ApplyInOrderPointwise(rule, o2, acc);
  }

  // ---------------------------------------------------------------------
  // Pass 2: folding the accumulator into the heights

  /** Component 1 of every point. */
  function Heights(mesh: seq<real>): (ys: seq<real>)
    ensures |ys| == |mesh| / 4
  {
    seq(|mesh| / 4, p requires 0 <= p < |mesh| / 4 => mesh[Slot(p, 1)])
  }

  /** The buffer with component 1 of point p replaced by ys[p]; x, z and w untouched. */
  function WithHeights(mesh: seq<real>, ys: seq<real>): (r: seq<real>)
    requires |mesh| == 4 * |ys|
    ensures |r| == |mesh|
  {
    seq(|mesh|, c requires 0 <= c < |mesh| => if c % 4 == 1 then ys[c / 4] else mesh[c])
  }

  function Zeros(n: nat): (z: seq<real>)
    ensures |z| == n
  {
    seq(n, _ => 0.0)
  }

  /** Each point's height raised by its accumulator. */
  function RaisedHeights(mesh: seq<real>, hf: seq<real>): (ys: seq<real>)
    requires |mesh| == 4 * |hf|
    ensures |ys| == |hf|
  {
    seq(|hf|, p requires 0 <= p < |hf| => mesh[Slot(p, 1)] + hf[p])
  }

  /** Pass 2: every height grows by its point's accumulator. */
  function AddAccumulator(mesh: seq<real>, hf: seq<real>): (r: seq<real>)
    requires |mesh| == 4 * |hf|
    ensures |r| == |mesh|
  {
    WithHeights(mesh, RaisedHeights(mesh, hf))
  }

  /** Two point buffers that agree on every component of every point are equal. */
  lemma SlotsDetermine(a: seq<real>, b: seq<real>, n: nat)
    requires |a| == 4 * n && |b| == 4 * n
    requires forall p, c :: 0 <= p < n && 0 <= c < 4 ==> a[Slot(p, c)] == b[Slot(p, c)]
    ensures a == b
  {
    forall k | 0 <= k < |a| ensures a[k] == b[k] {
      assert k == Slot(k / 4, k % 4);
    }
  }

  /** Replacing the heights and reading them back gives the replacement. */
  lemma HeightsOfWithHeights(mesh: seq<real>, ys: seq<real>)
    requires |mesh| == 4 * |ys|
    ensures Heights(WithHeights(mesh, ys)) == ys
  {
    var r := WithHeights(mesh, ys);
    forall p | 0 <= p < |ys| ensures Heights(r)[p] == ys[p] {
      assert Slot(p, 1) % 4 == 1 && Slot(p, 1) / 4 == p;
    }
  }

  /** Replacing the heights sets component 1 of every point and keeps components 0, 2 and 3. */
  lemma WithHeightsAt(mesh: seq<real>, ys: seq<real>, p: int, c: int)
    requires |mesh| == 4 * |ys| && 0 <= p < |ys| && 0 <= c < 4
    ensures WithHeights(mesh, ys)[Slot(p, c)] == if c == 1 then ys[p] else mesh[Slot(p, c)]
  {
    assert Slot(p, c) % 4 == c && Slot(p, c) / 4 == p;
  }

  /**
   * A buffer whose component 1 holds ys and whose other components are those
   * of `before` is WithHeights(before, ys): the shape every height-writing loop
   * establishes.
   */
  lemma HeightsWritten(before: seq<real>, after: seq<real>, ys: seq<real>)
    requires |before| == 4 * |ys| && |after| == |before|
    requires forall p, c :: 0 <= p < |ys| && 0 <= c < 4 ==>
               after[Slot(p, c)] == if c == 1 then ys[p] else before[Slot(p, c)]
    ensures after == WithHeights(before, ys)
  {
    forall p, c | 0 <= p < |ys| && 0 <= c < 4
      ensures after[Slot(p, c)] == WithHeights(before, ys)[Slot(p, c)]
    {
      WithHeightsAt(before, ys, p, c);
    }
    SlotsDetermine(after, WithHeights(before, ys), |ys|);
  }

  /**
   * Progress of a loop that writes heights in row-major order: points [0, k)
   * already carry their new height ys[p]; every other component, and every
   * later height, is as it was.
   */
  predicate HeightsPrefix(before: seq<real>, after: seq<real>, ys: seq<real>, k: int)
  {
    |before| == 4 * |ys| && |after| == |before| &&
    forall p, c :: 0 <= p < |ys| && 0 <= c < 4 ==>
      after[Slot(p, c)] == if c == 1 && p < k then ys[p] else before[Slot(p, c)]
  }

  lemma HeightsPrefixStep(before: seq<real>, after: seq<real>, ys: seq<real>, k: int)
    requires HeightsPrefix(before, after, ys, k) && 0 <= k < |ys|
    ensures after[Slot(k, 1)] == before[Slot(k, 1)]
    ensures HeightsPrefix(before, after[Slot(k, 1) := ys[k]], ys, k + 1)
  {
    var next := after[Slot(k, 1) := ys[k]];
    forall p, c | 0 <= p < |ys| && 0 <= c < 4
      ensures next[Slot(p, c)] == if c == 1 && p < k + 1 then ys[p] else before[Slot(p, c)]
    {
      if Slot(p, c) == Slot(k, 1) {
        assert p == k && c == 1;
      }
    }
  }

  lemma HeightsPrefixDone(before: seq<real>, after: seq<real>, ys: seq<real>)
    requires HeightsPrefix(before, after, ys, |ys|)
    ensures after == WithHeights(before, ys)
  {
    HeightsWritten(before, after, ys);
  }

  /** Writing the same heights twice is writing them once. */
  lemma WithHeightsIdempotent(mesh: seq<real>, ys: seq<real>)
    requires |mesh| == 4 * |ys|
    ensures WithHeights(WithHeights(mesh, ys), ys) == WithHeights(mesh, ys)
  {
  }

  /** Pass 2 adds each accumulator to its own point's height and to nothing else. */
  lemma AddAccumulatorHeights(mesh: seq<real>, hf: seq<real>)
    requires |mesh| == 4 * |hf|
    ensures Heights(AddAccumulator(mesh, hf)) == seq(|hf|, p requires 0 <= p < |hf| => Heights(mesh)[p] + hf[p])
  {
    var ys := RaisedHeights(mesh, hf);
    HeightsOfWithHeights(mesh, ys);
    assert |mesh| / 4 == |hf|;
    forall p | 0 <= p < |hf| ensures ys[p] == Heights(mesh)[p] + hf[p] {
    }
  }

  /** A zero accumulator leaves the buffer as it is. */
  lemma AddZeroAccumulator(mesh: seq<real>, n: nat)
    requires |mesh| == 4 * n
    ensures AddAccumulator(mesh, Zeros(n)) == mesh
  {
    var r := AddAccumulator(mesh, Zeros(n));
    forall c | 0 <= c < |mesh| ensures r[c] == mesh[c] {
      if c % 4 == 1 {
        assert c == Slot(c / 4, 1);
      }
    }
  }

  // ---------------------------------------------------------------------
  // Properties of the rules

  /** All heights are zero. */
  predicate Level(mesh: seq<real>)
  {
    forall p :: 0 <= p < |mesh| / 4 ==> mesh[Slot(p, 1)] == 0.0
  }

  lemma LevelLaplacian(w: nat, h: nat, mesh: seq<real>, i: int, j: int, n: Neighbours)
    requires Shaped(w, h, mesh) && Level(mesh) && 0 <= i < w && 0 <= j < h && InGrid(w, h, n)
    ensures Laplacian(w, h, mesh, i, j, n) == 0.0
  {
    PointInGrid(w, h, n.iLo, j);
    PointInGrid(w, h, n.iHi, j);
    PointInGrid(w, h, i, n.jLo);
    PointInGrid(w, h, i, n.jHi);
    PointInGrid(w, h, i, j);
  }

  /**
   * On a level surface the stencils see no slope: every rule only damps the
   * accumulator, except that the host obstacle rule keeps it on a frozen point.
   */
  lemma LevelSurfaceOnlyDamps(w: nat, h: nat, mesh: seq<real>, mask: seq<int>, hf: seq<real>, p: nat)
    requires Shaped(w, h, mesh) && Level(mesh) && Guarded(w, h, mask) && |hf| == w * h && p < w * h
    ensures HeightfieldPass(w, h, mesh, hf)[p] == hf[p] * Decay
    ensures ObstacleKernelPass(w, h, mesh, mask, hf)[p] == hf[p] * Decay
    ensures Frozen(w, h, mask, p) ==> ObstaclePass(w, h, mesh, mask, hf)[p] == hf[p]
    ensures !Frozen(w, h, mask, p) ==> ObstaclePass(w, h, mesh, mask, hf)[p] == hf[p] * Decay
  {
    CoordsInGrid(w, h, p);
    var i, j := Col(w, p), Row(w, p);
    ClampAgree(w, h, i, j);
    MaskLookupsInRange(w, h, i, j);
    LevelLaplacian(w, h, mesh, i, j, KernelClamp(w, h, i, j));
    MaskedNeighboursInGrid(w, h, mask, i, j);
    LevelLaplacian(w, h, mesh, i, j, MaskedNeighbours(w, h, mask, i, j));
  }

  /**
   * A level surface with a zero accumulator is a fixed point of every
   * diffusion step: pass 1 leaves the accumulator zero under all three rules,
   * and pass 2 then leaves the buffer unchanged.
   */
  lemma LevelFieldIsFixedPoint(w: nat, h: nat, mesh: seq<real>, mask: seq<int>)
    requires Shaped(w, h, mesh) && Level(mesh) && Guarded(w, h, mask)
    ensures HeightfieldPass(w, h, mesh, Zeros(w * h)) == Zeros(w * h)
    ensures ObstaclePass(w, h, mesh, mask, Zeros(w * h)) == Zeros(w * h)
    ensures ObstacleKernelPass(w, h, mesh, mask, Zeros(w * h)) == Zeros(w * h)
    ensures AddAccumulator(mesh, Zeros(w * h)) == mesh
  {
    var z := Zeros(w * h);
    forall p | 0 <= p < w * h
      ensures HeightfieldPass(w, h, mesh, z)[p] == 0.0
      ensures ObstaclePass(w, h, mesh, mask, z)[p] == 0.0
      ensures ObstacleKernelPass(w, h, mesh, mask, z)[p] == 0.0
    {
      LevelSurfaceOnlyDamps(w, h, mesh, mask, z, p);
    }
    AddZeroAccumulator(mesh, w * h);
  }

  /** Grid point p is frozen: its own mask cell is set. */
  predicate Frozen(w: nat, h: nat, mask: seq<int>, p: nat)
    requires |mask| == MaskSize(w, h) && p < w * h
  {
    CoordsInGrid(w, h, p);
    MaskLookupsInRange(w, h, Col(w, p), Row(w, p));
    mask[SelfLookup(w, Col(w, p), Row(w, p))] != 0
  }

  /**
   * Host obstacle rule versus kernel rule at one point of a 0/1 mask: on an
   * open point they agree; on a frozen point the host keeps the accumulator
   * and the kernel damps it, so they agree exactly when it is zero.
   */
  lemma ObstacleCellsAgree(w: nat, h: nat, mesh: seq<real>, mask: seq<int>, p: nat, acc: real)
    requires Shaped(w, h, mesh) && Guarded(w, h, mask) && Binary(mask) && p < w * h
    ensures !Frozen(w, h, mask, p) ==> ObstacleKernelCell(w, h, mesh, mask, p, acc) == ObstacleCell(w, h, mesh, mask, p, acc)
    ensures Frozen(w, h, mask, p) ==>
              ObstacleCell(w, h, mesh, mask, p, acc) == acc && ObstacleKernelCell(w, h, mesh, mask, p, acc) == acc * Decay
    ensures ObstacleKernelCell(w, h, mesh, mask, p, acc) == ObstacleCell(w, h, mesh, mask, p, acc)
            <==> !Frozen(w, h, mask, p) || acc == 0.0
  {
    CoordsInGrid(w, h, p);
    MaskLookupsInRange(w, h, Col(w, p), Row(w, p));
  }

  /**
   * On a 0/1 mask the kernel's pass equals the host's pass exactly when every
   * frozen point has a zero accumulator.
   */
  lemma ObstaclePassesAgree(w: nat, h: nat, mesh: seq<real>, mask: seq<int>, hf: seq<real>)
    requires Shaped(w, h, mesh) && Guarded(w, h, mask) && Binary(mask) && |hf| == w * h
    ensures ObstacleKernelPass(w, h, mesh, mask, hf) == ObstaclePass(w, h, mesh, mask, hf)
            <==> forall p: nat :: p < w * h && Frozen(w, h, mask, p) ==> hf[p] == 0.0
  {
    var kernel, host := ObstacleKernelPass(w, h, mesh, mask, hf), ObstaclePass(w, h, mesh, mask, hf);
    if kernel == host {
      forall p: nat | p < w * h && Frozen(w, h, mask, p) ensures hf[p] == 0.0 {
        ObstacleCellsAgree(w, h, mesh, mask, p, hf[p]);
        assert kernel[p] == host[p];
      }
    }
    if forall p: nat :: p < w * h && Frozen(w, h, mask, p) ==> hf[p] == 0.0 {
      forall p | 0 <= p < w * h ensures kernel[p] == host[p] {
        ObstacleCellsAgree(w, h, mesh, mask, p, hf[p]);
      }
    }
  }

  /**
   * Host obstacle pass at a frozen point: the accumulator is kept, so pass 2
   * moves the height by exactly that accumulator.
   */
  lemma FrozenPointKeepsAccumulator(w: nat, h: nat, mesh: seq<real>, mask: seq<int>, hf: seq<real>, p: nat)
    requires Shaped(w, h, mesh) && Guarded(w, h, mask) && |hf| == w * h && p < w * h && Frozen(w, h, mask, p)
    ensures ObstaclePass(w, h, mesh, mask, hf)[p] == hf[p]
    ensures Heights(AddAccumulator(mesh, ObstaclePass(w, h, mesh, mask, hf)))[p] == Heights(mesh)[p] + hf[p]
  {
    CoordsInGrid(w, h, p);
    MaskLookupsInRange(w, h, Col(w, p), Row(w, p));
    AddAccumulatorHeights(mesh, ObstaclePass(w, h, mesh, mask, hf));
  }

  // ---------------------------------------------------------------------
  // Procedural waves

  /** Three overlapping sine waves; `sin` stands for the library sine. */
  function Wave(s: real, time: real, sin: real -> real, i: int, j: int): real
  {
    0.1 * sin(0.01 * time + i as real * s)
    + 0.15 * sin(0.02 * time + j as real * s)
    + 0.2 * sin(0.03 * time + (i + j) as real * s)
  }

  /** The wave height of every point at the given time. */
  function WaveHeights(w: nat, h: nat, s: real, time: real, sin: real -> real): (ys: seq<real>)
    ensures |ys| == w * h
  {
    seq(w * h, p requires 0 <= p < w * h =>
      CoordsInGrid(w, h, p);
      Wave(s, time, sin, Col(w, p), Row(w, p)))
  }

  /** Grid point (i, j) gets the wave value of its own coordinates. */
  lemma WaveHeightsAt(w: nat, h: nat, s: real, time: real, sin: real -> real, i: int, j: int)
    requires 0 <= i < w && 0 <= j < h
    ensures 0 <= Point(w, i, j) < w * h
    ensures WaveHeights(w, h, s, time, sin)[Point(w, i, j)] == Wave(s, time, sin, i, j)
  {
    PointInGrid(w, h, i, j);
    PointCoords(w, i, j);
  }

  /** `ys` holds the wave value of every grid point, keyed on the wave so that it stays out of the way elsewhere. */
  ghost predicate WaveHeightsOf(ys: seq<real>, w: nat, h: nat, s: real, time: real, sin: real -> real)
  {
    |ys| == w * h &&
    forall i: int, j: int {:trigger Wave(s, time, sin, i, j)} ::
      0 <= i < w && 0 <= j < h ==> 0 <= Point(w, i, j) < |ys| && ys[Point(w, i, j)] == Wave(s, time, sin, i, j)
  }

  lemma WaveHeightsAreWaves(w: nat, h: nat, s: real, time: real, sin: real -> real)
    ensures WaveHeightsOf(WaveHeights(w, h, s, time, sin), w, h, s, time, sin)
  {
    forall i: int, j: int | 0 <= i < w && 0 <= j < h
      ensures 0 <= Point(w, i, j) < w * h && WaveHeights(w, h, s, time, sin)[Point(w, i, j)] == Wave(s, time, sin, i, j)
    {
      WaveHeightsAt(w, h, s, time, sin, i, j);
    }
  }
}
