/**
 * The widget that drives the simulation: a 1024-by-1024 surface, the mode
 * chosen in the selector, and the grid point the sliders name for the next
 * disturbance. Every timer tick advances the surface by one step of the
 * current mode; the six modes come in three host/device pairs, and the
 * surface is reset when the selection moves to another pair.
 */
module Project {
  import opened Indexing
  import opened ObstacleMask
  import opened Stencil
  import opened Surface

  const GridWidth: nat := 1024
  const GridHeight: nat := 1024
  const GridSpacing: real := 0.006
  /** Simulation time advanced per elapsed millisecond. */
  const TimeScale: real := 0.05

  /** The three simulations behind the six modes. */
  datatype Simulation = Waves | Diffusion | Obstacles

  /** The simulation the selector labels mode m with (modes 0 to 5). */
  function SimulationOf(m: int): Simulation
    requires 0 <= m < 6
  {
    [Waves, Waves, Diffusion, Diffusion, Obstacles, Obstacles][m]
  }

  /** Halving as C's integer division does it: the quotient is truncated toward zero. */
  function CHalf(x: int): (r: int)
    ensures x >= 0 ==> 0 <= x - 2 * r <= 1
    ensures x < 0 ==> -1 <= x - 2 * r <= 0
  {
    if x >= 0 then x / 2 else -((-x) / 2)
  }

  /** Selecting mode `to` while in mode `from` resets the surface. */
  predicate ResetsOnSwitch(from: int, to: int)
  {
    CHalf(from) != CHalf(to)
  }

  /** Among the six modes, a switch resets exactly when it changes the simulation. */
  lemma SwitchResetsIffSimulationChanges(from: int, to: int)
    requires 0 <= from < 6 && 0 <= to < 6
    ensures ResetsOnSwitch(from, to) <==> SimulationOf(from) != SimulationOf(to)
  {
    assert CHalf(from) == from / 2 && CHalf(to) == to / 2;
  }

  /**
   * A cleared selector reports -1, which C halves to 0: moving there from
   * either wave mode keeps the surface, from any other mode resets it.
   */
  lemma ClearedSelectorJoinsWaves(from: int)
    requires 0 <= from < 6
    ensures ResetsOnSwitch(from, -1) <==> SimulationOf(from) != Waves
  {
    assert CHalf(-1) == 0;
  }

  /**
   * The effect of one tick on the point buffer and the accumulator: mode 0
   * and 1 lay the wave pattern for `time`; 2 and 3 run the free diffusion;
   * 4 the host obstacle diffusion; 5 the device obstacle diffusion; any
   * other mode does nothing.
   */
  ghost function Step(mode: int, w: nat, h: nat, s: real, m: seq<real>, hf: seq<real>, ob: seq<int>,
                      time: real, sin: real -> real): (seq<real>, seq<real>)
    requires |m| == 4 * |hf|
  {
    if mode == 0 || mode == 1 then
      if |hf| == w * h then (WithHeights(m, WaveHeights(w, h, s, time, sin)), hf) else (m, hf)
    else if mode == 2 || mode == 3 then
      var hf' := HeightfieldPass(w, h, m, hf);
      (AddAccumulator(m, hf'), hf')
    else if mode == 4 then
      var hf' := ObstaclePass(w, h, m, ob, hf);
      (AddAccumulator(m, hf'), hf')
    else if mode == 5 then
      var hf' := ObstacleKernelPass(w, h, m, ob, hf);
      (AddAccumulator(m, hf'), hf')
    else (m, hf)
  }

  /** Zeroing the heights levels the surface. */
  lemma ZeroHeightsLevel(m: seq<real>, n: nat)
    requires |m| == 4 * n
    ensures Level(WithHeights(m, Zeros(n)))
  {
    forall p | 0 <= p < n ensures WithHeights(m, Zeros(n))[Slot(p, 1)] == 0.0 {
      WithHeightsAt(m, Zeros(n), p, 1);
    }
  }

  /**
   * After a reset, the diffusion modes are at rest: a tick in modes 2 to 5
   * changes neither the surface nor the accumulator until a disturbance is
   * added.
   */
  lemma ResetSurfaceAtRest(mode: int, w: nat, h: nat, s: real, m: seq<real>, ob: seq<int>,
                           time: real, sin: real -> real)
    requires 2 <= mode <= 5 && Shaped(w, h, m) && Guarded(w, h, ob)
    ensures Step(mode, w, h, s, WithHeights(m, Zeros(w * h)), Zeros(w * h), ob, time, sin)
            == (WithHeights(m, Zeros(w * h)), Zeros(w * h))
  {
    var level := WithHeights(m, Zeros(w * h));
    ZeroHeightsLevel(m, w * h);
    LevelFieldIsFixedPoint(w, h, level, ob);
  }

  class ProjectGL {
    /** The selector's current index. */
    var mode: int
    /** Column of the next disturbance. */
    var disturbX: int
    /** Row of the next disturbance. */
    var disturbY: int
    const surface: SurfaceMesh

    ghost predicate Valid()
      reads surface, surface.mesh, surface.heightf, surface.obstacle
    {
      surface.Valid()
      && surface.width == GridWidth && surface.height == GridHeight && surface.spacing == GridSpacing
    }

    /**
     * Start in the host wave mode, aim disturbances at the centre, build the
     * surface. `junk` is the content of the mask allocation.
     */
    constructor (junk: seq<int>)
      requires |junk| == MaskSize(GridWidth, GridHeight)
      ensures Valid()
      ensures mode == 0 && disturbX == 512 && disturbY == 512
      ensures fresh(surface) && fresh(surface.mesh) && fresh(surface.heightf) && fresh(surface.obstacle)
      ensures surface.mesh[..] == InitialMesh(GridWidth, GridHeight, GridSpacing)
      ensures surface.heightf[..] == Zeros(GridWidth * GridHeight)
      ensures surface.obstacle[..] == BuiltMask(GridWidth, GridHeight, junk)
    {
      mode := 0;
      disturbX, disturbY := 512, 512;
      surface := new SurfaceMesh(GridWidth, GridHeight, GridSpacing, junk);
    }

    /** Advance the surface by one step of the current mode; `elapsed` is the milliseconds since start. */
    method Tick(elapsed: nat, sin: real -> real)
      requires Valid()
      modifies surface.mesh, surface.heightf
      ensures Valid()
      ensures (surface.mesh[..], surface.heightf[..])
              == Step(mode, GridWidth, GridHeight, GridSpacing, old(surface.mesh[..]), old(surface.heightf[..]),
                      surface.obstacle[..], elapsed as real * TimeScale, sin)
    {
      var time := elapsed as real * TimeScale;
      match mode
      case 0 => surface.Procedural(time, sin);
      case 1 => surface.ProceduralDevice(time, sin);
      case 2 => surface.Heightfield();
      case 3 => surface.HeightfieldDevice();
      case 4 => surface.HeightfieldObstacle();
      case 5 => surface.HeightfieldObstacleDevice();
      case _ =>
    }

    /** Select a mode; moving to another host/device pair resets the surface first. */
    method SetMode(m: int)
      requires Valid()
      modifies this, surface.mesh, surface.heightf
      ensures Valid()
      ensures mode == m && disturbX == old(disturbX) && disturbY == old(disturbY)
      ensures ResetsOnSwitch(old(mode), m) ==>
                surface.mesh[..] == WithHeights(old(surface.mesh[..]), Zeros(GridWidth * GridHeight))
                && surface.heightf[..] == Zeros(GridWidth * GridHeight)
      ensures !ResetsOnSwitch(old(mode), m) ==>
                surface.mesh[..] == old(surface.mesh[..]) && surface.heightf[..] == old(surface.heightf[..])
    {
      if CHalf(mode) != CHalf(m) {
        surface.Reset();
      }
      mode := m;
    }

    /** Aim the next disturbance at column x. */
    method SetX(x: int)
      modifies this
      ensures disturbX == x && disturbY == old(disturbY) && mode == old(mode)
    {
      disturbX := x;
    }

    /** Aim the next disturbance at row y. */
    method SetY(y: int)
      modifies this
      ensures disturbY == y && disturbX == old(disturbX) && mode == old(mode)
    {
      disturbY := y;
    }

    /**
     * Raise the accumulator at the aimed point, except in the wave modes,
     * which do not use it. The sliders keep the aim inside the grid.
     */
    method AddDisturbance()
      requires Valid()
      requires mode == 0 || mode == 1 || (0 <= disturbX < GridWidth && 0 <= disturbY < GridHeight)
      modifies surface.heightf
      ensures Valid()
      ensures mode == 0 || mode == 1 ==> surface.heightf[..] == old(surface.heightf[..])
      ensures mode != 0 && mode != 1 ==>
                0 <= Point(GridWidth, disturbX, disturbY) < surface.heightf.Length
                && surface.heightf[..] == old(surface.heightf[..])[Point(GridWidth, disturbX, disturbY)
                                                                := old(surface.heightf[Point(GridWidth, disturbX, disturbY)]) + 20.0]
    {
      if mode != 0 && mode != 1 {
        surface.AddHFRipple(disturbX, disturbY);
      }
    }

    /** Level the surface and clear the accumulator, in every mode. */
    method Reset()
      requires Valid()
      modifies surface.mesh, surface.heightf
      ensures Valid()
      ensures surface.mesh[..] == WithHeights(old(surface.mesh[..]), Zeros(GridWidth * GridHeight))
      ensures surface.heightf[..] == Zeros(GridWidth * GridHeight)
      ensures Level(surface.mesh[..])
    {
      surface.Reset();
      ZeroHeightsLevel(old(surface.mesh[..]), GridWidth * GridHeight);
    }
  }
}
