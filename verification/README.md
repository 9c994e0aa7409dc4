# Height-field water surface, modelled in Dafny

The program simulates a water surface on a `width` by `height` lattice. The
surface mesh keeps three buffers:

- `mesh`: four values per point (x, height, z, w);
- `heightf`: one accumulator per point;
- `obstacle`: an integer mask of `(width+2)*(height+2)` cells.

Each step rewrites the heights in one of three ways:

- procedural sine waves;
- a clamped diffusion;
- a diffusion that stops at obstacle cells.

Each of these comes in a host variant, written as nested loops, and a device
variant, written as an OpenCL kernel. A small GPU handle picks the OpenCL
device at start-up and builds, parameterises and runs one kernel at a time. A
widget holds the surface, the selected mode and the point the sliders aim the
next disturbance at. It advances the surface on every timer tick.

The project has six modules:

- `Indexing` (indexing.dfy): row-major addressing. Point (i, j) is at
  `j*w+i`, and its component c is at `4*(j*w+i)+c`.
- `ObstacleMask` (obstacle_mask.dfy): the mask as the constructor leaves it,
  and the five lookups the obstacle diffusion makes. The program indexes the
  mask with stride `width`, not `width+2`, and the model keeps that stride.
- `Stencil` (stencil.dfy): the per-point rules of the three kernels, stated
  as functions.
  - Pass 1 of every diffusion is `Pointwise(rule, heightf)`.
  - Pass 2 (`AddAccumulator`) adds each accumulator to its point's height.
  - The order lemmas are about a functional fold, `ApplyInOrder`. Visiting
    the points one at a time, in any order, gives the same pass. The
    invariant of the host loops is that fold over the points visited so far.
- `Surface` (surface_mesh.dfy): the class `SurfaceMesh`, with its arrays and
  loops.
  - Every host loop is proved to compute the pass function of Stencil.
  - A device variant snapshots the buffers it hands to the kernel. It
    applies the kernel to every point at once (a `forall` statement). It then
    runs the host's pass-2 loop.
  - A host variant and its device variant carry the same postcondition
    whenever the source's kernels compute the same thing.
- `Gpu` (gpu_handler.dfy): device selection at start-up, and the kernel
  cycle.
  - The runtime's answers are inputs. `Fatal` is an `Abort(reason)` or
    `Halt(reason)` outcome.
- `Project` (project_gl.dfy): the widget's mode state machine over a real
  `SurfaceMesh` of 1024 by 1024 points.

Values are `real`. `sin` is a function parameter. The contents of the mask's
allocation before the constructor writes to it are a parameter `junk`,
because the source never clears the array.

## Model

| member | source | states |
|---|---|---|
| Indexing.PointInGrid | surface_mesh.cpp:17-21 | every grid point's linear index `j*width+i` lies inside the `width*height` accumulator |
| Indexing.PointCoords | surface_mesh.cpp:15-21 | column and row recover (i, j) from `j*width+i`, so distinct loop iterations write distinct cells |
| Indexing.CoordsInGrid | surface_mesh.cpp:15-16 | every index below `width*height` is the index of some visited grid point (i < width, j < height); by PointCoords that point is the only one |
| ObstacleMask.MaskLookupsInRange | surface_mesh.cpp:176-180 | the west, east, south, north and own lookups of any grid point stay inside the `(width+2)*(height+2)` allocation |
| ObstacleMask.BuiltMaskAt | surface_mesh.cpp:22-34 | every cell written by the block loop or the wall loops reads 1 after construction |
| ObstacleMask.MaskAssembled | surface_mesh.cpp:22-34 | a mask that holds its prior content except for 1 on every block and wall cell is the built mask |
| ObstacleMask.BuiltMask | surface_mesh.cpp:22-34 | defines the mask after construction: 1 on every block cell `(j+1)*width+i+1` of a centred point and on every wall cell, the allocation's junk content elsewhere; its length is the allocation's |
| ObstacleMask.MaskedNeighboursInGrid | surface_mesh.cpp:176-181 | on a guarded mask, the neighbours the obstacle diffusion reads lie inside the grid |
| ObstacleMask.MaskedNeighbours | surface_mesh.cpp:176-179 | defines the obstacle neighbour choice: a side whose stride-width mask cell is set falls back to the point itself, otherwise the adjacent point |
| ObstacleMask.BuiltMaskGuarded | surface_mesh.cpp:27-34 | despite the stride, every lookup past an edge of the grid hits a cell the wall loops set |
| ObstacleMask.EdgeColumnsFrozen | surface_mesh.cpp:28-29 | the wall writes land on the own cells of grid columns 0 and width-1, which are therefore frozen |
| ObstacleMask.BlockFrozen | surface_mesh.cpp:22-23 | every point of the centred block is frozen |
| ObstacleMask.ZeroFilledMaskIsBinary | surface_mesh.cpp:13 | if the allocation happened to be zero-filled, the mask holds only 0 and 1, the hypothesis ObstacleCellsAgree and ObstaclePassesAgree need |
| Stencil.ClampAgree | surface_mesh.cpp:98-101 | the host conditionals and the kernel's max/min pick the same neighbours: the clamp-to-edge neighbours, all inside the grid |
| Stencil.HostClamp | surface_mesh.cpp:98-101 | defines the host loop's neighbours: a missing neighbour at the first or last column or row is the point itself |
| Stencil.KernelClamp | surface_mesh.cpp:118-121 | defines the kernel's neighbours with `max(1, i)` and `min(width-2, i)` (and the same for j) |
| Stencil.HeightfieldCell | surface_mesh.cpp:113-124 | defines one kernel work item of the clamped diffusion: add the neighbour mean minus self, then multiply by 0.998 |
| Stencil.ObstacleCell | surface_mesh.cpp:176-183 | defines one host obstacle loop body: a frozen point keeps its accumulator, any other adds the masked neighbour mean minus self and is multiplied by 0.998 |
| Stencil.ObstacleKernelCell | surface_mesh.cpp:192-203 | defines one obstacle kernel work item: the change is multiplied by `1 - flag` and the 0.998 damping applies at every point |
| Stencil.ApplyInOrderPointwise | surface_mesh.cpp:96-105 | visiting distinct points one after another applies the rule to each point's original accumulator, because the rule reads only its own accumulator |
| Stencil.PassPrefixIsInOrder | surface_mesh.cpp:96-105 | the invariant the host pass-1 loops keep after k visits holds exactly when the accumulator is the rule applied in order at points 0 to k-1 |
| Stencil.SequentialIsPointwise | surface_mesh.cpp:96-105 | the row-major host loop computes the same accumulator as the data-parallel kernel dispatch |
| Stencil.OrderIrrelevant | surface_mesh.cpp:96-105 | any two visiting orders of the same points give the same accumulator |
| Stencil.HeightsOfWithHeights | surface_mesh.cpp:55-59 | writing component 1 of every point and reading it back gives the written heights |
| Stencil.WithHeightsAt | surface_mesh.cpp:55-59 | a height write sets component 1 and leaves components 0, 2 and 3 as they were |
| Stencil.WithHeightsIdempotent | surface_mesh.cpp:55-59 | writing the same heights twice is writing them once, so repeating the procedural loop at one time changes nothing |
| Stencil.AddAccumulatorHeights | surface_mesh.cpp:106-110 | pass 2 adds each accumulator to its own point's height and to nothing else |
| Stencil.AddZeroAccumulator | surface_mesh.cpp:106-110 | with a zero accumulator, pass 2 leaves the point buffer unchanged |
| Stencil.LevelLaplacian | surface_mesh.cpp:102 | on a level surface the neighbour average minus self is 0 |
| Stencil.LevelSurfaceOnlyDamps | surface_mesh.cpp:102-103 | on a level surface pass 1 multiplies each accumulator by 0.998, except that the host obstacle pass keeps it unchanged exactly at the frozen points |
| Stencil.LevelFieldIsFixedPoint | surface_mesh.cpp:96-110 | a level surface with zero accumulators stays so under the clamped pass, both obstacle passes and pass 2 |
| Stencil.ObstacleCellsAgree | surface_mesh.cpp:180-183 | at an open point the host and kernel obstacle rules agree; at a frozen point the host keeps the accumulator and the kernel damps it; they agree exactly when the point is open or its accumulator is 0 |
| Stencil.ObstaclePassesAgree | surface_mesh.cpp:192-203 | on a 0/1 mask the kernel's obstacle pass equals the host's exactly when every frozen point's accumulator is 0 |
| Stencil.FrozenPointKeepsAccumulator | surface_mesh.cpp:180-190 | at a frozen point the host obstacle pass keeps the accumulator, so the height moves by exactly that accumulator |
| Stencil.WaveHeightsAt | surface_mesh.cpp:57 | the wave height of point (i, j) is the sum of the three sine terms in i, j and the time |
| Stencil.Wave | surface_mesh.cpp:57 | defines the wave height of point (i, j): three sines in the time and i, j and i+j times the spacing, weighted 0.1, 0.15 and 0.2 |
| Stencil.WaveHeights | surface_mesh.cpp:67 | the kernel's wave heights, one per point of the grid, in row-major order |
| Surface.InitialMeshAt | surface_mesh.cpp:17-20 | point (i, j) starts at x = i*s - height*s/2, height 0, z = j*s - width*s/2, w = 1; x uses the height and z uses the width |
| Surface.InitialMeshIsLevel | surface_mesh.cpp:18 | every height starts at 0 |
| Surface.LatticeSurvivesHeights | surface_mesh.cpp:46 | rewriting heights keeps x, z and w at their constructed values |
| Surface.LayOutPoints | surface_mesh.cpp:15-25 | the first loop nest lays out the whole lattice, zeroes the accumulator and sets the block; every mask cell it changes is a flagged (block or wall) cell, set to 1 |
| Surface.LayOutRow | surface_mesh.cpp:16-24 | one row of the first loop nest extends the laid-out prefix and the set block by one row |
| Surface.LayOutPoint | surface_mesh.cpp:17-21 | the point writes extend the laid-out prefix by one point |
| Surface.FlagBlockPoint | surface_mesh.cpp:22-23 | at a centred point the mask becomes the old mask with the own cell set to 1; at any other point the mask is unchanged |
| Surface.FlagWalls | surface_mesh.cpp:27-34 | after the two wall loops the mask is the built mask |
| Surface.FlagRowEnds | surface_mesh.cpp:27-30 | the first wall loop sets cells r*width and r*width+width+1 of every padded row |
| Surface.FlagTopBottom | surface_mesh.cpp:31-34 | the second wall loop sets the first width+2 cells and the width+2 cells from (height+1)*width |
| Surface.HostHeightfieldCell | surface_mesh.cpp:98-103 | the host loop body's arithmetic is the kernel rule of the clamped diffusion |
| Surface.HostObstacleCell | surface_mesh.cpp:176-183 | the host obstacle loop body's arithmetic is the host obstacle rule |
| Surface.Build | surface_mesh.cpp:11-34 | the constructor's buffers are fresh and hold the initial lattice, zero accumulators and the built mask |
| Surface.SurfaceMesh.constructor | surface_mesh.cpp:5-35 | the new mesh is valid, laid out, level, with zero accumulators and the built mask |
| Surface.SurfaceMesh.Reset | surface_mesh.cpp:43-50 | every height and accumulator becomes 0; x, z, w and the mask are unchanged |
| Surface.SurfaceMesh.ResetRow | surface_mesh.cpp:45-48 | one row of the reset loop extends the zeroed-height prefix and the zeroed-accumulator prefix by one row |
| Surface.SurfaceMesh.Procedural | surface_mesh.cpp:53-60 | every height becomes its wave height; nothing else changes |
| Surface.SurfaceMesh.ProceduralRows | surface_mesh.cpp:55-59 | the procedural loop nest writes every point's wave height into component 1 and nothing else |
| Surface.SurfaceMesh.ProceduralRow | surface_mesh.cpp:56-58 | one row of the procedural loop extends the written-heights prefix by one row |
| Surface.SurfaceMesh.ProceduralDevice | surface_mesh.cpp:71-89 | the kernel writes the same heights as the host loop |
| Surface.SurfaceMesh.FoldHeights | surface_mesh.cpp:106-110 | pass 2 makes the buffer AddAccumulator of the old buffer and the accumulator |
| Surface.SurfaceMesh.FoldRow | surface_mesh.cpp:107-109 | one row of pass 2 extends the raised-heights prefix by one row |
| Surface.SurfaceMesh.HeightfieldAccumulate | surface_mesh.cpp:96-105 | the pass-1 loop nest turns the accumulator into the pointwise pass and does not touch the mesh |
| Surface.SurfaceMesh.HeightfieldPoint | surface_mesh.cpp:98-103 | one loop body changes only the accumulator at its own index, to the rule applied there |
| Surface.SurfaceMesh.HeightfieldRow | surface_mesh.cpp:97-104 | one row of the pass-1 loop extends the pass prefix by one row and leaves the mesh unchanged |
| Surface.SurfaceMesh.Heightfield | surface_mesh.cpp:94-111 | the accumulator becomes HeightfieldPass of the old state and the heights are raised by it |
| Surface.SurfaceMesh.LaunchKernel | surface_mesh.cpp:152-154 | running a kernel over the grid and reading back the accumulator applies it to every point's launch-time value |
| Surface.SurfaceMesh.HeightfieldDevice | surface_mesh.cpp:136-164 | the same postcondition as the host Heightfield |
| Surface.SurfaceMesh.AddHFRipple | surface_mesh.cpp:167-169 | accumulator `y*width+x` grows by 20 and nothing else changes |
| Surface.SurfaceMesh.ObstacleAccumulate | surface_mesh.cpp:174-185 | the obstacle pass-1 loop nest turns the accumulator into the host obstacle pass |
| Surface.SurfaceMesh.ObstaclePoint | surface_mesh.cpp:176-183 | one obstacle loop body changes only its own accumulator, and not at all on a frozen point |
| Surface.SurfaceMesh.ObstacleRow | surface_mesh.cpp:175-184 | one row of the obstacle pass-1 loop extends the pass prefix by one row and leaves the mesh unchanged |
| Surface.SurfaceMesh.HeightfieldObstacle | surface_mesh.cpp:172-191 | the accumulator becomes ObstaclePass of the old state and the heights are raised by it |
| Surface.SurfaceMesh.HeightfieldObstacleDevice | surface_mesh.cpp:205-238 | the accumulator becomes the kernel's ObstacleKernelPass, which damps frozen accumulators too, and the heights are raised by it |
| Gpu.Score | gpu_handler.cpp:44 | the speed estimate is the product of compute units and MHz, positive when both are |
| Gpu.DeviceFailure | gpu_handler.cpp:37-42 | defines the first failing query among a platform's devices, in order: cores before clock |
| Gpu.PlatformFailure | gpu_handler.cpp:32-42 | defines a platform's first failure: the device list query, then an empty list, then the device queries |
| Gpu.FirstFailure | gpu_handler.cpp:28-50 | defines the first failure over all platforms, in enumeration order |
| Gpu.FirstBest | gpu_handler.cpp:27-50 | defines the device start-up must pick: the highest score, with every device enumerated before it scoring strictly less |
| Gpu.Finish | gpu_handler.cpp:53-60 | defines the end of start-up for the chosen device: work-group query, context, queue, failing in that order |
| Gpu.DeviceFailureFree | gpu_handler.cpp:37-42 | a platform's device scan meets no failure exactly when both queries succeed for every device |
| Gpu.PlatformFailureFree | gpu_handler.cpp:32-42 | a platform causes no failure exactly when its GPU list is obtained, non-empty and fully answered |
| Gpu.FailureFree | gpu_handler.cpp:28-50 | the selection loop meets no Fatal exactly when every platform passes |
| Gpu.EmptyPlatformIsFatal | gpu_handler.cpp:32-35 | a single platform without GPUs ends start-up, whatever the others hold |
| Gpu.FirstBestUnique | gpu_handler.cpp:46-49 | the maximum-score, earliest-on-ties device is unique |
| Gpu.TieKeepsFirst | gpu_handler.cpp:46-49 | when all devices score the same, the very first one is kept |
| Gpu.ScanPlatform | gpu_handler.cpp:30-50 | the inner loop fails with the first failing query of the platform, or extends the running best to the platform's end |
| Gpu.SelectDevice | gpu_handler.cpp:27-51 | the loop aborts with the first failure in enumeration order; otherwise it returns the device with the highest score, the earliest on ties (starting from -1, some device is always chosen) |
| Gpu.InitGpu | gpu_handler.cpp:17-61 | failed or empty platform listing and every later failure abort with their reason, in the source's order; otherwise the chosen device and its work-group limit are kept |
| Gpu.GpuHandler.constructor | gpu_handler.cpp:11-12 | the work size is fixed at construction; no program or kernel exists yet |
| Gpu.Open | gpu_handler.cpp:11-14 | constructing the handle runs start-up: every abort of start-up (platform listing, the scan, the work-group query, the context, the queue) ends construction with its reason, in that order; after a clean scan with every query answered the handle is created and holds the work size, the chosen device and its work-group limit |
| Gpu.GpuHandler.CreateKernel | gpu_handler.cpp:72-89 | program creation, build (with or without a log) and kernel creation fail in that order; on success a kernel with no arguments is live |
| Gpu.GpuHandler.SetArg | gpu_handler.cpp:92-94 | an argument is recorded on the live kernel, or the call is fatal |
| Gpu.GpuHandler.RunKernel | gpu_handler.cpp:97-104 | the launch is global (width, height), local (work size, work size), with the arguments set; the kernel and program are released, so a second run without a new kernel fails |
| Project.CHalf | project_gl.cpp:136 | `mode/2` truncates toward zero as C division does |
| Project.SwitchResetsIffSimulationChanges | project_gl.cpp:135-139 | among modes 0-5, a switch resets exactly when it leaves the host/device pair: 0-1 and 2-3 keep the surface, 2-4 resets |
| Project.ClearedSelectorJoinsWaves | project_gl.cpp:136 | a selector index of -1 halves to 0, so it resets from every mode except 0 and 1 |
| Project.ResetSurfaceAtRest | project_gl.cpp:118-129 | right after a reset, a tick in any diffusion mode changes nothing until a disturbance is added |
| Project.Step | project_gl.cpp:111-130 | defines the effect of one tick: modes 0 and 1 lay the waves, 2 and 3 the clamped diffusion, 4 the host and 5 the kernel obstacle diffusion, other modes nothing |
| Project.ProjectGL.constructor | project_gl.cpp:15-26 | mode 0, disturbance aimed at (512, 512), a fresh 1024 by 1024 surface at spacing 0.006 |
| Project.ProjectGL.Tick | project_gl.cpp:110-132 | the surface takes exactly the step of the current mode 0-5, and no step for any other mode |
| Project.ProjectGL.SetMode | project_gl.cpp:135-139 | the surface is reset exactly when the halved modes differ, then the mode is stored |
| Project.ProjectGL.SetX | project_gl.cpp:147-149 | only the column of the aim changes |
| Project.ProjectGL.SetY | project_gl.cpp:152-154 | only the row of the aim changes |
| Project.ProjectGL.AddDisturbance | project_gl.cpp:157-161 | outside modes 0 and 1 the aimed accumulator grows by 20; in modes 0 and 1 nothing changes |
| Project.ProjectGL.Reset | project_gl.cpp:164-166 | the surface is levelled and its accumulator cleared; the mode and the aim stay |

## Left out

- Floating point: values are `real` and the model has no rounding. `sin` is an uninterpreted function parameter.
- The OpenCL calls themselves.
  - `create_buffer` is modelled as a snapshot copy of a host buffer, and `read_buffer` as assigning the kernel's result back. Their own failure paths (`Cannot allocate device memory`, `Cannot copy back from device`) are not modelled.
  - The buffer releases are not modelled.
- Surface.SurfaceMesh.HeightfieldDevice, Surface.SurfaceMesh.HeightfieldObstacleDevice and Surface.SurfaceMesh.ProceduralDevice: modelled by their effect on the buffers. The surface's GPU handle (surface_mesh.cpp:10, work size 32) is not part of `SurfaceMesh`. The handle's create/argument/run cycle is modelled separately in `Gpu`.
- `Fatal`'s message formatting and the process exit: each call is an abort outcome carrying its reason.
- The `int` truncation of the score, the `size_t`/`cl_uint` query sizes, and platform or device lists longer than the 1024-entry arrays: scores are unbounded products.
- The local-size divisibility requirement of a kernel launch: a launch records its sizes, and nothing checks them.
- Gpu.GpuHandler.SetArg: argument sizes and values are abstracted to an `Arg` value. A call on a released kernel is taken to fail, as the runtime reports it.
- The `context` and `queue` handles: only whether they are created is modelled.
- `heightfield_p2_source` (surface_mesh.cpp:126-132): it is never built.
- Rendering and the widget's view state, which are graphics calls:
  - `drawMesh`, `toggleMeshMode` and `mesh_mode`;
  - `drawScene`, `paintGL`, `initializeGL`, `doModelViewProjection`;
  - `setShader` and the camera fields.
- The Qt timer, the signal wiring and the widgets. The elapsed time is the parameter of `Tick`.
- The destructor, which is memory management.
- Integer overflow of `4*width*height` and of the mask indices: the sizes are unbounded.
- Surface.SurfaceMesh.AddHFRipple requires the aimed point to be in the grid. The source adds 20 at `y*width+x` with no check, so for an off-grid pair it raises another point's accumulator (the row wraps: `(width, 0)` hits point (0, 1), `(-1, 1)` hits point (width-1, 0)) or writes outside the buffer; the model does not capture either. Project.ProjectGL.AddDisturbance requires the same when it adds a ripple; the sliders in project_layout.cpp keep the aim within 2..1022.
