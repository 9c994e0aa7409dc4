/**
 * The OpenCL handle of the simulation: picking a GPU at start-up, and the
 * create/set-argument/run cycle of a kernel.
 *
 * The OpenCL runtime is not modelled; its answers are inputs. A query that
 * fails is `None` (or `false`), and Fatal, which prints a message and ends
 * the process, is the outcome `Abort(reason)`.
 */
module Gpu {

  datatype Option<T> = None | Some(value: T)

  /** The reasons Fatal is called with. */
  datatype Fatal =
    | PlatformQueryFailed
    | NoPlatform
    | DeviceQueryFailed
    | NoDevice
    | CoresQueryFailed
    | ClockQueryFailed
    | WorkGroupQueryFailed
    | NoContext
    | NoQueue
    | CannotCreateProgram
    | CannotGetBuildLog
    | CannotBuildProgram(log: string)
    | CannotCreateKernel
    | CannotSetArg
    | CannotRunKernel
    | CannotReleaseKernel
    | CannotReleaseProgram

  datatype Result<T> = Ok(value: T) | Abort(reason: Fatal)

  /** Outcome of an operation that yields no value. */
  datatype Outcome = Done | Halt(reason: Fatal)

  // ---------------------------------------------------------------------
  // What the runtime reports

  /**
   * Answers to the queries about one GPU: compute units, maximum clock in
   * MHz, maximum work-group size; `None` where the query fails.
   */
  datatype Device = Device(cores: Option<nat>, mhz: Option<nat>, maxWorkGroup: Option<nat>)

  /** A platform's GPU list, `None` where listing its GPUs fails. */
  datatype Platform = Platform(gpus: Option<seq<Device>>)

  /**
   * Everything start-up asks the runtime: the platform list (`None` where
   * listing platforms fails) and whether the context and the command queue
   * are created.
   */
  datatype Runtime = Runtime(platforms: Option<seq<Platform>>, contextOk: bool, queueOk: bool)

  /** A device, named by its platform's position and its own position in that platform's list. */
  datatype DeviceId = DeviceId(platform: nat, device: nat)

  /** What start-up keeps: the chosen device and its work-group limit. */
  datatype Config = Config(deviceId: DeviceId, maxWorkItems: nat)

  // ---------------------------------------------------------------------
  // Enumeration order and the fatal conditions met along it

  /** Device `x` is in the list of its platform. */
  predicate Listed(ps: seq<Platform>, x: DeviceId)
  {
    x.platform < |ps| && ps[x.platform].gpus.Some? && x.device < |ps[x.platform].gpus.value|
  }

  function DeviceAt(ps: seq<Platform>, x: DeviceId): Device
    requires Listed(ps, x)
  {
    ps[x.platform].gpus.value[x.device]
  }

  /** `x` is met before `y`: platform by platform, device by device. */
  predicate Precedes(x: DeviceId, y: DeviceId)
  {
    x.platform < y.platform || (x.platform == y.platform && x.device < y.device)
  }

  /** Both queries behind the score succeed. */
  predicate Answered(d: Device)
  {
    d.cores.Some? && d.mhz.Some?
  }

  /** The speed estimate: compute units times MHz. */
  function Score(d: Device): (r: nat)
    requires Answered(d)
    ensures d.cores.value > 0 && d.mhz.value > 0 ==> r > 0
  {
    MulNonNegative(d.cores.value, d.mhz.value);
    d.cores.value * d.mhz.value
  }

  lemma MulNonNegative(a: nat, b: nat)
    ensures a * b >= 0 && (a > 0 && b > 0 ==> a * b > 0)
  {
  }

  /** The first fatal condition met while scanning the devices of one list, in order. */
  function DeviceFailure(ds: seq<Device>): Option<Fatal>
  {
    if |ds| == 0 then None
    else if ds[0].cores.None? then Some(CoresQueryFailed)
    else if ds[0].mhz.None? then Some(ClockQueryFailed)
    else DeviceFailure(ds[1..])
  }

  /** The first fatal condition met while scanning one platform. */
  function PlatformFailure(pl: Platform): Option<Fatal>
  {
    match pl.gpus
    case None => Some(DeviceQueryFailed)
    case Some(ds) => if |ds| == 0 then Some(NoDevice) else DeviceFailure(ds)
  }

  /** The first fatal condition met while scanning the platforms, in order. */
  function FirstFailure(ps: seq<Platform>): Option<Fatal>
  {
    if |ps| == 0 then None
    else if PlatformFailure(ps[0]).Some? then PlatformFailure(ps[0])
    else FirstFailure(ps[1..])
  }

  /** A platform the scan passes: it lists at least one GPU and every query about each succeeds. */
  predicate PlatformOk(pl: Platform)
  {
    pl.gpus.Some? && |pl.gpus.value| > 0 && forall e :: 0 <= e < |pl.gpus.value| ==> Answered(pl.gpus.value[e])
  }

  /**
   * `best` is the device start-up picks: it has the highest score, and every
   * device met before it scores strictly less.
   */
  ghost predicate FirstBest(ps: seq<Platform>, best: DeviceId)
  {
    Listed(ps, best) && Answered(DeviceAt(ps, best)) &&
    forall x :: Listed(ps, x) ==>
      Answered(DeviceAt(ps, x)) && Score(DeviceAt(ps, x)) <= Score(DeviceAt(ps, best)) &&
      (Precedes(x, best) ==> Score(DeviceAt(ps, x)) < Score(DeviceAt(ps, best)))
  }

  /**
   * The running state of the selection scan once every device before
   * `bound` has been seen: `top` is the best score so far (-1 before the
   * first device) and `best` the first device reaching it.
   */
  ghost predicate BestBefore(ps: seq<Platform>, best: DeviceId, top: int, bound: DeviceId)
  {
    (forall x :: Listed(ps, x) && Precedes(x, bound) ==>
       Answered(DeviceAt(ps, x)) && Score(DeviceAt(ps, x)) <= top &&
       (Precedes(x, best) ==> Score(DeviceAt(ps, x)) < top)) &&
    (top == -1 || (Listed(ps, best) && Precedes(best, bound) && Answered(DeviceAt(ps, best)) && Score(DeviceAt(ps, best)) == top))
  }

  // ---------------------------------------------------------------------
  // Lemmas about the scan

  /** Devices that pass every query do not change which failure comes first. */
  lemma {:induction false} NoDeviceFailureBefore(ds: seq<Device>, k: nat)
    requires k <= |ds| && forall e :: 0 <= e < k ==> Answered(ds[e])
    ensures DeviceFailure(ds) == DeviceFailure(ds[k..])
    decreases k
  {
    if k > 0 {
      NoDeviceFailureBefore(ds[1..], k - 1);
      assert ds[1..][k - 1..] == ds[k..];
    }
  }

  /** Platforms the scan passes do not change which failure comes first. */
  lemma {:induction false} NoFailureBefore(ps: seq<Platform>, k: nat)
    requires k <= |ps| && forall q :: 0 <= q < k ==> PlatformFailure(ps[q]).None?
    ensures FirstFailure(ps) == FirstFailure(ps[k..])
    decreases k
  {
    if k > 0 {
      NoFailureBefore(ps[1..], k - 1);
      assert ps[1..][k - 1..] == ps[k..];
    }
  }

  /** A device list yields no failure exactly when every query about every device succeeds. */
  lemma {:induction false} DeviceFailureFree(ds: seq<Device>)
    ensures DeviceFailure(ds).None? <==> forall e :: 0 <= e < |ds| ==> Answered(ds[e])
    decreases |ds|
  {
    if |ds| > 0 {
      DeviceFailureFree(ds[1..]);
      assert forall e :: 1 <= e < |ds| ==> ds[e] == ds[1..][e - 1];
    }
  }

  /** A platform yields no failure exactly when it passes the scan. */
  lemma PlatformFailureFree(pl: Platform)
    ensures PlatformFailure(pl).None? <==> PlatformOk(pl)
  {
    if pl.gpus.Some? {
      DeviceFailureFree(pl.gpus.value);
    }
  }

  /** Start-up meets no failure in the scan exactly when every platform passes it. */
  lemma {:induction false} FailureFree(ps: seq<Platform>)
    ensures FirstFailure(ps).None? <==> forall q :: 0 <= q < |ps| ==> PlatformOk(ps[q])
    decreases |ps|
  {
    if |ps| > 0 {
      PlatformFailureFree(ps[0]);
      FailureFree(ps[1..]);
      assert forall q :: 1 <= q < |ps| ==> ps[q] == ps[1..][q - 1];
    }
  }

  /** One platform without GPUs ends start-up, whatever the other platforms hold. */
  lemma EmptyPlatformIsFatal(ps: seq<Platform>, k: nat)
    requires k < |ps| && ps[k].gpus == Some([])
    ensures FirstFailure(ps).Some?
  {
    FailureFree(ps);
    assert !PlatformOk(ps[k]);
  }

  /** At most one device is the first best. */
  lemma FirstBestUnique(ps: seq<Platform>, a: DeviceId, b: DeviceId)
    requires FirstBest(ps, a) && FirstBest(ps, b)
    ensures a == b
  {
    assert Score(DeviceAt(ps, a)) == Score(DeviceAt(ps, b));
    assert !Precedes(a, b) && !Precedes(b, a);
  }

  /** When every device scores the same, the very first device is picked. */
  lemma TieKeepsFirst(ps: seq<Platform>, best: DeviceId)
    requires FirstBest(ps, best) && |ps| > 0 && PlatformOk(ps[0])
    requires forall x, y :: Listed(ps, x) && Listed(ps, y) ==> Score(DeviceAt(ps, x)) == Score(DeviceAt(ps, y))
    ensures best == DeviceId(0, 0)
  {
    var first := DeviceId(0, 0);
    assert Listed(ps, first);
    assert Score(DeviceAt(ps, first)) == Score(DeviceAt(ps, best));
    assert !Precedes(first, best);
  }

  /** Moving the scan's bound from the end of platform p to the start of platform p+1. */
  lemma NextPlatform(ps: seq<Platform>, best: DeviceId, top: int, p: nat)
    requires p < |ps| && ps[p].gpus.Some?
    requires BestBefore(ps, best, top, DeviceId(p, |ps[p].gpus.value|))
    ensures BestBefore(ps, best, top, DeviceId(p + 1, 0))
  {
    forall x | Listed(ps, x) && Precedes(x, DeviceId(p + 1, 0))
      ensures Precedes(x, DeviceId(p, |ps[p].gpus.value|))
    {
    }
  }

  /** The scan over every platform ends with the first best device. */
  lemma ScanComplete(ps: seq<Platform>, best: DeviceId, top: int)
    requires BestBefore(ps, best, top, DeviceId(|ps|, 0)) && top >= 0
    ensures FirstBest(ps, best)
  {
  }

  // ---------------------------------------------------------------------
  // Start-up

  /**
   * The inner loop of the selection for one platform: list its GPUs, query
   * each and keep the first strictly better score.
   */
  method ScanPlatform(ps: seq<Platform>, platform: nat, best: DeviceId, top: int)
    returns (fail: Option<Fatal>, best': DeviceId, top': int)
    requires platform < |ps| && BestBefore(ps, best, top, DeviceId(platform, 0))
    ensures fail == PlatformFailure(ps[platform])
    ensures fail.None? ==> BestBefore(ps, best', top', DeviceId(platform + 1, 0)) && top' >= 0
  {
    best', top' := best, top;
    match ps[platform].gpus
    case None =>
      fail := Some(DeviceQueryFailed);
    case Some(ds) =>
      if |ds| < 1 {
        fail := Some(NoDevice);
        return;
      }
      var device := 0;
      while device < |ds|
        invariant 0 <= device <= |ds|
        invariant forall e :: 0 <= e < device ==> Answered(ds[e])
        invariant BestBefore(ps, best', top', DeviceId(platform, device))
        invariant device > 0 ==> top' >= 0
      {
        var d := ds[device];
        if d.cores.None? {
          NoDeviceFailureBefore(ds, device);
          fail := Some(CoresQueryFailed);
          return;
        }
        if d.mhz.None? {
          NoDeviceFailureBefore(ds, device);
          fail := Some(ClockQueryFailed);
          return;
        }
        var score := d.cores.value * d.mhz.value;
        assert score == Score(DeviceAt(ps, DeviceId(platform, device)));
        if score > top' {
          best', top' := DeviceId(platform, device), score;
        }
        device := device + 1;
      }
      NoDeviceFailureBefore(ds, |ds|);
      NextPlatform(ps, best', top', platform);
      fail := None;
  }

  /**
   * The selection loop: every GPU of every platform, keeping the first
   * device with the highest score. The best score starts at -1, so the
   * first device scanned is always taken.
   */
  method SelectDevice(ps: seq<Platform>) returns (r: Result<DeviceId>)
    requires |ps| >= 1
    ensures FirstFailure(ps).Some? ==> r == Abort(FirstFailure(ps).value)
    ensures FirstFailure(ps).None? ==> r.Ok? && FirstBest(ps, r.value)
  {
    var maxScore := -1;
    var best := DeviceId(0, 0);
    var platform := 0;
    while platform < |ps|
      invariant 0 <= platform <= |ps|
      invariant forall q :: 0 <= q < platform ==> PlatformFailure(ps[q]).None?
      invariant BestBefore(ps, best, maxScore, DeviceId(platform, 0))
      invariant platform > 0 ==> maxScore >= 0
    {
      var fail;
      fail, best, maxScore := ScanPlatform(ps, platform, best, maxScore);
      if fail.Some? {
        NoFailureBefore(ps, platform);
        return Abort(fail.value);
      }
      platform := platform + 1;
    }
    NoFailureBefore(ps, |ps|);
    ScanComplete(ps, best, maxScore);
    return Ok(best);
  }

  /** What start-up does once the device is chosen: ask its work-group limit, then make a context and a queue. */
  function Finish(ps: seq<Platform>, best: DeviceId, contextOk: bool, queueOk: bool): Result<Config>
    requires Listed(ps, best)
  {
    match DeviceAt(ps, best).maxWorkGroup
    case None => Abort(WorkGroupQueryFailed)
    case Some(n) =>
      if !contextOk then Abort(NoContext)
      else if !queueOk then Abort(NoQueue)
      else Ok(Config(best, n))
  }

  /**
   * Start-up: list the platforms, pick the device, ask its work-group
   * limit, create the context and the command queue.
   */
  method InitGpu(rt: Runtime) returns (r: Result<Config>)
    ensures rt.platforms.None? ==> r == Abort(PlatformQueryFailed)
    ensures rt.platforms == Some([]) ==> r == Abort(NoPlatform)
    ensures rt.platforms.Some? && |rt.platforms.value| > 0 && FirstFailure(rt.platforms.value).Some?
            ==> r == Abort(FirstFailure(rt.platforms.value).value)
    ensures rt.platforms.Some? && |rt.platforms.value| > 0 && FirstFailure(rt.platforms.value).None?
            ==> exists best :: FirstBest(rt.platforms.value, best) && r == Finish(rt.platforms.value, best, rt.contextOk, rt.queueOk)
    ensures r.Ok? ==> (rt.platforms.Some? && FirstBest(rt.platforms.value, r.value.deviceId) && rt.contextOk && rt.queueOk &&
                       DeviceAt(rt.platforms.value, r.value.deviceId).maxWorkGroup == Some(r.value.maxWorkItems))
  {
    if rt.platforms.None? {
      return Abort(PlatformQueryFailed);
    }
    var ps := rt.platforms.value;
    if |ps| < 1 {
      return Abort(NoPlatform);
    }
    var chosen := SelectDevice(ps);
    if chosen.Abort? {
      return Abort(chosen.reason);
    }
    var id := chosen.value;
    var limit := DeviceAt(ps, id).maxWorkGroup;
    if limit.None? {
      return Abort(WorkGroupQueryFailed);
    }
    if !rt.contextOk {
      return Abort(NoContext);
    }
    if !rt.queueOk {
      return Abort(NoQueue);
    }
    r := Ok(Config(id, limit.value));
    assert FirstBest(ps, id) && r == Finish(ps, id, rt.contextOk, rt.queueOk);
  }

  // ---------------------------------------------------------------------
  // The kernel cycle

  /** A kernel argument: an integer, or a device buffer. */
  datatype Arg = IntArg(value: int) | BufferArg(buffer: nat)

  /** One enqueued launch: global size, local size and the arguments it ran with. */
  datatype Launch = Launch(global: (nat, nat), local: (nat, nat), args: map<nat, Arg>)

  /**
   * The runtime's answers while building a kernel: program created, program
   * built, build log retrieved (when the build fails), kernel created.
   */
  datatype BuildReply = BuildReply(created: bool, built: bool, log: Option<string>, kernelMade: bool)

  /** The runtime's answers while running a kernel: enqueued, kernel released, program released. */
  datatype RunReply = RunReply(enqueued: bool, kernelReleased: bool, programReleased: bool)

  class GpuHandler {
    const workSize: nat
    const deviceId: DeviceId
    const maxWorkItems: nat
    /** A program is built and not yet released. */
    var programLive: bool
    /** A kernel is created and not yet released. */
    var kernelLive: bool
    /** Arguments set on the current kernel. */
    var args: map<nat, Arg>
    /** Every launch enqueued so far, oldest first. */
    var launches: seq<Launch>

    /** Keep the work size and the start-up configuration; nothing is built yet. */
    constructor (workSize: nat, config: Config)
      ensures this.workSize == workSize && deviceId == config.deviceId && maxWorkItems == config.maxWorkItems
      ensures !programLive && !kernelLive && args == map[] && launches == []
    {
      this.workSize := workSize;
      deviceId, maxWorkItems := config.deviceId, config.maxWorkItems;
      programLive, kernelLive := false, false;
      args, launches := map[], [];
    }

    /**
     * Compile a program and make its kernel. A failing step ends the process;
     * a failed build reports the build log, or that the log is unavailable.
     */
    method CreateKernel(reply: BuildReply) returns (r: Outcome)
      modifies this
      ensures r == (if !reply.created then Halt(CannotCreateProgram)
                    else if !reply.built then
                      (if reply.log.None? then Halt(CannotGetBuildLog) else Halt(CannotBuildProgram(reply.log.value)))
                    else if !reply.kernelMade then Halt(CannotCreateKernel)
                    else Done)
      ensures r == Done ==> programLive && kernelLive && args == map[]
      ensures launches == old(launches)
    {
      if !reply.created {
        return Halt(CannotCreateProgram);
      }
      programLive := true;
      if !reply.built {
        if reply.log.None? {
          return Halt(CannotGetBuildLog);
        }
        return Halt(CannotBuildProgram(reply.log.value));
      }
      if !reply.kernelMade {
        return Halt(CannotCreateKernel);
      }
      kernelLive := true;
      args := map[];
      return Done;
    }

    /** Set argument `num` of the current kernel; there is none once the kernel is released. */
    method SetArg(num: nat, value: Arg, accepted: bool) returns (r: Outcome)
      modifies this
      ensures r == (if old(kernelLive) && accepted then Done else Halt(CannotSetArg))
      ensures r == Done ==> args == old(args)[num := value]
      ensures r != Done ==> args == old(args)
      ensures kernelLive == old(kernelLive) && programLive == old(programLive) && launches == old(launches)
    {
      if !kernelLive || !accepted {
        return Halt(CannotSetArg);
      }
      args := args[num := value];
      return Done;
    }

    /**
     * Enqueue the kernel over a width-by-height range in tiles of workSize
     * by workSize, then release the kernel and its program: each built
     * kernel runs once.
     */
    method RunKernel(width: nat, height: nat, reply: RunReply) returns (r: Outcome)
      modifies this
      ensures r == (if !old(kernelLive) || !reply.enqueued then Halt(CannotRunKernel)
                    else if !reply.kernelReleased then Halt(CannotReleaseKernel)
                    else if !reply.programReleased then Halt(CannotReleaseProgram)
                    else Done)
      ensures old(kernelLive) && reply.enqueued
              ==> launches == old(launches) + [Launch((width, height), (workSize, workSize), old(args))]
      ensures !(old(kernelLive) && reply.enqueued) ==> launches == old(launches)
      ensures r == Done ==> !kernelLive && !programLive
      ensures args == old(args)
    {
      if !kernelLive || !reply.enqueued {
        return Halt(CannotRunKernel);
      }
      launches := launches + [Launch((width, height), (workSize, workSize), args)];
      if !reply.kernelReleased {
        return Halt(CannotReleaseKernel);
      }
      kernelLive := false;
      if !reply.programReleased {
        return Halt(CannotReleaseProgram);
      }
      programLive := false;
      return Done;
    }
  }

  /** Open a handle: keep the work size, then run start-up; its failures end the process. */
  method Open(workSize: nat, rt: Runtime) returns (r: Result<GpuHandler>)
    ensures rt.platforms.None? ==> r == Abort(PlatformQueryFailed)
    ensures rt.platforms == Some([]) ==> r == Abort(NoPlatform)
    ensures rt.platforms.Some? && |rt.platforms.value| > 0 && FirstFailure(rt.platforms.value).Some?
            ==> r == Abort(FirstFailure(rt.platforms.value).value)
    ensures rt.platforms.Some? && |rt.platforms.value| > 0 && FirstFailure(rt.platforms.value).None?
            ==> exists best :: FirstBest(rt.platforms.value, best) &&
                  var f := Finish(rt.platforms.value, best, rt.contextOk, rt.queueOk);
                  (f.Abort? ==> r == Abort(f.reason)) &&
                  (f.Ok? ==> r.Ok? && r.value.deviceId == best && r.value.maxWorkItems == f.value.maxWorkItems)
    ensures r.Ok? ==> fresh(r.value) && r.value.workSize == workSize
    ensures r.Ok? ==> !r.value.programLive && !r.value.kernelLive && r.value.launches == []
    ensures r.Ok? ==> (rt.platforms.Some? && FirstBest(rt.platforms.value, r.value.deviceId) && rt.contextOk && rt.queueOk &&
                       DeviceAt(rt.platforms.value, r.value.deviceId).maxWorkGroup == Some(r.value.maxWorkItems))
  {
    var c := InitGpu(rt);
    if c.Abort? {
      return Abort(c.reason);
    }
    var g := new GpuHandler(workSize, c.value);
    return Ok(g);
  }
}
