/**
 The control skeleton of the dispatch script's `main`: the argument check, the
 single run of the reference filter, and the walk over every device of every
 platform, which either stops `main` at the first device without image
 support or runs the device's dispatch and saves its output image.
 The OpenCL and imaging calls themselves are opaque; what a device run
 determines (work sizes, read-back geometry, output name) is kept.
 */
module Orchestrator {
  import opened Wrappers
  import WorkSize
  import Readback
  import Naming

  /** A device as the loop sees it: its type rendered as a string, and
      whether it reports image support. */
  datatype Device = Device(typeName: string, imageSupport: bool)

  /** A platform and its devices, in the order the backend lists them. */
  datatype Platform = Platform(devices: seq<Device>)

  /** The dimensions the codec reports for the decoded input image. */
  datatype ImageSize = ImageSize(width: nat, height: nat)

  /** What one completed device run determines. */
  datatype DeviceRun = DeviceRun(
    typeName: string,
    workSizes: WorkSize.WorkSizes,
    readback: Readback.ReadbackPlan,
    outputName: string)

  /** The effect of one call of `main`: the value it returns (`None` when it
      falls off the end), how often the reference filter ran, for how many
      devices a context and command queue were created, and the device runs
      that saved an output image, in order. */
  datatype Outcome = Outcome(
    returned: Option<int>,
    referenceRuns: nat,
    contextsCreated: nat,
    runs: seq<DeviceRun>)

  /** Every device of every platform, platform by platform. */
  function Enumerate(platforms: seq<Platform>): (ds: seq<Device>)
  {
    if |platforms| == 0 then [] else platforms[0].devices + Enumerate(platforms[1..])
  }

  /** The index of the first device without image support, or the number of
      devices when all of them support images. */
  function FirstUnsupported(ds: seq<Device>): (k: nat)
    ensures k <= |ds|
    ensures forall i :: 0 <= i < k ==> ds[i].imageSupport
    ensures k < |ds| ==> !ds[k].imageSupport
  {
    if |ds| == 0 || !ds[0].imageSupport then 0 else 1 + FirstUnsupported(ds[1..])
  }

  /** One device's dispatch: the work sizes for its type, the read-back of
      the whole output image, and its output file name. The launched global
      range covers every pixel that is read back. */
  function ProcessDevice(d: Device, inputName: string, image: ImageSize): (r: DeviceRun)
    ensures r.readback.region.x <= r.workSizes.global.x
    ensures r.readback.region.y <= r.workSizes.global.y
    ensures |r.outputName| == |d.typeName| + |inputName| + 2
    ensures r.outputName[|d.typeName| + 2..] == inputName
    ensures r.outputName[..|d.typeName| + 2] == "(" + d.typeName + ")"
  {
    DeviceRun(
      d.typeName,
      WorkSize.Plan(d.typeName, image.width, image.height),
      Readback.PlanReadback(image.width, image.height),
      Naming.OutputName(d.typeName, inputName))
  }

  /** `runs` are the runs of the leading devices of `ds`, one each, in order. */
  ghost predicate RunsOf(runs: seq<DeviceRun>, ds: seq<Device>, inputName: string, image: ImageSize)
  {
    && |runs| <= |ds|
    && forall i :: 0 <= i < |runs| ==> runs[i] == ProcessDevice(ds[i], inputName, image)
  }

  /** The contract of `FirstUnsupported` determines it. */
  lemma FirstUnsupportedAt(ds: seq<Device>, k: nat)
    requires k <= |ds|
    requires forall i :: 0 <= i < k ==> ds[i].imageSupport
    requires k < |ds| ==> !ds[k].imageSupport
    ensures FirstUnsupported(ds) == k
  {
  }

  /** Extending the runs by the next device's run. */
  lemma RunsOfAppend(runs: seq<DeviceRun>, ds: seq<Device>, inputName: string, image: ImageSize)
    requires RunsOf(runs, ds, inputName, image)
    requires |runs| < |ds|
    ensures RunsOf(runs + [ProcessDevice(ds[|runs|], inputName, image)], ds, inputName, image)
  {
  }

  /** Dropping the first platform drops exactly its devices. */
  lemma EnumerateStep(platforms: seq<Platform>, p: nat)
    requires p < |platforms|
    ensures Enumerate(platforms[p..]) == platforms[p].devices + Enumerate(platforms[p + 1..])
  {
    assert platforms[p..][1..] == platforms[p + 1..];
  }

  /** `main`. `args` is the argument vector, program name first, which the
      interpreter never leaves empty; `image` is what the codec decodes
      from `args[1]`, the same for every device. */
  method Run(args: seq<string>, platforms: seq<Platform>, image: ImageSize) returns (o: Outcome)
    requires |args| >= 1
    ensures |args| != 2 ==> o == Outcome(Some(1), 0, 0, [])
    ensures |args| == 2 ==> o.referenceRuns == 1
    ensures |args| == 2 ==> |o.runs| == FirstUnsupported(Enumerate(platforms))
    ensures |args| == 2 ==> RunsOf(o.runs, Enumerate(platforms), args[1], image)
    ensures |args| == 2 ==> (o.returned == Some(1) <==> |o.runs| < |Enumerate(platforms)|)
    ensures |args| == 2 ==> (o.returned == None <==> |o.runs| == |Enumerate(platforms)|)
    ensures |args| == 2 ==> o.contextsCreated == if o.returned == None then |o.runs| else |o.runs| + 1
  {
    if |args| != 2 {
      return Outcome(Some(1), 0, 0, []);
    }
    var inputName := args[1];
    var referenceRuns := 1;
    var contexts := 0;
    var runs: seq<DeviceRun> := [];
    ghost var ds := Enumerate(platforms);
    var p := 0;
    while p < |platforms|
      invariant p <= |platforms|
      invariant |runs| <= |ds| && Enumerate(platforms[p..]) == ds[|runs|..]
      invariant forall i :: 0 <= i < |runs| ==> ds[i].imageSupport
      invariant RunsOf(runs, ds, inputName, image)
      invariant contexts == |runs|
    {
      var devices := platforms[p].devices;
      ghost var base := |runs|;
      EnumerateStep(platforms, p);
      var j := 0;
      while j < |devices|
        invariant j <= |devices|
        invariant |runs| == base + j
        invariant ds[base..] == devices + Enumerate(platforms[p + 1..])
        invariant forall i :: 0 <= i < |runs| ==> ds[i].imageSupport
        invariant RunsOf(runs, ds, inputName, image)
        invariant contexts == |runs|
      {
        assert ds[base + j] == devices[j];
        var device := devices[j];
        contexts := contexts + 1;
        if !device.imageSupport {
          FirstUnsupportedAt(ds, |runs|);
          return Outcome(Some(1), referenceRuns, contexts, runs);
        }
        RunsOfAppend(runs, ds, inputName, image);
        runs := runs + [ProcessDevice(device, inputName, image)];
        j := j + 1;
      }
      assert ds[|runs|..] == ds[base..][|devices|..];
      p := p + 1;
    }
    FirstUnsupportedAt(ds, |runs|);
    return Outcome(None, referenceRuns, contexts, runs);
  }

  /** Output files are pairwise distinct exactly when the processed devices'
      type strings are: two devices of the same type write the same file. */
  lemma DistinctOutputNames(runs: seq<DeviceRun>, ds: seq<Device>, inputName: string, image: ImageSize)
    requires RunsOf(runs, ds, inputName, image)
    ensures (forall i, j :: 0 <= i < j < |runs| ==> runs[i].outputName != runs[j].outputName)
        <==> (forall i, j :: 0 <= i < j < |runs| ==> ds[i].typeName != ds[j].typeName)
  {
    forall i, j | 0 <= i < j < |runs|
      ensures runs[i].outputName == runs[j].outputName <==> ds[i].typeName == ds[j].typeName
    {
      Naming.OutputNameInjective(ds[i].typeName, ds[j].typeName, inputName);
    }
  }
}
