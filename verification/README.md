# OpenCL edge-filter dispatch: sizing, naming and control skeleton

This project models the deterministic core of the OpenCL experiment script
`OpenCL-Experiments/main.py`, which runs an edge-detection kernel on every
OpenCL device it finds and saves one filtered image per device. What is
modelled is the script's own logic; every pyopencl and PIL call is opaque.

- `WorkSize` (`work_size.dfy`): `RoundUp`, which rounds an image extent to a
  multiple of the work-group size using Python's floor remainder, and the
  work-size policy: local size (128, 1) on a device whose type string is
  `CPU`, (16, 16) on any other, and the global size per axis as the extent
  rounded up to the local size.
- `Readback` (`readback.dfy`): the host buffer of width·height·4 bytes, the
  read origin (0, 0, 0) and region (width, height, 1), and the tightly packed
  row-major RGBA layout the read produces. No row pitch is passed, so rows are
  not padded. `Offset` and `TexelAt` are proved to be inverse bijections
  between the channels of the region and the bytes of the buffer.
- `Naming` (`naming.dfy`): the output file name `"(" + type + ")" + input`,
  and its inverse `TypeTag`, which recovers the type string.
- `Orchestrator` (`orchestrator.dfy`): `main` as the method `Run`. It checks
  the argument count, runs the reference filter once, and walks every device
  of every platform with two nested loops. At the first device without image
  support it returns 1. Otherwise each device yields one `DeviceRun`: its work
  sizes, its read-back plan and its output name. The contract of `Run` is
  stated against independent definitions: `Enumerate` flattens the platforms,
  `FirstUnsupported` finds the stopping index and `ProcessDevice` describes
  one device's run.
- `Arith` (`arith.dfy`) holds division and remainder facts used by the proofs.
  `Wrappers` (`wrappers.dfy`) holds `Option`.

The input image's dimensions come from the opaque codec. They are a parameter
of `Run`, and the same value is used for every device, because every device
decodes the same `argv[1]`. The device-type string is opaque: it is whatever
pyopencl's `device_type.to_string` returns.

Behaviour of the script worth noting:
- A device without image support ends `main` with `return 1` (lines 82-84).
  It is not skipped. Its context and command queue have already been created
  at that point (lines 78-79), and `Run` counts them in `contextsCreated`.
- `main`'s return value is discarded at line 136, so no exit status is
  modelled, only the value `main` returns: `Some(1)`, or `None` when it falls
  off the end.
- Two devices with the same type string get the same output file name, so
  the later save overwrites the earlier one. `Orchestrator.DistinctOutputNames`
  states exactly when the names are distinct.

## Model

| member | source | states |
|---|---|---|
| `WorkSize.FloorMod` | OpenCL-Experiments/main.py:39 | Python's `%`: the remainder has the divisor's sign, is smaller than the divisor in magnitude, and differs from the dividend by a multiple of the divisor. A zero divisor is excluded because Python raises there. |
| `WorkSize.FloorModAgrees` | OpenCL-Experiments/main.py:39 | For a positive divisor Python's floor remainder equals the Euclidean one. For any divisor the two are zero together. |
| `WorkSize.RoundUp` | OpenCL-Experiments/main.py:38-43 | The result is a multiple of the group size. For a positive group size it lies in [extent, extent + group). For a negative group size it lies in (extent + group, extent]. |
| `WorkSize.RoundUpUnique` | OpenCL-Experiments/main.py:38-43 | Any multiple of the group size in that window equals `RoundUp`, so the contract determines the function. |
| `WorkSize.RoundUpLeast` | OpenCL-Experiments/main.py:38-43 | For a positive group size, no multiple of the group size that is at least the extent is smaller than `RoundUp`. |
| `WorkSize.RoundUpExact` | OpenCL-Experiments/main.py:39-41 | The extent comes back unchanged if and only if it is already divisible by the group size. |
| `WorkSize.RoundUpIdempotent` | OpenCL-Experiments/main.py:38-43 | Rounding an already rounded value changes nothing. |
| `WorkSize.RoundUpIsCeilingGroups` | OpenCL-Experiments/main.py:38-43 | For a positive group size, `RoundUp` equals the group size times ceil(extent / group). The number of groups is that ceiling. |
| `WorkSize.RoundUpMonotone` | OpenCL-Experiments/main.py:38-43 | A larger extent never gets a smaller rounded size. |
| `WorkSize.LocalSize` | OpenCL-Experiments/main.py:102-107 | The local size is (128, 1) exactly when the type string is `CPU`, and (16, 16) exactly when it is not. Both axes are positive. |
| `WorkSize.Plan` | OpenCL-Experiments/main.py:102-110 | On each axis the global size is divisible by the local size, is at least the image extent, and exceeds it by less than one local group. |
| `WorkSize.PlanGroupCounts` | OpenCL-Experiments/main.py:110 | Groups launched per axis = ceil(extent / local). The global size is the least multiple of the local size that covers the extent. |
| `WorkSize.PlanExamples` | OpenCL-Experiments/main.py:102-110 | Worked values: RoundUp(128, 257) = 384, RoundUp(16, 17) = 32. A 640×480 image on a GPU keeps (640, 480). A 100×100 image gives (112, 112). Width 257 on a CPU gives 384. |
| `Readback.PlanReadback` | OpenCL-Experiments/main.py:124-126 | The buffer length is 4 × the volume of the region, which is width·height·4. The region starts at (0, 0, 0) and spans (width, height, 1). |
| `Readback.OffsetRoundTrip` | OpenCL-Experiments/main.py:124-128 | Every channel of every pixel in the region has its byte inside the host buffer, and `TexelAt` maps that byte back to the same channel. |
| `Readback.TexelRoundTrip` | OpenCL-Experiments/main.py:124-128 | Every byte of the host buffer belongs to a channel of the region, and `Offset` maps it back to that byte. The buffer has no slack. |
| `Readback.OffsetInjective` | OpenCL-Experiments/main.py:124-128 | Distinct channels of the region are written to distinct buffer bytes. |
| `Naming.OutputName` | OpenCL-Experiments/main.py:134 | The name starts with `(`, holds the type string from position 1, then `)`, and ends with the input name. Its length is two more than the type string and input name together. |
| `Naming.TypeTagOfOutputName` | OpenCL-Experiments/main.py:134 | `TypeTag` recovers the type string from any output name. |
| `Naming.OutputNameOfTypeTag` | OpenCL-Experiments/main.py:134 | A name in which `TypeTag` finds a tag is the output name of that tag. Both lemmas together say: a name is an output name for the input exactly when it has a tag. |
| `Naming.OutputNameInjective` | OpenCL-Experiments/main.py:134 | For a fixed input name, two type strings give the same name if and only if they are equal. |
| `Naming.OutputNameAmbiguous` | OpenCL-Experiments/main.py:134 | Across different input names the convention is not injective: ("A", ")x") and ("A)", "x") give the same name. |
| `Orchestrator.FirstUnsupported` | OpenCL-Experiments/main.py:81-84 | The stopping index: every earlier device supports images, and the device at the index, if there is one, does not. |
| `Orchestrator.EnumerateStep` | OpenCL-Experiments/main.py:61-62 | The nested platform/device loop visits one platform's devices in order, then the devices of the remaining platforms. |
| `Orchestrator.ProcessDevice` | OpenCL-Experiments/main.py:88-134 | A device run's global work range covers every pixel that is read back. Its output name ends with the input name, right after the device's type in parentheses. |
| `Orchestrator.Run` | OpenCL-Experiments/main.py:50-134 | With an argument count other than 2: returns 1, runs no reference filter, creates no context and saves nothing. Otherwise: the reference filter runs once. The saved runs are exactly those of the devices before the first one without image support, in order, one per device. The return value is 1 exactly when such a device exists and `None` otherwise. Contexts are created for every processed device, plus the failing one. |
| `Orchestrator.DistinctOutputNames` | OpenCL-Experiments/main.py:134 | The saved output names are pairwise distinct if and only if the processed devices' type strings are pairwise distinct. |

## Left out

- WorkSize.RoundUp: a zero group size, where Python raises `ZeroDivisionError`, is excluded by `requires`, because every call at line 110 passes a group size of 128, 16 or 1. `WorkSize.FloorMod` excludes a zero divisor for the same reason.
- All pyopencl calls: context and queue creation, the input and output `cl.Image` objects, the sampler, program build, the kernel launch and `enqueue_read_image`. Only the sizes and names they are given are modelled. Context creation is counted, not performed.
- Exceptions raised inside those calls or the codec: a failed kernel build, a failed image allocation, a failed enqueue, or a missing or undecodable file. Each would end `main` with an exception. The model treats every device call as succeeding.
- PIL decoding, RGBA conversion and saving (`LoadImage`, `SaveImage`) and the reference filter `referenceFilter`. They are file I/O and a codec. The decoded image size is a parameter, and the reference filter is only counted. Whether an upload followed by a download is lossless depends on the libraries and is not stated.
- The kernel source `xFilter.cl` and the filter's pixel semantics are not part of this model.
- Timing: the `timeit` measurement of the reference filter and the elapsed time from the read-back event's profiling counters (line 130). This is floating point and wall-clock time.
- Console output: the usage message, the platform and device capability dump, the printed work sizes and the timings.
- The conversion of width and height to `numpy.int32` for the kernel arguments (lines 119-120). Its wrap-around above 2^31 − 1 only affects the opaque kernel.
- How the file system interprets an output name whose input part contains a directory.
