/**
 The work-group sizing policy of the OpenCL dispatch script: the rounding of an
 image extent up to a multiple of the work-group size (`RoundUp`) and the choice
 of local and global work sizes from the device-type string.
 */
module WorkSize {
  import Arith

  /** Python's `a % b`: the remainder carries the sign of the divisor
      (floor division), unlike Dafny's Euclidean `%`. A zero divisor raises
      `ZeroDivisionError` in Python and is excluded here. */
  function FloorMod(a: int, b: int): (r: int)
    requires b != 0
    ensures b > 0 ==> 0 <= r < b
    ensures b < 0 ==> b < r <= 0
    ensures (a - r) % b == 0
  {
    var e := a % b;
    Arith.MultipleOf(a - e, b, a / b);
    Arith.MultipleShift(a - e, b);
    if b > 0 || e == 0 then e else e + b
  }

  /** For a positive divisor the floor and Euclidean remainders agree; for any divisor the two
      remainders vanish together. */
  lemma FloorModAgrees(a: int, b: int)
    requires b != 0
    ensures b > 0 ==> FloorMod(a, b) == a % b
    ensures FloorMod(a, b) == 0 <==> a % b == 0
  {
  }

  /** `RoundUp(groupSize, globalSize)`: the multiple of `groupSize` reached from
      `globalSize` by moving less than one group in the direction of
      `groupSize`'s sign — for a positive group size, the extent rounded up. */
  function RoundUp(groupSize: int, globalSize: int): (r: int)
    requires groupSize != 0
    ensures r % groupSize == 0
    ensures groupSize > 0 ==> globalSize <= r < globalSize + groupSize
    ensures groupSize < 0 ==> globalSize + groupSize < r <= globalSize
  {
    var rem := FloorMod(globalSize, groupSize);
    Arith.MultipleShift(globalSize - rem, groupSize);
    if rem == 0 then globalSize else globalSize + groupSize - rem
  }

  /** The window `RoundUp` promises holds exactly one multiple of the group
      size, so `RoundUp` is fully determined by its contract. */
  lemma RoundUpUnique(groupSize: int, globalSize: int, m: int)
    requires groupSize != 0
    requires m % groupSize == 0
    requires groupSize > 0 ==> globalSize <= m < globalSize + groupSize
    requires groupSize < 0 ==> globalSize + groupSize < m <= globalSize
    ensures m == RoundUp(groupSize, globalSize)
  {
    var r := RoundUp(groupSize, globalSize);
    Arith.MultipleSub(r, m, groupSize);
    Arith.SmallMultiple(r - m, groupSize);
  }

  /** For a positive group size, `RoundUp` is the least multiple of the group
      size that is at least the extent. */
  lemma RoundUpLeast(groupSize: int, globalSize: int, m: int)
    requires groupSize > 0
    requires m % groupSize == 0 && globalSize <= m
    ensures RoundUp(groupSize, globalSize) <= m
  {
    var r := RoundUp(groupSize, globalSize);
    if m < r {
      Arith.MultipleSub(r, m, groupSize);
      Arith.SmallMultiple(r - m, groupSize);
      assert false;
    }
  }

  /** An extent is left unchanged exactly when it is already a multiple. */
  lemma RoundUpExact(groupSize: int, globalSize: int)
    requires groupSize != 0
    ensures RoundUp(groupSize, globalSize) == globalSize <==> globalSize % groupSize == 0
  {
    FloorModAgrees(globalSize, groupSize);
  }

  /** Rounding twice is rounding once. */
  lemma RoundUpIdempotent(groupSize: int, globalSize: int)
    requires groupSize != 0
    ensures RoundUp(groupSize, RoundUp(groupSize, globalSize)) == RoundUp(groupSize, globalSize)
  {
    RoundUpExact(groupSize, RoundUp(groupSize, globalSize));
  }

  /** Reference definition: for a positive group size, `RoundUp` is the
      ceiling of `globalSize / groupSize` groups, each `groupSize` wide. */
  lemma RoundUpIsCeilingGroups(groupSize: int, globalSize: int)
    requires groupSize > 0
    ensures RoundUp(groupSize, globalSize) == groupSize * ((globalSize + groupSize - 1) / groupSize)
    ensures RoundUp(groupSize, globalSize) / groupSize == (globalSize + groupSize - 1) / groupSize
  {
    var q := (globalSize + groupSize - 1) / groupSize;
    assert globalSize + groupSize - 1 == groupSize * q + (globalSize + groupSize - 1) % groupSize;
    Arith.MultipleOf(groupSize * q, groupSize, q);
    RoundUpUnique(groupSize, globalSize, groupSize * q);
  }

  /** A larger extent never needs a smaller global size. */
  lemma RoundUpMonotone(groupSize: int, x: int, y: int)
    requires groupSize > 0
    requires x <= y
    ensures RoundUp(groupSize, x) <= RoundUp(groupSize, y)
  {
    RoundUpLeast(groupSize, x, RoundUp(groupSize, y));
  }

  /** A two-dimensional size, `(x, y)`. */
  datatype Size2 = Size2(x: nat, y: nat)

  /** The dispatch dimensions handed to the kernel launch. */
  datatype WorkSizes = WorkSizes(local: Size2, global: Size2)

  /** The device-type string the policy singles out. */
  const CpuTypeName: string := "CPU"

  /** The local work size: a 2**7-wide single row on a CPU, a 2**4 by 2**4
      tile on any other device. The device's own limits are not consulted. */
  function LocalSize(typeName: string): (l: Size2)
    ensures l.x > 0 && l.y > 0
    ensures l == Size2(128, 1) <==> typeName == CpuTypeName
    ensures l == Size2(16, 16) <==> typeName != CpuTypeName
  {
    if typeName == CpuTypeName then Size2(128, 1) else Size2(16, 16)
  }

  /** The work sizes of one dispatch over a `width` by `height` image: the
      local size from the device type and, per axis, the image extent rounded
      up to a whole number of local groups. */
  function Plan(typeName: string, width: nat, height: nat): (w: WorkSizes)
    ensures w.local == LocalSize(typeName)
    ensures w.global.x % w.local.x == 0 && width <= w.global.x < width + w.local.x
    ensures w.global.y % w.local.y == 0 && height <= w.global.y < height + w.local.y
  {
    var l := LocalSize(typeName);
    WorkSizes(l, Size2(RoundUp(l.x, width), RoundUp(l.y, height)))
  }

  /** The number of work groups launched along each axis is the ceiling of
      the image extent over the local size, and the global size on each axis
      is the smallest multiple of the local size covering the extent. */
  lemma PlanGroupCounts(typeName: string, width: nat, height: nat)
    ensures var w := Plan(typeName, width, height);
      && w.global.x / w.local.x == (width + w.local.x - 1) / w.local.x
      && w.global.y / w.local.y == (height + w.local.y - 1) / w.local.y
    ensures var w := Plan(typeName, width, height);
      forall m: nat ::
        m % w.local.x == 0 && width <= m ==> w.global.x <= m
    ensures var w := Plan(typeName, width, height);
      forall m: nat ::
        m % w.local.y == 0 && height <= m ==> w.global.y <= m
  {
    var l := LocalSize(typeName);
    RoundUpIsCeilingGroups(l.x, width);
    RoundUpIsCeilingGroups(l.y, height);
    forall m: nat | m % l.x == 0 && width <= m
      ensures RoundUp(l.x, width) <= m
    {
      RoundUpLeast(l.x, width, m);
    }
    forall m: nat | m % l.y == 0 && height <= m
      ensures RoundUp(l.y, height) <= m
    {
      RoundUpLeast(l.y, height, m);
    }
  }

  /** Worked values of the policy and of `RoundUp`. */
  lemma PlanExamples()
    ensures RoundUp(128, 256) == 256 && RoundUp(128, 257) == 384
    ensures RoundUp(16, 16) == 16 && RoundUp(16, 17) == 32
    ensures Plan("GPU", 640, 480) == WorkSizes(Size2(16, 16), Size2(640, 480))
    ensures Plan("GPU", 100, 100) == WorkSizes(Size2(16, 16), Size2(112, 112))
    ensures Plan("CPU", 257, 3).global == Size2(384, 3)
  {
  }
}
