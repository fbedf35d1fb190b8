/** Utilisation-clamp values and the buckets they are rounded to. */
module Uclamp {
  const SCHED_CAPACITY_SCALE := 1024

  datatype ClampId = UclampMin | UclampMax

  datatype Clamps = Clamps(min: nat, max: nat)

  /** Number of buckets, a build-time choice. */
  type Buckets = n: nat | 1 <= n <= 20 witness 5

  /** Width of a bucket: the capacity scale over the number of buckets, rounded to the closest integer. */
  function Delta(n: Buckets): (d: nat)
    ensures d >= 1
  {
    (SCHED_CAPACITY_SCALE + n / 2) / n
  }

  /** The buckets together are the scale, up to rounding. */
  lemma DeltaIsClosest(n: Buckets)
    ensures -(n as int) <= 2 * (Delta(n) * n - SCHED_CAPACITY_SCALE) <= n
  {
    var x := SCHED_CAPACITY_SCALE + n / 2;
    assert x == (x / n) * n + x % n;
  }

  function BucketId(n: Buckets, value: nat): (b: nat)
    ensures b < n
  {
    var b := value / Delta(n);
    if b < n - 1 then b else n - 1
  }

  /** Bucket `b` starts at `b` widths, and only the last one may be wider. */
  lemma BucketHolds(n: Buckets, value: nat)
    ensures var b, d := BucketId(n, value), Delta(n); b * d <= value && (b < n - 1 ==> value < b * d + d)
  {
    var d := Delta(n);
    MulMonotone(BucketId(n, value), value / d, d);
  }

  /** Buckets are consecutive ranges: a value in a lower bucket is a lower value. */
  lemma BucketsAreRanges(n: Buckets, x: nat, y: nat)
    ensures x <= y ==> BucketId(n, x) <= BucketId(n, y)
    ensures BucketId(n, x) < BucketId(n, y) ==> x < y
  {
    var d := Delta(n);
    if x <= y {
      DivMonotone(x, y, d);
    } else {
      DivMonotone(y, x, d);
    }
  }

  lemma DivMonotone(x: nat, y: nat, d: nat)
    requires x <= y && d >= 1
    ensures x / d <= y / d
  {
    var q, r := x / d, y / d;
    assert q * d <= x && y < (r + 1) * d;
    MulMonotone(r + 1, q, d);
  }

  lemma MulMonotone(a: nat, b: nat, d: nat)
    ensures a <= b ==> a * d <= b * d
  {
  }
}
