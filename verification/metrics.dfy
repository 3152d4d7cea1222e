/**
 * The sampling gate and grid layout of src/metrics.rs. The monotonic clock
 * becomes an integer count of nanoseconds passed in by the caller, the
 * contents of `/proc/stat` at that moment a sequence of lines, and each
 * instance its integer grid cell.
 */
module Metrics {
  import opened CpuTelemetry

  /** `sample_rate`: the least time between two samples, in milliseconds. */
  const SampleRateMillis: nat := 200

  const NanosPerMilli: nat := 1_000_000

  /** `Duration::from_millis(sample_rate)` in nanoseconds. */
  const SampleRateNanos: nat := SampleRateMillis * NanosPerMilli

  /** The gate of `update`: a new sample is taken only once strictly more than the sample rate
      has passed since the last one. */
  predicate SampleDue(lastSampleTime: int, now: int)
    ensures SampleDue(lastSampleTime, now) ==> lastSampleTime < now
  {
    now - lastSampleTime > SampleRateNanos
  }

  /** Once a sample is taken at `now`, no frame within the next sample period takes another:
      samples are at most one per period. */
  lemma NoSampleWithinPeriod(now: int, later: int)
    requires now <= later <= now + SampleRateNanos
    ensures !SampleDue(now, later)
  {
  }

  /** The progress handed to `interpolate_usage`: the whole milliseconds elapsed
      (`as_millis`), over the sample rate. It is 0 for less than a millisecond and at most 1
      exactly while the elapsed time is under 201 ms, so on every frame that does not sample
      it lies in [0, 1]. */
  function Progress(elapsedNanos: nat): (p: real)
    ensures 0.0 <= p
    ensures p == 0.0 <==> elapsedNanos < NanosPerMilli
    ensures p <= 1.0 <==> elapsedNanos < (SampleRateMillis + 1) * NanosPerMilli
    ensures elapsedNanos <= SampleRateNanos ==> p <= 1.0
  {
    (elapsedNanos / NanosPerMilli) as real / SampleRateMillis as real
  }

  // ---------------------------------------------------------------------------------------
  // Grid layout of SysMetrics::instances

  /** The grid cell of one core's instance: `x` is its column, `z` its row. */
  datatype Cell = Cell(column: nat, row: nat)

  /** The ceiling of the square root of `n`, searching upward from `k`. */
  function CeilSqrtFrom(n: nat, k: nat): (r: nat)
    requires k == 0 || (k - 1) * (k - 1) < n
    ensures r * r >= n
    ensures r == 0 || (r - 1) * (r - 1) < n
    decreases n - k
  {
    if k * k >= n then k
    else
      SquareAtLeast(k);
      CeilSqrtFrom(n, k + 1)
  }

  /** `per_row`, the width of the grid: the least `k` with `k * k >= n`, which is what
      `(n as f32).sqrt().ceil()` computes. */
  function PerRow(n: nat): (k: nat)
    ensures k * k >= n
    ensures k == 0 || (k - 1) * (k - 1) < n
    ensures n >= 1 ==> k >= 1
  {
    CeilSqrtFrom(n, 0)
  }

  lemma SquareAtLeast(k: nat)
    ensures k <= k * k
  {
  }

  /** Core `i`'s cell, in a grid `p` columns wide. */
  function CellOf(i: nat, p: nat): (c: Cell)
    requires p >= 1
    ensures c.column < p
    ensures c.row * p + c.column == i
  {
    Cell(i % p, i / p)
  }

  lemma RowBound(i: nat, p: nat)
    requires p >= 1 && i < p * p
    ensures CellOf(i, p).row < p
  {
    var q := i / p;
    assert p * q <= i;
    MulMonotone(p, q, p);
  }

  lemma MulMonotone(p: nat, x: nat, y: nat)
    ensures x >= y ==> p * x >= p * y
  {
    if x >= y {
      var d: nat := x - y;
      assert p * x == p * y + p * d;
    }
  }

  /** `instances(n)` for `n >= 1`, as grid cells: one cell per core; core `i` sits in column
      `i % per_row` of row `i / per_row`, so reading the grid row by row gives the cores in
      order and every cell lies inside the `per_row` by `per_row` square. */
  function Instances(n: nat): (cells: seq<Cell>)
    requires n >= 1
    ensures |cells| == n
    ensures forall i :: 0 <= i < n ==> cells[i].column < PerRow(n) && cells[i].row < PerRow(n)
    ensures forall i :: 0 <= i < n ==> cells[i].row * PerRow(n) + cells[i].column == i
  {
    var p := PerRow(n);
    var cells := seq(n, i requires 0 <= i < n => CellOf(i, p));
    InstancesInSquare(cells, n, p);
    cells
  }

  lemma InstancesInSquare(cells: seq<Cell>, n: nat, p: nat)
    requires p >= 1 && n <= p * p && |cells| == n
    requires forall i :: 0 <= i < n ==> cells[i] == CellOf(i, p)
    ensures forall i :: 0 <= i < n ==> cells[i].column < p && cells[i].row < p
    ensures forall i :: 0 <= i < n ==> cells[i].row * p + cells[i].column == i
  {
    forall i | 0 <= i < n ensures cells[i].column < p && cells[i].row < p {
      RowBound(i, p);
    }
  }

  /** No two cores share a cell. */
  lemma InstancesDistinct(n: nat, i: nat, j: nat)
    requires n >= 1 && i < n && j < n && i != j
    ensures Instances(n)[i] != Instances(n)[j]
  {
  }

  /** `SysMetrics`: the time of the last sample, the CPU histories, the size in bytes of the
      usage buffer and the grid cells of the instances. */
  class SysMetrics {
    var lastSampleTime: int
    const cpuMetrics: CpuMetrics
    const usageBufferSize: nat
    const instances: seq<Cell>

    ghost predicate Valid()
      reads this, cpuMetrics
    {
      cpuMetrics.Valid()
    }

    /** `SysMetrics::new` at time `now`: one sample pass, a usage buffer of one `f32` (4 bytes)
        per core, and one grid cell per core. A table without any core row would make the grid
        width 0, which the source does not survive. */
    constructor (now: int, lines: seq<string>)
      requires AllRowsParse(lines) && CoreIds(lines) != {}
      ensures Valid() && fresh(cpuMetrics)
      ensures lastSampleTime == now
      ensures cpuMetrics.samples == AppendRows(map[], lines)
      ensures cpuMetrics.Ncpus() == |CoreIds(lines)| >= 1
      ensures usageBufferSize == 4 * cpuMetrics.Ncpus()
      ensures |instances| == cpuMetrics.Ncpus()
      ensures instances == Instances(cpuMetrics.Ncpus())
    {
      var metrics := new CpuMetrics.Default(lines);
      var ncpus := metrics.Ncpus();
      cpuMetrics := metrics;
      lastSampleTime := now;
      usageBufferSize := ncpus * 4;
      instances := Instances(ncpus);
    }

    /** `SysMetrics::update` at time `now`: sample when due and then restart the period, and
        return the progress and the interpolated usages written to the buffer. On a frame that
        samples the progress is 0; on any other it lies in [0, 1]. */
    method Update(now: int, lines: seq<string>) returns (progress: real, written: map<string, real>)
      requires Valid() && now >= lastSampleTime && AllRowsParse(lines)
      requires Interpolable(if SampleDue(lastSampleTime, now) then AppendRows(cpuMetrics.samples, lines)
                            else cpuMetrics.samples)
      modifies this, cpuMetrics
      ensures Valid()
      ensures lastSampleTime == if SampleDue(old(lastSampleTime), now) then now else old(lastSampleTime)
      ensures cpuMetrics.samples == if SampleDue(old(lastSampleTime), now)
                                    then AppendRows(old(cpuMetrics.samples), lines)
                                    else old(cpuMetrics.samples)
      ensures progress == Progress(now - lastSampleTime)
      ensures SampleDue(old(lastSampleTime), now) ==> progress == 0.0
      ensures !SampleDue(old(lastSampleTime), now) ==> 0.0 <= progress <= 1.0
      ensures written == cpuMetrics.InterpolateUsage(progress)
      ensures |written| <= cpuMetrics.Ncpus()
    {
      if now - lastSampleTime > SampleRateNanos {
        cpuMetrics.Sample(lines);
        lastSampleTime := now;
      }
      progress := ((now - lastSampleTime) / NanosPerMilli) as real / SampleRateMillis as real;
      written := cpuMetrics.InterpolateUsage(progress);
    }
  }
}
