/**
 The agent's sampling step (`collect_metrics`, src/bin/client.rs) with the
 stats provider's answers as inputs: each of CPU, memory and disk degrades to
 zero on its own when its query fails, and disk falls back from the root mount
 to the macOS data volume.
 */
module Client {
  import opened Wrappers
  import opened Metrics

  /** A provider's total and free byte counts (for memory, or for a mounted filesystem). */
  datatype Capacity = Capacity(total: u64, free: u64)

  /** The mount tried first. */
  const RootMount: string := "/"

  /** The mount tried when the root mount cannot be queried (macOS). */
  const DataVolumeMount: string := "/System/Volumes/Data"

  /**
   The answers of the stats provider for one sample.
   - `cpu`: None when `cpu_load_aggregate` fails; Some(None) when the
     measurement's `done()` fails; Some(Some(u)) with the user-time fraction u.
   - `memory`: the result of `memory()`.
   - `mounts`: the answer of `mount_at(path)` for each path that succeeds; a
     path that is absent is one whose query fails.
   */
  datatype Provider = Provider(cpu: Option<Option<real>>, memory: Option<Capacity>, mounts: map<string, Capacity>)

  /** `total - free` on `u64` is defined: no more free than total. */
  predicate Fits(c: Capacity) {
    c.free <= c.total
  }

  /** Bytes in use, as the source computes them with a `u64` subtraction. */
  function Used(c: Capacity): (used: u64)
    requires Fits(c)
    ensures used <= c.total
    ensures used as int + c.free as int == c.total as int
  {
    c.total - c.free
  }

  /** The CPU figure: the user-time fraction as a percentage, or 0 when either call fails. */
  function CpuUsage(cpu: Option<Option<real>>): (usage: real)
    ensures cpu.None? || cpu.value.None? ==> usage == 0.0
    ensures cpu.Some? && cpu.value.Some? ==> usage == 100.0 * cpu.value.value
  {
    match cpu
    case None => 0.0
    case Some(None) => 0.0
    case Some(Some(user)) => user * 100.0
  }

  /** `(memory_total, memory_used)`: (0, 0) when the query fails. */
  function MemoryUsage(memory: Option<Capacity>): (r: (u64, u64))
    requires memory.Some? ==> Fits(memory.value)
    ensures memory.None? ==> r == (0, 0)
    ensures memory.Some? ==> r.0 == memory.value.total && r.1 as int == memory.value.total as int - memory.value.free as int
    ensures r.1 <= r.0
  {
    match memory
    case None => (0, 0)
    case Some(c) => (c.total, Used(c))
  }

  /**
   The `u64` subtractions the disk figures need are defined for the mount that
   is actually read: the root mount when it answers, else the data volume.
   */
  predicate DiskFits(mounts: map<string, Capacity>) {
    if RootMount in mounts then Fits(mounts[RootMount])
    else DataVolumeMount in mounts ==> Fits(mounts[DataVolumeMount])
  }

  /** `(disk_total, disk_used)`: the root mount, else the data volume, else (0, 0). */
  function DiskUsage(mounts: map<string, Capacity>): (r: (u64, u64))
    requires DiskFits(mounts)
    ensures RootMount in mounts ==>
      r.0 == mounts[RootMount].total && r.1 as int == mounts[RootMount].total as int - mounts[RootMount].free as int
    ensures RootMount !in mounts && DataVolumeMount in mounts ==>
      r.0 == mounts[DataVolumeMount].total &&
      r.1 as int == mounts[DataVolumeMount].total as int - mounts[DataVolumeMount].free as int
    ensures RootMount !in mounts && DataVolumeMount !in mounts ==> r == (0, 0)
    ensures r.1 <= r.0
  {
    if RootMount in mounts then (mounts[RootMount].total, Used(mounts[RootMount]))
    else if DataVolumeMount in mounts then (mounts[DataVolumeMount].total, Used(mounts[DataVolumeMount]))
    else (0, 0)
  }

  /** The subtractions `collect_metrics` performs are all defined. */
  predicate CanSample(p: Provider) {
    (p.memory.Some? ==> Fits(p.memory.value)) && DiskFits(p.mounts)
  }

  /**
   `collect_metrics`: never fails (its `Result` is always `Ok`), stamps the
   record with the given host name and clock, and never reports more memory
   or disk in use than exists.
   */
  function CollectMetrics(p: Provider, hostname: string, now: SystemTime): (m: SystemMetrics)
    requires CanSample(p) && AfterEpoch(now)
    ensures m.hostname == hostname
    ensures m.timestamp as int * NanosPerSecond <= now < (m.timestamp as int + 1) * NanosPerSecond
    ensures m.cpuUsage == CpuUsage(p.cpu)
    ensures (m.memoryTotal, m.memoryUsed) == MemoryUsage(p.memory)
    ensures (m.diskTotal, m.diskUsed) == DiskUsage(p.mounts)
    ensures m.memoryUsed <= m.memoryTotal && m.diskUsed <= m.diskTotal
  {
    var cpuUsage := CpuUsage(p.cpu);
    var (memoryTotal, memoryUsed) := MemoryUsage(p.memory);
    var (diskTotal, diskUsed) := DiskUsage(p.mounts);
    New(hostname, cpuUsage, memoryTotal, memoryUsed, diskTotal, diskUsed, now)
  }

  /** When the root mount answers, the data volume is never consulted. */
  lemma RootMountShadowsFallback(mounts: map<string, Capacity>, fallback: Option<Capacity>)
    requires RootMount in mounts && Fits(mounts[RootMount])
    ensures var other := if fallback.Some? then mounts[DataVolumeMount := fallback.value]
                         else mounts - {DataVolumeMount};
      DiskFits(other) && DiskUsage(other) == DiskUsage(mounts)
  {
  }

  /** Disk figures depend on nothing but the answers for the root mount and, failing that, the data volume. */
  lemma DiskReadsOnlyTwoMounts(m1: map<string, Capacity>, m2: map<string, Capacity>)
    requires DiskFits(m1) && DiskFits(m2)
    requires (RootMount in m1 <==> RootMount in m2) && (RootMount in m1 ==> m1[RootMount] == m2[RootMount])
    requires RootMount !in m1 ==>
      (DataVolumeMount in m1 <==> DataVolumeMount in m2) &&
      (DataVolumeMount in m1 ==> m1[DataVolumeMount] == m2[DataVolumeMount])
    ensures DiskUsage(m1) == DiskUsage(m2)
  {
  }

  /**
   Graceful degradation: a failed CPU, memory or disk query zeroes exactly that
   subsystem's fields of the record and leaves every other field as it would
   have been had the query succeeded.
   */
  lemma Degradation(p: Provider, hostname: string, now: SystemTime)
    requires CanSample(p) && AfterEpoch(now)
    ensures var m := CollectMetrics(p, hostname, now);
      && CollectMetrics(p.(cpu := None), hostname, now) == m.(cpuUsage := 0.0)
      && CollectMetrics(p.(cpu := Some(None)), hostname, now) == m.(cpuUsage := 0.0)
      && CollectMetrics(p.(memory := None), hostname, now) == m.(memoryTotal := 0, memoryUsed := 0)
      && CollectMetrics(p.(mounts := map[]), hostname, now) == m.(diskTotal := 0, diskUsed := 0)
  {
  }

  /** The root mount failing alone switches the disk figures to the data volume and changes nothing else. */
  lemma RootFailureFallsBack(p: Provider, hostname: string, now: SystemTime)
    requires CanSample(p) && AfterEpoch(now)
    requires DataVolumeMount in p.mounts && Fits(p.mounts[DataVolumeMount])
    ensures var m := CollectMetrics(p, hostname, now);
      var q := p.(mounts := p.mounts - {RootMount});
      CanSample(q) &&
      CollectMetrics(q, hostname, now) ==
        m.(diskTotal := p.mounts[DataVolumeMount].total, diskUsed := Used(p.mounts[DataVolumeMount]))
  {
  }
}
