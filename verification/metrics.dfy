/**
 The metrics record shared by the agent and the collector (src/metrics.rs):
 one timestamped snapshot of a host's CPU, memory and disk figures.
 */
module Metrics {

  /** Rust's `u64`: the width of the timestamp and of every byte count. */
  newtype u64 = x: int | 0 <= x < 0x1_0000_0000_0000_0000

  const NanosPerSecond: int := 1_000_000_000

  /**
   A reading of the system clock, as signed nanoseconds relative to the Unix
   epoch. The clock is an input of the model, not something it consults.
   */
  type SystemTime = int

  /**
   The clock reading is at or after the epoch (otherwise `duration_since(..)`
   returns an error and `unwrap` panics) and its whole seconds fit the `u64`
   that `Duration::as_secs` returns.
   */
  predicate AfterEpoch(now: SystemTime) {
    0 <= now < 0x1_0000_0000_0000_0000 * NanosPerSecond
  }

  /** `now.duration_since(UNIX_EPOCH).unwrap().as_secs()`: whole seconds, sub-second part dropped. */
  function UnixSeconds(now: SystemTime): (s: u64)
    requires AfterEpoch(now)
    ensures s as int * NanosPerSecond <= now < (s as int + 1) * NanosPerSecond
  {
    (now / NanosPerSecond) as u64
  }

  /**
   `SystemMetrics`: exactly the seven fields of the source. `cpuUsage` is an
   `f32` percentage in the source; here it is a real number (no rounding).
   */
  datatype SystemMetrics = SystemMetrics(
    timestamp: u64,
    hostname: string,
    cpuUsage: real,
    memoryTotal: u64,
    memoryUsed: u64,
    diskTotal: u64,
    diskUsed: u64
  )

  /**
   `SystemMetrics::new`: copies every argument into the record unchanged and
   stamps it with the clock's whole seconds. No figure is validated, so the
   only condition is the one the clock itself imposes.
   */
  function New(hostname: string, cpuUsage: real, memoryTotal: u64, memoryUsed: u64,
               diskTotal: u64, diskUsed: u64, now: SystemTime): (m: SystemMetrics)
    requires AfterEpoch(now)
    ensures m.hostname == hostname && m.cpuUsage == cpuUsage
    ensures m.memoryTotal == memoryTotal && m.memoryUsed == memoryUsed
    ensures m.diskTotal == diskTotal && m.diskUsed == diskUsed
    ensures m.timestamp as int * NanosPerSecond <= now < (m.timestamp as int + 1) * NanosPerSecond
  {
    SystemMetrics(UnixSeconds(now), hostname, cpuUsage, memoryTotal, memoryUsed, diskTotal, diskUsed)
  }

  /**
   Every record is what `New` builds from its own fields at any instant inside
   the record's second, and only then: the constructor loses nothing and
   invents nothing.
   */
  lemma NewRoundTrip(m: SystemMetrics, now: SystemTime)
    requires AfterEpoch(now)
    ensures New(m.hostname, m.cpuUsage, m.memoryTotal, m.memoryUsed, m.diskTotal, m.diskUsed, now) == m
        <==> m.timestamp as int * NanosPerSecond <= now < (m.timestamp as int + 1) * NanosPerSecond
  {
  }
}
