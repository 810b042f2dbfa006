/**
 * The values one monitoring cycle works on: the threshold table, the snapshot of
 * CPU, memory, disk and process readings, and the alerts raised against it.
 */
module Metrics {
  import opened Wrappers

  /** Bytes in one gigabyte as the monitor counts them: 1024^3. */
  const BytesPerGb: nat := 1073741824

  /**
   * `round(bytes / 1024**3, 2)` expressed as a whole number of hundredths of a gigabyte:
   * the nearest hundredth to the exact quotient, with a tie going to the even hundredth
   * (Python's `round` rounds half to even).
   */
  function CentiGb(bytes: nat): nat
  {
    var q := 100 * bytes / BytesPerGb;
    var rem := 100 * bytes % BytesPerGb;
    if 2 * rem > BytesPerGb || (2 * rem == BytesPerGb && q % 2 == 1) then q + 1 else q
  }

  /**
   * `CentiGb` is within half a hundredth of the exact quotient, and a tie goes to the even
   * hundredth.
   */
  lemma CentiGbRounds(bytes: nat)
    ensures var c := CentiGb(bytes);
      && -(BytesPerGb as int) <= 2 * (c * BytesPerGb - 100 * bytes) <= BytesPerGb
      && ((2 * (c * BytesPerGb - 100 * bytes) == BytesPerGb ||
           2 * (c * BytesPerGb - 100 * bytes) == -(BytesPerGb as int)) ==> c % 2 == 0)
  {
    var q := 100 * bytes / BytesPerGb;
    var rem := 100 * bytes % BytesPerGb;
    assert 100 * bytes == q * BytesPerGb + rem;
  }

  /** `bytes_to_gb`: gigabytes rounded to two decimals. */
  function BytesToGb(bytes: nat): real {
    CentiGb(bytes) as real / 100.0
  }

  /** `bytes_to_gb(bytes)` is within half a hundredth of a gigabyte of bytes / 1024^3. */
  lemma BytesToGbClose(bytes: nat)
    ensures var g := BytesToGb(bytes);
      -(BytesPerGb as real) <= 200.0 * (g * BytesPerGb as real - bytes as real) <= BytesPerGb as real
  {
    var c := CentiGb(bytes);
    CentiGbRounds(bytes);
    var d := 2 * (c * BytesPerGb - 100 * bytes);
    assert -(BytesPerGb as int) <= d <= BytesPerGb;
    calc {
      200.0 * (BytesToGb(bytes) * BytesPerGb as real - bytes as real);
      200.0 * ((c as real / 100.0) * BytesPerGb as real - bytes as real);
      2.0 * (c as real * BytesPerGb as real - 100.0 * bytes as real);
      d as real;
    }
  }

  /** The threshold table: a ceiling per monitored metric; a reading alerts when strictly above it. */
  datatype Thresholds = Thresholds(
    cpuPercent: real,
    memoryPercent: real,
    diskPercent: real,
    maxProcesses: real)

  /** `get_memory_usage`: psutil's percentage and the byte counts converted to gigabytes. */
  datatype MemoryStats = MemoryStats(percent: real, used: real, total: real, available: real)

  /** One mount's usage: `percent` is used/total*100, unrounded; the sizes are in gigabytes. */
  datatype DiskStats = DiskStats(percent: real, used: real, total: real, free: real)

  /** One key/value pair of the insertion-ordered disk dictionary. */
  datatype DiskEntry = DiskEntry(mount: string, stats: DiskStats)

  /** The disk dictionary: entries in insertion order. */
  type DiskMap = seq<DiskEntry>

  /** The `proc.info` record; psutil leaves `cpu_percent`/`memory_percent` as None when unavailable. */
  datatype ProcessInfo = ProcessInfo(
    pid: int,
    name: string,
    cpuPercent: Option<real>,
    memoryPercent: Option<real>)

  /** The `metrics` dictionary `monitor_once` builds: one point-in-time snapshot. */
  datatype Snapshot = Snapshot(
    cpuPercent: real,
    memory: MemoryStats,
    disk: DiskMap,
    processCount: nat,
    topProcesses: seq<ProcessInfo>)

  /** One threshold breach, carrying the offending reading and the threshold it exceeded. */
  datatype Alert =
    | CpuHigh(value: real, threshold: real)
    | MemoryHigh(value: real, threshold: real)
    | DiskHigh(mount: string, value: real, threshold: real)
    | ProcessCountHigh(count: nat, threshold: real)
}
