/**
 * The structure of `generate_report`: a fixed header, one line per disk mount in
 * dictionary order, the process count, then one line per top process in order. Blank
 * lines and the textual layout of each line are not part of this model.
 */
module Report {
  import opened Wrappers
  import opened Metrics

  datatype ReportLine =
    | Title
    | Timestamp(at: string)
    | CpuUsage(percent: real)
    | MemoryUsage(percent: real, usedGb: real, totalGb: real)
    | DiskHeading
    | DiskUsage(mount: string, percent: real, usedGb: real, totalGb: real)
    | RunningProcesses(count: nat)
    | TopHeading
    | ProcessLine(pid: int, name: string, cpuPercent: real, memoryPercent: real)

  function DiskLine(e: DiskEntry): ReportLine {
    DiskUsage(e.mount, e.stats.percent, e.stats.used, e.stats.total)
  }

  /** A process line; a missing CPU or memory reading is shown as 0 (`x or 0`). */
  function ProcessLineOf(p: ProcessInfo): ReportLine {
    ProcessLine(p.pid, p.name, p.cpuPercent.GetOr(0.0), p.memoryPercent.GetOr(0.0))
  }

  function Header(m: Snapshot, now: string): seq<ReportLine> {
    [Title, Timestamp(now), CpuUsage(m.cpuPercent),
     MemoryUsage(m.memory.percent, m.memory.used, m.memory.total), DiskHeading]
  }

  /** `r` is the report of snapshot `m` taken at time `now`. */
  ghost predicate IsReport(r: seq<ReportLine>, m: Snapshot, now: string) {
    && |r| == 7 + |m.disk| + |m.topProcesses|
    && r[..5] == Header(m, now)
    && (forall i :: 0 <= i < |m.disk| ==> r[5 + i] == DiskLine(m.disk[i]))
    && r[5 + |m.disk|] == RunningProcesses(m.processCount)
    && r[6 + |m.disk|] == TopHeading
    && (forall i :: 0 <= i < |m.topProcesses| ==> r[7 + |m.disk| + i] == ProcessLineOf(m.topProcesses[i]))
  }

  /** The report is a function of the snapshot and the time: equal inputs give equal reports. */
  lemma ReportDeterministic(r1: seq<ReportLine>, r2: seq<ReportLine>, m: Snapshot, now: string)
    requires IsReport(r1, m, now) && IsReport(r2, m, now)
    ensures r1 == r2
  {
    var d := |m.disk|;
    forall k | 0 <= k < |r1| ensures r1[k] == r2[k] {
      if k < 5 {
        assert r1[k] == r1[..5][k] && r2[k] == r2[..5][k];
      } else if k < 5 + d {
        assert r1[5 + (k - 5)] == DiskLine(m.disk[k - 5]);
        assert r2[5 + (k - 5)] == DiskLine(m.disk[k - 5]);
      } else if 7 + d <= k {
        assert r1[7 + d + (k - 7 - d)] == ProcessLineOf(m.topProcesses[k - 7 - d]);
        assert r2[7 + d + (k - 7 - d)] == ProcessLineOf(m.topProcesses[k - 7 - d]);
      }
    }
  }
}
