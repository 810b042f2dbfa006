/**
 * `SystemHealthMonitor`: the threshold table it loads at start-up and the cycle it runs,
 * with every psutil reading and clock read given as an input (`Sample`) and the log and
 * console output recorded as a sequence of events.
 */
module Monitor {
  import opened Wrappers
  import opened Metrics
  import opened Config
  import opened Disks
  import opened Processes
  import opened Alerts
  import opened Report
  import opened Sequences

  /** What `psutil.virtual_memory()` reported. */
  datatype VirtualMemory = VirtualMemory(percent: real, used: nat, total: nat, available: nat)

  /**
   * The readings of one cycle: `cpu_percent(interval=1)`, `virtual_memory()`, the partitions
   * with their usage reads, `pids()`, the `process_iter` reads, the clock as the report reads
   * it, and the clock as the heartbeat line reads it after the cycle.
   */
  datatype Sample = Sample(
    cpuPercent: real,
    memory: VirtualMemory,
    partitions: seq<Partition>,
    pids: seq<int>,
    processes: seq<ProcessRead>,
    now: string,
    heartbeatAt: string)

  /** What the monitor writes to its log and console. */
  datatype Event =
    | AlertRaised(kind: string, alert: Alert)
    | CheckCompleted
    | Healthy(at: string)
    | MonitoringStarted(interval: int, thresholds: Thresholds)
    | MonitoringStopped

  const AlertKind := "THRESHOLD_EXCEEDED"

  /** `get_top_processes` is called with its default limit. */
  const TopLimit := 5

  function MemoryStatsOf(vm: VirtualMemory): MemoryStats {
    MemoryStats(vm.percent, BytesToGb(vm.used), BytesToGb(vm.total), BytesToGb(vm.available))
  }

  /** The `metrics` dictionary `monitor_once` builds from one sample. */
  function SnapshotOf(s: Sample): Snapshot
  {
    Snapshot(s.cpuPercent, MemoryStatsOf(s.memory), DiskMapOf(s.partitions), |s.pids|,
             TopProcesses(s.processes, TopLimit))
  }

  /**
   * `get_memory_usage`: psutil's percentage passes through, and each byte count becomes
   * gigabytes within half a hundredth.
   */
  lemma MemoryStatsClose(vm: VirtualMemory)
    ensures var ms, b := MemoryStatsOf(vm), BytesPerGb as real;
      && ms.percent == vm.percent
      && -b <= 200.0 * (ms.used * b - vm.used as real) <= b
      && -b <= 200.0 * (ms.total * b - vm.total as real) <= b
      && -b <= 200.0 * (ms.available * b - vm.available as real) <= b
  {
    BytesToGbClose(vm.used);
    BytesToGbClose(vm.total);
    BytesToGbClose(vm.available);
  }

  /**
   * The `metrics` dictionary of one cycle: the CPU reading, one process per pid, a disk
   * dictionary with unique mounts holding exactly the readable mounts, and at most five top
   * processes (the default limit), in non-increasing CPU order, each read from `process_iter`.
   */
  lemma SnapshotFacts(s: Sample)
    ensures var m := SnapshotOf(s);
      && m.cpuPercent == s.cpuPercent
      && m.processCount == |s.pids|
      && UniqueMounts(m.disk)
      && (forall k :: HasMount(m.disk, k) <==>
            exists j :: 0 <= j < |s.partitions| && s.partitions[j].mountpoint == k && s.partitions[j].usage.Usage?)
      && |m.topProcesses| == (if |Readable(s.processes)| < TopLimit then |Readable(s.processes)| else TopLimit)
      && NonIncreasing(m.topProcesses)
      && (forall p :: p in m.topProcesses ==> Info(p) in s.processes)
  {
    DiskMapUnique(s.partitions);
    forall k ensures HasMount(DiskMapOf(s.partitions), k) <==>
      exists j :: 0 <= j < |s.partitions| && s.partitions[j].mountpoint == k && s.partitions[j].usage.Usage?
    {
      DiskMapMounts(s.partitions, k);
    }
    TopProcessesSpec(s.processes, TopLimit);
  }

  /** One `send_alert` per alert, in the order given. */
  function AlertEvents(alerts: seq<Alert>): (es: seq<Event>)
    ensures |es| == |alerts|
  {
    if alerts == [] then []
    else AlertEvents(alerts[..|alerts| - 1]) + [AlertRaised(AlertKind, alerts[|alerts| - 1])]
  }

  /** The `i`-th alert event reports the `i`-th alert, under the fixed kind. */
  lemma {:induction false} AlertEventsAt(alerts: seq<Alert>, i: int)
    requires 0 <= i < |alerts|
    ensures AlertEvents(alerts)[i] == AlertRaised(AlertKind, alerts[i])
  {
    var n := |alerts| - 1;
    if i < n {
      AlertEventsAt(alerts[..n], i);
    }
  }

  /** What one cycle of `monitor_continuous` decided: the alerts it raised, and when. */
  datatype Outcome = Outcome(alerts: seq<Alert>, at: string)

  /** The outcome of running one cycle on sample `s` with table `t`. */
  function OutcomeOf(t: Thresholds, s: Sample): Outcome {
    Outcome(Evaluate(SnapshotOf(s), t), s.heartbeatAt)
  }

  /** The outcomes of the cycles run on `samples`, in order. */
  function Outcomes(t: Thresholds, samples: seq<Sample>): seq<Outcome>
  {
    seq(|samples|, i requires 0 <= i < |samples| => OutcomeOf(t, samples[i]))
  }

  /** The output of one cycle: its alerts, the completion line, and the heartbeat when nothing fired. */
  function CycleEvents(o: Outcome): seq<Event> {
    AlertEvents(o.alerts) + [CheckCompleted] + (if o.alerts == [] then [Healthy(o.at)] else [])
  }

  /** The output of a run of cycles, in order. */
  function RunEvents(os: seq<Outcome>): seq<Event> {
    if os == [] then []
    else RunEvents(os[..|os| - 1]) + CycleEvents(os[|os| - 1])
  }

  lemma RunEventsStep(os: seq<Outcome>, n: nat)
    requires n < |os|
    ensures RunEvents(os[..n + 1]) == RunEvents(os[..n]) + CycleEvents(os[n])
  {
    assert os[..n + 1][..n] == os[..n];
  }

  /** A cycle prints the heartbeat iff it raised no alert. */
  lemma HeartbeatIff(o: Outcome, at: string)
    ensures Healthy(at) in CycleEvents(o) <==> o.alerts == [] && at == o.at
  {
    var es := AlertEvents(o.alerts);
    assert CycleEvents(o) == es + [CheckCompleted] + (if o.alerts == [] then [Healthy(o.at)] else []);
    forall i | 0 <= i < |es|
      ensures es[i] != Healthy(at)
    {
      AlertEventsAt(o.alerts, i);
    }
  }

  /** The alerts carried by the alert events of `es`, in log order. */
  function Raised(es: seq<Event>): seq<Alert> {
    if es == [] then []
    else
      var e := es[|es| - 1];
      Raised(es[..|es| - 1]) + (if e.AlertRaised? then [e.alert] else [])
  }

  /** The number of completion lines in `es`. */
  function Completions(es: seq<Event>): nat {
    if es == [] then 0
    else Completions(es[..|es| - 1]) + (if es[|es| - 1].CheckCompleted? then 1 else 0)
  }

  /** Every cycle's alerts, joined in cycle order. */
  function AllAlerts(os: seq<Outcome>): seq<Alert> {
    if os == [] then [] else AllAlerts(os[..|os| - 1]) + os[|os| - 1].alerts
  }

  lemma {:induction false} RaisedAppend(a: seq<Event>, b: seq<Event>)
    ensures Raised(a + b) == Raised(a) + Raised(b)
  {
    if b != [] {
      var n := |b| - 1;
      assert (a + b)[..|a + b| - 1] == a + b[..n];
      RaisedAppend(a, b[..n]);
    } else {
      assert a + b == a;
    }
  }

  lemma {:induction false} CompletionsAppend(a: seq<Event>, b: seq<Event>)
    ensures Completions(a + b) == Completions(a) + Completions(b)
  {
    if b != [] {
      var n := |b| - 1;
      assert (a + b)[..|a + b| - 1] == a + b[..n];
      CompletionsAppend(a, b[..n]);
    } else {
      assert a + b == a;
    }
  }

  /** The dispatch loop's events carry exactly the alerts, in order, and no completion line. */
  lemma {:induction false} AlertEventsCarry(alerts: seq<Alert>)
    ensures Raised(AlertEvents(alerts)) == alerts
    ensures Completions(AlertEvents(alerts)) == 0
  {
    if alerts != [] {
      var n := |alerts| - 1;
      var es := AlertEvents(alerts);
      AlertEventsCarry(alerts[..n]);
      assert es[..|es| - 1] == AlertEvents(alerts[..n]);
      assert alerts[..n] + [alerts[n]] == alerts;
    }
  }

  /** One cycle's events carry its alerts, in order, and exactly one completion line. */
  lemma CycleCarries(o: Outcome)
    ensures Raised(CycleEvents(o)) == o.alerts
    ensures Completions(CycleEvents(o)) == 1
  {
    var es := AlertEvents(o.alerts);
    var hb := if o.alerts == [] then [Healthy(o.at)] else [];
    AlertEventsCarry(o.alerts);
    RaisedAppend(es, [CheckCompleted]);
    RaisedAppend(es + [CheckCompleted], hb);
    CompletionsAppend(es, [CheckCompleted]);
    CompletionsAppend(es + [CheckCompleted], hb);
    assert Raised([CheckCompleted]) == [] && Completions([CheckCompleted]) == 1;
    assert Raised(hb) == [] && Completions(hb) == 0;
  }

  /**
   * Over a run, the log's alert events are every cycle's alerts joined in cycle order, and
   * there is exactly one completion line per cycle.
   */
  lemma {:induction false} RunCarries(os: seq<Outcome>)
    ensures Raised(RunEvents(os)) == AllAlerts(os)
    ensures Completions(RunEvents(os)) == |os|
  {
    if os != [] {
      var n := |os| - 1;
      RunCarries(os[..n]);
      CycleCarries(os[n]);
      RaisedAppend(RunEvents(os[..n]), CycleEvents(os[n]));
      CompletionsAppend(RunEvents(os[..n]), CycleEvents(os[n]));
    }
  }

  class SystemHealthMonitor {
    var thresholds: Thresholds
    var events: seq<Event>

    /** `__init__`: the defaults, overwritten by each key present under the file's `thresholds`. */
    constructor (config: Option<ConfigFile>)
      ensures thresholds == Loaded(config)
      ensures events == []
    {
      var t := Defaults;
      if config.Some? {
        var o := config.value.thresholds.GetOr(NoOverrides);
        if o.cpuPercent.Some? { t := t.(cpuPercent := o.cpuPercent.value); }
        if o.memoryPercent.Some? { t := t.(memoryPercent := o.memoryPercent.value); }
        if o.diskPercent.Some? { t := t.(diskPercent := o.diskPercent.value); }
        if o.maxProcesses.Some? { t := t.(maxProcesses := o.maxProcesses.value); }
      }
      thresholds := t;
      events := [];
    }

    /** `get_disk_usage`: the readable partitions stored into an insertion-ordered dictionary. */
    method GetDiskUsage(partitions: seq<Partition>) returns (disk: DiskMap)
      ensures disk == DiskMapOf(partitions)
    {
      disk := [];
      var i := 0;
      while i < |partitions|
        invariant 0 <= i <= |partitions|
        invariant disk == DiskMapOf(partitions[..i])
      {
        var p := partitions[i];
        assert partitions[..i + 1][..i] == partitions[..i];
        match p.usage {
          case PermissionDenied =>
          case Usage(_, _, _) =>
            disk := Put(disk, p.mountpoint, StatsOf(p.usage));
        }
        i := i + 1;
      }
      assert partitions[..i] == partitions;
    }

    /** `get_top_processes(limit)`. */
    method GetTopProcesses(results: seq<ProcessRead>, limit: int) returns (top: seq<ProcessInfo>)
      ensures top == TopProcesses(results, limit)
      ensures 0 <= limit ==> |top| == if limit < |Readable(results)| then limit else |Readable(results)|
      ensures NonIncreasing(top)
      ensures forall p :: p in top ==> Info(p) in results
      ensures forall c :: WithKey(top, c) <= WithKey(Readable(results), c)
    {
      var processes := [];
      for i := 0 to |results|
        invariant processes == Readable(results[..i])
      {
        assert results[..i + 1][..i] == results[..i];
        match results[i] {
          case Info(info) => processes := processes + [info];
          case NoSuchProcess =>
          case AccessDenied =>
        }
      }
      assert results[..|results|] == results;
      top := Take(SortByCpu(processes), limit);
      TopProcessesSpec(results, limit);
    }

    /** `check_thresholds(metrics)`: reads the table, changes nothing, returns the alerts. */
    method CheckThresholds(metrics: Snapshot) returns (alerts: seq<Alert>)
      ensures alerts == Evaluate(metrics, thresholds)
    {
      var t := thresholds;
      alerts := [];
      if metrics.cpuPercent > t.cpuPercent {
        alerts := alerts + [CpuHigh(metrics.cpuPercent, t.cpuPercent)];
      }
      if metrics.memory.percent > t.memoryPercent {
        alerts := alerts + [MemoryHigh(metrics.memory.percent, t.memoryPercent)];
      }
      ghost var scalar := alerts;
      var disk := metrics.disk;
      for i := 0 to |disk|
        invariant alerts == scalar + DiskAlerts(disk[..i], t.diskPercent)
      {
        var e := disk[i];
        DiskAlertsStep(disk, i, t.diskPercent);
        if e.stats.percent > t.diskPercent {
          AppendAssoc(scalar, DiskAlerts(disk[..i], t.diskPercent), [DiskHigh(e.mount, e.stats.percent, t.diskPercent)]);
          alerts := alerts + [DiskHigh(e.mount, e.stats.percent, t.diskPercent)];
        } else {
          assert DiskAlerts(disk[..i + 1], t.diskPercent) == DiskAlerts(disk[..i], t.diskPercent);
        }
      }
      assert disk[..|disk|] == disk;
      if metrics.processCount as real > t.maxProcesses {
        alerts := alerts + [ProcessCountHigh(metrics.processCount, t.maxProcesses)];
      }
    }

    /** `generate_report(metrics)` with the clock reading `now`. */
    method GenerateReport(metrics: Snapshot, now: string) returns (report: seq<ReportLine>)
      ensures IsReport(report, metrics, now)
    {
      var d := |metrics.disk|;
      report := Header(metrics, now);
      for i := 0 to d
        invariant |report| == 5 + i
        invariant report[..5] == Header(metrics, now)
        invariant forall k :: 0 <= k < i ==> report[5 + k] == DiskLine(metrics.disk[k])
      {
        report := report + [DiskLine(metrics.disk[i])];
      }
      report := report + [RunningProcesses(metrics.processCount), TopHeading];
      for i := 0 to |metrics.topProcesses|
        invariant |report| == 7 + d + i
        invariant report[..5] == Header(metrics, now)
        invariant forall k :: 0 <= k < d ==> report[5 + k] == DiskLine(metrics.disk[k])
        invariant report[5 + d] == RunningProcesses(metrics.processCount)
        invariant report[6 + d] == TopHeading
        invariant forall k :: 0 <= k < i ==> report[7 + d + k] == ProcessLineOf(metrics.topProcesses[k])
      {
        report := report + [ProcessLineOf(metrics.topProcesses[i])];
      }
    }

    /** `send_alert`: one warning in the log and on the console. */
    method SendAlert(kind: string, alert: Alert)
      modifies this`events
      ensures events == old(events) + [AlertRaised(kind, alert)]
    {
      events := events + [AlertRaised(kind, alert)];
    }

    /** The dispatch loop of `monitor_once`: one `send_alert` per alert, in order. */
    method SendAlerts(alerts: seq<Alert>)
      modifies this`events
      ensures events == old(events) + AlertEvents(alerts)
    {
      for i := 0 to |alerts|
        invariant events == old(events) + AlertEvents(alerts[..i])
      {
        assert alerts[..i + 1][..i] == alerts[..i];
        SendAlert(AlertKind, alerts[i]);
      }
      assert alerts[..|alerts|] == alerts;
    }

    /** `monitor_once`: collect, evaluate, dispatch every alert in order, build the report. */
    method MonitorOnce(sample: Sample) returns (metrics: Snapshot, alerts: seq<Alert>, report: seq<ReportLine>)
      modifies this`events
      ensures metrics == SnapshotOf(sample)
      ensures alerts == Evaluate(metrics, thresholds)
      ensures IsReport(report, metrics, sample.now)
      ensures events == old(events) + AlertEvents(alerts) + [CheckCompleted]
    {
      var disk := GetDiskUsage(sample.partitions);
      var top := GetTopProcesses(sample.processes, TopLimit);
      metrics := Snapshot(sample.cpuPercent, MemoryStatsOf(sample.memory), disk, |sample.pids|, top);
      alerts := CheckThresholds(metrics);
      SendAlerts(alerts);
      report := GenerateReport(metrics, sample.now);
      events := events + [CheckCompleted];
    }

    /** One iteration of the `monitor_continuous` loop: a cycle, then the heartbeat if nothing fired. */
    method RunCycle(s: Sample) returns (metrics: Snapshot, alerts: seq<Alert>)
      modifies this`events
      ensures metrics == SnapshotOf(s)
      ensures alerts == Evaluate(metrics, thresholds)
      ensures events == old(events) + CycleEvents(Outcome(alerts, s.heartbeatAt))
    {
      ghost var before := events;
      var report;
      metrics, alerts, report := MonitorOnce(s);
      ghost var dispatched := AlertEvents(alerts) + [CheckCompleted];
      AppendAssoc(before, AlertEvents(alerts), [CheckCompleted]);
      if alerts == [] {
        AppendAssoc(before, dispatched, [Healthy(s.heartbeatAt)]);
        events := events + [Healthy(s.heartbeatAt)];
      } else {
        assert CycleEvents(Outcome(alerts, s.heartbeatAt)) == dispatched;
      }
    }

    /** The `while True` loop of `monitor_continuous`, run over the cycles that complete before the interrupt. */
    method RunCycles(samples: seq<Sample>)
      modifies this`events
      ensures events == old(events) + RunEvents(Outcomes(thresholds, samples))
    {
      ghost var os := Outcomes(thresholds, samples);
      for n := 0 to |samples|
        invariant events == old(events) + RunEvents(os[..n])
      {
        RunEventsStep(os, n);
        var metrics, alerts := RunCycle(samples[n]);
        AppendAssoc(old(events), RunEvents(os[..n]), CycleEvents(os[n]));
      }
      assert os[..|samples|] == os;
    }

    /**
     * `monitor_continuous(interval)`: log the start and the table, run the cycles (a
     * heartbeat after each cycle that raised nothing), and log the stop once the interrupt
     * arrives during the sleep after the last sample.
     */
    method MonitorContinuous(interval: int, samples: seq<Sample>)
      modifies this`events
      ensures events == old(events) + [MonitoringStarted(interval, thresholds)]
                        + RunEvents(Outcomes(thresholds, samples)) + [MonitoringStopped]
    {
      events := events + [MonitoringStarted(interval, thresholds)];
      RunCycles(samples);
      events := events + [MonitoringStopped];
    }
  }
}
