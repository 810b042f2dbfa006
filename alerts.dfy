/**
 * `check_thresholds`: compare one snapshot with the threshold table. The checks run in a
 * fixed order (CPU, memory, each disk mount in dictionary order, process count) and each
 * fires only when the reading is strictly greater than its threshold.
 */
module Alerts {
  import opened Metrics
  import opened Disks

  /** One alert per mount, in dictionary order, whose percentage exceeds `threshold`. */
  function DiskAlerts(disk: DiskMap, threshold: real): (r: seq<Alert>)
    ensures |r| <= |disk|
    ensures forall i :: 0 <= i < |r| ==> r[i].DiskHigh? && r[i].threshold == threshold && r[i].value > threshold
  {
    if disk == [] then []
    else
      var e := disk[|disk| - 1];
      DiskAlerts(disk[..|disk| - 1], threshold)
      + (if e.stats.percent > threshold then [DiskHigh(e.mount, e.stats.percent, threshold)] else [])
  }

  /** Visiting one more mount adds its alert, if any, at the end. */
  lemma DiskAlertsStep(disk: DiskMap, i: nat, threshold: real)
    requires i < |disk|
    ensures DiskAlerts(disk[..i + 1], threshold) == DiskAlerts(disk[..i], threshold)
      + (if disk[i].stats.percent > threshold then [DiskHigh(disk[i].mount, disk[i].stats.percent, threshold)] else [])
  {
    assert disk[..i + 1][..i] == disk[..i];
  }

  /** The alerts `check_thresholds(metrics)` returns for the table `t`. */
  function Evaluate(m: Snapshot, t: Thresholds): seq<Alert> {
    (if m.cpuPercent > t.cpuPercent then [CpuHigh(m.cpuPercent, t.cpuPercent)] else [])
    + (if m.memory.percent > t.memoryPercent then [MemoryHigh(m.memory.percent, t.memoryPercent)] else [])
    + DiskAlerts(m.disk, t.diskPercent)
    + (if m.processCount as real > t.maxProcesses then [ProcessCountHigh(m.processCount, t.maxProcesses)] else [])
  }

  /** The position of a kind of alert in the fixed check order. */
  function Rank(a: Alert): nat {
    match a
    case CpuHigh(_, _) => 0
    case MemoryHigh(_, _) => 1
    case DiskHigh(_, _, _) => 2
    case ProcessCountHigh(_, _) => 3
  }

  /** A mount produces a disk alert iff its percentage is strictly above the threshold. */
  lemma {:induction false} DiskAlertsIff(disk: DiskMap, threshold: real, k: string, v: real, th: real)
    ensures DiskHigh(k, v, th) in DiskAlerts(disk, threshold) <==>
      th == threshold && v > threshold &&
      exists i :: 0 <= i < |disk| && disk[i].mount == k && disk[i].stats.percent == v
  {
    if disk != [] {
      var n := |disk| - 1;
      DiskAlertsIff(disk[..n], threshold, k, v, th);
      if exists i :: 0 <= i < |disk| && disk[i].mount == k && disk[i].stats.percent == v {
        var i :| 0 <= i < |disk| && disk[i].mount == k && disk[i].stats.percent == v;
        if i < n {
          assert disk[..n][i] == disk[i];
        }
      }
      if exists i :: 0 <= i < n && disk[..n][i].mount == k && disk[..n][i].stats.percent == v {
        var i :| 0 <= i < n && disk[..n][i].mount == k && disk[..n][i].stats.percent == v;
        assert disk[i] == disk[..n][i];
      }
    }
  }

  /** Every disk alert names a mount of the dictionary it was computed from. */
  lemma {:induction false} DiskAlertsMounts(disk: DiskMap, threshold: real)
    ensures forall a :: a in DiskAlerts(disk, threshold) ==> IndexOfMount(disk, a.mount) < |disk|
  {
    forall a | a in DiskAlerts(disk, threshold) ensures IndexOfMount(disk, a.mount) < |disk| {
      DiskAlertsIff(disk, threshold, a.mount, a.value, a.threshold);
      var i :| 0 <= i < |disk| && disk[i].mount == a.mount && disk[i].stats.percent == a.value;
    }
  }

  /** Disk alerts come in the dictionary's iteration order, at most one per mount. */
  lemma {:induction false} DiskAlertsInOrder(disk: DiskMap, threshold: real)
    requires UniqueMounts(disk)
    ensures forall i, j :: 0 <= i < j < |DiskAlerts(disk, threshold)| ==>
      IndexOfMount(disk, DiskAlerts(disk, threshold)[i].mount) < IndexOfMount(disk, DiskAlerts(disk, threshold)[j].mount)
  {
    if disk != [] {
      var n := |disk| - 1;
      var pre, e := disk[..n], disk[n];
      DiskAlertsInOrder(pre, threshold);
      DiskAlertsMounts(pre, threshold);
      var q := DiskAlerts(pre, threshold);
      var r := DiskAlerts(disk, threshold);
      forall k | IndexOfMount(pre, k) < n ensures IndexOfMount(disk, k) == IndexOfMount(pre, k) {
        var x := IndexOfMount(pre, k);
        assert disk[x] == pre[x];
      }
      assert IndexOfMount(disk, e.mount) == n;
      forall i, j | 0 <= i < j < |r| ensures IndexOfMount(disk, r[i].mount) < IndexOfMount(disk, r[j].mount) {
        assert r[i] == q[i] && q[i] in q;
        var x := IndexOfMount(pre, q[i].mount);
        assert x < n;
        assert IndexOfMount(disk, r[i].mount) == x;
        if j < |q| {
          assert r[j] == q[j] && q[j] in q;
          assert IndexOfMount(pre, q[j].mount) < n;
          assert IndexOfMount(disk, r[j].mount) == IndexOfMount(pre, q[j].mount);
          assert IndexOfMount(pre, q[i].mount) < IndexOfMount(pre, q[j].mount);
        } else {
          assert r[j].mount == e.mount;
          assert IndexOfMount(disk, r[j].mount) == n;
        }
      }
    }
  }

  /** In a dictionary (unique mounts), no mount raises two disk alerts. */
  lemma DiskAlertsDistinct(disk: DiskMap, threshold: real)
    requires UniqueMounts(disk)
    ensures forall i, j :: 0 <= i < j < |DiskAlerts(disk, threshold)| ==>
      DiskAlerts(disk, threshold)[i].mount != DiskAlerts(disk, threshold)[j].mount
  {
    DiskAlertsInOrder(disk, threshold);
  }

  /**
   * The CPU, memory and process-count checks: each alert is present iff its reading is
   * strictly above its threshold (equality never alerts), and carries that reading and threshold.
   */
  lemma ScalarAlerts(m: Snapshot, t: Thresholds)
    ensures var r := Evaluate(m, t);
      && ((exists a :: a in r && a.CpuHigh?) <==> m.cpuPercent > t.cpuPercent)
      && ((exists a :: a in r && a.MemoryHigh?) <==> m.memory.percent > t.memoryPercent)
      && ((exists a :: a in r && a.ProcessCountHigh?) <==> m.processCount as real > t.maxProcesses)
      && (forall a :: a in r && a.CpuHigh? ==> a == CpuHigh(m.cpuPercent, t.cpuPercent))
      && (forall a :: a in r && a.MemoryHigh? ==> a == MemoryHigh(m.memory.percent, t.memoryPercent))
      && (forall a :: a in r && a.ProcessCountHigh? ==> a == ProcessCountHigh(m.processCount, t.maxProcesses))
  {
    var r := Evaluate(m, t);
    if m.cpuPercent > t.cpuPercent { assert r[0] in r; }
    if m.memory.percent > t.memoryPercent { assert MemoryHigh(m.memory.percent, t.memoryPercent) in r; }
    if m.processCount as real > t.maxProcesses { assert r[|r| - 1] in r; }
  }

  /** A disk alert is present for a mount iff that mount's percentage is strictly above the disk threshold. */
  lemma {:induction false} DiskAlertIff(m: Snapshot, t: Thresholds, k: string, v: real)
    ensures DiskHigh(k, v, t.diskPercent) in Evaluate(m, t) <==>
      v > t.diskPercent && exists i :: 0 <= i < |m.disk| && m.disk[i].mount == k && m.disk[i].stats.percent == v
  {
    DiskAlertsIff(m.disk, t.diskPercent, k, v, t.diskPercent);
  }

  /**
   * `r` follows the check order: CPU, memory, disks, process count, with only disk alerts
   * sharing a rank, and those in the order of their mounts in `disk`.
   */
  ghost predicate InCheckOrder(r: seq<Alert>, disk: DiskMap) {
    forall i, j :: 0 <= i < j < |r| ==>
      Rank(r[i]) < Rank(r[j]) ||
      (r[i].DiskHigh? && r[j].DiskHigh? && IndexOfMount(disk, r[i].mount) < IndexOfMount(disk, r[j].mount))
  }

  /** Appending alerts of rank `k` after alerts of lower rank keeps the check order. */
  lemma InCheckOrderAppend(a: seq<Alert>, b: seq<Alert>, disk: DiskMap, k: nat)
    requires InCheckOrder(a, disk) && InCheckOrder(b, disk)
    requires forall i :: 0 <= i < |a| ==> Rank(a[i]) < k
    requires forall j :: 0 <= j < |b| ==> Rank(b[j]) == k
    ensures InCheckOrder(a + b, disk)
    ensures forall i :: 0 <= i < |a + b| ==> Rank((a + b)[i]) <= k
  {
    var r := a + b;
    forall i, j | 0 <= i < j < |r| ensures
      Rank(r[i]) < Rank(r[j]) ||
      (r[i].DiskHigh? && r[j].DiskHigh? && IndexOfMount(disk, r[i].mount) < IndexOfMount(disk, r[j].mount))
    {
      if i < |a| && j >= |a| {
        assert r[i] == a[i] && r[j] == b[j - |a|];
      } else if i >= |a| {
        assert r[i] == b[i - |a|] && r[j] == b[j - |a|];
      }
    }
    forall i | 0 <= i < |r| ensures Rank(r[i]) <= k {
      if i >= |a| {
        assert r[i] == b[i - |a|];
      }
    }
  }

  /**
   * Alerts always come CPU first, then memory, then disks, then process count, whichever
   * subset fires; only disk alerts can share a rank, and those follow the dictionary order.
   */
  lemma {:induction false} AlertOrder(m: Snapshot, t: Thresholds)
    requires UniqueMounts(m.disk)
    ensures InCheckOrder(Evaluate(m, t), m.disk)
  {
    var c := if m.cpuPercent > t.cpuPercent then [CpuHigh(m.cpuPercent, t.cpuPercent)] else [];
    var mem := if m.memory.percent > t.memoryPercent then [MemoryHigh(m.memory.percent, t.memoryPercent)] else [];
    var d := DiskAlerts(m.disk, t.diskPercent);
    var p := if m.processCount as real > t.maxProcesses then [ProcessCountHigh(m.processCount, t.maxProcesses)] else [];
    DiskAlertsInOrder(m.disk, t.diskPercent);
    InCheckOrderAppend(c, mem, m.disk, 1);
    InCheckOrderAppend(c + mem, d, m.disk, 2);
    InCheckOrderAppend(c + mem + d, p, m.disk, 3);
  }

  /** The positions of the dictionary entries whose percentage is strictly above `threshold`. */
  ghost function Breaching(disk: DiskMap, threshold: real): set<int> {
    set i | 0 <= i < |disk| && disk[i].stats.percent > threshold
  }

  /** Visiting one more entry adds its position when it breaches. */
  lemma BreachingStep(disk: DiskMap, threshold: real)
    requires disk != []
    ensures var n := |disk| - 1;
      Breaching(disk, threshold) ==
        Breaching(disk[..n], threshold) + (if disk[n].stats.percent > threshold then {n} else {})
  {
    var n := |disk| - 1;
    var pre := disk[..n];
    forall i | i in Breaching(disk, threshold) && i < n ensures i in Breaching(pre, threshold) {
      assert pre[i] == disk[i];
    }
    forall i | i in Breaching(pre, threshold) ensures i in Breaching(disk, threshold) {
      assert pre[i] == disk[i];
    }
  }

  /** There is one disk alert per breaching dictionary entry. */
  lemma {:induction false} DiskAlertsCount(disk: DiskMap, threshold: real)
    ensures |DiskAlerts(disk, threshold)| == |Breaching(disk, threshold)|
  {
    if disk != [] {
      var n := |disk| - 1;
      DiskAlertsCount(disk[..n], threshold);
      BreachingStep(disk, threshold);
      assert n !in Breaching(disk[..n], threshold);
    }
  }

  /**
   * The number of alerts is one per breaching scalar metric plus one per breaching mount,
   * so never more than 3 plus the number of mounts.
   */
  lemma AlertCount(m: Snapshot, t: Thresholds)
    ensures |Evaluate(m, t)| ==
      (if m.cpuPercent > t.cpuPercent then 1 else 0)
      + (if m.memory.percent > t.memoryPercent then 1 else 0)
      + |Breaching(m.disk, t.diskPercent)|
      + (if m.processCount as real > t.maxProcesses then 1 else 0)
    ensures |Evaluate(m, t)| <= 3 + |m.disk|
  {
    DiskAlertsCount(m.disk, t.diskPercent);
  }
}
