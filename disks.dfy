/**
 * `get_disk_usage`: walk the partitions in enumeration order, skip any whose usage read
 * raises PermissionError, and store the rest into an insertion-ordered dictionary keyed
 * by mount point.
 */
module Disks {
  import opened Metrics

  /** What `psutil.disk_usage(mountpoint)` gave: byte counts, or a PermissionError. */
  datatype DiskUsageRead = Usage(used: nat, total: nat, free: nat) | PermissionDenied

  /**
   * Only PermissionError is caught, so a readable partition must have a non-zero size:
   * `used / total` with `total == 0` would raise out of the loop.
   */
  type UsageRead = u: DiskUsageRead | u.PermissionDenied? || u.total > 0 witness PermissionDenied

  /** One entry of `psutil.disk_partitions()` together with the result of reading its usage. */
  datatype Partition = Partition(mountpoint: string, usage: UsageRead)

  /** `(used / total) * 100`, unrounded. */
  function Percent(used: nat, total: nat): (pct: real)
    requires total > 0
    ensures pct * total as real == used as real * 100.0
    ensures 0.0 <= pct
    ensures used <= total ==> pct <= 100.0
  {
    var ratio := used as real / total as real;
    assert ratio * total as real == used as real;
    ratio * 100.0
  }

  /** The value stored for a readable partition. */
  function StatsOf(u: UsageRead): DiskStats
    requires u.Usage?
  {
    DiskStats(Percent(u.used, u.total), BytesToGb(u.used), BytesToGb(u.total), BytesToGb(u.free))
  }

  ghost predicate HasMount(m: DiskMap, k: string) {
    exists i :: 0 <= i < |m| && m[i].mount == k
  }

  /** A dictionary never holds a key twice. */
  ghost predicate UniqueMounts(m: DiskMap) {
    forall i, j :: 0 <= i < j < |m| ==> m[i].mount != m[j].mount
  }

  /** Position of the first entry for `k`, or |m| when there is none. */
  function IndexOfMount(m: DiskMap, k: string): (i: nat)
    ensures i <= |m|
    ensures i < |m| ==> m[i].mount == k
    ensures forall j :: 0 <= j < i ==> m[j].mount != k
  {
    if m == [] then 0
    else if m[0].mount == k then 0
    else 1 + IndexOfMount(m[1..], k)
  }

  /**
   * `d[k] = v` on an insertion-ordered dictionary: an existing key keeps its position and
   * takes the new value; a new key goes at the end.
   */
  function Put(m: DiskMap, k: string, v: DiskStats): (r: DiskMap)
    ensures !HasMount(m, k) ==> r == m + [DiskEntry(k, v)]
    ensures HasMount(m, k) ==> r == m[IndexOfMount(m, k) := DiskEntry(k, v)]
    ensures UniqueMounts(m) ==> UniqueMounts(r)
  {
    if m == [] then [DiskEntry(k, v)]
    else if m[0].mount == k then [DiskEntry(k, v)] + m[1..]
    else
      var rest := Put(m[1..], k, v);
      assert HasMount(m, k) ==> HasMount(m[1..], k) by {
        if HasMount(m, k) {
          var i :| 0 <= i < |m| && m[i].mount == k;
          assert m[1..][i - 1].mount == k;
        }
      }
      [m[0]] + rest
  }

  /** The dictionary after the loop has visited the partitions `ps`, in order. */
  function DiskMapOf(ps: seq<Partition>): DiskMap
  {
    if ps == [] then []
    else
      var p := ps[|ps| - 1];
      var m := DiskMapOf(ps[..|ps| - 1]);
      if p.usage.PermissionDenied? then m else Put(m, p.mountpoint, StatsOf(p.usage))
  }

  /** Partition j was readable and no later partition with its mount point was. */
  ghost predicate LastReading(ps: seq<Partition>, j: int) {
    && 0 <= j < |ps| && ps[j].usage.Usage?
    && forall j' :: j < j' < |ps| && ps[j'].mountpoint == ps[j].mountpoint ==> ps[j'].usage.PermissionDenied?
  }

  /** After `d[k] = v` the keys are the old keys and `k`. */
  lemma PutMounts(m: DiskMap, k: string, v: DiskStats, k': string)
    ensures HasMount(Put(m, k, v), k') <==> HasMount(m, k') || k' == k
  {
    var r := Put(m, k, v);
    if HasMount(m, k) {
      assert r == m[IndexOfMount(m, k) := DiskEntry(k, v)];
      assert r[IndexOfMount(m, k)].mount == k;
    } else {
      assert r == m + [DiskEntry(k, v)];
      assert r[|m|].mount == k;
    }
    if HasMount(r, k') && k' != k {
      var i :| 0 <= i < |r| && r[i].mount == k';
      assert m[i].mount == k';
    }
    if HasMount(m, k') && k' != k {
      var i :| 0 <= i < |m| && m[i].mount == k';
      assert r[i].mount == k';
    }
  }

  /** After `d[k] = v` the entry for `k` holds `v` and every other entry is unchanged. */
  lemma PutEntry(m: DiskMap, k: string, v: DiskStats, i: int)
    requires UniqueMounts(m) && 0 <= i < |Put(m, k, v)|
    ensures Put(m, k, v)[i].mount == k ==> Put(m, k, v)[i].stats == v
    ensures Put(m, k, v)[i].mount != k ==> i < |m| && Put(m, k, v)[i] == m[i]
  {
    if HasMount(m, k) {
      var x := IndexOfMount(m, k);
      assert Put(m, k, v) == m[x := DiskEntry(k, v)];
    } else {
      assert Put(m, k, v) == m + [DiskEntry(k, v)];
    }
  }

  /** The disk map never holds a mount point twice. */
  lemma {:induction false} DiskMapUnique(ps: seq<Partition>)
    ensures UniqueMounts(DiskMapOf(ps))
  {
    if ps != [] {
      DiskMapUnique(ps[..|ps| - 1]);
    }
  }

  /** A mount point is in the disk map iff some partition with that mount point was readable. */
  lemma {:induction false} DiskMapMounts(ps: seq<Partition>, k: string)
    ensures HasMount(DiskMapOf(ps), k) <==>
      exists j :: 0 <= j < |ps| && ps[j].mountpoint == k && ps[j].usage.Usage?
  {
    if ps != [] {
      var n := |ps| - 1;
      var pre, p := ps[..n], ps[n];
      DiskMapMounts(pre, k);
      if p.usage.Usage? {
        PutMounts(DiskMapOf(pre), p.mountpoint, StatsOf(p.usage), k);
      }
      if exists j :: 0 <= j < |ps| && ps[j].mountpoint == k && ps[j].usage.Usage? {
        var j :| 0 <= j < |ps| && ps[j].mountpoint == k && ps[j].usage.Usage?;
        if j < n {
          assert pre[j] == ps[j];
        }
      }
      if exists j :: 0 <= j < |pre| && pre[j].mountpoint == k && pre[j].usage.Usage? {
        var j :| 0 <= j < |pre| && pre[j].mountpoint == k && pre[j].usage.Usage?;
        assert ps[j] == pre[j];
      }
    }
  }

  /** Every entry of the disk map holds the statistics of the last readable partition with its mount point. */
  lemma {:induction false} DiskMapValues(ps: seq<Partition>, i: int)
    requires 0 <= i < |DiskMapOf(ps)|
    ensures exists j :: LastReading(ps, j) && ps[j].mountpoint == DiskMapOf(ps)[i].mount
                        && DiskMapOf(ps)[i].stats == StatsOf(ps[j].usage)
  {
    var n := |ps| - 1;
    var pre, p := ps[..n], ps[n];
    var m, r := DiskMapOf(pre), DiskMapOf(ps);
    DiskMapUnique(pre);
    if p.usage.Usage? {
      assert r == Put(m, p.mountpoint, StatsOf(p.usage));
      PutEntry(m, p.mountpoint, StatsOf(p.usage), i);
    } else {
      assert r == m;
    }
    if p.usage.Usage? && r[i].mount == p.mountpoint {
      assert LastReading(ps, n);
    } else {
      assert i < |m| && r[i] == m[i];
      DiskMapValues(pre, i);
      var j :| LastReading(pre, j) && pre[j].mountpoint == m[i].mount && m[i].stats == StatsOf(pre[j].usage);
      LastReadingExtend(ps, j);
    }
  }

  /** A reading stays the last one for its mount point when the next partition is not a readable one with that mount point. */
  lemma LastReadingExtend(ps: seq<Partition>, j: int)
    requires |ps| > 0 && LastReading(ps[..|ps| - 1], j)
    requires ps[|ps| - 1].usage.PermissionDenied? || ps[|ps| - 1].mountpoint != ps[j].mountpoint
    ensures LastReading(ps, j)
  {
    var pre := ps[..|ps| - 1];
    assert ps[j] == pre[j];
    forall j' | j < j' < |ps| && ps[j'].mountpoint == ps[j].mountpoint
      ensures ps[j'].usage.PermissionDenied?
    {
      if j' < |pre| {
        assert ps[j'] == pre[j'];
      }
    }
  }

  /** The readable partitions, in enumeration order, each with its statistics. */
  function ReadableEntries(ps: seq<Partition>): DiskMap
  {
    if ps == [] then []
    else
      var p := ps[|ps| - 1];
      ReadableEntries(ps[..|ps| - 1]) + (if p.usage.PermissionDenied? then [] else [DiskEntry(p.mountpoint, StatsOf(p.usage))])
  }

  ghost predicate DistinctMountpoints(ps: seq<Partition>) {
    forall i, j :: 0 <= i < j < |ps| ==> ps[i].mountpoint != ps[j].mountpoint
  }

  /**
   * With distinct mount points (the usual case) the disk map is exactly the readable
   * partitions, in partition enumeration order.
   */
  lemma {:induction false} DiskMapOfDistinct(ps: seq<Partition>)
    requires DistinctMountpoints(ps)
    ensures DiskMapOf(ps) == ReadableEntries(ps)
  {
    if ps != [] {
      var n := |ps| - 1;
      var pre, p := ps[..n], ps[n];
      assert DistinctMountpoints(pre);
      DiskMapOfDistinct(pre);
      if p.usage.Usage? {
        DiskMapMounts(pre, p.mountpoint);
      }
    }
  }
}
