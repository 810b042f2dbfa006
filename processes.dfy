/**
 * `get_top_processes`: collect the process records that could be read, sort them by CPU
 * usage in descending order (a missing reading counts as 0, equal keys keep enumeration
 * order, as Python's stable `sorted(..., reverse=True)` does) and keep the first `limit`.
 */
module Processes {
  import opened Wrappers
  import opened Metrics

  /** What reading one entry of `process_iter` gave: its record, or one of the two caught errors. */
  datatype ProcessRead = Info(info: ProcessInfo) | NoSuchProcess | AccessDenied

  /** The records that were read without raising, in enumeration order. */
  function Readable(results: seq<ProcessRead>): (ps: seq<ProcessInfo>)
    ensures |ps| <= |results|
    ensures forall p :: p in ps <==> Info(p) in results
  {
    if results == [] then []
    else
      var last := results[|results| - 1];
      assert results == results[..|results| - 1] + [last];
      Readable(results[..|results| - 1]) + (if last.Info? then [last.info] else [])
  }

  /**
   * Collecting over two stretches of the enumeration is collecting over each in turn: the
   * filter keeps the records in enumeration order and never reorders them.
   */
  lemma {:induction false} ReadableAppend(a: seq<ProcessRead>, b: seq<ProcessRead>)
    ensures Readable(a + b) == Readable(a) + Readable(b)
  {
    if b != [] {
      var n := |b| - 1;
      assert (a + b)[..|a + b| - 1] == a + b[..n];
      ReadableAppend(a, b[..n]);
    } else {
      assert a + b == a;
    }
  }

  /** The sort key `x['cpu_percent'] or 0`. */
  function CpuKey(p: ProcessInfo): real {
    p.cpuPercent.GetOr(0.0)
  }

  ghost predicate NonIncreasing(s: seq<ProcessInfo>) {
    forall i, j :: 0 <= i < j < |s| ==> CpuKey(s[i]) >= CpuKey(s[j])
  }

  /** The records of `s` whose key is `c`, in their order in `s`. */
  function WithKey(s: seq<ProcessInfo>, c: real): seq<ProcessInfo> {
    if s == [] then []
    else (if CpuKey(s[0]) == c then [s[0]] else []) + WithKey(s[1..], c)
  }

  /** Places `p` in front of the first element whose key is not greater than its own. */
  function Insert(p: ProcessInfo, s: seq<ProcessInfo>): (r: seq<ProcessInfo>)
    ensures multiset(r) == multiset(s) + multiset{p}
    ensures |r| == |s| + 1
  {
    if s == [] || CpuKey(p) >= CpuKey(s[0]) then [p] + s
    else
      assert s == [s[0]] + s[1..];
      [s[0]] + Insert(p, s[1..])
  }

  /** `sorted(s, key=cpu_percent or 0, reverse=True)`, as a stable insertion sort. */
  function SortByCpu(s: seq<ProcessInfo>): (r: seq<ProcessInfo>)
    ensures multiset(r) == multiset(s)
    ensures |r| == |s|
  {
    if s == [] then []
    else
      assert s == [s[0]] + s[1..];
      Insert(s[0], SortByCpu(s[1..]))
  }

  /** Python's `s[:limit]`: the first `limit` elements, or all but the last `-limit` when negative. */
  function Take<T>(s: seq<T>, limit: int): (r: seq<T>)
    ensures r <= s
    ensures 0 <= limit ==> |r| == if limit < |s| then limit else |s|
    ensures limit < 0 ==> |r| == if |s| + limit < 0 then 0 else |s| + limit
  {
    if limit >= |s| then s
    else if limit >= 0 then s[..limit]
    else if |s| + limit < 0 then []
    else s[..|s| + limit]
  }

  /** The list `get_top_processes(limit)` returns. */
  function TopProcesses(results: seq<ProcessRead>, limit: int): seq<ProcessInfo> {
    Take(SortByCpu(Readable(results)), limit)
  }

  lemma {:induction false} InsertSorted(p: ProcessInfo, s: seq<ProcessInfo>)
    requires NonIncreasing(s)
    ensures NonIncreasing(Insert(p, s))
    ensures s != [] ==> Insert(p, s)[0] == p || Insert(p, s)[0] == s[0]
  {
    if s != [] && CpuKey(p) < CpuKey(s[0]) {
      var t := s[1..];
      InsertSorted(p, t);
      var r := Insert(p, t);
      var q := [s[0]] + r;
      forall i, j | 0 <= i < j < |q| ensures CpuKey(q[i]) >= CpuKey(q[j]) {
        if i == 0 {
          assert CpuKey(s[0]) >= CpuKey(r[0]);
          assert CpuKey(r[0]) >= CpuKey(r[j - 1]) || j == 1;
        }
      }
    }
  }

  /** The sort puts the records in non-increasing order of CPU usage. */
  lemma {:induction false} SortSorted(s: seq<ProcessInfo>)
    ensures NonIncreasing(SortByCpu(s))
  {
    if s != [] {
      SortSorted(s[1..]);
      InsertSorted(s[0], SortByCpu(s[1..]));
    }
  }

  lemma {:induction false} InsertWithKey(p: ProcessInfo, s: seq<ProcessInfo>, c: real)
    ensures WithKey(Insert(p, s), c) == (if CpuKey(p) == c then [p] else []) + WithKey(s, c)
  {
    if s != [] && CpuKey(p) < CpuKey(s[0]) {
      var t := Insert(p, s[1..]);
      InsertWithKey(p, s[1..], c);
      var r := [s[0]] + t;
      assert r[0] == s[0] && r[1..] == t;
      assert WithKey(r, c) == (if CpuKey(s[0]) == c then [s[0]] else []) + WithKey(t, c);
      assert WithKey(s, c) == (if CpuKey(s[0]) == c then [s[0]] else []) + WithKey(s[1..], c);
    } else {
      var r := [p] + s;
      assert r[0] == p && r[1..] == s;
      assert WithKey(r, c) == (if CpuKey(p) == c then [p] else []) + WithKey(s, c);
    }
  }

  /**
   * The sort is stable: for every key value, the records with that key appear in the
   * output in the same order as in the input.
   */
  lemma {:induction false} SortStable(s: seq<ProcessInfo>, c: real)
    ensures WithKey(SortByCpu(s), c) == WithKey(s, c)
  {
    if s != [] {
      SortStable(s[1..], c);
      InsertWithKey(s[0], SortByCpu(s[1..]), c);
    }
  }

  lemma {:induction false} WithKeyAppend(a: seq<ProcessInfo>, b: seq<ProcessInfo>, c: real)
    ensures WithKey(a + b, c) == WithKey(a, c) + WithKey(b, c)
  {
    if a != [] {
      assert (a + b)[1..] == a[1..] + b;
      WithKeyAppend(a[1..], b, c);
    } else {
      assert a + b == b;
    }
  }

  /** The top list only holds records psutil could read, each at most as often as read. */
  lemma TopProcessesReadable(results: seq<ProcessRead>, limit: int)
    ensures multiset(TopProcesses(results, limit)) <= multiset(Readable(results))
    ensures forall p :: p in TopProcesses(results, limit) ==> Info(p) in results
  {
    var all := Readable(results);
    var sorted := SortByCpu(all);
    var top := TopProcesses(results, limit);
    assert sorted == top + sorted[|top|..];
    assert multiset(sorted) == multiset(top) + multiset(sorted[|top|..]);
    forall p | p in top ensures Info(p) in results {
      assert p in multiset(top);
      assert p in multiset(all);
      assert p in all;
    }
  }

  /** Among records with equal CPU key, the top list keeps a prefix of their enumeration order. */
  lemma TopProcessesStable(results: seq<ProcessRead>, limit: int, c: real)
    ensures WithKey(TopProcesses(results, limit), c) <= WithKey(Readable(results), c)
  {
    var all := Readable(results);
    var sorted := SortByCpu(all);
    var top := TopProcesses(results, limit);
    assert sorted == top + sorted[|top|..];
    WithKeyAppend(top, sorted[|top|..], c);
    SortStable(all, c);
  }

  /**
   * `get_top_processes(limit)`: the first `limit` of the readable records (Python slice
   * semantics), sorted by CPU descending with ties in enumeration order.
   */
  lemma TopProcessesSpec(results: seq<ProcessRead>, limit: int)
    ensures var top, all := TopProcesses(results, limit), Readable(results);
      && (0 <= limit ==> |top| == if limit < |all| then limit else |all|)
      && top <= SortByCpu(all)
      && NonIncreasing(top)
      && multiset(top) <= multiset(all)
      && (forall p :: p in top ==> Info(p) in results)
      && (forall c :: WithKey(top, c) <= WithKey(all, c))
  {
    SortSorted(Readable(results));
    TopProcessesReadable(results, limit);
    forall c ensures WithKey(TopProcesses(results, limit), c) <= WithKey(Readable(results), c) {
      TopProcessesStable(results, limit, c);
    }
  }

}
