# System health monitor — a Dafny model

This project models `SystemHealthMonitor` from `script/systemm_monitor.py`. The monitor is a
loop that works in four steps:

- It samples CPU, memory, per-mount disk usage, the process count and the busiest processes.
- It checks the sample against a threshold table.
- It dispatches one alert per breach.
- It builds a text report.

Run continuously, it prints a heartbeat after every cycle that raised nothing, and it logs a
stop message when interrupted.

The operating system readings (psutil) and the clock are inputs. `Sample` holds one cycle's
readings: the CPU percentage, the virtual-memory figures, each partition with the outcome of
reading its usage, the pid list, each `process_iter` record or the error reading it raised,
and the two clock readings. The log file and the console become a sequence of `Event`s kept
in the monitor object.

Modules, in dependency order:

- `Wrappers`: `Option`.
- `Sequences`: associativity of concatenation, stated once for the loop proofs.
- `Metrics`: the value types (`Thresholds`, `MemoryStats`, `DiskStats`, the disk dictionary
  as an insertion-ordered `seq<DiskEntry>`, `ProcessInfo`, `Snapshot`, `Alert`). It also holds
  `bytes_to_gb`, as exact half-to-even rounding to hundredths of a GiB.
- `Config`: the default table and the `dict.update` overlay applied by `__init__`.
- `Disks`: `get_disk_usage`, as a fold of dictionary assignments over the partitions.
- `Processes`: `get_top_processes`. It keeps the readable records, sorts them with a stable
  insertion sort, descending by `cpu_percent or 0`, and applies Python's `[:limit]`.
- `Alerts`: what `check_thresholds` returns (`Evaluate`), and the order and iff properties
  of the alerts.
- `Report`: the line structure of `generate_report`.
- `Monitor`: the class `SystemHealthMonitor`, with mutable fields `thresholds` and `events`.
  Its constructor and the methods `GetDiskUsage`, `GetTopProcesses`, `CheckThresholds`,
  `GenerateReport`, `SendAlert`, `MonitorOnce` and `MonitorContinuous` are the source's
  methods. `SendAlerts` is the dispatch loop inside `monitor_once`. `RunCycle` is one pass
  of the `while True` loop in `monitor_continuous`, and `RunCycles` is that loop. Each is
  proved against the functions above. Two methods that compute values without state
  became functions of the module:
  - `MemoryStatsOf` is `get_memory_usage`;
  - `SnapshotOf` is the `metrics` dictionary `monitor_once` builds.

  `bytes_to_gb` is `Metrics.BytesToGb`.

## Model

| member | source | states |
|---|---|---|
| Metrics.CentiGbRounds | script/systemm_monitor.py:89-91 | `bytes_to_gb` is within half a hundredth of bytes/1024^3, and a tie goes to the even hundredth (Python's `round`) |
| Metrics.BytesToGbClose | script/systemm_monitor.py:89-91 | `bytes_to_gb(b)` in gigabytes is within half a hundredth of b / 1024^3 |
| Monitor.MemoryStatsClose | script/systemm_monitor.py:48-56 | `get_memory_usage` passes psutil's percent through, and each of used, total and available is within half a hundredth of a gigabyte of the byte count / 1024^3 |
| Monitor.SnapshotFacts | script/systemm_monitor.py:145-151 | the metrics of one cycle: the CPU reading, the count of pids, a disk dictionary with unique mounts holding exactly the readable mounts, and min(5, readable) top processes in non-increasing CPU order, each read from `process_iter` |
| Config.Loaded | script/systemm_monitor.py:18-31 | each threshold is the file's value when the file exists and has that key under `thresholds`; otherwise it is the default 80.0 / 85.0 / 90.0 / 300 |
| Config.OverlayNothing | script/systemm_monitor.py:31 | an empty `thresholds` object leaves the table unchanged |
| Config.OnlyCpuConfigured | script/systemm_monitor.py:20-31 | a file that sets only `cpu_percent` leaves memory 85.0, disk 90.0 and processes 300 |
| Monitor.SystemHealthMonitor.constructor | script/systemm_monitor.py:18-31 | the table after start-up is `Loaded(config)` and nothing has been logged yet |
| Disks.Percent | script/systemm_monitor.py:65 | percent × total = used × 100 exactly; it is non-negative and at most 100 when used ≤ total |
| Disks.Put | script/systemm_monitor.py:64 | dictionary assignment: a new key is appended; an existing key keeps its position and takes the new value; keys stay unique |
| Disks.PutMounts | script/systemm_monitor.py:64 | after `d[k] = v` the keys are exactly the old keys plus `k` |
| Disks.PutEntry | script/systemm_monitor.py:64 | after `d[k] = v` the entry for `k` holds `v`, and every other entry is unchanged |
| Disks.DiskMapUnique | script/systemm_monitor.py:58-72 | the disk dictionary never holds a mount point twice |
| Disks.DiskMapMounts | script/systemm_monitor.py:58-72 | a mount point is in the disk dictionary iff some partition with that mount point was readable (both directions) |
| Disks.DiskMapValues | script/systemm_monitor.py:58-72 | every entry holds the statistics of the last readable partition with its mount point |
| Disks.DiskMapOfDistinct | script/systemm_monitor.py:58-72 | with distinct mount points, the disk dictionary is exactly the readable partitions, in enumeration order, each with used/total×100 |
| Monitor.SystemHealthMonitor.GetDiskUsage | script/systemm_monitor.py:58-72 | the loop with its `except PermissionError: continue` builds exactly `DiskMapOf(partitions)` |
| Processes.Readable | script/systemm_monitor.py:80-85 | a record is kept iff it was read without NoSuchProcess or AccessDenied, and there are never more records than entries |
| Processes.ReadableAppend | script/systemm_monitor.py:80-85 | collecting over two stretches of the enumeration is collecting over each in turn, so the kept records stay in enumeration order |
| Processes.Insert | script/systemm_monitor.py:87 | one insertion step of the sort adds exactly the one record |
| Processes.SortByCpu | script/systemm_monitor.py:87 | the sort is a permutation of its input |
| Processes.SortSorted | script/systemm_monitor.py:87 | the sort is non-increasing in `cpu_percent or 0` |
| Processes.SortStable | script/systemm_monitor.py:87 | the sort is stable: for each key value, the records with that key keep their input order |
| Processes.Take | script/systemm_monitor.py:87 | `[:limit]` gives a prefix of length min(limit, n) for limit ≥ 0, or drops the last -limit records for a negative limit |
| Processes.TopProcessesReadable | script/systemm_monitor.py:78-87 | the top list is a sub-multiset of the readable records, and each of its records was read from `process_iter` |
| Processes.TopProcessesStable | script/systemm_monitor.py:78-87 | among equal keys, the top list keeps a prefix of their enumeration order |
| Processes.TopProcessesSpec | script/systemm_monitor.py:78-87 | the top list has length min(limit, readable), is a prefix of the stable sort, is non-increasing, holds only readable records and breaks ties by enumeration order |
| Monitor.SystemHealthMonitor.GetTopProcesses | script/systemm_monitor.py:78-87 | the collection loop and the sort-and-slice return `TopProcesses(results, limit)`, with the properties above |
| Alerts.DiskAlerts | script/systemm_monitor.py:111-114 | no more disk alerts than dictionary entries; each carries the disk threshold and a value strictly above it |
| Alerts.DiskAlertsDistinct | script/systemm_monitor.py:112-114 | in a dictionary (unique mounts) no mount raises two disk alerts |
| Alerts.DiskAlertsIff | script/systemm_monitor.py:111-114 | a disk alert for (mount, value) exists iff that mount's percent is that value and is strictly above the threshold |
| Alerts.DiskAlertsInOrder | script/systemm_monitor.py:112-114 | disk alerts follow the dictionary's iteration order, strictly, so a mount never alerts twice |
| Alerts.ScalarAlerts | script/systemm_monitor.py:99-120 | the CPU, memory and process-count alerts are each present iff the reading is strictly above its threshold, and each carries that reading and threshold |
| Alerts.DiskAlertIff | script/systemm_monitor.py:99-120 | the result holds a disk alert for a mount iff that mount's percent is strictly above the disk threshold |
| Alerts.AlertOrder | script/systemm_monitor.py:99-120 | alerts always come CPU, then memory, then disks in dictionary order, then process count, whichever subset fires |
| Alerts.DiskAlertsCount | script/systemm_monitor.py:111-114 | the number of disk alerts equals the number of dictionary entries whose percent is strictly above the disk threshold |
| Alerts.AlertCount | script/systemm_monitor.py:99-120 | the number of alerts is one per breaching scalar check plus the number of breaching mounts (counted as a set of dictionary positions), so at most 3 + the number of mounts |
| Monitor.SystemHealthMonitor.CheckThresholds | script/systemm_monitor.py:99-120 | the method's four checks and its disk loop return exactly `Evaluate(metrics, thresholds)`; the table is not changed |
| Report.ReportDeterministic | script/systemm_monitor.py:122-141 | the report is determined by the snapshot and the time: two reports of the same input are equal |
| Monitor.SystemHealthMonitor.GenerateReport | script/systemm_monitor.py:122-141 | header, one line per mount in dictionary order, process count, heading, then one line per top process in order with absent readings shown as 0 |
| Monitor.AlertEvents | script/systemm_monitor.py:155-156 | one alert event per alert |
| Monitor.AlertEventsAt | script/systemm_monitor.py:155-156 | the i-th alert event is the i-th alert, under kind `THRESHOLD_EXCEEDED` |
| Monitor.SystemHealthMonitor.SendAlert | script/systemm_monitor.py:93-97 | `send_alert` appends exactly one warning carrying its kind and alert |
| Monitor.SystemHealthMonitor.SendAlerts | script/systemm_monitor.py:155-156 | the dispatch loop appends one event per alert, in order, each exactly once |
| Monitor.SystemHealthMonitor.MonitorOnce | script/systemm_monitor.py:143-162 | returns the snapshot of the sample, its alerts and its report; the log gains the alerts in order, then the completion line |
| Monitor.AlertEventsCarry | script/systemm_monitor.py:155-156 | the dispatched events carry exactly the alerts, in order, and no completion line |
| Monitor.CycleCarries | script/systemm_monitor.py:154-174 | one cycle logs its alerts in order and exactly one completion line |
| Monitor.RunCarries | script/systemm_monitor.py:170-176 | over a run, the logged alerts are every cycle's alerts joined in cycle order, and there is exactly one completion line per cycle |
| Monitor.HeartbeatIff | script/systemm_monitor.py:173-174 | a cycle prints the heartbeat iff it raised no alert (both directions) |
| Monitor.SystemHealthMonitor.RunCycle | script/systemm_monitor.py:171-174 | one loop iteration appends the cycle's events, plus the heartbeat exactly when there were no alerts |
| Monitor.SystemHealthMonitor.RunCycles | script/systemm_monitor.py:170-176 | the loop appends the events of each completed cycle, in order |
| Monitor.SystemHealthMonitor.MonitorContinuous | script/systemm_monitor.py:164-180 | the log shows start and table, then every cycle's events in order, then the stop line |

## Left out

- psutil, `datetime.now()`, the file system check and the JSON file are inputs. `Sample` holds one cycle's readings; `ConfigFile` is the already-parsed document, or None when the file does not exist.
- `get_cpu_usage` and `get_process_count` are single psutil calls. They appear as the `cpuPercent` field and the length of the `pids` field of `Sample`.
- The `logging` setup, the log file and `print` are replaced by the `events` sequence. The text of each message, its emoji and its `:.1f` formatting are not modelled: an alert event carries the breach as an `Alert` value, and a report is a sequence of `ReportLine` values, not a string.
- Blank lines in the report and the fixed "Top 5" heading text are not modelled. The heading is the `TopHeading` line whatever the limit.
- Floating point: percentages and gigabytes are exact reals. `Percent` is the exact quotient, so the last-bit rounding of `used / total * 100` is not captured.
- A JSON value under `thresholds` that is not a number, and unknown keys: the model takes the four known keys as numbers and drops the rest. In the source, `update` copies unknown keys into the table too, and they then appear in the `Thresholds: ...` start-up log line; the model's `MonitoringStarted` event carries only the four known thresholds.
- `max_processes` is a real, so a configuration file may give a fractional value; an integer configuration behaves the same.
- Disks.UsageRead: a readable partition has `total > 0`. With `total == 0` the source raises `ZeroDivisionError`, which the loop does not catch and which ends the program; the model does not represent that crash.
- MonitorContinuous: `time.sleep(interval)` is left out, and `KeyboardInterrupt` is assumed to arrive during a sleep. An interrupt in the middle of a cycle, which would stop after part of that cycle's output, is not modelled. `samples` are the cycles completed before the interrupt.
- An exception other than the caught ones (for example from psutil itself) is not modelled.
- `main` and its argument parsing are outside this model. So are the unused `smtplib` and `MimeText` imports.
