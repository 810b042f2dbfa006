/**
 * The threshold table the monitor starts with: four defaults, overlaid key by key
 * with the `thresholds` object of the optional JSON configuration file.
 */
module Config {
  import opened Wrappers
  import opened Metrics

  /** The keys present under `thresholds` in the configuration file; a missing key is None. */
  datatype ThresholdOverrides = ThresholdOverrides(
    cpuPercent: Option<real>,
    memoryPercent: Option<real>,
    diskPercent: Option<real>,
    maxProcesses: Option<real>)

  /** A configuration document; `thresholds` is None when the document has no such object. */
  datatype ConfigFile = ConfigFile(thresholds: Option<ThresholdOverrides>)

  const NoOverrides := ThresholdOverrides(None, None, None, None)

  /** The built-in table: CPU 80.0, memory 85.0, disk 90.0, at most 300 processes. */
  const Defaults := Thresholds(80.0, 85.0, 90.0, 300.0)

  /** `thresholds.update(o)`: every key present in `o` replaces the table's value. */
  function Overlay(t: Thresholds, o: ThresholdOverrides): Thresholds {
    Thresholds(
      o.cpuPercent.GetOr(t.cpuPercent),
      o.memoryPercent.GetOr(t.memoryPercent),
      o.diskPercent.GetOr(t.diskPercent),
      o.maxProcesses.GetOr(t.maxProcesses))
  }

  /** `config.get('thresholds', {})` for a file that may not exist (None). */
  function OverridesOf(config: Option<ConfigFile>): ThresholdOverrides {
    if config.Some? then config.value.thresholds.GetOr(NoOverrides) else NoOverrides
  }

  /**
   * The table after start-up. Each threshold is the file's value when the file exists and
   * has that key under `thresholds`, and the documented default otherwise.
   */
  function Loaded(config: Option<ConfigFile>): (t: Thresholds)
    ensures (config.None? || config.value.thresholds.None?) ==> t == Defaults
    ensures config.Some? && config.value.thresholds.Some? ==>
      var o := config.value.thresholds.value;
      && t.cpuPercent == (if o.cpuPercent.Some? then o.cpuPercent.value else 80.0)
      && t.memoryPercent == (if o.memoryPercent.Some? then o.memoryPercent.value else 85.0)
      && t.diskPercent == (if o.diskPercent.Some? then o.diskPercent.value else 90.0)
      && t.maxProcesses == (if o.maxProcesses.Some? then o.maxProcesses.value else 300.0)
  {
    Overlay(Defaults, OverridesOf(config))
  }

  /** An empty `thresholds` object changes nothing. */
  lemma OverlayNothing(t: Thresholds)
    ensures Overlay(t, NoOverrides) == t
  {}

  /** A file that sets only `cpu_percent` leaves the other three thresholds at their defaults. */
  lemma OnlyCpuConfigured(cpu: real)
    ensures var t := Loaded(Some(ConfigFile(Some(ThresholdOverrides(Some(cpu), None, None, None)))));
      t == Thresholds(cpu, 85.0, 90.0, 300.0)
  {}
}
