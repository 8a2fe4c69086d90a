/**
 * The collector: each scrape parses the disk statistics and reports, for
 * every device the ignore pattern does not match, its 13 entries under the
 * 13 descriptors. The four millisecond counters are reported in seconds.
 */
module Collector {
  import opened Wrappers
  import opened DiskStats
  import opened DiskStatsProperties
  import opened Descriptors

  /**
   * One sample: the descriptor and its index, the value of the one label
   * ("device") every disk metric carries, the entry's text and the divisor
   * that turns it into the reported value (1000 for milliseconds reported
   * as seconds, 1 otherwise). The number itself is ParseFloat(value) / divisor.
   */
  datatype Metric = Metric(desc: Desc, index: int, device: string, value: string, divisor: nat)

  datatype UpdateError =
    | CouldNotGetDiskStats(cause: ParseError)
    | InvalidLine(device: string)
    | InvalidValue(value: string)

  /** Divisor of entry i: the millisecond counters become seconds. */
  function DivisorFor(i: int): (d: nat)
    ensures d == 1000 || d == 1
    ensures d == 1000 <==> InMilliseconds(i)
  {
    if InMilliseconds(i) then 1000 else 1
  }

  /** The keys a descriptor exists for. */
  const DescriptorIndices: set<int> := set i | 0 <= i < DescriptorCount

  /**
   * The sample entry i of device dev yields: the device label, the text, the
   * i-th descriptor (a gauge only for io_now) and the seconds divisor for
   * the millisecond counters.
   */
  function MetricFor(dev: string, i: int, value: string): (m: Metric)
    requires 0 <= i < DescriptorCount
    ensures m.device == dev && m.index == i && m.value == value
    ensures m.desc == DescriptorTable()[i]
    ensures Kind(m.desc) == GaugeValue <==> i == IoNowIndex
    ensures m.divisor == 1000 <==> InMilliseconds(i)
    ensures m.divisor == 1000 <==> m.desc in {ReadTime, WriteTime, IoTime, IoTimeWeighted}
  {
    Metric(DescriptorTable()[i], i, dev, value, DivisorFor(i))
  }

  /** A device the collector reports: it has 13 entries and every one reads as a number. */
  ghost predicate Reportable(t: Table, parseFloatOk: string -> bool, dev: string)
    requires dev in t
  {
    |t[dev]| == DescriptorCount && forall i :: i in t[dev] ==> parseFloatOk(t[dev][i])
  }

  /** A scrape succeeds when every device that is not ignored is reportable. */
  ghost predicate ScrapeSucceeds(t: Table, ignored: string -> bool, parseFloatOk: string -> bool) {
    forall dev :: dev in t && !ignored(dev) ==> Reportable(t, parseFloatOk, dev)
  }

  /** A sample that reports entry m.index of a device that is not ignored. */
  ghost predicate ReportsEntry(t: Table, ignored: string -> bool, m: Metric) {
    && m.device in t && !ignored(m.device)
    && |t[m.device]| == DescriptorCount
    && m.index in t[m.device] && 0 <= m.index < DescriptorCount
    && m == MetricFor(m.device, m.index, t[m.device][m.index])
  }

  /** Every entry of device dev is among the samples. */
  ghost predicate FullyReported(t: Table, emitted: seq<Metric>, dev: string)
    requires dev in t
  {
    forall i :: i in t[dev] ==> 0 <= i < DescriptorCount && MetricFor(dev, i, t[dev][i]) in emitted
  }

  /** Some sample is labelled with device dev. */
  ghost predicate HasSample(emitted: seq<Metric>, dev: string) {
    exists m :: m in emitted && m.device == dev
  }

  /**
   * The scrape stopped inside device dev on the text v: dev is reported, has
   * 13 entries, one of which is v, and every other device with a sample was
   * reported in full before it.
   */
  ghost predicate StoppedAt(t: Table, ignored: string -> bool, emitted: seq<Metric>, dev: string, v: string) {
    && dev in t && !ignored(dev) && |t[dev]| == DescriptorCount
    && (exists i :: i in t[dev] && t[dev][i] == v)
    && forall d :: d in t && d != dev && HasSample(emitted, d) ==> FullyReported(t, emitted, d)
  }

  /** No device and entry is reported twice. */
  ghost predicate NoDuplicates(ms: seq<Metric>) {
    forall a, b :: 0 <= a < b < |ms| ==> ms[a].device != ms[b].device || ms[a].index != ms[b].index
  }

  /**
   * What a scrape of table t reports: it succeeds exactly when every device
   * that is not ignored is reportable; every sample reports an entry of such
   * a device under its descriptor, once; on success every such entry is
   * reported; a failure names a device with the wrong number of entries or
   * the text of an entry that is not a number. Only numbers are reported,
   * and every device with a sample is reported in full, except the one an
   * invalid value stopped.
   */
  ghost predicate ScrapeOutcome(t: Table, ignored: string -> bool, parseFloatOk: string -> bool,
                                emitted: seq<Metric>, err: Option<UpdateError>)
  {
    && (err.None? <==> ScrapeSucceeds(t, ignored, parseFloatOk))
    && (forall m :: m in emitted ==> ReportsEntry(t, ignored, m))
    && NoDuplicates(emitted)
    && (forall m :: m in emitted ==> parseFloatOk(m.value))
    && (!(err.Some? && err.value.InvalidValue?) ==>
          forall dev :: dev in t && HasSample(emitted, dev) ==> FullyReported(t, emitted, dev))
    && (err.None? ==> forall dev :: dev in t && !ignored(dev) ==> FullyReported(t, emitted, dev))
    && (err.Some? && err.value.InvalidLine? ==>
          var dev := err.value.device;
          dev in t && !ignored(dev) && |t[dev]| != DescriptorCount)
    && (err.Some? && err.value.InvalidValue? ==>
          !parseFloatOk(err.value.value)
          && exists dev :: StoppedAt(t, ignored, emitted, dev, err.value.value))
    && (err.Some? ==> !err.value.CouldNotGetDiskStats?)
  }

  class DiskstatsCollector {
    /** Whether a device name matches the ignored-devices pattern. */
    const ignoredDevicesPattern: string -> bool
    const descs: seq<Desc> := DescriptorTable()

    /**
     * The collector built from the configured ignored-devices pattern; its
     * default is IgnorePattern.IsIgnoredByDefault.
     */
    constructor (ignoredDevicesPattern: string -> bool)
      ensures this.ignoredDevicesPattern == ignoredDevicesPattern
    {
      this.ignoredDevicesPattern := ignoredDevicesPattern;
    }

    /**
     * The samples of one device that has 13 entries, visited in an
     * unspecified order; an entry that is not a number stops the device with
     * the samples sent so far and the offending text.
     */
    method ReportDevice(dev: string, stats: Entry, parseFloatOk: string -> bool)
      returns (samples: seq<Metric>, bad: Option<string>)
      requires stats.Keys <= DescriptorIndices
      ensures forall m :: m in samples ==>
        m.device == dev && m.index in stats && 0 <= m.index < DescriptorCount
        && m == MetricFor(dev, m.index, stats[m.index])
      ensures forall m :: m in samples ==> parseFloatOk(m.value)
      ensures NoDuplicates(samples)
      ensures bad.None? <==> forall i :: i in stats ==> parseFloatOk(stats[i])
      ensures bad.None? ==> forall i :: i in stats ==> MetricFor(dev, i, stats[i]) in samples
      ensures bad.Some? ==> !parseFloatOk(bad.value) && exists i :: i in stats && stats[i] == bad.value
    {
      samples := [];
      var keys := stats.Keys;
      while keys != {}
        invariant keys <= stats.Keys
        invariant forall m :: m in samples ==>
          m.device == dev && m.index in stats && m.index !in keys && 0 <= m.index < DescriptorCount
          && m == MetricFor(dev, m.index, stats[m.index])
        invariant NoDuplicates(samples)
        invariant forall i :: i in stats && i !in keys ==> parseFloatOk(stats[i]) && MetricFor(dev, i, stats[i]) in samples
        decreases keys
      {
        var i :| i in keys;
        keys := keys - {i};
        var value := stats[i];
        if !parseFloatOk(value) {
          return samples, Some(value);
        }
        // Convert to seconds.
        var divisor := 1;
        if i == 3 || i == 7 || i == 9 || i == 10 {
          divisor := 1000;
        }
        samples := samples + [Metric(descs[i], i, dev, value, divisor)];
      }
      bad := None;
    }

    /**
     * The reporting half of a scrape, over the parsed table. The devices are
     * visited in an unspecified order; an ignored device is skipped before it
     * is checked; a device without exactly 13 entries, or an entry that is
     * not a number, stops the scrape with the samples reported so far.
     */
    method ReportTable(diskStats: Table, parseFloatOk: string -> bool)
      returns (emitted: seq<Metric>, err: Option<UpdateError>)
      requires ThirteenMeansDescriptorKeys(diskStats)
      ensures ScrapeOutcome(diskStats, ignoredDevicesPattern, parseFloatOk, emitted, err)
    {
      emitted := [];
      var remaining := diskStats.Keys;
      while remaining != {}
        invariant ReportedSoFar(diskStats, ignoredDevicesPattern, parseFloatOk, emitted, remaining)
        decreases remaining
      {
        var dev :| dev in remaining;
        if ignoredDevicesPattern(dev) {
          SkipIgnored(diskStats, ignoredDevicesPattern, parseFloatOk, emitted, remaining, dev);
          remaining := remaining - {dev};
          continue;
        }
        var stats := diskStats[dev];
        if |stats| != |descs| {
          StopAtInvalidLine(diskStats, ignoredDevicesPattern, parseFloatOk, emitted, remaining, dev);
          return emitted, Some(UpdateError.InvalidLine(dev));
        }
        EntryKeysAreIndices(diskStats, dev);
        var samples, bad := ReportDevice(dev, stats, parseFloatOk);
        if bad.Some? {
          StopAtInvalidValue(diskStats, ignoredDevicesPattern, parseFloatOk, emitted, remaining, dev, samples, bad.value);
          return emitted + samples, Some(InvalidValue(bad.value));
        }
        ReportedDevice(diskStats, ignoredDevicesPattern, parseFloatOk, emitted, remaining, dev, samples);
        emitted := emitted + samples;
        remaining := remaining - {dev};
      }
      FinishedScrape(diskStats, ignoredDevicesPattern, parseFloatOk, emitted);
      err := None;
    }

    /**
     * One scrape: a failed parse stops before anything is reported;
     * otherwise the parsed table is reported as ReportTable does.
     */
    method Update(lines: seq<string>, parseFloatOk: string -> bool)
      returns (emitted: seq<Metric>, err: Option<UpdateError>)
      ensures ParseSpec(lines).Failure? ==>
        emitted == [] && err == Some(CouldNotGetDiskStats(ParseSpec(lines).error))
      ensures ParseSpec(lines).Success? ==>
        ScrapeOutcome(ParseSpec(lines).value, ignoredDevicesPattern, parseFloatOk, emitted, err)
    {
      var parsed := ParseDiskStats(lines);
      if parsed.Failure? {
        return [], Some(CouldNotGetDiskStats(parsed.error));
      }
      ParsedEntriesShape(lines);
      emitted, err := ReportTable(parsed.value, parseFloatOk);
    }
  }

  /**
   * What ReportTable holds while devices remain: every sample so far reports
   * a number of a device already visited, once, and every visited device that
   * is not ignored is reportable and reported in full.
   */
  ghost predicate ReportedSoFar(t: Table, ignored: string -> bool, parseFloatOk: string -> bool,
                                emitted: seq<Metric>, remaining: set<string>)
  {
    && remaining <= t.Keys
    && (forall m :: m in emitted ==>
          ReportsEntry(t, ignored, m) && m.device !in remaining && parseFloatOk(m.value))
    && NoDuplicates(emitted)
    && forall dev :: dev in t && dev !in remaining && !ignored(dev) ==>
         Reportable(t, parseFloatOk, dev) && FullyReported(t, emitted, dev)
  }

  /** The samples ReportDevice sends for device dev of table t: numbers, each entry once. */
  ghost predicate DeviceSamples(t: Table, parseFloatOk: string -> bool, dev: string, samples: seq<Metric>)
    requires dev in t
  {
    && (forall m :: m in samples ==>
          m.device == dev && m.index in t[dev] && 0 <= m.index < DescriptorCount
          && m == MetricFor(dev, m.index, t[dev][m.index]) && parseFloatOk(m.value))
    && NoDuplicates(samples)
  }

  lemma SkipIgnored(t: Table, ignored: string -> bool, parseFloatOk: string -> bool,
                    emitted: seq<Metric>, remaining: set<string>, dev: string)
    requires ReportedSoFar(t, ignored, parseFloatOk, emitted, remaining)
    requires dev in remaining && ignored(dev)
    ensures ReportedSoFar(t, ignored, parseFloatOk, emitted, remaining - {dev})
  {
  }

  /** A device reported in full joins the visited devices. */
  lemma ReportedDevice(t: Table, ignored: string -> bool, parseFloatOk: string -> bool,
                       emitted: seq<Metric>, remaining: set<string>, dev: string, samples: seq<Metric>)
    requires ReportedSoFar(t, ignored, parseFloatOk, emitted, remaining)
    requires dev in remaining && !ignored(dev) && |t[dev]| == DescriptorCount
    requires DeviceSamples(t, parseFloatOk, dev, samples)
    requires forall i :: i in t[dev] ==> parseFloatOk(t[dev][i])
    requires forall i :: i in t[dev] ==> 0 <= i < DescriptorCount && MetricFor(dev, i, t[dev][i]) in samples
    ensures ReportedSoFar(t, ignored, parseFloatOk, emitted + samples, remaining - {dev})
  {
    NoDuplicatesAppend(emitted, samples);
    var after := emitted + samples;
    forall d | d in t && d !in remaining - {dev} && !ignored(d)
      ensures Reportable(t, parseFloatOk, d) && FullyReported(t, after, d)
    {
      if d != dev {
        forall i | i in t[d]
          ensures 0 <= i < DescriptorCount && MetricFor(d, i, t[d][i]) in after
        {
          assert MetricFor(d, i, t[d][i]) in emitted;
        }
      }
    }
  }

  /** A device with the wrong number of entries ends the scrape with an invalid-line error. */
  lemma StopAtInvalidLine(t: Table, ignored: string -> bool, parseFloatOk: string -> bool,
                          emitted: seq<Metric>, remaining: set<string>, dev: string)
    requires ReportedSoFar(t, ignored, parseFloatOk, emitted, remaining)
    requires dev in remaining && !ignored(dev) && |t[dev]| != DescriptorCount
    ensures ScrapeOutcome(t, ignored, parseFloatOk, emitted, Some(UpdateError.InvalidLine(dev)))
  {
    assert !Reportable(t, parseFloatOk, dev);
  }

  /**
   * An entry that is not a number ends the scrape with an invalid-value
   * error, after the samples of that device sent before it.
   */
  lemma StopAtInvalidValue(t: Table, ignored: string -> bool, parseFloatOk: string -> bool,
                           emitted: seq<Metric>, remaining: set<string>, dev: string,
                           samples: seq<Metric>, v: string)
    requires ReportedSoFar(t, ignored, parseFloatOk, emitted, remaining)
    requires dev in remaining && !ignored(dev) && |t[dev]| == DescriptorCount
    requires DeviceSamples(t, parseFloatOk, dev, samples)
    requires !parseFloatOk(v) && exists i :: i in t[dev] && t[dev][i] == v
    ensures ScrapeOutcome(t, ignored, parseFloatOk, emitted + samples, Some(InvalidValue(v)))
  {
    NoDuplicatesAppend(emitted, samples);
    var after := emitted + samples;
    forall d | d in t && d != dev && HasSample(after, d)
      ensures FullyReported(t, after, d)
    {
      var m :| m in after && m.device == d;
      assert m in emitted;
      forall i | i in t[d]
        ensures 0 <= i < DescriptorCount && MetricFor(d, i, t[d][i]) in after
      {
        assert MetricFor(d, i, t[d][i]) in emitted;
      }
    }
    assert StoppedAt(t, ignored, after, dev, v);
    assert !Reportable(t, parseFloatOk, dev);
  }

  /** Once every device is visited the scrape has succeeded. */
  lemma FinishedScrape(t: Table, ignored: string -> bool, parseFloatOk: string -> bool, emitted: seq<Metric>)
    requires ReportedSoFar(t, ignored, parseFloatOk, emitted, {})
    ensures ScrapeOutcome(t, ignored, parseFloatOk, emitted, None)
  {
  }

  /** An ignored device gets no sample at all, whatever its entries hold. */
  lemma IgnoredDeviceSilent(t: Table, ignored: string -> bool, parseFloatOk: string -> bool,
                            emitted: seq<Metric>, err: Option<UpdateError>, dev: string)
    requires ScrapeOutcome(t, ignored, parseFloatOk, emitted, err)
    requires ignored(dev)
    ensures forall m :: m in emitted ==> m.device != dev
    ensures err.Some? && err.value.InvalidLine? ==> err.value.device != dev
  {
  }

  /**
   * After a successful scrape a device that is not ignored has 13 entries
   * and gets exactly one sample per entry, labelled with its name.
   */
  lemma DeviceReportedInFull(t: Table, ignored: string -> bool, parseFloatOk: string -> bool,
                             emitted: seq<Metric>, dev: string)
    requires ScrapeOutcome(t, ignored, parseFloatOk, emitted, None)
    requires dev in t && !ignored(dev)
    ensures |t[dev]| == DescriptorCount
    ensures (set m | m in emitted && m.device == dev :: m.index) == t[dev].Keys
    ensures forall a, b ::
              0 <= a < b < |emitted| && emitted[a].device == dev && emitted[b].device == dev
              ==> emitted[a].index != emitted[b].index
  {
    var reported := set m | m in emitted && m.device == dev :: m.index;
    forall i | i in t[dev]
      ensures i in reported
    {
      assert MetricFor(dev, i, t[dev][i]) in emitted;
    }
  }

  lemma EntryKeysAreIndices(t: Table, dev: string)
    requires ThirteenMeansDescriptorKeys(t) && dev in t && |t[dev]| == DescriptorCount
    ensures t[dev].Keys <= DescriptorIndices
  {
  }

  /** Samples of different devices never collide. */
  lemma NoDuplicatesAppend(a: seq<Metric>, b: seq<Metric>)
    requires NoDuplicates(a) && NoDuplicates(b)
    requires forall x, y :: x in a && y in b ==> x.device != y.device
    ensures NoDuplicates(a + b)
  {
    forall i, j | 0 <= i < j < |a + b|
      ensures (a + b)[i].device != (a + b)[j].device || (a + b)[i].index != (a + b)[j].index
    {
      if j < |a| {
      } else if i >= |a| {
        assert (a + b)[i] == b[i - |a|] && (a + b)[j] == b[j - |a|];
      } else {
        assert (a + b)[i] in a && (a + b)[j] in b;
      }
    }
  }
}
