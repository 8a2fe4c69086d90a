/**
 * A worked example: one line of /proc/diskstats for the disk "sda", laid
 * out with any white space, parsed into its thirteen entries.
 */
module DiskStatsExample {
  import opened Wrappers
  import opened Decimal
  import opened Tokens
  import opened DiskStats
  import opened DiskStatsProperties
  import opened Descriptors
  import opened IgnorePattern
  import opened Collector

  /** Major, minor, device name and eleven counters. */
  const SdaTokens: seq<string> :=
    ["8", "0", "sda", "100", "5", "2000", "100", "50", "5", "1000", "50", "2", "300", "400"]

  /** The eleven counters at 0..10 plus 2000 and 1000 sectors as bytes at 11 and 12. */
  const SdaEntry: Entry :=
    map[0 := "100", 1 := "5", 2 := "2000", 3 := "100", 4 := "50", 5 := "5", 6 := "1000",
        7 := "50", 8 := "2", 9 := "300", 10 := "400", 11 := "1024000", 12 := "512000"]

  lemma ConvertExact(s: string, t: string, sectors: nat)
    requires sectors * DiskSectorSize < Uint64Modulus
    requires s == FormatUint(sectors) && t == FormatUint(sectors * DiskSectorSize)
    ensures ConvertSectorsToBytes(s) == Some(t)
  {
    ConvertExactBelowWrap(sectors);
  }

  lemma SdaBytesRead()
    ensures ConvertSectorsToBytes("2000") == Some("1024000")
  {
    assert FormatUint(2000) == "2000";
    assert FormatUint(1024000) == "1024000";
    ConvertExact("2000", "1024000", 2000);
  }

  lemma SdaBytesWritten()
    ensures ConvertSectorsToBytes("1000") == Some("512000")
  {
    assert FormatUint(1000) == "1000";
    assert FormatUint(512000) == "512000";
    ConvertExact("1000", "512000", 1000);
  }

  /** Both conversions succeeding is all DeriveBytes needs to succeed. */
  lemma DeriveBytesSucceeds(line: string, dev: string, raw: Entry, bytesRead: string, bytesWritten: string)
    requires ConvertSectorsToBytes(Lookup(raw, SectorsReadIndex)) == Some(bytesRead)
    requires ConvertSectorsToBytes(Lookup(raw[BytesReadIndex := bytesRead], SectorsWrittenIndex)) == Some(bytesWritten)
    ensures DeriveBytes(line, dev, raw)
      == Success(DeviceLine(dev, raw[BytesReadIndex := bytesRead][BytesWrittenIndex := bytesWritten]))
  {
  }

  lemma SdaRawEntry(raw: Entry)
    requires raw == RawEntry(SdaTokens[3..])
    ensures Lookup(raw, SectorsReadIndex) == "2000"
    ensures Lookup(raw[BytesReadIndex := "1024000"], SectorsWrittenIndex) == "1000"
    ensures raw[BytesReadIndex := "1024000"][BytesWrittenIndex := "512000"] == SdaEntry
  {
    var c := SdaTokens[3..];
    ElevenCounters(c, "1024000", "512000");
    assert c == ["100", "5", "2000", "100", "50", "5", "1000", "50", "2", "300", "400"];
  }

  /** The entry of a line with eleven counters, written out key by key. */
  lemma ElevenCounters(c: seq<string>, bytesRead: string, bytesWritten: string)
    requires |c| == 11
    ensures RawEntry(c)[BytesReadIndex := bytesRead][BytesWrittenIndex := bytesWritten]
      == map[0 := c[0], 1 := c[1], 2 := c[2], 3 := c[3], 4 := c[4], 5 := c[5], 6 := c[6],
             7 := c[7], 8 := c[8], 9 := c[9], 10 := c[10], 11 := bytesRead, 12 := bytesWritten]
  {
    var full := RawEntry(c)[BytesReadIndex := bytesRead][BytesWrittenIndex := bytesWritten];
    assert forall k :: k in full <==> 0 <= k < 13;
  }

  lemma SdaTokensParse(line: string)
    requires Fields(line) == SdaTokens
    ensures ParseLine(line) == Success(DeviceLine("sda", SdaEntry))
  {
    var raw := RawEntry(SdaTokens[3..]);
    assert ParseLine(line) == DeriveBytes(line, "sda", raw);
    SdaRawEntry(raw);
    SdaBytesRead();
    SdaBytesWritten();
    DeriveBytesSucceeds(line, "sda", raw, "1024000", "512000");
  }

  /** A file of one accepted line holds exactly that line's device. */
  lemma SingleLineFile(line: string, d: DeviceLine)
    requires ParseLine(line) == Success(d)
    ensures ParseSpec([line]) == Success(map[d.device := d.entry])
  {
    var empty: Table := map[];
    var lines := [line];
    assert lines[0] == line && lines[1..] == [];
    calc {
      ParseSpec(lines);
      ParseFrom(empty, lines);
      ParseFrom(empty[d.device := d.entry], []);
    }
    assert empty[d.device := d.entry] == map[d.device := d.entry];
  }

  /**
   * However the tokens are spaced (leading blanks, runs of spaces or tabs),
   * the line splits into the same tokens and so parses the same way.
   */
  lemma SdaExample(seps: seq<string>, line: string)
    requires WellLaidOut(seps, SdaTokens) && line == Layout(seps, SdaTokens)
    ensures ParseLine(line) == Success(DeviceLine("sda", SdaEntry))
    ensures ParseSpec([line]) == Success(map["sda" := SdaEntry])
  {
    FieldsOfLayout(seps, SdaTokens);
    SdaTokensParse(line);
    SingleLineFile(line, DeviceLine("sda", SdaEntry));
  }

  /** A line of three tokens, such as a truncated one, is rejected whole. */
  lemma ShortLineRejected(line: string)
    requires |Fields(line)| == 3
    ensures ParseSpec([line]) == Failure(ParseError.InvalidLine(line))
  {
  }

  /** A scrape of a one-device table whose device is kept and whose entries all read as numbers. */
  lemma OneDeviceScrape(dev: string, e: Entry, ignored: string -> bool, parseFloatOk: string -> bool,
                        emitted: seq<Metric>, err: Option<UpdateError>)
    requires !ignored(dev) && |e| == DescriptorCount
    requires forall i :: i in e ==> parseFloatOk(e[i])
    requires ScrapeOutcome(map[dev := e], ignored, parseFloatOk, emitted, err)
    ensures err.None?
    ensures forall i :: i in e ==> 0 <= i < DescriptorCount && MetricFor(dev, i, e[i]) in emitted
  {
    var t := map[dev := e];
    assert ScrapeSucceeds(t, ignored, parseFloatOk);
  }

  /**
   * Update on a file holding the sda line (SdaExample: however spaced), with the default
   * pattern and every entry reading as a number: the scrape succeeds, and
   * sda gets, among its samples, 100 ms of reading as 0.1 s, 50 ms of writing
   * as 0.05 s, 2 I/Os in progress as a gauge and 1024000 bytes read.
   */
  lemma SdaScrape(line: string, t: Table, parseFloatOk: string -> bool, emitted: seq<Metric>, err: Option<UpdateError>)
    requires Fields(line) == SdaTokens
    requires forall i :: i in SdaEntry ==> parseFloatOk(SdaEntry[i])
    requires ParseSpec([line]) == Success(t)
    requires ScrapeOutcome(t, IsIgnoredByDefault, parseFloatOk, emitted, err)
    ensures err.None?
    ensures Metric(ReadTime, 3, "sda", "100", 1000) in emitted
    ensures Metric(WriteTime, 7, "sda", "50", 1000) in emitted
    ensures Metric(IoNow, 8, "sda", "2", 1) in emitted && Kind(IoNow) == GaugeValue
    ensures Metric(ReadBytes, 11, "sda", "1024000", 1) in emitted
  {
    SdaTokensParse(line);
    SingleLineFile(line, DeviceLine("sda", SdaEntry));
    SdaTableScrape(line, t, parseFloatOk, emitted, err);
  }

  /** The scrape of the table the sda line parses to (line only supplies its 13 entries). */
  lemma SdaTableScrape(line: string, t: Table, parseFloatOk: string -> bool, emitted: seq<Metric>, err: Option<UpdateError>)
    requires Fields(line) == SdaTokens && t == map["sda" := SdaEntry]
    requires forall i :: i in SdaEntry ==> parseFloatOk(SdaEntry[i])
    requires ScrapeOutcome(t, IsIgnoredByDefault, parseFloatOk, emitted, err)
    ensures err.None?
    ensures Metric(ReadTime, 3, "sda", "100", 1000) in emitted
    ensures Metric(WriteTime, 7, "sda", "50", 1000) in emitted
    ensures Metric(IoNow, 8, "sda", "2", 1) in emitted
    ensures Metric(ReadBytes, 11, "sda", "1024000", 1) in emitted
  {
    WholeDisksKept();
    SdaTokensParse(line);
    ThirteenEntriesIff(line);
    OneDeviceScrape("sda", SdaEntry, IsIgnoredByDefault, parseFloatOk, emitted, err);
    SdaSampledEntries();
    SampleShapes("sda", "100", "50", "2", "1024000");
  }

  lemma SdaSampledEntries()
    ensures 3 in SdaEntry && SdaEntry[3] == "100" && 7 in SdaEntry && SdaEntry[7] == "50"
    ensures 8 in SdaEntry && SdaEntry[8] == "2" && 11 in SdaEntry && SdaEntry[11] == "1024000"
  {
  }

  /** The samples of entries 3, 7, 8 and 11: two scaled to seconds, one gauge, one plain counter. */
  lemma SampleShapes(dev: string, readTime: string, writeTime: string, ioNow: string, readBytes: string)
    ensures MetricFor(dev, 3, readTime) == Metric(ReadTime, 3, dev, readTime, 1000)
    ensures MetricFor(dev, 7, writeTime) == Metric(WriteTime, 7, dev, writeTime, 1000)
    ensures MetricFor(dev, 8, ioNow) == Metric(IoNow, 8, dev, ioNow, 1)
    ensures MetricFor(dev, 11, readBytes) == Metric(ReadBytes, 11, dev, readBytes, 1)
  {
  }
}
