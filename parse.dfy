/**
 * Reading the kernel's per-device block I/O statistics: one line per device,
 * "<major> <minor> <device> <f0> <f1> ...", turned into a table from device
 * name to numbered raw fields, with bytes read and bytes written derived from
 * the sector counts and stored at positions 11 and 12.
 */
module DiskStats {
  import opened Wrappers
  import opened Decimal
  import opened Tokens

  /** The kernel reports transfers in 512-byte sectors. */
  const DiskSectorSize: nat := 512

  /** Position of the derived bytes-read value in a device's table. */
  const BytesReadIndex: int := 11
  /** Position of the derived bytes-written value in a device's table. */
  const BytesWrittenIndex: int := 12
  /** Raw positions of the sectors-read and sectors-written counters. */
  const SectorsReadIndex: int := 2
  const SectorsWrittenIndex: int := 6

  /** A device's fields, numbered from 0; Go's map[int]string. */
  type Entry = map<int, string>

  /** Every device's fields, keyed by device name. */
  type Table = map<string, Entry>

  /** Each parse error carries the offending line. */
  datatype ParseError =
    | InvalidLine(line: string)
    | InvalidSectorsRead(line: string)
    | InvalidSectorsWritten(line: string)

  datatype DeviceLine = DeviceLine(device: string, entry: Entry)

  /** Looking up a missing key of a Go map yields the zero value, "". */
  function Lookup(e: Entry, k: int): string {
    if k in e then e[k] else ""
  }

  /** The keys 0 .. n-1. */
  function Range(n: nat): (r: set<int>)
    ensures forall k :: k in r <==> 0 <= k < n
  {
    if n == 0 then {} else Range(n - 1) + {n - 1}
  }

  /** Tokens numbered from 0. */
  function RawEntry(tokens: seq<string>): (e: Entry)
    ensures e.Keys == Range(|tokens|)
    ensures forall i :: 0 <= i < |tokens| ==> e[i] == tokens[i]
  {
    map i | 0 <= i < |tokens| :: tokens[i]
  }

  /** Numbering one more token adds exactly its entry. */
  lemma RawEntrySnoc(tokens: seq<string>, i: nat)
    requires i < |tokens|
    ensures RawEntry(tokens[..i])[i := tokens[i]] == RawEntry(tokens[..i + 1])
  {
  }

  /** Raw stat field k of a line's tokens, or "" when the line has too few. */
  function RawField(parts: seq<string>, k: int): string {
    if 0 <= k && 3 + k < |parts| then parts[3 + k] else ""
  }

  /**
   * convertDiskSectorsToBytes: parse the sector count as a uint64 and format
   * sectors * 512, computed in uint64 arithmetic and so modulo 2^64.
   */
  function ConvertSectorsToBytes(sectorCount: string): (r: Option<string>)
    ensures r.Some? <==> IsUint64(sectorCount)
    ensures r.Some? ==> IsCanonical(r.value)
    ensures r.Some? ==>
      ParseUint64(r.value) == Some(ParseUint64(sectorCount).value * DiskSectorSize % Uint64Modulus)
  {
    match ParseUint64(sectorCount)
    case None => None
    case Some(sectors) =>
      var bytes := sectors * DiskSectorSize % Uint64Modulus;
      FormatParseRoundTrip(bytes);
      FormatUintDenotes(bytes);
      Some(FormatUint(bytes))
  }

  /**
   * What one line contributes to the table. The third token names the device,
   * tokens from the fourth on are fields 0, 1, ...; then field 2 and field 6
   * (looked up as "" when missing) are converted to bytes and stored at 11
   * and 12, over any raw fields there.
   */
  function ParseLine(line: string): (r: Result<DeviceLine, ParseError>)
    ensures r.Failure? ==> r.error.line == line
  {
    var parts := Fields(line);
    if |parts| < 4 then Failure(InvalidLine(line))
    else DeriveBytes(line, parts[2], RawEntry(parts[3..]))
  }

  /**
   * The second half of a line's processing: field 2 and then field 6 of the
   * raw entry become bytes at 11 and 12; line is only quoted in errors.
   */
  function DeriveBytes(line: string, dev: string, raw: Entry): (r: Result<DeviceLine, ParseError>)
    ensures r.Failure? ==> r.error.line == line && !r.error.InvalidLine?
    ensures r.Success? ==> r.value.device == dev && HasByteCounts(r.value.entry)
  {
    match ConvertSectorsToBytes(Lookup(raw, SectorsReadIndex))
    case None => Failure(InvalidSectorsRead(line))
    case Some(bytesRead) =>
      var withRead := raw[BytesReadIndex := bytesRead];
      match ConvertSectorsToBytes(Lookup(withRead, SectorsWrittenIndex))
      case None => Failure(InvalidSectorsWritten(line))
      case Some(bytesWritten) =>
        Success(DeviceLine(dev, withRead[BytesWrittenIndex := bytesWritten]))
  }

  /**
   * The outcome of one line: too few tokens, a bad sectors-read field or a
   * bad sectors-written field, checked in that order; otherwise the entry
   * LineEntry describes.
   */
  lemma ParseLineOutcome(line: string)
    ensures |Fields(line)| < 4 <==> ParseLine(line) == Failure(InvalidLine(line))
    ensures |Fields(line)| >= 4 && !IsUint64(RawField(Fields(line), SectorsReadIndex))
      ==> ParseLine(line) == Failure(InvalidSectorsRead(line))
    ensures |Fields(line)| >= 4 && IsUint64(RawField(Fields(line), SectorsReadIndex))
      && !IsUint64(RawField(Fields(line), SectorsWrittenIndex))
      ==> ParseLine(line) == Failure(InvalidSectorsWritten(line))
    ensures ParseLine(line).Success? <==>
      |Fields(line)| >= 4 && IsUint64(RawField(Fields(line), SectorsReadIndex))
      && IsUint64(RawField(Fields(line), SectorsWrittenIndex))
    ensures ParseLine(line).Success? ==> LineEntry(Fields(line), ParseLine(line).value)
  {
    var parts := Fields(line);
    if |parts| >= 4 {
      var raw := RawEntry(parts[3..]);
      assert forall k :: Lookup(raw, k) == RawField(parts, k);
    }
  }

  /**
   * The device line an accepted line's tokens yield: the device is the third
   * token; the keys are the raw positions plus 11 and 12; every raw field
   * other than 11 and 12 is kept; 11 and 12 denote sectors * 512 mod 2^64.
   */
  ghost predicate LineEntry(parts: seq<string>, d: DeviceLine) {
    && |parts| >= 10
    && d.device == parts[2]
    && d.entry.Keys == Range(|parts| - 3) + {BytesReadIndex, BytesWrittenIndex}
    && (forall i :: 0 <= i < |parts| - 3 && i != BytesReadIndex && i != BytesWrittenIndex
          ==> d.entry[i] == parts[3 + i])
    && IsCanonical(d.entry[BytesReadIndex])
    && IsCanonical(d.entry[BytesWrittenIndex])
    && IsUint64(parts[3 + SectorsReadIndex])
    && IsUint64(parts[3 + SectorsWrittenIndex])
    && ParseUint64(d.entry[BytesReadIndex])
       == Some(ParseUint64(parts[3 + SectorsReadIndex]).value * DiskSectorSize % Uint64Modulus)
    && ParseUint64(d.entry[BytesWrittenIndex])
       == Some(ParseUint64(parts[3 + SectorsWrittenIndex]).value * DiskSectorSize % Uint64Modulus)
  }

  /** Folding the lines into the table acc: a later line for a device replaces the earlier entry. */
  function ParseFrom(acc: Table, lines: seq<string>): Result<Table, ParseError>
    decreases |lines|
  {
    if lines == [] then Success(acc)
    else
      match ParseLine(lines[0])
      case Failure(e) => Failure(e)
      case Success(d) => ParseFrom(acc[d.device := d.entry], lines[1..])
  }

  /** An entry that carries the derived bytes read and bytes written. */
  predicate HasByteCounts(e: Entry) {
    BytesReadIndex in e && BytesWrittenIndex in e
  }

  /** Folding lines into a table whose entries carry byte counts keeps that so. */
  lemma {:induction false} ParseFromByteCounts(acc: Table, lines: seq<string>)
    requires forall dev :: dev in acc ==> HasByteCounts(acc[dev])
    ensures ParseFrom(acc, lines).Success? ==>
      forall dev :: dev in ParseFrom(acc, lines).value ==> HasByteCounts(ParseFrom(acc, lines).value[dev])
    decreases |lines|
  {
    if lines != [] && ParseLine(lines[0]).Success? {
      var d := ParseLine(lines[0]).value;
      ParseFromByteCounts(acc[d.device := d.entry], lines[1..]);
    }
  }

  /** The whole parse of a file, starting from an empty table: every device carries its byte counts. */
  function ParseSpec(lines: seq<string>): (r: Result<Table, ParseError>)
    ensures r.Success? ==> forall dev :: dev in r.value ==> HasByteCounts(r.value[dev])
  {
    ParseFromByteCounts(map[], lines);
    ParseFrom(map[], lines)
  }

  /**
   * parseDiskStats: scan the lines, resetting the device's entry and filling
   * it field by field, then adding the two derived byte counts; the first bad
   * line ends the parse with an error and no table.
   */
  method ParseDiskStats(lines: seq<string>) returns (r: Result<Table, ParseError>)
    ensures r == ParseSpec(lines)
  {
    var diskStats: Table := map[];
    var k := 0;
    while k < |lines|
      invariant 0 <= k <= |lines|
      invariant ParseFrom(diskStats, lines[k..]) == ParseSpec(lines)
    {
      var line := lines[k];
      assert lines[k..][0] == line && lines[k..][1..] == lines[k + 1..];
      var parts := Fields(line);
      if |parts| < 4 {
        return Failure(InvalidLine(line));
      }
      var dev := parts[2];
      // The device's entry is built afresh, so an earlier line for it is forgotten.
      var stats: Entry := map[];
      var raw := parts[3..];
      for i := 0 to |raw|
        invariant stats == RawEntry(raw[..i])
      {
        RawEntrySnoc(raw, i);
        stats := stats[i := parts[3 + i]];
      }
      assert raw[..|raw|] == raw;
      assert ParseLine(line) == DeriveBytes(line, dev, stats);
      var bytesRead := ConvertSectorsToBytes(Lookup(stats, SectorsReadIndex));
      if bytesRead.None? {
        return Failure(InvalidSectorsRead(line));
      }
      stats := stats[BytesReadIndex := bytesRead.value];
      var bytesWritten := ConvertSectorsToBytes(Lookup(stats, SectorsWrittenIndex));
      if bytesWritten.None? {
        return Failure(InvalidSectorsWritten(line));
      }
      stats := stats[BytesWrittenIndex := bytesWritten.value];
      diskStats := diskStats[dev := stats];
      k := k + 1;
    }
    assert lines[k..] == [];
    r := Success(diskStats);
  }
}

/** Properties of the parse, stated over its specification. */
module DiskStatsProperties {
  import opened Wrappers
  import opened Decimal
  import opened Tokens
  import opened DiskStats

  /** Multiplying by the sector size in uint64 arithmetic. */
  lemma ConvertValue(sectors: nat)
    requires sectors < Uint64Modulus
    ensures ConvertSectorsToBytes(FormatUint(sectors))
      == Some(FormatUint(sectors * DiskSectorSize % Uint64Modulus))
  {
    FormatParseRoundTrip(sectors);
  }

  /** Below 2^55 sectors the byte count is exact. */
  lemma ConvertExactBelowWrap(sectors: nat)
    requires sectors * DiskSectorSize < Uint64Modulus
    ensures ConvertSectorsToBytes(FormatUint(sectors)) == Some(FormatUint(sectors * DiskSectorSize))
  {
    var bytes := sectors * DiskSectorSize;
    assert sectors <= bytes;
    assert bytes % Uint64Modulus == bytes;
    ConvertValue(sectors);
  }

  /**
   * From 2^55 sectors on the uint64 product wraps: between 2^55 and 2^56
   * sectors the bytes reported are those of (sectors - 2^55) sectors, so
   * 2^55 sectors read as "0" bytes.
   */
  lemma ConvertWrapsOnce(sectors: nat)
    requires 0x80_0000_0000_0000 <= sectors < 0x100_0000_0000_0000
    ensures ConvertSectorsToBytes(FormatUint(sectors))
      == Some(FormatUint((sectors - 0x80_0000_0000_0000) * DiskSectorSize))
    ensures sectors == 0x80_0000_0000_0000 ==> ConvertSectorsToBytes(FormatUint(sectors)) == Some("0")
  {
    ConvertValue(sectors);
    var k := sectors - 0x80_0000_0000_0000;
    var bytes := sectors * DiskSectorSize;
    assert bytes == sectors * 512;
    assert bytes == Uint64Modulus + k * 512;
    ModAfterOneWrap(bytes, k * 512);
  }

  lemma ModAfterOneWrap(a: int, r: int)
    requires 0 <= r < Uint64Modulus && a == Uint64Modulus + r
    ensures a % Uint64Modulus == r
  {
  }

  /** The empty string, which a missing field reads as, is not a sector count. */
  lemma ConvertRejectsMissingField()
    ensures ConvertSectorsToBytes("") == None
  {
  }

  lemma {:induction false} RangeSize(n: nat)
    ensures |Range(n)| == n
  {
    if n > 0 {
      var r := Range(n - 1);
      RangeSize(n - 1);
      assert n - 1 !in r;
      assert Range(n) == r + {n - 1};
    }
  }

  /**
   * An accepted line yields exactly the 13 keys 0..12 if and only if it had
   * 11, 12 or 13 raw fields; with more there are too many keys, with fewer
   * the gap below 11 leaves too few.
   */
  lemma ThirteenEntriesIff(line: string)
    requires ParseLine(line).Success?
    ensures |ParseLine(line).value.entry| == 13 <==> 11 <= |Fields(line)| - 3 <= 13
    ensures |ParseLine(line).value.entry| == 13 ==> ParseLine(line).value.entry.Keys == Range(13)
  {
    ParseLineOutcome(line);
    var n := |Fields(line)| - 3;
    var keys := ParseLine(line).value.entry.Keys;
    assert |ParseLine(line).value.entry| == |keys|;
    KeysSize(n, keys);
  }

  /** The size of the key set 0..n-1 plus 11 and 12. */
  lemma KeysSize(n: nat, keys: set<int>)
    requires keys == Range(n) + {11, 12}
    ensures |keys| == 13 <==> 11 <= n <= 13
    ensures |keys| == 13 ==> keys == Range(13)
  {
    if n <= 11 {
      KeysSizeShort(n, keys);
    } else if n == 12 {
      KeysSizeTwelve(keys);
    } else {
      KeysSizeLong(n, keys);
    }
  }

  lemma KeysSizeTwelve(keys: set<int>)
    requires keys == Range(12) + {11, 12}
    ensures keys == Range(13) && |keys| == 13
  {
    assert Range(13) == Range(12) + {12};
    assert 11 in Range(12);
    RangeSize(13);
  }

  lemma KeysSizeLong(n: nat, keys: set<int>)
    requires n >= 13 && keys == Range(n) + {11, 12}
    ensures keys == Range(n) && |keys| == n
  {
    assert 11 in Range(n) && 12 in Range(n);
    RangeSize(n);
  }

  lemma KeysSizeShort(n: nat, keys: set<int>)
    requires n <= 11 && keys == Range(n) + {11, 12}
    ensures |keys| == n + 2
    ensures n == 11 ==> keys == Range(13)
  {
    if n == 11 {
      KeysSizeEleven(keys);
    }
    RangeSize(n);
    var a := Range(n) + {11};
    assert 11 !in Range(n);
    assert |a| == n + 1;
    assert 12 !in a;
    assert keys == a + {12};
  }

  lemma KeysSizeEleven(keys: set<int>)
    requires keys == Range(11) + {11, 12}
    ensures keys == Range(13)
  {
    assert forall k :: k in keys <==> k in Range(13);
  }

  /** A parse fails exactly when some line fails, and then with the first failing line's error. */
  lemma {:induction false} ParseFromSucceedsIff(acc: Table, lines: seq<string>)
    ensures ParseFrom(acc, lines).Success? <==> forall i :: 0 <= i < |lines| ==> ParseLine(lines[i]).Success?
    decreases |lines|
  {
    if lines != [] && ParseLine(lines[0]).Success? {
      var d := ParseLine(lines[0]).value;
      var rest := lines[1..];
      ParseFromSucceedsIff(acc[d.device := d.entry], rest);
      assert forall i :: 0 < i < |lines| ==> lines[i] == rest[i - 1];
    }
  }

  lemma {:induction false} ParseFromFirstFailure(acc: Table, lines: seq<string>)
    ensures ParseFrom(acc, lines).Failure? ==>
      exists i :: 0 <= i < |lines| && ParseLine(lines[i]) == Failure(ParseFrom(acc, lines).error)
        && forall j :: 0 <= j < i ==> ParseLine(lines[j]).Success?
    decreases |lines|
  {
    if lines != [] && ParseLine(lines[0]).Success? {
      var d := ParseLine(lines[0]).value;
      var rest := lines[1..];
      ParseFromFirstFailure(acc[d.device := d.entry], rest);
      assert ParseFrom(acc, lines) == ParseFrom(acc[d.device := d.entry], rest);
      if ParseFrom(acc, lines).Failure? {
        var e := ParseFrom(acc, lines).error;
        var i :| 0 <= i < |rest| && ParseLine(rest[i]) == Failure(e)
          && forall j :: 0 <= j < i ==> ParseLine(rest[j]).Success?;
        assert lines[i + 1] == rest[i];
        assert forall j :: 0 < j < i + 1 ==> lines[j] == rest[j - 1];
        assert 0 <= i + 1 < |lines| && ParseLine(lines[i + 1]) == Failure(e)
          && forall j :: 0 <= j < i + 1 ==> ParseLine(lines[j]).Success?;
      }
    }
  }

  /** The whole parse fails exactly when one of its lines does, with the first such line's error. */
  lemma ParseOutcome(lines: seq<string>)
    ensures ParseSpec(lines).Success? <==> forall i :: 0 <= i < |lines| ==> ParseLine(lines[i]).Success?
    ensures ParseSpec(lines).Failure? ==>
      exists i :: 0 <= i < |lines| && ParseLine(lines[i]) == Failure(ParseSpec(lines).error)
        && forall j :: 0 <= j < i ==> ParseLine(lines[j]).Success?
  {
    ParseFromSucceedsIff(map[], lines);
    ParseFromFirstFailure(map[], lines);
  }

  /** Line accepted and naming device dev. */
  predicate LineIsFor(line: string, dev: string) {
    ParseLine(line).Success? && ParseLine(line).value.device == dev
  }

  /** Appending a line updates only that line's device, or fails with that line's error. */
  lemma {:induction false} ParseFromAppend(acc: Table, lines: seq<string>, line: string)
    requires ParseFrom(acc, lines).Success?
    ensures ParseLine(line).Failure? ==> ParseFrom(acc, lines + [line]) == Failure(ParseLine(line).error)
    ensures ParseLine(line).Success? ==>
      ParseFrom(acc, lines + [line])
      == Success(ParseFrom(acc, lines).value[ParseLine(line).value.device := ParseLine(line).value.entry])
    decreases |lines|
  {
    if lines == [] {
      assert lines + [line] == [line];
    } else {
      var d := ParseLine(lines[0]).value;
      assert (lines + [line])[0] == lines[0];
      assert (lines + [line])[1..] == lines[1..] + [line];
      ParseFromAppend(acc[d.device := d.entry], lines[1..], line);
    }
  }

  /**
   * Adding one line to a file that parses: a bad line fails the whole parse
   * with its error; a good line replaces its device's entry and leaves every
   * other device as it was.
   */
  lemma ParseAppend(lines: seq<string>, line: string)
    requires ParseSpec(lines).Success?
    ensures ParseLine(line).Failure? ==> ParseSpec(lines + [line]) == Failure(ParseLine(line).error)
    ensures ParseLine(line).Success? ==> ParseSpec(lines + [line]).Success?
    ensures ParseLine(line).Success? ==>
      var before := ParseSpec(lines).value;
      var after := ParseSpec(lines + [line]).value;
      var d := ParseLine(line).value;
      && after.Keys == before.Keys + {d.device}
      && after[d.device] == d.entry
      && forall dev :: dev in before && dev != d.device ==> after[dev] == before[dev]
  {
    ParseFromAppend(map[], lines, line);
  }

  /** The last accepted line for a device decides its entry (last line wins). */
  lemma {:induction false} LastLineWinsFrom(acc: Table, lines: seq<string>, i: int, dev: string)
    requires ParseFrom(acc, lines).Success?
    requires 0 <= i < |lines| && LineIsFor(lines[i], dev)
    requires forall j :: i < j < |lines| ==> !LineIsFor(lines[j], dev)
    ensures dev in ParseFrom(acc, lines).value
    ensures ParseFrom(acc, lines).value[dev] == ParseLine(lines[i]).value.entry
    decreases |lines|
  {
    var d := ParseLine(lines[0]).value;
    var acc' := acc[d.device := d.entry];
    var rest := lines[1..];
    assert ParseFrom(acc, lines) == ParseFrom(acc', rest);
    if i == 0 {
      DeviceUntouchedFrom(acc', rest, dev);
    } else {
      forall j | i - 1 < j < |rest| ensures !LineIsFor(rest[j], dev) {
        assert rest[j] == lines[j + 1];
      }
      assert lines[i] == rest[i - 1];
      LastLineWinsFrom(acc', rest, i - 1, dev);
    }
  }

  /** A device no line names keeps whatever the table held for it. */
  lemma {:induction false} DeviceUntouchedFrom(acc: Table, lines: seq<string>, dev: string)
    requires ParseFrom(acc, lines).Success?
    requires forall j :: 0 <= j < |lines| ==> !LineIsFor(lines[j], dev)
    ensures dev in ParseFrom(acc, lines).value <==> dev in acc
    ensures dev in acc ==> ParseFrom(acc, lines).value[dev] == acc[dev]
    decreases |lines|
  {
    if lines != [] {
      var d := ParseLine(lines[0]).value;
      assert !LineIsFor(lines[0], dev);
      forall j | 0 <= j < |lines[1..]| ensures !LineIsFor(lines[1..][j], dev) {
        assert lines[1..][j] == lines[j + 1];
      }
      DeviceUntouchedFrom(acc[d.device := d.entry], lines[1..], dev);
    }
  }

  /**
   * After a successful parse, the table's devices are exactly those some line
   * names, and each holds the entry of the last line naming it.
   */
  lemma LastLineWins(lines: seq<string>, i: int, dev: string)
    requires ParseSpec(lines).Success?
    requires 0 <= i < |lines| && LineIsFor(lines[i], dev)
    requires forall j :: i < j < |lines| ==> !LineIsFor(lines[j], dev)
    ensures dev in ParseSpec(lines).value
    ensures ParseSpec(lines).value[dev] == ParseLine(lines[i]).value.entry
  {
    LastLineWinsFrom(map[], lines, i, dev);
  }

  /** A device that no line names is not in the table. */
  lemma UnnamedDeviceAbsent(lines: seq<string>, dev: string)
    requires ParseSpec(lines).Success?
    requires forall j :: 0 <= j < |lines| ==> !LineIsFor(lines[j], dev)
    ensures dev !in ParseSpec(lines).value
  {
    DeviceUntouchedFrom(map[], lines, dev);
  }

  /**
   * Whether a device ends up with the 13 entries the collector demands is
   * decided by the raw field count of its last line alone: 11, 12 or 13.
   */
  lemma DeviceHasThirteenEntriesIff(lines: seq<string>, i: int, dev: string)
    requires ParseSpec(lines).Success?
    requires 0 <= i < |lines| && LineIsFor(lines[i], dev)
    requires forall j :: i < j < |lines| ==> !LineIsFor(lines[j], dev)
    ensures dev in ParseSpec(lines).value
    ensures |ParseSpec(lines).value[dev]| == 13 <==> 11 <= |Fields(lines[i])| - 3 <= 13
  {
    LastLineWins(lines, i, dev);
    ThirteenEntriesIff(lines[i]);
  }

  /** Every entry of the table with 13 keys has its keys among 0..12 (so exactly those). */
  ghost predicate ThirteenMeansDescriptorKeys(t: Table) {
    forall dev :: dev in t && |t[dev]| == 13 ==> forall i :: i in t[dev] ==> 0 <= i < 13
  }

  lemma {:induction false} ParseFromKeepsShape(acc: Table, lines: seq<string>)
    requires ThirteenMeansDescriptorKeys(acc)
    requires ParseFrom(acc, lines).Success?
    ensures ThirteenMeansDescriptorKeys(ParseFrom(acc, lines).value)
    decreases |lines|
  {
    if lines != [] {
      var d := ParseLine(lines[0]).value;
      ThirteenEntriesIff(lines[0]);
      ParseFromKeepsShape(acc[d.device := d.entry], lines[1..]);
    }
  }

  /**
   * After a successful parse every key of a device with 13 entries lies in
   * 0..12, so each names one of the 13 descriptors and indexing the
   * descriptor list with it cannot go out of range.
   */
  lemma ParsedEntriesShape(lines: seq<string>)
    requires ParseSpec(lines).Success?
    ensures ThirteenMeansDescriptorKeys(ParseSpec(lines).value)
  {
    ParseFromKeepsShape(map[], lines);
  }
}
