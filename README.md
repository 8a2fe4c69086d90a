# Disk statistics collector, modelled in Dafny

This project models node_exporter's Linux disk-statistics collector (`collector/diskstats_linux.go`). The collector handles one scrape in two stages.

First it reads `/proc/diskstats` and turns every line into an entry for one device. The entry is a map from positions to raw text:
- the line is split into white-space separated fields;
- the third field names the device;
- fields four onward become entries 0, 1, 2, …;
- two more entries are derived: entry 11 is bytes read and entry 12 is bytes written. Each is the sector count in entry 2 (or 6) multiplied by the 512-byte sector size.

Then, for every device whose name does not match the ignored-devices pattern, it emits the 13 entries under 13 metric descriptors. It checks two things:
- every device must have exactly 13 entries;
- every entry must be a number.

The four millisecond counters (entries 3, 7, 9 and 10) are divided by 1000 so that they report seconds.

The modules are:

- `Wrappers` (`wrappers.dfy`): the `Option` and `Result` types.
- `Decimal` (`decimal.dfy`): decimal text of unsigned 64-bit numbers, the way `strconv.ParseUint(s, 10, 64)` reads it and `strconv.FormatUint(n, 10)` writes it. Both round trips are proved.
- `Tokens` (`fields.dfy`): `strings.Fields`. The fields are exactly the maximal runs of non-space characters, and laying tokens out with any white space in between splits them back into the same tokens.
- `DiskStats` and `DiskStatsProperties` (`parse.dfy`):
  - the sector-to-byte conversion, with 64-bit wrap-around;
  - the parse of one line, and of a whole file as a left fold;
  - the imperative `ParseDiskStats` loop, proved equal to that fold;
  - lemmas about errors, the last line winning for a repeated device, and the 13-entry shape.
- `Descriptors` (`descriptors.dfy`): the 13 descriptors, with their names, help texts and value types.
- `IgnorePattern` (`ignore_pattern.dfy`): the default ignored-devices pattern `^(ram|loop|fd|(h|s|v|xv)d[a-z]|nvme\d+n\d+p)\d+$`. It is written once as a direct decision procedure and once as the regular expression's meaning, and the two are proved equal.
- `Collector` (`collector.dfy`): the collector as a class holding its ignore pattern and descriptor table. `Update` parses, then reports the table device by device and entry by entry, in an order chosen arbitrarily, as Go's map iteration is.
- `DiskStatsExample` (`fixture.dfy`): a worked `sda` line, its parse, and the samples a scrape of it must contain.

The sector count is read with `strconv.ParseUint` as a `uint64`. Multiplying it by the `uint64` sector size (collector/diskstats_linux.go:215) wraps modulo 2^64 with no error. `ConvertSectorsToBytes` follows the code and yields `sectors * 512 mod 2^64`. `DiskStatsProperties.ConvertWrapsOnce` shows that 2^55 sectors convert to `"0"`.

## Model

| member | source | states |
|---|---|---|
| Decimal.ParseUint64 | collector/diskstats_linux.go:210-213 | ParseUint(s, 10, 64): rejects the empty string and yields values below 2^64; FormatParseRoundTrip shows it reads back exactly what FormatUint writes |
| Decimal.FormatUint | collector/diskstats_linux.go:215 | FormatUint(n, 10): a non-empty string of digits, one digit exactly for n below 10; FormatUintDenotes shows it is canonical and denotes n |
| Decimal.FormatUintDenotes | collector/diskstats_linux.go:215 | the decimal text FormatUint writes has no leading zero (except "0") and denotes the number |
| Decimal.FormatParseRoundTrip | collector/diskstats_linux.go:210-215 | every number below 2^64 that FormatUint writes is read back by ParseUint as the same number |
| Decimal.ParseFormatRoundTrip | collector/diskstats_linux.go:210-215 | canonical decimal text is reproduced exactly by formatting the value it denotes |
| Tokens.Fields | collector/diskstats_linux.go:225 | strings.Fields: every field is non-empty and holds no white space, and the fields joined together are the line with all white space removed |
| Tokens.FieldsOfLayout | collector/diskstats_linux.go:225 | tokens laid out with any non-empty white-space runs between them (and any around them) split back into exactly those tokens |
| DiskStats.RawEntry | collector/diskstats_linux.go:230-233 | the fresh entry of a line has keys 0..n-1 and entry i is the (i+4)-th field |
| DiskStats.ConvertSectorsToBytes | collector/diskstats_linux.go:209-216 | the conversion succeeds exactly when the text is a uint64 in decimal; the result is canonical decimal text of sectors times 512 modulo 2^64 |
| DiskStats.ParseLine | collector/diskstats_linux.go:225-244 | one line's processing; every error it reports quotes that line; ParseLineOutcome gives the full case split |
| DiskStats.DeriveBytes | collector/diskstats_linux.go:234-244 | the sectors-read and then the sectors-written conversion; a failure is one of the two conversion errors quoting the line; on success the device is kept and the entry holds bytes read (11) and bytes written (12) |
| DiskStats.ParseSpec | collector/diskstats_linux.go:218-248 | the fold of ParseLine over the file from an empty table; every device it holds carries bytes read (11) and bytes written (12) |
| DiskStats.ParseLineOutcome | collector/diskstats_linux.go:225-244 | a line with fewer than 4 fields is an invalid line; otherwise an unreadable sectors-read count and then an unreadable sectors-written count is each its own error; success exactly when both convert, and the entry is the raw fields plus bytes read (11) and bytes written (12) |
| DiskStats.ParseDiskStats | collector/diskstats_linux.go:218-248 | the imperative loop over the lines returns exactly the left fold ParseSpec (the first failing line's error, or the table) |
| DiskStatsProperties.ConvertValue | collector/diskstats_linux.go:209-216 | every uint64 sector count written in decimal converts, to the canonical text of its byte count modulo 2^64 |
| DiskStatsProperties.ConvertExactBelowWrap | collector/diskstats_linux.go:215 | a count whose byte count fits in 64 bits converts to exactly sectors * 512 |
| DiskStatsProperties.ConvertWrapsOnce | collector/diskstats_linux.go:215 | counts from 2^55 to 2^56 wrap once; 2^55 sectors convert to "0" |
| DiskStatsProperties.ConvertRejectsMissingField | collector/diskstats_linux.go:234-236 | a missing entry looks up as "", which ParseUint rejects |
| DiskStatsProperties.ThirteenEntriesIff | collector/diskstats_linux.go:229-244 | a parsed line has 13 entries exactly when it has 14 to 16 fields, and then its keys are 0..12 |
| DiskStatsProperties.ParseOutcome | collector/diskstats_linux.go:224-245 | a file parses exactly when every line parses; on failure the error is that of the first failing line |
| DiskStatsProperties.ParseAppend | collector/diskstats_linux.go:224-245 | appending a line either fails with that line's error or adds the line's entry under its device, replacing any earlier entry |
| DiskStatsProperties.LastLineWins | collector/diskstats_linux.go:229-230 | a device's entry is the one from the last line that names it |
| DiskStatsProperties.UnnamedDeviceAbsent | collector/diskstats_linux.go:218-248 | a device that no line names is not in the table |
| DiskStatsProperties.DeviceHasThirteenEntriesIff | collector/diskstats_linux.go:229-244 | a device has 13 entries exactly when its last line has 14 to 16 fields |
| DiskStatsProperties.ParsedEntriesShape | collector/diskstats_linux.go:230-244 | in a parsed table every 13-entry device has keys 0..12, the descriptor indices |
| Descriptors.DescriptorTable | collector/diskstats_linux.go:57-161 | 13 distinct descriptors; only io_now (index 8) is a gauge; indices 3, 7, 9 and 10 are exactly the millisecond time counters |
| Descriptors.NamesDistinct | collector/diskstats_linux.go:57-161 | different descriptors have different metric names |
| IgnorePattern.TrailingDigitsStart | collector/diskstats_linux.go:38 | the split point before the final digit run: digits after it and a non-digit just before |
| IgnorePattern.LeadingDigitsEnd | collector/diskstats_linux.go:38 | the end of the leading digit run: digits before it and a non-digit at it |
| IgnorePattern.IsIgnoredByDefault | collector/diskstats_linux.go:38 | the default pattern decided directly; an ignored name has at least three characters and ends in a digit; IgnoredByDefaultIff shows it equals the regular expression |
| IgnorePattern.IgnoredByDefaultIff | collector/diskstats_linux.go:38 | the decision procedure ignores a name exactly when the whole name matches one of the pattern's alternatives followed by one or more digits |
| IgnorePattern.WholeDisksKept | collector/diskstats_linux.go:38 | sda, loop and dm-0 are reported |
| IgnorePattern.PartitionsIgnored | collector/diskstats_linux.go:38 | sda1, ram0 and loop12 are ignored |
| IgnorePattern.OddNamesKept | collector/diskstats_linux.go:38 | sdaa1 and md127 are reported |
| IgnorePattern.NvmePartitionIgnored | collector/diskstats_linux.go:38 | the NVMe partition nvme0n1p2 is ignored |
| IgnorePattern.NvmeNamespaceKept | collector/diskstats_linux.go:38 | the NVMe namespace nvme0n1 is reported |
| Collector.MetricFor | collector/diskstats_linux.go:183-193 | the sample of entry i carries the device, the index, the raw text and descriptor i; it is a gauge exactly for io_now and is divided by 1000 exactly when its descriptor is read, write, I/O or weighted I/O time |
| Collector.DivisorFor | collector/diskstats_linux.go:188-192 | the divisor is 1000 exactly for the millisecond counters and 1 otherwise |
| Collector.DiskstatsCollector.constructor | collector/diskstats_linux.go:51-164 | the collector keeps the configured ignore pattern; its descriptor table is the 13-entry table |
| Collector.DiskstatsCollector.ReportDevice | collector/diskstats_linux.go:183-194 | each sample is an entry of the device under its own descriptor and divisor, its text is a number, and none repeats; it stops exactly when some entry is not a number and names that entry; otherwise every entry is reported |
| Collector.DiskstatsCollector.ReportTable | collector/diskstats_linux.go:173-196 | ScrapeOutcome: success exactly when every device that is not ignored has 13 numeric entries; every sample reports a numeric entry of a device that is not ignored, and none repeats; every device with a sample is reported in full, except the device an invalid value stopped; on success every such entry is reported; an invalid-line error names a device that is not ignored and has the wrong count; an invalid-value error names a non-numeric entry of a 13-entry device that is not ignored |
| Collector.ReportedDevice | collector/diskstats_linux.go:183-195 | a device whose entries are all reported joins the visited devices, keeping the loop's invariant |
| Collector.StopAtInvalidLine | collector/diskstats_linux.go:179-181 | a device with the wrong count stops the scrape with the samples of the fully reported devices before it |
| Collector.StopAtInvalidValue | collector/diskstats_linux.go:184-187 | a non-numeric entry stops the scrape; only that device can be partly reported |
| Collector.FinishedScrape | collector/diskstats_linux.go:196 | once every device is visited the scrape succeeds with every entry of every kept device reported |
| Collector.DiskstatsCollector.Update | collector/diskstats_linux.go:166-197 | a failed parse reports nothing and returns that parse error; otherwise the outcome over the parsed table is ScrapeOutcome |
| Collector.IgnoredDeviceSilent | collector/diskstats_linux.go:174-177 | an ignored device gets no sample and never causes an invalid-line error |
| Collector.DeviceReportedInFull | collector/diskstats_linux.go:179-194 | after a successful scrape each device that is not ignored has 13 entries, and its samples carry exactly its entry indices, each once |
| DiskStatsExample.SdaBytesRead | collector/diskstats_linux.go:234-238 | 2000 sectors read convert to "1024000" bytes |
| DiskStatsExample.SdaBytesWritten | collector/diskstats_linux.go:240-244 | 1000 sectors written convert to "512000" bytes |
| DiskStatsExample.SdaExample | collector/diskstats_linux.go:218-248 | an sda line, with any spacing, parses to its 11 raw entries plus the two byte counts |
| DiskStatsExample.SingleLineFile | collector/diskstats_linux.go:218-248 | a one-line file parses to a table holding that line's device only |
| DiskStatsExample.ShortLineRejected | collector/diskstats_linux.go:226-228 | a line with only three fields makes the whole parse fail with an invalid-line error |
| DiskStatsExample.OneDeviceScrape | collector/diskstats_linux.go:173-195 | a single reported 13-entry device with numeric entries scrapes successfully and has every entry reported |
| DiskStatsExample.SdaScrape | collector/diskstats_linux.go:166-197 | the outcome Update promises for a file holding the sda line: the scrape succeeds and reports read time and write time divided by 1000, io_now as a gauge, and the derived bytes read |

## Left out

- Reading the file is left out: `procFilePath`, `os.Open` and `getDiskStats`. `Update` takes the file's lines as a parameter.
- Scanning lines with `bufio.Scanner` is left out: splitting on newlines, stripping a trailing carriage return, over-long lines, and the error `scanner.Err()` reports after the loop.
- Command-line flags (`kingpin`) are left out. The ignore pattern is a constructor parameter, and `IgnorePattern.IsIgnoredByDefault` is the flag's default.
- Regular expressions other than the default pattern are left out. A configured pattern is just a predicate on device names.
- The debug log line for an ignored device is left out.
- Prometheus internals are left out: the metric namespace prefix, `prometheus.NewDesc`, `mustNewConstMetric` and the channel. Samples are returned as a sequence of `Metric` values carrying the descriptor, device label, raw text and divisor.
- Collector.DiskstatsCollector.ReportDevice: `strconv.ParseFloat` is a predicate parameter `parseFloatOk` that says only whether the text is a number. The float value and the division by 1000.0 are not computed; the sample keeps the raw text and the divisor.
- The text of error messages is left out. Errors are datatype values carrying the offending line, device or value.
- Strings are sequences of characters. Decoding UTF-8, including how `strings.Fields` treats invalid bytes, is not modelled. White space is the Unicode White_Space set that `unicode.IsSpace` uses.
- Decimal.ParseUint64: the kind of `strconv.ParseUint`'s error (syntax or range) is dropped, since the source only checks whether there is one.
- Go's map iteration order is unspecified. The model picks the next device and entry arbitrarily, and every contract holds for every order. Which device stops a scrape that fails is therefore not determined.
- Registration of the collector (`init`, `registerCollector`) is left out.
