/**
 * The thirteen metric descriptors of the disk-statistics collector, in the
 * order of the keys of a device's entry: descriptor i describes entry i.
 */
module Descriptors {

  /** How the value of a metric behaves over time. */
  datatype ValueType = CounterValue | GaugeValue

  /** The thirteen descriptors, one per quantity the kernel reports for a device. */
  datatype Desc =
    | ReadsCompleted | ReadsMerged | ReadSectors | ReadTime
    | WritesCompleted | WritesMerged | WrittenSectors | WriteTime
    | IoNow | IoTime | IoTimeWeighted
    | ReadBytes | WrittenBytes

  /** The number of entries a device must have to be reported. */
  const DescriptorCount: nat := 13

  /** Index of io_now, the only quantity that is not a running total. */
  const IoNowIndex: nat := 8

  /**
   * The four entries the kernel counts in milliseconds (read time, write
   * time, I/O time and weighted I/O time), reported in seconds.
   */
  predicate InMilliseconds(i: int) {
    i == 3 || i == 7 || i == 9 || i == 10
  }

  /** The descriptor list, in entry order. */
  function DescriptorTable(): (r: seq<Desc>)
    ensures |r| == DescriptorCount
    ensures forall i :: 0 <= i < |r| ==> (Kind(r[i]) == GaugeValue <==> i == IoNowIndex)
    ensures forall i :: 0 <= i < |r| ==> (InMilliseconds(i) <==> r[i] in {ReadTime, WriteTime, IoTime, IoTimeWeighted})
    ensures forall i, j :: 0 <= i < j < |r| ==> r[i] != r[j]
  {
    [ ReadsCompleted, ReadsMerged, ReadSectors, ReadTime,
      WritesCompleted, WritesMerged, WrittenSectors, WriteTime,
      IoNow, IoTime, IoTimeWeighted,
      ReadBytes, WrittenBytes ]
  }

  function Kind(d: Desc): ValueType {
    if d == IoNow then GaugeValue else CounterValue
  }

  /** The metric name below the "disk" subsystem. */
  function Name(d: Desc): string {
    match d
    case ReadsCompleted => "reads_completed_total"
    case ReadsMerged => "reads_merged_total"
    case ReadSectors => "read_sectors_total"
    case ReadTime => "read_time_seconds_total"
    case WritesCompleted => "writes_completed_total"
    case WritesMerged => "writes_merged_total"
    case WrittenSectors => "written_sectors_total"
    case WriteTime => "write_time_seconds_total"
    case IoNow => "io_now"
    case IoTime => "io_time_seconds_total"
    case IoTimeWeighted => "io_time_weighted_seconds_total"
    case ReadBytes => "read_bytes_total"
    case WrittenBytes => "written_bytes_total"
  }

  /** The help text, after the kernel's iostats documentation. */
  function Help(d: Desc): string {
    match d
    case ReadsCompleted => "The total number of reads completed successfully."
    case ReadsMerged => "The total number of reads merged. See https://www.kernel.org/doc/Documentation/iostats.txt."
    case ReadSectors => "The total number of sectors read successfully."
    case ReadTime => "The total number of milliseconds spent by all reads."
    case WritesCompleted => "The total number of writes completed successfully."
    case WritesMerged => "The number of writes merged. See https://www.kernel.org/doc/Documentation/iostats.txt."
    case WrittenSectors => "The total number of sectors written successfully."
    case WriteTime => "This is the total number of seconds spent by all writes."
    case IoNow => "The number of I/Os currently in progress."
    case IoTime => "Total seconds spent doing I/Os."
    case IoTimeWeighted => "The weighted # of seconds spent doing I/Os. See https://www.kernel.org/doc/Documentation/iostats.txt."
    case ReadBytes => "The total number of bytes read successfully."
    case WrittenBytes => "The total number of bytes written successfully."
  }

  /** No two descriptors share a metric name. */
  lemma NamesDistinct(a: Desc, b: Desc)
    requires a != b
    ensures Name(a) != Name(b)
  {
  }
}
