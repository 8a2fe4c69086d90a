/**
 * The default pattern of devices the collector leaves out,
 * ^(ram|loop|fd|(h|s|v|xv)d[a-z]|nvme\d+n\d+p)\d+$, matched against a whole
 * device name. The pattern is written out by hand twice: as the regular
 * expression reads (some split into an alternative and a digit run), and as
 * a decision procedure that peels the trailing digits off first.
 */
module IgnorePattern {
  import opened Decimal

  /** [a-z] */
  predicate IsLower(c: char) {
    'a' <= c <= 'z'
  }

  /** \d+ : \d is the ASCII digits only. */
  predicate IsDigitRun(s: string) {
    s != [] && AllDigits(s)
  }

  /** (h|s|v|xv)d[a-z]: an IDE, SCSI, virtio or Xen disk without its partition. */
  predicate IsDriveLetterDisk(p: string) {
    || (|p| == 3 && (p[0] == 'h' || p[0] == 's' || p[0] == 'v') && p[1] == 'd' && IsLower(p[2]))
    || (|p| == 4 && p[0] == 'x' && p[1] == 'v' && p[2] == 'd' && IsLower(p[3]))
  }

  /** nvme\d+n\d+p, as the expression reads: some split around an 'n'. */
  ghost predicate IsNvmePartitionPrefix(p: string) {
    && 5 <= |p| && p[..4] == "nvme" && p[|p| - 1] == 'p'
    && exists i :: 4 < i < |p| - 1 && p[i] == 'n' && IsDigitRun(p[4..i]) && IsDigitRun(p[i + 1..|p| - 1])
  }

  /** The alternatives of the group in front of the final \d+. */
  ghost predicate IsAlternative(p: string) {
    p == "ram" || p == "loop" || p == "fd" || IsDriveLetterDisk(p) || IsNvmePartitionPrefix(p)
  }

  /** The anchored expression: the whole name is an alternative followed by at least one digit. */
  ghost predicate MatchesDefaultPattern(s: string) {
    exists k :: 0 <= k < |s| && IsAlternative(s[..k]) && AllDigits(s[k..])
  }

  /** Where the longest run of digits at the end of s begins. */
  function TrailingDigitsStart(s: string): (k: nat)
    ensures k <= |s| && AllDigits(s[k..])
    ensures k > 0 ==> !IsDigit(s[k - 1])
  {
    if s == [] || !IsDigit(s[|s| - 1]) then |s|
    else
      var k := TrailingDigitsStart(s[..|s| - 1]);
      assert s[k..] == s[..|s| - 1][k..] + [s[|s| - 1]];
      k
  }

  /** Where the longest run of digits at the start of s ends. */
  function LeadingDigitsEnd(s: string): (k: nat)
    ensures k <= |s| && AllDigits(s[..k])
    ensures k < |s| ==> !IsDigit(s[k])
  {
    if s == [] || !IsDigit(s[0]) then 0
    else
      var k := LeadingDigitsEnd(s[1..]);
      assert s[..k + 1] == [s[0]] + s[1..][..k];
      k + 1
  }

  /** nvme\d+n\d+p decided: the first run of digits after "nvme" must stop at the 'n'. */
  predicate IsNvmePartition(p: string) {
    && 5 <= |p| && p[..4] == "nvme" && p[|p| - 1] == 'p'
    && var i := 4 + LeadingDigitsEnd(p[4..]);
       4 < i < |p| - 1 && p[i] == 'n' && IsDigitRun(p[i + 1..|p| - 1])
  }

  /** The default ignored-devices pattern, decided. */
  predicate IsIgnoredByDefault(dev: string)
    ensures IsIgnoredByDefault(dev) ==> |dev| >= 3 && IsDigit(dev[|dev| - 1])
  {
    var k := TrailingDigitsStart(dev);
    var p := dev[..k];
    k < |dev| && (p == "ram" || p == "loop" || p == "fd" || IsDriveLetterDisk(p) || IsNvmePartition(p))
  }

  /** The digit run that TrailingDigitsStart finds is the only one a non-digit can stop. */
  lemma {:induction false} TrailingDigitsStartUnique(s: string, k: nat)
    requires k <= |s| && AllDigits(s[k..]) && (k > 0 ==> !IsDigit(s[k - 1]))
    ensures TrailingDigitsStart(s) == k
    decreases |s|
  {
    if s != [] && IsDigit(s[|s| - 1]) {
      assert k < |s|;
      var t := s[..|s| - 1];
      assert t[k..] == s[k..|s| - 1];
      TrailingDigitsStartUnique(t, k);
    }
  }

  lemma {:induction false} LeadingDigitsEndUnique(s: string, k: nat)
    requires k <= |s| && AllDigits(s[..k]) && (k < |s| ==> !IsDigit(s[k]))
    ensures LeadingDigitsEnd(s) == k
    decreases |s|
  {
    if s != [] && IsDigit(s[0]) {
      assert k > 0;
      assert s[1..][..k - 1] == s[1..k];
      LeadingDigitsEndUnique(s[1..], k - 1);
    }
  }

  lemma NvmePartitionDecided(p: string)
    ensures IsNvmePartition(p) <==> IsNvmePartitionPrefix(p)
  {
    if IsNvmePartitionPrefix(p) {
      var i :| 4 < i < |p| - 1 && p[i] == 'n' && IsDigitRun(p[4..i]) && IsDigitRun(p[i + 1..|p| - 1]);
      assert p[4..][..i - 4] == p[4..i];
      LeadingDigitsEndUnique(p[4..], i - 4);
    }
    if IsNvmePartition(p) {
      var i := 4 + LeadingDigitsEnd(p[4..]);
      assert p[4..][..i - 4] == p[4..i];
    }
  }

  /** Every alternative ends in a letter, so it cannot absorb digits of the final run. */
  lemma AlternativeEndsInLetter(p: string)
    requires IsAlternative(p)
    ensures p != [] && !IsDigit(p[|p| - 1])
  {
  }

  lemma DecidedMatches(dev: string)
    requires IsIgnoredByDefault(dev)
    ensures MatchesDefaultPattern(dev)
  {
    var k := TrailingDigitsStart(dev);
    NvmePartitionDecided(dev[..k]);
    assert IsAlternative(dev[..k]);
  }

  lemma MatchDecided(dev: string)
    requires MatchesDefaultPattern(dev)
    ensures IsIgnoredByDefault(dev)
  {
    var j :| 0 <= j < |dev| && IsAlternative(dev[..j]) && AllDigits(dev[j..]);
    AlternativeEndsInLetter(dev[..j]);
    assert j > 0 && dev[j - 1] == dev[..j][j - 1];
    TrailingDigitsStartUnique(dev, j);
    NvmePartitionDecided(dev[..j]);
  }

  /** The decision procedure accepts exactly the names the expression matches. */
  lemma IgnoredByDefaultIff(dev: string)
    ensures IsIgnoredByDefault(dev) <==> MatchesDefaultPattern(dev)
  {
    if IsIgnoredByDefault(dev) {
      DecidedMatches(dev);
    }
    if MatchesDefaultPattern(dev) {
      MatchDecided(dev);
    }
  }

  /** Names the default pattern leaves out, and names it keeps. */
  lemma WholeDisksKept()
    ensures !IsIgnoredByDefault("sda") && !IsIgnoredByDefault("loop") && !IsIgnoredByDefault("dm-0")
  {
  }

  lemma PartitionsIgnored()
    ensures IsIgnoredByDefault("sda1") && IsIgnoredByDefault("ram0") && IsIgnoredByDefault("loop12")
  {
  }

  lemma OddNamesKept()
    ensures !IsIgnoredByDefault("sdaa1") && !IsIgnoredByDefault("md127")
  {
    TrailingDigitsStartUnique("md127", 2);
    assert "md127"[..2] == "md";
  }

  lemma NvmePartitionIgnored()
    ensures IsIgnoredByDefault("nvme0n1p2")
  {
    TrailingDigitsStartUnique("nvme0n1p2", 8);
    assert "nvme0n1p2"[..8] == "nvme0n1p";
    assert "nvme0n1p"[4..] == "0n1p";
    LeadingDigitsEndUnique("0n1p", 1);
  }

  lemma NvmeNamespaceKept()
    ensures !IsIgnoredByDefault("nvme0n1")
  {
    TrailingDigitsStartUnique("nvme0n1", 6);
    assert "nvme0n1"[..6] == "nvme0n";
  }
}
