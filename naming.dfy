/** The names init_data gives the files it creates under the `-p` directory. */
module Naming {
  import opened Decimal

  /** `%04d` of a non-negative value: its digits, padded on the left with zeros to width 4. */
  function Pad4(i: nat): (s: string)
    ensures AllDigits(s) && |s| >= 4
  {
    var d := NatDigits(i);
    if |d| >= 4 then d else Zeros(4 - |d|) + d
  }

  /** `%s/%04d.bcf`: the subset file of reader i. */
  function OutputName(prefix: string, i: nat): string
  {
    prefix + "/" + Pad4(i) + ".bcf"
  }

  /** `%s/README.txt`: the log of the command line and of the file names. */
  function ReadmeName(prefix: string): string
  {
    prefix + "/README.txt"
  }

  /** `%s/sites.txt`: the sites stream. */
  function SitesName(prefix: string): string
  {
    prefix + "/sites.txt"
  }

  /** Reader numbers below 10000 take exactly four digits. */
  lemma Pad4Width(i: nat)
    requires i < 10000
    ensures |Pad4(i)| == 4
  {
    assert Pow10(4) == 10000;
    NatDigitsLength(i, 4);
  }

  /** The padded digits spell the reader number. */
  lemma Pad4Value(i: nat)
    ensures DigitsValue(Pad4(i)) == i
  {
    var d := NatDigits(i);
    NatDigitsValue(i);
    if |d| < 4 {
      ZerosValue(4 - |d|, d);
    }
  }

  /** Distinct readers get distinct subset files, for any number of readers. */
  lemma OutputNameInjective(prefix: string, i: nat, j: nat)
    requires OutputName(prefix, i) == OutputName(prefix, j)
    ensures i == j
  {
    var a := OutputName(prefix, i);
    var b := OutputName(prefix, j);
    assert |Pad4(i)| == |Pad4(j)|;
    var lo := |prefix| + 1;
    assert a[lo..|a| - 4] == Pad4(i);
    assert b[lo..|b| - 4] == Pad4(j);
    Pad4Value(i);
    Pad4Value(j);
  }

  /** No subset file is the log or the sites file, and those two differ. */
  lemma NamesDistinct(prefix: string, i: nat)
    ensures OutputName(prefix, i) != ReadmeName(prefix)
    ensures OutputName(prefix, i) != SitesName(prefix)
    ensures ReadmeName(prefix) != SitesName(prefix)
  {
    var a := OutputName(prefix, i);
    assert a[|a| - 1] == 'f';
    assert ReadmeName(prefix)[|ReadmeName(prefix)| - 1] == 't';
    assert SitesName(prefix)[|SitesName(prefix)| - 1] == 't';
    assert ReadmeName(prefix)[|prefix| + 1] == 'R';
    assert SitesName(prefix)[|prefix| + 1] == 's';
  }
}
