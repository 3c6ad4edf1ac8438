/**
 * `tarfiles`: the archive a run writes, reduced to its file name and the
 * ordered list of paths added to it. The tar and gzip stream format is not
 * modelled.
 */
module Archiver {
  import opened Text
  import opened Fingerprints

  datatype Archive = Archive(name: string, members: seq<Path>)

  /** `destination + '/snapshot_' + str(n) + '.tar.gz'`. */
  function ArchiveName(destination: string, n: nat): string {
    destination + "/snapshot_" + NatToString(n) + ".tar.gz"
  }

  /**
   * `tarfiles`: open the archive for number `n` and add every listed name,
   * once each, in list order.
   */
  method TarFiles(listOfFiles: seq<Path>, destination: string, n: nat) returns (tar: Archive)
    ensures tar.name == ArchiveName(destination, n)
    ensures tar.members == listOfFiles
  {
    tar := Archive(ArchiveName(destination, n), []);
    for i := 0 to |listOfFiles|
      invariant tar.name == ArchiveName(destination, n)
      invariant tar.members == listOfFiles[..i]
    {
      tar := tar.(members := tar.members + [listOfFiles[i]]);
    }
  }

  /** Archives of different numbers in one destination have different names. */
  lemma ArchiveNameInjective(destination: string, m: nat, n: nat)
    ensures ArchiveName(destination, m) == ArchiveName(destination, n) ==> m == n
  {
    var prefix := destination + "/snapshot_";
    var a, b := ArchiveName(destination, m), ArchiveName(destination, n);
    if a == b {
      assert a[|prefix|..|a| - 7] == NatToString(m);
      assert b[|prefix|..|b| - 7] == NatToString(n);
      NatToStringInjective(m, n);
    }
  }
}
