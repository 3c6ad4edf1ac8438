/**
 * The fingerprint map `generate_list` builds: a dictionary from the path of
 * every regular file met while walking the source tree to that file's
 * content digest. The walk and the digest are inputs; a Python dict keeps
 * its keys in insertion order, so a listing is an ordered key sequence
 * beside the map.
 */
module Fingerprints {

  type Path = string
  type Digest = string

  /** One path produced by walking the tree (`os.path.join` of a directory and a name) and whether it is a regular file. */
  datatype Entry = Entry(path: Path, isFile: bool)

  /** An insertion-ordered string-to-string dictionary. */
  datatype Listing = Listing(keys: seq<Path>, digests: map<Path, Digest>) {
    ghost predicate Valid() {
      && (forall i, j :: 0 <= i < j < |keys| ==> keys[i] != keys[j])
      && (forall k :: k in digests <==> k in keys)
    }
  }

  const EMPTY: Listing := Listing([], map[])

  /** `d[k] = v`: a new key goes last, an existing key keeps its place. */
  function Put(l: Listing, k: Path, v: Digest): (r: Listing)
    requires l.Valid()
    ensures r.Valid()
    ensures k in r.digests && r.digests[k] == v
    ensures forall q :: q != k ==> (q in r.digests <==> q in l.digests)
    ensures forall q :: q != k && q in l.digests ==> r.digests[q] == l.digests[q]
    ensures k in l.digests ==> r.keys == l.keys
    ensures k !in l.digests ==> r.keys == l.keys + [k]
  {
    Listing(if k in l.digests then l.keys else l.keys + [k], l.digests[k := v])
  }

  /** Some walked entry at `p` is a regular file. */
  predicate IsWalkedFile(walk: seq<Entry>, p: Path) {
    exists i :: 0 <= i < |walk| && walk[i].isFile && walk[i].path == p
  }

  /** The files of a walk are those of all but its last entry, and that entry when it is a file. */
  lemma WalkedFileSnoc(walk: seq<Entry>)
    requires walk != []
    ensures forall p :: IsWalkedFile(walk, p) <==>
      IsWalkedFile(walk[..|walk| - 1], p) || (walk[|walk| - 1].isFile && walk[|walk| - 1].path == p)
  {
    var before := walk[..|walk| - 1];
    forall p | IsWalkedFile(before, p)
      ensures IsWalkedFile(walk, p)
    {
      var i :| 0 <= i < |before| && before[i].isFile && before[i].path == p;
      assert walk[i] == before[i];
    }
    forall p | IsWalkedFile(walk, p)
      ensures IsWalkedFile(before, p) || (walk[|walk| - 1].isFile && walk[|walk| - 1].path == p)
    {
      var i :| 0 <= i < |walk| && walk[i].isFile && walk[i].path == p;
      if i < |before| {
        assert before[i] == walk[i];
      }
    }
  }

  /**
   * The dictionary `generate_list` returns: the walk's regular files in
   * walk order, each mapped to its digest (see `FingerprintFiles`).
   */
  function Fingerprint(walk: seq<Entry>, digest: Path -> Digest): (r: Listing)
    ensures r.Valid()
    decreases |walk|
  {
    if walk == [] then EMPTY
    else
      var r := Fingerprint(walk[..|walk| - 1], digest);
      var e := walk[|walk| - 1];
      if e.isFile then Put(r, e.path, digest(e.path)) else r
  }

  /**
   * A key for a path exactly when some walked entry at that path is a
   * regular file (directories never become keys), each key mapped to the
   * digest of its file.
   */
  lemma {:induction false} FingerprintFiles(walk: seq<Entry>, digest: Path -> Digest)
    ensures forall p :: p in Fingerprint(walk, digest).digests <==> IsWalkedFile(walk, p)
    ensures forall p :: p in Fingerprint(walk, digest).digests ==> Fingerprint(walk, digest).digests[p] == digest(p)
    decreases |walk|
  {
    if walk != [] {
      FingerprintFiles(walk[..|walk| - 1], digest);
      WalkedFileSnoc(walk);
    }
  }

  /** `generate_list`: fill a dictionary while iterating over the walked paths. */
  method GenerateList(walk: seq<Entry>, digest: Path -> Digest) returns (r: Listing)
    ensures r == Fingerprint(walk, digest)
  {
    r := EMPTY;
    for i := 0 to |walk|
      invariant r == Fingerprint(walk[..i], digest)
    {
      assert walk[..i + 1][..i] == walk[..i];
      var f := walk[i];
      if f.isFile {
        r := Put(r, f.path, digest(f.path));
      }
    }
    assert walk[..|walk|] == walk;
  }

  /** The paths of the regular-file entries, in walk order. */
  function FilePaths(walk: seq<Entry>): seq<Path> {
    if walk == [] then []
    else FilePaths(walk[..|walk| - 1]) + (if walk[|walk| - 1].isFile then [walk[|walk| - 1].path] else [])
  }

  /** The walked entries with every directory left out. */
  function FilesOnly(walk: seq<Entry>): (r: seq<Entry>)
    ensures forall e :: e in r ==> e.isFile
  {
    if walk == [] then []
    else FilesOnly(walk[..|walk| - 1]) + (if walk[|walk| - 1].isFile then [walk[|walk| - 1]] else [])
  }

  /**
   * A walk never yields the same path twice, and then the keys of the
   * listing are the file paths in the order the walk met them.
   */
  lemma {:induction false} FingerprintOrder(walk: seq<Entry>, digest: Path -> Digest)
    requires forall i, j :: 0 <= i < j < |walk| ==> walk[i].path != walk[j].path
    ensures Fingerprint(walk, digest).keys == FilePaths(walk)
    decreases |walk|
  {
    if walk != [] {
      var before := walk[..|walk| - 1];
      var e := walk[|walk| - 1];
      FingerprintOrder(before, digest);
      if e.isFile {
        FingerprintFiles(before, digest);
        assert !IsWalkedFile(before, e.path);
      }
    }
  }

  /**
   * Directory entries play no part: the listing of a walk equals the
   * listing of its file entries alone, keys, order and digests.
   */
  lemma {:induction false} FingerprintIgnoresDirectories(walk: seq<Entry>, digest: Path -> Digest)
    ensures Fingerprint(walk, digest) == Fingerprint(FilesOnly(walk), digest)
    decreases |walk|
  {
    if walk != [] {
      var before := walk[..|walk| - 1];
      var e := walk[|walk| - 1];
      FingerprintIgnoresDirectories(before, digest);
      var f := FilesOnly(walk);
      if e.isFile {
        assert f == FilesOnly(before) + [e];
        assert f[..|f| - 1] == FilesOnly(before) && f[|f| - 1] == e;
        assert Fingerprint(f, digest) == Put(Fingerprint(FilesOnly(before), digest), e.path, digest(e.path));
      } else {
        assert f == FilesOnly(before);
      }
    }
  }
}
