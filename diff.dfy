/**
 * The change set between the loaded listing and the current one, and the
 * list of paths `generate_tar_list` derives from it. The change set plays
 * the part of the `explicit`-syntax diff the code reads: a key is present
 * only when its collection is non-empty, and no key at all means "no
 * difference".
 */
module Differ {
  import opened Wrappers
  import opened Fingerprints

  /** The `$insert`, `$update` and `$delete` keys of the diff; `None` is an absent key. */
  datatype ChangeSet = ChangeSet(insert: Option<seq<Path>>, update: Option<seq<Path>>, delete: Option<seq<Path>>)

  /** Iterating over a key of the diff: an absent key contributes nothing. */
  function Entries(c: Option<seq<Path>>): seq<Path> {
    if c.Some? then c.value else []
  }

  /** A collection is stored under its key only when it is non-empty. */
  function Present(s: seq<Path>): (c: Option<seq<Path>>)
    ensures Entries(c) == s && c != Some([])
  {
    if s == [] then None else Some(s)
  }

  /** `not snapshot_diff`: the diff has no key at all. */
  predicate IsEmpty(d: ChangeSet) {
    d.insert.None? && d.update.None? && d.delete.None?
  }

  predicate Distinct(s: seq<Path>) {
    forall i, j :: 0 <= i < j < |s| ==> s[i] != s[j]
  }

  /** The elements of `keys` that satisfy `keep`, in their order. */
  function Select(keys: seq<Path>, keep: Path -> bool): (r: seq<Path>)
    ensures forall p :: p in r <==> p in keys && keep(p)
  {
    if keys == [] then []
    else (if keep(keys[0]) then [keys[0]] else []) + Select(keys[1..], keep)
  }

  /** Selecting from a list without repeats gives a list without repeats. */
  lemma {:induction false} SelectDistinct(keys: seq<Path>, keep: Path -> bool)
    requires Distinct(keys)
    ensures Distinct(Select(keys, keep))
  {
    if keys != [] {
      assert keys[0] !in keys[1..];
      SelectDistinct(keys[1..], keep);
    }
  }

  /** Nothing is selected exactly when no element is kept. */
  lemma {:induction false} SelectEmpty(keys: seq<Path>, keep: Path -> bool)
    ensures Select(keys, keep) == [] <==> forall p :: p in keys ==> !keep(p)
  {
    if keys != [] {
      SelectEmpty(keys[1..], keep);
    }
  }

  lemma {:induction false} SelectConcat(s: seq<Path>, t: seq<Path>, keep: Path -> bool)
    ensures Select(s + t, keep) == Select(s, keep) + Select(t, keep)
  {
    if s == [] {
      assert s + t == t;
    } else {
      var u := s + t;
      assert u[0] == s[0] && u[1..] == s[1..] + t;
      SelectConcat(s[1..], t, keep);
      var head := if keep(s[0]) then [s[0]] else [];
      assert Select(u, keep) == head + (Select(s[1..], keep) + Select(t, keep));
      assert Select(s, keep) == head + Select(s[1..], keep);
    }
  }

  lemma {:induction false} SelectAll(s: seq<Path>, keep: Path -> bool)
    requires forall p :: p in s ==> keep(p)
    ensures Select(s, keep) == s
  {
    if s != [] {
      SelectAll(s[1..], keep);
    }
  }

  /** The selection of a distinct list that keeps exactly one of its paths. */
  lemma {:induction false} SelectOnly(keys: seq<Path>, keep: Path -> bool, x: Path)
    requires Distinct(keys) && x in keys && keep(x)
    requires forall q :: q in keys && keep(q) ==> q == x
    ensures Select(keys, keep) == [x]
  {
    if keys[0] == x {
      assert x !in keys[1..];
      SelectEmpty(keys[1..], keep);
    } else {
      assert Distinct(keys[1..]);
      SelectOnly(keys[1..], keep, x);
    }
  }

  /** The current paths the previous listing lacks, in current order. */
  function Inserted(previous: Listing, current: Listing): (r: seq<Path>)
    requires previous.Valid() && current.Valid()
    ensures forall p :: p in r <==> p in current.digests && p !in previous.digests
    ensures Distinct(r)
    ensures r == [] <==> forall p :: p in current.digests ==> p in previous.digests
  {
    var keep := p => p !in previous.digests;
    SelectDistinct(current.keys, keep);
    SelectEmpty(current.keys, keep);
    Select(current.keys, keep)
  }

  /** The paths of both listings whose digests differ, in current order. */
  function Updated(previous: Listing, current: Listing): (r: seq<Path>)
    requires previous.Valid() && current.Valid()
    ensures forall p :: p in r <==>
      p in current.digests && p in previous.digests && current.digests[p] != previous.digests[p]
    ensures Distinct(r)
    ensures r == [] <==>
      forall p :: p in current.digests && p in previous.digests ==> current.digests[p] == previous.digests[p]
  {
    var keep := p => p in current.digests && p in previous.digests && current.digests[p] != previous.digests[p];
    SelectDistinct(current.keys, keep);
    SelectEmpty(current.keys, keep);
    Select(current.keys, keep)
  }

  /** The previous paths the current listing lacks, in previous order. */
  function Deleted(previous: Listing, current: Listing): (r: seq<Path>)
    requires previous.Valid() && current.Valid()
    ensures forall p :: p in r <==> p in previous.digests && p !in current.digests
    ensures Distinct(r)
    ensures r == [] <==> forall p :: p in previous.digests ==> p in current.digests
  {
    var keep := p => p !in current.digests;
    SelectDistinct(previous.keys, keep);
    SelectEmpty(previous.keys, keep);
    Select(previous.keys, keep)
  }

  /**
   * The diff of the loaded listing against the current one: inserted are
   * the current paths the previous listing lacks, updated the paths in both
   * whose digests differ, both in current order; deleted are the previous
   * paths the current listing lacks, in previous order.
   */
  function Classify(previous: Listing, current: Listing): (d: ChangeSet)
    requires previous.Valid() && current.Valid()
    ensures forall p :: p in Entries(d.insert) <==> p in current.digests && p !in previous.digests
    ensures forall p :: p in Entries(d.update) <==>
      p in current.digests && p in previous.digests && current.digests[p] != previous.digests[p]
    ensures forall p :: p in Entries(d.delete) <==> p in previous.digests && p !in current.digests
    ensures Distinct(Entries(d.insert)) && Distinct(Entries(d.update)) && Distinct(Entries(d.delete))
    ensures d.insert != Some([]) && d.update != Some([]) && d.delete != Some([])
  {
    ChangeSet(Present(Inserted(previous, current)), Present(Updated(previous, current)), Present(Deleted(previous, current)))
  }

  /**
   * The diff is empty exactly when both listings hold the same paths with
   * the same digests; in particular a listing diffed against itself is empty.
   */
  lemma ClassifyEmptyIff(previous: Listing, current: Listing)
    requires previous.Valid() && current.Valid()
    ensures IsEmpty(Classify(previous, current)) <==> previous.digests == current.digests
  {
    NoChangesIff(previous, current);
  }

  lemma NoChangesIff(previous: Listing, current: Listing)
    requires previous.Valid() && current.Valid()
    ensures Inserted(previous, current) == [] && Updated(previous, current) == [] && Deleted(previous, current) == []
        <==> previous.digests == current.digests
  {
    if Inserted(previous, current) == [] && Updated(previous, current) == [] && Deleted(previous, current) == [] {
      SameOfNoChanges(previous, current, Inserted(previous, current), Updated(previous, current), Deleted(previous, current));
    }
  }

  lemma SameOfNoChanges(previous: Listing, current: Listing, ins: seq<Path>, upd: seq<Path>, del: seq<Path>)
    requires previous.Valid() && current.Valid()
    requires ins == Inserted(previous, current) && upd == Updated(previous, current) && del == Deleted(previous, current)
    requires ins == [] && upd == [] && del == []
    ensures previous.digests == current.digests
  {
    var pd, cd := previous.digests, current.digests;
    assert pd.Keys == cd.Keys by {
      assert forall p :: p in cd ==> p in pd;
      assert forall p :: p in pd ==> p in cd;
    }
    assert forall p :: p in cd ==> pd[p] == cd[p];
  }

  /** Both listings' union, the added paths being new. */
  function Extend(a: Listing, b: Listing): Listing {
    Listing(a.keys + b.keys, a.digests + b.digests)
  }

  lemma ExtendValid(a: Listing, b: Listing)
    requires a.Valid() && b.Valid() && a.digests.Keys !! b.digests.Keys
    ensures Extend(a, b).Valid()
  {
    var c := Extend(a, b);
    forall i, j | 0 <= i < j < |c.keys|
      ensures c.keys[i] != c.keys[j]
    {
      if i < |a.keys| && j >= |a.keys| {
        assert c.keys[i] in a.digests && c.keys[j] in b.digests;
      }
    }
  }

  /** Adding paths the previous listing lacks reports exactly those paths as inserted, in order. */
  lemma ClassifyExtension(a: Listing, b: Listing)
    requires a.Valid() && b.Valid() && a.digests.Keys !! b.digests.Keys
    ensures Extend(a, b).Valid()
    ensures Classify(a, Extend(a, b)) == ChangeSet(Present(b.keys), None, None)
  {
    ExtendValid(a, b);
    ExtensionInserted(a, b);
    ExtensionKeepsOld(a, b);
  }

  lemma ExtensionInserted(a: Listing, b: Listing)
    requires a.Valid() && b.Valid() && a.digests.Keys !! b.digests.Keys && Extend(a, b).Valid()
    ensures Inserted(a, Extend(a, b)) == b.keys
  {
    var ins := p => p !in a.digests;
    SelectEmpty(a.keys, ins);
    SelectConcat(a.keys, b.keys, ins);
    SelectAll(b.keys, ins);
  }

  lemma ExtensionKeepsOld(a: Listing, b: Listing)
    requires a.Valid() && b.Valid() && a.digests.Keys !! b.digests.Keys && Extend(a, b).Valid()
    ensures Updated(a, Extend(a, b)) == [] && Deleted(a, Extend(a, b)) == []
  {
    var c := Extend(a, b);
    assert forall p :: p in a.digests ==> p in c.digests && c.digests[p] == a.digests[p];
  }

  /** Changing the digest of one path reports exactly that path as updated. */
  lemma ClassifyOneChanged(a: Listing, p: Path, v: Digest)
    requires a.Valid() && p in a.digests && a.digests[p] != v
    ensures Listing(a.keys, a.digests[p := v]).Valid()
    ensures Classify(a, Listing(a.keys, a.digests[p := v])) == ChangeSet(None, Some([p]), None)
  {
    var b := Listing(a.keys, a.digests[p := v]);
    assert b.Valid();
    OneChangedParts(a, b, p);
  }

  lemma OneChangedParts(a: Listing, b: Listing, p: Path)
    requires a.Valid() && b.Valid() && a.keys == b.keys && p in a.digests
    requires b.digests == a.digests[p := b.digests[p]] && a.digests[p] != b.digests[p]
    ensures Inserted(a, b) == [] && Updated(a, b) == [p] && Deleted(a, b) == []
  {
    SelectOnly(a.keys, q => q in b.digests && q in a.digests && b.digests[q] != a.digests[q], p);
  }

  /** Removing one path reports exactly that path as deleted. */
  lemma ClassifyOneRemoved(a: Listing, p: Path)
    requires a.Valid() && p in a.digests
    ensures Listing(Select(a.keys, q => q != p), a.digests - {p}).Valid()
    ensures Classify(a, Listing(Select(a.keys, q => q != p), a.digests - {p})) == ChangeSet(None, None, Some([p]))
  {
    var b := Listing(Select(a.keys, q => q != p), a.digests - {p});
    assert b.Valid() by {
      SelectDistinct(a.keys, q => q != p);
      assert Distinct(b.keys);
      assert forall k :: k in b.digests <==> k in b.keys;
    }
    OneRemovedParts(a, b, p);
  }

  lemma OneRemovedParts(a: Listing, b: Listing, p: Path)
    requires a.Valid() && b.Valid() && p in a.digests && b.digests == a.digests - {p}
    ensures Inserted(a, b) == [] && Updated(a, b) == [] && Deleted(a, b) == [p]
  {
    SelectOnly(a.keys, q => q !in b.digests, p);
  }

  /** What `generate_tar_list` returns for a diff. */
  function TarList(d: ChangeSet): seq<Path> {
    Entries(d.insert) + Entries(d.update)
  }

  /**
   * `generate_tar_list`: the `$insert` entries in order, then the `$update`
   * entries in order, without removing repeats; `$delete` is never read.
   */
  method GenerateTarList(d: ChangeSet) returns (tarlist: seq<Path>)
    ensures tarlist == Entries(d.insert) + Entries(d.update)
    ensures |tarlist| == |Entries(d.insert)| + |Entries(d.update)|
    ensures d.insert.None? && d.update.None? ==> tarlist == []
  {
    tarlist := [];
    if d.insert.Some? {
      for i := 0 to |d.insert.value|
        invariant tarlist == d.insert.value[..i]
      {
        tarlist := tarlist + [d.insert.value[i]];
      }
    }
    ghost var inserted := tarlist;
    assert inserted == Entries(d.insert);
    if d.update.Some? {
      for i := 0 to |d.update.value|
        invariant tarlist == inserted + d.update.value[..i]
      {
        tarlist := tarlist + [d.update.value[i]];
      }
    }
  }

  /**
   * For a diff of two listings the archive list holds each added or
   * changed path exactly once and never a deleted path.
   */
  lemma TarListOfClassify(previous: Listing, current: Listing)
    requires previous.Valid() && current.Valid()
    ensures var d := Classify(previous, current);
      && Distinct(TarList(d))
      && (forall p :: p in TarList(d) <==>
            p in current.digests && (p !in previous.digests || previous.digests[p] != current.digests[p]))
      && (forall p :: p in Entries(d.delete) ==> p !in TarList(d))
  {
    var d := Classify(previous, current);
    var ins, upd := Entries(d.insert), Entries(d.update);
    forall i, j | 0 <= i < j < |TarList(d)|
      ensures TarList(d)[i] != TarList(d)[j]
    {
      if i < |ins| && j >= |ins| {
        assert TarList(d)[i] in ins && TarList(d)[j] in upd;
      }
    }
  }
}
