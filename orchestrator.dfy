/**
 * `main`: one run of the command, reduced to the effects it has on the
 * file system. The run's view of the outside world (which directories
 * exist, what `initial.json` is, what the `*.json` glob returns, which
 * listings can be loaded, the tree walk and the content digest) is an
 * input; its effects are a sequence of actions that ends with the process
 * exiting or raising.
 */
module Orchestrator {
  import opened Wrappers
  import opened Text
  import opened Fingerprints
  import opened Differ
  import opened Archiver
  import opened Snapshots

  /** What the listing directory holds under the name `initial.json`. */
  datatype InitialState = Missing | RegularFile | NotAFile

  datatype RunInputs = RunInputs(
    listDir: string,
    outputDir: string,
    sourceIsDir: bool,            // the source directory exists and is a directory
    outputIsDir: bool,            // likewise the archive destination
    listIsDir: bool,              // likewise the listing directory
    initial: InitialState,
    jsonFiles: seq<string>,       // `glob.glob(listfiles_dir + '/*.json')`, in the order returned
    store: map<string, Listing>,  // the listings `json.load` can read, by path
    walk: seq<Entry>)             // the paths `os.walk` yields under the source directory

  datatype Action =
    | WriteListing(path: string, listing: Listing)  // `json.dump` of a listing to `path`
    | WriteArchive(archive: Archive)                // `tarfiles`
    | Exit(message: Option<string>)                 // `sys.exit`, or the end of `main`
    | Raise(exception: Exception)                   // an uncaught exception ends the run

  predicate IsTerminal(a: Action) {
    a.Exit? || a.Raise?
  }

  predicate IsWrite(a: Action) {
    a.WriteListing? || a.WriteArchive?
  }

  /** All listings the run may load can be read back as dictionaries. */
  ghost predicate StoreValid(store: map<string, Listing>) {
    forall p :: p in store ==> store[p].Valid()
  }

  /** Which snapshot-number rule a run follows: the code's, or numeric record indices. */
  datatype NumberRule = AsWritten | ByIndex

  function Choose(rule: NumberRule, listDir: string, jsonFiles: seq<string>, readable: set<string>): (r: Result<Baseline, Exception>)
    ensures r.Success? ==> r.value.path in readable
  {
    match rule
    case AsWritten => SelectBaseline(listDir, jsonFiles, readable)
    case ByIndex => SelectByIndex(listDir, jsonFiles, readable)
  }

  const SOURCE_MISSING: string := "Source does not exist or is not a directory"
  const OUTPUT_MISSING: string := "Output does not exist or is not a directory"
  const LIST_MISSING: string := "Listfiles does not exist or is not a directory"

  function NotAFileMessage(listDir: string): string {
    "Initial listfile " + listDir + "/initial.json isn't a file"
  }

  /**
   * The effects of one run: the three directory checks, then either the
   * bootstrap (listing and archive number 0 of the whole tree), or the
   * refusal of an `initial.json` that is not a file, or the incremental
   * step: choose a baseline, diff the current listing against it, and when
   * anything differs write the archive of new and changed files and then
   * the new record.
   */
  function Plan(inp: RunInputs, digest: Path -> Digest, rule: NumberRule): (actions: seq<Action>)
    requires StoreValid(inp.store)
    ensures |actions| > 0 && IsTerminal(actions[|actions| - 1])
    ensures forall i :: 0 <= i < |actions| - 1 ==> !IsTerminal(actions[i])
  {
    if !inp.sourceIsDir then [Exit(Some(SOURCE_MISSING))]
    else if !inp.outputIsDir then [Exit(Some(OUTPUT_MISSING))]
    else if !inp.listIsDir then [Exit(Some(LIST_MISSING))]
    else
      var current := Fingerprint(inp.walk, digest);
      match inp.initial
      case Missing => BootstrapPlan(inp.listDir, inp.outputDir, current)
      case NotAFile => [Exit(Some(NotAFileMessage(inp.listDir)))]
      case RegularFile =>
        IncrementalPlan(inp.listDir, inp.outputDir, inp.store, Choose(rule, inp.listDir, inp.jsonFiles, inp.store.Keys), current)
  }

  /** The bootstrap: `initial.json` gets the listing, archive number 0 every listed file. */
  function BootstrapPlan(listDir: string, outputDir: string, current: Listing): (actions: seq<Action>)
    ensures |actions| == 3 && IsTerminal(actions[2]) && !IsTerminal(actions[0]) && !IsTerminal(actions[1])
    ensures actions[0].WriteListing? && actions[0].listing == current
    ensures actions[1].WriteArchive? && actions[1].archive.members == current.keys
    ensures actions[2] == Exit(None)
  {
    [WriteListing(InitialName(listDir), current),
     WriteArchive(Archive(ArchiveName(outputDir, 0), current.keys)),
     Exit(None)]
  }

  /** An incremental run once the baseline has been chosen, or has raised. */
  function IncrementalPlan(listDir: string, outputDir: string, store: map<string, Listing>,
                           choice: Result<Baseline, Exception>, current: Listing): (actions: seq<Action>)
    requires StoreValid(store) && current.Valid()
    requires choice.Success? ==> choice.value.path in store
    ensures |actions| > 0 && IsTerminal(actions[|actions| - 1])
    ensures forall i :: 0 <= i < |actions| - 1 ==> !IsTerminal(actions[i])
    ensures actions[|actions| - 1].Raise? <==> choice.Failure?
    ensures choice.Failure? ==> |actions| == 1 && actions[0].exception == choice.error
  {
    match choice
    case Failure(e) => [Raise(e)]
    case Success(b) => ChangePlan(listDir, outputDir, b.number, Classify(store[b.path], current), current)
  }

  /** Nothing when the diff is empty; otherwise the archive, then the record, both numbered `n`. */
  function ChangePlan(listDir: string, outputDir: string, n: nat, d: ChangeSet, current: Listing): (actions: seq<Action>)
    ensures |actions| > 0 && IsTerminal(actions[|actions| - 1])
    ensures forall i :: 0 <= i < |actions| - 1 ==> !IsTerminal(actions[i])
    ensures actions[|actions| - 1] == Exit(None)
    ensures IsEmpty(d) <==> forall i :: 0 <= i < |actions| ==> !IsWrite(actions[i])
  {
    if IsEmpty(d) then [Exit(None)]
    else
      var actions := [WriteArchive(Archive(ArchiveName(outputDir, n), TarList(d))),
                      WriteListing(RecordName(listDir, n), current),
                      Exit(None)];
      assert IsWrite(actions[0]);
      actions
  }

  /** `main`, step by step as the code takes them, with the code's rule for the snapshot number. */
  method Run(inp: RunInputs, digest: Path -> Digest) returns (actions: seq<Action>)
    requires StoreValid(inp.store)
    ensures actions == Plan(inp, digest, AsWritten)
  {
    var snapshotNumber: nat := 0;
    if !inp.sourceIsDir {
      return [Exit(Some(SOURCE_MISSING))];
    }
    if !inp.outputIsDir {
      return [Exit(Some(OUTPUT_MISSING))];
    }
    if !inp.listIsDir {
      return [Exit(Some(LIST_MISSING))];
    }
    var initialPath := inp.listDir + "/initial.json";
    if inp.initial == Missing {
      var initialList := GenerateList(inp.walk, digest);
      actions := [WriteListing(initialPath, initialList)];
      var tar := TarFiles(initialList.keys, inp.outputDir, snapshotNumber);
      actions := actions + [WriteArchive(tar), Exit(None)];
      return;
    }
    if inp.initial == NotAFile {
      return [Exit(Some(NotAFileMessage(inp.listDir)))];
    }
    var choice := ChooseBaseline(inp.listDir, inp.jsonFiles, inp.store.Keys);
    if choice.Failure? {
      return [Raise(choice.error)];
    }
    var snapshot := inp.store[choice.value.path];
    var currentDir := GenerateList(inp.walk, digest);
    var snapshotDiff := Classify(snapshot, currentDir);
    if IsEmpty(snapshotDiff) {
      return [Exit(None)];
    }
    var tarlist := GenerateTarList(snapshotDiff);
    var tar := TarFiles(tarlist, inp.outputDir, choice.value.number);
    actions := [WriteArchive(tar), WriteListing(RecordName(inp.listDir, choice.value.number), currentDir), Exit(None)];
  }

  /** Nothing is written unless all three directories exist and `initial.json` is missing or a regular file. */
  lemma WritesNeedDirectories(inp: RunInputs, digest: Path -> Digest, rule: NumberRule, i: nat)
    requires StoreValid(inp.store)
    requires i < |Plan(inp, digest, rule)| && IsWrite(Plan(inp, digest, rule)[i])
    ensures inp.sourceIsDir && inp.outputIsDir && inp.listIsDir && inp.initial != NotAFile
  {
  }

  /** Every listing a run writes is the listing of the tree as walked now. */
  lemma WrittenListingIsCurrent(inp: RunInputs, digest: Path -> Digest, rule: NumberRule, i: nat)
    requires StoreValid(inp.store)
    requires i < |Plan(inp, digest, rule)| && Plan(inp, digest, rule)[i].WriteListing?
    ensures Plan(inp, digest, rule)[i].listing == Fingerprint(inp.walk, digest)
    ensures forall p :: p in Plan(inp, digest, rule)[i].listing.digests <==> IsWalkedFile(inp.walk, p)
  {
    FingerprintFiles(inp.walk, digest);
    var current := Fingerprint(inp.walk, digest);
    if inp.sourceIsDir && inp.outputIsDir && inp.listIsDir && inp.initial == RegularFile {
      var c := Choose(rule, inp.listDir, inp.jsonFiles, inp.store.Keys);
      assert Plan(inp, digest, rule) == IncrementalPlan(inp.listDir, inp.outputDir, inp.store, c, current);
      var b := c.value;
      var d := Classify(inp.store[b.path], current);
      assert Plan(inp, digest, rule) == ChangePlan(inp.listDir, inp.outputDir, b.number, d, current);
      ChangePlanNames(inp.listDir, inp.outputDir, b.number, d, current, i);
    }
  }

  /** Every archive member is a regular file of the walk, and appears only once. */
  lemma ArchivedFilesAreWalkedFiles(inp: RunInputs, digest: Path -> Digest, rule: NumberRule, i: nat)
    requires StoreValid(inp.store)
    requires i < |Plan(inp, digest, rule)| && Plan(inp, digest, rule)[i].WriteArchive?
    ensures Distinct(Plan(inp, digest, rule)[i].archive.members)
    ensures forall p :: p in Plan(inp, digest, rule)[i].archive.members ==> IsWalkedFile(inp.walk, p)
  {
    var current := Fingerprint(inp.walk, digest);
    FingerprintFiles(inp.walk, digest);
    if inp.sourceIsDir && inp.outputIsDir && inp.listIsDir && inp.initial == RegularFile {
      var c := Choose(rule, inp.listDir, inp.jsonFiles, inp.store.Keys);
      assert Plan(inp, digest, rule) == IncrementalPlan(inp.listDir, inp.outputDir, inp.store, c, current);
      var b := c.value;
      var d := Classify(inp.store[b.path], current);
      assert Plan(inp, digest, rule) == ChangePlan(inp.listDir, inp.outputDir, b.number, d, current);
      ChangePlanNames(inp.listDir, inp.outputDir, b.number, d, current, i);
      TarListOfClassify(inp.store[b.path], current);
    }
  }

  /**
   * The bootstrap run: `initial.json` gets the current listing, then the
   * archive numbered 0 gets every regular file of the tree, in walk order
   * (the walk never yields a path twice); the glob, the stored listings and
   * the number rule play no part.
   */
  lemma Bootstrap(inp: RunInputs, digest: Path -> Digest, rule: NumberRule)
    requires StoreValid(inp.store)
    requires inp.sourceIsDir && inp.outputIsDir && inp.listIsDir && inp.initial == Missing
    ensures var actions := Plan(inp, digest, rule);
      && |actions| == 3
      && actions[0] == WriteListing(InitialName(inp.listDir), Fingerprint(inp.walk, digest))
      && actions[1].WriteArchive? && actions[1].archive.name == ArchiveName(inp.outputDir, 0)
      && (forall p :: p in actions[1].archive.members <==> IsWalkedFile(inp.walk, p))
      && actions[2] == Exit(None)
    ensures (forall i, j :: 0 <= i < j < |inp.walk| ==> inp.walk[i].path != inp.walk[j].path) ==>
      Plan(inp, digest, rule)[1].archive.members == FilePaths(inp.walk)
    ensures Plan(inp, digest, rule) == Plan(inp.(jsonFiles := [], store := map[]), digest, AsWritten)
  {
    PlanOfBootstrap(inp, digest, rule);
    PlanOfBootstrap(inp.(jsonFiles := [], store := map[]), digest, AsWritten);
    FingerprintFiles(inp.walk, digest);
    if forall i, j :: 0 <= i < j < |inp.walk| ==> inp.walk[i].path != inp.walk[j].path {
      FingerprintOrder(inp.walk, digest);
    }
  }

  /**
   * An incremental run with a baseline: nothing is written when the tree
   * matches the baseline listing; otherwise the archive of exactly the new
   * and changed files is written first, then the record under the same
   * number, and the process ends normally.
   */
  lemma Incremental(inp: RunInputs, digest: Path -> Digest, rule: NumberRule, b: Baseline)
    requires StoreValid(inp.store)
    requires inp.sourceIsDir && inp.outputIsDir && inp.listIsDir && inp.initial == RegularFile
    requires Choose(rule, inp.listDir, inp.jsonFiles, inp.store.Keys) == Success(b)
    ensures b.path in inp.store
    ensures inp.store[b.path].digests == Fingerprint(inp.walk, digest).digests ==>
      Plan(inp, digest, rule) == [Exit(None)]
    ensures inp.store[b.path].digests != Fingerprint(inp.walk, digest).digests ==>
      var actions := Plan(inp, digest, rule);
      var previous, current := inp.store[b.path].digests, Fingerprint(inp.walk, digest).digests;
      && |actions| == 3
      && actions[0].WriteArchive? && actions[0].archive.name == ArchiveName(inp.outputDir, b.number)
      && (forall p :: p in actions[0].archive.members <==>
            p in current && (p !in previous || previous[p] != current[p]))
      && actions[1] == WriteListing(RecordName(inp.listDir, b.number), Fingerprint(inp.walk, digest))
      && actions[2] == Exit(None)
  {
    var current := Fingerprint(inp.walk, digest);
    ClassifyEmptyIff(inp.store[b.path], current);
    TarListOfClassify(inp.store[b.path], current);
  }

  /**
   * The ValueError of `listfiles.remove` ends a run whose glob misses
   * `initial.json` before anything is written, under either rule.
   */
  lemma MissingInitialInGlobRaises(inp: RunInputs, digest: Path -> Digest, rule: NumberRule)
    requires StoreValid(inp.store)
    requires inp.sourceIsDir && inp.outputIsDir && inp.listIsDir && inp.initial == RegularFile
    requires InitialName(inp.listDir) !in inp.jsonFiles
    ensures Plan(inp, digest, rule) == [Raise(ValueError)]
  {
    SelectBaselineRule(inp.listDir, inp.jsonFiles, inp.store.Keys);
  }

  /**
   * A baseline choice that raises (the IOError of an unreadable listing,
   * the IndexError of a name without digits, the ValueError of a glob
   * without `initial.json`) ends the run with that exception before
   * anything is written.
   */
  lemma ChoiceFailureRaises(inp: RunInputs, digest: Path -> Digest, rule: NumberRule, e: Exception)
    requires StoreValid(inp.store)
    requires inp.sourceIsDir && inp.outputIsDir && inp.listIsDir && inp.initial == RegularFile
    requires Choose(rule, inp.listDir, inp.jsonFiles, inp.store.Keys) == Failure(e)
    ensures Plan(inp, digest, rule) == [Raise(e)]
  {
  }

  /**
   * Under the code's rule the first run after the bootstrap, with a change,
   * writes archive number 0 again: the name the bootstrap used.
   */
  lemma FirstIncrementalReusesArchiveZero(inp: RunInputs, digest: Path -> Digest)
    requires StoreValid(inp.store)
    requires inp.sourceIsDir && inp.outputIsDir && inp.listIsDir && inp.initial == RegularFile
    requires inp.jsonFiles == [InitialName(inp.listDir)] && InitialName(inp.listDir) in inp.store
    requires inp.store[InitialName(inp.listDir)].digests != Fingerprint(inp.walk, digest).digests
    ensures Plan(inp, digest, AsWritten)[0].WriteArchive?
    ensures Plan(inp, digest, AsWritten)[0].archive.name == ArchiveName(inp.outputDir, 0)
    ensures Plan(inp, digest, AsWritten)[0].archive.name == Plan(inp.(initial := Missing), digest, AsWritten)[1].archive.name
  {
    FirstBaseline(inp.listDir, inp.jsonFiles, inp.store.Keys, AsWritten);
    Incremental(inp, digest, AsWritten, Baseline(InitialName(inp.listDir), 0));
    PlanOfBootstrap(inp.(initial := Missing), digest, AsWritten);
  }

  /** Under the index rule the same run writes archive number 1, leaving the bootstrap archive alone. */
  lemma FirstIncrementalByIndexIsOne(inp: RunInputs, digest: Path -> Digest)
    requires StoreValid(inp.store)
    requires inp.sourceIsDir && inp.outputIsDir && inp.listIsDir && inp.initial == RegularFile
    requires inp.jsonFiles == [InitialName(inp.listDir)] && InitialName(inp.listDir) in inp.store
    requires inp.store[InitialName(inp.listDir)].digests != Fingerprint(inp.walk, digest).digests
    ensures Plan(inp, digest, ByIndex)[0].WriteArchive?
    ensures Plan(inp, digest, ByIndex)[0].archive.name == ArchiveName(inp.outputDir, 1)
    ensures Plan(inp, digest, ByIndex)[1] == WriteListing(RecordName(inp.listDir, 1), Fingerprint(inp.walk, digest))
  {
    FirstBaseline(inp.listDir, inp.jsonFiles, inp.store.Keys, ByIndex);
    Incremental(inp, digest, ByIndex, Baseline(InitialName(inp.listDir), 1));
  }

  /**
   * The first incremental run after the bootstrap, when the tree changed:
   * the code numbers it 0 and the index rule 1; either way it archives the
   * new and changed files and records the current listing under that number.
   */
  lemma FirstIncremental(inp: RunInputs, digest: Path -> Digest, rule: NumberRule, initial: Listing)
    requires initial.Valid()
    requires inp.sourceIsDir && inp.outputIsDir && inp.listIsDir && inp.initial == RegularFile
    requires inp.jsonFiles == [InitialName(inp.listDir)] && inp.store == map[InitialName(inp.listDir) := initial]
    requires initial.digests != Fingerprint(inp.walk, digest).digests
    ensures StoreValid(inp.store)
    ensures var n := if rule == AsWritten then 0 else 1;
      Plan(inp, digest, rule) ==
        [WriteArchive(Archive(ArchiveName(inp.outputDir, n), TarList(Classify(initial, Fingerprint(inp.walk, digest))))),
         WriteListing(RecordName(inp.listDir, n), Fingerprint(inp.walk, digest)),
         Exit(None)]
  {
    assert StoreValid(inp.store);
    FirstBaseline(inp.listDir, inp.jsonFiles, inp.store.Keys, rule);
    var n := if rule == AsWritten then 0 else 1;
    PlanOfChange(inp, digest, rule, Baseline(InitialName(inp.listDir), n));
  }

  /**
   * With `initial.json` the only globbed listing, the code diffs against it
   * with number 0, the index rule with number 1.
   */
  lemma FirstBaseline(listDir: string, jsonFiles: seq<string>, readable: set<string>, rule: NumberRule)
    requires jsonFiles == [InitialName(listDir)] && InitialName(listDir) in readable
    ensures Choose(rule, listDir, jsonFiles, readable) ==
      Success(Baseline(InitialName(listDir), if rule == AsWritten then 0 else 1))
  {
    var name := InitialName(listDir);
    if rule == AsWritten {
      assert FirstIndex(jsonFiles, name) == 0;
      assert RemoveFirst(jsonFiles, name) == Some([]);
    } else {
      assert RecordIndex(listDir, name).None? by {
        var prefix := listDir + "/snapshot_";
        if |name| > |prefix| + 5 {
          assert false;
        }
      }
      assert LatestRecord(listDir, jsonFiles) == None;
    }
  }

  /**
   * Under the index rule an incremental run never writes over anything:
   * the record it writes is not among the globbed listings, and its archive
   * is never the bootstrap archive number 0.
   */
  lemma ByIndexNeverOverwrites(inp: RunInputs, digest: Path -> Digest, i: nat)
    requires StoreValid(inp.store)
    requires inp.initial == RegularFile && i < |Plan(inp, digest, ByIndex)|
    ensures Plan(inp, digest, ByIndex)[i].WriteListing? ==> Plan(inp, digest, ByIndex)[i].path !in inp.jsonFiles
    ensures Plan(inp, digest, ByIndex)[i].WriteArchive? ==>
      Plan(inp, digest, ByIndex)[i].archive.name != ArchiveName(inp.outputDir, 0)
  {
    var current := Fingerprint(inp.walk, digest);
    if inp.sourceIsDir && inp.outputIsDir && inp.listIsDir {
      var c := SelectByIndex(inp.listDir, inp.jsonFiles, inp.store.Keys);
      assert Plan(inp, digest, ByIndex) == IncrementalPlan(inp.listDir, inp.outputDir, inp.store, c, current);
      if c.Success? {
        var b := c.value;
        var d := Classify(inp.store[b.path], current);
        assert Plan(inp, digest, ByIndex) == ChangePlan(inp.listDir, inp.outputDir, b.number, d, current);
        ChangePlanNames(inp.listDir, inp.outputDir, b.number, d, current, i);
        ArchiveNameInjective(inp.outputDir, b.number, 0);
      }
    }
  }

  /** The listing and the archive an incremental run writes both carry its number; the listing is the current one. */
  lemma ChangePlanNames(listDir: string, outputDir: string, n: nat, d: ChangeSet, current: Listing, i: nat)
    requires i < |ChangePlan(listDir, outputDir, n, d, current)|
    ensures ChangePlan(listDir, outputDir, n, d, current)[i].WriteListing? ==>
      ChangePlan(listDir, outputDir, n, d, current)[i].path == RecordName(listDir, n)
    ensures ChangePlan(listDir, outputDir, n, d, current)[i].WriteListing? ==>
      ChangePlan(listDir, outputDir, n, d, current)[i].listing == current
    ensures ChangePlan(listDir, outputDir, n, d, current)[i].WriteArchive? ==>
      ChangePlan(listDir, outputDir, n, d, current)[i].archive == Archive(ArchiveName(outputDir, n), TarList(d))
  {
  }

  /**
   * Run again after the bootstrap over the same tree, with `initial.json`
   * read back as written, a run writes nothing, under either rule.
   */
  lemma RerunAfterBootstrapWritesNothing(inp: RunInputs, digest: Path -> Digest, rule: NumberRule)
    requires inp.sourceIsDir && inp.outputIsDir && inp.listIsDir
    ensures var next := inp.(initial := RegularFile, jsonFiles := [InitialName(inp.listDir)],
                             store := map[InitialName(inp.listDir) := Fingerprint(inp.walk, digest)]);
      && StoreValid(next.store)
      && Plan(next, digest, rule) == [Exit(None)]
  {
    var initial := InitialName(inp.listDir);
    var next := inp.(initial := RegularFile, jsonFiles := [initial],
                     store := map[initial := Fingerprint(inp.walk, digest)]);
    assert StoreValid(next.store);
    FirstBaseline(inp.listDir, next.jsonFiles, next.store.Keys, rule);
    Incremental(next, digest, rule, Baseline(initial, if rule == AsWritten then 0 else 1));
  }

  /**
   * Under the index rule the record an incremental run writes is the
   * baseline of the next run, which numbers its own snapshot one higher.
   */
  lemma ByIndexNextRunUsesNewRecord(inp: RunInputs, digest: Path -> Digest, b: Baseline)
    requires StoreValid(inp.store)
    requires Choose(ByIndex, inp.listDir, inp.jsonFiles, inp.store.Keys) == Success(b)
    ensures var record := RecordName(inp.listDir, b.number);
      var store := inp.store[record := Fingerprint(inp.walk, digest)];
      Choose(ByIndex, inp.listDir, inp.jsonFiles + [record], store.Keys) == Success(Baseline(record, b.number + 1))
  {
    var record := RecordName(inp.listDir, b.number);
    var files := inp.jsonFiles + [record];
    var store := inp.store[record := Fingerprint(inp.walk, digest)];
    assert InitialName(inp.listDir) in inp.jsonFiles &&
      forall x :: x in inp.jsonFiles && RecordIndex(inp.listDir, x).Some? ==> RecordIndex(inp.listDir, x).value < b.number
    by {
      assert SelectByIndex(inp.listDir, inp.jsonFiles, inp.store.Keys) == Success(b);
    }
    LatestRecordOfNext(inp.listDir, inp.jsonFiles, b.number);
    assert InitialName(inp.listDir) in files;
    SelectByIndexOfLatest(inp.listDir, files, store.Keys, record, b.number);
  }

  /** The tree of the worked example: `a.txt` and `b.txt` with contents hashing to `x` and `y`. */
  const FIRST_WALK: seq<Entry> := [Entry("src", false), Entry("src/a.txt", true), Entry("src/b.txt", true)]
  const FIRST_LISTING: Listing := Listing(["src/a.txt", "src/b.txt"], map["src/a.txt" := "x", "src/b.txt" := "y"])

  /** The same tree after `a.txt` changed, `c.txt` was added and `b.txt` deleted. */
  const SECOND_WALK: seq<Entry> := [Entry("src", false), Entry("src/a.txt", true), Entry("src/c.txt", true)]
  const SECOND_LISTING: Listing := Listing(["src/a.txt", "src/c.txt"], map["src/a.txt" := "x2", "src/c.txt" := "z"])

  function FirstDigest(p: Path): Digest {
    if p == "src/a.txt" then "x" else "y"
  }

  function SecondDigest(p: Path): Digest {
    if p == "src/a.txt" then "x2" else "z"
  }

  lemma FirstListing()
    ensures Fingerprint(FIRST_WALK, FirstDigest) == FIRST_LISTING
  {
    var w := FIRST_WALK;
    assert w[..2][..1] == [Entry("src", false)];
    assert w[..2][..1][..0] == [];
    assert Fingerprint(w[..1], FirstDigest) == EMPTY;
    assert w[..2][1] == Entry("src/a.txt", true);
    assert Fingerprint(w[..2], FirstDigest) == Listing(["src/a.txt"], map["src/a.txt" := "x"]);
  }

  lemma SecondListing()
    ensures Fingerprint(SECOND_WALK, SecondDigest) == SECOND_LISTING
  {
    var w := SECOND_WALK;
    assert w[..2][..1] == [Entry("src", false)];
    assert w[..2][..1][..0] == [];
    assert Fingerprint(w[..1], SecondDigest) == EMPTY;
    assert w[..2][1] == Entry("src/a.txt", true);
    assert Fingerprint(w[..2], SecondDigest) == Listing(["src/a.txt"], map["src/a.txt" := "x2"]);
  }

  /** The effects of a bootstrap run. */
  lemma PlanOfBootstrap(inp: RunInputs, digest: Path -> Digest, rule: NumberRule)
    requires StoreValid(inp.store)
    requires inp.sourceIsDir && inp.outputIsDir && inp.listIsDir && inp.initial == Missing
    ensures Plan(inp, digest, rule) ==
      [WriteListing(InitialName(inp.listDir), Fingerprint(inp.walk, digest)),
       WriteArchive(Archive(ArchiveName(inp.outputDir, 0), Fingerprint(inp.walk, digest).keys)),
       Exit(None)]
  {
  }

  /** The effects of an incremental run whose diff is not empty. */
  lemma PlanOfChange(inp: RunInputs, digest: Path -> Digest, rule: NumberRule, b: Baseline)
    requires StoreValid(inp.store)
    requires inp.sourceIsDir && inp.outputIsDir && inp.listIsDir && inp.initial == RegularFile
    requires Choose(rule, inp.listDir, inp.jsonFiles, inp.store.Keys) == Success(b)
    requires inp.store[b.path].digests != Fingerprint(inp.walk, digest).digests
    ensures Plan(inp, digest, rule) ==
      [WriteArchive(Archive(ArchiveName(inp.outputDir, b.number),
                            TarList(Classify(inp.store[b.path], Fingerprint(inp.walk, digest))))),
       WriteListing(RecordName(inp.listDir, b.number), Fingerprint(inp.walk, digest)),
       Exit(None)]
  {
    ClassifyEmptyIff(inp.store[b.path], Fingerprint(inp.walk, digest));
  }

  /**
   * Bootstrap of the worked example: `initial.json` holds both files with
   * their digests and archive number 0 holds both files.
   */
  lemma BootstrapExample(inp: RunInputs)
    requires inp.listDir == "lists" && inp.outputDir == "out"
    requires inp.sourceIsDir && inp.outputIsDir && inp.listIsDir && inp.initial == Missing
    requires inp.store == map[] && inp.walk == FIRST_WALK
    ensures Plan(inp, FirstDigest, AsWritten)
         == [WriteListing("lists/initial.json", FIRST_LISTING),
             WriteArchive(Archive("out/snapshot_0.tar.gz", ["src/a.txt", "src/b.txt"])),
             Exit(None)]
  {
    assert Fingerprint(inp.walk, FirstDigest) == FIRST_LISTING by {
      FirstListing();
    }
    PlanOfBootstrap(inp, FirstDigest, AsWritten);
    InitialNameExample();
    ArchiveNameZeroExample();
  }

  /**
   * The run after it: both rules archive `c.txt` and `a.txt` (inserted
   * first; `b.txt` is reported as deleted, see `ExampleChangeSet`) and
   * record the new listing without `b.txt`. The code writes both under
   * number 0, over the bootstrap archive; the index rule writes number 1.
   */
  lemma IncrementalExample(inp: RunInputs, rule: NumberRule)
    requires inp.listDir == "lists" && inp.outputDir == "out"
    requires inp.sourceIsDir && inp.outputIsDir && inp.listIsDir && inp.initial == RegularFile
    requires inp.jsonFiles == ["lists/initial.json"] && inp.store == map["lists/initial.json" := FIRST_LISTING]
    requires inp.walk == SECOND_WALK
    ensures var n := if rule == AsWritten then 0 else 1;
      Plan(inp, SecondDigest, rule)
         == [WriteArchive(Archive(ArchiveName("out", n), ["src/c.txt", "src/a.txt"])),
             WriteListing(RecordName("lists", n), SECOND_LISTING),
             Exit(None)]
  {
    assert Fingerprint(inp.walk, SecondDigest) == SECOND_LISTING by {
      SecondListing();
    }
    ExampleRunShape(inp, rule);
    assert TarList(Classify(FIRST_LISTING, Fingerprint(inp.walk, SecondDigest))) == ["src/c.txt", "src/a.txt"] by {
      ExampleChangeSet(FIRST_LISTING, Fingerprint(inp.walk, SecondDigest));
    }
  }

  lemma ExampleRunShape(inp: RunInputs, rule: NumberRule)
    requires inp.listDir == "lists" && inp.outputDir == "out"
    requires inp.sourceIsDir && inp.outputIsDir && inp.listIsDir && inp.initial == RegularFile
    requires inp.jsonFiles == ["lists/initial.json"] && inp.store == map["lists/initial.json" := FIRST_LISTING]
    requires Fingerprint(inp.walk, SecondDigest) == SECOND_LISTING
    ensures StoreValid(inp.store)
    ensures var n := if rule == AsWritten then 0 else 1;
      Plan(inp, SecondDigest, rule) ==
        [WriteArchive(Archive(ArchiveName("out", n), TarList(Classify(FIRST_LISTING, Fingerprint(inp.walk, SecondDigest))))),
         WriteListing(RecordName("lists", n), Fingerprint(inp.walk, SecondDigest)),
         Exit(None)]
  {
    assert FIRST_LISTING.Valid() && FIRST_LISTING.digests != SECOND_LISTING.digests by {
      assert SECOND_LISTING.digests["src/a.txt"] == "x2";
    }
    assert inp.jsonFiles == [InitialName(inp.listDir)] && inp.store == map[InitialName(inp.listDir) := FIRST_LISTING] by {
      InitialNameExample();
    }
    FirstIncremental(inp, SecondDigest, rule, FIRST_LISTING);
  }

  /** The names the worked example reads and writes. */
  lemma InitialNameExample()
    ensures InitialName("lists") == "lists/initial.json"
  {
  }

  lemma ArchiveNameZeroExample()
    ensures ArchiveName("out", 0) == "out/snapshot_0.tar.gz"
  {
    assert NatToString(0) == "0";
  }

  /**
   * The diff of the worked example: `c.txt` inserted, `a.txt` updated,
   * `b.txt` deleted; the archive list is `c.txt` then `a.txt`.
   */
  lemma ExampleChangeSet(a: Listing, c: Listing)
    requires a == FIRST_LISTING && c == SECOND_LISTING
    ensures a.Valid() && c.Valid()
    ensures Classify(a, c) == ChangeSet(Some(["src/c.txt"]), Some(["src/a.txt"]), Some(["src/b.txt"]))
    ensures TarList(Classify(a, c)) == ["src/c.txt", "src/a.txt"]
  {
    ExampleListingsValid(a, c);
    ExampleParts(a, c);
    var d := Classify(a, c);
    assert d == ChangeSet(Present(["src/c.txt"]), Present(["src/a.txt"]), Present(["src/b.txt"]));
    assert TarList(d) == ["src/c.txt"] + ["src/a.txt"];
  }

  lemma ExampleParts(a: Listing, c: Listing)
    requires a == FIRST_LISTING && c == SECOND_LISTING
    requires a.Valid() && c.Valid() && Distinct(a.keys) && Distinct(c.keys)
    ensures Inserted(a, c) == ["src/c.txt"] && Updated(a, c) == ["src/a.txt"] && Deleted(a, c) == ["src/b.txt"]
  {
    SelectOnly(c.keys, p => p !in a.digests, "src/c.txt");
    SelectOnly(c.keys, p => p in c.digests && p in a.digests && c.digests[p] != a.digests[p], "src/a.txt");
    SelectOnly(a.keys, p => p !in c.digests, "src/b.txt");
  }

  lemma ExampleListingsValid(a: Listing, c: Listing)
    requires a == FIRST_LISTING && c == SECOND_LISTING
    ensures a.Valid() && c.Valid() && Distinct(a.keys) && Distinct(c.keys)
  {
  }
}
