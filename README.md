# onewaysync in Dafny

onewaysync makes incremental backups of a directory tree. Each run walks the
source tree and records every regular file's content digest in a *listing*
(a JSON dictionary from path to digest). It then compares that listing with
the last one stored in the *listing directory* and writes a gzip'd tar
archive of the new and changed files to the *output directory*.

- **First run:** the listing directory has no `initial.json`. The run stores
  the listing as `initial.json` and archives the whole tree as
  `snapshot_0.tar.gz`.
- **Later runs:** the run picks a baseline listing and a snapshot number from
  the names of the listings in the directory. It diffs the current listing
  against the baseline. When anything differs, it writes
  `snapshot_<n>.tar.gz` and then `snapshot_<n>.json`.
- **Packaging:** `find_version` reads the `__version__` string from the
  command-line module.

The model has these modules:

- `Fingerprints` (`fingerprint.dfy`): the listing as an insertion-ordered
  dictionary, and `generate_list` as a loop proved equal to a recursive
  definition.
- `Differ` (`diff.dfy`): the three-way change set (inserted, updated,
  deleted) that the code reads from its diff library. It also holds
  `generate_tar_list` with its two append loops.
- `Archiver` (`archive.dfy`): `tarfiles`, reduced to the archive's name and
  its ordered member list.
- `Snapshots` (`snapshots.dfy`): the names in the listing directory.
  - `SelectBaseline` is the number rule as the code has it. It uses
    `list.remove`, a lexicographic `sort()` then `[-1]`, and the first run of
    digits anywhere in the chosen path.
  - `SelectByIndex` is the corrected rule, the one the comments at
    `onewaysync.py` lines 126-130 describe. Records are ordered by the
    number in their file name `snapshot_<n>.json`, the run diffs against
    the highest, and the next number is one past it.
- `Orchestrator` (`orchestrator.dfy`): `main`.
  - `Plan` is a function from the run's view of the world to the ordered
    effects of the run (write a listing, write an archive, exit, raise). It
    takes the number rule as a parameter.
  - `Run` follows the code statement by statement and is proved equal to
    `Plan` under the code's rule. The statements that pick the baseline are
    the method `Snapshots.ChooseBaseline`, proved equal to `SelectBaseline`.
- `VersionScan` (`version.dfy`): `find_version`, the anchored regular
  expression match, and the loop that stops at the first match.
- `Text` (`text.dfy`): decimal conversion, the first run of digits, Python's
  string order, and the greatest element of a list.
- `Wrappers` (`wrappers.dfy`): `Option` and `Result`.

The code's number rule differs from the corrected one in three ways:

- The corrected rule orders records by their numeric index. The code sorts
  the names as strings.
- The corrected rule numbers the first incremental run 1, one past the
  bootstrap's 0. The code numbers it 0.
- The corrected rule reads the number from the file name. The code reads
  the first digits anywhere in the path, the directory included.

Both number rules are modelled. `Plan(…, AsWritten)` is what the code does.
`Plan(…, ByIndex)` is the corrected behaviour, and the findings below
compare the two.

## Model

| member | source | states |
|---|---|---|
| `Text.NatToString` | onewaysync/onewaysync.py:35 | `str(n)` is a non-empty string of decimal digits; a leading `0` occurs only in `"0"`, the string of 0 |
| `Text.ParseNat` | onewaysync/onewaysync.py:131 | `int(s)` on a digit string, by place value; its partners are `ParseNatToString` and `ParseNatZero` |
| `Text.ParseNatZero` | onewaysync/onewaysync.py:131 | `int(s)` is 0 exactly when every digit of `s` is `0` |
| `Text.ParseNatToString` | onewaysync/onewaysync.py:131 | `int` of `str(n)` gives back `n` |
| `Text.NatToStringInjective` | onewaysync/onewaysync.py:176-177 | different numbers have different decimal strings, so record and archive names never collide across numbers |
| `Text.DigitRun` | onewaysync/onewaysync.py:131 | the longest digit prefix of a string: all digits, and followed by a non-digit or the end |
| `Text.FirstDigitRun` | onewaysync/onewaysync.py:131 | `re.findall(r'\d+', s)[0]`: None (IndexError) exactly when the string has no digit, otherwise a non-empty digit string |
| `Text.FirstDigitRunIsFirstMaximalRun` | onewaysync/onewaysync.py:131 | the run starts at the first digit, is preceded only by non-digits, and cannot be extended |
| `Text.FirstDigitRunOfConcat` | onewaysync/onewaysync.py:131 | in `p + d + q`, with no digit in `p` and `q` not starting with a digit, the first run is `d` |
| `Text.StrLess` | onewaysync/onewaysync.py:124 | Python's `<` on `str`, which `sort()` uses; `StrLessIsFirstDifference` proves it equal to the textbook lexicographic order |
| `Text.StrLessIsFirstDifference` | onewaysync/onewaysync.py:124 | `a < b` exactly when `a` is a proper prefix of `b`, or at the first position where they differ `a` has the smaller code point |
| `Text.StrLessTotal` | onewaysync/onewaysync.py:124 | Python's string order is total on distinct strings; with `StrLessTransitive` and `StrLessIrreflexive` it is a strict total order |
| `Text.StrLessCommonPrefix` | onewaysync/onewaysync.py:124 | a common prefix does not change the order of two strings |
| `Text.Greatest` | onewaysync/onewaysync.py:128 | the chosen name is in the list and no name of the list is greater |
| `Text.SortedLastIsGreatest` | onewaysync/onewaysync.py:124-128 | the last element of any sorted permutation of the list is `Greatest` of the list |
| `Text.GreatestUnique` | onewaysync/onewaysync.py:124-128 | lists with the same elements have the same greatest element |
| `Fingerprints.Put` | onewaysync/onewaysync.py:58 | `d[k] = v`: afterwards `k` maps to `v`, every other key keeps its presence and its value, a new key goes last in key order and an existing key keeps its place; keys stay distinct and in step with the map |
| `Fingerprints.Fingerprint` | onewaysync/onewaysync.py:50-62 | the dictionary built over the walk keeps its keys distinct and exactly the map's domain |
| `Fingerprints.FingerprintFiles` | onewaysync/onewaysync.py:50-62 | a key exactly for each path some walked entry has as a regular file, mapped to that file's digest; directories never become keys |
| `Fingerprints.GenerateList` | onewaysync/onewaysync.py:50-62 | the loop that fills the dictionary returns `Fingerprint` of the walk |
| `Fingerprints.FingerprintOrder` | onewaysync/onewaysync.py:52-58 | when the walk yields no path twice, the keys are the file paths in walk order |
| `Fingerprints.FingerprintIgnoresDirectories` | onewaysync/onewaysync.py:56-61 | the listing of a walk equals the listing of its file entries alone, order included |
| `Differ.Select` | onewaysync/onewaysync.py:146-147 | the selected keys are exactly those of the list satisfying the predicate |
| `Differ.SelectDistinct` | onewaysync/onewaysync.py:146-147 | selecting from a list without repeats gives a list without repeats |
| `Differ.SelectEmpty` | onewaysync/onewaysync.py:146-152 | nothing is selected exactly when no element satisfies the predicate |
| `Differ.Inserted` | onewaysync/onewaysync.py:146-147 | the current paths the previous listing lacks, each once; empty exactly when every current path was already there |
| `Differ.Updated` | onewaysync/onewaysync.py:146-147 | the paths of both listings whose digests differ, each once; empty exactly when every shared path kept its digest |
| `Differ.Deleted` | onewaysync/onewaysync.py:146-147 | the previous paths the current listing lacks, each once; empty exactly when every previous path is still there |
| `Differ.IsEmpty` | onewaysync/onewaysync.py:149 | `not snapshot_diff`: the diff has none of its three keys; `ClassifyEmptyIff` ties it to equal listings |
| `Differ.Classify` | onewaysync/onewaysync.py:146-147 | inserted are the paths only in the current listing, updated the paths in both with different digests, deleted the paths only in the previous one; each collection is duplicate-free and absent rather than empty |
| `Differ.ClassifyEmptyIff` | onewaysync/onewaysync.py:146-152 | the diff has no key exactly when both listings hold the same paths with the same digests (so a listing diffed against itself is empty) |
| `Differ.ClassifyExtension` | onewaysync/onewaysync.py:146-147 | adding paths the previous listing lacks reports exactly those paths as inserted, in order, and nothing else |
| `Differ.ClassifyOneChanged` | onewaysync/onewaysync.py:146-147 | changing one path's digest reports exactly that path as updated and nothing else |
| `Differ.ClassifyOneRemoved` | onewaysync/onewaysync.py:146-147 | removing one path reports exactly that path as deleted and nothing else |
| `Differ.GenerateTarList` | onewaysync/onewaysync.py:65-74 | the inserted entries in order, then the updated ones; an absent key contributes nothing, the length is the sum, and with neither key the list is empty |
| `Differ.TarListOfClassify` | onewaysync/onewaysync.py:154-158 | for a diff of two listings, the archive list holds each new or changed path exactly once and never a deleted path |
| `Archiver.ArchiveName` | onewaysync/onewaysync.py:35-36 | the archive file name for a number, `destination/snapshot_<n>.tar.gz`; `ArchiveNameInjective` shows the number determines it |
| `Archiver.TarFiles` | onewaysync/onewaysync.py:34-39 | the archive is named `destination/snapshot_<n>.tar.gz` and receives the listed names in list order |
| `Archiver.ArchiveNameInjective` | onewaysync/onewaysync.py:35-36 | two archive numbers give the same name only when they are equal |
| `Snapshots.InitialName` | onewaysync/onewaysync.py:103 | the path `listDir/initial.json` that the bootstrap writes and line 121 removes from the glob |
| `Snapshots.RecordName` | onewaysync/onewaysync.py:176-177 | the record path `listDir/snapshot_<n>.json`; `RecordIndexOfRecordName` reads `n` back from it and `InitialIsNotARecord` keeps it apart from `initial.json` |
| `Snapshots.InitialIsNotARecord` | onewaysync/onewaysync.py:176-177 | no record name is `initial.json` |
| `Snapshots.RemoveFirst` | onewaysync/onewaysync.py:121 | `list.remove`: ValueError exactly when the element is absent; otherwise the list with its first occurrence (at `FirstIndex`, before which the element does not occur) cut out and the rest in order, so one occurrence fewer in the multiset |
| `Snapshots.ChooseBaseline` | onewaysync/onewaysync.py:119-138 | the statements of `main` that remove `initial.json`, sort, open the last listing and read its number return or raise exactly as `SelectBaseline` |
| `Snapshots.SelectBaseline` | onewaysync/onewaysync.py:119-138 | a successful choice is a listing that can be loaded |
| `Snapshots.SelectBaselineRule` | onewaysync/onewaysync.py:119-138 | ValueError exactly when `initial.json` is not globbed; with no other listing, `initial.json` and number 0; otherwise the greatest other name, in string order, numbered one past the first digit run of its path, with IOError for an unreadable listing before IndexError for a digit-free name |
| `Snapshots.SelectBaselineIgnoresListingOrder` | onewaysync/onewaysync.py:120-128 | the order in which the glob returns the names does not matter |
| `Snapshots.RecordNumberRoundTrip` | onewaysync/onewaysync.py:131 | in a digit-free listing directory, reading the number back from `snapshot_<n>.json` gives `n` |
| `Snapshots.RecordIndexOfRecordName` | onewaysync/onewaysync.py:176-177 | the index read from the file name of `snapshot_<n>.json` is `n`, whatever the directory path holds |
| `Snapshots.LatestRecord` | onewaysync/onewaysync.py:122-131 | the name with the highest record index and that index, or None when no name is a record |
| `Snapshots.SelectByIndex` | onewaysync/onewaysync.py:119-138 | corrected rule: ValueError exactly when `initial.json` is not globbed; IOError exactly when the chosen listing (the latest record, or `initial.json` when there is none) cannot be loaded, so a glob whose names all load always succeeds; the new number is at least 1 and above every existing index; its record name is not taken; the baseline is the record just below it, or `initial.json` for number 1 |
| `Snapshots.LatestRecordOfNext` | onewaysync/onewaysync.py:176-177 | a record numbered above every globbed record is the latest once added |
| `Snapshots.SelectByIndexOfLatest` | onewaysync/onewaysync.py:122-131 | with a loadable latest record, the corrected rule diffs against it and writes the next number |
| `Snapshots.LexicographicOrderRewritesTen` | onewaysync/onewaysync.py:124-131 | `snapshot_10.json` sorts before `snapshot_9.json`, so with both present the code diffs against 9 and writes number 10 again |
| `Snapshots.ByIndexOrdersNumerically` | onewaysync/onewaysync.py:124-131 | the corrected rule diffs against 10 and writes 11 |
| `Snapshots.SelectBaselineSingle` | onewaysync/onewaysync.py:122-131 | with one listing beside `initial.json`, that listing is the baseline, numbered from its first digit run |
| `Snapshots.DirectoryDigitsComeFirst` | onewaysync/onewaysync.py:131 | in a listing directory whose path ends in digits, the next number comes from those digits, whatever the record's own number |
| `Snapshots.ByIndexIgnoresDirectoryDigits` | onewaysync/onewaysync.py:131 | the corrected rule reads `snapshot_<n>.json` as `n` and writes `n + 1`, whatever digits the directory path holds |
| `Orchestrator.Plan` | onewaysync/onewaysync.py:77-178 | every run ends in exactly one exit or exception, as its last effect |
| `Orchestrator.BootstrapPlan` | onewaysync/onewaysync.py:103-111 | the bootstrap writes the current listing, then an archive of its keys, then exits normally |
| `Orchestrator.IncrementalPlan` | onewaysync/onewaysync.py:119-152 | after the baseline choice the run ends in exactly one exit or exception, and raises exactly when the choice failed, with that exception and nothing before it |
| `Orchestrator.ChangePlan` | onewaysync/onewaysync.py:149-178 | the run ends with a normal exit, and writes nothing exactly when the diff is empty |
| `Orchestrator.Run` | onewaysync/onewaysync.py:77-178 | `main` step by step has exactly the effects of `Plan` under the code's rule |
| `Orchestrator.WritesNeedDirectories` | onewaysync/onewaysync.py:91-117 | nothing is written unless the three directories exist and `initial.json` is missing or a regular file |
| `Orchestrator.WrittenListingIsCurrent` | onewaysync/onewaysync.py:105-107 | every listing a run writes is the current listing, never the diff |
| `Orchestrator.ArchivedFilesAreWalkedFiles` | onewaysync/onewaysync.py:154-158 | every archive member is a walked regular file, listed once |
| `Orchestrator.Bootstrap` | onewaysync/onewaysync.py:103-111 | without `initial.json`: write it with the current listing, then archive 0 with every file in walk order, then exit; the glob, the stored listings and the rule play no part |
| `Orchestrator.Incremental` | onewaysync/onewaysync.py:140-178 | with a baseline: no change writes nothing; otherwise the archive of exactly the new and changed files comes first, then the record of the current listing under the same number |
| `Orchestrator.ChoiceFailureRaises` | onewaysync/onewaysync.py:120-131 | a baseline choice that raises (ValueError, IOError or IndexError) ends the run with that exception before any write |
| `Orchestrator.MissingInitialInGlobRaises` | onewaysync/onewaysync.py:120-121 | a glob without `initial.json` raises ValueError before any write |
| `Orchestrator.FirstIncrementalReusesArchiveZero` | onewaysync/onewaysync.py:133-158 | under the code's rule, the first changed run after the bootstrap writes archive 0, the bootstrap's own name |
| `Orchestrator.FirstIncrementalByIndexIsOne` | onewaysync/onewaysync.py:133-158 | under the corrected rule, that run writes archive 1 and record 1 |
| `Orchestrator.FirstIncremental` | onewaysync/onewaysync.py:133-178 | the first changed run after the bootstrap writes number 0 (code) or 1 (corrected), with the new and changed files and then the current listing |
| `Orchestrator.ByIndexNeverOverwrites` | onewaysync/onewaysync.py:154-178 | under the corrected rule, no incremental run writes a record that already exists or archive 0 |
| `Orchestrator.RerunAfterBootstrapWritesNothing` | onewaysync/onewaysync.py:136-152 | rerunning over an unchanged tree, with `initial.json` read back as written, writes nothing under either rule |
| `Orchestrator.ByIndexNextRunUsesNewRecord` | onewaysync/onewaysync.py:122-131 | under the corrected rule, the record a run writes is the next run's baseline, and the next number is one higher |
| `Orchestrator.PlanOfChange` | onewaysync/onewaysync.py:154-178 | the exact effects of a run whose baseline digests differ from the current ones: the archive of the diff, then the record, then a clean exit |
| `Orchestrator.PlanOfBootstrap` | onewaysync/onewaysync.py:103-111 | the exact effects of a bootstrap run |
| `Orchestrator.ChangePlanNames` | onewaysync/onewaysync.py:160-178 | the archive and the record an incremental run writes carry its number, the archive holds the archive list and the record the current listing |
| `Orchestrator.FirstBaseline` | onewaysync/onewaysync.py:119-138 | with `initial.json` the only globbed listing, the code's rule diffs against it with number 0 and the corrected rule with number 1 |
| `Orchestrator.BootstrapExample` | onewaysync/onewaysync.py:103-111 | `a.txt` and `b.txt` give `initial.json` with both digests, and archive 0 with both files |
| `Orchestrator.ExampleChangeSet` | onewaysync/onewaysync.py:65-74 | with `a.txt` changed, `c.txt` added and `b.txt` removed, the diff is insert `c.txt`, update `a.txt`, delete `b.txt`, and the archive list is `c.txt`, `a.txt` |
| `Orchestrator.IncrementalExample` | onewaysync/onewaysync.py:140-178 | the next run archives `c.txt` and `a.txt` and records the listing without `b.txt`, as number 0 (code) or 1 (corrected) |
| `VersionScan.MatchVersion` | onewaysync/setup.py:30-32 | a match means the line starts with `__version__ = ` and a quote, the group has no quote, and a quote follows it |
| `VersionScan.MatchVersionOf` | onewaysync/setup.py:30 | every line `__version__ = <q>v<q'>…` with quote-free `v` matches with group `v`; either quote, independently, and any trailing text |
| `VersionScan.MatchIsAnchored` | onewaysync/setup.py:32 | a line starting with anything but `_` (leading whitespace included) never matches |
| `VersionScan.FirstMatch` | onewaysync/setup.py:31-35 | None exactly when no line matches, otherwise the group of the first matching line |
| `VersionScan.FindVersionResult` | onewaysync/setup.py:36-38 | success carries a non-empty quote-free version from the first match; failure is `RuntimeError('Cannot find version information')`, exactly when nothing matches or the first group is empty |
| `VersionScan.FindVersion` | onewaysync/setup.py:24-38 | the loop with `break` returns or raises exactly as `FindVersionResult` |
| `VersionScan.LaterLinesIgnored` | onewaysync/setup.py:31-35 | once a line matches, appending lines changes nothing |
| `VersionScan.EmptyFirstVersionRaises` | onewaysync/setup.py:32-37 | `__version__ = ""` as the first match raises even when a later line has a version |
| `VersionScan.SourceVersion` | onewaysync/setup.py:40 | the lines around `__version__ = "0.1.0"` of the command-line module yield `0.1.0` |

## Left out

- Command-line parsing (docopt, the usage text, `--version`) is not modelled. The three directory arguments become the `listDir` and `outputDir` strings and three "is a directory" flags of `RunInputs`.
- MD5 and chunked reading are a foreign library and I/O. The digest is a function parameter.
- `os.walk` and `os.path.isfile` are not modelled, symbolic links included. The walk is an input sequence of entries, each with a path and a regular-file flag.
- The tar and gzip stream format is not modelled. An archive is its name and its ordered member list, and recursive adding of directories does not arise because only file paths are listed.
- JSON serialisation and `glob` are not modelled. The loadable listings are an input map, and the glob result is an input list in any order. A listing a run writes reaches a later run only through that map (see `RerunAfterBootstrapWritesNothing`).
- The jsondiff library is not part of this model. `Classify` computes the three collections the code reads. It assumes inserted and updated paths come in the current listing's key order and deleted paths in the previous listing's order. With the explicit syntax the code requests (onewaysync.py:146-147), the library can instead report a replacement of the whole dictionary, which is the current listing itself, when the two listings are dissimilar enough, for instance when they share no path. `main` would then find no `$insert` or `$update` key and write an archive with no files. When the current listing is empty that replacement is `{}`, which `main` would report as no difference even though every file was deleted. These output shapes are not modelled.
- Snapshots.Exception: a listing that exists but does not parse raises ValueError in the code (`json.JSONDecodeError`). The model reports every listing it cannot load as IOError.
- Every `print` is console output and is not modelled. This includes the reported lists of deleted, added and modified files. `Exit(Some(m))` stands for `sys.exit(m)` (status 1, `m` on standard error). `Exit(None)` stands for `sys.exit()` or the end of `main` (status 0).
- Files that vanish or change between the fingerprint and the tar are not modelled. The code has no handling for them, and `md5sum` or `tar.add` would raise.
- Concurrent runs against one listing directory are not modelled. The code has no locking.
- Python 3's `\d` also matches non-ASCII decimal digits. The model's digits are ASCII `0`-`9` only.
- The packaging script's `setup()` call, the `PyTest` command and `read()` are not modelled. `find_version` works on the file's lines, which are an input, and `open` is not modelled.
- Snapshots.SelectBaseline: its own contract states only that the chosen listing can be loaded. The full rule is stated by `SelectBaselineRule`.
- Orchestrator.Plan: its own contract states only that the run ends in one exit or exception. What it writes or raises is stated by the lemmas beside it: `WritesNeedDirectories` for the three directory checks and a non-file `initial.json`, `Bootstrap`, `ChoiceFailureRaises` for a baseline choice that raises, and `Incremental` for a chosen baseline.
- Text.FirstDigitRun: its own contract states that the run exists exactly when a digit does. The position and maximality of the run are stated by `FirstDigitRunIsFirstMaximalRun`.

## Findings

| source | as written | input that shows it | evidently intended | confidence | as-written member | corrected member |
|---|---|---|---|---|---|---|
| onewaysync/onewaysync.py:133-158 | with only `initial.json` present the number stays 0 | the first run after the bootstrap with any change | the bootstrap is number 0 and the next run writes number 1; the code overwrites `snapshot_0.tar.gz`, the full backup | high, not executed | `Orchestrator.FirstIncrementalReusesArchiveZero` | `Orchestrator.FirstIncrementalByIndexIsOne` |
| onewaysync/onewaysync.py:124-131 | `sort()` orders the names as strings | `initial.json`, `snapshot_9.json` and `snapshot_10.json` present | the latest record is the highest index; the code diffs against 9 and rewrites `snapshot_10.json` and `snapshot_10.tar.gz` on every later run | high, not executed | `Snapshots.LexicographicOrderRewritesTen` | `Snapshots.ByIndexOrdersNumerically` |
| onewaysync/onewaysync.py:131 | the number is the first digit run anywhere in the path | listing directory `backup2` holding `snapshot_5.json` | the number comes from the file name; the code writes number 3 on every run | high, not executed | `Snapshots.DirectoryDigitsComeFirst` | `Snapshots.ByIndexIgnoresDirectoryDigits` |
