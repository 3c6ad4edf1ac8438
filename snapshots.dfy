/**
 * The listing directory: `initial.json`, the numbered `snapshot_<n>.json`
 * records, and the rule by which a run picks the listing to diff against
 * and the number of the snapshot it writes. `SelectBaseline` is that rule
 * as the code has it; `SelectByIndex` is the rule the code's comments
 * describe: records ordered by the number embedded in their file name, the
 * next number being one past the highest.
 */
module Snapshots {
  import opened Wrappers
  import opened Text

  /** The Python exceptions a run can raise along the modelled paths. */
  datatype Exception =
    | ValueError   // `list.remove` of an absent element
    | IndexError   // `[0]` of an empty `re.findall` result
    | IOError      // opening a listing that cannot be read or parsed

  /** The listing a run diffs against, and the number of the snapshot it writes. */
  datatype Baseline = Baseline(path: string, number: nat)

  function InitialName(listDir: string): string {
    listDir + "/initial.json"
  }

  /** `listfiles_dir + '/snapshot_' + str(n) + '.json'`. */
  function RecordName(listDir: string, n: nat): string {
    listDir + "/snapshot_" + NatToString(n) + ".json"
  }

  lemma InitialIsNotARecord(listDir: string, n: nat)
    ensures InitialName(listDir) != RecordName(listDir, n)
  {
    assert InitialName(listDir)[|listDir| + 1] == 'i';
    assert RecordName(listDir, n)[|listDir| + 1] == 's';
  }

  /** The position of the first `x` in `s`, or `|s|` when there is none. */
  function FirstIndex<T(==)>(s: seq<T>, x: T): (k: nat)
    ensures k <= |s| && x !in s[..k]
    ensures k < |s| ==> s[k] == x
  {
    if s == [] then 0
    else if s[0] == x then 0
    else
      var k := FirstIndex(s[1..], x);
      assert s[..k + 1] == [s[0]] + s[1..][..k];
      k + 1
  }

  /**
   * `list.remove(x)`: the list without the first occurrence of `x`, or
   * `None` for the ValueError raised when `x` is absent.
   */
  function RemoveFirst<T(==)>(s: seq<T>, x: T): (r: Option<seq<T>>)
    ensures r.None? <==> x !in s
    ensures r.Some? ==> multiset(r.value) == multiset(s) - multiset{x}
    ensures r.Some? ==> |r.value| == |s| - 1
    ensures r.Some? ==> FirstIndex(s, x) < |s| && r.value == s[..FirstIndex(s, x)] + s[FirstIndex(s, x) + 1..]
  {
    var k := FirstIndex(s, x);
    if k == |s| then
      assert s[..k] == s;
      None
    else
      assert s == s[..k] + [s[k]] + s[k + 1..];
      Some(s[..k] + s[k + 1..])
  }

  /** The listings found beside `initial.json`. */
  function Others(listDir: string, jsonFiles: seq<string>): multiset<string> {
    multiset(jsonFiles) - multiset{InitialName(listDir)}
  }

  /**
   * The choice `main` makes once `initial.json` exists, as the code has it:
   * `listfiles.remove` of `initial.json` (None: ValueError), then either
   * `initial.json` with number 0, or the last name after `sort()` with one
   * more than its first digit run (None: IndexError). The chosen listing is
   * opened before its name is searched for digits, so a listing outside
   * `readable` raises IOError first.
   */
  function SelectBaseline(listDir: string, jsonFiles: seq<string>, readable: set<string>): (r: Result<Baseline, Exception>)
    ensures r.Success? ==> r.value.path in readable
  {
    var initial := InitialName(listDir);
    match RemoveFirst(jsonFiles, initial)
    case None => Failure(ValueError)
    case Some(rest) =>
      if rest == [] then
        if initial !in readable then Failure(IOError) else Success(Baseline(initial, 0))
      else
        var last := Greatest(rest);
        if last !in readable then Failure(IOError)
        else
          match FirstDigitRun(last)
          case None => Failure(IndexError)
          case Some(run) => Success(Baseline(last, ParseNat(run) + 1))
  }

  /**
   * The part of `main` that picks the listing to diff against: remove
   * `initial.json` from the globbed names, sort the rest and take the last,
   * open it, and take one more than its first digit run as the number.
   */
  method ChooseBaseline(listDir: string, jsonFiles: seq<string>, readable: set<string>)
    returns (r: Result<Baseline, Exception>)
    ensures r == SelectBaseline(listDir, jsonFiles, readable)
  {
    var initialPath := listDir + "/initial.json";
    assert initialPath == InitialName(listDir);
    var removed := RemoveFirst(jsonFiles, initialPath);
    if removed.None? {
      return Failure(ValueError);
    }
    var listfiles := removed.value;
    var snapshotNumber: nat := 0;
    var snapshotPath: string;
    if listfiles != [] {
      // `listfiles.sort()` and then `listfiles[-1]`: the greatest name (`Text.SortedLastIsGreatest`)
      snapshotPath := Greatest(listfiles);
      if snapshotPath !in readable {
        return Failure(IOError);
      }
      var run := FirstDigitRun(snapshotPath);
      if run.None? {
        return Failure(IndexError);
      }
      snapshotNumber := ParseNat(run.value) + 1;
      assert SelectBaseline(listDir, jsonFiles, readable) == Success(Baseline(snapshotPath, snapshotNumber));
    } else {
      snapshotPath := initialPath;
      if snapshotPath !in readable {
        return Failure(IOError);
      }
    }
    r := Success(Baseline(snapshotPath, snapshotNumber));
  }

  /** `g` is a greatest name, in string order, among the listings beside `initial.json`. */
  ghost predicate IsGreatestOther(listDir: string, jsonFiles: seq<string>, g: string) {
    && g in Others(listDir, jsonFiles)
    && forall x :: x in Others(listDir, jsonFiles) ==> StrLessEq(x, g)
  }

  /**
   * The snapshot-number rule: a ValueError exactly when `initial.json` is
   * not among the globbed names; with no other listing, `initial.json` and
   * number 0 (an IOError when it cannot be read); otherwise the greatest
   * other name in string order, numbered one more than the first digit run
   * anywhere in its path, or an IOError when it cannot be read, or an
   * IndexError when that path has no digit.
   */
  lemma SelectBaselineRule(listDir: string, jsonFiles: seq<string>, readable: set<string>)
    ensures SelectBaseline(listDir, jsonFiles, readable) == Failure(ValueError) <==> InitialName(listDir) !in jsonFiles
    ensures InitialName(listDir) in jsonFiles && Others(listDir, jsonFiles) == multiset{} ==>
      SelectBaseline(listDir, jsonFiles, readable) ==
        (if InitialName(listDir) in readable then Success(Baseline(InitialName(listDir), 0)) else Failure(IOError))
    ensures SelectBaseline(listDir, jsonFiles, readable) == Success(Baseline(InitialName(listDir), 0)) ==>
      Others(listDir, jsonFiles) == multiset{}
    ensures InitialName(listDir) in jsonFiles && Others(listDir, jsonFiles) != multiset{} ==>
      exists g :: IsGreatestOther(listDir, jsonFiles, g) &&
        SelectBaseline(listDir, jsonFiles, readable) ==
          (if g !in readable then Failure(IOError)
           else if NoDigits(g) then Failure(IndexError)
           else Success(Baseline(g, ParseNat(FirstDigitRun(g).value) + 1)))
  {
    var initial := InitialName(listDir);
    var removed := RemoveFirst(jsonFiles, initial);
    if removed.Some? {
      var rest := removed.value;
      var others := Others(listDir, jsonFiles);
      assert multiset(rest) == others;
      if rest == [] {
        assert others == multiset{};
      } else {
        assert rest[0] in multiset(rest);
        var g := Greatest(rest);
        assert g in multiset(rest);
        forall x | x in others
          ensures StrLessEq(x, g)
        {
          assert x in rest;
        }
        assert IsGreatestOther(listDir, jsonFiles, g);
        if g in readable && FirstDigitRun(g).Some? {
          var run := FirstDigitRun(g).value;
          assert SelectBaseline(listDir, jsonFiles, readable) == Success(Baseline(g, ParseNat(run) + 1));
        }
      }
    }
  }

  /**
   * Because the names are sorted before the last is taken, the order in
   * which the directory listing returns them does not matter.
   */
  lemma SelectBaselineIgnoresListingOrder(listDir: string, s: seq<string>, t: seq<string>, readable: set<string>)
    requires multiset(s) == multiset(t)
    ensures SelectBaseline(listDir, s, readable) == SelectBaseline(listDir, t, readable)
  {
    var initial := InitialName(listDir);
    assert initial in s <==> initial in t by {
      assert initial in s <==> initial in multiset(s);
      assert initial in t <==> initial in multiset(t);
    }
    var rs, rt := RemoveFirst(s, initial), RemoveFirst(t, initial);
    if rs.Some? {
      assert multiset(rs.value) == multiset(rt.value);
      if rs.value != [] {
        GreatestUnique(rs.value, rt.value);
      }
    }
  }

  /**
   * When the listing directory's path has no digits, the first-digit-run
   * rule applied to `snapshot_<n>.json` gives back `n`.
   */
  lemma RecordNumberRoundTrip(listDir: string, n: nat)
    requires NoDigits(listDir)
    ensures FirstDigitRun(RecordName(listDir, n)) == Some(NatToString(n))
    ensures ParseNat(NatToString(n)) == n
  {
    var prefix := listDir + "/snapshot_";
    assert NoDigits(prefix) by {
      forall i | 0 <= i < |prefix|
        ensures !IsDigit(prefix[i])
      {
        if i < |listDir| {
          assert prefix[i] == listDir[i];
        }
      }
    }
    FirstDigitRunOfConcat(prefix, NatToString(n), ".json");
    ParseNatToString(n);
  }

  /**
   * The index `n` of a name of the form `listDir/snapshot_<n>.json`, where
   * `<n>` is a non-empty string of digits; None for any other name.
   */
  function RecordIndex(listDir: string, name: string): Option<nat> {
    var prefix := listDir + "/snapshot_";
    var suffix := ".json";
    if && |name| > |prefix| + |suffix|
       && name[..|prefix|] == prefix
       && name[|name| - |suffix|..] == suffix
       && AllDigits(name[|prefix|..|name| - |suffix|])
    then Some(ParseNat(name[|prefix|..|name| - |suffix|]))
    else None
  }

  /** Whatever digits the directory path holds, the index of `snapshot_<n>.json` is `n`. */
  lemma RecordIndexOfRecordName(listDir: string, n: nat)
    ensures RecordIndex(listDir, RecordName(listDir, n)) == Some(n)
  {
    var prefix := listDir + "/snapshot_";
    var name := RecordName(listDir, n);
    assert name[..|prefix|] == prefix;
    assert name[|name| - 5..] == ".json";
    assert name[|prefix|..|name| - 5] == NatToString(n);
    ParseNatToString(n);
  }

  /** The name with the highest record index among `names`, with that index. */
  function LatestRecord(listDir: string, names: seq<string>): (r: Option<(string, nat)>)
    ensures r.None? <==> forall x :: x in names ==> RecordIndex(listDir, x).None?
    ensures r.Some? ==> r.value.0 in names && RecordIndex(listDir, r.value.0) == Some(r.value.1)
    ensures r.Some? ==> forall x :: x in names && RecordIndex(listDir, x).Some? ==> RecordIndex(listDir, x).value <= r.value.1
  {
    if names == [] then None
    else
      var rest := LatestRecord(listDir, names[1..]);
      assert names == [names[0]] + names[1..];
      match RecordIndex(listDir, names[0])
      case None => rest
      case Some(n) =>
        if rest.Some? && rest.value.1 >= n then rest else Some((names[0], n))
  }

  /**
   * The corrected rule: diff against the record with the highest
   * numeric index (or `initial.json` when there is none) and write the
   * number one past it, so the first run after bootstrap writes number 1.
   * The new record's name is never among the existing ones. As in the
   * code, a chosen listing outside `readable` raises IOError.
   */
  function SelectByIndex(listDir: string, jsonFiles: seq<string>, readable: set<string>): (r: Result<Baseline, Exception>)
    ensures r == Failure(ValueError) <==> InitialName(listDir) !in jsonFiles
    ensures r.Failure? ==> r.error == ValueError || r.error == IOError
    ensures r == Failure(IOError) <==>
      && InitialName(listDir) in jsonFiles
      && (if LatestRecord(listDir, jsonFiles).None? then InitialName(listDir)
          else LatestRecord(listDir, jsonFiles).value.0) !in readable
    ensures InitialName(listDir) in jsonFiles && (forall x :: x in jsonFiles ==> x in readable) ==> r.Success?
    ensures r.Success? ==> r.value.path in readable
    ensures r.Success? ==> r.value.number >= 1
    ensures r.Success? ==>
      forall x :: x in jsonFiles && RecordIndex(listDir, x).Some? ==> RecordIndex(listDir, x).value < r.value.number
    ensures r.Success? ==> RecordName(listDir, r.value.number) !in jsonFiles
    ensures r.Success? ==>
      || (r.value == Baseline(InitialName(listDir), 1) && forall x :: x in jsonFiles ==> RecordIndex(listDir, x).None?)
      || (r.value.path in jsonFiles && RecordIndex(listDir, r.value.path) == Some(r.value.number - 1))
  {
    var initial := InitialName(listDir);
    if initial !in jsonFiles then Failure(ValueError)
    else
      var r := match LatestRecord(listDir, jsonFiles)
        case None => Baseline(initial, 1)
        case Some((name, n)) => Baseline(name, n + 1);
      RecordIndexOfRecordName(listDir, r.number);
      if r.path !in readable then Failure(IOError) else Success(r)
  }

  /** A record numbered above every globbed record becomes the latest once it is added. */
  lemma LatestRecordOfNext(listDir: string, names: seq<string>, n: nat)
    requires forall x :: x in names && RecordIndex(listDir, x).Some? ==> RecordIndex(listDir, x).value < n
    ensures LatestRecord(listDir, names + [RecordName(listDir, n)]) == Some((RecordName(listDir, n), n))
  {
    var record := RecordName(listDir, n);
    var files := names + [record];
    RecordIndexOfRecordName(listDir, n);
    assert record in files;
    var latest := LatestRecord(listDir, files);
    assert latest.value.1 == n;
    assert latest.value.0 !in names;
  }

  /** With a record among the globbed names, the index rule diffs against the latest one and writes the next number. */
  lemma SelectByIndexOfLatest(listDir: string, jsonFiles: seq<string>, readable: set<string>, name: string, n: nat)
    requires InitialName(listDir) in jsonFiles
    requires LatestRecord(listDir, jsonFiles) == Some((name, n)) && name in readable
    ensures SelectByIndex(listDir, jsonFiles, readable) == Success(Baseline(name, n + 1))
  {
  }

  /**
   * Under the code's rule `snapshot_10.json` sorts before `snapshot_9.json`:
   * with both present the run diffs against number 9 and writes number 10
   * again, over the existing `snapshot_10.json`.
   */
  lemma LexicographicOrderRewritesTen(listDir: string, readable: set<string>)
    requires NoDigits(listDir) && RecordName(listDir, 9) in readable
    ensures StrLess(RecordName(listDir, 10), RecordName(listDir, 9))
    ensures SelectBaseline(listDir, [InitialName(listDir), RecordName(listDir, 9), RecordName(listDir, 10)], readable)
         == Success(Baseline(RecordName(listDir, 9), 10))
  {
    var prefix := listDir + "/snapshot_";
    assert NatToString(9) == "9";
    assert NatToString(10) == "10";
    assert RecordName(listDir, 10) == prefix + "10.json";
    assert RecordName(listDir, 9) == prefix + "9.json";
    StrLessCommonPrefix(prefix, "10.json", "9.json");
    InitialIsNotARecord(listDir, 9);
    InitialIsNotARecord(listDir, 10);
    var files := [InitialName(listDir), RecordName(listDir, 9), RecordName(listDir, 10)];
    assert FirstIndex(files, InitialName(listDir)) == 0;
    assert files[..0] + files[1..] == files[1..];
    assert RemoveFirst(files, InitialName(listDir)) == Some(files[1..]);
    StrLessAsymmetric(RecordName(listDir, 10), RecordName(listDir, 9));
    assert Greatest(files[1..]) == RecordName(listDir, 9);
    RecordNumberRoundTrip(listDir, 9);
  }

  /** The index rule orders numerically: with numbers 9 and 10 present it writes 11. */
  lemma ByIndexOrdersNumerically(listDir: string, readable: set<string>)
    requires RecordName(listDir, 10) in readable
    ensures SelectByIndex(listDir, [InitialName(listDir), RecordName(listDir, 9), RecordName(listDir, 10)], readable)
         == Success(Baseline(RecordName(listDir, 10), 11))
  {
    var files := [InitialName(listDir), RecordName(listDir, 9), RecordName(listDir, 10)];
    RecordIndexOfRecordName(listDir, 9);
    RecordIndexOfRecordName(listDir, 10);
    assert RecordIndex(listDir, InitialName(listDir)).None? by {
      var name := InitialName(listDir);
      var prefix := listDir + "/snapshot_";
      if |name| > |prefix| + 5 {
        assert false;
      }
    }
    assert LatestRecord(listDir, files) == Some((RecordName(listDir, 10), 10));
    SelectByIndexOfLatest(listDir, files, readable, RecordName(listDir, 10), 10);
  }

  /** With one listing beside `initial.json`, that listing is the baseline, numbered from its first digit run. */
  lemma SelectBaselineSingle(listDir: string, name: string, run: string, readable: set<string>)
    requires name != InitialName(listDir) && name in readable
    requires FirstDigitRun(name) == Some(run)
    ensures SelectBaseline(listDir, [InitialName(listDir), name], readable) == Success(Baseline(name, ParseNat(run) + 1))
  {
    var files := [InitialName(listDir), name];
    assert RemoveFirst(files, InitialName(listDir)) == Some([name]) by {
      assert FirstIndex(files, files[0]) == 0;
      assert files[..0] + files[1..] == [name];
    }
    assert Greatest([name]) == name;
  }

  lemma FirstRunInDirectory(prefix: string, digits: string, n: nat)
    requires NoDigits(prefix) && AllDigits(digits) && digits != []
    ensures FirstDigitRun(RecordName(prefix + digits, n)) == Some(digits)
  {
    var tail := "/snapshot_" + NatToString(n) + ".json";
    assert RecordName(prefix + digits, n) == prefix + digits + tail;
    FirstDigitRunOfConcat(prefix, digits, tail);
  }

  /**
   * Under the code's rule the first digits of the whole path decide: in a
   * listing directory whose path ends in digits (say `backup2`), the run
   * after `snapshot_<n>.json` is numbered from those digits, whatever `n` is.
   */
  lemma DirectoryDigitsComeFirst(prefix: string, digits: string, n: nat, readable: set<string>)
    requires NoDigits(prefix) && AllDigits(digits) && digits != []
    requires RecordName(prefix + digits, n) in readable
    ensures SelectBaseline(prefix + digits, [InitialName(prefix + digits), RecordName(prefix + digits, n)], readable)
         == Success(Baseline(RecordName(prefix + digits, n), ParseNat(digits) + 1))
  {
    InitialIsNotARecord(prefix + digits, n);
    FirstRunInDirectory(prefix, digits, n);
    SelectBaselineSingle(prefix + digits, RecordName(prefix + digits, n), digits, readable);
  }

  /**
   * The index rule reads the file name only: whatever digits the listing
   * directory's path holds (say `backup2`), the run after
   * `snapshot_<n>.json` diffs against it and writes number `n + 1`.
   */
  lemma ByIndexIgnoresDirectoryDigits(listDir: string, n: nat, readable: set<string>)
    requires RecordName(listDir, n) in readable
    ensures SelectByIndex(listDir, [InitialName(listDir), RecordName(listDir, n)], readable)
         == Success(Baseline(RecordName(listDir, n), n + 1))
  {
    var record := RecordName(listDir, n);
    var files := [InitialName(listDir), record];
    RecordIndexOfRecordName(listDir, n);
    assert RecordIndex(listDir, files[0]).None? by {
      var name := InitialName(listDir);
      var prefix := listDir + "/snapshot_";
      if |name| > |prefix| + 5 {
        assert false;
      }
    }
    assert files[1..] == [record] && files[1..][1..] == [];
    assert LatestRecord(listDir, files[1..]) == Some((record, n));
    assert LatestRecord(listDir, files) == Some((record, n));
    SelectByIndexOfLatest(listDir, files, readable, record, n);
  }
}
