/**
 * `find_version` of the packaging script: scan the lines of a source file
 * for the first one that matches `__version__ = '<v>'` (either quote, at
 * the very start of the line) and return `<v>`, raising a RuntimeError when
 * no line matches or the first match captures an empty version.
 */
module VersionScan {
  import opened Wrappers

  /** The literal text the pattern starts with. */
  const PREFIX: string := "__version__ = "

  const NOT_FOUND: string := "Cannot find version information"

  datatype Error = RuntimeError(message: string)

  predicate IsQuote(c: char) {
    c == '\'' || c == '"'
  }

  predicate NoQuotes(s: string) {
    forall i :: 0 <= i < |s| ==> !IsQuote(s[i])
  }

  /** The position of the first quote of `s`, or `|s|` when there is none. */
  function FirstQuote(s: string): (k: nat)
    ensures k <= |s| && NoQuotes(s[..k])
    ensures k < |s| ==> IsQuote(s[k])
  {
    if s == [] then 0
    else if IsQuote(s[0]) then 0
    else
      var k := FirstQuote(s[1..]);
      assert s[..k + 1] == [s[0]] + s[1..][..k];
      k + 1
  }

  /**
   * `re.match(r'__version__ = [\'"]([^\'"]*)[\'"]', line)`: group 1 when
   * the line matches, anchored at its first character. The group cannot
   * hold a quote, so it runs up to the first quote after the opening one.
   */
  function MatchVersion(line: string): (r: Option<string>)
    ensures r.Some? ==>
      var n := |PREFIX|;
      && |line| >= n + |r.value| + 2
      && line[..n] == PREFIX
      && IsQuote(line[n])
      && line[n + 1..n + 1 + |r.value|] == r.value
      && NoQuotes(r.value)
      && IsQuote(line[n + 1 + |r.value|])
  {
    var n := |PREFIX|;
    if |line| > n && line[..n] == PREFIX && IsQuote(line[n]) then
      var rest := line[n + 1..];
      var k := FirstQuote(rest);
      if k < |rest| then Some(rest[..k]) else None
    else
      None
  }

  /**
   * Every line of the form `__version__ = <q>v<q'>...` with `v` free of
   * quotes matches with group `v`: the two quotes are chosen
   * independently, and whatever follows the closing quote is ignored.
   */
  lemma MatchVersionOf(open: char, v: string, close: char, tail: string)
    requires IsQuote(open) && IsQuote(close) && NoQuotes(v)
    ensures MatchVersion(PREFIX + [open] + v + [close] + tail) == Some(v)
  {
    var line := PREFIX + [open] + v + [close] + tail;
    var n := |PREFIX|;
    assert line[..n] == PREFIX;
    var rest := line[n + 1..];
    assert rest == v + [close] + tail;
    assert FirstQuote(rest) == |v| by {
      assert rest[|v|] == close;
      assert forall i :: 0 <= i < |v| ==> rest[i] == v[i];
    }
    assert rest[..|v|] == v;
  }

  /** The match is anchored: a line that starts with anything but `_` (a space, a tab, a `#`) never matches. */
  lemma MatchIsAnchored(c: char, line: string)
    requires c != '_'
    ensures MatchVersion([c] + line).None?
  {
    var s := [c] + line;
    if |s| > |PREFIX| {
      assert s[..|PREFIX|][0] == c;
    }
  }

  /** The group of the first line that matches; the lines after it are never looked at. */
  function FirstMatch(lines: seq<string>): (r: Option<string>)
    ensures r.None? <==> forall i :: 0 <= i < |lines| ==> MatchVersion(lines[i]).None?
    ensures r.Some? ==> exists i :: 0 <= i < |lines| && MatchVersion(lines[i]) == r &&
                                    forall j :: 0 <= j < i ==> MatchVersion(lines[j]).None?
  {
    if lines == [] then None
    else if MatchVersion(lines[0]).Some? then MatchVersion(lines[0])
    else
      var r := FirstMatch(lines[1..]);
      assert forall i :: 1 <= i < |lines| ==> lines[i] == lines[1..][i - 1];
      r
  }

  /**
   * What `find_version` returns or raises: the first match's group, or a
   * RuntimeError when no line matches or that group is empty.
   */
  function FindVersionResult(lines: seq<string>): (r: Result<string, Error>)
    ensures r.Success? ==> r.value != "" && NoQuotes(r.value) && FirstMatch(lines) == Some(r.value)
    ensures r.Failure? ==> r.error == RuntimeError(NOT_FOUND)
    ensures r.Failure? <==> FirstMatch(lines) == None || FirstMatch(lines) == Some("")
  {
    match FirstMatch(lines)
    case None => Failure(RuntimeError(NOT_FOUND))
    case Some(v) => if v == "" then Failure(RuntimeError(NOT_FOUND)) else Success(v)
  }

  /** `find_version`: loop over the lines, stop at the first match, then check the captured version. */
  method FindVersion(lines: seq<string>) returns (r: Result<string, Error>)
    ensures r == FindVersionResult(lines)
  {
    var version := "";
    var i := 0;
    while i < |lines|
      invariant 0 <= i <= |lines|
      invariant version == ""
      invariant FirstMatch(lines) == FirstMatch(lines[i..])
    {
      assert lines[i..][0] == lines[i];
      var m := MatchVersion(lines[i]);
      if m.Some? {
        version := m.value;
        break;
      }
      assert lines[i..][1..] == lines[i + 1..];
      i := i + 1;
    }
    assert version == "" ==> FirstMatch(lines) == None || FirstMatch(lines) == Some("");
    assert version != "" ==> FirstMatch(lines) == Some(version);
    if version == "" {
      r := Failure(RuntimeError(NOT_FOUND));
    } else {
      r := Success(version);
    }
  }

  /** Lines after the first match change nothing, even when they carry another version. */
  lemma LaterLinesIgnored(lines: seq<string>, more: seq<string>)
    requires FirstMatch(lines).Some?
    ensures FirstMatch(lines + more) == FirstMatch(lines)
    ensures FindVersionResult(lines + more) == FindVersionResult(lines)
  {
    FirstMatchAppend(lines, more);
  }

  lemma {:induction false} FirstMatchAppend(lines: seq<string>, more: seq<string>)
    requires FirstMatch(lines).Some?
    ensures FirstMatch(lines + more) == FirstMatch(lines)
  {
    var all := lines + more;
    assert all[0] == lines[0];
    if MatchVersion(lines[0]).None? {
      assert all[1..] == lines[1..] + more;
      FirstMatchAppend(lines[1..], more);
      assert FirstMatch(all) == FirstMatch(all[1..]);
      assert FirstMatch(lines) == FirstMatch(lines[1..]);
    }
  }

  /**
   * An empty first match raises even when a later line carries a
   * non-empty version.
   */
  lemma EmptyFirstVersionRaises(later: seq<string>)
    ensures FindVersionResult(["__version__ = \"\"\n"] + later) == Failure(RuntimeError(NOT_FOUND))
  {
    MatchVersionOf('"', "", '"', "\n");
    assert PREFIX + ['"'] + "" + ['"'] + "\n" == "__version__ = \"\"\n";
    LaterLinesIgnored(["__version__ = \"\"\n"], later);
  }

  /** The version line of the command-line module yields `0.1.0`. */
  lemma SourceVersion()
    ensures FindVersionResult(["# -*- coding: utf-8 -*-\n", "__version__ = \"0.1.0\"\n", "__author__ = \"Gino Lisignoli\"\n"])
         == Success("0.1.0")
  {
    var lines := ["# -*- coding: utf-8 -*-\n", "__version__ = \"0.1.0\"\n", "__author__ = \"Gino Lisignoli\"\n"];
    MatchIsAnchored('#', lines[0][1..]);
    assert lines[0] == ['#'] + lines[0][1..];
    MatchVersionOf('"', "0.1.0", '"', "\n");
    assert PREFIX + ['"'] + "0.1.0" + ['"'] + "\n" == lines[1];
    assert lines[1..][1..] == [lines[2]];
    LaterLinesIgnored([lines[1]], [lines[2]]);
    assert lines[1..] == [lines[1]] + [lines[2]];
  }
}
