/**
 * The string primitives the orchestrator relies on: Python's `str(n)` and
 * `int(s)` on decimal digits, the first element of `re.findall(r'\d+', s)`,
 * and Python's ordering of `str` values, which `list.sort()` uses.
 */
module Text {
  import opened Wrappers

  predicate IsDigit(c: char) {
    '0' <= c <= '9'
  }

  predicate AllDigits(s: string) {
    forall i :: 0 <= i < |s| ==> IsDigit(s[i])
  }

  predicate NoDigits(s: string) {
    forall i :: 0 <= i < |s| ==> !IsDigit(s[i])
  }

  function DigitValue(c: char): (d: nat)
    requires IsDigit(c)
    ensures d < 10
  {
    c as int - '0' as int
  }

  function DigitChar(d: nat): (c: char)
    requires d < 10
    ensures IsDigit(c) && DigitValue(c) == d
  {
    ('0' as int + d) as char
  }

  /** Python's `str(n)` for a non-negative integer: decimal, no leading zero. */
  function NatToString(n: nat): (s: string)
    ensures |s| > 0 && AllDigits(s)
    ensures s[0] == '0' ==> n == 0 && s == "0"
  {
    if n < 10 then [DigitChar(n)] else NatToString(n / 10) + [DigitChar(n % 10)]
  }

  /** Python's `int(s)` for a string of decimal digits (leading zeros allowed). */
  function ParseNat(s: string): nat
    requires AllDigits(s)
  {
    if s == [] then 0 else 10 * ParseNat(s[..|s| - 1]) + DigitValue(s[|s| - 1])
  }

  /** `int(s)` is zero exactly when every digit of `s` is `0` (the empty string included). */
  lemma {:induction false} ParseNatZero(s: string)
    requires AllDigits(s)
    ensures ParseNat(s) == 0 <==> forall i :: 0 <= i < |s| ==> s[i] == '0'
  {
    if s != [] {
      var init := s[..|s| - 1];
      ParseNatZero(init);
      assert forall i :: 0 <= i < |init| ==> init[i] == s[i];
    }
  }

  /** `int(str(n)) == n`. */
  lemma {:induction false} ParseNatToString(n: nat)
    ensures ParseNat(NatToString(n)) == n
  {
    if n >= 10 {
      var s := NatToString(n);
      assert s[..|s| - 1] == NatToString(n / 10);
      ParseNatToString(n / 10);
    }
  }

  /** Distinct numbers have distinct decimal names. */
  lemma NatToStringInjective(m: nat, n: nat)
    ensures NatToString(m) == NatToString(n) ==> m == n
  {
    ParseNatToString(m);
    ParseNatToString(n);
  }

  /** The longest prefix of `s` made of digits. */
  function DigitRun(s: string): (r: string)
    ensures |r| <= |s| && r == s[..|r|] && AllDigits(r)
    ensures |r| == |s| || !IsDigit(s[|r|])
  {
    if s == [] || !IsDigit(s[0]) then [] else [s[0]] + DigitRun(s[1..])
  }

  lemma {:induction false} DigitRunOfConcat(d: string, q: string)
    requires AllDigits(d)
    requires q == [] || !IsDigit(q[0])
    ensures DigitRun(d + q) == d
  {
    if d == [] {
    } else {
      assert (d + q)[1..] == d[1..] + q;
      DigitRunOfConcat(d[1..], q);
      assert d == [d[0]] + d[1..];
    }
  }

  /** The position of the first digit of `s`, or `|s|` when there is none. */
  function FirstDigitIndex(s: string): (k: nat)
    ensures k <= |s| && NoDigits(s[..k])
    ensures k < |s| ==> IsDigit(s[k])
  {
    if s == [] then 0
    else if IsDigit(s[0]) then 0
    else
      var k := FirstDigitIndex(s[1..]);
      assert s[..k + 1] == [s[0]] + s[1..][..k];
      k + 1
  }

  /**
   * `re.findall(r'\d+', s)[0]`, with None for the IndexError an empty
   * match list raises.
   */
  function FirstDigitRun(s: string): (r: Option<string>)
    ensures r.None? <==> NoDigits(s)
    ensures r.Some? ==> r.value != [] && AllDigits(r.value)
  {
    var k := FirstDigitIndex(s);
    if k == |s| then
      assert s[..k] == s;
      None
    else
      assert !NoDigits(s) by { assert IsDigit(s[k]); }
      var run := DigitRun(s[k..]);
      assert run != [] by { assert IsDigit(s[k..][0]); }
      Some(run)
  }

  /**
   * The run found is the first maximal run of digits anywhere in `s`: no
   * digit comes before it, and it is neither followed by a digit nor empty.
   */
  lemma FirstDigitRunIsFirstMaximalRun(s: string)
    ensures FirstDigitRun(s).Some? ==>
      var k, run := FirstDigitIndex(s), FirstDigitRun(s).value;
      && NoDigits(s[..k])
      && k + |run| <= |s|
      && s[k..k + |run|] == run
      && (k + |run| == |s| || !IsDigit(s[k + |run|]))
  {
  }

  /**
   * A digit run preceded by no digit and not followed by one is the run the
   * first-digit-run rule finds.
   */
  lemma FirstDigitRunOfConcat(p: string, d: string, q: string)
    requires NoDigits(p) && AllDigits(d) && d != []
    requires q == [] || !IsDigit(q[0])
    ensures FirstDigitRun(p + d + q) == Some(d)
  {
    var s := p + d + q;
    var k := FirstDigitIndex(s);
    assert IsDigit(s[|p|]);
    assert k == |p|;
    assert s[k..] == d + q;
    DigitRunOfConcat(d, q);
  }

  /**
   * Python's `a < b` on `str`: lexicographic by code point, a proper prefix
   * sorting first.
   */
  predicate StrLess(a: string, b: string) {
    if a == [] then b != []
    else if b == [] then false
    else a[0] < b[0] || (a[0] == b[0] && StrLess(a[1..], b[1..]))
  }

  /** Python's order is the textbook lexicographic order of `FirstDifferenceLess`. */
  lemma {:induction false} StrLessIsFirstDifference(a: string, b: string)
    ensures StrLess(a, b) <==> FirstDifferenceLess(a, b)
  {
    if a != [] && b != [] {
      FirstDifferenceStep(a, b);
      StrLessIsFirstDifference(a[1..], b[1..]);
    }
  }

  /**
   * The textbook definition of lexicographic order: `a` is a proper prefix
   * of `b`, or at the first position where they differ `a` has the smaller
   * code point.
   */
  ghost predicate FirstDifferenceLess(a: string, b: string) {
    || (|a| < |b| && a == b[..|a|])
    || exists k :: 0 <= k < |a| && k < |b| && a[..k] == b[..k] && a[k] < b[k]
  }

  lemma FirstDifferenceStep(a: string, b: string)
    requires a != [] && b != []
    ensures FirstDifferenceLess(a, b) <==>
      a[0] < b[0] || (a[0] == b[0] && FirstDifferenceLess(a[1..], b[1..]))
  {
    if a[0] == b[0] {
      if |a[1..]| < |b[1..]| && a[1..] == b[1..][..|a[1..]|] {
        assert a == [a[0]] + a[1..] && b[..|a|] == [b[0]] + b[1..][..|a[1..]|];
      }
      if |a| < |b| && a == b[..|a|] {
        assert a[1..] == b[1..][..|a[1..]|];
      }
      if k :| 0 <= k < |a[1..]| && k < |b[1..]| && a[1..][..k] == b[1..][..k] && a[1..][k] < b[1..][k] {
        assert a[..k + 1] == [a[0]] + a[1..][..k] && b[..k + 1] == [b[0]] + b[1..][..k];
        assert a[k + 1] < b[k + 1];
      }
      if k :| 0 <= k < |a| && k < |b| && a[..k] == b[..k] && a[k] < b[k] {
        assert k > 0;
        assert a[1..][..k - 1] == a[..k][1..] && b[1..][..k - 1] == b[..k][1..];
        assert a[1..][k - 1] < b[1..][k - 1];
      }
    } else if a[0] < b[0] {
      assert a[..0] == b[..0];
    } else {
      if k :| 0 <= k < |a| && k < |b| && a[..k] == b[..k] && a[k] < b[k] {
        if k > 0 {
          assert a[..k][0] == b[..k][0];
        }
      }
    }
  }

  predicate StrLessEq(a: string, b: string) {
    a == b || StrLess(a, b)
  }

  lemma {:induction false} StrLessIrreflexive(a: string)
    ensures !StrLess(a, a)
  {
    if a != [] {
      StrLessIrreflexive(a[1..]);
    }
  }

  lemma {:induction false} StrLessTransitive(a: string, b: string, c: string)
    requires StrLess(a, b) && StrLess(b, c)
    ensures StrLess(a, c)
  {
    if a != [] && a[0] == b[0] && b[0] == c[0] {
      StrLessTransitive(a[1..], b[1..], c[1..]);
    }
  }

  lemma {:induction false} StrLessTotal(a: string, b: string)
    ensures a == b || StrLess(a, b) || StrLess(b, a)
  {
    if a != [] && b != [] && a[0] == b[0] {
      StrLessTotal(a[1..], b[1..]);
      if a[1..] == b[1..] {
        assert a == [a[0]] + a[1..] && b == [b[0]] + b[1..];
      }
    }
  }

  lemma StrLessAsymmetric(a: string, b: string)
    requires StrLess(a, b)
    ensures !StrLess(b, a)
  {
    if StrLess(b, a) {
      StrLessTransitive(a, b, a);
      StrLessIrreflexive(a);
    }
  }

  /** Comparing two strings with a common prefix compares what follows it. */
  lemma {:induction false} StrLessCommonPrefix(p: string, a: string, b: string)
    ensures StrLess(p + a, p + b) <==> StrLess(a, b)
  {
    if p != [] {
      assert (p + a)[1..] == p[1..] + a;
      assert (p + b)[1..] == p[1..] + b;
      StrLessCommonPrefix(p[1..], a, b);
    } else {
      assert p + a == a && p + b == b;
    }
  }

  lemma UpperBoundWeakens(xs: seq<string>, g: string, h: string)
    requires forall x :: x in xs ==> StrLessEq(x, g)
    requires StrLessEq(g, h)
    ensures forall x :: x in xs ==> StrLessEq(x, h)
  {
    forall x | x in xs
      ensures StrLessEq(x, h)
    {
      if StrLess(x, g) && StrLess(g, h) {
        StrLessTransitive(x, g, h);
      }
    }
  }

  /** The element `listfiles[-1]` names after `listfiles.sort()`. */
  function Greatest(names: seq<string>): (g: string)
    requires |names| > 0
    ensures g in names
    ensures forall x :: x in names ==> StrLessEq(x, g)
  {
    if |names| == 1 then names[0]
    else
      var rest := Greatest(names[1..]);
      assert names == [names[0]] + names[1..];
      if StrLess(names[0], rest) then
        rest
      else
        StrLessTotal(names[0], rest);
        UpperBoundWeakens(names[1..], rest, names[0]);
        names[0]
  }

  predicate Sorted(s: seq<string>) {
    forall i, j :: 0 <= i < j < |s| ==> StrLessEq(s[i], s[j])
  }

  /**
   * Whatever order the names come in, the last element of any sorted
   * rearrangement of them is `Greatest`: `sort()` followed by `[-1]`.
   */
  lemma SortedLastIsGreatest(s: seq<string>, t: seq<string>)
    requires |s| > 0 && multiset(s) == multiset(t) && Sorted(t)
    ensures |t| > 0 && t[|t| - 1] == Greatest(s)
  {
    assert s[0] in multiset(t);
    var g := Greatest(s);
    assert g in multiset(t);
    var k :| 0 <= k < |t| && t[k] == g;
    var last := t[|t| - 1];
    assert StrLessEq(g, last);
    assert last in multiset(s);
    assert StrLessEq(last, g);
    if last != g {
      StrLessAsymmetric(g, last);
    }
  }

  /** Two upper bounds that belong to the same collection are equal. */
  lemma GreatestUnique(s: seq<string>, t: seq<string>)
    requires |s| > 0 && multiset(s) == multiset(t)
    ensures |t| > 0 && Greatest(s) == Greatest(t)
  {
    assert s[0] in multiset(t);
    var g, h := Greatest(s), Greatest(t);
    assert g in multiset(t);
    assert h in multiset(s);
    assert g in t && h in s;
    assert StrLessEq(g, h) && StrLessEq(h, g);
    if g != h {
      StrLessAsymmetric(g, h);
    }
  }
}
