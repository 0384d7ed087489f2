/**
 * The placeholder scanner of the `get` attribute macros.
 *
 * The macros find placeholders with the pattern
 *     \{([a-zA-Z_]\w*(?:\.[a-zA-Z_]\w*)*)\}
 * iterating its captures left to right. This module writes that pattern out
 * as an explicit scanner over positions and proves that the scan returns
 * exactly the leftmost, non-overlapping matches. A matched path is then split
 * on '.' into an argument name followed by field names.
 *
 * Word characters are the ASCII ones, [A-Za-z0-9_].
 */
module Placeholder {
  import opened Wrappers

  predicate IsIdentStart(c: char) {
    ('a' <= c <= 'z') || ('A' <= c <= 'Z') || c == '_'
  }

  predicate IsWordChar(c: char) {
    IsIdentStart(c) || ('0' <= c <= '9')
  }

  /** A character that may occur inside a placeholder's braces. */
  predicate IsPathChar(c: char) {
    IsWordChar(c) || c == '.'
  }

  /** [a-zA-Z_]\w* */
  predicate IsIdent(s: string) {
    |s| > 0 && IsIdentStart(s[0]) && forall i :: 0 < i < |s| ==> IsWordChar(s[i])
  }

  /**
   * The capture group [a-zA-Z_]\w*(?:\.[a-zA-Z_]\w*)*, character by character:
   * it starts an identifier, holds only word characters and dots, and every
   * dot is followed by the start of another identifier.
   */
  predicate IsPath(p: string) {
    && |p| > 0
    && IsIdentStart(p[0])
    && (forall i :: 0 <= i < |p| ==> IsPathChar(p[i]))
    && (forall i :: 0 <= i < |p| && p[i] == '.' ==> i + 1 < |p| && IsIdentStart(p[i + 1]))
  }

  /** The first position at or after k that cannot belong to a path. */
  function PathEnd(s: string, k: nat): (j: nat)
    requires k <= |s|
    ensures k <= j <= |s|
    decreases |s| - k
  {
    if k == |s| || !IsPathChar(s[k]) then k else PathEnd(s, k + 1)
  }

  /** The run of word characters and dots from k stops exactly at PathEnd. */
  lemma {:induction false} PathEndIsMaximal(s: string, k: nat)
    requires k <= |s|
    ensures forall m :: k <= m < PathEnd(s, k) ==> IsPathChar(s[m])
    ensures PathEnd(s, k) < |s| ==> !IsPathChar(s[PathEnd(s, k)])
    decreases |s| - k
  {
    if k < |s| && IsPathChar(s[k]) {
      PathEndIsMaximal(s, k + 1);
    }
  }

  /** The pattern matches s[i..j+1]: '{' at i, '}' at j and a path between. */
  predicate IsMatchAt(s: string, i: nat, j: nat) {
    i < j < |s| && s[i] == '{' && s[j] == '}' && IsPath(s[i + 1..j])
  }

  /**
   * The match of the pattern that starts at i, given by the position of its
   * closing brace.
   */
  function MatchAt(s: string, i: nat): (r: Option<nat>)
    requires i < |s|
    ensures r.Some? ==> s[i] == '{' && i + 2 <= r.value < |s| && s[r.value] == '}'
  {
    if s[i] != '{' then None
    else
      var j := PathEnd(s, i + 1);
      if j < |s| && s[j] == '}' && IsPath(s[i + 1..j]) then Some(j) else None
  }

  /**
   * A match found at i is a real one, and any match starting at i is the one
   * found. A path never holds a brace, so a match starting at i is unique and
   * the regex engine has no alternative to choose between.
   */
  lemma MatchAtIsTheMatch(s: string, i: nat)
    requires i < |s|
    ensures MatchAt(s, i).Some? ==> IsMatchAt(s, i, MatchAt(s, i).value)
    ensures forall j: nat :: IsMatchAt(s, i, j) ==> MatchAt(s, i) == Some(j)
  {
    PathEndIsMaximal(s, i + 1);
    forall j: nat | IsMatchAt(s, i, j)
      ensures MatchAt(s, i) == Some(j)
    {
      var e := PathEnd(s, i + 1);
      forall m | i + 1 <= m < j
        ensures IsPathChar(s[m])
      {
        assert s[m] == s[i + 1..j][m - i - 1];
      }
      if e < j {
        assert false;
      } else if e > j {
        assert false;
      }
    }
  }

  /** The match found at i is a real one. */
  lemma MatchAtFound(s: string, i: nat, j: nat)
    requires i < |s| && MatchAt(s, i) == Some(j)
    ensures IsMatchAt(s, i, j)
  {
  }

  /** One match: the opening brace at `start`, the closing brace at `stop`. */
  datatype Span = Span(start: nat, stop: nat)

  /**
   * Braced spans that lie in s at or after `from`, in order and without
   * overlap: each one starts after the previous one's closing brace.
   */
  ghost predicate Spans(s: string, ms: seq<Span>, from: nat)
    decreases |ms|
  {
    ms == [] ||
      (&& from <= ms[0].start < ms[0].stop < |s|
       && s[ms[0].start] == '{' && s[ms[0].stop] == '}'
       && Spans(s, ms[1..], ms[0].stop + 1))
  }

  /** Every span is a match of the pattern. */
  ghost predicate AllMatch(s: string, ms: seq<Span>) {
    forall k :: 0 <= k < |ms| ==> IsMatchAt(s, ms[k].start, ms[k].stop)
  }

  /**
   * The scan of captures_iter: look for the leftmost match at or after
   * `from`, record it, and resume after its closing brace.
   */
  function Scan(s: string, from: nat): (r: seq<Span>)
    requires from <= |s|
    ensures 3 * |r| <= |s| - from
    decreases |s| - from
  {
    if from == |s| then []
    else
      var m := MatchAt(s, from);
      if m.None? then Scan(s, from + 1)
      else [Span(from, m.value)] + Scan(s, m.value + 1)
  }

  /** The scan yields matches only, in order and without overlap. */
  lemma {:induction false} ScanSpans(s: string, from: nat)
    requires from <= |s|
    ensures Spans(s, Scan(s, from), from) && AllMatch(s, Scan(s, from))
    decreases |s| - from
  {
    if from < |s| {
      var m := MatchAt(s, from);
      if m.None? {
        ScanSpans(s, from + 1);
        ScanSpansSkip(s, from);
      } else {
        ScanSpans(s, m.value + 1);
        ScanSpansTake(s, from, m.value);
      }
    }
  }

  /** No match at `from`: the scan from the next position already lies after `from`. */
  lemma ScanSpansSkip(s: string, from: nat)
    requires from < |s| && MatchAt(s, from).None?
    requires Spans(s, Scan(s, from + 1), from + 1) && AllMatch(s, Scan(s, from + 1))
    ensures Spans(s, Scan(s, from), from) && AllMatch(s, Scan(s, from))
  {
    var rest := Scan(s, from + 1);
    assert Scan(s, from) == rest;
    assert rest != [] ==> from < rest[0].start;
  }

  /** A match at `from`, then the scan after its closing brace. */
  lemma ScanSpansTake(s: string, from: nat, e: nat)
    requires from < |s| && MatchAt(s, from) == Some(e)
    requires Spans(s, Scan(s, e + 1), e + 1) && AllMatch(s, Scan(s, e + 1))
    ensures Spans(s, Scan(s, from), from) && AllMatch(s, Scan(s, from))
  {
    MatchAtFound(s, from, e);
    assert Scan(s, from) == [Span(from, e)] + Scan(s, e + 1);
    SpansCons(s, from, e, Scan(s, e + 1));
  }

  /** A match followed by matches after its closing brace. */
  lemma SpansCons(s: string, from: nat, e: nat, rest: seq<Span>)
    requires IsMatchAt(s, from, e) && Spans(s, rest, e + 1) && AllMatch(s, rest)
    ensures Spans(s, [Span(from, e)] + rest, from) && AllMatch(s, [Span(from, e)] + rest)
  {
    var r := [Span(from, e)] + rest;
    assert r[1..] == rest;
    forall k | 0 < k < |r|
      ensures r[k] == rest[k - 1]
    {
    }
  }

  /** No match can start inside a match: its interior holds no '{'. */
  lemma NoMatchInside(s: string, i: nat, j: nat, m: nat)
    requires IsMatchAt(s, i, j) && i < m <= j
    ensures s[m] != '{'
  {
    if m < j {
      assert s[m] == s[i + 1..j][m - i - 1];
    }
  }

  /** The opening-brace positions of a list of matches. */
  function Starts(ms: seq<Span>): set<nat> {
    if ms == [] then {} else {ms[0].start} + Starts(ms[1..])
  }

  /** Every position where the pattern matches starts one of the scanned matches. */
  lemma {:induction false} ScanComplete(s: string, from: nat, i: nat, j: nat)
    requires from <= i < |s| && MatchAt(s, i) == Some(j)
    ensures i in Starts(Scan(s, from))
    decreases |s| - from
  {
    var m := MatchAt(s, from);
    if i == from {
      StartsHere(s, from, j);
    } else if m.None? {
      ScanComplete(s, from + 1, i, j);
      ScanSkips(s, from);
    } else {
      ScanCompleteApart(s, from, m.value, i, j);
      ScanComplete(s, m.value + 1, i, j);
      StartsLater(s, from, m.value, i);
    }
  }

  lemma ScanCompleteApart(s: string, from: nat, e: nat, i: nat, j: nat)
    requires from < i < |s| && MatchAt(s, from) == Some(e) && MatchAt(s, i) == Some(j)
    ensures e < i
  {
    MatchAtFound(s, i, j);
    MatchAtFound(s, from, e);
    MatchesApart(s, from, e, i, j);
  }

  /** A match that starts after another starts after that one's closing brace. */
  lemma MatchesApart(s: string, a: nat, b: nat, i: nat, j: nat)
    requires IsMatchAt(s, a, b) && IsMatchAt(s, i, j) && a < i
    ensures b < i
  {
    if i <= b {
      NoMatchInside(s, a, b, i);
    }
  }

  lemma StartsHere(s: string, from: nat, j: nat)
    requires from < |s| && MatchAt(s, from) == Some(j)
    ensures from in Starts(Scan(s, from))
  {
    ScanTakes(s, from, j);
    StartsCons(Span(from, j), Scan(s, j + 1));
  }

  lemma ScanSkips(s: string, from: nat)
    requires from < |s| && MatchAt(s, from).None?
    ensures Scan(s, from) == Scan(s, from + 1)
  {
  }

  lemma StartsLater(s: string, from: nat, e: nat, i: nat)
    requires from < |s| && MatchAt(s, from) == Some(e)
    requires e + 1 <= |s| && i in Starts(Scan(s, e + 1))
    ensures i in Starts(Scan(s, from))
  {
    ScanTakes(s, from, e);
    StartsCons(Span(from, e), Scan(s, e + 1));
  }

  lemma StartsCons(m: Span, rest: seq<Span>)
    ensures Starts([m] + rest) == {m.start} + Starts(rest)
  {
    assert ([m] + rest)[1..] == rest;
  }

  lemma {:induction false} StartsIn(ms: seq<Span>, i: nat)
    ensures i in Starts(ms) <==> exists k :: 0 <= k < |ms| && ms[k].start == i
  {
    if ms != [] {
      StartsIn(ms[1..], i);
      if exists k :: 0 <= k < |ms[1..]| && ms[1..][k].start == i {
        var k :| 0 <= k < |ms[1..]| && ms[1..][k].start == i;
        assert ms[k + 1].start == i;
      }
      if exists k :: 0 <= k < |ms| && ms[k].start == i {
        var k :| 0 <= k < |ms| && ms[k].start == i;
        if k > 0 {
          assert ms[1..][k - 1].start == i;
        }
      }
    }
  }

  /** The scan passes over text without '{'. */
  lemma {:induction false} ScanPasses(s: string, from: nat, end: nat)
    requires from <= end <= |s|
    requires forall i :: from <= i < end ==> s[i] != '{'
    ensures Scan(s, from) == Scan(s, end)
    decreases end - from
  {
    if from < end {
      ScanPasses(s, from + 1, end);
    }
  }

  /** The scan records a match found where it stands and resumes after it. */
  lemma ScanTakes(s: string, from: nat, j: nat)
    requires from < |s| && MatchAt(s, from) == Some(j)
    ensures Scan(s, from) == [Span(from, j)] + Scan(s, j + 1)
  {
  }

  /** The full scan of a template, as the macros run it. */
  function Matches(s: string): (r: seq<Span>)
    ensures Spans(s, r, 0)
    ensures forall k :: 0 <= k < |r| ==> r[k].start < r[k].stop < |s|
  {
    ScanSpans(s, 0);
    Scan(s, 0)
  }

  /** Every span of the full scan is a match of the pattern. */
  lemma MatchesMatch(s: string)
    ensures AllMatch(s, Matches(s))
  {
    ScanSpans(s, 0);
  }

  /**
   * Soundness, order and completeness together: the scan finds exactly the
   * positions where the pattern matches, left to right, without overlap.
   */
  lemma MatchesExactly(s: string, i: nat)
    requires i < |s|
    ensures MatchAt(s, i).Some? <==> exists k :: 0 <= k < |Matches(s)| && Matches(s)[k].start == i
  {
    var r := Matches(s);
    MatchesMatch(s);
    MatchAtIsTheMatch(s, i);
    StartsIn(r, i);
    if MatchAt(s, i).Some? {
      ScanComplete(s, 0, i, MatchAt(s, i).value);
    }
    if exists k :: 0 <= k < |r| && r[k].start == i {
      var k :| 0 <= k < |r| && r[k].start == i;
      assert IsMatchAt(s, i, r[k].stop);
    }
  }

  // ---------------------------------------------------------------------
  // Splitting a path on '.', as str::split('.') does.

  /** The first '.' at or after k, or |s| when there is none. */
  function FirstDot(s: string, k: nat): (j: nat)
    requires k <= |s|
    ensures k <= j <= |s|
    ensures forall m :: k <= m < j ==> s[m] != '.'
    ensures j < |s| ==> s[j] == '.'
    decreases |s| - k
  {
    if k == |s| || s[k] == '.' then k else FirstDot(s, k + 1)
  }

  function Split(s: string): (r: seq<string>)
    ensures |r| > 0
    decreases |s|
  {
    var i := FirstDot(s, 0);
    if i == |s| then [s] else [s[..i]] + Split(s[i + 1..])
  }

  function Join(parts: seq<string>): string
    requires |parts| > 0
  {
    if |parts| == 1 then parts[0] else parts[0] + "." + Join(parts[1..])
  }

  function CountDots(s: string): nat {
    if s == [] then 0 else (if s[0] == '.' then 1 else 0) + CountDots(s[1..])
  }

  lemma {:induction false} CountDotsAppend(a: string, b: string)
    ensures CountDots(a + b) == CountDots(a) + CountDots(b)
  {
    if a != [] {
      assert (a + b)[0] == a[0];
      assert (a + b)[1..] == a[1..] + b;
      CountDotsAppend(a[1..], b);
    } else {
      assert a + b == b;
    }
  }

  lemma {:induction false} CountDotsNone(a: string)
    requires forall m :: 0 <= m < |a| ==> a[m] != '.'
    ensures CountDots(a) == 0
  {
    if a != [] {
      CountDotsNone(a[1..]);
    }
  }

  /** Splitting loses nothing: joining the parts back with '.' gives the path. */
  lemma {:induction false} JoinSplit(s: string)
    ensures Join(Split(s)) == s
    decreases |s|
  {
    var i := FirstDot(s, 0);
    if i < |s| {
      var rest := s[i + 1..];
      JoinSplit(rest);
      assert Split(s) == [s[..i]] + Split(rest);
      assert s == s[..i] + "." + rest;
    }
  }

  /** There is one part more than there are dots. */
  lemma {:induction false} SplitCount(s: string)
    ensures |Split(s)| == CountDots(s) + 1
    decreases |s|
  {
    var i := FirstDot(s, 0);
    if i == |s| {
      CountDotsNone(s);
    } else {
      var rest := s[i + 1..];
      SplitCount(rest);
      assert s == s[..i] + ("." + rest);
      CountDotsNone(s[..i]);
      CountDotsAppend(s[..i], "." + rest);
      CountDotsAppend(".", rest);
      assert CountDots(".") == 1 by { assert "."[1..] == []; }
    }
  }

  /** No part holds a dot. */
  lemma {:induction false} SplitNoDots(s: string)
    ensures forall k :: 0 <= k < |Split(s)| ==> '.' !in Split(s)[k]
    decreases |s|
  {
    var i := FirstDot(s, 0);
    if i < |s| {
      SplitNoDots(s[i + 1..]);
      assert Split(s) == [s[..i]] + Split(s[i + 1..]);
    }
  }

  /**
   * A matched path splits into non-empty identifiers: the first names a
   * call argument, each later one a field of the value before it.
   */
  lemma {:induction false} SplitPath(p: string)
    requires IsPath(p)
    ensures forall k :: 0 <= k < |Split(p)| ==> IsIdent(Split(p)[k])
    decreases |p|
  {
    var i := FirstDot(p, 0);
    if i < |p| {
      var rest := p[i + 1..];
      assert p[i + 1] == rest[0];
      forall m | 0 <= m < |rest| && rest[m] == '.'
        ensures m + 1 < |rest| && IsIdentStart(rest[m + 1])
      {
        assert rest[m] == p[i + 1 + m];
      }
      assert IsPath(rest);
      SplitPath(rest);
      assert Split(p) == [p[..i]] + Split(rest);
      assert i > 0;
    }
  }
}
