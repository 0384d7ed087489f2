/**
 * Cache keys from key templates.
 *
 * At expansion time the macros scan the template and emit, for every
 * placeholder, one statement
 *     cache_key = cache_key.replace(full, &(arg.field...).to_string());
 * At call time the generated body starts from the template text and runs
 * those statements in template order.
 *
 * Besides that sequential model this module gives the template its
 * structured reading, a list of literal pieces and holes, and proves when
 * the two agree.
 */
module KeyTemplate {
  import opened Wrappers
  import opened Placeholder

  /** An argument value: a displayable leaf, or a struct with named fields. */
  datatype Value = Leaf(text: string) | Record(fields: map<string, Value>)

  /** Why a placeholder path has no string form (a type error in Rust). */
  datatype BindingError =
    | UnknownArgument(name: string)
    | UnknownField(name: string)
    | NotDisplayable

  /** Successive field accesses starting from v. */
  function Walk(v: Value, fields: seq<string>): (r: Result<Value, BindingError>)
    ensures r.Err? ==> r.error.UnknownField? && r.error.name in fields
    decreases fields
  {
    if fields == [] then Ok(v)
    else
      match v
      case Leaf(_) => Err(UnknownField(fields[0]))
      case Record(m) =>
        if fields[0] in m then Walk(m[fields[0]], fields[1..]) else Err(UnknownField(fields[0]))
  }

  /** The string form of `first.f1.f2...` in the call's arguments. */
  function Resolve(args: map<string, Value>, path: seq<string>): (r: Result<string, BindingError>)
    requires |path| > 0
    ensures r.Err? ==> (r.error == UnknownArgument(path[0]) <==> path[0] !in args)
    ensures r.Ok? ==> path[0] in args && Walk(args[path[0]], path[1..]) == Ok(Leaf(r.value))
    ensures path[0] in args && Walk(args[path[0]], path[1..]).Ok? ==>
      r == match Walk(args[path[0]], path[1..]).value
           case Leaf(t) => Ok(t)
           case Record(_) => Err(NotDisplayable)
    ensures path[0] in args && Walk(args[path[0]], path[1..]).Err? ==>
      r == Err(Walk(args[path[0]], path[1..]).error)
  {
    if path[0] !in args then Err(UnknownArgument(path[0]))
    else
      match Walk(args[path[0]], path[1..])
      case Err(e) => Err(e)
      case Ok(Leaf(t)) => Ok(t)
      case Ok(Record(_)) => Err(NotDisplayable)
  }

  /** One field access: it succeeds exactly on a record that has the field. */
  lemma WalkStep(v: Value, f: string)
    ensures Walk(v, [f]) == if v.Record? && f in v.fields then Ok(v.fields[f]) else Err(UnknownField(f))
  {
    if v.Record? && f in v.fields {
      assert [f][1..] == [];
    }
  }

  /** `a.f.g` is `(a.f).g`: a chain of field accesses can be split anywhere. */
  lemma {:induction false} WalkThen(v: Value, f: seq<string>, g: seq<string>)
    ensures Walk(v, f + g) == match Walk(v, f) case Ok(u) => Walk(u, g) case Err(e) => Err(e)
    decreases f
  {
    if f != [] {
      assert (f + g)[0] == f[0] && (f + g)[1..] == f[1..] + g;
      if v.Record? && f[0] in v.fields {
        WalkThen(v.fields[f[0]], f[1..], g);
      }
    } else {
      assert f + g == g;
    }
  }

  // ---------------------------------------------------------------------
  // String::replace

  /** Every leftmost, non-overlapping occurrence of pat replaced by rep. */
  function ReplaceAll(s: string, pat: string, rep: string): (r: string)
    requires |pat| > 0
    ensures rep == pat ==> r == s
    decreases |s|
  {
    if |s| < |pat| then s
    else if s[..|pat|] == pat then rep + ReplaceAll(s[|pat|..], pat, rep)
    else [s[0]] + ReplaceAll(s[1..], pat, rep)
  }

  /** A prefix without '{' is kept as it is by a replace of a placeholder text. */
  lemma {:induction false} ReplaceSkip(x: string, rest: string, pat: string, rep: string)
    requires |pat| > 0 && pat[0] == '{' && '{' !in x
    ensures ReplaceAll(x + rest, pat, rep) == x + ReplaceAll(rest, pat, rep)
    decreases |x|
  {
    if x == [] {
      assert x + rest == rest;
    } else if |x + rest| < |pat| {
    } else {
      ReplaceSkip(x[1..], rest, pat, rep);
      ReplaceSkipStep(x, rest, pat, rep);
    }
  }

  /** One character of a prefix without '{', given the replace of what follows it. */
  lemma ReplaceSkipStep(x: string, rest: string, pat: string, rep: string)
    requires |pat| > 0 && pat[0] == '{' && '{' !in x && x != [] && |x + rest| >= |pat|
    requires ReplaceAll(x[1..] + rest, pat, rep) == x[1..] + ReplaceAll(rest, pat, rep)
    ensures ReplaceAll(x + rest, pat, rep) == x + ReplaceAll(rest, pat, rep)
  {
    var s := x + rest;
    assert s[0] == x[0] && x[0] in x;
    assert s[..|pat|][0] == s[0];
    assert s[1..] == x[1..] + rest;
    assert ReplaceAll(s, pat, rep) == [x[0]] + ReplaceAll(s[1..], pat, rep);
    assert x == [x[0]] + x[1..];
  }

  lemma ReplaceHit(pat: string, rest: string, rep: string)
    requires |pat| > 0
    ensures ReplaceAll(pat + rest, pat, rep) == rep + ReplaceAll(rest, pat, rep)
  {
    assert (pat + rest)[..|pat|] == pat;
    assert (pat + rest)[|pat|..] == rest;
  }

  /**
   * One placeholder between texts without '{' becomes the value, whatever
   * the value holds: `replace` does not look again at the text it inserted.
   */
  lemma ReplaceOne(a: string, p: string, c: string, v: string)
    requires '{' !in a && '{' !in c
    ensures ReplaceAll(a + Braced(p) + c, Braced(p), v) == a + v + c
  {
    var pat := Braced(p);
    assert a + pat + c == a + (pat + c);
    ReplaceSkip(a, pat + c, pat, v);
    ReplaceHit(pat, c, v);
    assert c + "" == c;
    ReplaceSkip(c, "", pat, v);
    assert ReplaceAll("", pat, v) == "";
  }

  /** The text of a placeholder whose path is p. */
  function Braced(p: string): (r: string)
    ensures |r| == |p| + 2 && r[0] == '{' && r[|r| - 1] == '}'
  {
    "{" + p + "}"
  }

  /** A path holds no brace. */
  lemma PathHasNoBrace(p: string)
    requires IsPath(p)
    ensures '{' !in p && '}' !in p
  {
  }

  /** The text of one placeholder does not begin with the text of another. */
  lemma BracedNotPrefix(q: string, p: string, s: string)
    requires '}' !in p && '}' !in q && p != q
    requires |s| >= |q| + 2 && s[..|q| + 2] == Braced(q)
    ensures |s| >= |p| + 2 ==> s[..|p| + 2] != Braced(p)
  {
    if |s| >= |p| + 2 {
      var pre, bq := s[..|p| + 2], Braced(q);
      if |p| == |q| {
        assert Braced(p)[1..|p| + 1] == p && bq[1..|q| + 1] == q;
      } else if |p| < |q| {
        assert pre[|p| + 1] == s[|p| + 1] == bq[|p| + 1];
        assert bq[|p| + 1] == q[|p|] != '}';
        assert Braced(p)[|p| + 1] == '}';
      } else {
        assert pre[|q| + 1] == s[|q| + 1] == bq[|q| + 1] == '}';
        assert Braced(p)[|q| + 1] == p[|q|] != '}';
      }
    }
  }

  /** A replace of one placeholder leaves another placeholder alone. */
  lemma ReplaceOther(q: string, p: string, rest: string, v: string)
    requires IsPath(p) && IsPath(q) && p != q
    ensures ReplaceAll(Braced(q) + rest, Braced(p), v) == Braced(q) + ReplaceAll(rest, Braced(p), v)
  {
    PathHasNoBrace(p);
    PathHasNoBrace(q);
    ReplaceOtherText(q, p, rest, v);
  }

  lemma ReplaceOtherText(q: string, p: string, rest: string, v: string)
    requires '{' !in p && '}' !in p && '{' !in q && '}' !in q && p != q
    ensures ReplaceAll(Braced(q) + rest, Braced(p), v) == Braced(q) + ReplaceAll(rest, Braced(p), v)
  {
    var x, pat := Braced(q), Braced(p);
    var s := x + rest;
    if |s| >= |pat| {
      assert s[..|q| + 2] == x;
      BracedNotPrefix(q, p, s);
      ReplaceMiss(s, pat, v);
      var tail := q + "}";
      assert s[1..] == tail + rest;
      ReplaceSkip(tail, rest, pat, v);
      assert x == [s[0]] + tail;
    } else {
      assert ReplaceAll(rest, pat, v) == rest;
    }
  }

  /** Where the pattern does not start, `replace` keeps the first character and goes on. */
  lemma ReplaceMiss(s: string, pat: string, rep: string)
    requires |pat| > 0 && |s| >= |pat| && s[..|pat|] != pat
    ensures ReplaceAll(s, pat, rep) == [s[0]] + ReplaceAll(s[1..], pat, rep)
  {
  }

  // ---------------------------------------------------------------------
  // The structured reading of a template

  datatype Segment = Lit(text: string) | Hole(path: string)

  function SegmentText(g: Segment): string {
    match g
    case Lit(t) => t
    case Hole(p) => Braced(p)
  }

  /** A template written back out, holes as `{path}`. */
  function Text(segs: seq<Segment>): string {
    if segs == [] then "" else SegmentText(segs[0]) + Text(segs[1..])
  }

  /** The literal text before each match, the match as a hole, and the text after the last one. */
  function Pieces(s: string, ms: seq<Span>, from: nat): seq<Segment>
    requires from <= |s| && Spans(s, ms, from)
    decreases |ms|
  {
    if ms == [] then [Lit(s[from..])]
    else
      [Lit(s[from..ms[0].start]), Hole(s[ms[0].start + 1..ms[0].stop])]
      + Pieces(s, ms[1..], ms[0].stop + 1)
  }

  function Compile(s: string): seq<Segment> {
    Pieces(s, Matches(s), 0)
  }

  function HolePaths(segs: seq<Segment>): seq<string> {
    if segs == [] then []
    else if segs[0].Hole? then [segs[0].path] + HolePaths(segs[1..])
    else HolePaths(segs[1..])
  }

  lemma TextOfHole(a: string, b: string, rest: seq<Segment>)
    ensures Text([Lit(a), Hole(b)] + rest) == a + Braced(b) + Text(rest)
  {
    var segs := [Lit(a), Hole(b)] + rest;
    assert segs[1..][1..] == rest;
  }

  lemma AroundMatch(s: string, from: nat, a: nat, b: nat)
    requires from <= a < b < |s| && s[a] == '{' && s[b] == '}'
    ensures s[from..] == s[from..a] + Braced(s[a + 1..b]) + s[b + 1..]
  {
    assert s[from..] == s[from..a] + [s[a]] + s[a + 1..b] + [s[b]] + s[b + 1..];
  }

  lemma {:induction false} PiecesText(s: string, ms: seq<Span>, from: nat)
    requires from <= |s| && Spans(s, ms, from)
    ensures Text(Pieces(s, ms, from)) == s[from..]
    decreases |ms|
  {
    if ms == [] {
      PiecesTextLast(s, from, Pieces(s, ms, from));
    } else {
      PiecesText(s, ms[1..], ms[0].stop + 1);
      PiecesTextCons(s, ms, from);
    }
  }

  /** The text of the pieces, given the text of the pieces after the first match. */
  lemma PiecesTextCons(s: string, ms: seq<Span>, from: nat)
    requires from <= |s| && Spans(s, ms, from) && ms != []
    requires Text(Pieces(s, ms[1..], ms[0].stop + 1)) == s[ms[0].stop + 1..]
    ensures Text(Pieces(s, ms, from)) == s[from..]
  {
    PiecesHead(s, ms, from);
    PiecesTextStep(s, from, ms[0].start, ms[0].stop, Pieces(s, ms[1..], ms[0].stop + 1), Pieces(s, ms, from));
  }

  /** The pieces before and at the first match, then the pieces of the rest. */
  lemma PiecesHead(s: string, ms: seq<Span>, from: nat)
    requires from <= |s| && Spans(s, ms, from) && ms != []
    ensures from <= ms[0].start < ms[0].stop < |s|
    ensures s[ms[0].start] == '{' && s[ms[0].stop] == '}'
    ensures Spans(s, ms[1..], ms[0].stop + 1)
    ensures Pieces(s, ms, from)
         == [Lit(s[from..ms[0].start]), Hole(s[ms[0].start + 1..ms[0].stop])] + Pieces(s, ms[1..], ms[0].stop + 1)
  {
  }

  lemma PiecesTextLast(s: string, from: nat, segs: seq<Segment>)
    requires from <= |s| && segs == [Lit(s[from..])]
    ensures Text(segs) == s[from..]
  {
    assert Text(segs) == s[from..] + Text([]);
  }

  /** The text of a literal, a hole and pieces that already read back as the rest of s. */
  lemma PiecesTextStep(s: string, from: nat, a: nat, b: nat, rest: seq<Segment>, segs: seq<Segment>)
    requires from <= a < b < |s| && s[a] == '{' && s[b] == '}'
    requires segs == [Lit(s[from..a]), Hole(s[a + 1..b])] + rest
    requires Text(rest) == s[b + 1..]
    ensures Text(segs) == s[from..]
  {
    TextOfHole(s[from..a], s[a + 1..b], rest);
    AroundMatch(s, from, a, b);
  }

  /** Compiling a template and writing it back out gives the template. */
  lemma TemplateRoundTrip(s: string)
    ensures Text(Compile(s)) == s
  {
    PiecesText(s, Matches(s), 0);
  }

  /**
   * A segment list a template can compile to: literals and holes alternate,
   * starting and ending with a literal; no literal holds '{' and every hole
   * holds a path.
   */
  predicate Canonical(segs: seq<Segment>)
    decreases |segs|
  {
    && |segs| > 0
    && segs[0].Lit? && '{' !in segs[0].text
    && (|segs| == 1 || (|segs| >= 3 && segs[1].Hole? && IsPath(segs[1].path) && Canonical(segs[2..])))
  }

  lemma CanonicalParts(segs: seq<Segment>)
    requires Canonical(segs) && |segs| > 1
    ensures segs == [Lit(segs[0].text), Hole(segs[1].path)] + segs[2..]
  {
  }

  /** The segments the scan yields from position `from` on. */
  function CompileFrom(s: string, from: nat): seq<Segment>
    requires from <= |s|
  {
    ScanSpans(s, from);
    Pieces(s, Scan(s, from), from)
  }

  /** Past a literal without '{', the scan finds nothing more. */
  lemma LitLast(x: string, segs: seq<Segment>)
    requires Canonical(segs) && |segs| == 1
    ensures CompileFrom(x + Text(segs), |x|) == segs
  {
    var t := segs[0].text;
    assert Text(segs) == t + Text([]) == t;
    var s := x + t;
    ScanPasses(s, |x|, |s|);
    assert s[|x|..] == t;
  }

  /** Where the pieces of a literal, a placeholder and the rest lie in their concatenation. */
  lemma Layout(s: string, x: string, t: string, p: string, r: string)
    requires s == x + t + Braced(p) + r
    ensures |x + t + Braced(p)| == |x| + |t| + |p| + 2 < |s| + 1
    ensures |x| + |t| + |p| + 1 < |s|
    ensures s[|x|..|x| + |t|] == t && s[|x| + |t|] == '{'
    ensures s[|x| + |t| + 1..|x| + |t| + |p| + 1] == p && s[|x| + |t| + |p| + 1] == '}'
  {
    var a := |x| + |t|;
    var q := Braced(p);
    assert s == (x + t) + q + r;
    assert s[a] == q[0];
    assert s[a + |p| + 1] == q[|p| + 1];
    assert s[a + 1..a + |p| + 1] == q[1..|p| + 1];
  }

  /** Past text without '{', the scan finds the placeholder that follows it. */
  lemma HoleNext(s: string, from: nat, a: nat, b: nat)
    requires from <= a && IsMatchAt(s, a, b)
    requires forall i :: from <= i < a ==> s[i] != '{'
    ensures Scan(s, from) == [Span(a, b)] + Scan(s, b + 1)
  {
    ScanPasses(s, from, a);
    MatchAtIsTheMatch(s, a);
    ScanTakes(s, a, b);
  }

  /** Pieces of a scan that starts with a match: the literal before it, its hole, then the rest. */
  lemma PiecesCons(s: string, from: nat, a: nat, b: nat, rest: seq<Span>)
    requires from <= |s| && Spans(s, [Span(a, b)] + rest, from)
    ensures from <= a < b < |s| && Spans(s, rest, b + 1)
    ensures Pieces(s, [Span(a, b)] + rest, from) == [Lit(s[from..a]), Hole(s[a + 1..b])] + Pieces(s, rest, b + 1)
  {
    var ms := [Span(a, b)] + rest;
    assert ms[0] == Span(a, b) && ms[1..] == rest;
  }

  /** A literal without '{' followed by a placeholder compiles to a literal and a hole. */
  lemma CanonicalStep(s: string, from: nat, a: nat, b: nat, t: string, p: string)
    requires '{' !in t && IsPath(p) && b == a + |p| + 1
    requires from <= a && b < |s|
    requires s[from..a] == t && s[a] == '{' && s[a + 1..b] == p && s[b] == '}'
    ensures CompileFrom(s, from) == [Lit(t), Hole(p)] + CompileFrom(s, b + 1)
  {
    forall i | from <= i < a
      ensures s[i] != '{'
    {
      assert s[i] == t[i - from];
    }
    HoleNext(s, from, a, b);
    ScanSpans(s, from);
    PiecesCons(s, from, a, b, Scan(s, b + 1));
  }

  lemma Regroup(a: string, b: string, c: string, d: string)
    ensures a + (b + c + d) == a + b + c + d
  {
  }

  /** The compiled text of a literal and a placeholder before text that already reads back. */
  lemma HoleFirst(s: string, x: string, t: string, p: string, r: string, rest: seq<Segment>)
    requires '{' !in t && IsPath(p)
    requires s == x + t + Braced(p) + r
    requires CompileFrom(s, |x + t + Braced(p)|) == rest
    ensures CompileFrom(s, |x|) == [Lit(t), Hole(p)] + rest
  {
    Layout(s, x, t, p, r);
    var a := |x| + |t|;
    var b := a + |p| + 1;
    assert CompileFrom(s, b + 1) == rest;
    CanonicalStep(s, |x|, a, b, t, p);
  }

  /** The scanner reads a canonical segment list back from its text, after any prefix. */
  lemma {:induction false} PiecesOfText(x: string, segs: seq<Segment>)
    requires Canonical(segs)
    ensures CompileFrom(x + Text(segs), |x|) == segs
    decreases |segs|
  {
    if |segs| == 1 {
      LitLast(x, segs);
    } else {
      var t, p, rest := segs[0].text, segs[1].path, segs[2..];
      CanonicalParts(segs);
      PiecesOfText(x + t + Braced(p), rest);
      assert x + Text(segs) == x + t + Braced(p) + Text(rest) by {
        TextOfHole(t, p, rest);
        Regroup(x, t, Braced(p), Text(rest));
      }
      HoleFirst(x + Text(segs), x, t, p, Text(rest), rest);
    }
  }

  /** Writing out a canonical segment list and compiling it gives the list back. */
  lemma CompileText(segs: seq<Segment>)
    requires Canonical(segs)
    ensures Compile(Text(segs)) == segs
  {
    PiecesOfText("", segs);
    assert "" + Text(segs) == Text(segs);
    assert Compile(Text(segs)) == CompileFrom(Text(segs), 0);
  }

  /** The holes of a compiled template are the scanned paths, in order. */
  lemma {:induction false} PiecesHoles(s: string, ms: seq<Span>, from: nat)
    requires from <= |s| && Spans(s, ms, from) && AllMatch(s, ms)
    ensures |HolePaths(Pieces(s, ms, from))| == |ms|
    ensures forall k :: 0 <= k < |ms| ==>
      HolePaths(Pieces(s, ms, from))[k] == s[ms[k].start + 1..ms[k].stop]
    decreases |ms|
  {
    if ms != [] {
      var rest := Pieces(s, ms[1..], ms[0].stop + 1);
      PiecesHead(s, ms, from);
      AllMatchTail(s, ms);
      PiecesHoles(s, ms[1..], ms[0].stop + 1);
      HolePathsCons(s[from..ms[0].start], s[ms[0].start + 1..ms[0].stop], rest);
      PathsShift(s, ms, HolePaths(Pieces(s, ms, from)), HolePaths(rest));
    }
  }

  /** The paths of a list of spans, given the paths of all but its first. */
  lemma PathsShift(s: string, ms: seq<Span>, hs: seq<string>, tail: seq<string>)
    requires ms != [] && forall k :: 0 <= k < |ms| ==> ms[k].start < ms[k].stop < |s|
    requires hs == [s[ms[0].start + 1..ms[0].stop]] + tail && |tail| == |ms| - 1
    requires forall k :: 0 <= k < |ms| - 1 ==> tail[k] == s[ms[1..][k].start + 1..ms[1..][k].stop]
    ensures |hs| == |ms|
    ensures forall k :: 0 <= k < |ms| ==> hs[k] == s[ms[k].start + 1..ms[k].stop]
  {
    forall k | 0 < k < |ms|
      ensures hs[k] == s[ms[k].start + 1..ms[k].stop]
    {
      assert hs[k] == tail[k - 1];
      assert ms[1..][k - 1] == ms[k];
    }
  }

  lemma HolePathsCons(t: string, p: string, rest: seq<Segment>)
    ensures HolePaths([Lit(t), Hole(p)] + rest) == [p] + HolePaths(rest)
  {
    var segs := [Lit(t), Hole(p)] + rest;
    assert segs[1..][1..] == rest;
  }

  ghost predicate HolesArePaths(segs: seq<Segment>) {
    forall k :: 0 <= k < |segs| && segs[k].Hole? ==> IsPath(segs[k].path)
  }

  lemma {:induction false} PiecesArePaths(s: string, ms: seq<Span>, from: nat)
    requires from <= |s| && Spans(s, ms, from) && AllMatch(s, ms)
    ensures HolesArePaths(Pieces(s, ms, from))
    decreases |ms|
  {
    if ms != [] {
      PiecesHead(s, ms, from);
      AllMatchTail(s, ms);
      PiecesArePaths(s, ms[1..], ms[0].stop + 1);
      HolesArePathsCons(s[from..ms[0].start], s[ms[0].start + 1..ms[0].stop], Pieces(s, ms[1..], ms[0].stop + 1));
    }
  }

  lemma AllMatchTail(s: string, ms: seq<Span>)
    requires AllMatch(s, ms) && ms != []
    ensures IsPath(s[ms[0].start + 1..ms[0].stop]) && AllMatch(s, ms[1..])
  {
    assert IsMatchAt(s, ms[0].start, ms[0].stop);
    forall k | 0 <= k < |ms| - 1
      ensures IsMatchAt(s, ms[1..][k].start, ms[1..][k].stop)
    {
      assert ms[1..][k] == ms[k + 1];
    }
  }

  lemma HolesArePathsCons(t: string, p: string, rest: seq<Segment>)
    requires IsPath(p) && HolesArePaths(rest)
    ensures HolesArePaths([Lit(t), Hole(p)] + rest)
  {
    var segs := [Lit(t), Hole(p)] + rest;
    forall k | 2 <= k < |segs|
      ensures segs[k] == rest[k - 2]
    {
    }
  }

  // ---------------------------------------------------------------------
  // The generated replace statements

  /** One `cache_key = cache_key.replace(full, &(path).to_string())`. */
  datatype Replace = Replace(full: string, path: seq<string>)

  function ReplaceFor(p: string): Replace {
    Replace(Braced(p), Split(p))
  }

  function ReplacesFor(paths: seq<string>): (r: seq<Replace>)
    ensures |r| == |paths|
    ensures forall k :: 0 <= k < |paths| ==> r[k] == ReplaceFor(paths[k])
  {
    if paths == [] then [] else [ReplaceFor(paths[0])] + ReplacesFor(paths[1..])
  }

  /** The replace statements a template expands to. */
  function Replaces(template: string): (r: seq<Replace>)
    ensures |r| == |Matches(template)|
  {
    MatchesMatch(template);
    PiecesHoles(template, Matches(template), 0);
    ReplacesFor(HolePaths(Compile(template)))
  }

  /** The k-th replace statement is the one for the k-th match's path. */
  lemma ReplacesAt(template: string, k: nat)
    requires k < |Matches(template)|
    ensures Replaces(template)[k] == ReplaceFor(template[Matches(template)[k].start + 1..Matches(template)[k].stop])
  {
    MatchesMatch(template);
    PiecesHoles(template, Matches(template), 0);
  }

  /** The full text of a match is its path in braces. */
  lemma FullIsBraced(s: string, a: nat, b: nat)
    requires IsMatchAt(s, a, b)
    ensures s[a..b + 1] == Braced(s[a + 1..b])
  {
    assert s[a..b + 1] == [s[a]] + s[a + 1..b] + [s[b]];
  }

  /**
   * The expansion-time loop over the placeholder matches: for each one, its
   * full text and its path split into an argument name and field names.
   */
  method CompileReplaces(template: string) returns (edits: seq<Replace>)
    ensures edits == Replaces(template)
  {
    var ms := Matches(template);
    ghost var spec := Replaces(template);
    edits := [];
    var i := 0;
    while i < |ms|
      invariant 0 <= i <= |ms| == |spec|
      invariant edits == spec[..i]
    {
      var m := ms[i];
      var full := template[m.start..m.stop + 1];
      var path := template[m.start + 1..m.stop];
      ReplaceOfMatch(template, i);
      PrefixStep(spec, i);
      edits := edits + [Replace(full, Split(path))];
      i := i + 1;
    }
    assert spec[..|ms|] == spec;
  }

  lemma PrefixStep<T>(xs: seq<T>, i: nat)
    requires i < |xs|
    ensures xs[..i + 1] == xs[..i] + [xs[i]]
  {
  }

  /** The k-th replace statement: the k-th match's text and its split path. */
  lemma ReplaceOfMatch(template: string, k: nat)
    requires k < |Matches(template)|
    ensures var m := Matches(template)[k];
      && m.start < m.stop < |template|
      && Replaces(template)[k] == Replace(template[m.start..m.stop + 1], Split(template[m.start + 1..m.stop]))
  {
    var m := Matches(template)[k];
    MatchesMatch(template);
    assert IsMatchAt(template, m.start, m.stop);
    FullIsBraced(template, m.start, m.stop);
    ReplacesAt(template, k);
  }

  /**
   * Each replace statement names a placeholder by its full text and reaches
   * its value through a non-empty chain of identifiers, one more than the
   * dots in the path.
   */
  lemma ReplacesAreIdentifierChains(template: string, k: nat)
    requires k < |Matches(template)|
    ensures
      var m, e := Matches(template)[k], Replaces(template)[k];
      && e.full == template[m.start..m.stop + 1]
      && Join(e.path) == template[m.start + 1..m.stop]
      && |e.path| == CountDots(template[m.start + 1..m.stop]) + 1
      && (forall n :: 0 <= n < |e.path| ==> IsIdent(e.path[n]))
  {
    var m := Matches(template)[k];
    var path := template[m.start + 1..m.stop];
    MatchesMatch(template);
    assert IsMatchAt(template, m.start, m.stop);
    ReplacesAt(template, k);
    FullIsBraced(template, m.start, m.stop);
    PathParts(path);
  }

  /** A path splits into identifiers that join back to it, one more than its dots. */
  lemma PathParts(p: string)
    requires IsPath(p)
    ensures Join(Split(p)) == p && |Split(p)| == CountDots(p) + 1
    ensures forall n :: 0 <= n < |Split(p)| ==> IsIdent(Split(p)[n])
  {
    JoinSplit(p);
    SplitCount(p);
    SplitPath(p);
  }

  // ---------------------------------------------------------------------
  // The generated key-building statements

  ghost predicate WellFormed(edits: seq<Replace>) {
    forall k :: 0 <= k < |edits| ==> |edits[k].full| > 0 && |edits[k].path| > 0
  }

  /** The replace statements run in order on the key; a path without a string form stops. */
  function Substitute(key: string, edits: seq<Replace>, args: map<string, Value>): Result<string, BindingError>
    requires WellFormed(edits)
    decreases |edits|
  {
    if edits == [] then Ok(key)
    else
      match Resolve(args, edits[0].path)
      case Err(e) => Err(e)
      case Ok(v) => Substitute(ReplaceAll(key, edits[0].full, v), edits[1..], args)
  }

  /** The key a template derives from the call's arguments. */
  function DeriveKey(template: string, args: map<string, Value>): Result<string, BindingError> {
    Substitute(template, Replaces(template), args)
  }

  /**
   * The statements stop exactly when some path has no string form, and then
   * with the error of the first such path.
   */
  lemma {:induction false} SubstituteOutcome(key: string, edits: seq<Replace>, args: map<string, Value>)
    requires WellFormed(edits)
    ensures Substitute(key, edits, args).Err? <==> exists k :: 0 <= k < |edits| && Resolve(args, edits[k].path).Err?
    ensures Substitute(key, edits, args).Err? ==>
      exists k :: 0 <= k < |edits| && Resolve(args, edits[k].path) == Err(Substitute(key, edits, args).error)
        && forall j :: 0 <= j < k ==> Resolve(args, edits[j].path).Ok?
    decreases |edits|
  {
    if edits != [] {
      var first := Resolve(args, edits[0].path);
      if first.Ok? {
        var next := ReplaceAll(key, edits[0].full, first.value);
        var tail := edits[1..];
        assert WellFormed(tail) by {
          forall k | 0 <= k < |tail| ensures |tail[k].full| > 0 && |tail[k].path| > 0 {
            assert tail[k] == edits[k + 1];
          }
        }
        SubstituteOutcome(next, tail, args);
        assert Substitute(key, edits, args) == Substitute(next, tail, args);
        var r := Substitute(next, tail, args);
        if r.Err? {
          var k :| 0 <= k < |tail| && Resolve(args, tail[k].path) == Err(r.error)
            && forall j :: 0 <= j < k ==> Resolve(args, tail[j].path).Ok?;
          assert tail[k] == edits[k + 1];
          forall j | 0 <= j < k + 1 ensures Resolve(args, edits[j].path).Ok? {
            if j > 0 {
              assert tail[j - 1] == edits[j];
            }
          }
        }
        if exists k :: 0 <= k < |edits| && Resolve(args, edits[k].path).Err? {
          var k :| 0 <= k < |edits| && Resolve(args, edits[k].path).Err?;
          assert tail[k - 1] == edits[k];
        }
      }
    }
  }

  /** A template's key fails exactly when some placeholder's path has no string form. */
  lemma DeriveKeyFails(template: string, args: map<string, Value>)
    ensures DeriveKey(template, args).Err? <==>
      exists k :: 0 <= k < |Matches(template)|
        && Resolve(args, Split(template[Matches(template)[k].start + 1..Matches(template)[k].stop])).Err?
  {
    ReplacesPaths(template);
    SubstituteOutcome(template, Replaces(template), args);
  }

  lemma ReplacesPaths(template: string)
    ensures forall k :: 0 <= k < |Matches(template)| ==>
      Replaces(template)[k].path == Split(template[Matches(template)[k].start + 1..Matches(template)[k].stop])
  {
    forall k | 0 <= k < |Matches(template)|
      ensures Replaces(template)[k].path == Split(template[Matches(template)[k].start + 1..Matches(template)[k].stop])
    {
      ReplacesAt(template, k);
    }
  }

  /**
   * The generated body's `let mut cache_key = template.to_string();`
   * followed by the replace statements.
   */
  method BuildKey(template: string, edits: seq<Replace>, args: map<string, Value>)
    returns (key: Result<string, BindingError>)
    requires WellFormed(edits)
    ensures key == Substitute(template, edits, args)
  {
    var cacheKey := template;
    var i := 0;
    while i < |edits|
      invariant 0 <= i <= |edits|
      invariant Substitute(template, edits, args) == Substitute(cacheKey, edits[i..], args)
    {
      assert edits[i..][1..] == edits[i + 1..];
      var value := Resolve(args, edits[i].path);
      if value.Err? {
        return Err(value.error);
      }
      cacheKey := ReplaceAll(cacheKey, edits[i].full, value.value);
      i := i + 1;
    }
    return Ok(cacheKey);
  }

  /** A template without placeholders is its own key. */
  lemma NoPlaceholdersKey(template: string, args: map<string, Value>)
    requires Matches(template) == []
    ensures DeriveKey(template, args) == Ok(template)
  {
    MatchesMatch(template);
    PiecesHoles(template, Matches(template), 0);
  }

  // ---------------------------------------------------------------------
  // Sequential replacing against rendering the template's structure

  /** Each piece written out in turn, a hole as the string form of its path; the first failing hole stops. */
  function Render(segs: seq<Segment>, args: map<string, Value>): Result<string, BindingError> {
    if segs == [] then Ok("")
    else
      var head := match segs[0]
        case Lit(t) => Ok(t)
        case Hole(p) => Resolve(args, Split(p));
      if head.Err? then Err(head.error)
      else
        match Render(segs[1..], args)
        case Err(e) => Err(e)
        case Ok(rest) => Ok(head.value + rest)
  }

  /** The string form of a path, or "" when it has none. */
  function Val(args: map<string, Value>, p: string): string {
    match Resolve(args, Split(p))
    case Ok(v) => v
    case Err(_) => ""
  }

  /** The first path, in order, that has no string form. */
  function FirstFailure(paths: seq<string>, args: map<string, Value>): Option<BindingError> {
    if paths == [] then None
    else if Resolve(args, Split(paths[0])).Err? then Some(Resolve(args, Split(paths[0])).error)
    else FirstFailure(paths[1..], args)
  }

  function SetOf(paths: seq<string>): set<string> {
    if paths == [] then {} else {paths[0]} + SetOf(paths[1..])
  }

  lemma {:induction false} InSetOf(paths: seq<string>)
    ensures forall k :: 0 <= k < |paths| ==> paths[k] in SetOf(paths)
  {
    if paths != [] {
      InSetOf(paths[1..]);
      assert forall k :: 1 <= k < |paths| ==> paths[k] == paths[1..][k - 1];
    }
  }

  /** Every hole whose path is p becomes the literal v. */
  function Fill(segs: seq<Segment>, p: string, v: string): seq<Segment> {
    if segs == [] then []
    else [if segs[0] == Hole(p) then Lit(v) else segs[0]] + Fill(segs[1..], p, v)
  }

  /** Every hole whose path is in P becomes the literal string form of that path. */
  function FillSet(segs: seq<Segment>, P: set<string>, args: map<string, Value>): seq<Segment> {
    if segs == [] then []
    else [if segs[0].Hole? && segs[0].path in P then Lit(Val(args, segs[0].path)) else segs[0]]
         + FillSet(segs[1..], P, args)
  }

  ghost predicate LitsWithoutOpenBrace(segs: seq<Segment>) {
    forall k :: 0 <= k < |segs| && segs[k].Lit? ==> '{' !in segs[k].text
  }

  lemma TextCons(g: Segment, rest: seq<Segment>)
    ensures Text([g] + rest) == SegmentText(g) + Text(rest)
  {
    assert ([g] + rest)[1..] == rest;
  }

  /**
   * One replace statement on a key made of literals without '{' and of
   * placeholders turns exactly the holes of that path into the value.
   */
  lemma {:induction false} ReplaceText(segs: seq<Segment>, p: string, v: string)
    requires LitsWithoutOpenBrace(segs) && HolesArePaths(segs) && IsPath(p)
    ensures ReplaceAll(Text(segs), Braced(p), v) == Text(Fill(segs, p, v))
  {
    if segs != [] {
      var rest := segs[1..];
      ReplaceText(rest, p, v);
      var g := segs[0];
      var g' := if g == Hole(p) then Lit(v) else g;
      TextCons(g', Fill(rest, p, v));
      match g
      case Lit(t) =>
        ReplaceSkip(t, Text(rest), Braced(p), v);
      case Hole(q) =>
        if q == p {
          ReplaceHit(Braced(p), Text(rest), v);
        } else {
          ReplaceOther(q, p, Text(rest), v);
        }
    }
  }

  lemma {:induction false} FillSetStep(segs: seq<Segment>, P: set<string>, p: string, args: map<string, Value>)
    ensures Fill(FillSet(segs, P, args), p, Val(args, p)) == FillSet(segs, P + {p}, args)
  {
    if segs != [] {
      FillSetStep(segs[1..], P, p, args);
    }
  }

  lemma {:induction false} FillSetNone(segs: seq<Segment>, args: map<string, Value>)
    ensures FillSet(segs, {}, args) == segs
  {
    if segs != [] {
      FillSetNone(segs[1..], args);
    }
  }

  lemma {:induction false} FillSetShape(segs: seq<Segment>, P: set<string>, args: map<string, Value>)
    requires LitsWithoutOpenBrace(segs) && HolesArePaths(segs)
    requires forall p :: p in P ==> '{' !in Val(args, p)
    ensures LitsWithoutOpenBrace(FillSet(segs, P, args)) && HolesArePaths(FillSet(segs, P, args))
  {
    if segs != [] {
      FillSetShape(segs[1..], P, args);
      var r := FillSet(segs, P, args);
      assert r[1..] == FillSet(segs[1..], P, args);
    }
  }

  /**
   * Running the replace statements for `paths` on a partly filled template
   * fills the holes of those paths too, or stops at the first path without
   * a string form.
   */
  lemma {:induction false} SubstituteFills(segs: seq<Segment>, P: set<string>, paths: seq<string>, args: map<string, Value>)
    requires LitsWithoutOpenBrace(segs) && HolesArePaths(segs)
    requires forall k :: 0 <= k < |paths| ==> IsPath(paths[k])
    requires forall p :: p in P ==> '{' !in Val(args, p)
    requires forall k :: 0 <= k < |paths| ==> '{' !in Val(args, paths[k])
    ensures Substitute(Text(FillSet(segs, P, args)), ReplacesFor(paths), args)
         == match FirstFailure(paths, args)
            case Some(e) => Err(e)
            case None => Ok(Text(FillSet(segs, P + SetOf(paths), args)))
    decreases |paths|
  {
    var edits := ReplacesFor(paths);
    if paths == [] {
      assert P + {} == P;
    } else {
      var p := paths[0];
      var key := Text(FillSet(segs, P, args));
      assert edits[0] == ReplaceFor(p);
      assert edits[1..] == ReplacesFor(paths[1..]);
      if Resolve(args, Split(p)).Ok? {
        FillSetShape(segs, P, args);
        ReplaceText(FillSet(segs, P, args), p, Val(args, p));
        FillSetStep(segs, P, p, args);
        SubstituteFills(segs, P + {p}, paths[1..], args);
        assert P + {p} + SetOf(paths[1..]) == P + SetOf(paths);
      }
    }
  }

  /**
   * Rendering a template's pieces: the first failing hole's error, or the
   * template with every hole filled.
   */
  lemma {:induction false} RenderFills(segs: seq<Segment>, P: set<string>, args: map<string, Value>)
    requires forall k :: 0 <= k < |HolePaths(segs)| ==> HolePaths(segs)[k] in P
    ensures Render(segs, args)
         == match FirstFailure(HolePaths(segs), args)
            case Some(e) => Err(e)
            case None => Ok(Text(FillSet(segs, P, args)))
  {
    if segs != [] {
      var rest := segs[1..];
      var g := segs[0];
      if g.Hole? {
        assert HolePaths(segs) == [g.path] + HolePaths(rest);
        assert HolePaths(segs)[1..] == HolePaths(rest);
        forall k | 0 <= k < |HolePaths(rest)| ensures HolePaths(rest)[k] in P {
          assert HolePaths(rest)[k] == HolePaths(segs)[k + 1];
        }
      }
      else {
        assert HolePaths(segs) == HolePaths(rest);
      }
      RenderFills(rest, P, args);
      TextCons(if g.Hole? && g.path in P then Lit(Val(args, g.path)) else g, FillSet(rest, P, args));
    }
  }

  /**
   * When the template's literal text holds no '{' and no placeholder value
   * holds one, running the replace statements in order gives exactly the
   * template with each placeholder written as its value. Without those
   * conditions a replace can rewrite text that an earlier one produced.
   */
  lemma KeyIsRendering(template: string, args: map<string, Value>)
    requires LitsWithoutOpenBrace(Compile(template))
    requires forall k :: 0 <= k < |HolePaths(Compile(template))| ==> '{' !in Val(args, HolePaths(Compile(template))[k])
    ensures DeriveKey(template, args) == Render(Compile(template), args)
  {
    var segs := Compile(template);
    var paths := HolePaths(segs);
    MatchesMatch(template);
    PiecesArePaths(template, Matches(template), 0);
    forall k | 0 <= k < |paths| ensures IsPath(paths[k]) {
      HolePathsArePaths(segs, k);
    }
    TemplateRoundTrip(template);
    FillSetNone(segs, args);
    SubstituteFills(segs, {}, paths, args);
    InSetOf(paths);
    assert {} + SetOf(paths) == SetOf(paths);
    RenderFills(segs, SetOf(paths), args);
  }

  lemma {:induction false} HolePathsArePaths(segs: seq<Segment>, k: nat)
    requires HolesArePaths(segs) && k < |HolePaths(segs)|
    ensures IsPath(HolePaths(segs)[k])
  {
    if segs[0].Hole? {
      if k > 0 {
        HolePathsArePaths(segs[1..], k - 1);
      }
    } else {
      HolePathsArePaths(segs[1..], k);
    }
  }
}
