/**
 * Concrete templates worked through the scanner and the key builder: the
 * nested-field key, a one-argument key for every argument value, text the
 * pattern leaves alone, and the accepted limitation that a value holding a
 * placeholder's text is itself substituted.
 */
module KeyCases {
  import opened Wrappers
  import opened Placeholder
  import opened KeyTemplate

  const UserTemplate := "user2:{p.id}-{p.token}"

  /** p = {id: 1, token: "1"} */
  const UserArgs := map["p" := Record(map["id" := Leaf("1"), "token" := Leaf("1")])]

  const UserSegments := [Lit("user2:"), Hole("p.id"), Lit("-"), Hole("p.token"), Lit("")]

  lemma UserCanonical()
    ensures Canonical(UserSegments)
  {
    UserPaths();
    assert UserSegments[2..] == [Lit("-"), Hole("p.token"), Lit("")];
    assert UserSegments[2..][2..] == [Lit("")];
  }

  lemma UserPaths()
    ensures IsPath("p.id") && IsPath("p.token")
  {
  }

  /** The text of two holes between three literals. */
  lemma TwoHolesText(a: string, b: string, c: string, d: string, e: string)
    ensures Text([Lit(a), Hole(b), Lit(c), Hole(d), Lit(e)]) == a + (Braced(b) + (c + (Braced(d) + (e + ""))))
  {
    var segs := [Lit(a), Hole(b), Lit(c), Hole(d), Lit(e)];
    assert segs[1..] == [Hole(b), Lit(c), Hole(d), Lit(e)];
    assert segs[1..][1..] == [Lit(c), Hole(d), Lit(e)];
    assert segs[1..][1..][1..] == [Hole(d), Lit(e)];
    assert segs[1..][1..][1..][1..] == [Lit(e)];
    assert [Lit(e)][1..] == [];
    assert Text([Lit(e)]) == e + "";
    assert Text([Hole(d), Lit(e)]) == Braced(d) + (e + "");
    assert Text([Lit(c), Hole(d), Lit(e)]) == c + (Braced(d) + (e + ""));
    assert Text(segs[1..]) == Braced(b) + (c + (Braced(d) + (e + "")));
  }

  lemma UserText()
    ensures Text(UserSegments) == UserTemplate
  {
    TwoHolesText("user2:", "p.id", "-", "p.token", "");
    assert "user2:" + (Braced("p.id") + ("-" + (Braced("p.token") + ("" + "")))) == UserTemplate;
  }

  /** The template compiles to two holes between three literals. */
  lemma UserCompiles()
    ensures Compile(UserTemplate) == UserSegments
  {
    UserCanonical();
    UserText();
    CompileText(UserSegments);
  }

  lemma {:induction false} NoDotFound(s: string, k: nat)
    requires k <= |s| && '.' !in s
    ensures FirstDot(s, k) == |s|
    decreases |s| - k
  {
    if k < |s| {
      assert s[k] in s;
      NoDotFound(s, k + 1);
    }
  }

  /** A path with one dot splits into the argument name and one field name. */
  lemma SplitOneDot(a: string, b: string)
    requires '.' !in a && '.' !in b
    ensures Split(a + "." + b) == [a, b]
  {
    var s := a + "." + b;
    forall m | 0 <= m < |a|
      ensures s[m] != '.'
    {
      assert s[m] == a[m] && a[m] in a;
    }
    assert s[|a|] == '.';
    assert s[..|a|] == a && s[|a| + 1..] == b;
    NoDotFound(b, 0);
  }

  /** Both fields of p have the string form "1". */
  lemma UserField(path: string, field: string)
    requires path == "p." + field && field in {"id", "token"}
    ensures Resolve(UserArgs, Split(path)) == Ok("1") && Val(UserArgs, path) == "1"
  {
    assert path == "p" + "." + field;
    SplitOneDot("p", field);
    assert ["p", field][1..] == [field] && [field][1..] == [];
    var fields := map["id" := Leaf("1"), "token" := Leaf("1")];
    assert UserArgs["p"] == Record(fields);
    assert field in fields && fields[field] == Leaf("1");
    assert Walk(UserArgs["p"], [field]) == Walk(Leaf("1"), []);
  }

  lemma UserHoles()
    ensures HolePaths(UserSegments) == ["p.id", "p.token"]
  {
    var segs := UserSegments;
    assert segs[1..][1..] == [Lit("-"), Hole("p.token"), Lit("")];
    assert segs[1..][1..][1..][1..] == [Lit("")];
  }

  /** Rendering two holes between three literals, when both paths have a string form. */
  lemma RenderTwoHoles(a: string, b: string, c: string, d: string, e: string, args: map<string, Value>)
    requires Resolve(args, Split(b)).Ok? && Resolve(args, Split(d)).Ok?
    ensures Render([Lit(a), Hole(b), Lit(c), Hole(d), Lit(e)], args)
         == Ok(a + (Resolve(args, Split(b)).value + (c + (Resolve(args, Split(d)).value + (e + "")))))
  {
    var segs := [Lit(a), Hole(b), Lit(c), Hole(d), Lit(e)];
    assert segs[1..] == [Hole(b), Lit(c), Hole(d), Lit(e)];
    assert segs[1..][1..] == [Lit(c), Hole(d), Lit(e)];
    assert segs[1..][1..][1..] == [Hole(d), Lit(e)];
    assert segs[1..][1..][1..][1..] == [Lit(e)];
    assert [Lit(e)][1..] == [];
    var vb, vd := Resolve(args, Split(b)).value, Resolve(args, Split(d)).value;
    assert Render([Lit(e)], args) == Ok(e + "");
    assert Render([Hole(d), Lit(e)], args) == Ok(vd + (e + ""));
    assert Render([Lit(c), Hole(d), Lit(e)], args) == Ok(c + (vd + (e + "")));
    assert Render(segs[1..], args) == Ok(vb + (c + (vd + (e + ""))));
  }

  lemma UserRender()
    ensures Render(UserSegments, UserArgs) == Ok("user2:1-1")
  {
    UserField("p.id", "id");
    UserField("p.token", "token");
    RenderTwoHoles("user2:", "p.id", "-", "p.token", "", UserArgs);
    UserKeyText();
  }

  lemma UserKeyText()
    ensures "user2:" + ("1" + ("-" + ("1" + ("" + "")))) == "user2:1-1"
  {
  }

  /** The key of a template whose compiled form and rendering are known. */
  lemma KeyFromSegments(template: string, segs: seq<Segment>, args: map<string, Value>, key: string)
    requires Compile(template) == segs && LitsWithoutOpenBrace(segs)
    requires forall k :: 0 <= k < |HolePaths(segs)| ==> '{' !in Val(args, HolePaths(segs)[k])
    requires Render(segs, args) == Ok(key)
    ensures DeriveKey(template, args) == Ok(key)
  {
    KeyIsRendering(template, args);
  }

  lemma UserVals()
    ensures forall k :: 0 <= k < |HolePaths(UserSegments)| ==> '{' !in Val(UserArgs, HolePaths(UserSegments)[k])
  {
    UserHoles();
    UserField("p.id", "id");
    UserField("p.token", "token");
  }

  lemma UserLits()
    ensures LitsWithoutOpenBrace(UserSegments)
  {
  }

  /** Nested field resolution: the key is exactly "user2:1-1". */
  lemma NestedFieldKey()
    ensures DeriveKey(UserTemplate, UserArgs) == Ok("user2:1-1")
  {
    UserCompiles();
    UserLits();
    UserVals();
    UserRender();
    KeyFromSegments(UserTemplate, UserSegments, UserArgs, "user2:1-1");
  }

  // ---------------------------------------------------------------------
  // One placeholder between two literals

  lemma OneHoleText(a: string, b: string, c: string)
    ensures Text([Lit(a), Hole(b), Lit(c)]) == a + (Braced(b) + (c + ""))
  {
    var segs := [Lit(a), Hole(b), Lit(c)];
    assert segs[1..] == [Hole(b), Lit(c)];
    assert segs[1..][1..] == [Lit(c)];
    assert [Lit(c)][1..] == [];
    assert Text([Lit(c)]) == c + "";
    assert Text(segs[1..]) == Braced(b) + (c + "");
  }

  /** A template with one placeholder between literals without '{' compiles to three segments. */
  lemma OneHoleCompiles(a: string, p: string, c: string)
    requires '{' !in a && '{' !in c && IsPath(p)
    ensures Compile(a + Braced(p) + c) == [Lit(a), Hole(p), Lit(c)]
  {
    var segs := [Lit(a), Hole(p), Lit(c)];
    assert Canonical(segs) by {
      assert segs[2..] == [Lit(c)];
    }
    OneHoleText(a, p, c);
    assert Text(segs) == a + Braced(p) + c;
    CompileText(segs);
  }

  lemma OneHolePaths(a: string, p: string, c: string)
    ensures HolePaths([Lit(a), Hole(p), Lit(c)]) == [p]
  {
    var segs := [Lit(a), Hole(p), Lit(c)];
    assert segs[1..] == [Hole(p), Lit(c)];
    assert segs[1..][1..] == [Lit(c)];
    assert [Lit(c)][1..] == [];
    assert HolePaths([Lit(c)]) == [];
    assert HolePaths(segs[1..]) == [p] + HolePaths([Lit(c)]);
  }

  /**
   * A template with one placeholder between literals without '{' gives the
   * literals around the placeholder's string form.
   */
  lemma OneHoleKey(a: string, p: string, c: string, args: map<string, Value>, v: string)
    requires '{' !in a && '{' !in c && IsPath(p)
    requires Resolve(args, Split(p)) == Ok(v)
    ensures DeriveKey(a + Braced(p) + c, args) == Ok(a + v + c)
  {
    var t := a + Braced(p) + c;
    OneHoleCompiles(a, p, c);
    OneHolePaths(a, p, c);
    var e := ReplaceFor(p);
    assert Replaces(t) == [e];
    assert [e][1..] == [];
    ReplaceOne(a, p, c, v);
    assert e.full == Braced(p) && e.path == Split(p);
    assert DeriveKey(t, args) == Substitute(t, [e], args);
    assert Substitute(t, [e], args) == Substitute(ReplaceAll(t, Braced(p), v), [], args);
  }

  /** A name without a dot is a path of one argument name. */
  lemma SplitNoDot(a: string)
    requires '.' !in a
    ensures Split(a) == [a]
  {
    NoDotFound(a, 0);
  }

  /** The key of the one-argument template "item:{id}" when id is written as `v`. */
  lemma ItemKey(v: string)
    ensures DeriveKey("item:{id}", map["id" := Leaf(v)]) == Ok("item:" + v)
  {
    var args := map["id" := Leaf(v)];
    assert IsPath("id");
    SplitNoDot("id");
    assert ["id"][1..] == [];
    assert "item:{id}" == "item:" + Braced("id") + "";
    OneHoleKey("item:", "id", "", args, v);
    assert "item:" + v + "" == "item:" + v;
  }

  /** Different string forms of the argument give different keys. */
  lemma ItemKeysDiffer(v: string, w: string)
    requires v != w
    ensures DeriveKey("item:{id}", map["id" := Leaf(v)]) != DeriveKey("item:{id}", map["id" := Leaf(w)])
  {
    ItemKey(v);
    ItemKey(w);
    assert ("item:" + v)[5..] == v && ("item:" + w)[5..] == w;
  }

  // ---------------------------------------------------------------------
  // Text the pattern does not match is kept as it is

  lemma EmptyBracesKept(args: map<string, Value>)
    ensures DeriveKey("{}", args) == Ok("{}")
  {
    assert Matches("{}") == [];
    NoPlaceholdersKey("{}", args);
  }

  lemma DigitFirstKept(args: map<string, Value>)
    ensures DeriveKey("{1a}", args) == Ok("{1a}")
  {
    assert Matches("{1a}") == [];
    NoPlaceholdersKey("{1a}", args);
  }

  lemma DoubleDotKept(args: map<string, Value>)
    ensures DeriveKey("{a..b}", args) == Ok("{a..b}")
  {
    var s := "{a..b}";
    assert PathEnd(s, 1) == 5 by {
      assert PathEnd(s, 5) == 5;
      assert PathEnd(s, 4) == 5;
      assert PathEnd(s, 3) == 5;
      assert PathEnd(s, 2) == 5;
    }
    assert !IsPath(s[1..5]) by {
      assert s[1..5][1] == '.' && !IsIdentStart(s[1..5][2]);
    }
    assert MatchAt(s, 0) == None;
    ScanPasses(s, 1, 6);
    assert Matches(s) == [];
    NoPlaceholdersKey(s, args);
  }

  lemma UnclosedKept(args: map<string, Value>)
    ensures DeriveKey("{x", args) == Ok("{x")
  {
    assert Matches("{x") == [];
    NoPlaceholdersKey("{x", args);
  }

  // ---------------------------------------------------------------------
  // Doubled braces: only the inner pair matches

  const Doubled := "{{id}}"

  lemma DoubledMatches()
    ensures Matches(Doubled) == [Span(1, 4)]
  {
    var s := Doubled;
    assert PathEnd(s, 1) == 1;
    assert MatchAt(s, 0) == None;
    assert s[2..4] == "id" && IsPath("id");
    assert IsMatchAt(s, 1, 4);
    MatchAtIsTheMatch(s, 1);
    ScanTakes(s, 1, 4);
    assert MatchAt(s, 5) == None;
    assert Scan(s, 5) == Scan(s, 6) == [];
  }

  lemma DoubledCompiles()
    ensures Compile(Doubled) == [Lit("{"), Hole("id"), Lit("}")]
  {
    var s := Doubled;
    DoubledMatches();
    var ms := [Span(1, 4)];
    assert ms[1..] == [];
    assert s[0..1] == "{" && s[2..4] == "id" && s[5..] == "}";
  }

  lemma DoubledReplace()
    ensures ReplaceAll(Doubled, "{id}", "7") == "{7}"
  {
  }

  /** In "{{id}}" the inner "{id}" is replaced and the outer braces stay. */
  lemma DoubledKey()
    ensures DeriveKey(Doubled, map["id" := Leaf("7")]) == Ok("{7}")
  {
    DoubledCompiles();
    OneHolePaths("{", "id", "}");
    ReplacesOfHoles(Doubled, ["id"]);
    SplitNoDot("id");
    assert Braced("id") == "{id}";
    var edits := [Replace("{id}", ["id"])];
    assert Replaces(Doubled) == edits;
    assert edits[1..] == [] && ["id"][1..] == [];
    DoubledReplace();
  }

  /** The replace statements follow the compiled holes. */
  lemma ReplacesOfHoles(template: string, paths: seq<string>)
    requires HolePaths(Compile(template)) == paths && |paths| == 1
    ensures Replaces(template) == [ReplaceFor(paths[0])]
  {
    var r := ReplacesFor(paths);
    assert r[0] == ReplaceFor(paths[0]);
  }

  // ---------------------------------------------------------------------
  // Values are not escaped

  const InjectArgs := map["a" := Leaf("{b}"), "b" := Leaf("x")]

  lemma InjectCompiles()
    ensures Compile("{a}-{b}") == [Lit(""), Hole("a"), Lit("-"), Hole("b"), Lit("")]
  {
    var segs := [Lit(""), Hole("a"), Lit("-"), Hole("b"), Lit("")];
    assert Canonical(segs) by {
      assert segs[2..] == [Lit("-"), Hole("b"), Lit("")];
      assert segs[2..][2..] == [Lit("")];
      assert IsPath("a") && IsPath("b");
    }
    TwoHolesText("", "a", "-", "b", "");
    assert "" + (Braced("a") + ("-" + (Braced("b") + ("" + "")))) == "{a}-{b}";
    CompileText(segs);
  }

  lemma TwoHolesPaths(a: string, p: string, c: string, q: string, e: string)
    ensures HolePaths([Lit(a), Hole(p), Lit(c), Hole(q), Lit(e)]) == [p, q]
  {
    var segs := [Lit(a), Hole(p), Lit(c), Hole(q), Lit(e)];
    assert segs[1..] == [Hole(p), Lit(c), Hole(q), Lit(e)];
    assert segs[1..][1..] == [Lit(c), Hole(q), Lit(e)];
    assert segs[1..][1..][1..] == [Hole(q), Lit(e)];
    assert segs[1..][1..][1..][1..] == [Lit(e)];
    assert [Lit(e)][1..] == [];
    assert HolePaths([Lit(e)]) == [];
    assert HolePaths([Hole(q), Lit(e)]) == [q];
    assert HolePaths([Lit(c), Hole(q), Lit(e)]) == [q];
    assert HolePaths(segs[1..]) == [p, q];
  }

  /** The replace statements of a template compiled to two holes. */
  lemma TwoHolesReplaces(template: string, a: string, p: string, c: string, q: string, e: string)
    requires Compile(template) == [Lit(a), Hole(p), Lit(c), Hole(q), Lit(e)]
    ensures Replaces(template) == [ReplaceFor(p), ReplaceFor(q)]
  {
    var segs := [Lit(a), Hole(p), Lit(c), Hole(q), Lit(e)];
    TwoHolesPaths(a, p, c, q, e);
    var r := ReplacesFor([p, q]);
    assert r[0] == ReplaceFor(p) && r[1] == ReplaceFor(q);
  }

  lemma InjectReplaces()
    ensures Replaces("{a}-{b}") == [Replace("{a}", ["a"]), Replace("{b}", ["b"])]
  {
    InjectCompiles();
    TwoHolesReplaces("{a}-{b}", "", "a", "-", "b", "");
    InjectEdits();
  }

  lemma InjectEdits()
    ensures ReplaceFor("a") == Replace("{a}", ["a"]) && ReplaceFor("b") == Replace("{b}", ["b"])
  {
    SplitNoDot("a");
    SplitNoDot("b");
    assert Braced("a") == "{a}" && Braced("b") == "{b}";
  }

  /** The key of a template with two replace statements whose paths both have a string form. */
  lemma KeyOfTwoEdits(template: string, e1: Replace, e2: Replace, args: map<string, Value>, v1: string, v2: string)
    requires Replaces(template) == [e1, e2]
    requires |e1.full| > 0 && |e1.path| > 0 && |e2.full| > 0 && |e2.path| > 0
    requires Resolve(args, e1.path) == Ok(v1) && Resolve(args, e2.path) == Ok(v2)
    ensures DeriveKey(template, args) == Ok(ReplaceAll(ReplaceAll(template, e1.full, v1), e2.full, v2))
  {
    var edits := [e1, e2];
    assert WellFormed(edits);
    assert edits[1..] == [e2] && [e2][1..] == [];
    var k1 := ReplaceAll(template, e1.full, v1);
    assert Substitute(k1, [e2], args) == Substitute(ReplaceAll(k1, e2.full, v2), [], args);
    assert Substitute(template, edits, args) == Substitute(k1, [e2], args);
  }

  lemma InjectFirstReplace()
    ensures ReplaceAll("{a}-{b}", "{a}", "{b}") == "{b}-{b}"
  {
  }

  lemma InjectSecondReplace()
    ensures ReplaceAll("{b}-{b}", "{b}", "x") == "x-x"
  {
  }

  /**
   * A value holding the text of a later placeholder is itself replaced: the
   * sequential replacing gives "x-x" where writing out the template's
   * structure gives "{b}-x". Keys are built the first way.
   */
  lemma ValueNotEscaped()
    ensures DeriveKey("{a}-{b}", InjectArgs) == Ok("x-x")
    ensures Render(Compile("{a}-{b}"), InjectArgs) == Ok("{b}-x")
  {
    InjectReplaces();
    SplitNoDot("a");
    SplitNoDot("b");
    assert ["a"][1..] == [] && ["b"][1..] == [];
    KeyOfTwoEdits("{a}-{b}", Replace("{a}", ["a"]), Replace("{b}", ["b"]), InjectArgs, "{b}", "x");
    InjectFirstReplace();
    InjectSecondReplace();
    InjectRenders();
  }

  lemma InjectSegmentsRender()
    ensures Render([Lit(""), Hole("a"), Lit("-"), Hole("b"), Lit("")], InjectArgs) == Ok("{b}-x")
  {
    SplitNoDot("a");
    SplitNoDot("b");
    assert ["a"][1..] == [] && ["b"][1..] == [];
    RenderTwoHoles("", "a", "-", "b", "", InjectArgs);
    assert "" + ("{b}" + ("-" + ("x" + ("" + "")))) == "{b}-x";
  }

  lemma InjectRenders()
    ensures Render(Compile("{a}-{b}"), InjectArgs) == Ok("{b}-x")
  {
    InjectCompiles();
    InjectSegmentsRender();
  }
}
