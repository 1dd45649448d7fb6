// The pattern shapes the wildcard tests exercise (`test/wildcard.test.ts`),
// stated for every choice of the literal segments: `a`, `b`, ... range over
// segment names (no `/`, no `*`), so `/api/*/profile` is the shape
// `/a/*/b` with `a = "api"` and `b = "profile"`.
module PatternExamples {
  import opened Strings
  import opened Patterns

  // A literal segment name: no separator, no wildcard.
  predicate SegmentName(s: string) {
    '/' !in s && '*' !in s
  }

  lemma SegmentNameToken(s: string)
    requires SegmentName(s)
    ensures TokenOf(s) == Lit(s)
  {
    assert "*"[0] == '*' && "**"[0] == '*';
  }

  lemma JoinCons(x: string, rest: seq<string>)
    requires |rest| >= 1
    ensures Join([x] + rest) == x + "/" + Join(rest)
  {
    assert ([x] + rest)[1..] == rest;
  }

  lemma Join2(x: string, y: string)
    ensures Join([x, y]) == x + "/" + y
  {
    JoinCons(x, [y]);
    assert [x] + [y] == [x, y];
  }

  lemma Join3(x: string, y: string, z: string)
    ensures Join([x, y, z]) == x + "/" + y + "/" + z
  {
    Join2(y, z);
    JoinCons(x, [y, z]);
    assert [x] + [y, z] == [x, y, z];
  }

  lemma Join5(x: string, y: string, z: string, u: string, v: string)
    ensures Join([x, y, z, u, v]) == x + "/" + y + "/" + z + "/" + u + "/" + v
  {
    Join3(z, u, v);
    JoinCons(y, [z, u, v]);
    assert [y] + [z, u, v] == [y, z, u, v];
    JoinCons(x, [y, z, u, v]);
    assert [x] + [y, z, u, v] == [x, y, z, u, v];
  }

  lemma WildcardTokens()
    ensures TokenOf("*") == Star && TokenOf("**") == DStar
    ensures '/' !in "*" && '/' !in "**"
  {
  }

  // The tokens of `"/" + Join(segs)`, given the token of each segment.
  lemma CompileShape(p: string, segs: seq<string>, toks: seq<Token>)
    requires |segs| >= 1 && p == "/" + Join(segs)
    requires forall i :: 0 <= i < |segs| ==> '/' !in segs[i]
    requires |toks| == |segs| && forall i :: 0 <= i < |segs| ==> TokenOf(segs[i]) == toks[i]
    requires WellFormedTokens(toks)
    ensures StartsWith(p, "/") && Compile(p) == toks && InDomain(p)
  {
    assert p[1..] == Join(segs);
    CompileFrom(p, segs);
  }

  // ---------------------------------------------------------------------------
  // Matching single pieces

  lemma LitMatches(s: string)
    ensures Match([Lit(s)], "/" + s)
  {
    LiteralMatch([Lit(s)], "/" + s);
    assert Render([Lit(s)]) == "/" + s;
  }

  // ---------------------------------------------------------------------------
  // Star-free patterns

  // A pattern with no `*` matches exactly itself.
  lemma StarFreeIsEquality(p: string, path: string)
    requires '*' !in p
    ensures InDomain(p)
    ensures MatchesPattern(p, path) <==> path == p
  {
  }

  // ---------------------------------------------------------------------------
  // `/a/*/b`: the star stands for exactly one segment

  lemma CompileMiddleStar(a: string, b: string)
    requires SegmentName(a) && SegmentName(b)
    ensures Compile("/" + a + "/*/" + b) == [Lit(a), Star, Lit(b)]
    ensures InDomain("/" + a + "/*/" + b)
  {
    var p := "/" + a + "/*/" + b;
    Join3(a, "*", b);
    assert p == "/" + (a + "/" + "*" + "/" + b);
    SegmentNameToken(a);
    SegmentNameToken(b);
    WildcardTokens();
    CompileShape(p, [a, "*", b], [Lit(a), Star, Lit(b)]);
  }

  // `/a/*/b` matches a path exactly when the path is `/a/seg/b` for one `/`-free `seg`.
  lemma MiddleStarMatches(a: string, b: string, path: string)
    requires SegmentName(a) && SegmentName(b)
    ensures InDomain("/" + a + "/*/" + b)
    ensures MatchesPattern("/" + a + "/*/" + b, path) <==>
              exists seg :: '/' !in seg && path == "/" + a + "/" + seg + "/" + b
  {
    CompileMiddleStar(a, b);
    assert '*' in "/" + a + "/*/" + b by {
      assert ("/" + a + "/*/" + b)[|a| + 2] == '*';
    }
    StarMatchesOneSegment(a, b, path);
  }

  // Two segments in the star's place (`/api/users/admin/profile`) are one too many.
  lemma MiddleStarRejectsTwoSegments(a: string, b: string, s1: string, s2: string)
    requires SegmentName(a) && SegmentName(b)
    ensures InDomain("/" + a + "/*/" + b)
    ensures !MatchesPattern("/" + a + "/*/" + b, "/" + a + "/" + s1 + "/" + s2 + "/" + b)
  {
    var path := "/" + a + "/" + s1 + "/" + s2 + "/" + b;
    MiddleStarMatches(a, b, path);
    if exists seg :: '/' !in seg && path == "/" + a + "/" + seg + "/" + b {
      var seg :| '/' !in seg && path == "/" + a + "/" + seg + "/" + b;
      OneSegmentOnly(a, b, seg, s1, s2);
    }
  }

  lemma OneSegmentOnly(a: string, b: string, seg: string, s1: string, s2: string)
    requires "/" + a + "/" + seg + "/" + b == "/" + a + "/" + s1 + "/" + s2 + "/" + b
    ensures '/' in seg
  {
    var path := "/" + a + "/" + s1 + "/" + s2 + "/" + b;
    assert |seg| == |s1| + 1 + |s2|;
    assert path[|a| + 2 + |s1|] == '/';
    assert seg[|s1|] == path[|a| + 2 + |s1|];
  }

  // No segment in the star's place (`/api/profile`) is one too few.
  lemma MiddleStarRejectsNoSegment(a: string, b: string)
    requires SegmentName(a) && SegmentName(b)
    ensures InDomain("/" + a + "/*/" + b)
    ensures !MatchesPattern("/" + a + "/*/" + b, "/" + a + "/" + b)
  {
    MiddleStarMatches(a, b, "/" + a + "/" + b);
  }

  // ---------------------------------------------------------------------------
  // `/a/b/*`: a trailing star, anchored at the end

  lemma CompileTrailingStar(a: string, b: string)
    requires SegmentName(a) && SegmentName(b)
    ensures Compile("/" + a + "/" + b + "/*") == [Lit(a), Lit(b), Star]
    ensures InDomain("/" + a + "/" + b + "/*")
  {
    var p := "/" + a + "/" + b + "/*";
    Join3(a, b, "*");
    assert p == "/" + (a + "/" + b + "/" + "*");
    SegmentNameToken(a);
    SegmentNameToken(b);
    WildcardTokens();
    CompileShape(p, [a, b, "*"], [Lit(a), Lit(b), Star]);
  }

  // `/a/b/*` matches `/a/b/seg` for every `/`-free `seg` (`/api/users/123`).
  lemma TrailingStarMatches(a: string, b: string, seg: string)
    requires SegmentName(a) && SegmentName(b) && '/' !in seg
    ensures InDomain("/" + a + "/" + b + "/*")
    ensures MatchesPattern("/" + a + "/" + b + "/*", "/" + a + "/" + b + "/" + seg)
  {
    var p := "/" + a + "/" + b + "/*";
    CompileTrailingStar(a, b);
    assert p[|p| - 1] == '*';
    LitLitStar(a, b, seg);
  }

  // Two literal tokens and a star match `/a/b/seg`.
  lemma LitLitStar(a: string, b: string, seg: string)
    requires '/' !in seg
    ensures Match([Lit(a), Lit(b), Star], "/" + a + "/" + b + "/" + seg)
  {
    var x := "/" + a + "/" + b;
    TwoLitsRender(a, b);
    StarMatchesSegment(seg);
    MatchAppend([Lit(a), Lit(b)], [Star], x, "/" + seg);
    assert [Lit(a), Lit(b)] + [Star] == [Lit(a), Lit(b), Star];
    assert x + ("/" + seg) == "/" + a + "/" + b + "/" + seg;
  }

  lemma TwoLitsRender(a: string, b: string)
    ensures Match([Lit(a), Lit(b)], "/" + a + "/" + b)
  {
    LiteralMatch([Lit(a), Lit(b)], "/" + a + "/" + b);
    assert Render([Lit(b)]) == "/" + b;
  }

  // `/a/b/*` does not reach into a second segment (`/api/users/123/details`).
  lemma TrailingStarAnchored(a: string, b: string, s1: string, s2: string)
    requires SegmentName(a) && SegmentName(b)
    ensures InDomain("/" + a + "/" + b + "/*")
    ensures !MatchesPattern("/" + a + "/" + b + "/*", "/" + a + "/" + b + "/" + s1 + "/" + s2)
  {
    var p := "/" + a + "/" + b + "/*";
    var path := "/" + a + "/" + b + "/" + s1 + "/" + s2;
    var lits := [Lit(a), Lit(b)];
    CompileTrailingStar(a, b);
    assert p[|p| - 1] == '*';
    assert lits + [Star] == [Lit(a), Lit(b), Star];
    if Match(lits + [Star], path) {
      EndAnchoredStar(lits, path);
      var k :| 0 <= k < |path| && path[k] == '/' && '/' !in path[k + 1..] && Match(lits, path[..k]);
      TwoLitsMatch(a, b, path[..k]);
      SecondSlashAfter(a, b, s1, s2, k);
    }
  }

  lemma TwoLitsMatch(a: string, b: string, x: string)
    requires Match([Lit(a), Lit(b)], x)
    ensures x == "/" + a + "/" + b
  {
    LiteralMatch([Lit(a), Lit(b)], x);
    assert Render([Lit(b)]) == "/" + b;
  }

  lemma SecondSlashAfter(a: string, b: string, s1: string, s2: string, k: nat)
    requires k < |"/" + a + "/" + b + "/" + s1 + "/" + s2|
    requires ("/" + a + "/" + b + "/" + s1 + "/" + s2)[..k] == "/" + a + "/" + b
    ensures '/' in ("/" + a + "/" + b + "/" + s1 + "/" + s2)[k + 1..]
  {
    var path := "/" + a + "/" + b + "/" + s1 + "/" + s2;
    assert k == |a| + |b| + 2;
    assert path[k + 1..][|s1|] == '/';
  }

  // ---------------------------------------------------------------------------
  // `/a/**/b`: the double star stands for any run of segments, none included

  lemma CompileMiddleDStar(a: string, b: string)
    requires SegmentName(a) && SegmentName(b)
    ensures Compile("/" + a + "/**/" + b) == [Lit(a), DStar, Lit(b)]
    ensures InDomain("/" + a + "/**/" + b)
  {
    var p := "/" + a + "/**/" + b;
    Join3(a, "**", b);
    assert p == "/" + (a + "/" + "**" + "/" + b);
    SegmentNameToken(a);
    SegmentNameToken(b);
    WildcardTokens();
    CompileShape(p, [a, "**", b], [Lit(a), DStar, Lit(b)]);
  }

  // `/a/**/b` matches `/a` + `w` + `/b` exactly when `w` is empty, or starts
  // with `/` and holds no line terminator: `/api/details` and
  // `/api/users/123/details` match, `/api/users/1\n/details` does not.
  lemma MiddleDStarMatches(a: string, b: string, w: string)
    requires SegmentName(a) && SegmentName(b)
    ensures InDomain("/" + a + "/**/" + b)
    ensures MatchesPattern("/" + a + "/**/" + b, "/" + a + w + "/" + b) <==> DStarRun(w)
  {
    var p := "/" + a + "/**/" + b;
    CompileMiddleDStar(a, b);
    assert p[|a| + 2] == '*';
    if DStarRun(w) {
      LitMatches(b);
      DStarAbsorbs([Lit(b)], w, "/" + b);
      LitMatches(a);
      MatchAppend([Lit(a)], [DStar] + [Lit(b)], "/" + a, w + ("/" + b));
      LitDStarLitPieces(a, b, w);
    } else if Match([Lit(a), DStar, Lit(b)], "/" + a + w + "/" + b) {
      MiddleDStarOnlyRuns(a, b, w);
    }
  }

  // The middle of a `/a/**/b` match is a run `**` consumes.
  lemma MiddleDStarOnlyRuns(a: string, b: string, w: string)
    requires Match([Lit(a), DStar, Lit(b)], "/" + a + w + "/" + b)
    ensures DStarRun(w)
  {
    var path := "/" + a + w + "/" + b;
    LitDStarLitPieces(a, b, w);
    assert [Lit(a), DStar, Lit(b)] == [Lit(a)] + ([DStar] + [Lit(b)]);
    LitStep(a, [DStar] + [Lit(b)], path);
    var q := path[|a| + 1..];
    assert q == w + ("/" + b);
    DStarStep([Lit(b)], q);
    LiteralMatch([Lit(b)], q);
    assert Render([Lit(b)]) == "/" + b;
    if !Match([Lit(b)], q) {
      var k :| 1 <= k <= |q| && q[0] == '/' && LineFree(q[1..k]) && Match([Lit(b)], q[k..]);
      LiteralMatch([Lit(b)], q[k..]);
      assert k == |w|;
      assert q[1..k] == w[1..];
    }
  }

  // The concrete refusal: a line terminator anywhere in the middle stops `**`.
  lemma MiddleDStarStopsAtLineBreak(a: string, b: string, seg: string, c: char)
    requires SegmentName(a) && SegmentName(b) && IsLineTerminator(c)
    ensures InDomain("/" + a + "/**/" + b)
    ensures !MatchesPattern("/" + a + "/**/" + b, "/" + a + ("/" + seg + [c]) + "/" + b)
  {
    var w := "/" + seg + [c];
    MiddleDStarMatches(a, b, w);
    assert w[1..][|seg|] == c;
  }

  // Whatever `/a/**/b` matches starts with `/a` and ends with `/b`.
  lemma MiddleDStarAnchored(a: string, b: string, path: string)
    requires SegmentName(a) && SegmentName(b)
    ensures InDomain("/" + a + "/**/" + b)
    ensures MatchesPattern("/" + a + "/**/" + b, path) ==> StartsWith(path, "/" + a) && EndsWith(path, "/" + b)
  {
    var p := "/" + a + "/**/" + b;
    CompileMiddleDStar(a, b);
    assert p[|a| + 2] == '*';
    if Match([Lit(a), DStar, Lit(b)], path) {
      assert [Lit(a), DStar, Lit(b)] == [Lit(a)] + [DStar, Lit(b)];
      StartAnchoredLiteral(a, [DStar, Lit(b)], path);
      assert [Lit(a), DStar, Lit(b)] == [Lit(a), DStar] + [Lit(b)];
      EndAnchoredLiteral([Lit(a), DStar], b, path);
    }
  }

  // ---------------------------------------------------------------------------
  // `/**/b`: a leading double star matches, but validation refuses it

  lemma CompileRootDStar(b: string)
    requires SegmentName(b)
    ensures Compile("/**/" + b) == [DStar, Lit(b)]
    ensures InDomain("/**/" + b)
  {
    var p := "/**/" + b;
    Join2("**", b);
    assert p == "/" + ("**" + "/" + b);
    SegmentNameToken(b);
    WildcardTokens();
    CompileShape(p, ["**", b], [DStar, Lit(b)]);
  }

  lemma RootDStarMatches(b: string, w: string)
    requires SegmentName(b)
    requires DStarRun(w)
    ensures InDomain("/**/" + b)
    ensures MatchesPattern("/**/" + b, w + "/" + b)
    ensures !ValidatePattern("/**/" + b)
  {
    var p := "/**/" + b;
    CompileRootDStar(b);
    assert p[1] == '*';
    LitMatches(b);
    DStarAbsorbs([Lit(b)], w, "/" + b);
    assert [DStar] + [Lit(b)] == [DStar, Lit(b)];
    assert w + ("/" + b) == w + "/" + b;
    assert p[..3] == "/**";
  }

  // ---------------------------------------------------------------------------
  // `/a/*/r/**/s`: mixed wildcards

  lemma CompileMixed(a: string, r: string, s: string)
    requires SegmentName(a) && SegmentName(r) && SegmentName(s)
    ensures Compile("/" + a + "/*/" + r + "/**/" + s) == [Lit(a), Star, Lit(r), DStar, Lit(s)]
    ensures InDomain("/" + a + "/*/" + r + "/**/" + s)
  {
    var p := "/" + a + "/*/" + r + "/**/" + s;
    Join5(a, "*", r, "**", s);
    assert p == "/" + (a + "/" + "*" + "/" + r + "/" + "**" + "/" + s);
    SegmentNameToken(a);
    SegmentNameToken(r);
    SegmentNameToken(s);
    WildcardTokens();
    CompileShape(p, [a, "*", r, "**", s], [Lit(a), Star, Lit(r), DStar, Lit(s)]);
  }

  // `/a/*/r/**/s` matches `/a/seg/r` + `w` + `/s` (`/api/users/reports/monthly/2023/summary`).
  lemma MixedMatches(a: string, r: string, s: string, seg: string, w: string)
    requires SegmentName(a) && SegmentName(r) && SegmentName(s)
    requires '/' !in seg && DStarRun(w)
    ensures InDomain("/" + a + "/*/" + r + "/**/" + s)
    ensures MatchesPattern("/" + a + "/*/" + r + "/**/" + s, "/" + a + "/" + seg + "/" + r + w + "/" + s)
  {
    var p := "/" + a + "/*/" + r + "/**/" + s;
    CompileMixed(a, r, s);
    assert p[|a| + 2] == '*';
    MixedTokensMatch(a, r, s, seg, w);
  }

  lemma MixedTokensMatch(a: string, r: string, s: string, seg: string, w: string)
    requires '/' !in seg && DStarRun(w)
    ensures Match([Lit(a), Star, Lit(r), DStar, Lit(s)], "/" + a + "/" + seg + "/" + r + w + "/" + s)
  {
    MixedPieces(a, r, s, seg, w);
    LitDStarLit(r, s, w);
    LitStarPrefix(a, seg, [Lit(r), DStar, Lit(s)], "/" + r + w + "/" + s);
  }

  lemma MixedPieces(a: string, r: string, s: string, seg: string, w: string)
    ensures [Lit(a), Star] + [Lit(r), DStar, Lit(s)] == [Lit(a), Star, Lit(r), DStar, Lit(s)]
    ensures "/" + a + "/" + seg + ("/" + r + w + "/" + s) == "/" + a + "/" + seg + "/" + r + w + "/" + s
  {
  }

  // `/r/**/s` as tokens matches `/r` + `w` + `/s`.
  lemma LitDStarLit(r: string, s: string, w: string)
    requires DStarRun(w)
    ensures Match([Lit(r), DStar, Lit(s)], "/" + r + w + "/" + s)
  {
    LitDStarLitPieces(r, s, w);
    LitMatches(s);
    DStarAbsorbs([Lit(s)], w, "/" + s);
    LitMatches(r);
    MatchAppend([Lit(r)], [DStar] + [Lit(s)], "/" + r, w + ("/" + s));
  }

  lemma LitDStarLitPieces(r: string, s: string, w: string)
    ensures [Lit(r)] + ([DStar] + [Lit(s)]) == [Lit(r), DStar, Lit(s)]
    ensures "/" + r + (w + ("/" + s)) == "/" + r + w + "/" + s
  {
  }

  // Prefixing a literal segment and a star segment to any match.
  lemma LitStarPrefix(a: string, seg: string, toks: seq<Token>, tail: string)
    requires '/' !in seg && Match(toks, tail)
    ensures Match([Lit(a), Star] + toks, "/" + a + "/" + seg + tail)
  {
    assert [Lit(a)] + ([Star] + toks) == [Lit(a), Star] + toks;
    assert "/" + a + ("/" + seg + tail) == "/" + a + "/" + seg + tail;
    StarMatchesSegment(seg);
    MatchAppend([Star], toks, "/" + seg, tail);
    LitMatches(a);
    MatchAppend([Lit(a)], [Star] + toks, "/" + a, "/" + seg + tail);
  }

  // ---------------------------------------------------------------------------
  // Validation

  // Too few stars in `p` for `sub` to occur in it.
  lemma RuledOutByStars(p: string, sub: string)
    requires CountChar(p, '*') < CountChar(sub, '*')
    ensures !Contains(p, sub)
  {
    if Contains(p, sub) {
      ContainsCountChar(p, sub, '*');
    }
  }

  // The star-combination checks pass for a pattern with at most two stars.
  lemma FewStarsPassCombinationChecks(p: string)
    requires CountChar(p, '*') <= 2
    ensures !Contains(p, "****") && !Contains(p, "***")
    ensures !Contains(p, "**/*/**") && !Contains(p, "*/**/*")
  {
    assert CountChar("***", '*') == 3;
    assert CountChar("****", '*') == 4;
    assert CountChar("**/*/**", '*') == 5;
    assert CountChar("*/**/*", '*') == 4;
    RuledOutByStars(p, "****");
    RuledOutByStars(p, "***");
    RuledOutByStars(p, "**/*/**");
    RuledOutByStars(p, "*/**/*");
  }

  // Character counts of a segment name and of the fixed pieces the shapes are built from.
  lemma NameCounts(b: string)
    requires SegmentName(b)
    ensures CountChar(b, '*') == 0 && CountChar(b, '/') == 0
  {
    CountCharZero(b, '*');
    CountCharZero(b, '/');
  }

  // A pattern of at most two stars, three slashes and an `/api/` head passes validation.
  lemma ApiShapeValidates(p: string)
    requires StartsWith(p, "/api/")
    requires CountChar(p, '*') <= 2 && CountChar(p, '/') == 3
    ensures ValidatePattern(p)
  {
    assert p[1] == 'a' && p[4] == '/';
    assert |p| < 3 || p[..3] != "/**";
    assert p[..2] != "/*";
    assert |p| < 5 || p[..5] != "/**/*";
    assert p[..5] != "/api*";
    assert p[0] != '*';
    FewStarsPassCombinationChecks(p);
  }

  // `/api/b/*` passes validation (`/api/users/*`).
  lemma AcceptsTrailingStar(b: string)
    requires SegmentName(b)
    ensures ValidatePattern("/api/" + b + "/*")
  {
    var p := "/api/" + b + "/*";
    NameCounts(b);
    CountCharConcat("/api/", b, '*');
    CountCharConcat("/api/" + b, "/*", '*');
    CountCharConcat("/api/", b, '/');
    CountCharConcat("/api/" + b, "/*", '/');
    assert p[..5] == "/api/";
    ApiShapeValidates(p);
  }

  // `/api/*/b` passes validation (`/api/*/profile`).
  lemma AcceptsMiddleStar(b: string)
    requires SegmentName(b)
    ensures ValidatePattern("/api/*/" + b)
  {
    var p := "/api/*/" + b;
    NameCounts(b);
    CountCharConcat("/api/*/", b, '*');
    CountCharConcat("/api/*/", b, '/');
    assert p[..5] == "/api/";
    ApiShapeValidates(p);
  }

  // `/api/**/b` passes validation (`/api/**/details`).
  lemma AcceptsMiddleDStar(b: string)
    requires SegmentName(b)
    ensures ValidatePattern("/api/**/" + b)
  {
    var p := "/api/**/" + b;
    NameCounts(b);
    CountCharConcat("/api/**/", b, '*');
    CountCharConcat("/api/**/", b, '/');
    assert p[..5] == "/api/";
    ApiShapeValidates(p);
  }

  lemma RejectsBroadPatterns()
    ensures !ValidatePattern("/**") && !ValidatePattern("/*") && !ValidatePattern("/**/*")
    ensures !ValidatePattern("/api*/users") && !ValidatePattern("/api*")
  {
    assert StartsWith("/**", "/*") && StartsWith("/**/*", "/*");
    assert StartsWith("/api*/users", "/api*");
  }

  lemma RejectsTooManyStars()
    ensures !ValidatePattern("/api/**/*/**")
  {
    assert CountChar("/api/**/*/**", '*') == 5;
  }

  lemma RejectsFourStarRun()
    ensures !ValidatePattern("/api/****/test")
  {
    var p := "/api/****/test";
    assert p[5..9] == "****";
    ContainsAt(p, "****", 5);
  }

  // ---------------------------------------------------------------------------
  // Specificity

  // A single-star pattern scores 45 and outranks every double-star pattern.
  lemma SpecificityOrder(p: string, q: string)
    requires CountChar(p, '*') == 1
    requires CountDoubleStars(q) >= 1
    ensures Specificity(p) == 45
    ensures Specificity(q) < Specificity(p)
  {
    CountCharZero(p, '*');
    CountCharZero(q, '*');
  }
}
