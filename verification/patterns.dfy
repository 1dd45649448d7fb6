/**
 The route-pattern language of `patternMatcher.ts`: pattern validation,
 specificity scoring and glob matching.

 The source compiles a glob into an anchored JavaScript regex. This model does
 not interpret regexes; it compiles a pattern into `/`-prefixed segment tokens
 with the same language as the regex the source builds:
 - `Lit(s)` stands for the escaped text `/s` and matches exactly `/s`;
 - `Star` stands for `/[^/]*` and matches `/` followed by a `/`-free run;
 - `DStar` stands for `(?:/.*)*`, whose language is that of `(/.*)?`: the
   empty string, or `/` followed by a run free of line terminators (the regex
   carries no `s` flag, so `.` matches neither `\n`, `\r`, U+2028 nor U+2029;
   `[^/]` does match them).
 The translation is faithful on the domain `InDomain`: star-free patterns, and
 absolute patterns whose wildcards are whole segments with no two wildcard
 segments adjacent (outside it the source's non-overlapping global replaces
 leave raw regex quantifiers behind).
 */
module Patterns {
  import opened Strings

  /**
   The pattern equals or starts with one of the shapes the source lists as too
   broad: a double star at the root, a star at the root, a double star then a
   star at the root, `/api` glued to a star, and a star before a slash.
   */
  predicate IsDangerous(p: string) {
    || p == "/**" || StartsWith(p, "/**")
    || p == "/*" || StartsWith(p, "/*")
    || p == "/**/*" || StartsWith(p, "/**/*")
    || p == "/api*" || StartsWith(p, "/api*")
    || p == "*/" || StartsWith(p, "*/")
  }

  /**
   `validatePattern`: the static safety checks a `pattern: true` route must
   pass. A pattern that passes is rooted, has at least two slashes, and stays
   within the wildcard budget.
   */
  predicate ValidatePattern(p: string): (ok: bool)
    ensures ok ==> |p| >= 1 && p[0] == '/' && CountChar(p, '/') >= 2
    ensures ok ==> CountChar(p, '*') <= 4 && CountDoubleStars(p) <= 2 && !Contains(p, "***")
    ensures ok ==> !Contains(p, "*/**/*") && !Contains(p, "**/*/**")
  {
    && StartsWith(p, "/")
    && CountChar(p, '*') <= 4
    && CountDoubleStars(p) <= 2
    && !IsDangerous(p)
    && !Contains(p, "****") && !Contains(p, "***")
    && !Contains(p, "**/*/**") && !Contains(p, "*/**/*")
    && !(Contains(p, "**/") && |Split(p)| < 3)
    && |Split(p)| >= 3
  }

  /**
   `getPatternSpecificity`: wildcard-free patterns score 100; every other
   pattern scores below every wildcard-free one, and a validated pattern never
   drops below 10.
   */
  function Specificity(p: string): (r: int)
    ensures r == 100 <==> '*' !in p
    ensures '*' in p ==> r <= 45
    ensures ValidatePattern(p) ==> 10 <= r
  {
    if '*' !in p then 100
    else
      CountCharZero(p, '*');
      50 - CountChar(p, '*') * 5 - CountDoubleStars(p) * 10
  }

  // A validated pattern never starts with `/*` or `/api*`. In particular no
  // pattern whose second character is a star (such as `/**/profile`) passes,
  // although the matcher would handle it.
  lemma ValidatedNotBroad(p: string)
    requires ValidatePattern(p)
    ensures !StartsWith(p, "/*") && !StartsWith(p, "/api*")
    ensures |p| >= 2 ==> p[1] != '*'
  {
    if |p| >= 2 {
      assert p[..2] == [p[0], p[1]];
    }
  }

  // ---------------------------------------------------------------------------
  // Compilation into segment tokens

  datatype Token = Lit(text: string) | Star | DStar {
    predicate IsWildcard() { !Lit? }
  }

  /** The token a single `/`-separated segment compiles to. */
  function TokenOf(segment: string): Token {
    if segment == "*" then Star
    else if segment == "**" then DStar
    else Lit(segment)
  }

  /** The segment text a token was compiled from. */
  function TokenText(t: Token): string {
    match t
    case Lit(s) => s
    case Star => "*"
    case DStar => "**"
  }

  function TokensOf(segments: seq<string>): seq<Token> {
    seq(|segments|, i requires 0 <= i < |segments| => TokenOf(segments[i]))
  }

  /**
   `convertGlobToRegex`, as segment tokens: one token per segment after the
   leading `/`, so one token per slash of the pattern, and no literal token
   spans a slash.
   */
  function Compile(p: string): (toks: seq<Token>)
    requires StartsWith(p, "/")
    ensures |toks| == CountChar(p, '/')
    ensures forall i :: 0 <= i < |toks| && toks[i].Lit? ==> '/' !in toks[i].text
  {
    assert p == [p[0]] + p[1..];
    CountCharConcat([p[0]], p[1..], '/');
    TokensOf(Split(p[1..]))
  }

  /** The pattern text a token sequence stands for. */
  function Render(toks: seq<Token>): string
    decreases |toks|
  {
    if toks == [] then "" else "/" + TokenText(toks[0]) + Render(toks[1..])
  }

  lemma {:induction false} RenderTokensOf(segments: seq<string>)
    requires |segments| >= 1
    ensures Render(TokensOf(segments)) == "/" + Join(segments)
    decreases |segments|
  {
    var toks := TokensOf(segments);
    assert TokenText(toks[0]) == segments[0];
    if |segments| > 1 {
      assert toks[1..] == TokensOf(segments[1..]);
      RenderTokensOf(segments[1..]);
    } else {
      assert toks[1..] == [];
    }
  }

  /** Compilation keeps every character of the pattern: rendering the tokens gives it back. */
  lemma CompileRender(p: string)
    requires StartsWith(p, "/")
    ensures Render(Compile(p)) == p
  {
    SplitJoin(p[1..]);
    RenderTokensOf(Split(p[1..]));
    assert p == "/" + p[1..];
  }

  /** A character absent from `s` is absent from every part of `s.split('/')`. */
  lemma {:induction false} SplitPartsAvoid(s: string, c: char)
    requires c !in s
    ensures forall i :: 0 <= i < |Split(s)| ==> c !in Split(s)[i]
    decreases |s|
  {
    if '/' in s {
      var i := IndexOf(s, '/');
      assert c !in s[..i];
      assert c !in s[i + 1..];
      SplitPartsAvoid(s[i + 1..], c);
      var rest := Split(s[i + 1..]);
      assert Split(s) == [s[..i]] + rest;
      assert forall k :: 1 <= k < |Split(s)| ==> Split(s)[k] == rest[k - 1];
    }
  }

  /** Token sequences the regex translation handles: whole-segment wildcards, none adjacent. */
  predicate WellFormedTokens(toks: seq<Token>) {
    && (forall i :: 0 <= i < |toks| && toks[i].Lit? ==> '*' !in toks[i].text)
    && (forall i :: 0 <= i < |toks| - 1 ==> !(toks[i].IsWildcard() && toks[i + 1].IsWildcard()))
  }

  predicate WellFormed(p: string) {
    StartsWith(p, "/") && WellFormedTokens(Compile(p))
  }

  /** The patterns `MatchesPattern` is defined on. */
  predicate InDomain(p: string) {
    '*' !in p || WellFormed(p)
  }

  // ---------------------------------------------------------------------------
  // Matching

  /** The characters JavaScript's regex `.` refuses when the `s` flag is off. */
  predicate IsLineTerminator(c: char) {
    c == '\n' || c == '\r' || c == '\U{2028}' || c == '\U{2029}'
  }

  /** A run that `.*` consumes: it holds no line terminator. */
  predicate LineFree(s: string) {
    forall i :: 0 <= i < |s| ==> !IsLineTerminator(s[i])
  }

  /** What a `**` segment consumes: nothing, or `/` followed by a run `.*` consumes. */
  predicate DStarRun(w: string) {
    w == [] || (w[0] == '/' && LineFree(w[1..]))
  }

  /**
   The anchored matcher for a token sequence: the tokens consume the whole
   path. Every token's piece is empty or starts with `/`, so a non-empty
   matched path is rooted.
   */
  function Match(toks: seq<Token>, path: string): (r: bool)
    ensures r && path != [] ==> path[0] == '/'
    decreases |toks|, 1, 0
  {
    if toks == [] then path == []
    else
      match toks[0]
      case Lit(s) =>
        var w := "/" + s;
        StartsWith(path, w) && Match(toks[1..], path[|w|..])
      case Star =>
        |path| > 0 && path[0] == '/' && StarSplit(toks[1..], path, 1)
      case DStar =>
        Match(toks[1..], path) || (|path| > 0 && path[0] == '/' && AnySplit(toks[1..], path, 1))
  }

  /** Tries every end `k >= j` of a `[^/]*` run that starts at index 1. */
  function StarSplit(rest: seq<Token>, path: string, j: nat): bool
    requires 1 <= j <= |path|
    decreases |rest| + 1, 0, |path| - j
  {
    Match(rest, path[j..]) || (j < |path| && path[j] != '/' && StarSplit(rest, path, j + 1))
  }

  /** Tries every end `k >= j` of a `.*` run that starts at index 1. */
  function AnySplit(rest: seq<Token>, path: string, j: nat): bool
    requires 1 <= j <= |path|
    decreases |rest| + 1, 0, |path| - j
  {
    Match(rest, path[j..]) || (j < |path| && !IsLineTerminator(path[j]) && AnySplit(rest, path, j + 1))
  }

  /**
   `matchesPattern`: plain equality for star-free patterns; otherwise the
   path is one piece per compiled token, as the reference semantics `Lang`
   splits it.
   */
  function MatchesPattern(p: string, path: string): (r: bool)
    requires InDomain(p)
    ensures '*' !in p ==> (r <==> path == p)
    ensures '*' in p ==> (r <==> Lang(Compile(p), path))
    ensures StartsWith(p, "/") && r && path != [] ==> path[0] == '/'
  {
    if '*' !in p then p == path
    else
      MatchIsLang(Compile(p), path);
      Match(Compile(p), path)
  }

  // ---------------------------------------------------------------------------
  // Reference semantics: a path is a concatenation of one piece per token

  /** The strings a single token stands for. */
  ghost predicate Piece(t: Token, w: string) {
    match t
    case Lit(s) => w == "/" + s
    case Star => |w| > 0 && w[0] == '/' && '/' !in w[1..]
    case DStar => DStarRun(w)
  }

  /** `path` splits into consecutive pieces, one for each token, in order. */
  ghost predicate Lang(toks: seq<Token>, path: string)
    decreases |toks|
  {
    if toks == [] then path == []
    else exists k :: 0 <= k <= |path| && Piece(toks[0], path[..k]) && Lang(toks[1..], path[k..])
  }

  /** The matcher decides exactly the reference language. */
  lemma {:induction false} MatchIsLang(toks: seq<Token>, path: string)
    ensures Match(toks, path) <==> Lang(toks, path)
    decreases |toks|, 1, 0
  {
    if toks != [] {
      var rest := toks[1..];
      match toks[0]
      case Lit(s) =>
        var w := "/" + s;
        if StartsWith(path, w) {
          MatchIsLang(rest, path[|w|..]);
          assert Piece(toks[0], path[..|w|]);
        }
        if Lang(toks, path) {
          var k :| 0 <= k <= |path| && Piece(toks[0], path[..k]) && Lang(rest, path[k..]);
          assert k == |w|;
          MatchIsLang(rest, path[k..]);
        }
      case Star =>
        if |path| > 0 && path[0] == '/' {
          assert path[1..1] == [];
          StarSplitIsLang(rest, path, 1);
          if Lang(toks, path) {
            var k :| 0 <= k <= |path| && Piece(toks[0], path[..k]) && Lang(rest, path[k..]);
            assert path[..k][1..] == path[1..k];
          }
          if Match(toks, path) {
            var k :| 1 <= k <= |path| && '/' !in path[1..k] && Lang(rest, path[k..]);
            assert path[..k][1..] == path[1..k];
            assert Piece(toks[0], path[..k]);
          }
        }
      case DStar =>
        MatchIsLang(rest, path);
        assert path[..0] == [];
        if |path| > 0 && path[0] == '/' {
          assert path[1..1] == [];
          AnySplitIsLang(rest, path, 1);
          if Match(toks, path) && !Match(rest, path) {
            var k :| 1 <= k <= |path| && LineFree(path[1..k]) && Lang(rest, path[k..]);
            assert path[..k][1..] == path[1..k];
            assert Piece(toks[0], path[..k]);
          }
          if Lang(toks, path) {
            var k :| 0 <= k <= |path| && Piece(toks[0], path[..k]) && Lang(rest, path[k..]);
            if k == 0 {
              assert path[k..] == path;
            } else {
              assert path[..k][1..] == path[1..k];
            }
          }
        }
    }
  }

  /** Extending a `/`-free run by one non-`/` character keeps it `/`-free. */
  lemma SlashFreeExtend(path: string, j: nat)
    requires 1 <= j < |path| && '/' !in path[1..j] && path[j] != '/'
    ensures '/' !in path[1..j + 1]
  {
    assert path[1..j + 1] == path[1..j] + [path[j]];
  }

  /** Every character strictly inside a `/`-free run is not `/`. */
  lemma SlashFreeInside(path: string, j: nat, k: nat)
    requires 1 <= j < k <= |path| && '/' !in path[1..k]
    ensures path[j] != '/'
  {
    assert path[1..k][j - 1] == path[j];
  }

  lemma {:induction false} StarSplitIsLang(rest: seq<Token>, path: string, j: nat)
    requires 1 <= j <= |path| && '/' !in path[1..j]
    ensures StarSplit(rest, path, j) <==>
              exists k :: j <= k <= |path| && '/' !in path[1..k] && Lang(rest, path[k..])
    decreases |rest| + 1, 0, |path| - j
  {
    MatchIsLang(rest, path[j..]);
    if j < |path| && path[j] != '/' {
      SlashFreeExtend(path, j);
      StarSplitIsLang(rest, path, j + 1);
    }
    if exists k :: j < k <= |path| && '/' !in path[1..k] && Lang(rest, path[k..]) {
      var k :| j < k <= |path| && '/' !in path[1..k] && Lang(rest, path[k..]);
      SlashFreeInside(path, j, k);
    }
  }

  /** Extending a line-free run by one more non-terminator keeps it line-free. */
  lemma LineFreeExtend(path: string, j: nat)
    requires 1 <= j < |path| && LineFree(path[1..j]) && !IsLineTerminator(path[j])
    ensures LineFree(path[1..j + 1])
  {
    assert path[1..j + 1] == path[1..j] + [path[j]];
  }

  /** Every character strictly inside a line-free run is no line terminator. */
  lemma LineFreeInside(path: string, j: nat, k: nat)
    requires 1 <= j < k <= |path| && LineFree(path[1..k])
    ensures !IsLineTerminator(path[j])
  {
    assert path[1..k][j - 1] == path[j];
  }

  lemma {:induction false} AnySplitIsLang(rest: seq<Token>, path: string, j: nat)
    requires 1 <= j <= |path| && LineFree(path[1..j])
    ensures AnySplit(rest, path, j) <==>
              exists k :: j <= k <= |path| && LineFree(path[1..k]) && Lang(rest, path[k..])
    decreases |rest| + 1, 0, |path| - j
  {
    MatchIsLang(rest, path[j..]);
    if j < |path| && !IsLineTerminator(path[j]) {
      LineFreeExtend(path, j);
      AnySplitIsLang(rest, path, j + 1);
    }
    if exists k :: j < k <= |path| && LineFree(path[1..k]) && Lang(rest, path[k..]) {
      var k :| j < k <= |path| && LineFree(path[1..k]) && Lang(rest, path[k..]);
      LineFreeInside(path, j, k);
    }
  }

  // ---------------------------------------------------------------------------
  // What each token contributes

  /** A literal token consumes exactly `/` and its text. */
  lemma LitStep(s: string, rest: seq<Token>, path: string)
    ensures Match([Lit(s)] + rest, path) <==> StartsWith(path, "/" + s) && Match(rest, path[|s| + 1..])
  {
    assert ([Lit(s)] + rest)[1..] == rest;
  }

  /** A `*` token consumes `/` and one `/`-free run, possibly empty, and nothing more. */
  lemma StarStep(rest: seq<Token>, path: string)
    ensures Match([Star] + rest, path) <==>
              exists k :: 1 <= k <= |path| && path[0] == '/' && '/' !in path[1..k] && Match(rest, path[k..])
  {
    var toks := [Star] + rest;
    assert toks[1..] == rest;
    MatchIsLang(toks, path);
    if Match(toks, path) {
      var k :| 0 <= k <= |path| && Piece(Star, path[..k]) && Lang(rest, path[k..]);
      assert path[..k][1..] == path[1..k];
      MatchIsLang(rest, path[k..]);
    }
    if exists k :: 1 <= k <= |path| && path[0] == '/' && '/' !in path[1..k] && Match(rest, path[k..]) {
      var k :| 1 <= k <= |path| && path[0] == '/' && '/' !in path[1..k] && Match(rest, path[k..]);
      assert path[..k][1..] == path[1..k];
      MatchIsLang(rest, path[k..]);
      assert Piece(Star, path[..k]);
    }
  }

  /** A `**` token consumes nothing, or `/` followed by a line-free run. */
  lemma DStarStep(rest: seq<Token>, path: string)
    ensures Match([DStar] + rest, path) <==>
              Match(rest, path) ||
              exists k :: 1 <= k <= |path| && path[0] == '/' && LineFree(path[1..k]) && Match(rest, path[k..])
  {
    var toks := [DStar] + rest;
    assert toks[1..] == rest;
    MatchIsLang(toks, path);
    MatchIsLang(rest, path);
    if Match(toks, path) && !Match(rest, path) {
      var k :| 0 <= k <= |path| && Piece(DStar, path[..k]) && Lang(rest, path[k..]);
      assert path[..k][1..] == path[1..k];
      MatchIsLang(rest, path[k..]);
    }
    if exists k :: 1 <= k <= |path| && path[0] == '/' && LineFree(path[1..k]) && Match(rest, path[k..]) {
      var k :| 1 <= k <= |path| && path[0] == '/' && LineFree(path[1..k]) && Match(rest, path[k..]);
      MatchIsLang(rest, path[k..]);
      assert path[..k][1..] == path[1..k];
      assert Piece(DStar, path[..k]);
    }
    if Match(rest, path) {
      assert path[..0] == [] && path[0..] == path;
      assert Piece(DStar, path[..0]);
    }
  }

  lemma StarOneSegmentSound(pre: string, post: string, path: string)
    requires Match([Lit(pre), Star, Lit(post)], path)
    ensures exists seg :: '/' !in seg && path == "/" + pre + "/" + seg + "/" + post
  {
    var w := "/" + pre;
    LitStep(pre, [Star, Lit(post)], path);
    assert [Lit(pre), Star, Lit(post)] == [Lit(pre)] + [Star, Lit(post)];
    var p1 := path[|w|..];
    var k := StarThenLiteral(post, p1);
    Reassemble(path, w, p1, k, post);
  }

  /** Where a `*` followed by a literal hands over: after a `/`-free run, the literal's text ends the path. */
  lemma StarThenLiteral(post: string, p1: string) returns (k: nat)
    requires Match([Star, Lit(post)], p1)
    ensures 1 <= k <= |p1| && p1[0] == '/' && '/' !in p1[1..k] && p1[k..] == Render([Lit(post)])
  {
    StarStep([Lit(post)], p1);
    assert [Star, Lit(post)] == [Star] + [Lit(post)];
    k :| 1 <= k <= |p1| && p1[0] == '/' && '/' !in p1[1..k] && Match([Lit(post)], p1[k..]);
    LiteralMatch([Lit(post)], p1[k..]);
  }

  lemma Reassemble(path: string, w: string, p1: string, k: nat, post: string)
    requires StartsWith(path, w) && p1 == path[|w|..]
    requires 1 <= k <= |p1| && p1[0] == '/' && p1[k..] == Render([Lit(post)])
    ensures path == w + "/" + p1[1..k] + "/" + post
  {
    assert Render([Lit(post)]) == "/" + post;
    assert path == w + p1;
    assert p1 == "/" + p1[1..k] + p1[k..];
  }

  lemma StarOneSegmentComplete(pre: string, post: string, seg: string)
    requires '/' !in seg
    ensures Match([Lit(pre), Star, Lit(post)], "/" + pre + "/" + seg + "/" + post)
  {
    var w := "/" + pre;
    var p1 := "/" + seg + ("/" + post);
    var path := "/" + pre + "/" + seg + "/" + post;
    assert path == w + p1;
    var k := |seg| + 1;
    assert p1[1..k] == seg;
    assert p1[k..] == "/" + post;
    LiteralMatch([Lit(post)], p1[k..]);
    StarStep([Lit(post)], p1);
    assert [Star, Lit(post)] == [Star] + [Lit(post)];
    LitStep(pre, [Star, Lit(post)], path);
    assert [Lit(pre), Star, Lit(post)] == [Lit(pre)] + [Star, Lit(post)];
  }

  // The shape `/pre/*/post` matches exactly the paths `/pre/seg/post` whose
  // middle segment `seg` has no `/`: one segment, never zero and never two.
  lemma StarMatchesOneSegment(pre: string, post: string, path: string)
    ensures Match([Lit(pre), Star, Lit(post)], path) <==>
              exists seg :: '/' !in seg && path == "/" + pre + "/" + seg + "/" + post
  {
    if Match([Lit(pre), Star, Lit(post)], path) {
      StarOneSegmentSound(pre, post, path);
    }
    if exists seg :: '/' !in seg && path == "/" + pre + "/" + seg + "/" + post {
      var seg :| '/' !in seg && path == "/" + pre + "/" + seg + "/" + post;
      StarOneSegmentComplete(pre, post, seg);
    }
  }

  /**
   A `**` token absorbs any run of further segments: whatever `w` is, as long
   as it is empty or starts with `/` and holds no line terminator, the pattern
   still matches `w + tail`.
   */
  lemma DStarAbsorbs(rest: seq<Token>, w: string, tail: string)
    requires DStarRun(w)
    requires Match(rest, tail)
    ensures Match([DStar] + rest, w + tail)
  {
    DStarStep(rest, w + tail);
    if w == [] {
      assert w + tail == tail;
    } else {
      assert (w + tail)[|w|..] == tail;
      assert (w + tail)[1..|w|] == w[1..];
    }
  }

  predicate AllLiteral(toks: seq<Token>) {
    forall i :: 0 <= i < |toks| ==> toks[i].Lit?
  }

  /** Literal tokens match one path only: their own text, character for character. */
  lemma {:induction false} LiteralMatch(toks: seq<Token>, path: string)
    requires AllLiteral(toks)
    ensures Match(toks, path) <==> path == Render(toks)
    decreases |toks|
  {
    if toks != [] {
      var s := toks[0].text;
      var w := "/" + s;
      var rest := toks[1..];
      assert AllLiteral(rest);
      assert Render(toks) == w + Render(rest);
      if StartsWith(path, w) {
        LiteralMatch(rest, path[|w|..]);
        assert path == w + path[|w|..];
      }
      if path == Render(toks) {
        assert path[..|w|] == w && path[|w|..] == Render(rest);
        LiteralMatch(rest, path[|w|..]);
      }
    }
  }

  /**
   For a star-free absolute pattern the compiled matcher and the source's
   equality shortcut agree, so every character, regex metacharacters such as
   `.`, `+` and `?` included, matches only itself.
   */
  lemma CompiledLiteralAgrees(p: string, path: string)
    requires StartsWith(p, "/") && '*' !in p
    ensures Match(Compile(p), path) <==> path == p
  {
    assert p == [p[0]] + p[1..];
    SplitPartsAvoid(p[1..], '*');
    var segs := Split(p[1..]);
    forall i | 0 <= i < |segs|
      ensures TokenOf(segs[i]).Lit?
    {
      assert '*' !in segs[i];
      assert segs[i] != "*" && segs[i] != "**";
    }
    LiteralMatch(Compile(p), path);
    CompileRender(p);
  }

  /** Building the reference language one leading piece at a time. */
  lemma LangCons(t: Token, toks: seq<Token>, k: nat, path: string)
    requires k <= |path| && Piece(t, path[..k]) && Lang(toks, path[k..])
    ensures Lang([t] + toks, path)
  {
    assert ([t] + toks)[0] == t && ([t] + toks)[1..] == toks;
  }

  /** A single token's language is its piece. */
  lemma LangSingle(t: Token, path: string)
    requires Lang([t], path)
    ensures Piece(t, path)
  {
    var k :| 0 <= k <= |path| && Piece(t, path[..k]) && Lang([t][1..], path[k..]);
    assert [t][1..] == [];
    assert path[..k] == path;
  }

  /** The first step of `Lang(toks + [t], path)` for non-empty `toks`. */
  lemma LangSnocHead(toks: seq<Token>, t: Token, path: string) returns (k1: nat)
    requires toks != [] && Lang(toks + [t], path)
    ensures k1 <= |path| && Piece(toks[0], path[..k1]) && Lang(toks[1..] + [t], path[k1..])
  {
    var all := toks + [t];
    assert all[0] == toks[0];
    assert all[1..] == toks[1..] + [t];
    k1 :| 0 <= k1 <= |path| && Piece(all[0], path[..k1]) && Lang(all[1..], path[k1..]);
  }

  /** Reassembles the two pieces found by `LangSnoc`'s induction step. */
  lemma LangSnocCombine(toks: seq<Token>, t: Token, path: string, k1: nat, k2: nat)
    requires toks != [] && k1 <= |path| && k2 <= |path| - k1
    requires Piece(toks[0], path[..k1])
    requires Lang(toks[1..], path[k1..][..k2]) && Piece(t, path[k1..][k2..])
    ensures Lang(toks, path[..k1 + k2]) && Piece(t, path[k1 + k2..])
  {
    var q := path[..k1 + k2];
    assert q[..k1] == path[..k1];
    assert q[k1..] == path[k1..][..k2];
    LangCons(toks[0], toks[1..], k1, q);
    assert [toks[0]] + toks[1..] == toks;
    assert path[k1 + k2..] == path[k1..][k2..];
  }

  /** Peeling the last token off the reference language. */
  lemma {:induction false} LangSnoc(toks: seq<Token>, t: Token, path: string)
    requires Lang(toks + [t], path)
    ensures exists k :: 0 <= k <= |path| && Lang(toks, path[..k]) && Piece(t, path[k..])
    decreases |toks|
  {
    if toks == [] {
      assert toks + [t] == [t];
      LangSingle(t, path);
      assert path[..0] == [] && path[0..] == path;
    } else {
      var k1 := LangSnocHead(toks, t, path);
      LangSnoc(toks[1..], t, path[k1..]);
      var k2 :| 0 <= k2 <= |path[k1..]| && Lang(toks[1..], path[k1..][..k2]) && Piece(t, path[k1..][k2..]);
      LangSnocCombine(toks, t, path, k1, k2);
    }
  }

  /** Concatenating pieces: the language of `a + b` holds `x + y` when `a` holds `x` and `b` holds `y`. */
  lemma {:induction false} LangAppend(a: seq<Token>, b: seq<Token>, x: string, y: string)
    requires Lang(a, x) && Lang(b, y)
    ensures Lang(a + b, x + y)
    decreases |a|
  {
    if a == [] {
      assert a + b == b && x + y == y;
    } else {
      var k :| 0 <= k <= |x| && Piece(a[0], x[..k]) && Lang(a[1..], x[k..]);
      LangAppend(a[1..], b, x[k..], y);
      LangAppendStep(a, b, x, y, k);
    }
  }

  /** The induction step of `LangAppend`: put the first piece back in front. */
  lemma LangAppendStep(a: seq<Token>, b: seq<Token>, x: string, y: string, k: nat)
    requires a != [] && k <= |x| && Piece(a[0], x[..k]) && Lang(a[1..] + b, x[k..] + y)
    ensures Lang(a + b, x + y)
  {
    CutConcat(x, y, k);
    HeadConcat(a, b);
  }

  lemma CutConcat(x: string, y: string, k: nat)
    requires k <= |x|
    ensures (x + y)[..k] == x[..k] && (x + y)[k..] == x[k..] + y
  {
  }

  lemma HeadConcat(a: seq<Token>, b: seq<Token>)
    requires a != []
    ensures (a + b)[0] == a[0] && (a + b)[1..] == a[1..] + b
  {
  }

  /** Token sequences match piecewise: matches of `a` and `b` concatenate into a match of `a + b`. */
  lemma MatchAppend(a: seq<Token>, b: seq<Token>, x: string, y: string)
    requires Match(a, x) && Match(b, y)
    ensures Match(a + b, x + y)
  {
    MatchIsLang(a, x);
    MatchIsLang(b, y);
    LangAppend(a, b, x, y);
    MatchIsLang(a + b, x + y);
  }

  /** A lone `*` token matches `/` followed by any single segment, the empty one included. */
  lemma StarMatchesSegment(seg: string)
    requires '/' !in seg
    ensures Match([Star], "/" + seg)
  {
    var path := "/" + seg;
    assert path[1..|path|] == seg;
    assert path[|path|..] == [];
    StarStep([], path);
    assert [Star] + [] == [Star];
  }

  /** The tokens of a pattern, read off any cut of it into `/`-free segments. */
  lemma CompileFrom(p: string, segments: seq<string>)
    requires StartsWith(p, "/") && |segments| >= 1 && Join(segments) == p[1..]
    requires forall i :: 0 <= i < |segments| ==> '/' !in segments[i]
    ensures Compile(p) == TokensOf(segments)
  {
    SplitUnique(p[1..], segments);
  }

  /** Anchored at the end: a pattern ending in a literal segment only matches paths ending in it. */
  lemma EndAnchoredLiteral(toks: seq<Token>, s: string, path: string)
    requires Match(toks + [Lit(s)], path)
    ensures EndsWith(path, "/" + s)
  {
    MatchIsLang(toks + [Lit(s)], path);
    LangSnoc(toks, Lit(s), path);
  }

  /**
   Anchored at the end: a pattern ending in `*` only matches paths whose part
   after their last `/` is the star's segment, so it never spans two segments.
   */
  lemma EndAnchoredStar(toks: seq<Token>, path: string)
    requires Match(toks + [Star], path)
    ensures exists k :: 0 <= k < |path| && path[k] == '/' && '/' !in path[k + 1..] && Match(toks, path[..k])
  {
    MatchIsLang(toks + [Star], path);
    LangSnoc(toks, Star, path);
    var k :| 0 <= k <= |path| && Lang(toks, path[..k]) && Piece(Star, path[k..]);
    MatchIsLang(toks, path[..k]);
    assert path[k..][1..] == path[k + 1..];
  }

  /** Anchored at the start: a pattern opening with a literal segment only matches paths opening with it. */
  lemma StartAnchoredLiteral(s: string, rest: seq<Token>, path: string)
    requires Match([Lit(s)] + rest, path)
    ensures StartsWith(path, "/" + s)
  {
    LitStep(s, rest, path);
  }
}
