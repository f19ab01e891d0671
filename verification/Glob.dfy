/** Path patterns: `**` is any string, `*` any string without a slash, everything else is itself. */
module Glob {
  import opened Options
  import opened Regex

  const ESCAPED_STAR := "\\*"
  const ESCAPED_STARS := "\\*\\*"

  /** The regular expression a pattern is compiled to: escape it all, then put the wildcards back. */
  function Compile(pattern: string): string {
    Replace(Replace(Escape(pattern), ESCAPED_STARS, ".*"), ESCAPED_STAR, "[^/]*")
  }

  function SlashesForward(pattern: string): (r: string)
    ensures '\\' !in r && |r| == |pattern|
    ensures forall i | 0 <= i < |r| :: r[i] == if pattern[i] == '\\' then '/' else pattern[i]
  {
    if pattern == "" then ""
    else [if pattern[0] == '\\' then '/' else pattern[0]] + SlashesForward(pattern[1..])
  }

  /** The pattern matcher: the target is already a normalised path. */
  predicate MatchGlob(target: string, pattern: string) {
    var re := Parse(Compile(SlashesForward(pattern)));
    re.Some? && Matches(re.value, target)
  }

  /** What a pattern means, read from left to right, longest wildcard first. */
  ghost predicate Means(pattern: string, t: string)
    decreases |pattern|
  {
    if pattern == "" then t == ""
    else if |pattern| >= 2 && pattern[..2] == "**" then
      exists k | 0 <= k <= |t| :: Means(pattern[2..], t[k..])
    else if pattern[0] == '*' then
      exists k | 0 <= k <= |t| :: '/' !in t[..k] && Means(pattern[1..], t[k..])
    else
      t != "" && t[0] == pattern[0] && Means(pattern[1..], t[1..])
  }

  /** The same reading, except that `**` takes no line feed, just as the dot of a regular expression. */
  ghost predicate MeansDot(pattern: string, t: string)
    decreases |pattern|
  {
    if pattern == "" then t == ""
    else if |pattern| >= 2 && pattern[..2] == "**" then
      exists k | 0 <= k <= |t| :: '\n' !in t[..k] && MeansDot(pattern[2..], t[k..])
    else if pattern[0] == '*' then
      exists k | 0 <= k <= |t| :: '/' !in t[..k] && MeansDot(pattern[1..], t[k..])
    else
      t != "" && t[0] == pattern[0] && MeansDot(pattern[1..], t[1..])
  }

  /** The pieces that the compiled expression is meant to consist of. */
  function Pieces(pattern: string): seq<Piece>
    decreases |pattern|
  {
    if pattern == "" then []
    else if |pattern| >= 2 && pattern[..2] == "**" then [Piece(AnyButNewline, true)] + Pieces(pattern[2..])
    else if pattern[0] == '*' then [Piece(AnyBut('/'), true)] + Pieces(pattern[1..])
    else [Piece(Exactly(pattern[0]), false)] + Pieces(pattern[1..])
  }

  // ---- Compilation yields exactly those pieces ----

  /** How an ordinary character is written in the compiled expression. */
  function Literal(c: char): string {
    if c in META then ['\\', c] else [c]
  }

  lemma {:induction false} CompileLiteral(c: char, rest: string)
    requires c != '*' && c != '\\'
    ensures Compile([c] + rest) == Literal(c) + Compile(rest)
  {
    var e := Escape(rest);
    var once := Replace(e, ESCAPED_STARS, ".*");
    EscapeUnfolds(c, rest);
    if c in META {
      SkipEscaped(c, e, ESCAPED_STARS, ".*");
      SkipEscaped(c, once, ESCAPED_STAR, "[^/]*");
    } else {
      NotAPrefix(ESCAPED_STARS, [c] + e, 0);
      ReplaceSkips(c, e, ESCAPED_STARS, ".*");
      NotAPrefix(ESCAPED_STAR, [c] + once, 0);
      ReplaceSkips(c, once, ESCAPED_STAR, "[^/]*");
    }
  }

  lemma {:induction false} SkipEscaped(c: char, rest: string, pattern: string, replacement: string)
    requires |pattern| >= 2 && pattern[1] != c && pattern[0] != c
    ensures Replace(['\\', c] + rest, pattern, replacement) == ['\\', c] + Replace(rest, pattern, replacement)
  {
    var s := ['\\', c] + rest;
    assert s == ['\\'] + ([c] + rest);
    NotAPrefix(pattern, s, 1);
    ReplaceSkips('\\', [c] + rest, pattern, replacement);
    NotAPrefix(pattern, [c] + rest, 0);
    ReplaceSkips(c, rest, pattern, replacement);
  }

  lemma {:induction false} CompileStars(rest: string)
    ensures Compile("**" + rest) == ".*" + Compile(rest)
  {
    EscapedStars(rest);
    ReplaceHits(Escape(rest), ESCAPED_STARS, ".*");
    WildcardIsKept(Replace(Escape(rest), ESCAPED_STARS, ".*"));
  }

  lemma {:induction false} EscapedStars(rest: string)
    ensures Escape("**" + rest) == ESCAPED_STARS + Escape(rest)
  {
    assert "**" + rest == ['*'] + (['*'] + rest);
    EscapeUnfolds('*', ['*'] + rest);
    EscapeUnfolds('*', rest);
  }

  lemma {:induction false} WildcardIsKept(once: string)
    ensures Replace(".*" + once, ESCAPED_STAR, "[^/]*") == ".*" + Replace(once, ESCAPED_STAR, "[^/]*")
  {
    assert ".*" + once == ['.'] + (['*'] + once);
    NotAPrefix(ESCAPED_STAR, ['.'] + (['*'] + once), 0);
    ReplaceSkips('.', ['*'] + once, ESCAPED_STAR, "[^/]*");
    NotAPrefix(ESCAPED_STAR, ['*'] + once, 0);
    ReplaceSkips('*', once, ESCAPED_STAR, "[^/]*");
  }

  lemma {:induction false} CompileStar(rest: string)
    requires rest == "" || rest[0] != '*'
    ensures Compile("*" + rest) == "[^/]*" + Compile(rest)
  {
    EscapedStar(rest);
    EscapeDoesNotStartStarred(rest);
    SingleStarIsKept(Escape(rest));
    ReplaceHits(Replace(Escape(rest), ESCAPED_STARS, ".*"), ESCAPED_STAR, "[^/]*");
  }

  lemma {:induction false} EscapedStar(rest: string)
    ensures Escape("*" + rest) == ESCAPED_STAR + Escape(rest)
  {
    assert "*" + rest == ['*'] + rest;
    EscapeUnfolds('*', rest);
  }

  lemma {:induction false} SingleStarIsKept(e: string)
    requires !(ESCAPED_STAR <= e)
    ensures Replace(ESCAPED_STAR + e, ESCAPED_STARS, ".*") == ESCAPED_STAR + Replace(e, ESCAPED_STARS, ".*")
  {
    var once := Replace(e, ESCAPED_STARS, ".*");
    assert ESCAPED_STAR + e == ['\\'] + (['*'] + e);
    StarsNeedTwo(e);
    ReplaceSkips('\\', ['*'] + e, ESCAPED_STARS, ".*");
    NotAPrefix(ESCAPED_STARS, ['*'] + e, 0);
    ReplaceSkips('*', e, ESCAPED_STARS, ".*");
    assert ['\\'] + (['*'] + once) == ESCAPED_STAR + once;
  }

  lemma {:induction false} NoPrefixAtTheEnd(p: string, s: string, front: string)
    requires !(p <= s)
    ensures !(front + p <= front + s)
  {
    if |p| <= |s| {
      assert (front + s)[..|front| + |p|] == front + s[..|p|];
      assert (front + p)[|front|..] == p && (front + s[..|p|])[|front|..] == s[..|p|];
    }
  }

  lemma {:induction false} StarsNeedTwo(e: string)
    requires !(ESCAPED_STAR <= e)
    ensures !(ESCAPED_STARS <= ['\\'] + (['*'] + e))
  {
    assert ['\\'] + (['*'] + e) == ESCAPED_STAR + e && ESCAPED_STARS == ESCAPED_STAR + ESCAPED_STAR;
    NoPrefixAtTheEnd(ESCAPED_STAR, e, ESCAPED_STAR);
  }

  lemma {:induction false} EscapeDoesNotStartStarred(rest: string)
    requires rest == "" || rest[0] != '*'
    ensures !(ESCAPED_STAR <= Escape(rest))
  {
    if rest != "" {
      assert rest == [rest[0]] + rest[1..];
      EscapeUnfolds(rest[0], rest[1..]);
      NotAPrefix(ESCAPED_STAR, Escape(rest), if rest[0] in META then 1 else 0);
    } else {
      NotAPrefix(ESCAPED_STAR, Escape(rest), 0);
    }
  }

  /** No compiled expression starts with a bare star, so a star always belongs to the piece before it. */
  lemma {:induction false} CompiledStart(pattern: string)
    requires '\\' !in pattern
    ensures Compile(pattern) == "" || Compile(pattern)[0] != '*'
  {
    if pattern == "" {
    } else if |pattern| >= 2 && pattern[..2] == "**" {
      assert pattern == "**" + pattern[2..];
      CompileStars(pattern[2..]);
    } else if pattern[0] == '*' {
      assert pattern == "*" + pattern[1..];
      if |pattern| >= 2 { assert pattern[..2] == [pattern[0], pattern[1]]; }
      CompileStar(pattern[1..]);
    } else {
      assert pattern == [pattern[0]] + pattern[1..];
      CompileLiteral(pattern[0], pattern[1..]);
    }
  }

  lemma {:induction false} ParseLiteral(c: char, rest: string)
    requires c != '\\' && (rest == "" || rest[0] != '*')
    ensures Parse(Literal(c) + rest)
            == (var tail := Parse(rest);
                if tail.None? then None else Some([Piece(Exactly(c), false)] + tail.value))
  {
    var re := Literal(c) + rest;
    assert re[|Literal(c)|..] == rest;
  }

  lemma {:induction false} ParseStars(rest: string)
    ensures Parse(".*" + rest)
            == (var tail := Parse(rest);
                if tail.None? then None else Some([Piece(AnyButNewline, true)] + tail.value))
    ensures Parse("[^/]*" + rest)
            == (var tail := Parse(rest);
                if tail.None? then None else Some([Piece(AnyBut('/'), true)] + tail.value))
  {
    assert (".*" + rest)[1..] == "*" + rest && ("*" + rest)[1..] == rest;
    assert ("[^/]*" + rest)[4..] == "*" + rest;
  }

  /** Escaping and substituting text gives an expression that reads as the pieces of the pattern. */
  lemma {:induction false} CompileParses(pattern: string)
    requires '\\' !in pattern
    ensures Parse(Compile(pattern)) == Some(Pieces(pattern))
    decreases |pattern|
  {
    if pattern == "" {
    } else if |pattern| >= 2 && pattern[..2] == "**" {
      assert pattern == "**" + pattern[2..];
      CompileStars(pattern[2..]);
      CompileParses(pattern[2..]);
      ParseStars(Compile(pattern[2..]));
    } else if pattern[0] == '*' {
      assert pattern == "*" + pattern[1..];
      if |pattern| >= 2 { assert pattern[..2] == [pattern[0], pattern[1]]; }
      CompileStar(pattern[1..]);
      CompileParses(pattern[1..]);
      ParseStars(Compile(pattern[1..]));
    } else {
      assert pattern == [pattern[0]] + pattern[1..];
      CompileLiteral(pattern[0], pattern[1..]);
      CompiledStart(pattern[1..]);
      CompileParses(pattern[1..]);
      ParseLiteral(pattern[0], Compile(pattern[1..]));
    }
  }

  // ---- The pieces mean what the pattern means ----

  ghost predicate Agrees(pattern: string, t: string) {
    Matches(Pieces(pattern), t) <==> MeansDot(pattern, t)
  }

  lemma {:induction false} StarsCase(pattern: string, t: string)
    requires |pattern| >= 2 && pattern[..2] == "**"
    requires forall k | 0 <= k <= |t| :: Agrees(pattern[2..], t[k..])
    ensures Agrees(pattern, t)
  {
    var ps, rest := Pieces(pattern), Pieces(pattern[2..]);
    assert ps[1..] == rest;
    StarTakesAPrefix(ps, t);
    if Matches(ps, t) {
      var k :| 0 <= k <= |t| && AllAccepted(AnyButNewline, t[..k]) && Matches(rest, t[k..]);
      assert Agrees(pattern[2..], t[k..]) && '\n' !in t[..k];
    }
    if MeansDot(pattern, t) {
      var k :| 0 <= k <= |t| && '\n' !in t[..k] && MeansDot(pattern[2..], t[k..]);
      assert Agrees(pattern[2..], t[k..]) && AllAccepted(AnyButNewline, t[..k]);
    }
  }

  lemma {:induction false} StarCase(pattern: string, t: string)
    requires pattern != "" && pattern[0] == '*' && !(|pattern| >= 2 && pattern[..2] == "**")
    requires forall k | 0 <= k <= |t| :: Agrees(pattern[1..], t[k..])
    ensures Agrees(pattern, t)
  {
    var ps, rest := Pieces(pattern), Pieces(pattern[1..]);
    assert ps[1..] == rest;
    StarTakesAPrefix(ps, t);
    if Matches(ps, t) {
      var k :| 0 <= k <= |t| && AllAccepted(AnyBut('/'), t[..k]) && Matches(rest, t[k..]);
      assert Agrees(pattern[1..], t[k..]) && '/' !in t[..k];
    }
    if MeansDot(pattern, t) {
      var k :| 0 <= k <= |t| && '/' !in t[..k] && MeansDot(pattern[1..], t[k..]);
      assert Agrees(pattern[1..], t[k..]) && AllAccepted(AnyBut('/'), t[..k]);
    }
  }

  lemma {:induction false} PiecesMean(pattern: string, t: string)
    ensures Matches(Pieces(pattern), t) <==> MeansDot(pattern, t)
    decreases |pattern|
  {
    if pattern == "" {
    } else if |pattern| >= 2 && pattern[..2] == "**" {
      forall k | 0 <= k <= |t| ensures Agrees(pattern[2..], t[k..]) { PiecesMean(pattern[2..], t[k..]); }
      StarsCase(pattern, t);
    } else if pattern[0] == '*' {
      forall k | 0 <= k <= |t| ensures Agrees(pattern[1..], t[k..]) { PiecesMean(pattern[1..], t[k..]); }
      StarCase(pattern, t);
    } else if t != "" {
      PiecesMean(pattern[1..], t[1..]);
      assert Pieces(pattern)[1..] == Pieces(pattern[1..]);
    }
  }

  /** The compiled matcher, on every path: the left-to-right reading in which `**` takes no line feed. */
  lemma {:induction false} GlobMatchesExactly(target: string, pattern: string)
    ensures MatchGlob(target, pattern) <==> MeansDot(SlashesForward(pattern), target)
  {
    CompileParses(SlashesForward(pattern));
    PiecesMean(SlashesForward(pattern), target);
  }

  // ---- The two readings ----

  predicate AdjacentStars(pattern: string) {
    exists i | 0 <= i < |pattern| - 1 :: pattern[i] == '*' && pattern[i + 1] == '*'
  }

  lemma {:induction false} NoStarsInTheRest(pattern: string)
    requires pattern != "" && !AdjacentStars(pattern)
    ensures !AdjacentStars(pattern[1..]) && !(|pattern| >= 2 && pattern[..2] == "**")
  {
    if |pattern| >= 2 {
      assert !(pattern[0] == '*' && pattern[0 + 1] == '*');
      assert pattern[..2][0] == pattern[0] && pattern[..2][1] == pattern[1];
    }
    forall i | 0 <= i < |pattern[1..]| - 1 ensures !(pattern[1..][i] == '*' && pattern[1..][i + 1] == '*') {
      assert !(pattern[i + 1] == '*' && pattern[i + 1 + 1] == '*');
    }
  }

  lemma {:induction false} DotMeansLess(pattern: string, t: string)
    requires MeansDot(pattern, t)
    ensures Means(pattern, t)
    decreases |pattern|
  {
    if pattern == "" {
    } else if |pattern| >= 2 && pattern[..2] == "**" {
      var k :| 0 <= k <= |t| && '\n' !in t[..k] && MeansDot(pattern[2..], t[k..]);
      DotMeansLess(pattern[2..], t[k..]);
    } else if pattern[0] == '*' {
      var k :| 0 <= k <= |t| && '/' !in t[..k] && MeansDot(pattern[1..], t[k..]);
      DotMeansLess(pattern[1..], t[k..]);
    } else {
      DotMeansLess(pattern[1..], t[1..]);
    }
  }

  lemma {:induction false} SameReading(pattern: string, t: string)
    requires Means(pattern, t) && ('\n' !in t || !AdjacentStars(pattern))
    ensures MeansDot(pattern, t)
    decreases |pattern|
  {
    if pattern == "" {
    } else if |pattern| >= 2 && pattern[..2] == "**" {
      if AdjacentStars(pattern) {
        var k :| 0 <= k <= |t| && Means(pattern[2..], t[k..]);
        SameReading(pattern[2..], t[k..]);
      } else {
        NoStarsInTheRest(pattern);
      }
    } else if pattern[0] == '*' {
      if !AdjacentStars(pattern) { NoStarsInTheRest(pattern); }
      var k :| 0 <= k <= |t| && '/' !in t[..k] && Means(pattern[1..], t[k..]);
      SameReading(pattern[1..], t[k..]);
    } else {
      if !AdjacentStars(pattern) { NoStarsInTheRest(pattern); }
      SameReading(pattern[1..], t[1..]);
    }
  }

  /** The dot makes no difference for a pattern without two adjacent stars, nor for a path without a line feed. */
  lemma {:induction false} DotMattersOnlyForStarsAndLineFeeds(pattern: string, t: string)
    requires '\n' !in t || !AdjacentStars(pattern)
    ensures MeansDot(pattern, t) <==> Means(pattern, t)
  {
    if MeansDot(pattern, t) {
      DotMeansLess(pattern, t);
    } else if Means(pattern, t) {
      SameReading(pattern, t);
    }
  }

  /** The compiled matcher accepts a path exactly when the pattern, read left to right, describes it. */
  lemma {:induction false} GlobMeansItsPattern(target: string, pattern: string)
    ensures MatchGlob(target, pattern) ==> Means(SlashesForward(pattern), target)
    ensures '\n' !in target || !AdjacentStars(SlashesForward(pattern)) ==>
              (MatchGlob(target, pattern) <==> Means(SlashesForward(pattern), target))
  {
    GlobMatchesExactly(target, pattern);
    if MatchGlob(target, pattern) {
      DotMeansLess(SlashesForward(pattern), target);
    } else if Means(SlashesForward(pattern), target) && ('\n' !in target || !AdjacentStars(SlashesForward(pattern))) {
      SameReading(SlashesForward(pattern), target);
    }
  }

  /** A path with a line feed is described by `**` but not matched by it. */
  lemma {:induction false} LineFeedIsNotMatched()
    ensures Means("**", "\n") && !MatchGlob("\n", "**")
  {
    assert "**"[..2] == "**" && "**"[2..] == "" && "\n"[1..] == "";
    assert Means("", "\n"[1..]);
    assert SlashesForward("**") == "**" by {
      assert "**"[1..] == "*" && "*"[1..] == "";
    }
    CompileParses("**");
    assert Pieces("**") == [Piece(AnyButNewline, true)];
    assert [Piece(AnyButNewline, true)][1..] == [];
  }

  /** The paths on which the two readings agree for every pattern are those without a line feed. */
  lemma {:induction false} ReadingsAgreeExactlyWithoutLineFeeds(t: string)
    ensures (forall p :: MeansDot(p, t) <==> Means(p, t)) <==> '\n' !in t
  {
    if '\n' !in t {
      forall p ensures MeansDot(p, t) <==> Means(p, t) {
        DotMattersOnlyForStarsAndLineFeeds(p, t);
      }
    } else {
      TwoStars(t);
      assert MeansDot("**", t) != Means("**", t);
    }
  }

  lemma {:induction false} TwoStars(t: string)
    ensures Means("**", t) && (MeansDot("**", t) <==> '\n' !in t)
  {
    assert "**"[..2] == "**" && "**"[2..] == "";
    assert t[|t|..] == "" && t[..|t|] == t;
    assert Means("", t[|t|..]) && MeansDot("", t[|t|..]);
  }
}
