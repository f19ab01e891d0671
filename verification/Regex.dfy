/**
The fragment of regular-expression syntax that the policy engine emits, with its textbook meaning:
a sequence of pieces, each a character class that is taken once or, with a star, any number of times.
*/
module Regex {
  import opened Options

  datatype Class = AnyButNewline | AnyBut(c: char) | Exactly(c: char)

  datatype Piece = Piece(cls: Class, starred: bool)

  predicate Accepts(cls: Class, c: char) {
    match cls
    case AnyButNewline => c != '\n'
    case AnyBut(d) => c != d
    case Exactly(d) => c == d
  }

  /** Whether the whole of `t` is in the language of the pieces (the anchored match `^...$`). */
  predicate Matches(pieces: seq<Piece>, t: string)
    decreases |pieces|, |t|
  {
    if pieces == [] then t == ""
    else if pieces[0].starred then
      Matches(pieces[1..], t) || (t != "" && Accepts(pieces[0].cls, t[0]) && Matches(pieces, t[1..]))
    else
      t != "" && Accepts(pieces[0].cls, t[0]) && Matches(pieces[1..], t[1..])
  }

  /** A starred piece takes some prefix made of accepted characters. */
  lemma {:induction false} StarTakesAPrefix(pieces: seq<Piece>, t: string)
    requires pieces != [] && pieces[0].starred
    ensures Matches(pieces, t) <==>
            exists k | 0 <= k <= |t| :: AllAccepted(pieces[0].cls, t[..k]) && Matches(pieces[1..], t[k..])
    decreases |t|
  {
    var cls := pieces[0].cls;
    if Matches(pieces, t) {
      if Matches(pieces[1..], t) {
        assert AllAccepted(cls, t[..0]) && t[0..] == t;
      } else {
        StarTakesAPrefix(pieces, t[1..]);
        var k :| 0 <= k <= |t[1..]| && AllAccepted(cls, t[1..][..k]) && Matches(pieces[1..], t[1..][k..]);
        assert t[..k + 1] == [t[0]] + t[1..][..k] && t[k + 1..] == t[1..][k..];
        assert AllAccepted(cls, t[..k + 1]);
      }
    }
    if k :| 0 <= k <= |t| && AllAccepted(cls, t[..k]) && Matches(pieces[1..], t[k..]) {
      if k == 0 {
        assert t[0..] == t;
      } else {
        assert t[1..][..k - 1] == t[..k][1..] && t[1..][k - 1..] == t[k..];
        assert AllAccepted(cls, t[1..][..k - 1]);
        StarTakesAPrefix(pieces, t[1..]);
        assert t[..k][0] == t[0];
      }
    }
  }

  predicate AllAccepted(cls: Class, s: string) {
    forall i | 0 <= i < |s| :: Accepts(cls, s[i])
  }

  // ---- Reading the syntax ----

  const META := "\\.+*?()|[]{}^$#&-~"

  /** One class at the front of the text and what follows it; None for syntax outside the fragment. */
  function ReadClass(re: string): (r: Option<(Class, string)>)
    ensures r.Some? ==> |r.value.1| < |re|
  {
    if re == "" then None
    else if re[0] == '\\' then
      if |re| >= 2 then Some((Exactly(re[1]), re[2..])) else None
    else if re[0] == '.' then Some((AnyButNewline, re[1..]))
    else if re[0] == '[' then
      if |re| >= 4 && re[1] == '^' && re[2] !in META && re[3] == ']' then Some((AnyBut(re[2]), re[4..])) else None
    else if re[0] in META then None
    else Some((Exactly(re[0]), re[1..]))
  }

  function Parse(re: string): Option<seq<Piece>>
    decreases |re|
  {
    if re == "" then Some([])
    else
      var first := ReadClass(re);
      if first.None? then None
      else
        var (cls, rest) := first.value;
        var starred := rest != "" && rest[0] == '*';
        var tail := Parse(if starred then rest[1..] else rest);
        if tail.None? then None else Some([Piece(cls, starred)] + tail.value)
  }

  // ---- The library's escape, and textual replacement ----

  function Escape(s: string): string {
    if s == "" then "" else (if s[0] in META then ['\\', s[0]] else [s[0]]) + Escape(s[1..])
  }

  /** Left-to-right replacement of non-overlapping occurrences. */
  function Replace(s: string, pattern: string, replacement: string): string
    requires pattern != ""
    decreases |s|
  {
    if s == "" then ""
    else if pattern <= s then replacement + Replace(s[|pattern|..], pattern, replacement)
    else [s[0]] + Replace(s[1..], pattern, replacement)
  }

  lemma {:induction false} NotAPrefix(pattern: string, s: string, i: nat)
    requires i < |pattern| && (i >= |s| || pattern[i] != s[i])
    ensures !(pattern <= s)
  {
  }

  lemma {:induction false} ReplaceSkips(c: char, rest: string, pattern: string, replacement: string)
    requires pattern != "" && !(pattern <= [c] + rest)
    ensures Replace([c] + rest, pattern, replacement) == [c] + Replace(rest, pattern, replacement)
  {
    assert ([c] + rest)[1..] == rest;
  }

  lemma {:induction false} ReplaceHits(rest: string, pattern: string, replacement: string)
    requires pattern != ""
    ensures Replace(pattern + rest, pattern, replacement) == replacement + Replace(rest, pattern, replacement)
  {
    assert (pattern + rest)[|pattern|..] == rest;
  }

  lemma {:induction false} EscapeUnfolds(c: char, rest: string)
    ensures Escape([c] + rest) == (if c in META then ['\\', c] else [c]) + Escape(rest)
  {
    assert ([c] + rest)[1..] == rest;
  }
}
