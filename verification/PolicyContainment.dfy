/**
What it takes for a path that passes the containment test to stay within the root: its normal form may still hold
parent steps, which backslashes hid from the cleaning.
*/
module PolicyContainment {
  import opened Options
  import opened PolicyPaths

  /** Names minus parent steps. */
  function Balance(pieces: seq<string>): int {
    if pieces == [] then 0
    else
      var last := pieces[|pieces| - 1];
      Balance(pieces[..|pieces| - 1]) + if last == ".." then -1 else if last == "" || last == "." then 0 else 1
  }

  /** In no beginning of the pieces do the parent steps outnumber the names. */
  ghost predicate NeverAbove(pieces: seq<string>) {
    forall k | 0 <= k <= |pieces| :: Balance(pieces[..k]) >= 0
  }

  /** Where the pieces lead, counted from the root directory. */
  function Walk(pieces: seq<string>): seq<string> {
    Resolve(Components(pieces))
  }

  /** Every beginning of the path that goes at least as far as the root leads to the root or below it. */
  ghost predicate StaysWithin(root: seq<string>, rest: seq<string>) {
    forall k | 0 <= k <= |rest| :: root <= Names(Render(root + rest[..k]))
  }

  /** What one segment contributes. */
  function OneComponent(x: string): seq<Component> {
    if x == "" || x == "." then [] else [if x == ".." then ParentDir else Normal(x)]
  }

  lemma {:induction false} HeadComponent(segments: seq<string>)
    requires segments != []
    ensures Components(segments) == OneComponent(segments[0]) + Components(segments[1..])
  {
  }

  lemma {:induction false} ComponentsConcat(a: seq<string>, b: seq<string>)
    ensures Components(a + b) == Components(a) + Components(b)
  {
    if a == [] {
      assert a + b == b && [] + Components(b) == Components(b);
    } else {
      HeadComponent(a);
      HeadComponent(a + b);
      assert (a + b)[0] == a[0] && (a + b)[1..] == a[1..] + b;
      ComponentsConcat(a[1..], b);
      Associates(OneComponent(a[0]), Components(a[1..]), Components(b));
    }
  }

  lemma {:induction false} Associates<T>(a: seq<T>, b: seq<T>, c: seq<T>)
    ensures a + (b + c) == (a + b) + c
  {
  }

  function StepOn(place: seq<string>, x: string): seq<string> {
    if x == "" || x == "." then place
    else if x != ".." then place + [x]
    else if place == [] then [] else place[..|place| - 1]
  }

  lemma {:induction false} StepBelow(root: seq<string>, place: seq<string>, x: string)
    requires x == ".." ==> place != []
    ensures StepOn(root + place, x) == root + StepOn(place, x)
    ensures |StepOn(place, x)| == |place| + if x == ".." then -1 else if x == "" || x == "." then 0 else 1
  {
    if x == ".." {
      assert (root + place)[..|root + place| - 1] == root + place[..|place| - 1];
    } else {
      assert (root + place) + [x] == root + (place + [x]);
    }
  }

  lemma {:induction false} WalkOn(pieces: seq<string>, x: string)
    ensures Walk(pieces + [x]) == StepOn(Walk(pieces), x)
  {
    ComponentsConcat(pieces, [x]);
    HeadComponent([x]);
    assert [x][1..] == [] && Components([]) == [];
    var cs := Components(pieces);
    assert Components([x]) == OneComponent(x) + [] == OneComponent(x);
    if OneComponent(x) == [] {
      assert cs + [] == cs;
    } else {
      assert (cs + OneComponent(x))[..|cs|] == cs;
    }
  }

  lemma {:induction false} NamesOfPieces(pieces: seq<string>)
    requires NoSlashes(pieces)
    ensures Names(Render(pieces)) == Walk(pieces)
  {
    SegmentsOfRender(pieces);
    if pieces == [] {
      assert ["", ""][1..] == [""] && [""][1..] == [];
    } else {
      assert ([""] + pieces)[1..] == pieces;
    }
  }

  lemma {:induction false} NeverAboveBefore(rest: seq<string>)
    requires rest != []
    ensures NeverAbove(rest) <==> NeverAbove(rest[..|rest| - 1]) && Balance(rest) >= 0
  {
    var before := rest[..|rest| - 1];
    forall k | 0 <= k <= |before| ensures before[..k] == rest[..k] {
    }
    assert rest[..|rest|] == rest;
    if NeverAbove(rest) {
      forall k | 0 <= k <= |before| ensures Balance(before[..k]) >= 0 {
        assert before[..k] == rest[..k];
      }
      assert Balance(rest[..|rest|]) >= 0;
    }
    if NeverAbove(before) && Balance(rest) >= 0 {
      forall k | 0 <= k <= |rest| ensures Balance(rest[..k]) >= 0 {
        if k < |rest| {
          assert rest[..k] == before[..k];
        }
      }
    }
  }

  /** Without stepping above the root, a walk from it is a walk from the root directory, below the root. */
  lemma {:induction false} WalkBelow(root: seq<string>, rest: seq<string>)
    requires AllOrdinary(root) && NeverAbove(rest)
    ensures Walk(root + rest) == root + Walk(rest) && |Walk(rest)| == Balance(rest)
  {
    if rest == [] {
      ComponentsOfOrdinary(root);
      assert root + rest == root && Walk(rest) == [] && root + [] == root;
    } else {
      var before, x := rest[..|rest| - 1], rest[|rest| - 1];
      NeverAboveBefore(rest);
      WalkBelow(root, before);
      WalkOn(before, x);
      WalkOn(root + before, x);
      assert before + [x] == rest && (root + before) + [x] == root + rest;
      assert Balance(rest) >= 0;
      StepBelow(root, Walk(before), x);
    }
  }

  /** The first step above the root leaves it. */
  lemma {:induction false} StepAbove(root: seq<string>, rest: seq<string>)
    requires AllOrdinary(root) && root != [] && rest != []
    requires NeverAbove(rest[..|rest| - 1]) && Balance(rest) < 0
    ensures !(root <= Walk(root + rest))
  {
    var before, x := rest[..|rest| - 1], rest[|rest| - 1];
    WalkBelow(root, before);
    assert before[..|before|] == before;
    assert Balance(before) == 0 && x == "..";
    WalkOn(root + before, x);
    assert (root + before) + [x] == root + rest && root + Walk(before) == root;
  }

  ghost predicate WalksWithin(root: seq<string>, rest: seq<string>) {
    forall k | 0 <= k <= |rest| :: root <= Walk(root + rest[..k])
  }

  lemma {:induction false} WalksWithinBefore(root: seq<string>, rest: seq<string>)
    requires rest != []
    ensures WalksWithin(root, rest) <==> WalksWithin(root, rest[..|rest| - 1]) && root <= Walk(root + rest)
  {
    var before := rest[..|rest| - 1];
    assert rest[..|rest|] == rest;
    if WalksWithin(root, rest) {
      forall k | 0 <= k <= |before| ensures root <= Walk(root + before[..k]) {
        assert before[..k] == rest[..k];
      }
      assert root <= Walk(root + rest[..|rest|]);
    }
    if WalksWithin(root, before) && root <= Walk(root + rest) {
      forall k | 0 <= k <= |rest| ensures root <= Walk(root + rest[..k]) {
        if k < |rest| {
          assert rest[..k] == before[..k];
        }
      }
    }
  }

  lemma {:induction false} WalksWithinExactly(root: seq<string>, rest: seq<string>)
    requires AllOrdinary(root) && root != []
    ensures WalksWithin(root, rest) <==> NeverAbove(rest)
  {
    if rest == [] {
      WalkBelow(root, rest);
    } else {
      var before := rest[..|rest| - 1];
      WalksWithinExactly(root, before);
      WalksWithinBefore(root, rest);
      NeverAboveBefore(rest);
      if NeverAbove(rest) {
        WalkBelow(root, rest);
      } else if NeverAbove(before) {
        StepAbove(root, rest);
      }
    }
  }

  lemma {:induction false} StaysWithinIsWalking(root: seq<string>, rest: seq<string>)
    requires NoSlashes(root) && NoSlashes(rest)
    ensures StaysWithin(root, rest) <==> WalksWithin(root, rest)
  {
    forall k | 0 <= k <= |rest| ensures Names(Render(root + rest[..k])) == Walk(root + rest[..k]) {
      NamesOfPieces(root + rest[..k]);
    }
  }

  /**
  When a contained path stays within its root. The normal form of the target is the root's pieces and some more, and
  every beginning of it that has the root's pieces leads to the root or below it if and only if among the pieces after
  the root's the parent steps never outnumber the names. Below the root directory itself every path stays.
  */
  lemma {:induction false} ContainedPathsStayExactly(target: string, root: string, cwd: Option<string>)
    requires ResolvePath(target, cwd).Some? && ResolvePath(root, cwd).Some?
    requires WithinRoot(Normalize(target, cwd).value, root, cwd)
    requires AllOrdinary(Pieces(ResolvePath(root, cwd).value))
    ensures var t, r := Pieces(ResolvePath(target, cwd).value), Pieces(ResolvePath(root, cwd).value);
            && Normalize(target, cwd) == Some(Render(t)) && Normalize(root, cwd) == Some(Render(r))
            && r <= t && (StaysWithin(r, t[|r|..]) <==> r == [] || NeverAbove(t[|r|..]))
  {
    var t, r := Pieces(ResolvePath(target, cwd).value), Pieces(ResolvePath(root, cwd).value);
    assert [root][0] == root;
    assert WithinRoots(target, [root], cwd);
    WithinRootsIsPiecePrefix(target, [root], cwd);
    NormalFormIsItsPieces(ResolvePath(target, cwd).value);
    NormalFormIsItsPieces(ResolvePath(root, cwd).value);
    OrdinaryIsProper(r);
    assert r <= t;
    StaysWithinIsWalking(r, t[|r|..]);
    if r != [] {
      WalksWithinExactly(r, t[|r|..]);
    }
  }

  /** Paths that normalise to ordinary names, above all those without backslashes, stay. */
  lemma {:induction false} OrdinaryPathsStay(rest: seq<string>)
    requires AllOrdinary(rest)
    ensures NeverAbove(rest) && Balance(rest) == |rest|
  {
    if rest != [] {
      OrdinaryPathsStay(rest[..|rest| - 1]);
      assert Ordinary(rest[|rest| - 1]);
      NeverAboveBefore(rest);
    }
  }

  /** A parent step right below the root leaves it, whatever comes after. */
  lemma {:induction false} ParentStepLeaves(rest: seq<string>)
    requires rest != [] && rest[0] == ".."
    ensures !NeverAbove(rest)
  {
    var first := rest[..1];
    assert first == [".."] && first[..0] == [];
    assert Balance(first) == -1;
  }

  // ---- Relative paths ----

  lemma {:induction false} EmptySegmentsVanish(segments: seq<string>)
    ensures Components(segments + [""]) == Components(segments)
  {
    ComponentsConcat(segments, [""]);
    assert [""][1..] == [];
    assert Components([""]) == [];
  }

  /** A relative path is walked from the working directory, an absolute one from the root directory. */
  lemma {:induction false} RelativePathsGoOn(path: string, cwd: Option<string>)
    ensures Absolute(path) ==> ResolvePath(path, cwd) == Some(path)
    ensures !Absolute(path) && cwd.None? ==> ResolvePath(path, cwd) == None
    ensures !Absolute(path) && cwd.Some? && cwd.value != "" ==>
              && ResolvePath(path, cwd).Some?
              && Names(ResolvePath(path, cwd).value) == Walk(Segments(cwd.value) + Segments(path))
  {
    if !Absolute(path) && cwd.Some? && cwd.value != "" {
      var base := cwd.value;
      var n := |base| - 1;
      ComponentsConcat(Segments(base), Segments(path));
      if base[n] == '/' {
        assert base == base[..n] + "/" + "" && base + path == base[..n] + "/" + path;
        SegmentsConcat(base[..n], "");
        SegmentsConcat(base[..n], path);
        EmptySegmentsVanish(Segments(base[..n]));
        ComponentsConcat(Segments(base[..n]), Segments(path));
      } else {
        SegmentsConcat(base, path);
      }
    }
  }
}
