/** Lexical path cleaning, and the string-prefix test that decides whether a path lies within a root. */
module PolicyPaths {
  import opened Options

  datatype Component = ParentDir | Normal(name: string)

  /** What lies between the slashes, empty pieces included. */
  function Segments(s: string): (r: seq<string>)
    ensures |r| >= 1
  {
    if s == "" then [""]
    else Cons(s[0], Segments(s[1..]))
  }

  function Cons(c: char, segments: seq<string>): seq<string>
    requires segments != []
    ensures |Cons(c, segments)| >= 1
  {
    if c == '/' then [""] + segments else [[c] + segments[0]] + segments[1..]
  }

  function Join(parts: seq<string>): string
    requires parts != []
  {
    if |parts| == 1 then parts[0] else parts[0] + "/" + Join(parts[1..])
  }

  predicate Absolute(path: string) {
    path != "" && path[0] == '/'
  }

  /** The components of an absolute path: repeated slashes and single dots vanish. */
  function Components(segments: seq<string>): seq<Component> {
    if segments == [] then []
    else
      var rest := Components(segments[1..]);
      if segments[0] == "" || segments[0] == "." then rest
      else [if segments[0] == ".." then ParentDir else Normal(segments[0])] + rest
  }

  /** The names left when each parent step removes the name before it; the root has no parent. */
  function Resolve(components: seq<Component>): seq<string> {
    if components == [] then []
    else
      var before, last := Resolve(components[..|components| - 1]), components[|components| - 1];
      match last
      case Normal(name) => before + [name]
      case ParentDir => if before == [] then [] else before[..|before| - 1]
  }

  function Names(path: string): seq<string> {
    Resolve(Components(Segments(path)))
  }

  function Render(names: seq<string>): string {
    if names == [] then "/" else "/" + Join(names)
  }

  function Clean(path: string): string {
    Render(Names(path))
  }

  function SlashesForward(s: string): (r: string)
    ensures |r| == |s| && forall i | 0 <= i < |s| :: r[i] == if s[i] == '\\' then '/' else s[i]
  {
    seq(|s|, i requires 0 <= i < |s| => if s[i] == '\\' then '/' else s[i])
  }

  /** A relative path is taken from the working directory, which may be unavailable. */
  function ResolvePath(path: string, cwd: Option<string>): Option<string> {
    if Absolute(path) then Some(path)
    else if cwd.None? then None
    else Some(PushPart(cwd.value, path))
  }

  function Normalize(path: string, cwd: Option<string>): Option<string> {
    var resolved := ResolvePath(path, cwd);
    if resolved.None? then None else Some(SlashesForward(Clean(resolved.value)))
  }

  /** The text test: equal to the root, or starting with the root and a slash. */
  predicate TextWithin(target: string, root: string) {
    var rootWithSlash := if root != "" && root[|root| - 1] == '/' then root else root + "/";
    target == root || rootWithSlash <= target
  }

  /** Appending one relative part to a path buffer. */
  function PushPart(path: string, part: string): string {
    if path != "" && path[|path| - 1] == '/' then path + part else path + "/" + part
  }

  // ---- The algorithms ----

  method CleanPath(path: string) returns (output: string)
    ensures output == Clean(path)
  {
    var components := Components(Segments(path));
    var stack: seq<string> := [];
    for i := 0 to |components|
      invariant stack == Resolve(components[..i])
    {
      assert components[..i + 1][..i] == components[..i];
      match components[i]
      case ParentDir => if stack != [] { stack := stack[..|stack| - 1]; }
      case Normal(name) => stack := stack + [name];
    }
    assert components[..|components|] == components;
    NamesAreOrdinary(path);
    output := "/";
    for i := 0 to |stack|
      invariant output == Render(stack[..i])
    {
      PushedRender(stack[..i], stack[i]);
      assert stack[..i + 1] == stack[..i] + [stack[i]];
      output := PushPart(output, stack[i]);
    }
    assert stack[..|stack|] == stack;
  }

  method IsPathWithinRoots(target: string, roots: seq<string>, cwd: Option<string>) returns (within: bool)
    ensures within <==> WithinRoots(target, roots, cwd)
  {
    hide Normalize, TextWithin;
    if roots == [] {
      return false;
    }
    var normalizedTarget := Normalize(target, cwd);
    if normalizedTarget.None? {
      return false;
    }
    for i := 0 to |roots|
      invariant forall j | 0 <= j < i :: !WithinRoot(normalizedTarget.value, roots[j], cwd)
    {
      var normalizedRoot := Normalize(roots[i], cwd);
      if normalizedRoot.Some? {
        if TextWithin(normalizedTarget.value, normalizedRoot.value) {
          assert WithinRoot(normalizedTarget.value, roots[i], cwd);
          return true;
        }
      }
    }
    return false;
  }

  predicate WithinRoot(normalizedTarget: string, root: string, cwd: Option<string>) {
    var normalizedRoot := Normalize(root, cwd);
    normalizedRoot.Some? && TextWithin(normalizedTarget, normalizedRoot.value)
  }

  predicate WithinRoots(target: string, roots: seq<string>, cwd: Option<string>) {
    var normalizedTarget := Normalize(target, cwd);
    normalizedTarget.Some? && exists i | 0 <= i < |roots| :: WithinRoot(normalizedTarget.value, roots[i], cwd)
  }

  // ---- Splitting and joining ----

  predicate Ordinary(name: string) {
    name != "" && name != "." && name != ".." && '/' !in name
  }

  predicate AllOrdinary(names: seq<string>) {
    forall i | 0 <= i < |names| :: Ordinary(names[i])
  }

  lemma {:induction false} SegmentsOfPlain(s: string)
    requires '/' !in s
    ensures Segments(s) == [s]
  {
    if s != "" {
      SegmentsOfPlain(s[1..]);
      assert [s[0]] + s[1..] == s;
    }
  }

  lemma {:induction false} SegmentsHaveNoSlash(s: string)
    ensures forall i | 0 <= i < |Segments(s)| :: '/' !in Segments(s)[i]
  {
    if s != "" { SegmentsHaveNoSlash(s[1..]); }
  }

  lemma {:induction false} ConsConcat(c: char, a: seq<string>, b: seq<string>)
    requires a != []
    ensures Cons(c, a + b) == Cons(c, a) + b
  {
    assert (a + b)[1..] == a[1..] + b;
  }

  lemma {:induction false} SegmentsConcat(a: string, b: string)
    ensures Segments(a + "/" + b) == Segments(a) + Segments(b)
  {
    if a == "" {
      assert (a + "/" + b)[1..] == b;
    } else {
      SegmentsConcat(a[1..], b);
      assert (a + "/" + b)[1..] == a[1..] + "/" + b;
      ConsConcat(a[0], Segments(a[1..]), Segments(b));
    }
  }

  lemma {:induction false} SegmentsOfJoin(names: seq<string>)
    requires names != [] && forall i | 0 <= i < |names| :: '/' !in names[i]
    ensures Segments(Join(names)) == names
  {
    SegmentsOfPlain(names[0]);
    if |names| > 1 {
      SegmentsOfJoin(names[1..]);
      SegmentsConcat(names[0], Join(names[1..]));
    }
  }

  predicate NoSlashes(names: seq<string>) {
    forall i | 0 <= i < |names| :: '/' !in names[i]
  }

  lemma {:induction false} SegmentsOfRender(names: seq<string>)
    requires NoSlashes(names)
    ensures Segments(Render(names)) == if names == [] then ["", ""] else [""] + names
  {
    if names == [] {
      assert "/"[1..] == "";
    } else {
      SegmentsOfJoin(names);
      assert ("/" + Join(names))[1..] == Join(names);
    }
  }

  lemma {:induction false} JoinConcat(a: seq<string>, b: seq<string>)
    requires a != [] && b != []
    ensures Join(a + b) == Join(a) + "/" + Join(b)
  {
    assert (a + b)[1..] == a[1..] + b;
    if |a| > 1 { JoinConcat(a[1..], b); }
  }

  lemma {:induction false} PushedRender(names: seq<string>, name: string)
    requires AllOrdinary(names)
    ensures PushPart(Render(names), name) == Render(names + [name])
  {
    if names != [] {
      JoinEndsPlain(names);
      JoinConcat(names, [name]);
    }
  }

  // ---- What cleaning guarantees ----

  lemma {:induction false} ComponentsOfOrdinary(names: seq<string>)
    requires AllOrdinary(names)
    ensures Resolve(Components(names)) == names
    ensures |Components(names)| == |names|
    ensures forall i | 0 <= i < |names| :: Components(names)[i] == Normal(names[i])
    decreases |names|
  {
    if names != [] {
      ComponentsOfOrdinary(names[1..]);
      ResolveNormals(Components(names), names);
    }
  }

  lemma {:induction false} ResolveNormals(components: seq<Component>, names: seq<string>)
    requires |components| == |names| && forall i | 0 <= i < |names| :: components[i] == Normal(names[i])
    ensures Resolve(components) == names
  {
    if names != [] {
      ResolveNormals(components[..|components| - 1], names[..|names| - 1]);
    }
  }

  lemma {:induction false} ComponentsAreOrdinary(segments: seq<string>)
    requires forall i | 0 <= i < |segments| :: '/' !in segments[i]
    ensures forall i | 0 <= i < |Components(segments)| && Components(segments)[i].Normal? ::
              Ordinary(Components(segments)[i].name)
  {
    if segments != [] { ComponentsAreOrdinary(segments[1..]); }
  }

  lemma {:induction false} ResolveKeepsOrdinary(components: seq<Component>)
    requires forall i | 0 <= i < |components| && components[i].Normal? :: Ordinary(components[i].name)
    ensures AllOrdinary(Resolve(components))
  {
    if components != [] { ResolveKeepsOrdinary(components[..|components| - 1]); }
  }

  /** A cleaned path names no empty, dot or dot-dot component. */
  lemma {:induction false} NamesAreOrdinary(path: string)
    ensures AllOrdinary(Names(path))
  {
    SegmentsHaveNoSlash(path);
    ComponentsAreOrdinary(Segments(path));
    ResolveKeepsOrdinary(Components(Segments(path)));
  }

  /** Reading a rendered list of ordinary names gives the list back. */
  lemma {:induction false} NamesOfRender(names: seq<string>)
    requires AllOrdinary(names)
    ensures Names(Render(names)) == names
  {
    SegmentsOfRender(names);
    if names == [] {
      assert ["", ""][1..] == [""];
    } else {
      ComponentsOfOrdinary(names);
      assert ([""] + names)[1..] == names;
    }
  }

  lemma {:induction false} CleanIsIdempotent(path: string)
    ensures Absolute(Clean(path)) && Clean(Clean(path)) == Clean(path)
  {
    NamesAreOrdinary(path);
    NamesOfRender(Names(path));
  }

  // ---- The text test is the component test ----

  /** Lists that are the pieces of some rendered path: no slash inside a piece, and not the single empty piece. */
  predicate Proper(pieces: seq<string>) {
    NoSlashes(pieces) && pieces != [""]
  }

  lemma {:induction false} RenderIsInjective(a: seq<string>, b: seq<string>)
    requires Proper(a) && Proper(b) && Render(a) == Render(b)
    ensures a == b
  {
    SegmentsOfRender(a);
    SegmentsOfRender(b);
    if a != [] && b != [] {
      SameAfterHead("", a, b, []);
    }
  }

  lemma {:induction false} SplitAfter(whole: string, front: string, rest: string)
    requires front + "/" <= whole && rest == whole[|front| + 1..]
    ensures whole == front + "/" + rest
  {
  }

  lemma {:induction false} SameAfterHead<T>(head: T, b: seq<T>, a: seq<T>, rest: seq<T>)
    requires [head] + b == ([head] + a) + rest
    ensures b == a + rest
  {
    assert b == ([head] + b)[1..] == (([head] + a) + rest)[1..] == a + rest;
  }

  lemma {:induction false} TextPrefixIsPrefix(a: seq<string>, b: seq<string>)
    requires NoSlashes(a) && NoSlashes(b) && a != [] && Render(a) + "/" <= Render(b)
    ensures a < b
  {
    if b != [] {
      var x := Render(b)[|Render(a)| + 1..];
      SplitAfter(Render(b), Render(a), x);
      SegmentsConcat(Render(a), x);
      SegmentsOfRender(a);
      SegmentsOfRender(b);
      SameAfterHead("", b, a, Segments(x));
    }
  }

  lemma {:induction false} PrefixIsTextPrefix(a: seq<string>, b: seq<string>)
    requires a != [] && a < b
    ensures Render(a) + "/" <= Render(b)
  {
    var rest := b[|a|..];
    assert b == a + rest;
    JoinConcat(a, rest);
    assert Render(b) == Render(a) + "/" + Join(rest);
  }

  lemma {:induction false} JoinEnd(names: seq<string>)
    requires NoSlashes(names) && names != [] && names[|names| - 1] != ""
    ensures Join(names) != "" && Join(names)[|Join(names)| - 1] != '/'
  {
    if |names| > 1 {
      JoinEnd(names[1..]);
    }
  }

  lemma {:induction false} JoinEndsPlain(names: seq<string>)
    requires AllOrdinary(names) && names != []
    ensures Join(names) != "" && Join(names)[|Join(names)| - 1] != '/'
  {
    assert Ordinary(names[|names| - 1]);
    JoinEnd(names);
  }

  /** What the text test compares: a trailing empty piece of the root asks for something below the pieces before it. */
  predicate WithinPieces(target: seq<string>, root: seq<string>) {
    if root != [] && root[|root| - 1] == "" then root[..|root| - 1] < target else root <= target
  }

  lemma {:induction false} RenderEndingInSlash(front: seq<string>)
    requires front != []
    ensures Render(front + [""]) == Render(front) + "/"
  {
    JoinConcat(front, [""]);
  }

  lemma {:induction false} TextWithinSlashedRoot(target: seq<string>, root: seq<string>)
    requires NoSlashes(target) && Proper(root) && root != [] && root[|root| - 1] == ""
    ensures TextWithin(Render(target), Render(root)) <==> root[..|root| - 1] < target
  {
    var front := root[..|root| - 1];
    assert root == front + [""];
    RenderEndingInSlash(front);
    if Render(front) + "/" <= Render(target) {
      TextPrefixIsPrefix(front, target);
    }
    if front < target {
      PrefixIsTextPrefix(front, target);
    }
  }

  /** The text test on any two rendered lists of pieces. */
  lemma {:induction false} TextWithinIsPiecePrefix(target: seq<string>, root: seq<string>)
    requires Proper(target) && Proper(root)
    ensures TextWithin(Render(target), Render(root)) <==> WithinPieces(target, root)
  {
    if root == [] {
      assert "/" <= Render(target);
    } else if root[|root| - 1] == "" {
      TextWithinSlashedRoot(target, root);
    } else {
      JoinEnd(root);
      if TextWithin(Render(target), Render(root)) {
        if Render(target) == Render(root) {
          RenderIsInjective(target, root);
        } else {
          TextPrefixIsPrefix(root, target);
        }
      }
      if root <= target && root != target { PrefixIsTextPrefix(root, target); }
    }
  }

  /** The text test holds exactly when the root's names are a prefix of the target's, the root directory included. */
  lemma {:induction false} TextWithinIsNamePrefix(target: seq<string>, root: seq<string>)
    requires AllOrdinary(target) && AllOrdinary(root)
    ensures TextWithin(Render(target), Render(root)) <==> root <= target
  {
    OrdinaryIsProper(target);
    OrdinaryIsProper(root);
    TextWithinIsPiecePrefix(target, root);
  }

  lemma {:induction false} OrdinaryIsProper(names: seq<string>)
    requires AllOrdinary(names)
    ensures Proper(names) && (names != [] ==> names[|names| - 1] != "")
  {
    if names != [] {
      assert Ordinary(names[0]) && Ordinary(names[|names| - 1]);
    }
  }

  lemma {:induction false} ForwardIsIdentity(s: string)
    requires '\\' !in s
    ensures SlashesForward(s) == s
  {
  }

  lemma {:induction false} CharsOfSegments(s: string, c: char)
    requires c !in s
    ensures forall i | 0 <= i < |Segments(s)| :: c !in Segments(s)[i]
  {
    if s != "" { CharsOfSegments(s[1..], c); }
  }

  lemma {:induction false} CharsOfComponents(segments: seq<string>, c: char)
    requires forall i | 0 <= i < |segments| :: c !in segments[i]
    ensures forall i | 0 <= i < |Components(segments)| && Components(segments)[i].Normal? ::
              c !in Components(segments)[i].name
  {
    if segments != [] { CharsOfComponents(segments[1..], c); }
  }

  lemma {:induction false} CharsOfResolve(components: seq<Component>, c: char)
    requires forall i | 0 <= i < |components| && components[i].Normal? :: c !in components[i].name
    ensures forall i | 0 <= i < |Resolve(components)| :: c !in Resolve(components)[i]
  {
    if components != [] { CharsOfResolve(components[..|components| - 1], c); }
  }

  lemma {:induction false} CharsOfJoin(names: seq<string>, c: char)
    requires names != [] && c != '/' && forall i | 0 <= i < |names| :: c !in names[i]
    ensures c !in Join(names)
  {
    if |names| > 1 { CharsOfJoin(names[1..], c); }
  }

  lemma {:induction false} NormalizeIsClean(path: string, cwd: Option<string>)
    requires Absolute(path) && '\\' !in path
    ensures Normalize(path, cwd) == Some(Render(Names(path)))
  {
    CharsOfSegments(path, '\\');
    CharsOfComponents(Segments(path), '\\');
    CharsOfResolve(Components(Segments(path)), '\\');
    if Names(path) != [] { CharsOfJoin(Names(path), '\\'); }
    ForwardIsIdentity(Clean(path));
  }

  predicate Plain(path: string) {
    Absolute(path) && '\\' !in path
  }

  /** For absolute paths without backslashes: within the roots exactly when some root's names begin the target's. */
  lemma {:induction false} WithinRootsIsNamePrefix(target: string, roots: seq<string>, cwd: Option<string>)
    requires Plain(target) && forall i | 0 <= i < |roots| :: Plain(roots[i])
    ensures WithinRoots(target, roots, cwd) <==> exists i | 0 <= i < |roots| :: Names(roots[i]) <= Names(target)
  {
    NormalizeIsClean(target, cwd);
    NamesAreOrdinary(target);
    forall i | 0 <= i < |roots|
      ensures WithinRoot(Render(Names(target)), roots[i], cwd) <==> Names(roots[i]) <= Names(target)
    {
      NormalizeIsClean(roots[i], cwd);
      NamesAreOrdinary(roots[i]);
      TextWithinIsNamePrefix(Names(target), Names(roots[i]));
    }
  }

  // ---- With backslashes ----

  /** A path already is its own cleaning exactly when it is the root or has only ordinary segments. */
  lemma {:induction false} CleanFixedPoint(path: string)
    requires Absolute(path)
    ensures Clean(path) == path <==> path == "/" || AllOrdinary(Segments(path[1..]))
  {
    if path == "/" || AllOrdinary(Segments(path[1..])) {
      if path == "/" {
        NamesOfRender([]);
      } else {
        JoinOfSegments(path[1..]);
        assert path == "/" + path[1..] == Render(Segments(path[1..]));
        NamesOfRender(Segments(path[1..]));
      }
    }
    if Clean(path) == path && path != "/" {
      NamesAreOrdinary(path);
      SegmentsOfJoin(Names(path));
      assert path[1..] == Join(Names(path));
    }
  }

  lemma {:induction false} JoinOfSegments(s: string)
    ensures Join(Segments(s)) == s
  {
    if s != "" {
      JoinOfSegments(s[1..]);
      var rest := Segments(s[1..]);
      if s[0] == '/' {
        assert ([""] + rest)[1..] == rest;
      } else if |rest| > 1 {
        assert ([[s[0]] + rest[0]] + rest[1..])[1..] == rest[1..];
      }
    }
  }

  function Forwards(names: seq<string>): (r: seq<string>)
    ensures |r| == |names| && forall i | 0 <= i < |names| :: r[i] == SlashesForward(names[i])
  {
    seq(|names|, i requires 0 <= i < |names| => SlashesForward(names[i]))
  }

  /** The segments of each name in turn. */
  function Flat(names: seq<string>): seq<string> {
    if names == [] then [] else Segments(names[0]) + Flat(names[1..])
  }

  /** What the names of a path fall into once backslashes separate too. */
  function Pieces(path: string): seq<string> {
    Flat(Forwards(Names(path)))
  }

  lemma {:induction false} ForwardOfConcat(a: string, b: string)
    ensures SlashesForward(a + b) == SlashesForward(a) + SlashesForward(b)
  {
  }

  lemma {:induction false} ForwardOfJoin(names: seq<string>)
    requires names != []
    ensures SlashesForward(Join(names)) == Join(Forwards(names))
  {
    if |names| > 1 {
      ForwardOfJoin(names[1..]);
      ForwardOfConcat(names[0] + "/", Join(names[1..]));
      ForwardOfConcat(names[0], "/");
      assert SlashesForward("/") == "/";
      assert Forwards(names)[1..] == Forwards(names[1..]);
    }
  }

  lemma {:induction false} SegmentsOfAnyJoin(names: seq<string>)
    requires names != []
    ensures Segments(Join(names)) == Flat(names)
  {
    if |names| > 1 {
      SegmentsConcat(names[0], Join(names[1..]));
      SegmentsOfAnyJoin(names[1..]);
    } else {
      assert Flat(names[1..]) == [];
    }
  }

  /** A normal form is the rendering of its pieces. */
  lemma {:induction false} NormalFormIsItsPieces(path: string)
    ensures SlashesForward(Clean(path)) == Render(Pieces(path)) && Proper(Pieces(path))
  {
    var names := Names(path);
    if names == [] {
      assert SlashesForward("/") == "/";
    } else {
      NamesAreOrdinary(path);
      assert Ordinary(names[0]);
      ForwardOfConcat("/", Join(names));
      assert SlashesForward("/") == "/";
      ForwardOfJoin(names);
      SegmentsOfAnyJoin(Forwards(names));
      JoinOfSegments(Join(Forwards(names)));
      SegmentsHaveNoSlash(Join(Forwards(names)));
      JoinIsLongEnough(Forwards(names));
    }
  }

  lemma {:induction false} JoinIsLongEnough(names: seq<string>)
    requires names != [] && names[0] != ""
    ensures Join(names) != "" && Flat(names) != [] && Flat(names) != [""]
  {
    SegmentsOfAnyJoin(names);
    JoinOfSegments(Join(names));
  }

  lemma {:induction false} FlatIsOrdinary(names: seq<string>)
    ensures AllOrdinary(Flat(names)) <==> forall i | 0 <= i < |names| :: AllOrdinary(Segments(names[i]))
  {
    if names != [] {
      FlatIsOrdinary(names[1..]);
      OrdinaryTogether(Segments(names[0]), Flat(names[1..]));
      assert forall i | 1 <= i < |names| :: names[i] == names[1..][i - 1];
      if forall i | 0 <= i < |names| :: AllOrdinary(Segments(names[i])) {
        forall i | 0 <= i < |names[1..]| ensures AllOrdinary(Segments(names[1..][i])) {
          assert AllOrdinary(Segments(names[i + 1]));
        }
      }
      if AllOrdinary(Flat(names)) {
        forall i | 0 <= i < |names| ensures AllOrdinary(Segments(names[i])) {
          assert i > 0 ==> AllOrdinary(Segments(names[1..][i - 1]));
        }
      }
    }
  }

  lemma {:induction false} OrdinaryTogether(a: seq<string>, b: seq<string>)
    ensures AllOrdinary(a + b) <==> AllOrdinary(a) && AllOrdinary(b)
  {
    if AllOrdinary(a + b) {
      forall i | 0 <= i < |a| ensures Ordinary(a[i]) {
        assert (a + b)[i] == a[i];
      }
      forall i | 0 <= i < |b| ensures Ordinary(b[i]) {
        assert (a + b)[|a| + i] == b[i];
      }
    }
  }

  /**
  Backslashes become slashes only after cleaning, so normalising is idempotent exactly when each name that survives
  cleaning falls into ordinary segments at its backslashes; `a\..` is one that does not.
  */
  lemma {:induction false} NormalizeTwice(path: string, cwd: Option<string>)
    requires Absolute(path)
    ensures var once := SlashesForward(Clean(path));
            && Normalize(path, cwd) == Some(once)
            && (Normalize(once, cwd) == Some(once) <==>
                  forall i | 0 <= i < |Names(path)| :: AllOrdinary(Segments(SlashesForward(Names(path)[i]))))
  {
    var once := SlashesForward(Clean(path));
    assert Absolute(once) && '\\' !in once;
    NormalizeIsClean(once, cwd);
    CleanFixedPoint(once);
    NormalFormIsItsPieces(path);
    PiecesAreSegments(path);
    FlatIsOrdinary(Forwards(Names(path)));
    var names := Names(path);
    assert forall i | 0 <= i < |names| :: Forwards(names)[i] == SlashesForward(names[i]);
  }

  lemma {:induction false} PiecesAreSegments(path: string)
    ensures Render(Pieces(path)) == "/" <==> Pieces(path) == []
    ensures Pieces(path) != [] ==> Segments(Render(Pieces(path))[1..]) == Pieces(path)
  {
    NormalFormIsItsPieces(path);
    if Pieces(path) != [] {
      SegmentsOfJoin(Pieces(path));
    }
  }

  // ---- Containment with backslashes ----

  /**
  What containment decides for all paths and working directories, relative paths and backslashes included: the pieces of
  the target, dot-dot pieces that a backslash has hidden from the cleaning among them, begin with a root's pieces.
  */
  lemma {:induction false} WithinRootsIsPiecePrefix(target: string, roots: seq<string>, cwd: Option<string>)
    ensures WithinRoots(target, roots, cwd) <==>
            && ResolvePath(target, cwd).Some?
            && exists i | 0 <= i < |roots| ::
                 && ResolvePath(roots[i], cwd).Some?
                 && WithinPieces(Pieces(ResolvePath(target, cwd).value), Pieces(ResolvePath(roots[i], cwd).value))
  {
    if ResolvePath(target, cwd).Some? {
      var t := ResolvePath(target, cwd).value;
      NormalFormIsItsPieces(t);
      forall i | 0 <= i < |roots| && ResolvePath(roots[i], cwd).Some?
        ensures WithinRoot(Render(Pieces(t)), roots[i], cwd) <==>
            WithinPieces(Pieces(t), Pieces(ResolvePath(roots[i], cwd).value))
      {
        var r := ResolvePath(roots[i], cwd).value;
        NormalFormIsItsPieces(r);
        TextWithinIsPiecePrefix(Pieces(t), Pieces(r));
      }
    }
  }

  lemma {:induction false} FlatOfOne(x: string)
    ensures Flat([x]) == Segments(x)
  {
    assert [x][1..] == [];
    assert Flat([x]) == Segments(x) + [];
  }

  lemma {:induction false} PiecesOfOneName(name: string)
    requires Ordinary(name)
    ensures Pieces("/" + name) == Segments(SlashesForward(name))
  {
    assert AllOrdinary([name]) && Render([name]) == "/" + name;
    NamesOfRender([name]);
    assert Names("/" + name) == [name];
    assert Forwards([name]) == [SlashesForward(name)];
    FlatOfOne(SlashesForward(name));
  }

  const ROOT := "/root"
  const HIDDEN := "/root\\..\\..\\etc"
  const DOTTED := "/root/../../etc"

  /**
  A path counts as within a root that its own normal form leaves: the dots in `/root\..\..\etc` become segments only
  after the cleaning is over, while cleaning `/root/../../etc` leads to `/etc`.
  */
  lemma {:induction false} BackslashesLeaveTheRoot()
    ensures WithinRoots(HIDDEN, [ROOT], None)
    ensures SlashesForward(HIDDEN) == DOTTED && Clean(DOTTED) == "/etc"
    ensures !WithinRoots(DOTTED, [ROOT], None)
  {
    HiddenDotsPass();
    DotsLeave();
  }

  lemma {:induction false} OneRoot(target: string, root: string)
    requires Absolute(target) && Absolute(root)
    ensures WithinRoots(target, [root], None) <==> WithinPieces(Pieces(target), Pieces(root))
  {
    WithinRootsIsPiecePrefix(target, [root], None);
    assert [root][0] == root;
  }

  lemma {:induction false} HiddenDotsForward()
    ensures SlashesForward(HIDDEN) == DOTTED
    ensures SlashesForward("root\\..\\..\\etc") == "root/../../etc"
  {
  }

  lemma {:induction false} SegmentsOfDots()
    ensures Segments("root/../../etc") == ["root", "..", "..", "etc"]
  {
    FourSegments();
    SegmentsOfJoin(["root", "..", "..", "etc"]);
  }

  lemma {:induction false} HiddenNameIsOrdinary()
    ensures Ordinary("root\\..\\..\\etc") && "/" + "root\\..\\..\\etc" == HIDDEN
  {
    var name := "root\\..\\..\\etc";
    assert |name| == 14;
  }

  lemma {:induction false} HiddenPieces()
    ensures Pieces(HIDDEN) == ["root", "..", "..", "etc"]
  {
    HiddenNameIsOrdinary();
    HiddenDotsForward();
    SegmentsOfDots();
    PiecesOfOneName("root\\..\\..\\etc");
  }

  lemma {:induction false} PlainPieces()
    ensures Pieces(ROOT) == ["root"]
  {
    PiecesOfOneName("root");
    SegmentsOfPlain("root");
    ForwardIsIdentity("root");
    assert "/" + "root" == ROOT;
  }

  lemma {:induction false} HiddenDotsPass()
    ensures WithinRoots(HIDDEN, [ROOT], None)
    ensures SlashesForward(HIDDEN) == DOTTED
  {
    HiddenDotsForward();
    HiddenPieces();
    PlainPieces();
    assert WithinPieces(["root", "..", "..", "etc"], ["root"]);
    OneRoot(HIDDEN, ROOT);
  }

  lemma {:induction false} FourSegments()
    ensures Join(["root", "..", "..", "etc"]) == "root/../../etc"
  {
    assert ["root", "..", "..", "etc"][1..] == ["..", "..", "etc"];
    assert ["..", "..", "etc"][1..] == ["..", "etc"] && ["..", "etc"][1..] == ["etc"];
  }

  lemma {:induction false} NamesOfDots()
    ensures Names(DOTTED) == ["etc"]
  {
    var parts := ["", "root", "..", "..", "etc"];
    assert parts[1..] == ["root", "..", "..", "etc"];
    FourSegments();
    assert Join(parts) == DOTTED;
    SegmentsOfJoin(parts);
    ResolvedDots();
  }

  lemma {:induction false} NamesOfRoot()
    ensures Names(ROOT) == ["root"]
  {
    assert AllOrdinary(["root"]) && Render(["root"]) == ROOT;
    NamesOfRender(["root"]);
  }

  lemma {:induction false} AnotherNameIsOutside(target: string, root: string, name: string, rootName: string)
    requires Plain(target) && Plain(root) && Names(target) == [name] && Names(root) == [rootName] && name != rootName
    ensures Clean(target) == "/" + name && !WithinRoots(target, [root], None)
  {
    WithinRootsIsNamePrefix(target, [root], None);
    assert [root][0] == root && [rootName][0] == rootName && [name][0] == name;
  }

  lemma {:induction false} PlainTexts()
    ensures Plain(DOTTED) && Plain(ROOT) && "etc" != "root" && "/" + "etc" == "/etc"
  {
    assert "root"[0] != "etc"[0];
  }

  lemma {:induction false} DotsLeave()
    ensures Clean(DOTTED) == "/etc" && !WithinRoots(DOTTED, [ROOT], None)
  {
    PlainTexts();
    NamesOfDots();
    NamesOfRoot();
    AnotherNameIsOutside(DOTTED, ROOT, "etc", "root");
  }

  lemma {:induction false} ResolvedDots()
    ensures Resolve(Components(["", "root", "..", "..", "etc"])) == ["etc"]
  {
    var parts := ["", "root", "..", "..", "etc"];
    assert parts[1..] == ["root", "..", "..", "etc"] && ["root", "..", "..", "etc"][1..] == ["..", "..", "etc"];
    assert ["..", "..", "etc"][1..] == ["..", "etc"] && ["..", "etc"][1..] == ["etc"] && ["etc"][1..] == [];
    assert Components(["etc"]) == [Normal("etc")];
    assert Components(["..", "etc"]) == [ParentDir, Normal("etc")];
    assert Components(["..", "..", "etc"]) == [ParentDir, ParentDir, Normal("etc")];
    assert Components(["root", "..", "..", "etc"]) == [Normal("root"), ParentDir, ParentDir, Normal("etc")];
    var all := [Normal("root"), ParentDir, ParentDir, Normal("etc")];
    assert all[..3] == [Normal("root"), ParentDir, ParentDir] && all[..3][..2] == [Normal("root"), ParentDir];
    assert [Normal("root"), ParentDir][..1] == [Normal("root")] && [Normal("root")][..0] == [];
    assert Resolve([Normal("root")]) == ["root"];
    assert Resolve([Normal("root"), ParentDir]) == [];
    assert Resolve(all[..3]) == [];
  }

  lemma {:induction false} BackslashParent()
    ensures Normalize("/a\\..", None) == Some("/a/..") && Normalize("/a/..", None) == Some("/")
  {
    CleanKeepsBackslashName();
    var forward := SlashesForward("/a\\..");
    assert forward == [forward[0], forward[1], forward[2], forward[3], forward[4]] == "/a/..";
    ParentCleansToRoot();
    ForwardIsIdentity("/");
  }

  lemma {:induction false} CleanKeepsBackslashName()
    ensures Clean("/a\\..") == "/a\\.."
  {
    NamesOfRender(["a\\.."]);
    assert Render(["a\\.."]) == "/a\\..";
  }

  lemma {:induction false} ParentCleansToRoot()
    ensures Names("/a/..") == []
  {
    SegmentsOfJoin(["", "a", ".."]);
    assert Join(["a", ".."]) == "a/..";
    assert ["", "a", ".."][1..] == ["a", ".."] && ["a", ".."][1..] == [".."] && [".."][1..] == [];
    assert "/a/.." == Join(["", "a", ".."]);
    var two := [Normal("a"), ParentDir];
    assert two[..1] == [Normal("a")] && [Normal("a")][..0] == [];
    assert Resolve([Normal("a")]) == ["a"];
  }
}
