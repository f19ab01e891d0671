/**
Cloning a payload so that every registered field appears under both of its spellings, at every depth.
The registry of spellings is a parameter; the naming convention it follows is what makes the result well defined.
*/
module AliasClone {
  /** JSON trees; everything but arrays and objects is a scalar. */
  datatype Json = Scalar(text: string) | Arr(items: seq<Json>) | Obj(fields: map<string, Json>)

  type Fields = map<string, Json>

  datatype Spelling = Spelling(canonical: string, alias: string)

  type Registry = seq<Spelling>

  // ---- The registry ----

  /** No spelling is shared between two fields or between a canonical name and an alias. */
  ghost predicate Unambiguous(registry: Registry) {
    && (forall i, j | 0 <= i < j < |registry| ::
          registry[i].canonical != registry[j].canonical && registry[i].alias != registry[j].alias)
    && forall i, j | 0 <= i < |registry| && 0 <= j < |registry| :: registry[i].canonical != registry[j].alias
  }

  function ToUpper(c: char): char {
    if 'a' <= c <= 'z' then c - 'a' + 'A' else c
  }

  /** Reads a snake-case name as camel case. */
  function Camel(snake: string): string {
    if snake == "" then ""
    else if snake[0] == '_' && |snake| > 1 then [ToUpper(snake[1])] + Camel(snake[2..])
    else [snake[0]] + Camel(snake[1..])
  }

  /** One field is spelled with a capital acronym that its alias does not separate. */
  lemma {:induction false} CamelKeepsWords(a: string)
    requires '_' !in a
    ensures Camel(a) == a
  {
    if a != "" {
      CamelKeepsWords(a[1..]);
    }
  }

  /** A name without underscores is itself; the first underscore goes, and the letter after it becomes a capital. */
  lemma {:induction false} CamelMeans(a: string, c: char, b: string)
    requires '_' !in a
    ensures Camel(a) == a && Camel(a + ['_', c] + b) == a + [ToUpper(c)] + Camel(b)
    ensures if 'a' <= c <= 'z' then ToUpper(c) as int == c as int - 32 else ToUpper(c) == c
  {
    CamelKeepsWords(a);
    if a == "" {
      assert ([] + ['_', c] + b)[2..] == b;
    } else {
      CamelMeans(a[1..], c, b);
      assert (a + ['_', c] + b)[1..] == a[1..] + ['_', c] + b;
    }
  }

  function CanonicalOf(alias: string): string {
    if alias == "force_oauth" then "forceOAuth" else Camel(alias)
  }

  /**
  Names as the registry gives them: distinct field names without underscores, and aliases that spell them in snake
  case.
  */
  ghost predicate FollowsConvention(registry: Registry) {
    && (forall i, j | 0 <= i < j < |registry| :: registry[i].canonical != registry[j].canonical)
    && forall i | 0 <= i < |registry| ::
         && CanonicalOf(registry[i].alias) == registry[i].canonical
         && '_' in registry[i].alias && '_' !in registry[i].canonical
  }

  lemma {:induction false} ConventionIsUnambiguous(registry: Registry)
    requires FollowsConvention(registry)
    ensures Unambiguous(registry)
  {
    forall i, j | 0 <= i < |registry| && 0 <= j < |registry| ensures registry[i].canonical != registry[j].alias {
      assert '_' !in registry[i].canonical && '_' in registry[j].alias;
    }
  }

  // ---- The clone ----

  /** One registered field: whichever spelling is there supplies the other, the canonical one first. */
  function AddSpelling(f: Fields, s: Spelling): Fields {
    if s.canonical in f && s.alias in f then f
    else if s.canonical in f then f[s.alias := f[s.canonical]]
    else if s.alias in f then f[s.canonical := f[s.alias]]
    else f
  }

  /** The first n registered fields, in the order of the registry. */
  function AddSpellings(f: Fields, registry: Registry, n: nat): Fields
    requires n <= |registry|
  {
    if n == 0 then f else AddSpelling(AddSpellings(f, registry, n - 1), registry[n - 1])
  }

  function Clone(j: Json, registry: Registry): Json
    decreases j
  {
    match j
    case Scalar(_) => j
    case Arr(items) => Arr(seq(|items|, i requires 0 <= i < |items| => Clone(items[i], registry)))
    case Obj(fields) =>
      var cloned := map k | k in fields :: Clone(fields[k], registry);
      Obj(AddSpellings(cloned, registry, |registry|))
  }

  /** The fields of an object, each cloned, before spellings are added. */
  function Cloned(f: Fields, registry: Registry): Fields {
    map k | k in f :: Clone(f[k], registry)
  }

  method AddAllSpellings(start: Fields, registry: Registry) returns (cloned: Fields)
    ensures cloned == AddSpellings(start, registry, |registry|)
  {
    cloned := start;
    for i := 0 to |registry|
      invariant cloned == AddSpellings(start, registry, i)
    {
      var canonical, alias := registry[i].canonical, registry[i].alias;
      var hasCanonical, hasAlias := canonical in cloned, alias in cloned;
      if hasCanonical || hasAlias {
        var next := if hasCanonical then cloned[canonical] else cloned[alias];
        if !hasCanonical {
          cloned := cloned[canonical := next];
        }
        if !hasAlias {
          cloned := cloned[alias := next];
        }
      }
    }
  }

  /** The recursive clone, filling arrays and objects one entry at a time. */
  method CloneCompatAliasValue(j: Json, registry: Registry) returns (r: Json)
    ensures r == Clone(j, registry)
    decreases j
  {
    match j
    case Scalar(_) => r := j;
    case Arr(items) =>
      var entries: seq<Json> := [];
      for i := 0 to |items|
        invariant |entries| == i && forall k | 0 <= k < i :: entries[k] == Clone(items[k], registry)
      {
        var entry := CloneCompatAliasValue(items[i], registry);
        entries := entries + [entry];
      }
      r := Arr(entries);
    case Obj(fields) =>
      var cloned: Fields := map[];
      var keys := fields.Keys;
      while keys != {}
        invariant keys <= fields.Keys && cloned.Keys == fields.Keys - keys
        invariant forall k | k in cloned :: cloned[k] == Clone(fields[k], registry)
        decreases |keys|
      {
        var key :| key in keys;
        var nested := CloneCompatAliasValue(fields[key], registry);
        cloned := cloned[key := nested];
        keys := keys - {key};
      }
      assert cloned == map k | k in fields :: Clone(fields[k], registry);
      cloned := AddAllSpellings(cloned, registry);
      r := Obj(cloned);
  }

  // ---- One object ----

  ghost predicate BothOrNeither(f: Fields, registry: Registry, n: nat)
    requires n <= |registry|
  {
    forall i | 0 <= i < n :: registry[i].canonical in f <==> registry[i].alias in f
  }

  /** Every field of f is in g with the same value. */
  ghost predicate Extends(f: Fields, g: Fields) {
    forall k | k in f :: k in g && g[k] == f[k]
  }

  /** A field that g has beyond f is the missing spelling of a field of f, with its value. */
  ghost predicate OnlySpellingsAdded(f: Fields, g: Fields, registry: Registry) {
    forall k | k in g && k !in f :: exists i | 0 <= i < |registry| :: IsSpelledBy(f, g, k, registry[i])
  }

  ghost predicate IsSpelledBy(f: Fields, g: Fields, k: string, s: Spelling)
    requires k in g
  {
    || (k == s.canonical && s.alias in f && g[k] == f[s.alias])
    || (k == s.alias && s.canonical in f && g[k] == f[s.canonical])
  }

  /** g is f with every registered field under both spellings and nothing else. */
  ghost predicate IsClosure(f: Fields, g: Fields, registry: Registry) {
    Extends(f, g) && BothOrNeither(g, registry, |registry|) && OnlySpellingsAdded(f, g, registry)
  }

  /** What the first n registered fields have left alone: both spellings of any later one. */
  ghost predicate LaterUntouched(f: Fields, g: Fields, registry: Registry, n: nat)
    requires n <= |registry|
  {
    forall i | n <= i < |registry| ::
      && (registry[i].canonical in g <==> registry[i].canonical in f)
      && (registry[i].alias in g <==> registry[i].alias in f)
  }

  lemma {:induction false} OneSpelling(f: Fields, s: Spelling)
    ensures var g := AddSpelling(f, s);
            && Extends(f, g) && (s.canonical in g <==> s.alias in g)
            && (forall k | k in g && k !in f :: k == s.canonical || k == s.alias)
            && (s.canonical in g && s.canonical !in f ==> s.alias in f && g[s.canonical] == f[s.alias])
            && (s.alias in g && s.alias !in f ==> s.canonical in f && g[s.alias] == f[s.canonical])
  {
  }

  lemma {:induction false} AddingKeepsBoth(f: Fields, registry: Registry, n: nat)
    requires Unambiguous(registry) && n < |registry| && BothOrNeither(f, registry, n)
    ensures BothOrNeither(AddSpelling(f, registry[n]), registry, n + 1)
  {
    var g := AddSpelling(f, registry[n]);
    OneSpelling(f, registry[n]);
    forall i | 0 <= i < n + 1 ensures registry[i].canonical in g <==> registry[i].alias in g {
      if i < n {
        SpellingsDiffer(registry, i, n);
        assert registry[i].canonical in f <==> registry[i].alias in f;
      }
    }
  }

  lemma {:induction false} SpellingsDiffer(registry: Registry, i: nat, j: nat)
    requires Unambiguous(registry) && i < |registry| && j < |registry| && i != j
    ensures registry[i].canonical != registry[j].canonical && registry[i].alias != registry[j].alias
    ensures registry[i].canonical != registry[j].alias && registry[i].alias != registry[j].canonical
  {
    if j < i {
      assert registry[j].canonical != registry[i].canonical;
    }
  }

  lemma {:induction false} AddingLeavesLater(f: Fields, g: Fields, registry: Registry, n: nat)
    requires Unambiguous(registry) && n < |registry| && LaterUntouched(f, g, registry, n)
    ensures LaterUntouched(f, AddSpelling(g, registry[n]), registry, n + 1)
  {
    OneSpelling(g, registry[n]);
    forall i | n + 1 <= i < |registry|
      ensures (registry[i].canonical in AddSpelling(g, registry[n]) <==> registry[i].canonical in f)
      ensures (registry[i].alias in AddSpelling(g, registry[n]) <==> registry[i].alias in f)
    {
      SpellingsDiffer(registry, i, n);
    }
  }

  lemma {:induction false} AddingOnlySpellings(f: Fields, g: Fields, registry: Registry, n: nat)
    requires n < |registry| && Extends(f, g) && OnlySpellingsAdded(f, g, registry) && LaterUntouched(f, g, registry, n)
    ensures Extends(f, AddSpelling(g, registry[n])) && OnlySpellingsAdded(f, AddSpelling(g, registry[n]), registry)
  {
    var h, s := AddSpelling(g, registry[n]), registry[n];
    OneSpelling(g, s);
    forall k | k in h && k !in f ensures exists i | 0 <= i < |registry| :: IsSpelledBy(f, h, k, registry[i]) {
      if k in g {
        var i :| 0 <= i < |registry| && IsSpelledBy(f, g, k, registry[i]);
        assert IsSpelledBy(f, h, k, registry[i]);
      } else {
        assert IsSpelledBy(f, h, k, registry[n]);
      }
    }
  }

  lemma {:induction false} AddSpellingsSoFar(f: Fields, registry: Registry, n: nat)
    requires Unambiguous(registry) && n <= |registry|
    ensures var g := AddSpellings(f, registry, n);
            && Extends(f, g) && BothOrNeither(g, registry, n) && OnlySpellingsAdded(f, g, registry)
            && LaterUntouched(f, g, registry, n)
  {
    if n > 0 {
      AddSpellingsSoFar(f, registry, n - 1);
      var g := AddSpellings(f, registry, n - 1);
      AddingKeepsBoth(g, registry, n - 1);
      AddingLeavesLater(f, g, registry, n - 1);
      AddingOnlySpellings(f, g, registry, n - 1);
    }
  }

  /**
  Every cloned object has each registered field under both spellings or neither, keeps the clone of its own value
  under every original key, and gains nothing but the missing spellings.
  */
  lemma {:induction false} CloneClosesEachObject(f: Fields, registry: Registry)
    requires Unambiguous(registry)
    ensures Clone(Obj(f), registry).Obj?
    ensures IsClosure(Cloned(f, registry), Clone(Obj(f), registry).fields, registry)
    ensures forall k | k in f ::
              k in Clone(Obj(f), registry).fields && Clone(Obj(f), registry).fields[k] == Clone(f[k], registry)
  {
    AddSpellingsSoFar(Cloned(f, registry), registry, |registry|);
    assert Clone(Obj(f), registry).fields == AddSpellings(Cloned(f, registry), registry, |registry|);
  }

  /** That describes the result completely: there is only one closure. */
  lemma {:induction false} ClosureIsUnique(f: Fields, g: Fields, h: Fields, registry: Registry)
    requires Unambiguous(registry) && IsClosure(f, g, registry) && IsClosure(f, h, registry)
    ensures g == h
  {
    forall k | k in g ensures k in h && h[k] == g[k] {
      ClosureContains(f, g, h, registry, k);
    }
    forall k | k in h ensures k in g {
      ClosureContains(f, h, g, registry, k);
    }
  }

  lemma {:induction false} ClosureContains(f: Fields, g: Fields, h: Fields, registry: Registry, k: string)
    requires Unambiguous(registry) && IsClosure(f, g, registry) && IsClosure(f, h, registry) && k in g
    ensures k in h && h[k] == g[k]
  {
    if k !in f {
      var i :| 0 <= i < |registry| && IsSpelledBy(f, g, k, registry[i]);
      assert registry[i].canonical in h <==> registry[i].alias in h;
      var j :| 0 <= j < |registry| && IsSpelledBy(f, h, k, registry[j]);
      if i != j {
        SpellingsDiffer(registry, i, j);
      }
    }
  }

  // ---- Whole trees ----

  /** Both spellings or neither, in every object at every depth. */
  ghost predicate FullyClosed(j: Json, registry: Registry)
    decreases j
  {
    match j
    case Scalar(_) => true
    case Arr(items) => forall i | 0 <= i < |items| :: FullyClosed(items[i], registry)
    case Obj(fields) =>
      BothOrNeither(fields, registry, |registry|) && forall k | k in fields :: FullyClosed(fields[k], registry)
  }

  lemma {:induction false} AddedValuesComeFrom(f: Fields, g: Fields, registry: Registry, k: string)
    requires IsClosure(f, g, registry) && k in g
    ensures exists l | l in f :: g[k] == f[l]
  {
    if k !in f {
      var i :| 0 <= i < |registry| && IsSpelledBy(f, g, k, registry[i]);
    }
  }

  lemma {:induction false} ClonesAreFullyClosed(j: Json, registry: Registry)
    requires Unambiguous(registry)
    ensures FullyClosed(Clone(j, registry), registry)
    decreases j
  {
    match j
    case Scalar(_) =>
    case Arr(items) =>
      forall i | 0 <= i < |items| ensures FullyClosed(Clone(items[i], registry), registry) {
        ClonesAreFullyClosed(items[i], registry);
      }
    case Obj(fields) =>
      CloneClosesEachObject(fields, registry);
      var f, g := Cloned(fields, registry), Clone(j, registry).fields;
      forall k | k in g ensures FullyClosed(g[k], registry) {
        AddedValuesComeFrom(f, g, registry, k);
        var l :| l in f && g[k] == f[l];
        ClonesAreFullyClosed(fields[l], registry);
      }
  }

  lemma {:induction false} ClosedIsItsOwnClosure(f: Fields, registry: Registry)
    requires Unambiguous(registry) && BothOrNeither(f, registry, |registry|)
    ensures AddSpellings(f, registry, |registry|) == f
  {
    AddSpellingsSoFar(f, registry, |registry|);
    ClosureIsUnique(f, AddSpellings(f, registry, |registry|), f, registry);
  }

  /** A tree is its own clone exactly when every object in it is closed already. */
  lemma {:induction false} FixedExactlyWhenClosed(j: Json, registry: Registry)
    requires Unambiguous(registry)
    ensures Clone(j, registry) == j <==> FullyClosed(j, registry)
    decreases j
  {
    ClonesAreFullyClosed(j, registry);
    if FullyClosed(j, registry) {
      match j
      case Scalar(_) =>
      case Arr(items) =>
        forall i | 0 <= i < |items| ensures Clone(items[i], registry) == items[i] {
          FixedExactlyWhenClosed(items[i], registry);
        }
        assert Clone(j, registry).items == items;
      case Obj(fields) =>
        forall k | k in fields ensures Clone(fields[k], registry) == fields[k] {
          FixedExactlyWhenClosed(fields[k], registry);
        }
        assert Cloned(fields, registry) == fields;
        ClosedIsItsOwnClosure(fields, registry);
        assert Clone(j, registry) == Obj(AddSpellings(Cloned(fields, registry), registry, |registry|));
    }
  }

  /** Cloning twice adds nothing to cloning once. */
  lemma {:induction false} CloneIsIdempotent(j: Json, registry: Registry)
    requires Unambiguous(registry)
    ensures Clone(Clone(j, registry), registry) == Clone(j, registry)
  {
    ClonesAreFullyClosed(j, registry);
    FixedExactlyWhenClosed(Clone(j, registry), registry);
  }

  // ---- The order of the registry ----

  /** s registers the fields of r, each once, in any order. */
  ghost predicate SameFields(r: Registry, s: Registry) {
    (forall x :: x in r <==> x in s) && forall i, j | 0 <= i < j < |s| :: s[i] != s[j]
  }

  lemma {:induction false} AnyOrderIsUnambiguous(r: Registry, s: Registry)
    requires Unambiguous(r) && SameFields(r, s)
    ensures Unambiguous(s)
  {
    forall i, j | 0 <= i < j < |s| ensures s[i].canonical != s[j].canonical && s[i].alias != s[j].alias {
      assert s[i] in r && s[j] in r;
      var a, b :| 0 <= a < |r| && 0 <= b < |r| && r[a] == s[i] && r[b] == s[j];
      SpellingsDiffer(r, a, b);
    }
    forall i, j | 0 <= i < |s| && 0 <= j < |s| ensures s[i].canonical != s[j].alias {
      assert s[i] in r && s[j] in r;
    }
  }

  lemma {:induction false} ClosureForgetsTheOrder(f: Fields, g: Fields, r: Registry, s: Registry)
    requires SameFields(r, s) && IsClosure(f, g, r)
    ensures IsClosure(f, g, s)
  {
    forall i | 0 <= i < |s| ensures s[i].canonical in g <==> s[i].alias in g {
      assert s[i] in r;
    }
    forall k | k in g && k !in f ensures exists i | 0 <= i < |s| :: IsSpelledBy(f, g, k, s[i]) {
      var i :| 0 <= i < |r| && IsSpelledBy(f, g, k, r[i]);
      assert r[i] in s;
    }
  }

  /** A clone does not depend on the order in which the fields are registered. */
  lemma {:induction false} CloneForgetsTheOrder(j: Json, r: Registry, s: Registry)
    requires Unambiguous(r) && SameFields(r, s)
    ensures Clone(j, r) == Clone(j, s)
    decreases j
  {
    match j
    case Scalar(_) =>
    case Arr(items) =>
      forall i | 0 <= i < |items| ensures Clone(items[i], r) == Clone(items[i], s) {
        CloneForgetsTheOrder(items[i], r, s);
      }
      assert Clone(j, r).items == Clone(j, s).items;
    case Obj(fields) =>
      forall k | k in fields ensures Clone(fields[k], r) == Clone(fields[k], s) {
        CloneForgetsTheOrder(fields[k], r, s);
      }
      assert Cloned(fields, r) == Cloned(fields, s);
      AnyOrderIsUnambiguous(r, s);
      CloneClosesEachObject(fields, r);
      CloneClosesEachObject(fields, s);
      ClosureForgetsTheOrder(Cloned(fields, r), Clone(j, r).fields, r, s);
      ClosureIsUnique(Cloned(fields, s), Clone(j, r).fields, Clone(j, s).fields, s);
  }

  /**
  The guarantee does rest on the registry: when one field's alias is an earlier field's name, one pass is not enough.
  */
  lemma {:induction false} SharedSpellingsBreakTheClosure()
    ensures var registry := [Spelling("b", "c"), Spelling("a", "b")];
            var f := map["a" := Scalar("v")];
            !Unambiguous(registry) && !BothOrNeither(AddSpellings(f, registry, 2), registry, 2)
  {
    var registry := [Spelling("b", "c"), Spelling("a", "b")];
    var f := map["a" := Scalar("v")];
    assert registry[0].canonical == registry[1].alias;
    assert "a" != "b" && "b" != "c" && "a" != "c" by {
      assert "a"[0] == 'a' && "b"[0] == 'b' && "c"[0] == 'c';
    }
    assert AddSpellings(f, registry, 0) == f;
    assert AddSpelling(f, registry[0]) == f;
    assert AddSpellings(f, registry, 1) == f;
    var g := AddSpellings(f, registry, 2);
    assert g == AddSpelling(f, registry[1]) == f["b" := Scalar("v")];
    assert registry[0].canonical in g && registry[0].alias !in g;
  }
}
