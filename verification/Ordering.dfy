/** Sorting as the standard libraries do it (stable), and why the enumeration order of distinct keys cannot matter. */
module Ordering {
  ghost predicate TotalPreorder<T(!new)>(leq: (T, T) -> bool) {
    && (forall x, y :: leq(x, y) || leq(y, x))
    && (forall x, y, z :: leq(x, y) && leq(y, z) ==> leq(x, z))
  }

  ghost predicate AntisymmetricOn<T>(leq: (T, T) -> bool, s: multiset<T>) {
    forall x, y | x in s && y in s && leq(x, y) && leq(y, x) :: x == y
  }

  ghost predicate Sorted<T>(s: seq<T>, leq: (T, T) -> bool) {
    forall i, j | 0 <= i < j < |s| :: leq(s[i], s[j])
  }

  function Insert<T>(x: T, s: seq<T>, leq: (T, T) -> bool): seq<T> {
    if s == [] || leq(x, s[0]) then [x] + s else [s[0]] + Insert(x, s[1..], leq)
  }

  /** Stable: among equals the earlier element stays first. */
  function Sort<T>(s: seq<T>, leq: (T, T) -> bool): seq<T> {
    if s == [] then [] else Insert(s[0], Sort(s[1..], leq), leq)
  }

  lemma {:induction false} InsertAdds<T>(x: T, s: seq<T>, leq: (T, T) -> bool)
    ensures multiset(Insert(x, s, leq)) == multiset(s) + multiset{x}
  {
    if s == [] || leq(x, s[0]) {
      assert multiset([x] + s) == multiset([x]) + multiset(s);
    } else {
      InsertAdds(x, s[1..], leq);
      var r := Insert(x, s[1..], leq);
      assert s == [s[0]] + s[1..];
      assert multiset(s) == multiset([s[0]]) + multiset(s[1..]);
      assert multiset([s[0]] + r) == multiset([s[0]]) + multiset(r);
    }
  }

  /** The head of a sorted list still comes first after an insertion behind it. */
  lemma {:induction false} HeadStaysFirst<T(!new)>(x: T, s: seq<T>, leq: (T, T) -> bool, y: T)
    requires TotalPreorder(leq) && Sorted(s, leq) && s != [] && !leq(x, s[0]) && y in Insert(x, s[1..], leq)
    ensures leq(s[0], y)
  {
    InsertAdds(x, s[1..], leq);
    assert y in multiset(Insert(x, s[1..], leq));
    if y != x {
      assert y in multiset(s[1..]);
      var k :| 0 <= k < |s[1..]| && s[1..][k] == y;
      assert leq(s[0], s[k + 1]);
    }
  }

  lemma {:induction false} PrependingStaysSorted<T>(x: T, s: seq<T>, leq: (T, T) -> bool)
    requires Sorted(s, leq) && forall j | 0 <= j < |s| :: leq(x, s[j])
    ensures Sorted([x] + s, leq)
  {
  }

  lemma {:induction false} InsertSorts<T(!new)>(x: T, s: seq<T>, leq: (T, T) -> bool)
    requires TotalPreorder(leq) && Sorted(s, leq)
    ensures Sorted(Insert(x, s, leq), leq)
  {
    if s == [] || leq(x, s[0]) {
      forall j | 0 <= j < |s| ensures leq(x, s[j]) {
        assert j > 0 ==> leq(s[0], s[j]);
      }
      PrependingStaysSorted(x, s, leq);
    } else {
      TailStaysSorted(s, leq);
      InsertSorts(x, s[1..], leq);
      var r := Insert(x, s[1..], leq);
      forall j | 0 <= j < |r| ensures leq(s[0], r[j]) {
        HeadStaysFirst(x, s, leq, r[j]);
      }
      PrependingStaysSorted(s[0], r, leq);
    }
  }

  lemma {:induction false} SortSorts<T(!new)>(s: seq<T>, leq: (T, T) -> bool)
    requires TotalPreorder(leq)
    ensures Sorted(Sort(s, leq), leq) && multiset(Sort(s, leq)) == multiset(s)
    ensures |Sort(s, leq)| == |s|
  {
    hide TotalPreorder, Insert;
    if s != [] {
      SortSorts(s[1..], leq);
      InsertSorts(s[0], Sort(s[1..], leq), leq);
      InsertAdds(s[0], Sort(s[1..], leq), leq);
      assert s == [s[0]] + s[1..];
      assert multiset(s) == multiset([s[0]]) + multiset(s[1..]);
    }
    assert |Sort(s, leq)| == |multiset(Sort(s, leq))| == |multiset(s)| == |s|;
  }

  lemma {:induction false} HeadIsLeast<T>(a: seq<T>, b: seq<T>, leq: (T, T) -> bool)
    requires Sorted(a, leq) && multiset(a) == multiset(b) && a != [] && b != []
    ensures leq(a[0], b[0]) || a[0] == b[0]
  {
    assert b[0] in multiset(a);
    var j :| 0 <= j < |a| && a[j] == b[0];
  }

  lemma {:induction false} TailsKeepElements<T>(a: seq<T>, b: seq<T>)
    requires a != [] && b != [] && a[0] == b[0] && multiset(a) == multiset(b)
    ensures multiset(a[1..]) == multiset(b[1..]) <= multiset(a)
  {
    assert a == [a[0]] + a[1..] && b == [b[0]] + b[1..];
    assert multiset(a) == multiset([a[0]]) + multiset(a[1..]);
    assert multiset(b) == multiset([b[0]]) + multiset(b[1..]);
    assert multiset(a[1..]) == multiset(a) - multiset([a[0]]);
    assert multiset(b[1..]) == multiset(b) - multiset([b[0]]);
  }

  lemma {:induction false} TailStaysSorted<T>(s: seq<T>, leq: (T, T) -> bool)
    requires Sorted(s, leq) && s != []
    ensures Sorted(s[1..], leq)
  {
    forall i, j | 0 <= i < j < |s[1..]| ensures leq(s[1..][i], s[1..][j]) {
      assert s[1..][i] == s[i + 1] && s[1..][j] == s[j + 1];
    }
  }

  lemma {:induction false} FewerStayAntisymmetric<T>(leq: (T, T) -> bool, s: multiset<T>, r: multiset<T>)
    requires AntisymmetricOn(leq, s) && r <= s
    ensures AntisymmetricOn(leq, r)
  {
  }

  lemma {:induction false} HeadsCoincide<T>(a: seq<T>, b: seq<T>, leq: (T, T) -> bool)
    requires Sorted(a, leq) && Sorted(b, leq) && multiset(a) == multiset(b) && a != [] && b != []
    requires AntisymmetricOn(leq, multiset(a))
    ensures a[0] == b[0]
  {
    HeadIsLeast(a, b, leq);
    HeadIsLeast(b, a, leq);
    assert a[0] in multiset(a) && b[0] in multiset(b);
  }

  /** Two sorted arrangements of the same elements are the same when no two of them tie. */
  lemma {:induction false} SortedIsUnique<T>(a: seq<T>, b: seq<T>, leq: (T, T) -> bool)
    requires Sorted(a, leq) && Sorted(b, leq) && multiset(a) == multiset(b)
    requires AntisymmetricOn(leq, multiset(a))
    ensures a == b
  {
    assert |multiset(a)| == |a| && |multiset(b)| == |b|;
    if a != [] {
      HeadsCoincide(a, b, leq);
      TailsKeepElements(a, b);
      TailStaysSorted(a, leq);
      TailStaysSorted(b, leq);
      FewerStayAntisymmetric(leq, multiset(a), multiset(a[1..]));
      SortedIsUnique(a[1..], b[1..], leq);
      assert a == [a[0]] + a[1..] && b == [b[0]] + b[1..];
    }
  }

  /** Sorting forgets the order of enumeration. */
  lemma {:induction false} SortForgetsOrder<T(!new)>(a: seq<T>, b: seq<T>, leq: (T, T) -> bool)
    requires TotalPreorder(leq) && AntisymmetricOn(leq, multiset(a)) && multiset(a) == multiset(b)
    ensures Sort(a, leq) == Sort(b, leq)
  {
    SortSorts(a, leq);
    SortSorts(b, leq);
    SortedIsUnique(Sort(a, leq), Sort(b, leq), leq);
  }

  /** The elements of s that rank with x, in their order. */
  function Peers<T>(s: seq<T>, x: T, leq: (T, T) -> bool): seq<T> {
    if s == [] then []
    else (if Peer(s[0], x, leq) then [s[0]] else []) + Peers(s[1..], x, leq)
  }

  predicate Peer<T>(y: T, x: T, leq: (T, T) -> bool) {
    leq(y, x) && leq(x, y)
  }

  lemma {:induction false} PeersRankEqually<T(!new)>(y: T, z: T, x: T, leq: (T, T) -> bool)
    requires TotalPreorder(leq) && Peer(y, x, leq) && Peer(z, x, leq)
    ensures leq(y, z)
  {
  }

  lemma {:induction false} PeersOfFirst<T(!new)>(y: T, s: seq<T>, x: T, leq: (T, T) -> bool)
    ensures Peers([y] + s, x, leq) == (if Peer(y, x, leq) then [y] else []) + Peers(s, x, leq)
  {
    assert ([y] + s)[1..] == s;
  }

  lemma {:induction false} InsertKeepsPeers<T(!new)>(y: T, s: seq<T>, x: T, leq: (T, T) -> bool)
    requires TotalPreorder(leq)
    ensures Peers(Insert(y, s, leq), x, leq) == (if Peer(y, x, leq) then [y] else []) + Peers(s, x, leq)
  {
    hide TotalPreorder, Peer, Peers;
    if s == [] || leq(y, s[0]) {
      PeersOfFirst(y, s, x, leq);
    } else {
      InsertKeepsPeers(y, s[1..], x, leq);
      assert s == [s[0]] + s[1..];
      PeersOfFirst(s[0], s[1..], x, leq);
      PeersOfFirst(s[0], Insert(y, s[1..], leq), x, leq);
      if Peer(y, x, leq) && Peer(s[0], x, leq) {
        PeersRankEqually(y, s[0], x, leq);
      }
    }
  }

  /** Elements that rank equally keep their order. */
  lemma {:induction false} SortIsStable<T(!new)>(s: seq<T>, x: T, leq: (T, T) -> bool)
    requires TotalPreorder(leq)
    ensures Peers(Sort(s, leq), x, leq) == Peers(s, x, leq)
  {
    if s != [] {
      SortIsStable(s[1..], x, leq);
      InsertKeepsPeers(s[0], Sort(s[1..], leq), x, leq);
    }
  }

  predicate NoDuplicates<T(==)>(s: seq<T>) {
    forall i, j | 0 <= i < j < |s| :: s[i] != s[j]
  }

  lemma {:induction false} CountOfDistinct<T>(s: seq<T>, x: T)
    requires NoDuplicates(s)
    ensures multiset(s)[x] == if x in s then 1 else 0
  {
    if s != [] {
      var before, last := s[..|s| - 1], s[|s| - 1];
      CountOfDistinct(before, x);
      assert s == before + [last];
      assert last !in before;
    }
  }

  lemma {:induction false} SameElementsSameMultiset<T(!new)>(a: seq<T>, b: seq<T>)
    requires NoDuplicates(a) && NoDuplicates(b) && forall x :: x in a <==> x in b
    ensures multiset(a) == multiset(b)
  {
    forall x ensures multiset(a)[x] == multiset(b)[x] {
      CountOfDistinct(a, x);
      CountOfDistinct(b, x);
    }
  }

  lemma {:induction false} RepeatsAreCounted<T>(s: seq<T>, i: nat, j: nat)
    requires i < j < |s| && s[i] == s[j]
    ensures multiset(s)[s[j]] >= 2
  {
    var x := s[j];
    assert s == s[..j] + [x] + s[j + 1..];
    assert s[..j][i] == x && x in multiset(s[..j]);
  }

  lemma {:induction false} RearrangingKeepsDistinct<T>(a: seq<T>, b: seq<T>)
    requires NoDuplicates(a) && multiset(a) == multiset(b)
    ensures NoDuplicates(b)
  {
    forall i, j | 0 <= i < j < |b| ensures b[i] != b[j] {
      if b[i] == b[j] {
        RepeatsAreCounted(b, i, j);
        CountOfDistinct(a, b[j]);
      }
    }
  }
}
