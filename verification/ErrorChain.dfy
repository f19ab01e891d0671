/**
Walking a possibly cyclic graph of error objects breadth first, and reading a text field from the nearest
object that carries one.
*/
module ErrorChain {
  import Text

  type Id = nat

  /** A field holds text, a reference to an object, or any other value (including null and undefined). */
  datatype Value = TextValue(text: string) | Ref(id: Id) | Other

  type Object = map<string, Value>
  type Heap = map<Id, Object>

  /** References do not dangle. */
  predicate Closed(h: Heap) {
    forall id | id in h :: forall name | name in h[id] :: h[id][name].Ref? ==> h[id][name].id in h
  }

  function Field(h: Heap, id: Id, name: string): (v: Value)
    ensures Closed(h) && v.Ref? ==> v.id in h
  {
    if id in h && name in h[id] then h[id][name] else Other
  }

  function Pushed(v: Value): seq<Value> {
    if v.Ref? then [v] else []
  }

  /** The objects an error points at: `error`, `cause`, and `error` inside `details`. */
  function Children(h: Heap, id: Id): seq<Value> {
    var details := Field(h, id, "details");
    Pushed(Field(h, id, "error")) + Pushed(Field(h, id, "cause")) +
    if details.Ref? then Pushed(Field(h, details.id, "error")) else []
  }

  /** The edges of an object graph; the walk depends on nothing else. */
  type Graph = Id -> seq<Value>

  function Edges(h: Heap): Graph {
    (id: Id) => Children(h, id)
  }

  /** Object x can be reached from the root value in exactly d edges. */
  ghost predicate Steps(g: Graph, root: Value, x: Id, d: nat)
    decreases d
  {
    if d == 0 then root == Ref(x) else exists y :: Steps(g, root, y, d - 1) && Ref(x) in g(y)
  }

  ghost predicate Reachable(g: Graph, root: Value, x: Id) {
    exists d :: Steps(g, root, x, d)
  }

  ghost predicate Distance(g: Graph, root: Value, x: Id, d: nat) {
    Steps(g, root, x, d) && forall e | Steps(g, root, x, e) :: d <= e
  }

  // ---- The graph, read off the heap ----

  /** Field `name` of object y refers to x. */
  predicate Refers(h: Heap, y: Id, name: string, x: Id) {
    y in h && name in h[y] && h[y][name] == Ref(x)
  }

  /** The three ways from an object to the next: its `error`, its `cause`, and the `error` of its `details`. */
  ghost predicate Leads(h: Heap, y: Id, way: nat, x: Id) {
    || (way == 0 && Refers(h, y, "error", x))
    || (way == 1 && Refers(h, y, "cause", x))
    || (way == 2 && exists d :: Refers(h, y, "details", d) && Refers(h, d, "error", x))
  }

  ghost predicate LeadsTo(h: Heap, y: Id, x: Id) {
    exists way :: Leads(h, y, way, x)
  }

  /** Object x is reached from the root in d such steps. */
  ghost predicate Path(h: Heap, root: Value, x: Id, d: nat)
    decreases d
  {
    if d == 0 then root == Ref(x) else exists y :: Path(h, root, y, d - 1) && LeadsTo(h, y, x)
  }

  ghost predicate ShortestPath(h: Heap, root: Value, x: Id, d: nat) {
    Path(h, root, x, d) && forall e | Path(h, root, x, e) :: d <= e
  }

  ghost predicate Connected(h: Heap, root: Value, x: Id) {
    exists d :: Path(h, root, x, d)
  }

  lemma {:induction false} FieldsRefer(h: Heap, y: Id, name: string, x: Id)
    ensures Ref(x) in Pushed(Field(h, y, name)) <==> Refers(h, y, name, x)
  {
  }

  lemma {:induction false} ChildrenAreLedTo(h: Heap, y: Id, x: Id)
    ensures Ref(x) in Children(h, y) <==> LeadsTo(h, y, x)
  {
    FieldsRefer(h, y, "error", x);
    FieldsRefer(h, y, "cause", x);
    var details := Field(h, y, "details");
    if details.Ref? {
      FieldsRefer(h, details.id, "error", x);
      assert Refers(h, y, "details", details.id);
      assert forall d | Refers(h, y, "details", d) :: d == details.id;
    } else {
      assert forall d :: !Refers(h, y, "details", d);
    }
    if Refers(h, y, "error", x) {
      assert Leads(h, y, 0, x);
    }
    if Refers(h, y, "cause", x) {
      assert Leads(h, y, 1, x);
    }
    if details.Ref? && Refers(h, details.id, "error", x) {
      assert Leads(h, y, 2, x);
    }
  }

  lemma {:induction false} StepsArePaths(h: Heap, root: Value, x: Id, d: nat)
    ensures Steps(Edges(h), root, x, d) <==> Path(h, root, x, d)
    decreases d
  {
    if d > 0 {
      forall y, n: nat | n == d - 1 ensures Steps(Edges(h), root, y, n) <==> Path(h, root, y, n) {
        StepsArePaths(h, root, y, n);
      }
      forall y ensures SameEdge(Edges(h), h, y, x) {
        ChildrenAreLedTo(h, y, x);
      }
      SameStep(Edges(h), h, root, x, d - 1);
    }
  }

  ghost predicate SameEdge(g: Graph, h: Heap, y: Id, x: Id) {
    Ref(x) in g(y) <==> LeadsTo(h, y, x)
  }

  lemma {:induction false} SameStep(g: Graph, h: Heap, root: Value, x: Id, n: nat)
    requires forall y :: Steps(g, root, y, n) <==> Path(h, root, y, n)
    requires forall y :: SameEdge(g, h, y, x)
    ensures Steps(g, root, x, n + 1) <==> Path(h, root, x, n + 1)
  {
    if Steps(g, root, x, n + 1) {
      var y :| Steps(g, root, y, n) && Ref(x) in g(y);
      assert SameEdge(g, h, y, x) && Path(h, root, y, n) && LeadsTo(h, y, x);
    }
    if Path(h, root, x, n + 1) {
      var y :| Path(h, root, y, n) && LeadsTo(h, y, x);
      assert SameEdge(g, h, y, x) && Steps(g, root, y, n) && Ref(x) in g(y);
    }
  }

  lemma {:induction false} DistancesAreShortestPaths(h: Heap, root: Value)
    ensures forall x, d: nat :: Distance(Edges(h), root, x, d) <==> ShortestPath(h, root, x, d)
    ensures forall x :: Reachable(Edges(h), root, x) <==> Connected(h, root, x)
  {
    forall x, d: nat ensures Steps(Edges(h), root, x, d) <==> Path(h, root, x, d) {
      StepsArePaths(h, root, x, d);
    }
  }

  // ---- The order of discovery ----

  /** Which way of an object leads to which object. */
  type Ways = (Id, nat, Id) -> bool

  ghost function WaysOf(h: Heap): Ways {
    (y: Id, way: nat, x: Id) => Leads(h, y, way, x)
  }

  /** A way of the object at a position of the chain. The root is found by no edge, written as one from position -1. */
  datatype Edge = Edge(position: int, way: nat)

  const ROOT_EDGE := Edge(-1, 0)

  /** The edges of an earlier object come first, and of one object `error`, then `cause`, then `details.error`. */
  predicate Before(a: Edge, b: Edge) {
    a.position < b.position || (a.position == b.position && a.way < b.way)
  }

  ghost predicate EdgeTo(ways: Ways, chain: seq<Id>, e: Edge, x: Id) {
    0 <= e.position < |chain| && ways(chain[e.position], e.way, x)
  }

  ghost predicate FoundBy(ways: Ways, root: Value, chain: seq<Id>, e: Edge, x: Id) {
    (e == ROOT_EDGE && root == Ref(x)) || EdgeTo(ways, chain, e, x)
  }

  ghost predicate Ascending(edges: seq<Edge>) {
    forall i, j | 0 <= i < j < |edges| :: Before(edges[i], edges[j])
  }

  /** No edge to an object of the chain comes before the one it was found by. */
  ghost predicate FoundFirst(ways: Ways, chain: seq<Id>, edges: seq<Edge>)
    requires |edges| == |chain|
  {
    forall i, e | 0 <= i < |chain| && EdgeTo(ways, chain, e, chain[i]) :: !Before(e, edges[i])
  }

  ghost predicate FoundFromEarlier(ways: Ways, root: Value, chain: seq<Id>, edges: seq<Edge>)
    requires |edges| == |chain|
  {
    forall i: nat | i < |chain| :: FoundAt(ways, root, chain, edges, i)
  }

  ghost predicate FoundAt(ways: Ways, root: Value, chain: seq<Id>, edges: seq<Edge>, i: nat)
    requires |edges| == |chain| && i < |chain|
  {
    FoundBy(ways, root, chain, edges[i], chain[i]) && edges[i].position < i
  }

  /**
  The chain begins with the root; each further object is the one the next edge leads to that leads to a new object.
  */
  ghost predicate Discovered(ways: Ways, root: Value, chain: seq<Id>, edges: seq<Edge>) {
    && |edges| == |chain| && Ascending(edges) && Distinct(chain) && (root.Ref? ==> root.id in chain)
    && FoundFromEarlier(ways, root, chain, edges) && FoundFirst(ways, chain, edges)
    && (root.Ref? && chain != [] ==> edges[0] == ROOT_EDGE && chain[0] == root.id)
    && forall e, x | EdgeTo(ways, chain, e, x) :: x in chain
  }

  lemma {:induction false} EdgesOfPrefix(ways: Ways, root: Value, a: seq<Id>, b: seq<Id>, n: nat, e: Edge, x: Id)
    requires n <= |a| && n <= |b| && a[..n] == b[..n] && e.position < n && FoundBy(ways, root, a, e, x)
    ensures FoundBy(ways, root, b, e, x)
  {
    if e != ROOT_EDGE {
      assert a[..n][e.position] == b[..n][e.position];
    }
  }

  /** Where an object stands that is found by some edge: it was found by none later than that. */
  lemma {:induction false} PlaceOf(ways: Ways, root: Value, chain: seq<Id>, edges: seq<Edge>, e: Edge, x: Id)
    returns (m: nat)
    requires Discovered(ways, root, chain, edges) && FoundBy(ways, root, chain, e, x)
    ensures m < |chain| && chain[m] == x && !Before(e, edges[m])
  {
    m :| 0 <= m < |chain| && chain[m] == x;
    if !EdgeTo(ways, chain, e, x) {
      assert m == 0;
    }
  }

  lemma {:induction false} NextIsNoLater(ways: Ways, root: Value, a: seq<Id>, ea: seq<Edge>, b: seq<Id>, eb: seq<Edge>,
                                         n: nat)
    requires Discovered(ways, root, a, ea) && Discovered(ways, root, b, eb)
    requires n < |a| && n <= |b| && a[..n] == b[..n]
    ensures n < |b| && !Before(ea[n], eb[n]) && (ea[n] == eb[n] ==> a[n] == b[n])
  {
    assert FoundAt(ways, root, a, ea, n);
    EdgesOfPrefix(ways, root, a, b, n, ea[n], a[n]);
    var m := PlaceOf(ways, root, b, eb, ea[n], a[n]);
    assert forall i | 0 <= i < n :: a[i] == a[..n][i] == b[..n][i] == b[i];
    assert m >= n;
    assert m > n ==> Before(eb[n], eb[m]);
  }

  lemma {:induction false} SamePrefix(ways: Ways, root: Value, a: seq<Id>, ea: seq<Edge>, b: seq<Id>, eb: seq<Edge>,
                                      n: nat)
    requires Discovered(ways, root, a, ea) && Discovered(ways, root, b, eb) && n <= |a|
    ensures n <= |b| && a[..n] == b[..n]
  {
    if n > 0 {
      SamePrefix(ways, root, a, ea, b, eb, n - 1);
      NextIsNoLater(ways, root, a, ea, b, eb, n - 1);
      NextIsNoLater(ways, root, b, eb, a, ea, n - 1);
    }
  }

  /** That order leaves nothing open: it determines the chain. */
  lemma {:induction false} DiscoveryIsUnique(ways: Ways, root: Value, a: seq<Id>, ea: seq<Edge>, b: seq<Id>,
                                             eb: seq<Edge>)
    requires Discovered(ways, root, a, ea) && Discovered(ways, root, b, eb)
    ensures a == b
  {
    SamePrefix(ways, root, a, ea, b, eb, |a|);
    SamePrefix(ways, root, b, eb, a, ea, |b|);
    assert a[..|a|] == a && b[..|b|] == b;
  }

  // ---- What the loop keeps ----

  ghost predicate Found(chain: seq<Id>, depths: seq<nat>, x: Id, d: int)
    requires |depths| == |chain|
  {
    exists k | 0 <= k < |chain| :: chain[k] == x && depths[k] <= d
  }

  ghost predicate Waiting(queue: seq<Value>, due: seq<nat>, x: Id, d: int)
    requires |due| == |queue|
  {
    exists k | 0 <= k < |queue| :: queue[k] == Ref(x) && due[k] <= d
  }

  /**
  Depths are true path lengths, in non-decreasing order along the chain and then the queue, at most one level apart.
  */
  ghost predicate Levelled(g: Graph, root: Value, chain: seq<Id>, depths: seq<nat>, queue: seq<Value>, due: seq<nat>) {
    && |depths| == |chain| && |due| == |queue|
    && (forall k | 0 <= k < |chain| :: Steps(g, root, chain[k], depths[k]))
    && (forall k | 0 <= k < |queue| && queue[k].Ref? :: Steps(g, root, queue[k].id, due[k]))
    && (forall i, j | 0 <= i < j < |chain| :: depths[i] <= depths[j])
    && (forall i, j | 0 <= i < j < |queue| :: due[i] <= due[j])
    && (forall i, j | 0 <= i < |chain| && 0 <= j < |queue| :: depths[i] <= due[j])
    && (forall j | 0 <= j < |queue| :: due[j] <= due[0] + 1)
  }

  /** The root and every child of a listed object are listed or waiting, no deeper than one level below. */
  ghost predicate Covered(g: Graph, root: Value, chain: seq<Id>, depths: seq<nat>, queue: seq<Value>, due: seq<nat>)
    requires |depths| == |chain| && |due| == |queue|
  {
    && (root.Ref? ==> Found(chain, depths, root.id, 0) || Waiting(queue, due, root.id, 0))
    && (forall i, x | 0 <= i < |chain| && Ref(x) in g(chain[i]) ::
          Found(chain, depths, x, depths[i] + 1) || Waiting(queue, due, x, depths[i] + 1))
  }

  ghost predicate Distinct(chain: seq<Id>) {
    forall i, j | 0 <= i < j < |chain| :: chain[i] != chain[j]
  }

  ghost predicate Exploring(g: Graph, root: Value, chain: seq<Id>, depths: seq<nat>, queue: seq<Value>, due: seq<nat>) {
    Distinct(chain) && Levelled(g, root, chain, depths, queue, due) && Covered(g, root, chain, depths, queue, due)
  }

  lemma {:induction false} WaitingShrinks(queue: seq<Value>, due: seq<nat>, x: Id, d: int)
    requires |due| == |queue| > 0 && Waiting(queue, due, x, d)
    ensures (queue[0] == Ref(x) && due[0] <= d) || Waiting(queue[1..], due[1..], x, d)
  {
    var k :| 0 <= k < |queue| && queue[k] == Ref(x) && due[k] <= d;
    if k > 0 {
      assert queue[1..][k - 1] == Ref(x) && due[1..][k - 1] <= d;
    }
  }

  /** A candidate that is no object, or is listed already, can be dropped. */
  lemma {:induction false} SkippingKeepsCover(g: Graph, root: Value, chain: seq<Id>, depths: seq<nat>,
                                              queue: seq<Value>, due: seq<nat>)
    requires Exploring(g, root, chain, depths, queue, due) && queue != []
    requires queue[0].Ref? ==> queue[0].id in chain
    ensures Exploring(g, root, chain, depths, queue[1..], due[1..])
  {
    forall x, d: int | Waiting(queue, due, x, d)
        ensures Found(chain, depths, x, d) || Waiting(queue[1..], due[1..], x, d) {
      WaitingShrinks(queue, due, x, d);
      if queue[0] == Ref(x) && due[0] <= d {
        var k :| 0 <= k < |chain| && chain[k] == x;
        assert depths[k] <= due[0];
      }
    }
    assert Levelled(g, root, chain, depths, queue[1..], due[1..]);
  }

  lemma {:induction false} FoundGrows(chain: seq<Id>, depths: seq<nat>, x: Id, d: int, y: Id, depth: nat)
    requires |depths| == |chain| && (Found(chain, depths, x, d) || (x == y && depth <= d))
    ensures Found(chain + [y], depths + [depth], x, d)
  {
    if Found(chain, depths, x, d) {
      var k :| 0 <= k < |chain| && chain[k] == x && depths[k] <= d;
      assert (chain + [y])[k] == x && (depths + [depth])[k] <= d;
    } else {
      assert (chain + [y])[|chain|] == x;
    }
  }

  lemma {:induction false} WaitingGrows(queue: seq<Value>, due: seq<nat>, x: Id, d: int, more: seq<Value>, level: nat)
    requires |due| == |queue| && (Waiting(queue, due, x, d) || (Ref(x) in more && level <= d))
    ensures Waiting(queue + more, due + seq(|more|, _ => level), x, d)
  {
    var levels := seq(|more|, _ => level);
    if Waiting(queue, due, x, d) {
      var k :| 0 <= k < |queue| && queue[k] == Ref(x) && due[k] <= d;
      assert (queue + more)[k] == Ref(x) && (due + levels)[k] <= d;
    } else {
      var k :| 0 <= k < |more| && more[k] == Ref(x);
      assert (queue + more)[|queue| + k] == Ref(x) && (due + levels)[|queue| + k] == level;
    }
  }

  lemma {:induction false} VisitingKeepsLevels(g: Graph, root: Value, chain: seq<Id>, depths: seq<nat>,
                                               queue: seq<Value>, due: seq<nat>)
    requires Levelled(g, root, chain, depths, queue, due) && queue != [] && queue[0].Ref?
    ensures var x, more := queue[0].id, g(queue[0].id);
            Levelled(g, root, chain + [x], depths + [due[0]], queue[1..] + more,
                due[1..] + seq(|more|, _ => due[0] + 1))
  {
    var x, more := queue[0].id, g(queue[0].id);
    forall k | 0 <= k < |more| && more[k].Ref? ensures Steps(g, root, more[k].id, due[0] + 1) {
      assert Steps(g, root, x, due[0] + 1 - 1) && more[k] in g(x);
    }
  }

  lemma {:induction false} VisitingKeepsCover(g: Graph, root: Value, chain: seq<Id>, depths: seq<nat>,
                                              queue: seq<Value>, due: seq<nat>)
    requires |depths| == |chain| && |due| == |queue|
    requires Covered(g, root, chain, depths, queue, due) && queue != [] && queue[0].Ref?
    ensures var x, more := queue[0].id, g(queue[0].id);
            Covered(g, root, chain + [x], depths + [due[0]], queue[1..] + more, due[1..] + seq(|more|, _ => due[0] + 1))
  {
    var x, more := queue[0].id, g(queue[0].id);
    var chain', depths' := chain + [x], depths + [due[0]];
    var queue', due' := queue[1..] + more, due[1..] + seq(|more|, _ => due[0] + 1);
    forall y, d: int | Found(chain, depths, y, d) || Waiting(queue, due, y, d)
      ensures Found(chain', depths', y, d) || Waiting(queue', due', y, d)
    {
      StillCovered(g, chain, depths, queue, due, y, d);
    }
    forall i, y | 0 <= i < |chain'| && Ref(y) in g(chain'[i])
      ensures Found(chain', depths', y, depths'[i] + 1) || Waiting(queue', due', y, depths'[i] + 1)
    {
      if i == |chain| {
        WaitingGrows(queue[1..], due[1..], y, due[0] + 1, more, due[0] + 1);
      } else {
        assert chain'[i] == chain[i] && depths'[i] == depths[i];
      }
    }
  }

  lemma {:induction false} StillCovered(g: Graph, chain: seq<Id>, depths: seq<nat>, queue: seq<Value>,
                                        due: seq<nat>, y: Id, d: int)
    requires |depths| == |chain| && |due| == |queue| > 0 && queue[0].Ref?
    requires Found(chain, depths, y, d) || Waiting(queue, due, y, d)
    ensures var x, more := queue[0].id, g(queue[0].id);
            || Found(chain + [x], depths + [due[0]], y, d)
            || Waiting(queue[1..] + more, due[1..] + seq(|more|, _ => due[0] + 1), y, d)
  {
    var x, more := queue[0].id, g(queue[0].id);
    if Found(chain, depths, y, d) {
      FoundGrows(chain, depths, y, d, x, due[0]);
    } else {
      WaitingShrinks(queue, due, y, d);
      if queue[0] == Ref(y) && due[0] <= d {
        FoundGrows(chain, depths, y, d, x, due[0]);
      } else {
        WaitingGrows(queue[1..], due[1..], y, d, more, due[0] + 1);
      }
    }
  }

  /** With nothing waiting, everything reachable is listed, no deeper than any path to it. */
  lemma {:induction false} CoverReachesEverything(g: Graph, root: Value, chain: seq<Id>, depths: seq<nat>,
                                                  x: Id, d: nat)
    requires |depths| == |chain| && Covered(g, root, chain, depths, [], []) && Steps(g, root, x, d)
    ensures Found(chain, depths, x, d)
    decreases d
  {
    if d > 0 {
      var y :| Steps(g, root, y, d - 1) && Ref(x) in g(y);
      CoverReachesEverything(g, root, chain, depths, y, d - 1);
      var i :| 0 <= i < |chain| && chain[i] == y && depths[i] <= d - 1;
      var k :| 0 <= k < |chain| && chain[k] == x && depths[k] <= depths[i] + 1;
    }
  }

  ghost predicate ListsReachable(g: Graph, root: Value, chain: seq<Id>) {
    forall x :: x in chain <==> Reachable(g, root, x)
  }

  lemma {:induction false} DepthsAreDistances(g: Graph, root: Value, chain: seq<Id>, depths: seq<nat>)
    requires Exploring(g, root, chain, depths, [], [])
    ensures forall k | 0 <= k < |chain| :: Distance(g, root, chain[k], depths[k])
    ensures ListsReachable(g, root, chain)
  {
    forall x, d: nat | Steps(g, root, x, d) ensures Found(chain, depths, x, d) {
      CoverReachesEverything(g, root, chain, depths, x, d);
    }
    forall k, e: nat | 0 <= k < |chain| && Steps(g, root, chain[k], e) ensures depths[k] <= e {
      var j :| 0 <= j < |chain| && chain[j] == chain[k] && depths[j] <= e;
      assert j == k;
    }
  }

  lemma {:induction false} VisitingKeepsExploring(g: Graph, root: Value, chain: seq<Id>, depths: seq<nat>,
                                                  queue: seq<Value>, due: seq<nat>)
    requires Exploring(g, root, chain, depths, queue, due) && queue != [] && queue[0].Ref? && queue[0].id !in chain
    ensures var x, more := queue[0].id, g(queue[0].id);
            Exploring(g, root, chain + [x], depths + [due[0]], queue[1..] + more,
                due[1..] + seq(|more|, _ => due[0] + 1))
  {
    VisitingKeepsLevels(g, root, chain, depths, queue, due);
    VisitingKeepsCover(g, root, chain, depths, queue, due);
  }

  // ---- The order, turn by turn ----

  ghost predicate AllBefore(a: seq<Edge>, b: seq<Edge>) {
    forall i, j | 0 <= i < |a| && 0 <= j < |b| :: Before(a[i], b[j])
  }

  ghost predicate WaitsBy(queue: seq<Value>, from: seq<Edge>, e: Edge, x: Id)
    requires |from| == |queue|
  {
    exists k | 0 <= k < |queue| :: queue[k] == Ref(x) && from[k] == e
  }

  /** Each waiting reference with the edge it was pushed by. */
  ghost predicate PushedBy(ways: Ways, root: Value, chain: seq<Id>, queue: seq<Value>, from: seq<Edge>)
    requires |from| == |queue|
  {
    forall k | 0 <= k < |queue| ::
      from[k].position < |chain| && (queue[k].Ref? ==> FoundBy(ways, root, chain, from[k], queue[k].id))
  }

  /** An edge of a listed object leads to a listed object, or waits. */
  ghost predicate EdgesTaken(ways: Ways, chain: seq<Id>, queue: seq<Value>, from: seq<Edge>)
    requires |from| == |queue|
  {
    forall e, x | EdgeTo(ways, chain, e, x) :: x in chain || WaitsBy(queue, from, e, x)
  }

  ghost predicate RootTaken(root: Value, chain: seq<Id>, edges: seq<Edge>, queue: seq<Value>, from: seq<Edge>)
    requires |edges| == |chain|
  {
    if chain == [] then queue == [] || (queue == [root] && from == [ROOT_EDGE])
    else root.Ref? ==> edges[0] == ROOT_EDGE && chain[0] == root.id
  }

  ghost predicate Discovering(ways: Ways, root: Value, chain: seq<Id>, edges: seq<Edge>, queue: seq<Value>,
                              from: seq<Edge>) {
    && |edges| == |chain| && |from| == |queue|
    && Distinct(chain) && Ascending(edges) && Ascending(from) && AllBefore(edges, from)
    && FoundFromEarlier(ways, root, chain, edges) && FoundFirst(ways, chain, edges)
    && PushedBy(ways, root, chain, queue, from) && EdgesTaken(ways, chain, queue, from)
    && RootTaken(root, chain, edges, queue, from) && (root.Ref? && chain == [] ==> queue == [root])
  }

  lemma {:induction false} DiscoverySkips(ways: Ways, root: Value, chain: seq<Id>, edges: seq<Edge>,
                                          queue: seq<Value>, from: seq<Edge>)
    requires Discovering(ways, root, chain, edges, queue, from) && queue != []
    requires queue[0].Ref? ==> queue[0].id in chain
    ensures Discovering(ways, root, chain, edges, queue[1..], from[1..])
  {
    forall e, x | EdgeTo(ways, chain, e, x) ensures x in chain || WaitsBy(queue[1..], from[1..], e, x) {
      if x !in chain {
        var k :| 0 <= k < |queue| && queue[k] == Ref(x) && from[k] == e;
        assert queue[1..][k - 1] == Ref(x) && from[1..][k - 1] == e;
      }
    }
  }

  /** The edges of an object at position n, in order, with what they lead to. */
  ghost predicate ListsEdges(ways: Ways, x: Id, n: nat, more: seq<Value>, edges: seq<Edge>) {
    && |edges| == |more| && Ascending(edges)
    && (forall k | 0 <= k < |more| :: edges[k].position == n && more[k].Ref? && ways(x, edges[k].way, more[k].id))
    && forall way, y | ways(x, way, y) :: WaitsBy(more, edges, Edge(n, way), y)
  }

  lemma {:induction false} EdgesOfLonger(ways: Ways, chain: seq<Id>, x: Id, e: Edge, y: Id)
    ensures EdgeTo(ways, chain + [x], e, y) <==>
            EdgeTo(ways, chain, e, y) || (e.position == |chain| && ways(x, e.way, y))
  {
  }

  lemma {:induction false} VisitedIsFoundFirst(ways: Ways, root: Value, chain: seq<Id>, edges: seq<Edge>,
                                               queue: seq<Value>, from: seq<Edge>)
    requires Discovering(ways, root, chain, edges, queue, from) && queue != [] && queue[0].Ref? && queue[0].id !in chain
    ensures FoundFirst(ways, chain + [queue[0].id], edges + [from[0]])
    ensures FoundFromEarlier(ways, root, chain + [queue[0].id], edges + [from[0]])
  {
    var x := queue[0].id;
    var chain', edges' := chain + [x], edges + [from[0]];
    forall i, e | 0 <= i < |chain'| && EdgeTo(ways, chain', e, chain'[i]) ensures !Before(e, edges'[i]) {
      EdgesOfLonger(ways, chain, x, e, chain'[i]);
      if i < |chain| {
        assert chain'[i] == chain[i] && FoundAt(ways, root, chain, edges, i);
      } else if EdgeTo(ways, chain, e, x) {
        var k :| 0 <= k < |queue| && queue[k] == Ref(x) && from[k] == e;
        assert k > 0 ==> Before(from[0], from[k]);
      }
    }
    forall i: nat | i < |chain'| ensures FoundAt(ways, root, chain', edges', i) {
      if i < |chain| {
        assert FoundAt(ways, root, chain, edges, i);
        EdgesOfLonger(ways, chain, x, edges[i], chain[i]);
      } else {
        EdgesOfLonger(ways, chain, x, from[0], x);
      }
    }
  }

  lemma {:induction false} VisitedTakesEdges(ways: Ways, chain: seq<Id>, queue: seq<Value>, from: seq<Edge>,
                                             more: seq<Value>, moreEdges: seq<Edge>)
    requires |from| == |queue| && queue != [] && queue[0].Ref?
    requires EdgesTaken(ways, chain, queue, from) && ListsEdges(ways, queue[0].id, |chain|, more, moreEdges)
    ensures EdgesTaken(ways, chain + [queue[0].id], queue[1..] + more, from[1..] + moreEdges)
  {
    var x := queue[0].id;
    var queue', from' := queue[1..] + more, from[1..] + moreEdges;
    forall e, y | EdgeTo(ways, chain + [x], e, y) ensures y in chain + [x] || WaitsBy(queue', from', e, y) {
      EdgesOfLonger(ways, chain, x, e, y);
      if EdgeTo(ways, chain, e, y) {
        if y !in chain && y != x {
          var k :| 0 <= k < |queue| && queue[k] == Ref(y) && from[k] == e;
          assert queue'[k - 1] == Ref(y) && from'[k - 1] == e;
        }
      } else {
        assert e == Edge(|chain|, e.way);
        var k :| 0 <= k < |more| && more[k] == Ref(y) && moreEdges[k] == e;
        assert queue'[|queue| - 1 + k] == Ref(y) && from'[|queue| - 1 + k] == e;
      }
    }
  }

  lemma {:induction false} VisitedKeepsOrder(edges: seq<Edge>, from: seq<Edge>, more: seq<Edge>, n: nat)
    requires from != [] && Ascending(edges) && Ascending(from) && AllBefore(edges, from) && Ascending(more)
    requires (forall k | 0 <= k < |from| :: from[k].position < n) && forall k | 0 <= k < |more| :: more[k].position == n
    ensures Ascending(edges + [from[0]]) && Ascending(from[1..] + more)
    ensures AllBefore(edges + [from[0]], from[1..] + more)
  {
    forall k | 0 <= k < |edges| ensures edges[k].position < n {
      assert Before(edges[k], from[0]);
    }
  }

  lemma {:induction false} VisitedKeepsPushed(ways: Ways, root: Value, chain: seq<Id>, queue: seq<Value>,
                                              from: seq<Edge>, more: seq<Value>, moreEdges: seq<Edge>)
    requires |from| == |queue| && queue != [] && queue[0].Ref?
    requires PushedBy(ways, root, chain, queue, from) && ListsEdges(ways, queue[0].id, |chain|, more, moreEdges)
    ensures PushedBy(ways, root, chain + [queue[0].id], queue[1..] + more, from[1..] + moreEdges)
  {
    var x := queue[0].id;
    var queue', from' := queue[1..] + more, from[1..] + moreEdges;
    forall k | 0 <= k < |queue'|
      ensures from'[k].position < |chain| + 1
      ensures queue'[k].Ref? ==> FoundBy(ways, root, chain + [x], from'[k], queue'[k].id)
    {
      if k < |queue| - 1 {
        assert queue'[k] == queue[k + 1] && from'[k] == from[k + 1];
        if queue'[k].Ref? {
          EdgesOfLonger(ways, chain, x, from'[k], queue'[k].id);
        }
      } else {
        var j := k - (|queue| - 1);
        assert queue'[k] == more[j] && from'[k] == moreEdges[j];
        EdgesOfLonger(ways, chain, x, from'[k], queue'[k].id);
      }
    }
  }

  lemma {:induction false} DiscoveryVisits(ways: Ways, root: Value, chain: seq<Id>, edges: seq<Edge>,
                                           queue: seq<Value>, from: seq<Edge>, more: seq<Value>, moreEdges: seq<Edge>)
    requires Discovering(ways, root, chain, edges, queue, from) && queue != [] && queue[0].Ref? && queue[0].id !in chain
    requires ListsEdges(ways, queue[0].id, |chain|, more, moreEdges)
    ensures Discovering(ways, root, chain + [queue[0].id], edges + [from[0]], queue[1..] + more, from[1..] + moreEdges)
  {
    VisitedIsFoundFirst(ways, root, chain, edges, queue, from);
    VisitedTakesEdges(ways, chain, queue, from, more, moreEdges);
    VisitedKeepsOrder(edges, from, moreEdges, |chain|);
    VisitedKeepsPushed(ways, root, chain, queue, from, more, moreEdges);
    RootIsTaken(root, chain, edges, queue, from, queue[1..] + more, from[1..] + moreEdges);
  }

  lemma {:induction false} RootIsTaken(root: Value, chain: seq<Id>, edges: seq<Edge>, queue: seq<Value>,
                                       from: seq<Edge>, queue': seq<Value>, from': seq<Edge>)
    requires |edges| == |chain| && |from| == |queue| && RootTaken(root, chain, edges, queue, from)
    requires queue != [] && queue[0].Ref?
    ensures RootTaken(root, chain + [queue[0].id], edges + [from[0]], queue', from')
  {
  }

  lemma {:induction false} DiscoveryEnds(ways: Ways, root: Value, chain: seq<Id>, edges: seq<Edge>)
    requires Discovering(ways, root, chain, edges, [], [])
    ensures Discovered(ways, root, chain, edges)
  {
    forall e, x | EdgeTo(ways, chain, e, x) ensures x in chain {
      assert !WaitsBy([], [], e, x);
    }
  }

  ghost predicate OnHeap(h: Heap, queue: seq<Value>) {
    forall k | 0 <= k < |queue| && queue[k].Ref? :: queue[k].id in h
  }

  ghost predicate Lists(chain: seq<Id>, seen: set<Id>) {
    forall x :: x in seen <==> x in chain
  }

  lemma {:induction false} OneMoreSeen(h: Heap, chain: seq<Id>, seen: set<Id>, x: Id)
    requires Lists(chain, seen) && seen <= h.Keys && x in h && x !in seen
    ensures Lists(chain + [x], seen + {x}) && seen + {x} <= h.Keys
    ensures |h.Keys - (seen + {x})| < |h.Keys - seen|
  {
    assert h.Keys - (seen + {x}) == (h.Keys - seen) - {x};
  }

  method PushChildren(h: Heap, id: Id, waiting: seq<Value>) returns (queue: seq<Value>)
    requires Closed(h) && id in h
    ensures queue == waiting + Children(h, id) && OnHeap(h, Children(h, id))
  {
    queue := waiting;
    var error := Field(h, id, "error");
    if error.Ref? {
      queue := queue + [error];
    }
    var cause := Field(h, id, "cause");
    if cause.Ref? {
      queue := queue + [cause];
    }
    var details := Field(h, id, "details");
    if details.Ref? {
      var nested := Field(h, details.id, "error");
      if nested.Ref? {
        queue := queue + [nested];
      }
    }
  }

  /** What is known between two turns of the loop. */
  ghost predicate Walking(h: Heap, g: Graph, root: Value, seen: set<Id>, chain: seq<Id>, queue: seq<Value>,
                          depths: seq<nat>, due: seq<nat>) {
    Exploring(g, root, chain, depths, queue, due) && Lists(chain, seen) && seen <= h.Keys && OnHeap(h, queue)
  }

  lemma {:induction false} SkippingKeepsWalking(h: Heap, g: Graph, root: Value, seen: set<Id>, chain: seq<Id>,
                                                queue: seq<Value>, depths: seq<nat>, due: seq<nat>)
    requires Walking(h, g, root, seen, chain, queue, depths, due) && queue != []
    requires queue[0].Ref? ==> queue[0].id in seen
    ensures Walking(h, g, root, seen, chain, queue[1..], depths, due[1..])
  {
    SkippingKeepsCover(g, root, chain, depths, queue, due);
  }

  lemma {:induction false} VisitingKeepsWalking(h: Heap, g: Graph, root: Value, seen: set<Id>, chain: seq<Id>,
                                                queue: seq<Value>, depths: seq<nat>, due: seq<nat>, more: seq<Value>)
    requires Walking(h, g, root, seen, chain, queue, depths, due)
    requires queue != [] && queue[0].Ref? && queue[0].id !in seen
    requires more == g(queue[0].id) && OnHeap(h, more)
    ensures Walking(h, g, root, seen + {queue[0].id}, chain + [queue[0].id], queue[1..] + more, depths + [due[0]],
                    due[1..] + seq(|more|, _ => due[0] + 1))
    ensures |h.Keys - (seen + {queue[0].id})| < |h.Keys - seen|
  {
    VisitingKeepsExploring(g, root, chain, depths, queue, due);
    OneMoreSeen(h, chain, seen, queue[0].id);
    RestOnHeap(h, queue, more);
  }

  lemma {:induction false} RestOnHeap(h: Heap, queue: seq<Value>, more: seq<Value>)
    requires OnHeap(h, queue) && OnHeap(h, more) && queue != []
    ensures OnHeap(h, queue[1..] + more)
  {
  }

  lemma {:induction false} ChildrenListEdges(h: Heap, x: Id, n: nat) returns (edges: seq<Edge>)
    ensures ListsEdges(WaysOf(h), x, n, Children(h, x), edges)
  {
    var error, cause, details := Field(h, x, "error"), Field(h, x, "cause"), Field(h, x, "details");
    var nested := if details.Ref? then Field(h, details.id, "error") else Other;
    edges := (if error.Ref? then [Edge(n, 0)] else []) + (if cause.Ref? then [Edge(n, 1)] else [])
             + (if nested.Ref? then [Edge(n, 2)] else []);
    var more := Children(h, x);
    assert more == Pushed(error) + Pushed(cause) + Pushed(nested);
    assert nested.Ref? ==> Refers(h, x, "details", details.id) && Refers(h, details.id, "error", nested.id);
    forall way, y | WaysOf(h)(x, way, y) ensures WaitsBy(more, edges, Edge(n, way), y) {
      WayIsListed(h, x, n, way, y, more, edges);
    }
  }

  lemma {:induction false} WayIsListed(h: Heap, x: Id, n: nat, way: nat, y: Id, more: seq<Value>, edges: seq<Edge>)
    requires Leads(h, x, way, y) && |edges| == |more|
    requires var error, cause, details := Field(h, x, "error"), Field(h, x, "cause"), Field(h, x, "details");
             var nested := if details.Ref? then Field(h, details.id, "error") else Other;
             && more == Pushed(error) + Pushed(cause) + Pushed(nested)
             && edges == (if error.Ref? then [Edge(n, 0)] else []) + (if cause.Ref? then [Edge(n, 1)] else [])
                         + (if nested.Ref? then [Edge(n, 2)] else [])
    ensures WaitsBy(more, edges, Edge(n, way), y)
  {
    var first := if way == 0 then 0 else |Pushed(Field(h, x, "error"))|;
    var k := if way == 2 then |more| - 1 else first;
    assert more[k] == Ref(y) && edges[k] == Edge(n, way);
  }

  /** Between two turns: what has been reached, and in what order. */
  ghost predicate AtTurn(h: Heap, root: Value, seen: set<Id>, chain: seq<Id>, queue: seq<Value>, depths: seq<nat>,
                         due: seq<nat>, edges: seq<Edge>, from: seq<Edge>) {
    && Walking(h, Edges(h), root, seen, chain, queue, depths, due)
    && Discovering(WaysOf(h), root, chain, edges, queue, from)
  }

  lemma {:induction false} FirstTurn(h: Heap, root: Value)
    requires root.Ref? ==> root.id in h
    ensures AtTurn(h, root, {}, [], [root], [], [0], [], [ROOT_EDGE])
  {
    assert [root][0] == root;
  }

  lemma {:induction false} SkippingTurn(h: Heap, root: Value, seen: set<Id>, chain: seq<Id>, queue: seq<Value>,
                                        depths: seq<nat>, due: seq<nat>, edges: seq<Edge>, from: seq<Edge>)
    requires AtTurn(h, root, seen, chain, queue, depths, due, edges, from) && queue != []
    requires queue[0].Ref? ==> queue[0].id in seen
    ensures |due| == |queue| == |from|
    ensures AtTurn(h, root, seen, chain, queue[1..], depths, due[1..], edges, from[1..])
  {
    SkippingKeepsWalking(h, Edges(h), root, seen, chain, queue, depths, due);
    DiscoverySkips(WaysOf(h), root, chain, edges, queue, from);
  }

  lemma {:induction false} VisitingTurn(h: Heap, root: Value, seen: set<Id>, chain: seq<Id>, queue: seq<Value>,
                                        depths: seq<nat>, due: seq<nat>, edges: seq<Edge>, from: seq<Edge>,
                                        more: seq<Value>)
    returns (moreEdges: seq<Edge>)
    requires AtTurn(h, root, seen, chain, queue, depths, due, edges, from)
    requires queue != [] && queue[0].Ref? && queue[0].id !in seen
    requires more == Children(h, queue[0].id) && OnHeap(h, more)
    ensures |due| == |queue| == |from|
    ensures AtTurn(h, root, seen + {queue[0].id}, chain + [queue[0].id], queue[1..] + more, depths + [due[0]],
                   due[1..] + seq(|more|, _ => due[0] + 1), edges + [from[0]], from[1..] + moreEdges)
    ensures |h.Keys - (seen + {queue[0].id})| < |h.Keys - seen|
  {
    VisitingKeepsWalking(h, Edges(h), root, seen, chain, queue, depths, due, more);
    moreEdges := ChildrenListEdges(h, queue[0].id, |chain|);
    DiscoveryVisits(WaysOf(h), root, chain, edges, queue, from, more, moreEdges);
  }

  /** The reachable objects, each once, with their distances from the root, which never fall. */
  ghost predicate NearestFirst(h: Heap, root: Value, chain: seq<Id>, depths: seq<nat>) {
    && |depths| == |chain| && (forall x :: x in chain <==> Connected(h, root, x)) && Distinct(chain)
    && (forall k | 0 <= k < |chain| :: ShortestPath(h, root, chain[k], depths[k]))
    && forall i, j | 0 <= i < j < |chain| :: depths[i] <= depths[j]
  }

  lemma {:induction false} LastTurn(h: Heap, root: Value, seen: set<Id>, chain: seq<Id>, depths: seq<nat>,
                                    due: seq<nat>, edges: seq<Edge>, from: seq<Edge>)
    requires AtTurn(h, root, seen, chain, [], depths, due, edges, from)
    ensures NearestFirst(h, root, chain, depths) && Discovered(WaysOf(h), root, chain, edges)
  {
    assert due == [] && from == [];
    DepthsAreDistances(Edges(h), root, chain, depths);
    DistancesAreShortestPaths(h, root);
    DiscoveryEnds(WaysOf(h), root, chain, edges);
  }

  /**
  Terminates on every finite graph, however cyclic; lists exactly the objects that can be reached by `error`, `cause`
  and `details.error`, each once, nearest first, and in the one order in which they are discovered.
  */
  method CollectErrorChain(h: Heap, root: Value)
    returns (chain: seq<Id>, ghost depths: seq<nat>, ghost edges: seq<Edge>)
    requires Closed(h) && (root.Ref? ==> root.id in h)
    ensures NearestFirst(h, root, chain, depths) && Discovered(WaysOf(h), root, chain, edges)
  {
    var queue := [root];
    var seen: set<Id> := {};
    chain := [];
    ghost var due: seq<nat> := [0];
    ghost var from := [ROOT_EDGE];
    depths, edges := [], [];
    FirstTurn(h, root);
    while queue != []
      invariant AtTurn(h, root, seen, chain, queue, depths, due, edges, from)
      decreases |h.Keys - seen|, |queue|
    {
      var candidate := queue[0];
      if !candidate.Ref? || candidate.id in seen {
        SkippingTurn(h, root, seen, chain, queue, depths, due, edges, from);
        queue, due, from := queue[1..], due[1..], from[1..];
        continue;
      }
      var rest := PushChildren(h, candidate.id, queue[1..]);
      ghost var more := Children(h, candidate.id);
      ghost var moreEdges := VisitingTurn(h, root, seen, chain, queue, depths, due, edges, from, more);
      seen := seen + {candidate.id};
      chain, depths, edges := chain + [candidate.id], depths + [due[0]], edges + [from[0]];
      queue, due, from := rest, due[1..] + seq(|more|, _ => due[0] + 1), from[1..] + moreEdges;
    }
    LastTurn(h, root, seen, chain, depths, due, edges, from);
  }

  function NonEmptyText(v: Value): string {
    if v.TextValue? then Text.Trim(v.text) else ""
  }

  /** Field `name` of the object is a text that is not blank, and this is it without the white space around it. */
  ghost predicate Carries(h: Heap, x: Id, name: string, value: string) {
    && x in h && name in h[x] && h[x][name].TextValue?
    && value == Text.Trim(h[x][name].text) && value != ""
  }

  ghost predicate Silent(h: Heap, x: Id, name: string) {
    forall value :: !Carries(h, x, name, value)
  }

  lemma {:induction false} TextIsCarried(h: Heap, x: Id, name: string)
    ensures var value := NonEmptyText(Field(h, x, name));
            if value == "" then Silent(h, x, name) else Carries(h, x, name, value) && !Silent(h, x, name)
  {
  }

  ghost predicate SilentBefore(h: Heap, chain: seq<Id>, i: nat, name: string) {
    forall j | 0 <= j < i && j < |chain| :: Silent(h, chain[j], name)
  }

  /** The value is that of the first object of the chain that carries one, and empty if none does. */
  ghost predicate FirstCarried(h: Heap, chain: seq<Id>, name: string, value: string) {
    if value == "" then SilentBefore(h, chain, |chain|, name)
    else exists i: nat | i < |chain| :: Carries(h, chain[i], name, value) && SilentBefore(h, chain, i, name)
  }

  /**
  Empty exactly when no reachable object carries the field; otherwise an object carries the value that no object
  carrying any is nearer than.
  */
  lemma {:induction false} FirstCarriedIsNearest(h: Heap, root: Value, chain: seq<Id>, depths: seq<nat>, name: string,
                                                 value: string)
    requires NearestFirst(h, root, chain, depths) && FirstCarried(h, chain, name, value)
    ensures value == "" <==> forall x | Connected(h, root, x) :: Silent(h, x, name)
    ensures value != "" ==>
              exists x, d ::
                ShortestPath(h, root, x, d) && Carries(h, x, name, value) && NoneNearer(h, root, d, name)
  {
    if value == "" {
      forall x | Connected(h, root, x) ensures Silent(h, x, name) {
        assert x in chain;
      }
    } else {
      var i: nat :| i < |chain| && Carries(h, chain[i], name, value) && SilentBefore(h, chain, i, name);
      assert chain[i] in chain;
      forall y, e: nat | ShortestPath(h, root, y, e) && e < depths[i] ensures Silent(h, y, name) {
        assert Connected(h, root, y);
        var j :| 0 <= j < |chain| && chain[j] == y;
        assert ShortestPath(h, root, chain[j], depths[j]);
      }
      assert ShortestPath(h, root, chain[i], depths[i]) && NoneNearer(h, root, depths[i], name);
    }
  }

  ghost predicate NoneNearer(h: Heap, root: Value, d: nat, name: string) {
    forall y, e: nat | ShortestPath(h, root, y, e) && e < d :: Silent(h, y, name)
  }

  /** The trimmed text of the field in the first object, in the order of discovery, that has one. */
  method ReadErrorField(h: Heap, error: Value, name: string)
    returns (value: string, ghost chain: seq<Id>, ghost depths: seq<nat>, ghost edges: seq<Edge>)
    requires Closed(h) && (error.Ref? ==> error.id in h)
    ensures NearestFirst(h, error, chain, depths) && Discovered(WaysOf(h), error, chain, edges)
    ensures FirstCarried(h, chain, name, value)
    ensures value == "" <==> forall x | Connected(h, error, x) :: Silent(h, x, name)
  {
    var candidates: seq<Id>;
    candidates, depths, edges := CollectErrorChain(h, error);
    chain := candidates;
    for i := 0 to |candidates|
      invariant SilentBefore(h, chain, i, name)
    {
      value := NonEmptyText(Field(h, candidates[i], name));
      TextIsCarried(h, candidates[i], name);
      if |value| > 0 {
        assert Carries(h, chain[i], name, value);
        FirstCarriedIsNearest(h, error, chain, depths, name, value);
        return;
      }
    }
    value := "";
    FirstCarriedIsNearest(h, error, chain, depths, name, value);
  }
}
