/** Dependency graphs as the run engine sees them: a map from a model to its direct upstream models. */
module Graph {
  import opened Common

  type Id = string
  type DepMap = map<Id, seq<Id>>

  /** Reading a missing key of a Go map yields the empty slice. */
  function DepsOf(deps: DepMap, id: Id): seq<Id> {
    if id in deps then deps[id] else []
  }

  /** A walk along direct dependencies, from a model towards its upstream. */
  ghost predicate IsPath(deps: DepMap, p: seq<Id>) {
    |p| >= 1 && forall i | 0 <= i < |p| - 1 :: p[i + 1] in DepsOf(deps, p[i])
  }

  ghost predicate PathBetween(deps: DepMap, p: seq<Id>, a: Id, b: Id) {
    IsPath(deps, p) && p[0] == a && p[|p| - 1] == b
  }

  /** `up` is reached from `id` by one or more dependency edges. */
  ghost predicate Upstream(deps: DepMap, id: Id, up: Id) {
    exists p :: |p| >= 2 && PathBetween(deps, p, id, up)
  }

  ghost predicate Acyclic(deps: DepMap) {
    forall id :: !Upstream(deps, id, id)
  }

  /** No repetition, and every dependency of an element stands before it. */
  ghost predicate Topological(deps: DepMap, order: seq<Id>) {
    Distinct(order) &&
    forall i, d | 0 <= i < |order| && d in DepsOf(deps, order[i]) :: d in order[..i]
  }

  lemma DirectIsUpstream(deps: DepMap, a: Id, d: Id)
    requires d in DepsOf(deps, a)
    ensures Upstream(deps, a, d)
  {
    assert PathBetween(deps, [a, d], a, d);
  }

  lemma UpstreamTransitive(deps: DepMap, a: Id, b: Id, c: Id)
    requires Upstream(deps, a, b) && Upstream(deps, b, c)
    ensures Upstream(deps, a, c)
  {
    var p :| |p| >= 2 && PathBetween(deps, p, a, b);
    var q :| |q| >= 2 && PathBetween(deps, q, b, c);
    var r := p + q[1..];
    forall i | 0 <= i < |r| - 1
      ensures r[i + 1] in DepsOf(deps, r[i])
    {
      if i >= |p| - 1 {
        assert r[i + 1] == q[i + 1 - |p| + 1] && r[i] == q[i - |p| + 1];
      }
    }
    assert PathBetween(deps, r, a, c);
  }

  /** The first edge of an upstream walk. */
  lemma UpstreamFirst(deps: DepMap, a: Id, c: Id) returns (d: Id)
    requires Upstream(deps, a, c)
    ensures d in DepsOf(deps, a)
    ensures d == c || Upstream(deps, d, c)
  {
    var p :| |p| >= 2 && PathBetween(deps, p, a, c);
    d := p[1];
    if |p| > 2 {
      forall i | 0 <= i < |p[1..]| - 1
        ensures p[1..][i + 1] in DepsOf(deps, p[1..][i])
      {
        assert p[1 + i + 1] in DepsOf(deps, p[1 + i]);
      }
      assert PathBetween(deps, p[1..], d, c);
    }
  }

  /** In a topological order the whole upstream of an element stands before it. */
  lemma {:induction false} UpstreamStandsBefore(deps: DepMap, order: seq<Id>, i: nat, up: Id)
    requires Topological(deps, order) && i < |order|
    requires Upstream(deps, order[i], up)
    ensures up in order[..i]
    decreases i
  {
    var d := UpstreamFirst(deps, order[i], up);
    assert d in order[..i];
    if d != up {
      var j :| 0 <= j < i && order[j] == d;
      UpstreamStandsBefore(deps, order, j, up);
    }
  }

  /** A graph whose edges all start inside a topological order has no cycle. */
  lemma TopologicalIsAcyclic(deps: DepMap, order: seq<Id>)
    requires Topological(deps, order)
    requires forall id | DepsOf(deps, id) != [] :: id in order
    ensures Acyclic(deps)
  {
    forall id | Upstream(deps, id, id)
      ensures false
    {
      var d := UpstreamFirst(deps, id, id);
      assert id in order;
      var i :| 0 <= i < |order| && order[i] == id;
      UpstreamStandsBefore(deps, order, i, id);
    }
  }

  ghost predicate HasDepIn(deps: DepMap, id: Id, nodes: set<Id>) {
    exists d :: d in DepsOf(deps, id) && d in nodes
  }

  ghost predicate AllStuck(deps: DepMap, stuck: set<Id>) {
    forall u {:trigger HasDepIn(deps, u, stuck)} | u in stuck :: HasDepIn(deps, u, stuck)
  }

  /** If each of finitely many nodes depends on another one of them, a cycle runs inside them. */
  lemma StuckNodesHoldCycle(deps: DepMap, stuck: set<Id>)
    requires stuck != {}
    requires AllStuck(deps, stuck)
    ensures exists c :: c in stuck && Upstream(deps, c, c)
  {
    var u :| u in stuck;
    ExtendWalk(deps, stuck, [u]);
  }

  /** A walk that comes back to where it has been holds a cycle. */
  lemma CloseWalk(deps: DepMap, walk: seq<Id>, d: Id)
    requires IsPath(deps, walk) && |walk| >= 2 && walk[|walk| - 1] == d && d in walk[..|walk| - 1]
    ensures Upstream(deps, d, d)
  {
    var k :| 0 <= k < |walk| - 1 && walk[k] == d;
    var loop := walk[k..];
    forall i | 0 <= i < |loop| - 1
      ensures loop[i + 1] in DepsOf(deps, loop[i])
    {
      assert walk[k + i + 1] in DepsOf(deps, walk[k + i]);
    }
    assert PathBetween(deps, loop, d, d);
  }

  lemma {:induction false} ExtendWalk(deps: DepMap, stuck: set<Id>, walk: seq<Id>)
    requires AllStuck(deps, stuck)
    requires IsPath(deps, walk) && Distinct(walk) && Elems(walk) <= stuck
    ensures exists c :: c in stuck && Upstream(deps, c, c)
    decreases |stuck| - |walk|
  {
    DistinctCount(walk);
    SubsetSize(Elems(walk), stuck);
    var end := walk[|walk| - 1];
    assert end in Elems(walk);
    assert HasDepIn(deps, end, stuck);
    var d :| d in DepsOf(deps, end) && d in stuck;
    var longer := walk + [d];
    assert IsPath(deps, longer);
    if d in walk {
      CloseWalk(deps, longer, d);
    } else {
      DistinctCount(longer);
      assert Elems(longer) == Elems(walk) + {d};
      SubsetSize(Elems(longer), stuck);
      ExtendWalk(deps, stuck, longer);
    }
  }
}
