/** The dependency graph of a connection's models: construction, components, upstream closure. */
module Dag {
  import opened Common
  import opened Graph

  type RefMap = map<Id, seq<string>>
  type NameMap = map<string, Id>

  datatype DagError = UnknownRef(name: string) | SelfRef(name: string) | CycleDetected

  /** What the run engine supplies: distinct ids, references keyed by them, names standing for them. */
  ghost predicate Keyed(modelIDs: seq<Id>, refsByID: RefMap, nameToID: NameMap) {
    && Distinct(modelIDs)
    && refsByID.Keys <= Elems(modelIDs)
    && nameToID.Values <= Elems(modelIDs)
  }

  ghost predicate NamesKnown(names: seq<string>, nameToID: NameMap) {
    forall k | 0 <= k < |names| :: names[k] in nameToID
  }

  ghost predicate RefsKnown(refsByID: RefMap, nameToID: NameMap) {
    forall id | id in refsByID :: NamesKnown(refsByID[id], nameToID)
  }

  ghost function Resolved(names: seq<string>, nameToID: NameMap): seq<Id>
    requires NamesKnown(names, nameToID)
  {
    seq(|names|, k requires 0 <= k < |names| => nameToID[names[k]])
  }

  /** The dependencies the references stand for. */
  ghost function ResolvedDeps(refsByID: RefMap, nameToID: NameMap): DepMap
    requires RefsKnown(refsByID, nameToID)
  {
    map id | id in refsByID && refsByID[id] != [] :: Resolved(refsByID[id], nameToID)
  }

  /** The model set admits a run order. */
  ghost predicate Buildable(refsByID: RefMap, nameToID: NameMap) {
    RefsKnown(refsByID, nameToID) && Acyclic(ResolvedDeps(refsByID, nameToID))
  }

  /** `rev` lists exactly the edges of `deps`, turned round, with the same multiplicity. */
  ghost predicate Mirror(deps: DepMap, rev: DepMap) {
    forall a, b :: multiset(DepsOf(deps, a))[b] == multiset(DepsOf(rev, b))[a]
  }

  lemma MirrorAfterEdge(deps: DepMap, rev: DepMap, id: Id, depID: Id)
    requires Mirror(deps, rev)
    ensures Mirror(deps[id := DepsOf(deps, id) + [depID]], rev[depID := DepsOf(rev, depID) + [id]])
  {
    var deps' := deps[id := DepsOf(deps, id) + [depID]];
    var rev' := rev[depID := DepsOf(rev, depID) + [id]];
    forall a, b
      ensures multiset(DepsOf(deps', a))[b] == multiset(DepsOf(rev', b))[a]
    {
      AppendCount(DepsOf(deps, id), depID, b);
      AppendCount(DepsOf(rev, depID), id, a);
      assert multiset(DepsOf(deps, a))[b] == multiset(DepsOf(rev, b))[a];
    }
  }

  lemma AppendCount(s: seq<Id>, x: Id, y: Id)
    ensures multiset(s + [x])[y] == multiset(s)[y] + if x == y then 1 else 0
  {
  }

  // ---------------------------------------------------------------- Kahn's algorithm

  ghost predicate EdgesInside(deps: DepMap, ids: set<Id>) {
    forall id, d {:trigger d in DepsOf(deps, id)} | d in DepsOf(deps, id) :: id in ids && d in ids
  }

  /** How many entries of `s` are not placed yet. */
  ghost function Pending(s: seq<Id>, placed: set<Id>): nat {
    if s == [] then 0
    else Pending(s[..|s| - 1], placed) + if s[|s| - 1] in placed then 0 else 1
  }

  lemma {:induction false} PendingIsZero(s: seq<Id>, placed: set<Id>)
    ensures Pending(s, placed) == 0 <==> forall d | d in s :: d in placed
  {
    if s != [] {
      PendingIsZero(s[..|s| - 1], placed);
      assert s == s[..|s| - 1] + [s[|s| - 1]];
    }
  }

  lemma {:induction false} PendingOfNone(s: seq<Id>)
    ensures Pending(s, {}) == |s|
  {
    if s != [] { PendingOfNone(s[..|s| - 1]); }
  }

  lemma {:induction false} PendingAfterPlacing(s: seq<Id>, placed: set<Id>, c: Id)
    requires c !in placed
    ensures Pending(s, placed + {c}) == Pending(s, placed) - multiset(s)[c]
  {
    if s != [] {
      var init := s[..|s| - 1];
      PendingAfterPlacing(init, placed, c);
      assert s == init + [s[|s| - 1]];
    }
  }

  /** The bookkeeping of the in-degree map while the reverse edges of the last placed node are walked. */
  ghost predicate Counted(deps: DepMap, ids: set<Id>, inDegree: map<Id, int>, placed: set<Id>, walked: seq<Id>) {
    inDegree.Keys == ids &&
    forall x {:trigger inDegree[x]} | x in ids :: inDegree[x] == Pending(DepsOf(deps, x), placed) - multiset(walked)[x]
  }

  /** A node is listed exactly when nothing it waits for is left. */
  ghost predicate Ready(ids: set<Id>, inDegree: map<Id, int>, listed: seq<Id>) {
    && Distinct(listed) && Elems(listed) <= ids
    && inDegree.Keys == ids
    && forall x {:trigger inDegree[x]} {:trigger x in listed} | x in ids :: inDegree[x] == 0 <==> x in listed
  }

  lemma WalkedAll(deps: DepMap, rev: DepMap, ids: set<Id>, inDegree: map<Id, int>, placed: set<Id>, c: Id)
    requires Mirror(deps, rev) && c !in placed
    requires Counted(deps, ids, inDegree, placed, DepsOf(rev, c))
    ensures Counted(deps, ids, inDegree, placed + {c}, [])
  {
    forall x | x in ids
      ensures inDegree[x] == Pending(DepsOf(deps, x), placed + {c})
    {
      PendingAfterPlacing(DepsOf(deps, x), placed, c);
    }
  }

  /** The next reverse edge leads to a node that is still waiting. */
  lemma StillWaiting(deps: DepMap, rev: DepMap, ids: set<Id>, inDegree: map<Id, int>, placed: set<Id>, c: Id, k: nat)
    requires Mirror(deps, rev) && c !in placed && k < |DepsOf(rev, c)|
    requires DepsOf(rev, c)[k] in ids
    requires Counted(deps, ids, inDegree, placed, DepsOf(rev, c)[..k])
    ensures inDegree[DepsOf(rev, c)[k]] > 0
  {
    var x := DepsOf(rev, c)[k];
    PendingAfterPlacing(DepsOf(deps, x), placed, c);
    PrefixCount(DepsOf(rev, c), k);
    assert multiset(DepsOf(deps, x))[c] == multiset(DepsOf(rev, c))[x];
  }

  lemma PrefixCount(s: seq<Id>, k: nat)
    requires k < |s|
    ensures multiset(s[..k + 1]) == multiset(s[..k]) + multiset{s[k]}
    ensures multiset(s[..k])[s[k]] < multiset(s)[s[k]]
  {
    assert s[..k + 1] == s[..k] + [s[k]];
    assert s == s[..k + 1] + s[k + 1..];
  }

  lemma DownstreamInside(deps: DepMap, rev: DepMap, ids: set<Id>, c: Id, k: nat)
    requires Mirror(deps, rev) && EdgesInside(deps, ids) && k < |DepsOf(rev, c)|
    ensures DepsOf(rev, c)[k] in ids
  {
    var d := DepsOf(rev, c)[k];
    MirrorMembers(deps, rev, d, c);
    assert d in DepsOf(rev, c);
    assert c in DepsOf(deps, d);
    assert d in ids;
  }

  /** Walking one reverse edge lowers exactly the in-degree it leads to. */
  lemma CountOneMore(deps: DepMap, ids: set<Id>, inDegree: map<Id, int>, placed: set<Id>, edges: seq<Id>, k: nat)
    requires k < |edges| && edges[k] in ids
    requires Counted(deps, ids, inDegree, placed, edges[..k])
    ensures Counted(deps, ids, inDegree[edges[k] := inDegree[edges[k]] - 1], placed, edges[..k + 1])
  {
    PrefixCount(edges, k);
  }

  lemma WalkOneEdge(deps: DepMap, rev: DepMap, ids: set<Id>, inDegree: map<Id, int>, placed: set<Id>, c: Id, k: nat)
    requires Mirror(deps, rev) && EdgesInside(deps, ids) && c !in placed && k < |DepsOf(rev, c)|
    requires Counted(deps, ids, inDegree, placed, DepsOf(rev, c)[..k])
    ensures var d := DepsOf(rev, c)[k];
            && d in ids && inDegree[d] > 0
            && Counted(deps, ids, inDegree[d := inDegree[d] - 1], placed, DepsOf(rev, c)[..k + 1])
  {
    DownstreamInside(deps, rev, ids, c, k);
    StillWaiting(deps, rev, ids, inDegree, placed, c, k);
    CountOneMore(deps, ids, inDegree, placed, DepsOf(rev, c), k);
  }

  lemma AppendKeepsTopological(deps: DepMap, order: seq<Id>, c: Id)
    requires Topological(deps, order) && c !in order
    requires forall d | d in DepsOf(deps, c) :: d in order
    ensures Topological(deps, order + [c])
  {
    forall i, d | 0 <= i < |order + [c]| && d in DepsOf(deps, (order + [c])[i])
      ensures d in (order + [c])[..i]
    {
      if i < |order| {
        assert (order + [c])[..i] == order[..i];
      } else {
        assert (order + [c])[..i] == order;
      }
    }
  }

  /** When the queue runs dry before every node is placed, the nodes left over hold a cycle. */
  lemma LeftoverHoldsCycle(deps: DepMap, ids: set<Id>, inDegree: map<Id, int>, order: seq<Id>)
    requires Counted(deps, ids, inDegree, Elems(order), []) && Ready(ids, inDegree, order)
    requires EdgesInside(deps, ids)
    requires |order| != |ids|
    ensures HoldsCycle(deps, ids - Elems(order))
  {
    DistinctCount(order);
    var left := ids - Elems(order);
    SmallerLeaves(Elems(order), ids);
    LeftoverWaits(deps, ids, inDegree, order);
    StuckNodesHoldCycle(deps, left);
  }

  lemma LeftoverWaits(deps: DepMap, ids: set<Id>, inDegree: map<Id, int>, order: seq<Id>)
    requires Counted(deps, ids, inDegree, Elems(order), []) && Ready(ids, inDegree, order)
    requires EdgesInside(deps, ids)
    ensures AllStuck(deps, ids - Elems(order))
  {
    forall u | u in ids - Elems(order)
      ensures HasDepIn(deps, u, ids - Elems(order))
    {
      PendingIsZero(DepsOf(deps, u), Elems(order));
      var d :| d in DepsOf(deps, u) && d !in Elems(order);
      assert d in ids - Elems(order);
    }
  }

  lemma PlacedAll(deps: DepMap, modelIDs: seq<Id>, order: seq<Id>)
    requires Distinct(modelIDs) && Topological(deps, order)
    requires Elems(order) <= Elems(modelIDs) && |order| == |modelIDs|
    requires deps.Keys <= Elems(modelIDs)
    ensures Elems(order) == Elems(modelIDs) && Acyclic(deps)
  {
    DistinctCount(modelIDs);
    DistinctCovers(order, Elems(modelIDs));
    forall id | DepsOf(deps, id) != []
      ensures id in order
    {
      assert id in Elems(modelIDs);
      assert id in Elems(order);
    }
    TopologicalIsAcyclic(deps, order);
  }

  lemma SelfRefIsCycle(refsByID: RefMap, nameToID: NameMap, id: Id, k: nat)
    requires id in refsByID && k < |refsByID[id]|
    requires refsByID[id][k] in nameToID && nameToID[refsByID[id][k]] == id
    ensures !Buildable(refsByID, nameToID)
  {
    if RefsKnown(refsByID, nameToID) {
      var deps := ResolvedDeps(refsByID, nameToID);
      assert DepsOf(deps, id)[k] == id;
      DirectIsUpstream(deps, id, id);
    }
  }

  /** The head of the queue waits for nothing and is not placed yet. */
  lemma HeadIsReady(deps: DepMap, ids: set<Id>, inDegree: map<Id, int>, order: seq<Id>, queue: seq<Id>)
    requires queue != [] && Ready(ids, inDegree, order + queue) && Counted(deps, ids, inDegree, Elems(order), [])
    ensures queue[0] !in order && queue[0] in ids
    ensures forall d | d in DepsOf(deps, queue[0]) :: d in order
    ensures Ready(ids, inDegree, (order + [queue[0]]) + queue[1..])
  {
    PendingIsZero(DepsOf(deps, queue[0]), Elems(order));
    var listed := order + queue;
    assert listed[|order|] == queue[0];
    assert queue[0] in Elems(listed);
    assert forall k | 0 <= k < |order| :: listed[k] == order[k];
    assert listed == (order + [queue[0]]) + queue[1..];
  }

  /** The state of Kahn's algorithm between two rounds. */
  ghost predicate Sorting(deps: DepMap, ids: set<Id>, inDegree: map<Id, int>, order: seq<Id>, queue: seq<Id>) {
    && Topological(deps, order)
    && Counted(deps, ids, inDegree, Elems(order), [])
    && Ready(ids, inDegree, order + queue)
  }

  lemma StartSorting(deps: DepMap, ids: set<Id>, inDegree: map<Id, int>, queue: seq<Id>)
    requires Counted(deps, ids, inDegree, {}, []) && Ready(ids, inDegree, queue)
    ensures Sorting(deps, ids, inDegree, [], queue)
  {
    assert [] + queue == queue;
    var none: seq<Id> := [];
    assert Elems(none) == {};
  }

  ghost predicate HoldsCycle(deps: DepMap, nodes: set<Id>) {
    exists c :: c in nodes && Upstream(deps, c, c)
  }

  lemma PlacedFits(ids: set<Id>, order: seq<Id>, queue: seq<Id>)
    requires Distinct(order + queue) && Elems(order + queue) <= ids
    ensures |order| <= |ids|
  {
    assert order == (order + queue)[..|order|];
    assert forall x | x in order :: x in Elems(order + queue);
    DistinctCount(order);
    SubsetSize(Elems(order), ids);
  }

  ghost predicate DegreesMatch(deps: DepMap, ids: set<Id>, inDegree: map<Id, int>) {
    inDegree.Keys == ids && forall x | x in ids :: inDegree[x] == |DepsOf(deps, x)|
  }

  lemma DegreesCount(deps: DepMap, ids: set<Id>, inDegree: map<Id, int>)
    requires DegreesMatch(deps, ids, inDegree)
    ensures Counted(deps, ids, inDegree, {}, [])
  {
    forall x | x in ids
      ensures inDegree[x] == Pending(DepsOf(deps, x), {}) - multiset([])[x]
    {
      PendingOfNone(DepsOf(deps, x));
    }
  }

  lemma AllLinked(refsByID: RefMap, done: RefMap, nameToID: NameMap, deps: DepMap, ids: set<Id>, inDegree: map<Id, int>)
    requires done == refsByID - {} && Linked(done, nameToID, deps, ids, inDegree)
    ensures RefsKnown(refsByID, nameToID) && deps == ResolvedDeps(refsByID, nameToID)
    ensures Counted(deps, ids, inDegree, {}, [])
  {
    assert done == refsByID;
    DegreesCount(deps, ids, inDegree);
  }

  lemma NoneLinked(refsByID: RefMap, nameToID: NameMap, modelIDs: seq<Id>)
    ensures map[] == refsByID - refsByID.Keys
    ensures Linked(map[], nameToID, map[], Elems(modelIDs), map id | id in modelIDs :: 0)
  {
  }

  lemma KeepOneMore(refsByID: RefMap, todo: set<Id>, id: Id)
    requires id in todo && id in refsByID
    ensures (refsByID - todo)[id := refsByID[id]] == refsByID - (todo - {id})
  {
  }

  /** The edges of the models in `done` are in place. */
  ghost predicate Linked(done: RefMap, nameToID: NameMap, deps: DepMap, ids: set<Id>, inDegree: map<Id, int>) {
    && RefsKnown(done, nameToID) && deps == ResolvedDeps(done, nameToID)
    && DegreesMatch(deps, ids, inDegree)
  }

  /** Linking one more model, if its references are known, extends the resolved dependencies by its entry. */
  lemma LinkOneMore(done: RefMap, nameToID: NameMap, deps: DepMap, id: Id, refNames: seq<string>, ids: set<Id>,
                    degrees: map<Id, int>)
    requires Linked(done, nameToID, deps, ids, degrees) && id !in done && id in ids
    ensures id !in deps && degrees[id] == 0
    ensures NamesKnown(refNames, nameToID) ==>
              Linked(done[id := refNames], nameToID,
                     if refNames == [] then deps else deps[id := Resolved(refNames, nameToID)],
                     ids, degrees[id := |refNames|])
  {
    if NamesKnown(refNames, nameToID) {
      ResolveOneMore(done, nameToID, id, refNames);
      DegreeOneMore(deps, ids, degrees, id, Resolved(refNames, nameToID));
    }
  }

  lemma ResolveOneMore(done: RefMap, nameToID: NameMap, id: Id, refNames: seq<string>)
    requires RefsKnown(done, nameToID) && id !in done && NamesKnown(refNames, nameToID)
    ensures RefsKnown(done[id := refNames], nameToID)
    ensures var deps := ResolvedDeps(done, nameToID);
            ResolvedDeps(done[id := refNames], nameToID) ==
            if refNames == [] then deps else deps[id := Resolved(refNames, nameToID)]
  {
  }

  lemma DegreeOneMore(deps: DepMap, ids: set<Id>, degrees: map<Id, int>, id: Id, more: seq<Id>)
    requires DegreesMatch(deps, ids, degrees) && id in ids && id !in deps
    ensures DegreesMatch(if more == [] then deps else deps[id := more], ids, degrees[id := |more|])
  {
  }

  /** A reference the linking loop stops at. */
  ghost predicate BadRef(id: Id, refName: string, nameToID: NameMap, e: DagError) {
    || (e == UnknownRef(refName) && refName !in nameToID)
    || (e == SelfRef(refName) && refName in nameToID && nameToID[refName] == id)
  }

  /** The reported reference problem exists in the input, and rules out a run order. */
  ghost predicate RefError(refsByID: RefMap, nameToID: NameMap, e: DagError) {
    && !Buildable(refsByID, nameToID)
    && (e.UnknownRef? || e.SelfRef?)
    && exists id, k :: id in refsByID && 0 <= k < |refsByID[id]| && BadRef(id, refsByID[id][k], nameToID, e)
  }

  lemma BadRefIsGenuine(refsByID: RefMap, nameToID: NameMap, id: Id, e: DagError)
    requires id in refsByID
    requires exists k :: 0 <= k < |refsByID[id]| && BadRef(id, refsByID[id][k], nameToID, e)
    ensures RefError(refsByID, nameToID, e)
  {
    var k :| 0 <= k < |refsByID[id]| && BadRef(id, refsByID[id][k], nameToID, e);
    if e.SelfRef? { SelfRefIsCycle(refsByID, nameToID, id, k); }
  }

  // ---------------------------------------------------------------- components

  ghost predicate Adjacent(deps: DepMap, a: Id, b: Id) {
    b in DepsOf(deps, a) || a in DepsOf(deps, b)
  }

  ghost predicate IsTrail(deps: DepMap, p: seq<Id>, a: Id, b: Id) {
    |p| >= 1 && p[0] == a && p[|p| - 1] == b &&
    forall i | 0 <= i < |p| - 1 :: Adjacent(deps, p[i], p[i + 1])
  }

  /** An undirected dependency path joins `a` and `b`. */
  ghost predicate Joined(deps: DepMap, a: Id, b: Id) {
    exists p :: IsTrail(deps, p, a, b)
  }

  lemma JoinedSelf(deps: DepMap, a: Id)
    ensures Joined(deps, a, a)
  {
    assert IsTrail(deps, [a], a, a);
  }

  lemma JoinedStep(deps: DepMap, a: Id, b: Id, c: Id)
    requires Joined(deps, a, b) && Adjacent(deps, b, c)
    ensures Joined(deps, a, c)
  {
    var p :| IsTrail(deps, p, a, b);
    assert IsTrail(deps, p + [c], a, c);
  }

  lemma JoinedSymmetric(deps: DepMap, a: Id, b: Id)
    requires Joined(deps, a, b)
    ensures Joined(deps, b, a)
  {
    var p :| IsTrail(deps, p, a, b);
    var q := seq(|p|, i requires 0 <= i < |p| => p[|p| - 1 - i]);
    forall i | 0 <= i < |q| - 1
      ensures Adjacent(deps, q[i], q[i + 1])
    {
      var k := |p| - 2 - i;
      assert Adjacent(deps, p[k], p[k + 1]);
    }
    assert IsTrail(deps, q, b, a);
  }

  lemma JoinedTransitive(deps: DepMap, a: Id, b: Id, c: Id)
    requires Joined(deps, a, b) && Joined(deps, b, c)
    ensures Joined(deps, a, c)
  {
    var p :| IsTrail(deps, p, a, b);
    var q :| IsTrail(deps, q, b, c);
    var r := p + q[1..];
    forall i | 0 <= i < |r| - 1
      ensures Adjacent(deps, r[i], r[i + 1])
    {
      if i < |p| - 1 {
        assert Adjacent(deps, p[i], p[i + 1]);
      } else {
        var k := i - |p| + 1;
        assert Adjacent(deps, q[k], q[k + 1]);
        assert r[i + 1] == q[k + 1] && r[i] == q[k];
      }
    }
    assert IsTrail(deps, r, a, c);
  }

  ghost predicate ClosedUnderAdjacency(deps: DepMap, s: set<Id>) {
    forall a, b | a in s && Adjacent(deps, a, b) :: b in s
  }

  /** A trail that starts in a closed set never leaves it. */
  lemma JoinedStaysInside(deps: DepMap, s: set<Id>, a: Id, b: Id)
    requires ClosedUnderAdjacency(deps, s) && a in s && Joined(deps, a, b)
    ensures b in s
  {
    var p :| IsTrail(deps, p, a, b);
    for i := 0 to |p| - 1
      invariant p[i] in s
    {
      assert Adjacent(deps, p[i], p[i + 1]);
    }
  }

  /** A node joined to an unvisited start is not in a visited closed set. */
  lemma SeenIsElsewhere(deps: DepMap, seen: set<Id>, start: Id, cur: Id)
    requires ClosedUnderAdjacency(deps, seen) && start !in seen && Joined(deps, start, cur)
    ensures cur !in seen
  {
    if cur in seen {
      JoinedSymmetric(deps, start, cur);
      JoinedStaysInside(deps, seen, cur, start);
    }
  }

  /** One independent pipeline: a whole class of joined models, in the order of `order`. */
  ghost predicate IsComponent(deps: DepMap, order: seq<Id>, comp: seq<Id>) {
    && comp != []
    && comp == Filter(order, Elems(comp))
    && forall a, b | a in comp && b in order :: b in comp <==> Joined(deps, a, b)
  }

  ghost predicate Listed(comps: seq<seq<Id>>, id: Id) {
    exists k :: 0 <= k < |comps| && id in comps[k]
  }

  /** The components partition the order. */
  ghost predicate AreComponents(deps: DepMap, order: seq<Id>, comps: seq<seq<Id>>) {
    && (forall k | 0 <= k < |comps| :: IsComponent(deps, order, comps[k]))
    && (forall id | id in order :: Listed(comps, id))
    && (forall k, l, id | 0 <= k < l < |comps| :: !(id in comps[k] && id in comps[l]))
  }

  /** Components found so far: disjoint, and listing exactly the visited models. */
  ghost predicate Grouped(deps: DepMap, order: seq<Id>, visited: set<Id>, comps: seq<seq<Id>>) {
    && (forall id :: id in visited <==> Listed(comps, id))
    && (forall k | 0 <= k < |comps| :: IsComponent(deps, order, comps[k]))
    && (forall k, l, id | 0 <= k < l < |comps| :: !(id in comps[k] && id in comps[l]))
  }

  /** Dependencies stay among the listed models. */
  ghost predicate Closed(deps: DepMap, order: seq<Id>) {
    forall id | DepsOf(deps, id) != [] :: id in order
  }

  /** A breadth-first search that has run dry has found the whole class of its start. */
  lemma SearchFoundClass(deps: DepMap, order: seq<Id>, start: Id, found: set<Id>)
    requires Topological(deps, order) && Closed(deps, order)
    requires start in found && found <= Elems(order) && ClosedUnderAdjacency(deps, found)
    requires forall c | c in found :: Joined(deps, start, c)
    ensures IsComponent(deps, order, Filter(order, found))
  {
    var comp := Filter(order, found);
    assert start in comp;
    assert Elems(comp) == found;
    forall a, b | a in comp && b in order
      ensures b in comp <==> Joined(deps, a, b)
    {
      JoinedSymmetric(deps, start, a);
      if b in comp { JoinedTransitive(deps, a, start, b); }
      if Joined(deps, a, b) { JoinedStaysInside(deps, found, a, b); }
    }
  }

  /** Keeping a dependency-closed part of a topological order leaves a topological order. */
  lemma {:induction false} FilterKeepsTopological(deps: DepMap, order: seq<Id>, keep: set<Id>)
    requires Topological(deps, order)
    requires forall id, d | id in order && id in keep && d in DepsOf(deps, id) :: d in keep
    ensures Topological(deps, Filter(order, keep))
  {
    if order != [] {
      var init, last := order[..|order| - 1], order[|order| - 1];
      forall i, d | 0 <= i < |init| && d in DepsOf(deps, init[i])
        ensures d in init[..i]
      {
        assert order[i] == init[i] && order[..i] == init[..i];
      }
      FilterKeepsTopological(deps, init, keep);
      if last in keep {
        forall d | d in DepsOf(deps, last)
          ensures d in Filter(init, keep)
        {
          assert order[|order| - 1] == last && d in order[..|order| - 1];
        }
        AppendKeepsTopological(deps, Filter(init, keep), last);
      }
    }
  }

  /** A component keeps every direct dependency and dependent of its members, and is itself a run order. */
  lemma ComponentIsRunOrder(deps: DepMap, order: seq<Id>, comp: seq<Id>)
    requires Topological(deps, order) && Closed(deps, order) && IsComponent(deps, order, comp)
    ensures Topological(deps, comp)
    ensures ClosedUnderAdjacency(deps, Elems(comp))
  {
    forall a, b | a in Elems(comp) && Adjacent(deps, a, b)
      ensures b in Elems(comp)
    {
      JoinedSelf(deps, a);
      JoinedStep(deps, a, a, b);
      AdjacentIsListed(deps, order, a, b);
    }
    FilterKeepsTopological(deps, order, Elems(comp));
  }

  lemma AdjacentIsListed(deps: DepMap, order: seq<Id>, a: Id, b: Id)
    requires Topological(deps, order) && Closed(deps, order) && Adjacent(deps, a, b)
    ensures a in order && b in order
  {
    if b in DepsOf(deps, a) {
      var i :| 0 <= i < |order| && order[i] == a;
      assert b in order[..i];
    } else {
      var i :| 0 <= i < |order| && order[i] == b;
      assert a in order[..i];
    }
  }

  lemma MirrorMembers(deps: DepMap, rev: DepMap, a: Id, b: Id)
    requires Mirror(deps, rev)
    ensures b in DepsOf(deps, a) <==> a in DepsOf(rev, b)
  {
    assert multiset(DepsOf(deps, a))[b] == multiset(DepsOf(rev, b))[a];
    assert b in DepsOf(deps, a) <==> b in multiset(DepsOf(deps, a));
    assert a in DepsOf(rev, b) <==> a in multiset(DepsOf(rev, b));
  }

  lemma ListedOneMore(comps: seq<seq<Id>>, comp: seq<Id>)
    ensures forall x :: Listed(comps + [comp], x) <==> Listed(comps, x) || x in comp
  {
    var longer := comps + [comp];
    forall x
      ensures Listed(longer, x) <==> Listed(comps, x) || x in comp
    {
      if Listed(comps, x) {
        var c :| 0 <= c < |comps| && x in comps[c];
        assert x in longer[c];
      }
      if x in comp { assert x in longer[|comps|]; }
    }
  }

  lemma GroupedOneMore(deps: DepMap, order: seq<Id>, visited: set<Id>, comps: seq<seq<Id>>, comp: seq<Id>,
                       found: set<Id>)
    requires Grouped(deps, order, visited, comps) && IsComponent(deps, order, comp)
    requires found !! visited && forall id :: id in comp <==> id in found
    ensures Grouped(deps, order, visited + found, comps + [comp])
  {
    ListedOneMore(comps, comp);
    var longer := comps + [comp];
    forall k, l, id | 0 <= k < l < |longer|
      ensures !(id in longer[k] && id in longer[l])
    {
      if l == |comps| && id in longer[k] {
        assert Listed(comps, id);
      }
    }
  }

  /** The elements of `order` that are in `keep`, in order. */
  method Select(order: seq<Id>, keep: set<Id>) returns (kept: seq<Id>)
    ensures kept == Filter(order, keep)
  {
    kept := [];
    for k := 0 to |order|
      invariant kept == Filter(order[..k], keep)
    {
      assert order[..k + 1][..k] == order[..k];
      if order[k] in keep {
        kept := kept + [order[k]];
      }
    }
    assert order[..|order|] == order;
  }

  /** The dependencies once the first `k` references of a model have become edges. */
  ghost predicate LinkedUpTo(before: DepMap, id: Id, refNames: seq<string>, k: int, nameToID: NameMap, deps: DepMap)
    requires 0 <= k <= |refNames|
  {
    && NamesKnown(refNames[..k], nameToID)
    && deps == if k == 0 then before else before[id := Resolved(refNames[..k], nameToID)]
  }

  lemma NextReference(before: DepMap, id: Id, refNames: seq<string>, k: nat, nameToID: NameMap, deps: DepMap)
    requires k < |refNames| && LinkedUpTo(before, id, refNames, k, nameToID, deps)
    requires id !in before && refNames[k] in nameToID
    ensures LinkedUpTo(before, id, refNames, k + 1, nameToID, deps[id := DepsOf(deps, id) + [nameToID[refNames[k]]]])
  {
    assert refNames[..k + 1] == refNames[..k] + [refNames[k]];
    assert Resolved(refNames[..k + 1], nameToID) == Resolved(refNames[..k], nameToID) + [nameToID[refNames[k]]];
  }

  // ---------------------------------------------------------------- the graph object

  class DepGraph {
    var order: seq<Id>
    var deps: DepMap
    var revDeps: DepMap

    ghost predicate Valid()
      reads this
    {
      && Topological(deps, order)
      && Closed(deps, order)
      && Mirror(deps, revDeps)
    }

    constructor ()
      ensures order == [] && deps == map[] && revDeps == map[]
    {
      order, deps, revDeps := [], map[], map[];
    }

    method AddEdge(id: Id, depID: Id)
      requires Mirror(deps, revDeps)
      modifies this`deps, this`revDeps
      ensures deps == old(deps)[id := DepsOf(old(deps), id) + [depID]]
      ensures Mirror(deps, revDeps)
    {
      MirrorAfterEdge(deps, revDeps, id, depID);
      deps := deps[id := DepsOf(deps, id) + [depID]];
      revDeps := revDeps[depID := DepsOf(revDeps, depID) + [id]];
    }

    /** Adds the edges of one model. */
    method LinkModel(id: Id, refNames: seq<string>, nameToID: NameMap, degrees: map<Id, int>)
      returns (inDegree: map<Id, int>, err: Option<DagError>)
      requires Mirror(deps, revDeps) && id !in deps && id in degrees && degrees[id] == 0
      modifies this`deps, this`revDeps
      ensures err.None? ==>
                && NamesKnown(refNames, nameToID)
                && deps == (if refNames == [] then old(deps) else old(deps)[id := Resolved(refNames, nameToID)])
                && Mirror(deps, revDeps)
                && inDegree == degrees[id := |refNames|]
      ensures err.Some? ==> exists k :: 0 <= k < |refNames| && BadRef(id, refNames[k], nameToID, err.value)
    {
      err := None;
      inDegree := degrees;
      ghost var before := deps;
      for k := 0 to |refNames|
        invariant LinkedUpTo(before, id, refNames, k, nameToID, deps)
        invariant Mirror(deps, revDeps)
        invariant inDegree == degrees[id := k]
      {
        var refName := refNames[k];
        if refName !in nameToID {
          assert BadRef(id, refNames[k], nameToID, UnknownRef(refName));
          return inDegree, Some(UnknownRef(refName));
        }
        var depID := nameToID[refName];
        if depID == id {
          assert BadRef(id, refNames[k], nameToID, SelfRef(refName));
          return inDegree, Some(SelfRef(refName));
        }
        NextReference(before, id, refNames, k, nameToID, deps);
        AddEdge(id, depID);
        inDegree := inDegree[id := inDegree[id] + 1];
      }
      assert refNames[..|refNames|] == refNames;
    }

    /** Turns the references into edges. The keys of the reference map come in an arbitrary order. */
    method Link(modelIDs: seq<Id>, refsByID: RefMap, nameToID: NameMap)
      returns (inDegree: map<Id, int>, err: Option<DagError>)
      requires Keyed(modelIDs, refsByID, nameToID)
      requires deps == map[] && revDeps == map[]
      modifies this`deps, this`revDeps
      ensures err.None? ==>
                && RefsKnown(refsByID, nameToID)
                && deps == ResolvedDeps(refsByID, nameToID) && Mirror(deps, revDeps)
                && Counted(deps, Elems(modelIDs), inDegree, {}, [])
      ensures err.Some? ==> RefError(refsByID, nameToID, err.value)
    {
      err := None;
      inDegree := map id | id in modelIDs :: 0;
      var todo := refsByID.Keys;
      ghost var done: RefMap := map[];
      NoneLinked(refsByID, nameToID, modelIDs);
      while todo != {}
        invariant err.None?
        invariant todo <= refsByID.Keys && done == refsByID - todo
        invariant Mirror(deps, revDeps)
        invariant Linked(done, nameToID, deps, Elems(modelIDs), inDegree)
      {
        var id :| id in todo;
        LinkOneMore(done, nameToID, deps, id, refsByID[id], Elems(modelIDs), inDegree);
        inDegree, err := LinkModel(id, refsByID[id], nameToID, inDegree);
        if err.Some? {
          BadRefIsGenuine(refsByID, nameToID, id, err.value);
          return;
        }
        KeepOneMore(refsByID, todo, id);
        done := done[id := refsByID[id]];
        todo := todo - {id};
      }
      AllLinked(refsByID, done, nameToID, deps, Elems(modelIDs), inDegree);
    }

    /** Lowers the in-degree of everything downstream of `curr` and queues what became ready. */
    method Release(curr: Id, ghost ids: set<Id>, ghost placed: set<Id>, ghost listed: seq<Id>,
                   degrees: map<Id, int>, waiting: seq<Id>)
      returns (inDegree: map<Id, int>, queue: seq<Id>)
      requires Mirror(deps, revDeps) && curr !in placed
      requires EdgesInside(deps, ids)
      requires Counted(deps, ids, degrees, placed, []) && Ready(ids, degrees, listed + waiting)
      ensures Counted(deps, ids, inDegree, placed + {curr}, []) && Ready(ids, inDegree, listed + queue)
    {
      inDegree, queue := degrees, waiting;
      var downstream := DepsOf(revDeps, curr);
      assert downstream[..0] == [];
      for k := 0 to |downstream|
        invariant Counted(deps, ids, inDegree, placed, downstream[..k])
        invariant Ready(ids, inDegree, listed + queue)
      {
        var d := downstream[k];
        WalkOneEdge(deps, revDeps, ids, inDegree, placed, curr, k);
        inDegree := inDegree[d := inDegree[d] - 1];
        if inDegree[d] == 0 {
          assert listed + (queue + [d]) == (listed + queue) + [d];
          queue := queue + [d];
        }
      }
      assert downstream[..|downstream|] == downstream;
      WalkedAll(deps, revDeps, ids, inDegree, placed, curr);
    }

    /** The models that wait for nothing, in input order. */
    static method Roots(modelIDs: seq<Id>, inDegree: map<Id, int>) returns (queue: seq<Id>)
      requires Distinct(modelIDs) && inDegree.Keys == Elems(modelIDs)
      ensures Ready(Elems(modelIDs), inDegree, queue)
    {
      queue := [];
      for k := 0 to |modelIDs|
        invariant Distinct(queue)
        invariant forall x :: x in queue <==> x in modelIDs[..k] && inDegree[x] == 0
      {
        if inDegree[modelIDs[k]] == 0 {
          queue := queue + [modelIDs[k]];
        }
      }
      assert modelIDs[..|modelIDs|] == modelIDs;
    }

    /** One round of Kahn's algorithm: the head of the queue is placed. */
    method PlaceHead(ghost ids: set<Id>, degrees: map<Id, int>, waiting: seq<Id>)
      returns (inDegree: map<Id, int>, queue: seq<Id>)
      requires waiting != [] && Mirror(deps, revDeps) && EdgesInside(deps, ids)
      requires Sorting(deps, ids, degrees, order, waiting)
      modifies this`order
      ensures Sorting(deps, ids, inDegree, order, queue)
      ensures |order| == |old(order)| + 1
    {
      var curr := waiting[0];
      HeadIsReady(deps, ids, degrees, order, waiting);
      AppendKeepsTopological(deps, order, curr);
      ElemsAppend(order, curr);
      ghost var placed := Elems(order);
      order := order + [curr];
      inDegree, queue := Release(curr, ids, placed, order, degrees, waiting[1..]);
    }

    /** Kahn's algorithm over the linked edges. */
    method Sort(modelIDs: seq<Id>, degrees: map<Id, int>)
      requires Distinct(modelIDs) && Mirror(deps, revDeps)
      requires EdgesInside(deps, Elems(modelIDs))
      requires Counted(deps, Elems(modelIDs), degrees, {}, [])
      modifies this`order
      ensures Topological(deps, order) && Elems(order) <= Elems(modelIDs)
      ensures |order| != |modelIDs| ==> HoldsCycle(deps, Elems(modelIDs) - Elems(order))
    {
      ghost var ids := Elems(modelIDs);
      var inDegree := degrees;
      var queue := Roots(modelIDs, inDegree);
      order := [];
      StartSorting(deps, ids, inDegree, queue);
      while |queue| > 0
        invariant Sorting(deps, ids, inDegree, order, queue)
        decreases |ids| - |order|
      {
        inDegree, queue := PlaceHead(ids, inDegree, queue);
        PlacedFits(ids, order, queue);
      }
      assert order + queue == order;
      DistinctCount(modelIDs);
      if |order| != |modelIDs| {
        LeftoverHoldsCycle(deps, ids, inDegree, order);
      }
    }

    /** Groups of joined models, each in run order. */
    method ConnectedComponents() returns (components: seq<seq<Id>>)
      requires Valid()
      ensures AreComponents(deps, order, components)
    {
      var all := set id | id in order;
      var visited: set<Id> := {};
      components := [];
      for k := 0 to |order|
        invariant visited <= all && ClosedUnderAdjacency(deps, visited)
        invariant forall id | id in order[..k] :: id in visited
        invariant Grouped(deps, order, visited, components)
      {
        var id := order[k];
        if id in visited { continue; }
        var component := Search(id, all, visited);
        SearchFoundClass(deps, order, id, component);
        var ordered := Select(order, component);
        assert forall x :: x in ordered <==> x in component;
        GroupedOneMore(deps, order, visited, components, ordered, component);
        visited := visited + component;
        components := components + [ordered];
      }
    }

    /** Breadth-first search over dependencies and dependents; a node may be queued several times. */
    method Search(start: Id, all: set<Id>, seen: set<Id>) returns (component: set<Id>)
      requires Valid() && all == Elems(order)
      requires start in all && start !in seen && seen <= all && ClosedUnderAdjacency(deps, seen)
      ensures start in component && component <= all && component !! seen
      ensures ClosedUnderAdjacency(deps, component)
      ensures forall c | c in component :: Joined(deps, start, c)
    {
      component := {};
      var queue := [start];
      JoinedSelf(deps, start);
      while |queue| > 0
        invariant component <= all && component !! seen
        invariant forall c | c in component :: Joined(deps, start, c)
        invariant forall q | q in queue :: q in all && Joined(deps, start, q)
        invariant start in component || start in queue
        invariant forall c, n | c in component && Adjacent(deps, c, n) :: n in component || n in queue
        decreases all - component, |queue|
      {
        var cur := queue[0];
        ghost var pending := queue;
        queue := queue[1..];
        assert pending == [cur] + queue;
        SeenIsElsewhere(deps, seen, start, cur);
        if cur in seen || cur in component {
          continue;
        }
        component := component + {cur};
        ghost var rest := queue;
        queue := Enqueue(start, all, seen + component, queue, cur, DepsOf(deps, cur));
        queue := Enqueue(start, all, seen + component, queue, cur, DepsOf(revDeps, cur));
        forall c, n | c in component && Adjacent(deps, c, n)
          ensures n in component || n in queue
        {
          if c == cur {
            MirrorMembers(deps, revDeps, n, cur);
            AdjacentIsListed(deps, order, cur, n);
            if n in seen {
              assert Adjacent(deps, n, cur);
            }
          } else {
            assert n in component || n in rest;
          }
        }
      }
    }

    method Enqueue(start: Id, all: set<Id>, visited: set<Id>, queue: seq<Id>, cur: Id, neighbours: seq<Id>)
      returns (longer: seq<Id>)
      requires Joined(deps, start, cur)
      requires forall n | n in neighbours :: Adjacent(deps, cur, n)
      requires forall q | q in queue :: q in all && Joined(deps, start, q)
      ensures forall q | q in longer :: q in all && Joined(deps, start, q)
      ensures forall q | q in queue :: q in longer
      ensures forall n | n in neighbours && n !in visited && n in all :: n in longer
    {
      longer := queue;
      for k := 0 to |neighbours|
        invariant forall q | q in longer :: q in all && Joined(deps, start, q)
        invariant forall q | q in queue :: q in longer
        invariant forall n | n in neighbours[..k] && n !in visited && n in all :: n in longer
      {
        if neighbours[k] !in visited && neighbours[k] in all {
          JoinedStep(deps, start, cur, neighbours[k]);
          longer := longer + [neighbours[k]];
        }
      }
    }

    /** The component of one model, or nothing when the model is not listed. */
    method ComponentContaining(modelID: Id) returns (component: seq<Id>)
      requires Valid()
      ensures modelID in order ==> modelID in component && IsComponent(deps, order, component)
      ensures modelID !in order ==> component == []
    {
      var components := ConnectedComponents();
      for k := 0 to |components|
        invariant forall c | 0 <= c < k :: modelID !in components[c]
      {
        for j := 0 to |components[k]|
          invariant modelID !in components[k][..j]
        {
          if components[k][j] == modelID { return components[k]; }
        }
        assert components[k][..|components[k]|] == components[k];
      }
      assert !Listed(components, modelID);
      return [];
    }
  }

  method BuildDAG(modelIDs: seq<Id>, refsByID: RefMap, nameToID: NameMap) returns (r: Result<DepGraph, DagError>)
    requires Keyed(modelIDs, refsByID, nameToID)
    ensures r.Ok? <==> Buildable(refsByID, nameToID)
    ensures r.Ok? ==>
              && fresh(r.value) && r.value.Valid()
              && r.value.deps == ResolvedDeps(refsByID, nameToID)
              && |r.value.order| == |modelIDs| && Elems(r.value.order) == Elems(modelIDs)
    ensures r.Err? && r.error != CycleDetected ==> RefError(refsByID, nameToID, r.error)
    ensures r == Err(CycleDetected) ==>
              && RefsKnown(refsByID, nameToID)
              && HoldsCycle(ResolvedDeps(refsByID, nameToID), Elems(modelIDs))
  {
    var g := new DepGraph();
    var inDegree, err := g.Link(modelIDs, refsByID, nameToID);
    if err.Some? {
      return Err(err.value);
    }
    forall id, d | d in DepsOf(g.deps, id)
      ensures id in Elems(modelIDs) && d in Elems(modelIDs)
    {
      assert d in nameToID.Values;
    }
    g.Sort(modelIDs, inDegree);
    if |g.order| != |modelIDs| {
      return Err(CycleDetected);
    }
    PlacedAll(g.deps, modelIDs, g.order);
    forall id | DepsOf(g.deps, id) != []
      ensures id in g.order
    {
      assert id in Elems(g.order);
    }
    return Ok(g);
  }

  // ---------------------------------------------------------------- upstream closure

  /** The recursive walk behind `GetUpstreamDeps`, with the set it updates. */
  class UpstreamWalk {
    var visited: set<Id>

    constructor ()
      ensures visited == {}
    {
      visited := {};
    }

    method Walk(id: Id, deps: DepMap, ghost nodes: set<Id>)
      requires forall a, d | d in DepsOf(deps, a) :: d in nodes
      modifies this
      ensures old(visited) <= visited
      ensures forall d | d in DepsOf(deps, id) :: d in visited
      ensures forall n, d | n in visited - old(visited) && d in DepsOf(deps, n) :: d in visited
      ensures forall n | n in visited - old(visited) :: Upstream(deps, id, n)
      decreases nodes - visited
    {
      ghost var before := visited;
      for k := 0 to |DepsOf(deps, id)|
        invariant before <= visited
        invariant forall j | 0 <= j < k :: DepsOf(deps, id)[j] in visited
        invariant forall n, d | n in visited - before && d in DepsOf(deps, n) :: d in visited
        invariant forall n | n in visited - before :: Upstream(deps, id, n)
      {
        var depID := DepsOf(deps, id)[k];
        if depID !in visited {
          ghost var reached := visited;
          DirectIsUpstream(deps, id, depID);
          visited := visited + {depID};
          Walk(depID, deps, nodes);
          forall n | n in visited - before
            ensures Upstream(deps, id, n)
          {
            if n !in reached && n != depID { UpstreamTransitive(deps, id, depID, n); }
          }
        }
      }
    }
  }

  lemma {:induction false} UpstreamInClosed(deps: DepMap, s: set<Id>, id: Id, up: Id, p: seq<Id>)
    requires |p| >= 2 && PathBetween(deps, p, id, up)
    requires forall d | d in DepsOf(deps, id) :: d in s
    requires forall n, d | n in s && d in DepsOf(deps, n) :: d in s
    ensures up in s
  {
    for i := 1 to |p| - 1
      invariant p[i] in s
    {
      assert p[i + 1] in DepsOf(deps, p[i]);
    }
  }

  /** All transitive upstream models, on any dependency map, cyclic ones included. */
  method GetUpstreamDeps(modelID: Id, deps: DepMap) returns (visited: set<Id>)
    ensures forall n :: n in visited <==> Upstream(deps, modelID, n)
  {
    var walk := new UpstreamWalk();
    ghost var nodes := set a, d | a in deps && d in deps[a] :: d;
    walk.Walk(modelID, deps, nodes);
    visited := walk.visited;
    forall n | Upstream(deps, modelID, n)
      ensures n in visited
    {
      var p :| |p| >= 2 && PathBetween(deps, p, modelID, n);
      UpstreamInClosed(deps, visited, modelID, n, p);
    }
  }
}
