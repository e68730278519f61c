/** Running the models of a connection: one pass over a topological order, skipping below failures. */
module ModelRuns {
  import opened Common
  import opened Graph
  import opened Dag
  import opened Refs

  datatype Model = Model(id: Id, name: string, targetDatabase: string, materialization: string,
                         sqlBody: string, tableEngine: string, orderBy: string)

  datatype Verdict = Succeeded | Errored | Skipped

  /** What a run depends on besides the graph: the models, their targets, and which statements ClickHouse accepts. */
  datatype World = World(models: map<Id, Model>, targets: Targets, accepts: string -> bool)

  function BuildDDL(m: Model, resolvedSQL: string): (stmts: seq<string>)
    ensures |stmts| > 0
  {
    var table := "`" + m.targetDatabase + "`.`" + m.name + "`";
    if m.materialization == "table" then
      ["DROP TABLE IF EXISTS " + table,
       "CREATE TABLE " + table + " ENGINE = " + m.tableEngine + " ORDER BY " + m.orderBy + " AS " + resolvedSQL]
    else
      ["CREATE OR REPLACE VIEW " + table + " AS " + resolvedSQL]
  }

  ghost predicate Resolves(w: World, id: Id) {
    id in w.models && AllResolved(StripComments(w.models[id].sqlBody), w.targets)
  }

  ghost function Statements(w: World, id: Id): seq<string>
    requires id in w.models
  {
    BuildDDL(w.models[id], Rendered(StripComments(w.models[id].sqlBody), w.targets))
  }

  /** The model builds when nothing above it stands in the way. */
  ghost predicate Works(w: World, id: Id) {
    Resolves(w, id) && forall stmt | stmt in Statements(w, id) :: w.accepts(stmt)
  }

  // ---------------------------------------------------------------- one pass over an order

  type Verdicts = map<Id, Verdict>

  ghost predicate Blocked(deps: DepMap, v: Verdicts, id: Id) {
    exists d :: d in DepsOf(deps, id) && d in v && v[d] != Succeeded
  }

  ghost function VerdictAfter(deps: DepMap, w: World, v: Verdicts, id: Id): Verdict {
    if Blocked(deps, v, id) then Skipped else if Works(w, id) then Succeeded else Errored
  }

  /** The verdicts the run loop reaches along `order`. */
  ghost function OnePass(deps: DepMap, w: World, order: seq<Id>): (v: Verdicts)
    ensures v.Keys == Elems(order)
  {
    if order == [] then map[]
    else
      var before := OnePass(deps, w, order[..|order| - 1]);
      var id := order[|order| - 1];
      before[id := VerdictAfter(deps, w, before, id)]
  }

  // ---------------------------------------------------------------- the order-free meaning of a run

  ghost predicate FailsAbove(deps: DepMap, w: World, id: Id) {
    exists u :: Upstream(deps, id, u) && !Works(w, u)
  }

  ghost function Expected(deps: DepMap, w: World, id: Id): Verdict {
    if FailsAbove(deps, w, id) then Skipped else if Works(w, id) then Succeeded else Errored
  }

  lemma FailsAboveStep(deps: DepMap, w: World, id: Id)
    ensures FailsAbove(deps, w, id) <==> exists d :: d in DepsOf(deps, id) && Expected(deps, w, d) != Succeeded
  {
    if FailsAbove(deps, w, id) {
      var u :| Upstream(deps, id, u) && !Works(w, u);
      var d := UpstreamFirst(deps, id, u);
      assert Expected(deps, w, d) != Succeeded;
    }
    if exists d :: d in DepsOf(deps, id) && Expected(deps, w, d) != Succeeded {
      var d :| d in DepsOf(deps, id) && Expected(deps, w, d) != Succeeded;
      DirectIsUpstream(deps, id, d);
      if FailsAbove(deps, w, d) {
        var u :| Upstream(deps, d, u) && !Works(w, u);
        UpstreamTransitive(deps, id, d, u);
      }
    }
  }

  lemma TopologicalPrefix(deps: DepMap, order: seq<Id>, n: nat)
    requires Topological(deps, order) && n <= |order|
    ensures Topological(deps, order[..n])
  {
    forall i, d | 0 <= i < n && d in DepsOf(deps, order[..n][i])
      ensures d in order[..n][..i]
    {
      assert order[..n][..i] == order[..i] && order[..n][i] == order[i];
    }
  }

  /** Along every topological order the loop reaches the verdicts that the graph and the world alone determine. */
  lemma {:induction false} OnePassMeetsExpected(deps: DepMap, w: World, order: seq<Id>)
    requires Topological(deps, order)
    ensures forall id | id in order :: OnePass(deps, w, order)[id] == Expected(deps, w, id)
  {
    if order != [] {
      TopologicalPrefix(deps, order, |order| - 1);
      OnePassMeetsExpected(deps, w, order[..|order| - 1]);
      LastMeetsExpected(deps, w, order);
      MeetsOneMore(deps, w, order);
    }
  }

  lemma MeetsOneMore(deps: DepMap, w: World, order: seq<Id>)
    requires order != [] && OnePass(deps, w, order)[order[|order| - 1]] == Expected(deps, w, order[|order| - 1])
    requires var init := order[..|order| - 1];
             forall id | id in init :: OnePass(deps, w, init)[id] == Expected(deps, w, id)
    ensures forall id | id in order :: OnePass(deps, w, order)[id] == Expected(deps, w, id)
  {
    forall id | id in order
      ensures OnePass(deps, w, order)[id] == Expected(deps, w, id)
    {
      if id != order[|order| - 1] { EarlierVerdict(deps, w, order, id); }
    }
  }

  lemma EarlierVerdict(deps: DepMap, w: World, order: seq<Id>, id: Id)
    requires id in order && id != order[|order| - 1]
    ensures var init := order[..|order| - 1];
            id in init && OnePass(deps, w, order)[id] == OnePass(deps, w, init)[id]
  {
  }

  lemma LastMeetsExpected(deps: DepMap, w: World, order: seq<Id>)
    requires Topological(deps, order) && order != []
    requires var init := order[..|order| - 1];
             forall id | id in init :: OnePass(deps, w, init)[id] == Expected(deps, w, id)
    ensures OnePass(deps, w, order)[order[|order| - 1]] == Expected(deps, w, order[|order| - 1])
  {
    var init, last := order[..|order| - 1], order[|order| - 1];
    FailsAboveStep(deps, w, last);
    forall d | d in DepsOf(deps, last)
      ensures d in init
    {
      assert d in order[..|order| - 1];
    }
    assert Blocked(deps, OnePass(deps, w, init), last) <==> FailsAbove(deps, w, last);
  }

  /** Any two runs agree on the models they share: neither order nor restriction changes an outcome. */
  lemma RunsAgree(deps: DepMap, w: World, order: seq<Id>, other: seq<Id>, id: Id)
    requires Topological(deps, order) && Topological(deps, other)
    requires id in order && id in other
    ensures OnePass(deps, w, order)[id] == OnePass(deps, w, other)[id]
  {
    OnePassMeetsExpected(deps, w, order);
    OnePassMeetsExpected(deps, w, other);
  }

  /** Some failing model above a skipped one failed by itself. */
  lemma {:induction false} FirstFailure(deps: DepMap, w: World, order: seq<Id>, k: nat, id: Id) returns (u: Id)
    requires Topological(deps, order) && k < |order|
    requires order[k] == id || Upstream(deps, id, order[k])
    requires !Works(w, order[k]) || FailsAbove(deps, w, order[k])
    ensures u == id || Upstream(deps, id, u)
    ensures u in order && Expected(deps, w, u) == Errored
    decreases k
  {
    u := order[k];
    if FailsAbove(deps, w, u) {
      var cause :| Upstream(deps, u, cause) && !Works(w, cause);
      UpstreamStandsBefore(deps, order, k, cause);
      var j :| 0 <= j < k && order[j] == cause;
      if u != id { UpstreamTransitive(deps, id, u, cause); }
      u := FirstFailure(deps, w, order, j, id);
    }
  }

  /** A model is skipped exactly when the build of some transitive upstream model was tried and failed. */
  lemma SkippedBelowErrors(deps: DepMap, w: World, order: seq<Id>, id: Id)
    requires Topological(deps, order) && id in order
    ensures OnePass(deps, w, order)[id] == Skipped <==>
            exists u :: u in order && Upstream(deps, id, u) && OnePass(deps, w, order)[u] == Errored
  {
    OnePassMeetsExpected(deps, w, order);
    if FailsAbove(deps, w, id) {
      var k :| 0 <= k < |order| && order[k] == id;
      var cause :| Upstream(deps, id, cause) && !Works(w, cause);
      UpstreamStandsBefore(deps, order, k, cause);
      var j :| 0 <= j < k && order[j] == cause;
      var u := FirstFailure(deps, w, order, j, id);
      assert Expected(deps, w, id) == Skipped;
      assert u in order && Upstream(deps, id, u) && OnePass(deps, w, order)[u] == Errored;
    }
  }

  // ---------------------------------------------------------------- the record of a run

  datatype RowStatus = Pending | Running | Finished(verdict: Verdict)

  /** What happens in a run: a result row gets a status, a statement is sent. */
  datatype Entry = Row(id: Id, status: RowStatus) | Sent(id: Id, stmt: string)

  /** The statements of a model that are sent: up to and including the first that is refused. */
  ghost function SentOf(id: Id, stmts: seq<string>, accepts: string -> bool): (sent: seq<Entry>)
    ensures forall k | 0 <= k < |sent| :: sent[k].Sent? && sent[k].id == id
  {
    if stmts == [] then []
    else [Sent(id, stmts[0])] + if accepts(stmts[0]) then SentOf(id, stmts[1..], accepts) else []
  }

  /** What a run does for one model. */
  ghost function EntriesOf(w: World, id: Id, verdict: Verdict): (entries: seq<Entry>)
    ensures entries != [] && entries[|entries| - 1] == Row(id, Finished(verdict))
    ensures forall k | 0 <= k < |entries| && entries[k].Sent? :: entries[k].id == id && verdict != Skipped
  {
    if verdict == Skipped || !Resolves(w, id) then [Row(id, Finished(verdict))]
    else [Row(id, Running)] + SentOf(id, Statements(w, id), w.accepts) + [Row(id, Finished(verdict))]
  }

  /** What comes after the row is set running. */
  lemma EntriesOfAttempt(history: seq<Entry>, w: World, id: Id)
    requires Resolves(w, id)
    ensures forall verdict | verdict != Skipped ::
              history + EntriesOf(w, id, verdict) ==
              history + [Row(id, Running)] + SentOf(id, Statements(w, id), w.accepts) + [Row(id, Finished(verdict))]
  {
  }

  ghost function History(deps: DepMap, w: World, order: seq<Id>): seq<Entry> {
    if order == [] then []
    else
      var init := order[..|order| - 1];
      History(deps, w, init) +
      EntriesOf(w, order[|order| - 1], VerdictAfter(deps, w, OnePass(deps, w, init), order[|order| - 1]))
  }

  /** When the last model of an order is not skipped, everything above it has been built. */
  lemma UnblockedMeansBuilt(deps: DepMap, w: World, order: seq<Id>, u: Id)
    requires Topological(deps, order) && order != []
    requires var last := order[|order| - 1];
             Upstream(deps, last, u) && OnePass(deps, w, order)[last] != Skipped
    ensures var init := order[..|order| - 1];
            u in init && OnePass(deps, w, init)[u] == Succeeded
  {
    var init, last := order[..|order| - 1], order[|order| - 1];
    UpstreamStandsBefore(deps, order, |order| - 1, u);
    TopologicalPrefix(deps, order, |order| - 1);
    OnePassMeetsExpected(deps, w, init);
    OnePassMeetsExpected(deps, w, order);
    assert Expected(deps, w, last) != Skipped;
    if FailsAbove(deps, w, u) {
      var cause :| Upstream(deps, u, cause) && !Works(w, cause);
      UpstreamTransitive(deps, last, u, cause);
    }
  }

  lemma RecordStays(deps: DepMap, w: World, order: seq<Id>, k: nat, e: Entry)
    requires order != [] && |History(deps, w, order[..|order| - 1])| <= k <= |History(deps, w, order)|
    requires e in History(deps, w, order[..|order| - 1])
    ensures e in History(deps, w, order)[..k]
  {
    var before := History(deps, w, order[..|order| - 1]);
    var i :| 0 <= i < |before| && before[i] == e;
    assert History(deps, w, order)[..k][i] == e;
  }

  lemma HistoryGrows(deps: DepMap, w: World, order: seq<Id>, n: nat)
    requires n < |order|
    ensures History(deps, w, order[..n]) <= History(deps, w, order[..n + 1])
  {
    assert order[..n + 1][..n] == order[..n];
  }

  /** The histories after each number of models. */
  lemma Growing(deps: DepMap, w: World, order: seq<Id>) returns (h: nat -> seq<Entry>)
    ensures forall n: nat | n <= |order| :: h(n) == History(deps, w, order[..n])
    ensures forall n: nat | n < |order| :: h(n) <= h(n + 1)
  {
    h := (n: nat) => if n <= |order| then History(deps, w, order[..n]) else [];
    forall n: nat | n < |order|
      ensures h(n) <= h(n + 1)
    {
      HistoryGrows(deps, w, order, n);
    }
  }

  /** The model whose entry is the `k`-th. */
  lemma EntryOf(deps: DepMap, w: World, order: seq<Id>, k: nat) returns (n: nat)
    requires k < |History(deps, w, order)|
    ensures n < |order| && |History(deps, w, order[..n])| <= k < |History(deps, w, order[..n + 1])|
    ensures History(deps, w, order[..n + 1]) <= History(deps, w, order)
  {
    var h := Growing(deps, w, order);
    assert order[..|order|] == order;
    assert h(0) == [];
    n := StepOf(h, |order|, k);
  }

  /** A statement of a model is sent only after every transitive upstream model has been recorded as built. */
  lemma SentAfterUpstreamSucceeded(deps: DepMap, w: World, order: seq<Id>, k: nat, id: Id, u: Id)
    requires Topological(deps, order)
    requires k < |History(deps, w, order)| && History(deps, w, order)[k].Sent? && History(deps, w, order)[k].id == id
    requires Upstream(deps, id, u)
    ensures Row(u, Finished(Succeeded)) in History(deps, w, order)[..k]
  {
    var n := EntryOf(deps, w, order, k);
    SentByNth(deps, w, order, n, k, id, u);
    SamePrefix(History(deps, w, order[..n + 1]), History(deps, w, order), k);
  }

  lemma SamePrefix<T>(part: seq<T>, whole: seq<T>, k: nat)
    requires part <= whole && k <= |part|
    ensures part[..k] == whole[..k]
  {
  }

  lemma SentByNth(deps: DepMap, w: World, order: seq<Id>, n: nat, k: nat, id: Id, u: Id)
    requires Topological(deps, order) && n < |order|
    requires |History(deps, w, order[..n])| <= k < |History(deps, w, order[..n + 1])|
    requires History(deps, w, order[..n + 1])[k].Sent? && History(deps, w, order[..n + 1])[k].id == id
    requires Upstream(deps, id, u)
    ensures Row(u, Finished(Succeeded)) in History(deps, w, order[..n + 1])[..k]
  {
    TopologicalPrefix(deps, order, n + 1);
    assert order[..n + 1][..n] == order[..n];
    SentByLast(deps, w, order[..n + 1], k, id, u);
  }

  lemma SentByLast(deps: DepMap, w: World, order: seq<Id>, k: nat, id: Id, u: Id)
    requires Topological(deps, order) && order != []
    requires |History(deps, w, order[..|order| - 1])| <= k < |History(deps, w, order)|
    requires History(deps, w, order)[k].Sent? && History(deps, w, order)[k].id == id && Upstream(deps, id, u)
    ensures Row(u, Finished(Succeeded)) in History(deps, w, order)[..k]
  {
    var init := order[..|order| - 1];
    LastEntries(deps, w, order, k);
    UnblockedMeansBuilt(deps, w, order, u);
    TopologicalPrefix(deps, order, |order| - 1);
    FinishedIsRecorded(deps, w, init, u);
    RecordStays(deps, w, order, k, Row(u, Finished(Succeeded)));
  }

  /** The later entries are those of the last model; it sends statements only when not skipped. */
  lemma LastEntries(deps: DepMap, w: World, order: seq<Id>, k: nat)
    requires order != [] && |History(deps, w, order[..|order| - 1])| <= k < |History(deps, w, order)|
    ensures var e, last := History(deps, w, order)[k], order[|order| - 1];
            e.Sent? ==> e.id == last && OnePass(deps, w, order)[last] != Skipped
  {
  }

  lemma {:induction false} FinishedIsRecorded(deps: DepMap, w: World, order: seq<Id>, id: Id)
    requires Distinct(order) && id in order
    ensures Row(id, Finished(OnePass(deps, w, order)[id])) in History(deps, w, order)
  {
    var init, last := order[..|order| - 1], order[|order| - 1];
    if id == last {
      var entries := EntriesOf(w, last, VerdictAfter(deps, w, OnePass(deps, w, init), last));
      assert entries[|entries| - 1] in entries;
    } else {
      FinishedIsRecorded(deps, w, init, id);
    }
  }

  // ---------------------------------------------------------------- totals and status

  ghost function Having(v: Verdicts, verdict: Verdict): set<Id> {
    set id | id in v && v[id] == verdict
  }

  datatype RunStatus = InProgress | Success | Partial | Error

  /** What the final status says about the verdicts. */
  ghost function StatusOf(v: Verdicts): RunStatus {
    if Having(v, Succeeded) == {} then Error
    else if Having(v, Succeeded) == v.Keys then Success
    else Partial
  }

  lemma TotalsAddUp(v: Verdicts)
    ensures |Having(v, Succeeded)| + |Having(v, Errored)| + |Having(v, Skipped)| == |v|
  {
    assert v.Keys == Having(v, Succeeded) + Having(v, Errored) + Having(v, Skipped);
    assert Having(v, Succeeded) !! Having(v, Errored) !! Having(v, Skipped);
  }

  lemma {:induction false} SkippedNeedsErrored(deps: DepMap, w: World, order: seq<Id>, id: Id) returns (e: Id)
    requires Distinct(order) && id in order && OnePass(deps, w, order)[id] == Skipped
    ensures e in order && OnePass(deps, w, order)[e] == Errored
  {
    var init, last := order[..|order| - 1], order[|order| - 1];
    assert last !in init;
    if id == last {
      var before := OnePass(deps, w, init);
      var d :| d in DepsOf(deps, last) && d in before && before[d] != Succeeded;
      e := d;
      if before[d] == Skipped { e := SkippedNeedsErrored(deps, w, init, d); }
    } else {
      e := SkippedNeedsErrored(deps, w, init, id);
    }
  }

  /** The three-way test on the counters tells the three kinds of run apart. */
  lemma StatusFromCounters(deps: DepMap, w: World, order: seq<Id>, succeeded: nat, failed: nat, skipped: nat)
    requires Distinct(order)
    requires var v := OnePass(deps, w, order);
             succeeded == |Having(v, Succeeded)| && failed == |Having(v, Errored)| && skipped == |Having(v, Skipped)|
    ensures StatusOf(OnePass(deps, w, order)) ==
            if failed > 0 && succeeded > 0 then Partial
            else if failed > 0 || skipped == |order| then Error
            else Success
  {
    var v := OnePass(deps, w, order);
    TotalsAddUp(v);
    DistinctCount(order);
    assert |v| == |v.Keys| == |order|;
    if Having(v, Skipped) != {} {
      var s :| s in Having(v, Skipped);
      var e := SkippedNeedsErrored(deps, w, order, s);
      assert e in Having(v, Errored);
    }
    if succeeded == |v.Keys| { SubsetOfEqualSize(Having(v, Succeeded), v.Keys); }
  }

  // ---------------------------------------------------------------- building the graph of a model list

  predicate DistinctIds(models: seq<Model>) {
    forall i, j | 0 <= i < j < |models| :: models[i].id != models[j].id
  }

  ghost function Ids(models: seq<Model>): seq<Id> {
    seq(|models|, k requires 0 <= k < |models| => models[k].id)
  }

  /** Later models win when two share a name. */
  ghost function NameToID(models: seq<Model>): NameMap {
    if models == [] then map[]
    else NameToID(models[..|models| - 1])[models[|models| - 1].name := models[|models| - 1].id]
  }

  ghost function TargetsOf(models: seq<Model>): Targets {
    if models == [] then map[]
    else TargetsOf(models[..|models| - 1])[models[|models| - 1].name := models[|models| - 1].targetDatabase]
  }

  ghost function RefsByID(models: seq<Model>): RefMap {
    if models == [] then map[]
    else RefsByID(models[..|models| - 1])[models[|models| - 1].id := Refs.Refs(models[|models| - 1].sqlBody)]
  }

  ghost function ByID(models: seq<Model>): map<Id, Model> {
    if models == [] then map[]
    else ByID(models[..|models| - 1])[models[|models| - 1].id := models[|models| - 1]]
  }

  ghost function WorldOf(models: seq<Model>, accepts: string -> bool): World {
    World(ByID(models), TargetsOf(models), accepts)
  }

  ghost predicate CanBuild(models: seq<Model>) {
    Buildable(RefsByID(models), NameToID(models))
  }

  ghost function DepsAmong(models: seq<Model>): DepMap
    requires CanBuild(models)
  {
    ResolvedDeps(RefsByID(models), NameToID(models))
  }

  lemma {:induction false} KeysAreIds(models: seq<Model>)
    ensures ByID(models).Keys == RefsByID(models).Keys == Elems(Ids(models))
  {
    if models != [] {
      var init, m := models[..|models| - 1], models[|models| - 1];
      KeysAreIds(init);
      assert Ids(models) == Ids(init) + [m.id];
      ElemsAppend(Ids(init), m.id);
    }
  }

  /** A model is found under its id. */
  lemma {:induction false} FoundByID(models: seq<Model>, k: nat)
    requires DistinctIds(models) && k < |models|
    ensures models[k].id in ByID(models) && ByID(models)[models[k].id] == models[k]
  {
    var last := |models| - 1;
    if k < last {
      assert models[k].id != models[last].id;
      FoundByID(models[..last], k);
    }
  }

  lemma {:induction false} RefsAreTheirs(models: seq<Model>, id: Id)
    requires id in ByID(models)
    ensures id in RefsByID(models) && RefsByID(models)[id] == Refs.Refs(ByID(models)[id].sqlBody)
  {
    var init, m := models[..|models| - 1], models[|models| - 1];
    if id != m.id { RefsAreTheirs(init, id); }
  }

  lemma {:induction false} NamesAreKeyed(models: seq<Model>)
    ensures TargetsOf(models).Keys == NameToID(models).Keys
    ensures NameToID(models).Values <= Elems(Ids(models))
  {
    if models != [] {
      var init, m := models[..|models| - 1], models[|models| - 1];
      NamesAreKeyed(init);
      assert Ids(models) == Ids(init) + [m.id];
      ElemsAppend(Ids(init), m.id);
    }
  }

  /** Once the graph is built, no reference of any model can fail to resolve. */
  lemma BuiltModelsResolve(models: seq<Model>, accepts: string -> bool, id: Id)
    requires DistinctIds(models) && CanBuild(models) && id in ByID(models)
    ensures Resolves(WorldOf(models, accepts), id)
  {
    NamesAreKeyed(models);
    RefsAreTheirs(models, id);
    var body := StripComments(ByID(models)[id].sqlBody);
    forall n | n in RefNames(body)
      ensures n in TargetsOf(models)
    {
      var refs := RefsByID(models)[id];
      assert n in refs;
      var k :| 0 <= k < |refs| && refs[k] == n;
      assert NamesKnown(refs, NameToID(models));
    }
  }

  lemma InputsAreKeyed(models: seq<Model>)
    requires DistinctIds(models)
    ensures Keyed(Ids(models), RefsByID(models), NameToID(models))
  {
    KeysAreIds(models);
    NamesAreKeyed(models);
  }

  // ---------------------------------------------------------------- the run engine

  datatype RunError =
    | AlreadyRunning | TunnelOffline | NoCredentials | NoModels | AnchorNotFound
    | BuildFailed(error: DagError)

  /** A run row with its result rows. */
  class ModelRun {
    const total: nat
    var rows: map<Id, RowStatus>
    ghost var history: seq<Entry>
    var status: RunStatus
    var succeeded: nat
    var failed: nat
    var skipped: nat

    constructor (order: seq<Id>)
      ensures total == |order| && history == [] && status == InProgress
      ensures rows == map id | id in order :: Pending
    {
      total := |order|;
      status := InProgress;
      succeeded, failed, skipped := 0, 0, 0;
      history := [];
      rows := map id | id in order :: Pending;
    }

    method UpdateResult(id: Id, s: RowStatus)
      modifies this`rows, this`history
      ensures rows == (if id in old(rows) then old(rows)[id := s] else old(rows))
      ensures history == old(history) + [Row(id, s)]
    {
      if id in rows { rows := rows[id := s]; }
      history := history + [Row(id, s)];
    }

    ghost method RecordSent(id: Id, stmt: string)
      modifies this`history
      ensures history == old(history) + [Sent(id, stmt)]
    {
      history := history + [Sent(id, stmt)];
    }

    method Finalize(s: RunStatus, ok: nat, bad: nat, skip: nat)
      modifies this`status, this`succeeded, this`failed, this`skipped
      ensures status == s && succeeded == ok && failed == bad && skipped == skip
    {
      status, succeeded, failed, skipped := s, ok, bad, skip;
    }

    /** The rows, the totals and the status say what the verdicts say. */
    ghost predicate Reports(v: Verdicts)
      reads this
    {
      && rows == (map id | id in v :: Finished(v[id]))
      && total == |v|
      && succeeded == |Having(v, Succeeded)|
      && failed == |Having(v, Errored)|
      && skipped == |Having(v, Skipped)|
      && status == StatusOf(v)
    }
  }

  /** The verdicts of the listed models, as the graph and the world determine them. */
  ghost function ExpectedFor(deps: DepMap, w: World, ids: set<Id>): Verdicts {
    map id | id in ids :: Expected(deps, w, id)
  }

  lemma OnePassIsExpected(deps: DepMap, w: World, order: seq<Id>)
    requires Topological(deps, order)
    ensures OnePass(deps, w, order) == ExpectedFor(deps, w, Elems(order))
  {
    OnePassMeetsExpected(deps, w, order);
  }

  class Runner {
    const accepts: string -> bool
    var running: set<string>

    constructor (accepts: string -> bool)
      ensures this.accepts == accepts && running == {}
    {
      this.accepts := accepts;
      running := {};
    }

    method AcquireLock(connectionID: string) returns (acquired: bool)
      modifies this`running
      ensures acquired == (connectionID !in old(running))
      ensures running == old(running) + {connectionID}
    {
      acquired := connectionID !in running;
      running := running + {connectionID};
    }

    method ReleaseLock(connectionID: string)
      modifies this`running
      ensures running == old(running) - {connectionID}
    {
      running := running - {connectionID};
    }

    /** Collects the maps of a model list. */
    static method CollectModels(allModels: seq<Model>)
      returns (nameToID: NameMap, modelIDs: seq<Id>, refsByID: RefMap, idToModel: map<Id, Model>, modelTargets: Targets)
      ensures nameToID == NameToID(allModels) && modelIDs == Ids(allModels) && refsByID == RefsByID(allModels)
      ensures idToModel == ByID(allModels) && modelTargets == TargetsOf(allModels)
    {
      nameToID, modelIDs, refsByID, idToModel, modelTargets := map[], [], map[], map[], map[];
      for k := 0 to |allModels|
        invariant nameToID == NameToID(allModels[..k]) && idToModel == ByID(allModels[..k])
        invariant modelTargets == TargetsOf(allModels[..k]) && refsByID == RefsByID(allModels[..k])
        invariant modelIDs == Ids(allModels)[..k]
      {
        var m := allModels[k];
        NextModel(allModels, k);
        nameToID := nameToID[m.name := m.id];
        idToModel := idToModel[m.id := m];
        modelTargets := modelTargets[m.name := m.targetDatabase];
        modelIDs := modelIDs + [m.id];
        var refs := ExtractRefs(m.sqlBody);
        refsByID := refsByID[m.id := refs];
      }
      assert allModels[..|allModels|] == allModels;
    }

    /** Collects the maps of a model list and builds its graph. */
    method BuildGraph(allModels: seq<Model>) returns (r: Result<DepGraph, DagError>, ghost w: World,
                                                      idToModel: map<Id, Model>, modelTargets: Targets)
      requires DistinctIds(allModels)
      ensures w == WorldOf(allModels, accepts) && idToModel == w.models && modelTargets == w.targets
      ensures r.Ok? <==> CanBuild(allModels)
      ensures r.Ok? ==>
                && fresh(r.value) && r.value.Valid()
                && r.value.deps == DepsAmong(allModels)
                && Elems(r.value.order) == Elems(Ids(allModels))
      ensures r == Err(CycleDetected) ==>
                && RefsKnown(RefsByID(allModels), NameToID(allModels))
                && HoldsCycle(ResolvedDeps(RefsByID(allModels), NameToID(allModels)), Elems(Ids(allModels)))
    {
      var nameToID, modelIDs, refsByID;
      nameToID, modelIDs, refsByID, idToModel, modelTargets := CollectModels(allModels);
      InputsAreKeyed(allModels);
      w := WorldOf(allModels, accepts);
      r := BuildDAG(modelIDs, refsByID, nameToID);
    }

    /** Sends the statements one by one until one is refused. */
    method Send(run: ModelRun, id: Id, stmts: seq<string>) returns (ok: bool)
      modifies run`history
      ensures ok <==> forall stmt | stmt in stmts :: accepts(stmt)
      ensures run.history == old(run.history) + SentOf(id, stmts, accepts)
    {
      ok := true;
      assert stmts[0..] == stmts;
      for k := 0 to |stmts|
        invariant forall stmt | stmt in stmts[..k] :: accepts(stmt)
        invariant run.history + SentOf(id, stmts[k..], accepts) == old(run.history) + SentOf(id, stmts, accepts)
      {
        NextSent(run.history, id, stmts, k, accepts);
        run.RecordSent(id, stmts[k]);
        if !accepts(stmts[k]) {
          return false;
        }
        assert stmts[..k + 1] == stmts[..k] + [stmts[k]];
      }
      assert stmts[..|stmts|] == stmts && stmts[|stmts|..] == [];
    }

    /** Builds one model that nothing blocks. */
    method Attempt(run: ModelRun, id: Id, idToModel: map<Id, Model>, modelTargets: Targets, ghost w: World)
      returns (ok: bool)
      requires w == World(idToModel, modelTargets, accepts) && id in idToModel && id in run.rows
      modifies run`rows, run`history
      ensures ok <==> Works(w, id)
      ensures run.rows == old(run.rows)[id := Finished(if ok then Succeeded else Errored)]
      ensures run.history == old(run.history) + EntriesOf(w, id, if ok then Succeeded else Errored)
    {
      var m := idToModel[id];
      var resolvedSQL, resolveErr := ResolveRefs(m.sqlBody, modelTargets);
      if resolveErr.Some? {
        run.UpdateResult(id, Finished(Errored));
        return false;
      }
      EntriesOfAttempt(run.history, w, id);
      run.UpdateResult(id, Running);
      var stmts := BuildDDL(m, resolvedSQL);
      ok := Send(run, id, stmts);
      run.UpdateResult(id, Finished(if ok then Succeeded else Errored));
    }

    /** Skips a model below a failure, attempts it otherwise. */
    method RunModel(run: ModelRun, deps: DepMap, id: Id, failed: set<Id>, idToModel: map<Id, Model>,
                    modelTargets: Targets, ghost w: World, ghost v: Verdicts)
      returns (verdict: Verdict)
      requires w == World(idToModel, modelTargets, accepts) && id in idToModel && id in run.rows
      requires failed == v.Keys - Having(v, Succeeded)
      modifies run`rows, run`history
      ensures verdict == VerdictAfter(deps, w, v, id)
      ensures run.rows == old(run.rows)[id := Finished(verdict)]
      ensures run.history == old(run.history) + EntriesOf(w, id, verdict)
    {
      var shouldSkip := AnyFailed(DepsOf(deps, id), failed);
      assert shouldSkip <==> Blocked(deps, v, id);
      if shouldSkip {
        run.UpdateResult(id, Finished(Skipped));
        return Skipped;
      }
      var ok := Attempt(run, id, idToModel, modelTargets, w);
      return if ok then Succeeded else Errored;
    }

    /** The loop over `order`: the verdicts reached, the failure set and the three counters. */
    method RunInOrder(run: ModelRun, deps: DepMap, order: seq<Id>, idToModel: map<Id, Model>, modelTargets: Targets,
                      ghost w: World)
      returns (ghost v: Verdicts, failed: set<Id>, succeeded: nat, failedCount: nat, skipped: nat)
      requires w == World(idToModel, modelTargets, accepts)
      requires Distinct(order) && Elems(order) <= idToModel.Keys
      requires run.rows == RowsSoFar(order, map[]) && run.history == []
      modifies run`rows, run`history
      ensures v == OnePass(deps, w, order)
      ensures Counts(v, failed, succeeded, failedCount, skipped)
      ensures run.rows == RowsSoFar(order, v) && run.history == History(deps, w, order)
    {
      v, failed, succeeded, failedCount, skipped := map[], {}, 0, 0, 0;
      NothingCounted();
      for k := 0 to |order|
        invariant v == OnePass(deps, w, order[..k])
        invariant Counts(v, failed, succeeded, failedCount, skipped)
        invariant run.rows == RowsSoFar(order, v)
        invariant run.history == History(deps, w, order[..k])
      {
        var id := order[k];
        assert id in Elems(order);
        OneMoreModel(deps, w, order, k, v);
        var verdict := RunModel(run, deps, id, failed, idToModel, modelTargets, w, v);
        CountOneModel(v, failed, succeeded, failedCount, skipped, id, verdict);
        RowsOneMore(order, v, id, verdict);
        match verdict {
          case Skipped =>
            skipped := skipped + 1;
            failed := failed + {id};
          case Errored =>
            failedCount := failedCount + 1;
            failed := failed + {id};
          case Succeeded =>
            succeeded := succeeded + 1;
        }
        v := v[id := verdict];
      }
      assert order[..|order|] == order;
    }

    /** Runs the models of `dag.order` in order and concludes. */
    method Execute(dag: DepGraph, idToModel: map<Id, Model>, modelTargets: Targets, ghost w: World)
      returns (run: ModelRun)
      requires w == World(idToModel, modelTargets, accepts)
      requires Distinct(dag.order) && Elems(dag.order) <= idToModel.Keys
      ensures fresh(run)
      ensures run.Reports(OnePass(dag.deps, w, dag.order))
      ensures run.history == History(dag.deps, w, dag.order)
    {
      run := new ModelRun(dag.order);
      ghost var v;
      var failed, succeeded, failedCount, skipped;
      v, failed, succeeded, failedCount, skipped := RunInOrder(run, dag.deps, dag.order, idToModel, modelTargets, w);
      Conclude(run, dag.order, dag.deps, w, v, failed, succeeded, failedCount, skipped);
    }

    /** Chooses the final status from the counters. */
    method Conclude(run: ModelRun, order: seq<Id>, ghost deps: DepMap, ghost w: World, ghost v: Verdicts,
                    ghost failed: set<Id>, succeeded: nat, failedCount: nat, skipped: nat)
      requires Distinct(order) && v == OnePass(deps, w, order)
      requires Counts(v, failed, succeeded, failedCount, skipped)
      requires run.total == |order| && run.rows == RowsSoFar(order, v)
      modifies run`status, run`succeeded, run`failed, run`skipped
      ensures run.Reports(v)
    {
      var runStatus := Success;
      if failedCount > 0 && succeeded > 0 {
        runStatus := Partial;
      } else if failedCount > 0 || skipped == |order| {
        runStatus := Error;
      }
      StatusFromCounters(deps, w, order, succeeded, failedCount, skipped);
      EveryRowFinished(order, v);
      run.Finalize(runStatus, succeeded, failedCount, skipped);
    }

    static method AnyFailed(deps: seq<Id>, failed: set<Id>) returns (found: bool)
      ensures found <==> exists d :: d in deps && d in failed
    {
      found := false;
      for k := 0 to |deps|
        invariant forall d | d in deps[..k] :: d !in failed
      {
        if deps[k] in failed {
          return true;
        }
      }
      assert deps[..|deps|] == deps;
    }

    // ------------------------------------------------------------ entry points

    /** Everything a run needs before it starts; the lock is held on success. */
    method Prepare(online: bool, credentials: bool, allModels: seq<Model>, needModels: bool)
      returns (r: Result<DepGraph, RunError>, ghost w: World, idToModel: map<Id, Model>, modelTargets: Targets)
      requires DistinctIds(allModels)
      ensures w == WorldOf(allModels, accepts)
      ensures match r
              case Err(e) => StartProblem(online, credentials, allModels, needModels, e)
              case Ok(g) =>
                && fresh(g) && g.Valid()
                && CanStart(online, credentials, allModels, needModels)
                && g.deps == DepsAmong(allModels)
                && idToModel == w.models && modelTargets == w.targets
                && Elems(g.order) == Elems(Ids(allModels)) == idToModel.Keys
    {
      w := WorldOf(allModels, accepts);
      idToModel, modelTargets := map[], map[];
      if !online {
        return Err(TunnelOffline), w, idToModel, modelTargets;
      }
      if !credentials {
        return Err(NoCredentials), w, idToModel, modelTargets;
      }
      if needModels && |allModels| == 0 {
        return Err(NoModels), w, idToModel, modelTargets;
      }
      var g;
      g, w, idToModel, modelTargets := BuildGraph(allModels);
      KeysAreIds(allModels);
      match g
      case Ok(dag) => r := Ok(dag);
      case Err(e) => r := Err(BuildFailed(e));
    }

    /** Executes an order and reports in terms of the order-free verdicts. */
    method ExecuteOrder(dag: DepGraph, idToModel: map<Id, Model>, modelTargets: Targets, ghost w: World)
      returns (run: ModelRun)
      requires w == World(idToModel, modelTargets, accepts)
      requires Topological(dag.deps, dag.order) && Elems(dag.order) <= idToModel.Keys
      ensures fresh(run)
      ensures run.Reports(ExpectedFor(dag.deps, w, Elems(dag.order)))
      ensures RanInOrder(dag.deps, w, Elems(dag.order), run.history)
    {
      run := Execute(dag, idToModel, modelTargets, w);
      OnePassIsExpected(dag.deps, w, dag.order);
    }

    method RunAll(connectionID: string, online: bool, credentials: bool, allModels: seq<Model>)
      returns (r: Result<ModelRun, RunError>)
      requires DistinctIds(allModels)
      modifies this`running
      ensures running == old(running)
      ensures r.Ok? <==> connectionID !in running && CanStart(online, credentials, allModels, true)
      ensures r == Err(AlreadyRunning) <==> connectionID in running
      ensures r.Ok? ==> fresh(r.value)
      ensures r.Ok? ==>
                FaithfulRun(r.value, DepsAmong(allModels), WorldOf(allModels, accepts), Elems(Ids(allModels)))
    {
      var acquired := AcquireLock(connectionID);
      if !acquired {
        return Err(AlreadyRunning);
      }
      ghost var w;
      var g, idToModel, modelTargets;
      g, w, idToModel, modelTargets := Prepare(online, credentials, allModels, true);
      match g {
        case Err(e) => r := Err(e);
        case Ok(dag) =>
          var run := ExecuteOrder(dag, idToModel, modelTargets, w);
          r := Ok(run);
      }
      ReleaseLock(connectionID);
    }

    /** Restricts the order to the anchor's component and runs that. */
    method RunJoined(dag: DepGraph, anchorModelID: Id, idToModel: map<Id, Model>, modelTargets: Targets, ghost w: World)
      returns (r: Result<ModelRun, RunError>)
      requires dag.Valid() && w == World(idToModel, modelTargets, accepts) && Elems(dag.order) <= idToModel.Keys
      modifies dag`order
      ensures if anchorModelID in Elems(old(dag.order)) then r.Ok? else r == Err(AnchorNotFound)
      ensures r.Ok? ==> fresh(r.value)
      ensures r.Ok? ==> FaithfulRun(r.value, dag.deps, w, JoinedTo(dag.deps, Elems(old(dag.order)), anchorModelID))
    {
      var component := dag.ComponentContaining(anchorModelID);
      if |component| == 0 {
        return Err(AnchorNotFound);
      }
      ComponentIsRunOrder(dag.deps, dag.order, component);
      ComponentIsJoined(dag.deps, dag.order, component, anchorModelID);
      dag.order := component;
      var run := ExecuteOrder(dag, idToModel, modelTargets, w);
      r := Ok(run);
    }

    method RunPipeline(connectionID: string, anchorModelID: Id, online: bool, credentials: bool, allModels: seq<Model>)
      returns (r: Result<ModelRun, RunError>)
      requires DistinctIds(allModels)
      modifies this`running
      ensures running == old(running)
      ensures r.Ok? <==> && connectionID !in running && CanStart(online, credentials, allModels, true)
                         && anchorModelID in Elems(Ids(allModels))
      ensures r == Err(AlreadyRunning) <==> connectionID in running
      ensures r.Ok? ==> fresh(r.value)
      ensures r.Ok? ==>
                FaithfulRun(r.value, DepsAmong(allModels), WorldOf(allModels, accepts),
                            JoinedTo(DepsAmong(allModels), Elems(Ids(allModels)), anchorModelID))
    {
      var acquired := AcquireLock(connectionID);
      if !acquired {
        return Err(AlreadyRunning);
      }
      ghost var w;
      var g, idToModel, modelTargets;
      g, w, idToModel, modelTargets := Prepare(online, credentials, allModels, true);
      match g {
        case Err(e) => r := Err(e);
        case Ok(dag) => r := RunJoined(dag, anchorModelID, idToModel, modelTargets, w);
      }
      ReleaseLock(connectionID);
    }

    /** Restricts the order to a model and its upstream and runs that. */
    method RunUpstream(dag: DepGraph, modelID: Id, idToModel: map<Id, Model>, modelTargets: Targets, ghost w: World)
      returns (run: ModelRun)
      requires dag.Valid() && w == World(idToModel, modelTargets, accepts) && Elems(dag.order) <= idToModel.Keys
      modifies dag`order
      ensures fresh(run)
      ensures FaithfulRun(run, dag.deps, w, UpTo(dag.deps, Elems(old(dag.order)), modelID))
    {
      var upstream := GetUpstreamDeps(modelID, dag.deps);
      upstream := upstream + {modelID};
      var filteredIDs := Select(dag.order, upstream);
      UpstreamIsRunOrder(dag.deps, dag.order, modelID, upstream);
      dag.order := filteredIDs;
      run := ExecuteOrder(dag, idToModel, modelTargets, w);
    }

    method RunSingle(connectionID: string, modelID: Id, online: bool, credentials: bool, allModels: seq<Model>)
      returns (r: Result<ModelRun, RunError>)
      requires DistinctIds(allModels)
      modifies this`running
      ensures running == old(running)
      ensures r.Ok? <==> connectionID !in running && CanStart(online, credentials, allModels, false)
      ensures r == Err(AlreadyRunning) <==> connectionID in running
      ensures r.Ok? ==> fresh(r.value)
      ensures r.Ok? ==>
                FaithfulRun(r.value, DepsAmong(allModels), WorldOf(allModels, accepts),
                            UpTo(DepsAmong(allModels), Elems(Ids(allModels)), modelID))
    {
      var acquired := AcquireLock(connectionID);
      if !acquired {
        return Err(AlreadyRunning);
      }
      ghost var w;
      var g, idToModel, modelTargets;
      g, w, idToModel, modelTargets := Prepare(online, credentials, allModels, false);
      match g {
        case Err(e) => r := Err(e);
        case Ok(dag) =>
          var run := RunUpstream(dag, modelID, idToModel, modelTargets, w);
          r := Ok(run);
      }
      ReleaseLock(connectionID);
    }

    /** Lists the reference problems of the models, or the cycle when there are none. */
    method Validate(allModels: seq<Model>) returns (errors: seq<ValidationError>)
      requires DistinctIds(allModels)
      ensures errors == [] <==> allModels == [] || CanBuild(allModels)
      ensures errors == if RefProblems(allModels, NameToID(allModels)) != []
              then RefProblems(allModels, NameToID(allModels))
                        else if allModels == [] || CanBuild(allModels) then []
                        else [GraphError(CycleDetected)]
    {
      if |allModels| == 0 {
        return [];
      }
      var nameToID := CollectNames(allModels);
      var refsByID, modelIDs;
      errors, refsByID, modelIDs := CollectRefs(allModels, nameToID);
      ProblemFreeIsKnown(allModels, nameToID);
      if |errors| > 0 {
        return;
      }
      InputsAreKeyed(allModels);
      var dag := BuildDAG(modelIDs, refsByID, nameToID);
      if dag.Err? {
        errors := [GraphError(dag.error)];
      }
    }

    static method CollectNames(allModels: seq<Model>) returns (nameToID: NameMap)
      ensures nameToID == NameToID(allModels)
    {
      nameToID := map[];
      for k := 0 to |allModels|
        invariant nameToID == NameToID(allModels[..k])
      {
        assert allModels[..k + 1][..k] == allModels[..k];
        nameToID := nameToID[allModels[k].name := allModels[k].id];
      }
      assert allModels[..|allModels|] == allModels;
    }

    static method CollectRefs(allModels: seq<Model>, nameToID: NameMap)
      returns (errors: seq<ValidationError>, refsByID: RefMap, modelIDs: seq<Id>)
      ensures errors == RefProblems(allModels, nameToID)
      ensures refsByID == RefsByID(allModels) && modelIDs == Ids(allModels)
    {
      errors, refsByID, modelIDs := [], map[], [];
      for k := 0 to |allModels|
        invariant errors == RefProblems(allModels[..k], nameToID)
        invariant refsByID == RefsByID(allModels[..k])
        invariant modelIDs == Ids(allModels)[..k]
      {
        var m := allModels[k];
        NextModel(allModels, k);
        NextProblems(allModels, k, nameToID);
        var refs := ExtractRefs(m.sqlBody);
        refsByID := refsByID[m.id := refs];
        modelIDs := modelIDs + [m.id];
        var found := CheckRefs(m, refs, nameToID);
        errors := errors + found;
      }
      assert allModels[..|allModels|] == allModels;
    }

    static method CheckRefs(m: Model, refs: seq<string>, nameToID: NameMap) returns (errors: seq<ValidationError>)
      ensures errors == ProblemsOf(m, refs, nameToID)
    {
      errors := [];
      for k := 0 to |refs|
        invariant errors == ProblemsOf(m, refs[..k], nameToID)
      {
        assert refs[..k + 1][..k] == refs[..k];
        if refs[k] !in nameToID {
          errors := errors + [UnknownModel(m.id, m.name, refs[k])];
        }
        if (if refs[k] in nameToID then nameToID[refs[k]] else "") == m.id {
          errors := errors + [SelfReference(m.id, m.name, refs[k])];
        }
      }
      assert refs[..|refs|] == refs;
    }
  }

  // ---------------------------------------------------------------- what the entry points promise

  ghost predicate CanStart(online: bool, credentials: bool, models: seq<Model>, needModels: bool) {
    online && credentials && (needModels ==> models != []) && CanBuild(models)
  }

  /** The reported problem is the first one met. */
  ghost predicate StartProblem(online: bool, credentials: bool, models: seq<Model>, needModels: bool, e: RunError) {
    if !online then e == TunnelOffline
    else if !credentials then e == NoCredentials
    else if needModels && models == [] then e == NoModels
    else e.BuildFailed? && !CanBuild(models)
  }

  /** The rows were written and the statements sent along a topological order of exactly these models. */
  ghost predicate RanInOrder(deps: DepMap, w: World, ids: set<Id>, history: seq<Entry>) {
    exists order :: Topological(deps, order) && Elems(order) == ids && history == History(deps, w, order)
  }

  ghost predicate FaithfulRun(run: ModelRun, deps: DepMap, w: World, ids: set<Id>)
    reads run
  {
    run.Reports(ExpectedFor(deps, w, ids)) && RanInOrder(deps, w, ids, run.history)
  }

  /** The models a single-model run covers. */
  ghost function UpTo(deps: DepMap, ids: set<Id>, modelID: Id): set<Id> {
    set id | id in ids && (id == modelID || Upstream(deps, modelID, id))
  }

  /** The models a pipeline run covers. */
  ghost function JoinedTo(deps: DepMap, ids: set<Id>, anchor: Id): set<Id> {
    set id | id in ids && Joined(deps, anchor, id)
  }

  /** A single-model run covers nothing exactly when the model is not in the list. */
  lemma NothingToRunExactly(models: seq<Model>, modelID: Id)
    requires CanBuild(models)
    ensures UpTo(DepsAmong(models), Elems(Ids(models)), modelID) == {} <==> modelID !in Elems(Ids(models))
  {
    var deps, ids := DepsAmong(models), Elems(Ids(models));
    KeysAreIds(models);
    if modelID in ids {
      assert modelID in UpTo(deps, ids, modelID);
    } else {
      forall id | Upstream(deps, modelID, id)
        ensures false
      {
        var d := UpstreamFirst(deps, modelID, id);
      }
    }
  }

  /** Such a run is recorded as an empty run with status error. */
  lemma EmptyRunIsError(run: ModelRun, deps: DepMap, w: World)
    requires FaithfulRun(run, deps, w, {})
    ensures run.status == Error && run.total == run.succeeded == run.failed == run.skipped == 0 && run.history == []
  {
    assert ExpectedFor(deps, w, {}) == map[];
    NothingReported(run);
    NothingDone(deps, w, run.history);
  }

  lemma NothingReported(run: ModelRun)
    requires run.Reports(map[])
    ensures run.status == Error && run.total == run.succeeded == run.failed == run.skipped == 0
  {
    NothingCounted();
  }

  lemma NothingDone(deps: DepMap, w: World, history: seq<Entry>)
    requires RanInOrder(deps, w, {}, history)
    ensures history == []
  {
    var order :| Topological(deps, order) && Elems(order) == {} && history == History(deps, w, order);
    DistinctCount(order);
    assert order == [];
  }

  lemma ComponentIsJoined(deps: DepMap, order: seq<Id>, comp: seq<Id>, anchor: Id)
    requires IsComponent(deps, order, comp) && anchor in comp
    ensures Elems(comp) == JoinedTo(deps, Elems(order), anchor)
  {
    assert forall id | id in comp :: id in Filter(order, Elems(comp));
  }

  lemma UpstreamIsRunOrder(deps: DepMap, order: seq<Id>, modelID: Id, upstream: set<Id>)
    requires Topological(deps, order)
    requires forall n :: n in upstream <==> n == modelID || Upstream(deps, modelID, n)
    ensures Topological(deps, Filter(order, upstream))
    ensures Elems(Filter(order, upstream)) == UpTo(deps, Elems(order), modelID)
  {
    forall id, d | id in order && id in upstream && d in DepsOf(deps, id)
      ensures d in upstream
    {
      DirectIsUpstream(deps, id, d);
      if id != modelID { UpstreamTransitive(deps, modelID, id, d); }
    }
    FilterKeepsTopological(deps, order, upstream);
  }

  datatype ValidationError =
    | UnknownModel(modelID: Id, modelName: string, ref: string)
    | SelfReference(modelID: Id, modelName: string, ref: string)
    | GraphError(error: DagError)

  /** The problems of one model's references, in order. */
  ghost function ProblemsOf(m: Model, refs: seq<string>, nameToID: NameMap): seq<ValidationError> {
    if refs == [] then []
    else
      var ref := refs[|refs| - 1];
      ProblemsOf(m, refs[..|refs| - 1], nameToID)
      + (if ref !in nameToID then [UnknownModel(m.id, m.name, ref)] else [])
      + (if (if ref in nameToID then nameToID[ref] else "") == m.id then [SelfReference(m.id, m.name, ref)] else [])
  }

  ghost function RefProblems(models: seq<Model>, nameToID: NameMap): seq<ValidationError> {
    if models == [] then []
    else
      var m := models[|models| - 1];
      RefProblems(models[..|models| - 1], nameToID) + ProblemsOf(m, Refs.Refs(m.sqlBody), nameToID)
  }

  /** The collected maps and lists after one more model. */
  lemma NextModel(models: seq<Model>, k: nat)
    requires k < |models|
    ensures var m := models[k];
            && Ids(models)[..k + 1] == Ids(models)[..k] + [m.id]
            && RefsByID(models[..k + 1]) == RefsByID(models[..k])[m.id := Refs.Refs(m.sqlBody)]
            && NameToID(models[..k + 1]) == NameToID(models[..k])[m.name := m.id]
            && ByID(models[..k + 1]) == ByID(models[..k])[m.id := m]
            && TargetsOf(models[..k + 1]) == TargetsOf(models[..k])[m.name := m.targetDatabase]
  {
    assert models[..k + 1][..k] == models[..k];
  }

  lemma NextProblems(models: seq<Model>, k: nat, nameToID: NameMap)
    requires k < |models|
    ensures RefProblems(models[..k + 1], nameToID) ==
            RefProblems(models[..k], nameToID) + ProblemsOf(models[k], Refs.Refs(models[k].sqlBody), nameToID)
  {
    assert models[..k + 1][..k] == models[..k];
  }

  ghost predicate SoundRefs(m: Model, refs: seq<string>, nameToID: NameMap) {
    forall k | 0 <= k < |refs| :: refs[k] in nameToID && nameToID[refs[k]] != m.id
  }

  lemma {:induction false} ProblemFreeModel(m: Model, refs: seq<string>, nameToID: NameMap)
    ensures ProblemsOf(m, refs, nameToID) == [] <==> SoundRefs(m, refs, nameToID)
  {
    if refs != [] { ProblemFreeModel(m, refs[..|refs| - 1], nameToID); }
  }

  ghost predicate AllSound(models: seq<Model>, nameToID: NameMap) {
    forall m | m in models :: SoundRefs(m, Refs.Refs(m.sqlBody), nameToID)
  }

  lemma AllSoundApart(models: seq<Model>, nameToID: NameMap)
    requires models != []
    ensures var init, m := models[..|models| - 1], models[|models| - 1];
            AllSound(models, nameToID) <==> AllSound(init, nameToID) && SoundRefs(m, Refs.Refs(m.sqlBody), nameToID)
  {
    assert models == models[..|models| - 1] + [models[|models| - 1]];
  }

  lemma ProblemsApart(models: seq<Model>, nameToID: NameMap)
    requires models != []
    ensures var init, m := models[..|models| - 1], models[|models| - 1];
            RefProblems(models, nameToID) == [] <==>
            RefProblems(init, nameToID) == [] && ProblemsOf(m, Refs.Refs(m.sqlBody), nameToID) == []
  {
  }

  lemma {:induction false} ProblemFreeModels(models: seq<Model>, nameToID: NameMap)
    ensures RefProblems(models, nameToID) == [] <==> AllSound(models, nameToID)
  {
    if models != [] {
      var m := models[|models| - 1];
      ProblemFreeModels(models[..|models| - 1], nameToID);
      ProblemFreeModel(m, Refs.Refs(m.sqlBody), nameToID);
      ProblemsApart(models, nameToID);
      AllSoundApart(models, nameToID);
    }
  }

  /** Without reference problems only a cycle can keep the graph from being built. */
  lemma ProblemFreeIsKnown(models: seq<Model>, nameToID: NameMap)
    requires DistinctIds(models) && nameToID == NameToID(models)
    ensures CanBuild(models) ==> RefProblems(models, nameToID) == []
    ensures RefProblems(models, nameToID) == [] ==> forall e :: !RefError(RefsByID(models), nameToID, e)
  {
    ProblemFreeModels(models, nameToID);
    KeysAreIds(models);
    var refs := RefsByID(models);
    if CanBuild(models) {
      forall m | m in models
        ensures SoundRefs(m, Refs.Refs(m.sqlBody), nameToID)
      {
        var i :| 0 <= i < |models| && models[i] == m;
        FoundByID(models, i);
        RefsAreTheirs(models, m.id);
        assert NamesKnown(refs[m.id], nameToID);
        forall k | 0 <= k < |refs[m.id]|
          ensures nameToID[refs[m.id][k]] != m.id
        {
          if nameToID[refs[m.id][k]] == m.id { SelfRefIsCycle(refs, nameToID, m.id, k); }
        }
      }
    }
    if RefProblems(models, nameToID) == [] {
      forall e
        ensures !RefError(refs, nameToID, e)
      {
        forall id, k | id in refs && 0 <= k < |refs[id]|
          ensures !BadRef(id, refs[id][k], nameToID, e)
        {
          var m := ModelWithID(models, id);
          RefsAreTheirs(models, id);
          assert SoundRefs(m, Refs.Refs(m.sqlBody), nameToID);
        }
      }
    }
  }

  lemma {:induction false} ModelWithID(models: seq<Model>, id: Id) returns (m: Model)
    requires id in ByID(models)
    ensures m in models && m.id == id && ByID(models)[id] == m
  {
    m := models[|models| - 1];
    if m.id != id { m := ModelWithID(models[..|models| - 1], id); }
  }

  /** The result rows once the models of `v` are done. */
  ghost function RowsSoFar(order: seq<Id>, v: Verdicts): map<Id, RowStatus> {
    map id | id in order :: if id in v then Finished(v[id]) else Pending
  }

  lemma RowsOneMore(order: seq<Id>, v: Verdicts, id: Id, verdict: Verdict)
    requires id in order
    ensures RowsSoFar(order, v)[id := Finished(verdict)] == RowsSoFar(order, v[id := verdict])
  {
  }

  lemma EveryRowFinished(order: seq<Id>, v: Verdicts)
    requires Distinct(order) && v.Keys == Elems(order)
    ensures RowsSoFar(order, v) == (map id | id in v :: Finished(v[id])) && |order| == |v|
  {
    DistinctCount(order);
    assert |v| == |v.Keys|;
  }

  /** The loop's counters and its failure set agree with the verdicts reached. */
  ghost predicate Counts(v: Verdicts, failed: set<Id>, succeeded: nat, failedCount: nat, skipped: nat) {
    && failed == v.Keys - Having(v, Succeeded)
    && succeeded == |Having(v, Succeeded)|
    && failedCount == |Having(v, Errored)|
    && skipped == |Having(v, Skipped)|
  }

  lemma NothingCounted()
    ensures Counts(map[], {}, 0, 0, 0)
  {
    var none: Verdicts := map[];
    assert Having(none, Succeeded) == Having(none, Errored) == Having(none, Skipped) == {};
  }

  lemma HavingOneMore(v: Verdicts, id: Id, verdict: Verdict, x: Verdict)
    requires id !in v
    ensures Having(v[id := verdict], x) == if x == verdict then Having(v, x) + {id} else Having(v, x)
    ensures |Having(v[id := verdict], x)| == |Having(v, x)| + if x == verdict then 1 else 0
  {
    assert Having(v[id := verdict], x) == if x == verdict then Having(v, x) + {id} else Having(v, x);
  }

  lemma FailedOneMore(v: Verdicts, failed: set<Id>, id: Id, verdict: Verdict)
    requires failed == v.Keys - Having(v, Succeeded) && id !in v
    ensures (if verdict == Succeeded then failed else failed + {id}) ==
            v[id := verdict].Keys - Having(v[id := verdict], Succeeded)
  {
    HavingOneMore(v, id, verdict, Succeeded);
  }

  lemma CountOneModel(v: Verdicts, failed: set<Id>, succeeded: nat, failedCount: nat, skipped: nat,
                      id: Id, verdict: Verdict)
    requires Counts(v, failed, succeeded, failedCount, skipped) && id !in v
    ensures Counts(v[id := verdict], if verdict == Succeeded then failed else failed + {id},
                   succeeded + (if verdict == Succeeded then 1 else 0),
                   failedCount + (if verdict == Errored then 1 else 0),
                   skipped + (if verdict == Skipped then 1 else 0))
  {
    FailedOneMore(v, failed, id, verdict);
    HavingOneMore(v, id, verdict, Succeeded);
    HavingOneMore(v, id, verdict, Errored);
    HavingOneMore(v, id, verdict, Skipped);
  }

  lemma NextSent(history: seq<Entry>, id: Id, stmts: seq<string>, k: nat, accepts: string -> bool)
    requires k < |stmts|
    ensures history + SentOf(id, stmts[k..], accepts) == history + [Sent(id, stmts[k])] +
            if accepts(stmts[k]) then SentOf(id, stmts[k + 1..], accepts) else []
  {
    assert stmts[k..][1..] == stmts[k + 1..];
  }

  lemma OneMoreModel(deps: DepMap, w: World, order: seq<Id>, k: nat, v: Verdicts)
    requires Distinct(order) && k < |order| && v == OnePass(deps, w, order[..k])
    ensures order[k] !in v
    ensures History(deps, w, order[..k + 1]) ==
            History(deps, w, order[..k]) + EntriesOf(w, order[k], VerdictAfter(deps, w, v, order[k]))
    ensures OnePass(deps, w, order[..k + 1]) == v[order[k] := VerdictAfter(deps, w, v, order[k])]
  {
    assert order[..k + 1][..k] == order[..k];
    assert order[k] !in Elems(order[..k]);
  }
}
