/** Reconciling the stored models of a connection with the model files of its repository. */
module Sync {
  import opened Common
  import opened Text

  const GITHUB := "github"
  const MANUAL := "manual"

  datatype Content = Content(sql: string, description: string, materialization: string,
                             targetDatabase: string, tableEngine: string, orderBy: string)

  datatype Parsed = Parsed(name: string, content: Content)

  datatype Row = Row(conn: string, name: string, source: string, content: Content)

  /** A row as the store lists it. */
  datatype Model = Model(id: nat, name: string, content: Content)

  /** The models table: rows by id, and an id above all that were ever used. */
  datatype Db = Db(rows: map<nat, Row>, next: nat)

  predicate SameKey(a: Row, b: Row) {
    a.conn == b.conn && a.name == b.name
  }

  /** The table's UNIQUE(connection_id, name) constraint, and fresh ids for new rows. */
  ghost predicate Good(db: Db) {
    && (forall id | id in db.rows :: id < db.next)
    && (forall i, j | i in db.rows && j in db.rows && SameKey(db.rows[i], db.rows[j]) :: i == j)
  }

  predicate NameTaken(db: Db, conn: string, name: string) {
    exists id | id in db.rows :: db.rows[id].conn == conn && db.rows[id].name == name
  }

  predicate Mine(row: Row, conn: string) {
    row.conn == conn && row.source == GITHUB
  }

  /** The name belongs to a model of the connection that did not come from the repository. */
  ghost predicate Held(db: Db, conn: string, name: string) {
    exists id | id in db.rows :: db.rows[id].conn == conn && db.rows[id].name == name && db.rows[id].source != GITHUB
  }

  predicate TakenByAnother(db: Db, id: nat, name: string) {
    id in db.rows
    && exists j | j in db.rows :: j != id && db.rows[j].conn == db.rows[id].conn && db.rows[j].name == name
  }

  function Inserted(db: Db, row: Row): Db {
    Db(db.rows[db.next := row], db.next + 1)
  }

  function Rewritten(db: Db, id: nat, p: Parsed): Db {
    if id in db.rows then db.(rows := db.rows[id := db.rows[id].(name := p.name, content := p.content)]) else db
  }

  function Without(db: Db, gone: set<nat>): Db {
    db.(rows := db.rows - gone)
  }

  /** The rows that came from the repository, each listed once. */
  ghost predicate IsListing(db: Db, conn: string, found: seq<Model>) {
    && (forall m | m in found :: m.id in db.rows && db.rows[m.id] == Row(conn, m.name, GITHUB, m.content))
    && (forall id | id in db.rows && Mine(db.rows[id], conn) ::
          Model(id, db.rows[id].name, db.rows[id].content) in found)
    && (forall i, j | 0 <= i < j < |found| :: found[i].id != found[j].id)
  }

  /** Field by field, the stored model differs from the file. */
  predicate ModelChanged(existing: Content, parsed: Content): (r: bool)
    ensures r <==> existing != parsed
  {
    if existing.sql != parsed.sql then true
    else if existing.description != parsed.description then true
    else if existing.materialization != parsed.materialization then true
    else if existing.targetDatabase != parsed.targetDatabase then true
    else if existing.tableEngine != parsed.tableEngine then true
    else if existing.orderBy != parsed.orderBy then true
    else false
  }

  // ---------------------------------------------------------------- the loop

  datatype Progress = Progress(db: Db, created: nat, updated: nat, same: nat, errors: seq<string>)

  function ByName(existing: seq<Model>): map<string, Model> {
    if existing == [] then map[]
    else ByName(existing[..|existing| - 1])[existing[|existing| - 1].name := existing[|existing| - 1]]
  }

  /** One file against the snapshot `index` taken before the loop. */
  function Step(conn: string, index: map<string, Model>, p: Parsed, s: Progress): Progress {
    if p.name !in index then
      if NameTaken(s.db, conn, p.name) then s.(errors := s.errors + [p.name])
      else s.(db := Inserted(s.db, Row(conn, p.name, GITHUB, p.content)), created := s.created + 1)
    else if ModelChanged(index[p.name].content, p.content) then
      if TakenByAnother(s.db, index[p.name].id, p.name) then s.(errors := s.errors + [p.name])
      else s.(db := Rewritten(s.db, index[p.name].id, p), updated := s.updated + 1)
    else s.(same := s.same + 1)
  }

  function Loop(conn: string, index: map<string, Model>, parsed: seq<Parsed>, s: Progress): Progress {
    if parsed == [] then s
    else Step(conn, index, parsed[|parsed| - 1], Loop(conn, index, parsed[..|parsed| - 1], s))
  }

  function NamesOf(parsed: seq<Parsed>): set<string> {
    set p | p in parsed :: p.name
  }

  /** The ids of the listed models whose name no file has. */
  function Doomed(existing: seq<Model>, seen: set<string>): set<nat> {
    set m | m in existing && m.name !in seen :: m.id
  }

  datatype Outcome = Outcome(db: Db, created: nat, updated: nat, deleted: nat, same: nat, errors: seq<string>)

  function Synced(db: Db, conn: string, existing: seq<Model>, parsed: seq<Parsed>, problems: seq<string>): Outcome {
    var s := Loop(conn, ByName(existing), parsed, Progress(db, 0, 0, 0, problems));
    var gone := Doomed(existing, NamesOf(parsed));
    Outcome(Without(s.db, gone), s.created, s.updated, |gone|, s.same, s.errors)
  }

  /** What one sync finds: the branch head, the files at it, their contents, and the repository models as listed. */
  datatype Pull = Pull(head: string, files: seq<string>, fetch: string -> Option<Content>, existing: seq<Model>)

  /** The table, and the head that the connection was last synced with. */
  datatype Repo = Repo(db: Db, last: string)

  /** There is nothing to do when the branch head is the one synced last. */
  predicate Skips(last: string, head: string) {
    head == last && last != ""
  }

  function Outcomes(db: Db, conn: string, a: Pull): Outcome {
    Synced(db, conn, a.existing, ReadOf(a.files, a.fetch).0, ReadOf(a.files, a.fetch).1)
  }

  /** One sync; the head counts as synced whatever went wrong with single files. */
  function SyncOnce(s: Repo, conn: string, a: Pull): Repo {
    if Skips(s.last, a.head) then s else Repo(Outcomes(s.db, conn, a).db, a.head)
  }

  function LastHead(heads: map<string, string>, conn: string): string {
    if conn in heads then heads[conn] else ""
  }

  /** The models table with the store's operations on it, and the heads synced last. */
  class ModelStore {
    var rows: map<nat, Row>
    var next: nat
    var heads: map<string, string>

    ghost function Table(): Db
      reads this
    {
      Db(rows, next)
    }

    constructor ()
      ensures Good(Table()) && Table() == Db(map[], 0) && heads == map[]
    {
      rows, next, heads := map[], 0, map[];
    }

    /** Inserts a row with source "manual"; refused when the connection has the name already. */
    method CreateModel(conn: string, p: Parsed) returns (created: Option<nat>)
      modifies this`rows, this`next
      ensures created.None? <==> NameTaken(old(Table()), conn, p.name)
      ensures created.None? ==> Table() == old(Table())
      ensures created.Some? ==>
                created.value == old(next) && Table() == Inserted(old(Table()), Row(conn, p.name, MANUAL, p.content))
    {
      if NameTaken(Db(rows, next), conn, p.name) {
        return None;
      }
      created := Some(next);
      rows := rows[next := Row(conn, p.name, MANUAL, p.content)];
      next := next + 1;
    }

    method SetModelSource(id: nat, source: string)
      modifies this`rows
      ensures rows == if id in old(rows) then old(rows)[id := old(rows)[id].(source := source)] else old(rows)
    {
      if id in rows {
        rows := rows[id := rows[id].(source := source)];
      }
    }

    /** Rewrites the row with this id, if there is one; refused when another row has the new name. */
    method UpdateModel(id: nat, p: Parsed) returns (ok: bool)
      modifies this`rows
      ensures ok <==> !TakenByAnother(old(Table()), id, p.name)
      ensures Table() == if ok then Rewritten(old(Table()), id, p) else old(Table())
    {
      ok := !TakenByAnother(Db(rows, next), id, p.name);
      if ok && id in rows {
        rows := rows[id := rows[id].(name := p.name, content := p.content)];
      }
    }

    method DeleteModel(id: nat)
      modifies this`rows
      ensures Table() == Without(old(Table()), {id})
    {
      rows := rows - {id};
    }

    /** The models of one connection that came from the repository, in some order. */
    method ListGitHubModels(conn: string) returns (found: seq<Model>)
      ensures IsListing(Table(), conn, found)
    {
      found := [];
      var todo := rows.Keys;
      while todo != {}
        invariant todo <= rows.Keys
        invariant forall m | m in found ::
                    m.id in rows && m.id !in todo && rows[m.id] == Row(conn, m.name, GITHUB, m.content)
        invariant forall id | id in rows && id !in todo && Mine(rows[id], conn) ::
                    Model(id, rows[id].name, rows[id].content) in found
        invariant forall i, j | 0 <= i < j < |found| :: found[i].id != found[j].id
      {
        var id :| id in todo;
        todo := todo - {id};
        if Mine(rows[id], conn) {
          found := found + [Model(id, rows[id].name, rows[id].content)];
        }
      }
    }

    /** Creates, rewrites or leaves alone the model of one file. */
    method SyncFile(conn: string, index: map<string, Model>, p: Parsed, ghost s: Progress)
      returns (created: nat, updated: nat, same: nat, failed: bool)
      requires Table() == s.db
      modifies this`rows, this`next
      ensures Step(conn, index, p, s) ==
              Progress(Table(), s.created + created, s.updated + updated, s.same + same,
                       if failed then s.errors + [p.name] else s.errors)
    {
      created, updated, same, failed := 0, 0, 0, false;
      if p.name !in index {
        var id := CreateModel(conn, p);
        if id.None? {
          failed := true;
          return;
        }
        SetModelSource(id.value, GITHUB);
        created := 1;
        assert rows == s.db.rows[s.db.next := Row(conn, p.name, GITHUB, p.content)];
      } else if ModelChanged(index[p.name].content, p.content) {
        var ok := UpdateModel(index[p.name].id, p);
        if ok {
          updated := 1;
        } else {
          failed := true;
        }
      } else {
        same := 1;
      }
    }

    /** Deletes the listed models whose name was not seen. */
    method Prune(existing: seq<Model>, seen: set<string>) returns (deleted: nat)
      requires forall i, j | 0 <= i < j < |existing| :: existing[i].id != existing[j].id
      modifies this`rows
      ensures Table() == Without(old(Table()), Doomed(existing, seen))
      ensures deleted == |Doomed(existing, seen)|
    {
      deleted := 0;
      ghost var gone: set<nat> := {};
      var i := 0;
      while i < |existing|
        invariant 0 <= i <= |existing|
        invariant next == old(next) && rows == old(rows) - gone
        invariant gone == Doomed(existing[..i], seen) && deleted == |gone|
      {
        DoomedGrows(existing, seen, i);
        if existing[i].name !in seen {
          RemoveOneMore(old(rows), gone, existing[i].id);
          DeleteModel(existing[i].id);
          gone := gone + {existing[i].id};
          deleted := deleted + 1;
        }
        i := i + 1;
      }
      assert existing[..i] == existing;
    }

    /** Every file in turn; the names seen come back with the counts. */
    method SyncFiles(conn: string, index: map<string, Model>, parsed: seq<Parsed>, problems: seq<string>)
      returns (created: nat, updated: nat, same: nat, errors: seq<string>, seen: set<string>)
      modifies this`rows, this`next
      ensures seen == NamesOf(parsed)
      ensures Progress(Table(), created, updated, same, errors) ==
              Loop(conn, index, parsed, Progress(old(Table()), 0, 0, 0, problems))
    {
      created, updated, same, errors, seen := 0, 0, 0, problems, {};
      var i := 0;
      while i < |parsed|
        invariant 0 <= i <= |parsed|
        invariant seen == NamesOf(parsed[..i])
        invariant Progress(Table(), created, updated, same, errors) ==
                  Loop(conn, index, parsed[..i], Progress(old(Table()), 0, 0, 0, problems))
      {
        var p := parsed[i];
        LoopGrows(conn, index, parsed, i, Progress(old(Table()), 0, 0, 0, problems));
        NamesGrow(parsed, i);
        seen := seen + {p.name};
        var c, u, n, failed := SyncFile(conn, index, p, Progress(Table(), created, updated, same, errors));
        created, updated, same := created + c, updated + u, same + n;
        if failed {
          errors := errors + [p.name];
        }
        i := i + 1;
      }
      assert parsed[..i] == parsed;
    }

    method SetLastSynced(conn: string, head: string)
      modifies this`heads
      ensures heads == old(heads)[conn := head]
    {
      heads := heads[conn := head];
    }

    /** One sync of a connection; nothing is done when the branch head is the one synced last. */
    method DoSync(conn: string, head: string, files: seq<string>, fetch: string -> Option<Content>)
      returns (existing: seq<Model>, created: nat, updated: nat, deleted: nat, same: nat, errors: seq<string>)
      modifies this
      ensures var a, last := Pull(head, files, fetch, existing), LastHead(old(heads), conn);
              && SyncOnce(Repo(old(Table()), last), conn, a) == Repo(Table(), LastHead(heads, conn))
              && (if Skips(last, head) then created == updated == deleted == same == 0 && errors == []
                  else Outcome(Table(), created, updated, deleted, same, errors) == Outcomes(old(Table()), conn, a))
      ensures !Skips(LastHead(old(heads), conn), head) ==> IsListing(old(Table()), conn, existing)
      ensures forall c | c != conn :: LastHead(heads, c) == LastHead(old(heads), c)
    {
      existing, created, updated, deleted, same, errors := [], 0, 0, 0, 0, [];
      if head == LastHead(heads, conn) && LastHead(heads, conn) != "" {
        return;
      }
      var parsed, problems := ReadFiles(files, fetch);
      existing := ListGitHubModels(conn);
      var index := BuildIndex(existing);
      var seen;
      created, updated, same, errors, seen := SyncFiles(conn, index, parsed, problems);
      deleted := Prune(existing, seen);
      SetLastSynced(conn, head);
    }
  }

  lemma NamesGrow(parsed: seq<Parsed>, i: nat)
    requires i < |parsed|
    ensures NamesOf(parsed[..i + 1]) == NamesOf(parsed[..i]) + {parsed[i].name}
  {
    assert parsed[..i + 1] == parsed[..i] + [parsed[i]];
  }

  lemma LoopGrows(conn: string, index: map<string, Model>, parsed: seq<Parsed>, i: nat, s: Progress)
    requires i < |parsed|
    ensures Loop(conn, index, parsed[..i + 1], s) == Step(conn, index, parsed[i], Loop(conn, index, parsed[..i], s))
  {
    assert parsed[..i + 1][..i] == parsed[..i];
  }

  lemma RemoveOneMore(rows: map<nat, Row>, gone: set<nat>, id: nat)
    ensures rows - gone - {id} == rows - (gone + {id})
  {
  }

  lemma DoomedGrows(existing: seq<Model>, seen: set<string>, i: nat)
    requires i < |existing|
    requires forall i, j | 0 <= i < j < |existing| :: existing[i].id != existing[j].id
    ensures Doomed(existing[..i + 1], seen) ==
            Doomed(existing[..i], seen) + if existing[i].name in seen then {} else {existing[i].id}
    ensures existing[i].id !in Doomed(existing[..i], seen)
  {
    assert existing[..i + 1] == existing[..i] + [existing[i]];
  }

  method BuildIndex(existing: seq<Model>) returns (index: map<string, Model>)
    ensures index == ByName(existing)
  {
    index := map[];
    var i := 0;
    while i < |existing|
      invariant 0 <= i <= |existing|
      invariant index == ByName(existing[..i])
    {
      assert existing[..i + 1][..i] == existing[..i];
      index := index[existing[i].name := existing[i]];
      i := i + 1;
    }
    assert existing[..i] == existing;
  }

  // ---------------------------------------------------------------- what the loop keeps

  /** The index holds exactly the repository's rows of `db0`, under their names. */
  ghost predicate IsIndex(db0: Db, conn: string, index: map<string, Model>) {
    && (forall name | name in index ::
          && index[name].name == name && index[name].id in db0.rows
          && db0.rows[index[name].id] == Row(conn, name, GITHUB, index[name].content))
    && (forall id | id in db0.rows && Mine(db0.rows[id], conn) ::
          db0.rows[id].name in index && index[db0.rows[id].name].id == id)
  }

  lemma {:induction false} IndexHasListed(existing: seq<Model>)
    ensures forall name | name in ByName(existing) ::
            ByName(existing)[name] in existing && ByName(existing)[name].name == name
    ensures forall m | m in existing :: m.name in ByName(existing)
  {
    if existing != [] {
      var n := |existing| - 1;
      IndexHasListed(existing[..n]);
      assert existing == existing[..n] + [existing[n]];
    }
  }

  lemma ListingGivesIndex(db0: Db, conn: string, existing: seq<Model>)
    requires Good(db0) && IsListing(db0, conn, existing)
    ensures IsIndex(db0, conn, ByName(existing))
  {
    var index := ByName(existing);
    IndexHasListed(existing);
    forall id | id in db0.rows && Mine(db0.rows[id], conn)
      ensures db0.rows[id].name in index && index[db0.rows[id].name].id == id
    {
      var m := Model(id, db0.rows[id].name, db0.rows[id].content);
      assert m in existing;
      var other := index[m.name];
      assert other in existing && SameKey(db0.rows[other.id], db0.rows[id]);
    }
  }

  /** Row `id` of `db0` is still there; only a repository model with a seen name may have new content. */
  ghost predicate RowKept(db0: Db, conn: string, names: set<string>, db: Db, id: nat)
    requires id in db0.rows
  {
    && id in db.rows
    && db.rows[id] == db0.rows[id].(content := db.rows[id].content)
    && (db.rows[id] == db0.rows[id] || (Mine(db0.rows[id], conn) && db0.rows[id].name in names))
  }

  /** A row that `db0` does not have was created for a seen name that was free. */
  ghost predicate RowNew(db0: Db, conn: string, names: set<string>, db: Db, id: nat)
    requires id in db.rows
  {
    Mine(db.rows[id], conn) && db.rows[id].name in names && !NameTaken(db0, conn, db.rows[id].name)
  }

  ghost predicate Kept(db0: Db, conn: string, names: set<string>, db: Db) {
    && Good(db) && db0.next <= db.next
    && (forall id | id in db0.rows :: RowKept(db0, conn, names, db, id))
    && (forall id | id in db.rows && id !in db0.rows :: RowNew(db0, conn, names, db, id))
  }

  /** Every row that came from the repository and has the name of `p` has the content of `p`. */
  ghost predicate Agrees(db: Db, conn: string, p: Parsed) {
    forall id | id in db.rows && Mine(db.rows[id], conn) && db.rows[id].name == p.name ::
      db.rows[id].content == p.content
  }

  /** Files of one name have one content, unless the name is held and none of them is stored. */
  ghost predicate Consistent(db: Db, conn: string, parsed: seq<Parsed>) {
    forall p, q | p in parsed && q in parsed && p.name == q.name && !Held(db, conn, p.name) :: p.content == q.content
  }

  lemma KeptAtStart(db0: Db, conn: string)
    requires Good(db0)
    ensures Kept(db0, conn, {}, db0)
  {
  }

  lemma CreateKeeps(db0: Db, conn: string, names: set<string>, db: Db, p: Parsed)
    requires Kept(db0, conn, names, db) && !NameTaken(db, conn, p.name)
    ensures Kept(db0, conn, names + {p.name}, Inserted(db, Row(conn, p.name, GITHUB, p.content)))
  {
    var out := Inserted(db, Row(conn, p.name, GITHUB, p.content));
    assert db.next !in db.rows;
    forall id | id in db0.rows
      ensures RowKept(db0, conn, names + {p.name}, out, id)
    {
      assert RowKept(db0, conn, names, db, id);
    }
    forall id | id in out.rows && id !in db0.rows
      ensures RowNew(db0, conn, names + {p.name}, out, id)
    {
      assert id in db.rows ==> RowNew(db0, conn, names, db, id);
    }
  }

  lemma RewrittenStaysGood(db: Db, id: nat, p: Parsed)
    requires Good(db) && id in db.rows && db.rows[id].name == p.name
    ensures Good(Rewritten(db, id, p)) && !TakenByAnother(db, id, p.name)
  {
    var out := Rewritten(db, id, p);
    forall i, j | i in out.rows && j in out.rows && SameKey(out.rows[i], out.rows[j])
      ensures i == j
    {
      assert SameKey(db.rows[i], db.rows[j]);
    }
    forall j | j in db.rows && db.rows[j].conn == db.rows[id].conn && db.rows[j].name == p.name
      ensures j == id
    {
      assert SameKey(db.rows[j], db.rows[id]);
    }
  }

  lemma UpdateKeeps(db0: Db, conn: string, index: map<string, Model>, names: set<string>, db: Db, p: Parsed)
    requires Kept(db0, conn, names, db) && IsIndex(db0, conn, index) && p.name in index
    ensures !TakenByAnother(db, index[p.name].id, p.name)
    ensures Kept(db0, conn, names + {p.name}, Rewritten(db, index[p.name].id, p))
  {
    var out, k := Rewritten(db, index[p.name].id, p), index[p.name].id;
    assert RowKept(db0, conn, names, db, k);
    RewrittenStaysGood(db, k, p);
    forall id | id in db0.rows
      ensures RowKept(db0, conn, names + {p.name}, out, id)
    {
      assert RowKept(db0, conn, names, db, id);
    }
    forall id | id in out.rows && id !in db0.rows
      ensures RowNew(db0, conn, names + {p.name}, out, id)
    {
      assert RowNew(db0, conn, names, db, id);
    }
  }

  lemma KeptGrows(db0: Db, conn: string, names: set<string>, db: Db, more: set<string>)
    requires Kept(db0, conn, names, db) && names <= more
    ensures Kept(db0, conn, more, db)
  {
    forall id | id in db0.rows
      ensures RowKept(db0, conn, more, db, id)
    {
      assert RowKept(db0, conn, names, db, id);
    }
    forall id | id in db.rows && id !in db0.rows
      ensures RowNew(db0, conn, more, db, id)
    {
      assert RowNew(db0, conn, names, db, id);
    }
  }

  lemma StepKeeps(db0: Db, conn: string, index: map<string, Model>, names: set<string>, p: Parsed, s: Progress)
    requires Kept(db0, conn, names, s.db) && IsIndex(db0, conn, index)
    ensures Kept(db0, conn, names + {p.name}, Step(conn, index, p, s).db)
    ensures NameTaken(Step(conn, index, p, s).db, conn, p.name)
  {
    if p.name in index {
      UpdateKeeps(db0, conn, index, names, s.db, p);
      KeptGrows(db0, conn, names, s.db, names + {p.name});
      var k := index[p.name].id;
      var out := Step(conn, index, p, s).db;
      assert RowKept(db0, conn, names + {p.name}, out, k);
      assert out.rows[k].conn == conn && out.rows[k].name == p.name;
    } else if NameTaken(s.db, conn, p.name) {
      KeptGrows(db0, conn, names, s.db, names + {p.name});
    } else {
      CreateKeeps(db0, conn, names, s.db, p);
      var out := Step(conn, index, p, s).db;
      assert out.rows[s.db.next].conn == conn && out.rows[s.db.next].name == p.name;
    }
  }

  lemma TakenStays(db0: Db, conn: string, index: map<string, Model>, names: set<string>, p: Parsed, s: Progress,
                   name: string)
    requires Kept(db0, conn, names, s.db) && IsIndex(db0, conn, index) && NameTaken(s.db, conn, name)
    ensures NameTaken(Step(conn, index, p, s).db, conn, name)
  {
    var id :| id in s.db.rows && s.db.rows[id].conn == conn && s.db.rows[id].name == name;
    var out := Step(conn, index, p, s).db;
    if p.name in index {
      assert RowKept(db0, conn, names, s.db, index[p.name].id);
    }
    assert id in out.rows && out.rows[id].conn == conn && out.rows[id].name == name;
  }

  /** After the files so far nothing else was touched. */
  lemma {:induction false} LoopKeeps(conn: string, index: map<string, Model>, parsed: seq<Parsed>, s: Progress)
    requires Good(s.db) && IsIndex(s.db, conn, index)
    ensures Kept(s.db, conn, NamesOf(parsed), Loop(conn, index, parsed, s).db)
  {
    if parsed == [] {
      KeptAtStart(s.db, conn);
    } else {
      var n := |parsed| - 1;
      LoopKeeps(conn, index, parsed[..n], s);
      StepKeeps(s.db, conn, index, NamesOf(parsed[..n]), parsed[n], Loop(conn, index, parsed[..n], s));
      assert parsed[..n + 1] == parsed;
      NamesGrow(parsed, n);
    }
  }

  /** After the files so far the name of each of them is taken. */
  lemma {:induction false} LoopTakes(conn: string, index: map<string, Model>, parsed: seq<Parsed>, s: Progress,
                                     p: Parsed)
    requires Good(s.db) && IsIndex(s.db, conn, index) && p in parsed
    ensures NameTaken(Loop(conn, index, parsed, s).db, conn, p.name)
  {
    var n := |parsed| - 1;
    LoopKeeps(conn, index, parsed[..n], s);
    if p == parsed[n] {
      StepKeeps(s.db, conn, index, NamesOf(parsed[..n]), p, Loop(conn, index, parsed[..n], s));
    } else {
      LoopTakes(conn, index, parsed[..n], s, p);
      TakenStays(s.db, conn, index, NamesOf(parsed[..n]), parsed[n], Loop(conn, index, parsed[..n], s), p.name);
    }
  }

  /** No repository row has a held name. */
  lemma HeldIsNotMine(db0: Db, conn: string, names: set<string>, db: Db, id: nat)
    requires Kept(db0, conn, names, db) && id in db.rows && Mine(db.rows[id], conn)
    ensures !Held(db0, conn, db.rows[id].name)
  {
    if Held(db0, conn, db.rows[id].name) {
      var h :| h in db0.rows && db0.rows[h].conn == conn && db0.rows[h].name == db.rows[id].name
               && db0.rows[h].source != GITHUB;
      assert RowKept(db0, conn, names, db, h);
      assert SameKey(db.rows[h], db.rows[id]);
      assert false;
    }
  }

  /** Files of one name that share their content agree with what the earlier ones left. */
  ghost predicate Fits(db0: Db, conn: string, done: seq<Parsed>, p: Parsed) {
    forall q | q in done && q.name == p.name && !Held(db0, conn, p.name) :: q.content == p.content
  }

  /** The content of an untouched or agreeing row, seen from the snapshot. */
  lemma RowContent(db0: Db, conn: string, done: seq<Parsed>, db: Db, p: Parsed, id: nat)
    requires Kept(db0, conn, NamesOf(done), db) && Fits(db0, conn, done, p)
    requires forall q | q in done :: Agrees(db, conn, q)
    requires id in db.rows && Mine(db.rows[id], conn) && db.rows[id].name == p.name
    requires id !in db0.rows || db.rows[id] != db0.rows[id]
    ensures db.rows[id].content == p.content
  {
    assert if id in db0.rows then RowKept(db0, conn, NamesOf(done), db, id)
           else RowNew(db0, conn, NamesOf(done), db, id);
    assert p.name in NamesOf(done);
    var q :| q in done && q.name == p.name;
    HeldIsNotMine(db0, conn, NamesOf(done), db, id);
    assert Agrees(db, conn, q);
  }

  lemma StepAgrees(db0: Db, conn: string, index: map<string, Model>, done: seq<Parsed>, p: Parsed, s: Progress)
    requires Kept(db0, conn, NamesOf(done), s.db) && IsIndex(db0, conn, index) && Fits(db0, conn, done, p)
    requires forall q | q in done :: Agrees(s.db, conn, q)
    ensures Agrees(Step(conn, index, p, s).db, conn, p)
  {
    var out := Step(conn, index, p, s).db;
    StepKeeps(db0, conn, index, NamesOf(done), p, s);
    if p.name in index {
      UpdateKeeps(db0, conn, index, NamesOf(done), s.db, p);
    }
    forall id | id in out.rows && Mine(out.rows[id], conn) && out.rows[id].name == p.name
      ensures out.rows[id].content == p.content
    {
      if p.name in index {
        assert RowKept(db0, conn, NamesOf(done) + {p.name}, out, index[p.name].id);
        assert SameKey(out.rows[id], out.rows[index[p.name].id]);
        if !ModelChanged(index[p.name].content, p.content) && out.rows[id] != db0.rows[id] {
          RowContent(db0, conn, done, s.db, p, id);
        }
      } else if NameTaken(s.db, conn, p.name) {
        RowContent(db0, conn, done, s.db, p, id);
      } else {
        assert id !in s.db.rows;
      }
    }
  }

  lemma StepKeepsAgreeing(db0: Db, conn: string, index: map<string, Model>, names: set<string>, p: Parsed, s: Progress,
                          q: Parsed)
    requires Kept(db0, conn, names, s.db) && IsIndex(db0, conn, index)
    requires Agrees(s.db, conn, q) && q.name != p.name
    ensures Agrees(Step(conn, index, p, s).db, conn, q)
  {
    if p.name in index {
      assert RowKept(db0, conn, names, s.db, index[p.name].id);
    }
  }

  lemma HeldAgrees(db0: Db, conn: string, names: set<string>, db: Db, p: Parsed)
    requires Kept(db0, conn, names, db) && Held(db0, conn, p.name)
    ensures Agrees(db, conn, p)
  {
    var h :| h in db0.rows && db0.rows[h].conn == conn && db0.rows[h].name == p.name && db0.rows[h].source != GITHUB;
    assert RowKept(db0, conn, names, db, h);
    assert forall id | id in db.rows && SameKey(db.rows[id], db.rows[h]) :: id == h;
  }

  /** One more file keeps the agreement with file `p`, an earlier one or this one. */
  lemma NextAgrees(db0: Db, conn: string, index: map<string, Model>, done: seq<Parsed>, next: Parsed, s: Progress,
                   p: Parsed)
    requires Kept(db0, conn, NamesOf(done), s.db) && IsIndex(db0, conn, index) && Fits(db0, conn, done, next)
    requires forall q | q in done :: Agrees(s.db, conn, q)
    requires p in done || p == next
    ensures Agrees(Step(conn, index, next, s).db, conn, p)
  {
    if p.name != next.name {
      StepKeepsAgreeing(db0, conn, index, NamesOf(done), next, s, p);
    } else if Held(db0, conn, p.name) {
      StepKeeps(db0, conn, index, NamesOf(done), next, s);
      HeldAgrees(db0, conn, NamesOf(done) + {next.name}, Step(conn, index, next, s).db, p);
    } else {
      StepAgrees(db0, conn, index, done, next, s);
    }
  }

  lemma ConsistentPrefix(db: Db, conn: string, parsed: seq<Parsed>, n: nat)
    requires Consistent(db, conn, parsed) && n < |parsed|
    ensures Consistent(db, conn, parsed[..n]) && Fits(db, conn, parsed[..n], parsed[n])
  {
  }

  lemma {:induction false} LoopAgrees(conn: string, index: map<string, Model>, parsed: seq<Parsed>, s: Progress,
                                      p: Parsed)
    requires Good(s.db) && IsIndex(s.db, conn, index) && Consistent(s.db, conn, parsed) && p in parsed
    ensures Agrees(Loop(conn, index, parsed, s).db, conn, p)
    decreases |parsed|
  {
    var n := |parsed| - 1;
    ConsistentPrefix(s.db, conn, parsed, n);
    LoopKeeps(conn, index, parsed[..n], s);
    forall q | q in parsed[..n]
      ensures Agrees(Loop(conn, index, parsed[..n], s).db, conn, q)
    {
      LoopAgrees(conn, index, parsed[..n], s, q);
    }
    NextAgrees(s.db, conn, index, parsed[..n], parsed[n], Loop(conn, index, parsed[..n], s), p);
  }

  // ---------------------------------------------------------------- one whole sync

  /** What a sync leaves behind, before any assumption on the files. */
  ghost predicate LeavesOthersAlone(db0: Db, conn: string, parsed: seq<Parsed>, db: Db) {
    && Good(db)
    && (forall id | id in db0.rows && !Mine(db0.rows[id], conn) :: id in db.rows && db.rows[id] == db0.rows[id])
    && (forall id | id in db0.rows && db0.rows[id].name in NamesOf(parsed) ::
          id in db.rows && db.rows[id] == db0.rows[id].(content := db.rows[id].content))
    && (forall id | id in db.rows && (id !in db0.rows || Mine(db.rows[id], conn)) ::
          Mine(db.rows[id], conn) && db.rows[id].name in NamesOf(parsed))
  }

  ghost function Before(db: Db, problems: seq<string>): Progress {
    Progress(db, 0, 0, 0, problems)
  }

  lemma SeenIsNotDoomed(db0: Db, conn: string, existing: seq<Model>, seen: set<string>, id: nat)
    requires IsListing(db0, conn, existing) && id in db0.rows
    ensures id in Doomed(existing, seen) <==> Mine(db0.rows[id], conn) && db0.rows[id].name !in seen
  {
    if Mine(db0.rows[id], conn) {
      assert Model(id, db0.rows[id].name, db0.rows[id].content) in existing;
    }
  }

  lemma DoomedAreOld(db0: Db, conn: string, existing: seq<Model>, seen: set<string>)
    requires IsListing(db0, conn, existing)
    ensures Doomed(existing, seen) <= db0.rows.Keys
  {
  }

  /** Rows of other connections and other sources survive unchanged, ids and names are kept,
      no repository row has a name without a file, and names stay unique. */
  lemma SyncTouchesOnlyItsOwn(db0: Db, conn: string, existing: seq<Model>, parsed: seq<Parsed>, problems: seq<string>)
    requires Good(db0) && IsListing(db0, conn, existing)
    ensures LeavesOthersAlone(db0, conn, parsed, Synced(db0, conn, existing, parsed, problems).db)
  {
    var index, seen := ByName(existing), NamesOf(parsed);
    var mid, gone := Loop(conn, index, parsed, Before(db0, problems)).db, Doomed(existing, seen);
    var out := Without(mid, gone);
    ListingGivesIndex(db0, conn, existing);
    LoopKeeps(conn, index, parsed, Before(db0, problems));
    DoomedAreOld(db0, conn, existing, seen);
    PrunedStaysGood(mid, gone);
    forall id | id in db0.rows
      ensures !Mine(db0.rows[id], conn) ==> id in out.rows && out.rows[id] == db0.rows[id]
      ensures db0.rows[id].name in seen ==>
                id in out.rows && out.rows[id] == db0.rows[id].(content := out.rows[id].content)
      ensures id in out.rows && Mine(out.rows[id], conn) ==> out.rows[id].name in seen
    {
      SeenIsNotDoomed(db0, conn, existing, seen, id);
      assert RowKept(db0, conn, seen, mid, id);
    }
    forall id | id in out.rows && id !in db0.rows
      ensures Mine(out.rows[id], conn) && out.rows[id].name in seen
    {
      assert RowNew(db0, conn, seen, mid, id);
    }
  }

  lemma PrunedStaysGood(db: Db, gone: set<nat>)
    requires Good(db)
    ensures Good(Without(db, gone))
  {
    var out := Without(db, gone);
    forall i, j | i in out.rows && j in out.rows && SameKey(out.rows[i], out.rows[j])
      ensures i == j
    {
      assert SameKey(db.rows[i], db.rows[j]);
    }
  }

  ghost predicate Stored(db: Db, conn: string, p: Parsed) {
    exists id :: id in db.rows && db.rows[id] == Row(conn, p.name, GITHUB, p.content)
  }

  /** A repository row, whatever its content. */
  ghost predicate HasFile(db: Db, conn: string, name: string) {
    exists id :: id in db.rows && Mine(db.rows[id], conn) && db.rows[id].name == name
  }

  /** Every file whose name is free to use has a row afterwards. */
  lemma FileHasRow(db0: Db, conn: string, existing: seq<Model>, parsed: seq<Parsed>, problems: seq<string>, p: Parsed)
    requires Good(db0) && IsListing(db0, conn, existing) && p in parsed
    ensures HasFile(Synced(db0, conn, existing, parsed, problems).db, conn, p.name) <==> !Held(db0, conn, p.name)
  {
    var index, seen := ByName(existing), NamesOf(parsed);
    var mid := Loop(conn, index, parsed, Before(db0, problems)).db;
    var out := Synced(db0, conn, existing, parsed, problems).db;
    ListingGivesIndex(db0, conn, existing);
    LoopKeeps(conn, index, parsed, Before(db0, problems));
    LoopTakes(conn, index, parsed, Before(db0, problems), p);
    var id :| id in mid.rows && mid.rows[id].conn == conn && mid.rows[id].name == p.name;
    if !Held(db0, conn, p.name) {
      if id in db0.rows {
        assert RowKept(db0, conn, seen, mid, id);
        SeenIsNotDoomed(db0, conn, existing, seen, id);
      } else {
        assert RowNew(db0, conn, seen, mid, id);
        DoomedAreOld(db0, conn, existing, seen);
      }
      assert id in out.rows && Mine(out.rows[id], conn) && out.rows[id].name == p.name;
    } else if HasFile(out, conn, p.name) {
      var k :| k in out.rows && Mine(out.rows[k], conn) && out.rows[k].name == p.name;
      HeldIsNotMine(db0, conn, seen, mid, k);
      assert false;
    }
  }

  lemma AgreeingRowStoresFile(db: Db, conn: string, p: Parsed)
    requires HasFile(db, conn, p.name) && Agrees(db, conn, p)
    ensures Stored(db, conn, p)
  {
    var id :| id in db.rows && Mine(db.rows[id], conn) && db.rows[id].name == p.name;
    assert db.rows[id] == Row(conn, p.name, GITHUB, p.content);
  }

  lemma ConsistentRowsAgree(db0: Db, conn: string, existing: seq<Model>, parsed: seq<Parsed>, problems: seq<string>,
                            p: Parsed)
    requires Good(db0) && IsListing(db0, conn, existing) && Consistent(db0, conn, parsed) && p in parsed
    ensures Agrees(Synced(db0, conn, existing, parsed, problems).db, conn, p)
  {
    ListingGivesIndex(db0, conn, existing);
    LoopAgrees(conn, ByName(existing), parsed, Before(db0, problems), p);
  }

  /** The repository rows of the connection, as files. */
  ghost function FilesIn(db: Db, conn: string): set<Parsed> {
    set id | id in db.rows && Mine(db.rows[id], conn) :: Parsed(db.rows[id].name, db.rows[id].content)
  }

  ghost predicate OneContentPerName(parsed: seq<Parsed>) {
    forall p, q | p in parsed && q in parsed && p.name == q.name :: p == q
  }

  lemma MirrorNeedsFreeNames(db0: Db, conn: string, existing: seq<Model>, parsed: seq<Parsed>, problems: seq<string>,
                             p: Parsed)
    requires Good(db0) && IsListing(db0, conn, existing) && p in parsed
    requires p in FilesIn(Synced(db0, conn, existing, parsed, problems).db, conn)
    ensures !Held(db0, conn, p.name)
  {
    var out := Synced(db0, conn, existing, parsed, problems).db;
    var id :| id in out.rows && Mine(out.rows[id], conn) && p == Parsed(out.rows[id].name, out.rows[id].content);
    assert HasFile(out, conn, p.name);
    FileHasRow(db0, conn, existing, parsed, problems, p);
  }

  lemma UniqueNamesGiveOneContent(db: Db, conn: string, p: Parsed, q: Parsed)
    requires Good(db) && p in FilesIn(db, conn) && q in FilesIn(db, conn) && p.name == q.name
    ensures p == q
  {
    var i :| i in db.rows && Mine(db.rows[i], conn) && p == Parsed(db.rows[i].name, db.rows[i].content);
    var j :| j in db.rows && Mine(db.rows[j], conn) && q == Parsed(db.rows[j].name, db.rows[j].content);
    assert SameKey(db.rows[i], db.rows[j]);
  }

  /** The stored repository models are exactly the parsed files, field by field, if and only if
      no file's name is held by another kind of model and files of one name are one file. */
  lemma MirrorsExactlyFreeDistinctFiles(db0: Db, conn: string, existing: seq<Model>, parsed: seq<Parsed>,
                                        problems: seq<string>)
    requires Good(db0) && IsListing(db0, conn, existing)
    ensures FilesIn(Synced(db0, conn, existing, parsed, problems).db, conn) == Elems(parsed)
            <==> OneContentPerName(parsed) && forall p | p in parsed :: !Held(db0, conn, p.name)
  {
    var out := Synced(db0, conn, existing, parsed, problems).db;
    SyncTouchesOnlyItsOwn(db0, conn, existing, parsed, problems);
    if OneContentPerName(parsed) && forall p | p in parsed :: !Held(db0, conn, p.name) {
      forall p | p in parsed
        ensures p in FilesIn(out, conn) && Agrees(out, conn, p)
      {
        FileHasRow(db0, conn, existing, parsed, problems, p);
        ConsistentRowsAgree(db0, conn, existing, parsed, problems, p);
        AgreeingRowStoresFile(out, conn, p);
      }
      forall f | f in FilesIn(out, conn)
        ensures f in Elems(parsed)
      {
        var p :| p in parsed && p.name == f.name;
        UniqueNamesGiveOneContent(out, conn, p, f);
      }
    }
    if FilesIn(out, conn) == Elems(parsed) {
      forall p | p in parsed
        ensures !Held(db0, conn, p.name)
      {
        MirrorNeedsFreeNames(db0, conn, existing, parsed, problems, p);
      }
      forall p, q | p in parsed && q in parsed && p.name == q.name
        ensures p == q
      {
        UniqueNamesGiveOneContent(out, conn, p, q);
      }
    }
  }

  /** It happens: of two files with one name and different contents only one can be stored. */
  lemma TwoFilesOfOneName(conn: string, name: string, a: Content, b: Content, problems: seq<string>)
    requires a != b
    ensures var parsed := [Parsed(name, a), Parsed(name, b)];
            && IsListing(Db(map[], 0), conn, [])
            && FilesIn(Synced(Db(map[], 0), conn, [], parsed, problems).db, conn) != Elems(parsed)
  {
    var parsed := [Parsed(name, a), Parsed(name, b)];
    assert parsed[0] in parsed && parsed[1] in parsed;
    MirrorsExactlyFreeDistinctFiles(Db(map[], 0), conn, [], parsed, problems);
  }

  // ---------------------------------------------------------------- counts

  ghost predicate CountedFrom(s: Progress, out: Progress, n: nat) {
    && out.created + out.updated + out.same + |out.errors| == s.created + s.updated + s.same + |s.errors| + n
    && |out.db.rows| + s.created == |s.db.rows| + out.created
    && s.errors <= out.errors
  }

  lemma StepCounts(conn: string, index: map<string, Model>, p: Parsed, s: Progress)
    requires Good(s.db)
    ensures CountedFrom(s, Step(conn, index, p, s), 1)
  {
    InsertedSize(s.db, Row(conn, p.name, GITHUB, p.content));
    if p.name in index {
      RewrittenSize(s.db, index[p.name].id, p);
    }
  }

  lemma {:induction false} LoopCounts(conn: string, index: map<string, Model>, parsed: seq<Parsed>, s: Progress)
    requires Good(s.db) && IsIndex(s.db, conn, index)
    ensures CountedFrom(s, Loop(conn, index, parsed, s), |parsed|)
  {
    if parsed != [] {
      var n := |parsed| - 1;
      LoopCounts(conn, index, parsed[..n], s);
      LoopKeeps(conn, index, parsed[..n], s);
      StepCounts(conn, index, parsed[n], Loop(conn, index, parsed[..n], s));
    }
  }

  lemma InsertedSize(db: Db, row: Row)
    requires Good(db)
    ensures |Inserted(db, row).rows| == |db.rows| + 1
  {
    assert db.next !in db.rows;
  }

  lemma RewrittenSize(db: Db, id: nat, p: Parsed)
    ensures |Rewritten(db, id, p).rows| == |db.rows|
  {
  }

  lemma WithoutSize(db: Db, gone: set<nat>)
    requires gone <= db.rows.Keys
    ensures |Without(db, gone).rows| == |db.rows| - |gone|
  {
    assert (db.rows - gone).Keys == db.rows.Keys - gone;
    assert db.rows.Keys == (db.rows.Keys - gone) + gone;
  }

  /** Every file is counted once, and the table grows by what was created less what was deleted. */
  lemma CountsAddUp(db0: Db, conn: string, existing: seq<Model>, parsed: seq<Parsed>, problems: seq<string>)
    requires Good(db0) && IsListing(db0, conn, existing)
    ensures var out := Synced(db0, conn, existing, parsed, problems);
            && out.created + out.updated + out.same + |out.errors| == |parsed| + |problems|
            && problems <= out.errors
            && |out.db.rows| == |db0.rows| + out.created - out.deleted
  {
    var mid, gone := Loop(conn, ByName(existing), parsed, Before(db0, problems)), Doomed(existing, NamesOf(parsed));
    ListingGivesIndex(db0, conn, existing);
    LoopCounts(conn, ByName(existing), parsed, Before(db0, problems));
    LoopKeeps(conn, ByName(existing), parsed, Before(db0, problems));
    DoomedAreOld(db0, conn, existing, NamesOf(parsed));
    forall id | id in gone
      ensures id in mid.db.rows
    {
      assert RowKept(db0, conn, NamesOf(parsed), mid.db, id);
    }
    WithoutSize(mid.db, gone);
  }

  // ---------------------------------------------------------------- the same files again

  /** A snapshot in which every file is either listed as it is or refused. */
  ghost predicate Settled(db: Db, conn: string, index: map<string, Model>, parsed: seq<Parsed>) {
    forall p | p in parsed ::
      if p.name in index then index[p.name].content == p.content else NameTaken(db, conn, p.name)
  }

  lemma {:induction false} SettledLoop(conn: string, index: map<string, Model>, parsed: seq<Parsed>, s: Progress)
    requires Settled(s.db, conn, index, parsed)
    ensures var out := Loop(conn, index, parsed, s);
            out.db == s.db && out.created == s.created && out.updated == s.updated
  {
    if parsed != [] {
      SettledLoop(conn, index, parsed[..|parsed| - 1], s);
    }
  }

  lemma TakenByKept(db0: Db, conn: string, names: set<string>, db: Db, name: string)
    requires Kept(db0, conn, names, db) && NameTaken(db0, conn, name)
    ensures NameTaken(db, conn, name)
  {
    var id :| id in db0.rows && db0.rows[id].conn == conn && db0.rows[id].name == name;
    assert RowKept(db0, conn, names, db, id);
  }

  ghost predicate Differs(index: map<string, Model>, p: Parsed) {
    p.name in index && index[p.name].content != p.content
  }

  /** A file whose name is listed or taken creates nothing, and counts as updated exactly when it differs. */
  lemma UnsettledStep(db0: Db, conn: string, index: map<string, Model>, names: set<string>, p: Parsed, s: Progress)
    requires Kept(db0, conn, names, s.db) && IsIndex(db0, conn, index)
    requires p.name in index || NameTaken(db0, conn, p.name)
    ensures var out := Step(conn, index, p, s);
            out.created == s.created && out.updated == s.updated + if Differs(index, p) then 1 else 0
  {
    if p.name in index {
      UpdateKeeps(db0, conn, index, names, s.db, p);
    } else {
      TakenByKept(db0, conn, names, s.db, p.name);
    }
  }

  lemma {:induction false} UnsettledLoop(conn: string, index: map<string, Model>, parsed: seq<Parsed>, s: Progress)
    requires Good(s.db) && IsIndex(s.db, conn, index)
    requires forall p | p in parsed && p.name !in index :: NameTaken(s.db, conn, p.name)
    ensures Loop(conn, index, parsed, s).created == s.created
    ensures Loop(conn, index, parsed, s).updated >= s.updated
    ensures (exists p :: p in parsed && Differs(index, p)) ==> Loop(conn, index, parsed, s).updated > s.updated
  {
    if parsed != [] {
      var n := |parsed| - 1;
      UnsettledLoop(conn, index, parsed[..n], s);
      LoopKeeps(conn, index, parsed[..n], s);
      UnsettledStep(s.db, conn, index, NamesOf(parsed[..n]), parsed[n], Loop(conn, index, parsed[..n], s));
    }
  }

  lemma HeldStays(db0: Db, conn: string, parsed: seq<Parsed>, db: Db, name: string)
    requires LeavesOthersAlone(db0, conn, parsed, db) && Held(db0, conn, name)
    ensures Held(db, conn, name) && NameTaken(db, conn, name) && !HasFile(db, conn, name)
  {
    var h :| h in db0.rows && db0.rows[h].conn == conn && db0.rows[h].name == name && db0.rows[h].source != GITHUB;
    assert db.rows[h] == db0.rows[h];
    assert forall id | id in db.rows && SameKey(db.rows[id], db.rows[h]) :: id == h;
  }

  /** After a sync, each file is listed, or its name is held and not listed. */
  lemma FileIsListedOrHeld(db0: Db, conn: string, existing: seq<Model>, parsed: seq<Parsed>, problems: seq<string>,
                           again: seq<Model>, p: Parsed)
    requires Good(db0) && IsListing(db0, conn, existing) && p in parsed
    requires IsListing(Synced(db0, conn, existing, parsed, problems).db, conn, again)
    ensures p.name in ByName(again) <==> !Held(db0, conn, p.name)
    ensures p.name !in ByName(again) ==> NameTaken(Synced(db0, conn, existing, parsed, problems).db, conn, p.name)
  {
    var out := Synced(db0, conn, existing, parsed, problems).db;
    SyncTouchesOnlyItsOwn(db0, conn, existing, parsed, problems);
    FileHasRow(db0, conn, existing, parsed, problems, p);
    ListingGivesIndex(out, conn, again);
    if Held(db0, conn, p.name) {
      HeldStays(db0, conn, parsed, out, p.name);
      assert p.name in ByName(again) ==> Mine(out.rows[ByName(again)[p.name].id], conn);
    }
  }

  lemma NothingDoomedAfterSync(db0: Db, conn: string, existing: seq<Model>, parsed: seq<Parsed>, problems: seq<string>,
                               again: seq<Model>)
    requires Good(db0) && IsListing(db0, conn, existing)
    requires IsListing(Synced(db0, conn, existing, parsed, problems).db, conn, again)
    ensures Doomed(again, NamesOf(parsed)) == {}
  {
    SyncTouchesOnlyItsOwn(db0, conn, existing, parsed, problems);
  }

  /** Syncing the same files again never creates or deletes; it updates nothing, and leaves the
      table as it is, if and only if files of one name have one content or a held name. */
  lemma RepeatIsQuietExactlyWhenConsistent(db0: Db, conn: string, existing: seq<Model>, parsed: seq<Parsed>,
                                           problems: seq<string>, again: seq<Model>)
    requires Good(db0) && IsListing(db0, conn, existing)
    requires IsListing(Synced(db0, conn, existing, parsed, problems).db, conn, again)
    ensures var first := Synced(db0, conn, existing, parsed, problems);
            var second := Synced(first.db, conn, again, parsed, problems);
            && second.created == second.deleted == 0
            && (second.updated == 0 <==> Consistent(db0, conn, parsed))
            && (second.updated == 0 ==> second.db == first.db)
  {
    var db, index := Synced(db0, conn, existing, parsed, problems).db, ByName(again);
    SyncTouchesOnlyItsOwn(db0, conn, existing, parsed, problems);
    ListingGivesIndex(db, conn, again);
    NothingDoomedAfterSync(db0, conn, existing, parsed, problems, again);
    forall p | p in parsed
      ensures p.name in index <==> !Held(db0, conn, p.name)
      ensures p.name !in index ==> NameTaken(db, conn, p.name)
    {
      FileIsListedOrHeld(db0, conn, existing, parsed, problems, again, p);
    }
    UnsettledLoop(conn, index, parsed, Before(db, problems));
    if Consistent(db0, conn, parsed) {
      ConsistentIsSettled(db0, conn, existing, parsed, problems, again);
      SettledLoop(conn, index, parsed, Before(db, problems));
      assert Without(db, {}) == db;
    } else {
      ClashDiffers(db0, conn, parsed, index);
    }
  }

  lemma ConsistentIsSettled(db0: Db, conn: string, existing: seq<Model>, parsed: seq<Parsed>, problems: seq<string>,
                            again: seq<Model>)
    requires Good(db0) && IsListing(db0, conn, existing) && Consistent(db0, conn, parsed)
    requires IsListing(Synced(db0, conn, existing, parsed, problems).db, conn, again)
    ensures Settled(Synced(db0, conn, existing, parsed, problems).db, conn, ByName(again), parsed)
  {
    var db, index := Synced(db0, conn, existing, parsed, problems).db, ByName(again);
    SyncTouchesOnlyItsOwn(db0, conn, existing, parsed, problems);
    ListingGivesIndex(db, conn, again);
    forall p | p in parsed
      ensures if p.name in index then index[p.name].content == p.content else NameTaken(db, conn, p.name)
    {
      FileIsListedOrHeld(db0, conn, existing, parsed, problems, again, p);
      ConsistentRowsAgree(db0, conn, existing, parsed, problems, p);
      assert p.name in index ==> Mine(db.rows[index[p.name].id], conn);
    }
  }

  /** It happens: two files of one name are rewritten over each other at every sync. */
  lemma TwoFilesNeverSettle(conn: string, name: string, a: Content, b: Content, problems: seq<string>,
                            again: seq<Model>)
    requires a != b
    requires IsListing(Synced(Db(map[], 0), conn, [], [Parsed(name, a), Parsed(name, b)], problems).db, conn, again)
    ensures var parsed := [Parsed(name, a), Parsed(name, b)];
            Synced(Synced(Db(map[], 0), conn, [], parsed, problems).db, conn, again, parsed, problems).updated > 0
  {
    var parsed := [Parsed(name, a), Parsed(name, b)];
    assert parsed[0] in parsed && parsed[1] in parsed;
    RepeatIsQuietExactlyWhenConsistent(Db(map[], 0), conn, [], parsed, problems, again);
  }

  lemma ClashDiffers(db0: Db, conn: string, parsed: seq<Parsed>, index: map<string, Model>)
    requires !Consistent(db0, conn, parsed)
    requires forall p | p in parsed :: p.name in index <==> !Held(db0, conn, p.name)
    ensures exists p :: p in parsed && Differs(index, p)
  {
    var p, q :| p in parsed && q in parsed && p.name == q.name && !Held(db0, conn, p.name) && p.content != q.content;
    assert Differs(index, p) || Differs(index, q);
  }

  // ---------------------------------------------------------------- file names

  /** The ending that a file must have, in any case, and that is cut off in lower case only. */
  const ENDING := ".sql"

  predicate HasEnding(s: string) {
    |s| >= |ENDING| && s[|s| - |ENDING|..] == ENDING
  }

  /** The ending in any case. */
  predicate EndsLikeSql(s: string) {
    |s| >= |ENDING| && forall k | 0 <= k < |ENDING| :: LowerChar(s[|s| - |ENDING| + k]) == ENDING[k]
  }

  /** A file directly in the directory, by its name there. */
  predicate Accepted(rel: string) {
    EndsLikeSql(rel) && '/' !in rel
  }

  function ModelName(rel: string): string {
    if HasEnding(rel) then rel[..|rel| - |ENDING|] else rel
  }

  /** Two accepted files give one model name exactly when one is the other with ".sql" added and
      the shorter is not itself in lower case, as "a.SQL" and "a.SQL.sql" are. */
  lemma NamesClashExactly(f: string, g: string)
    requires Accepted(f) && Accepted(g) && f != g
    ensures ModelName(f) == ModelName(g) <==>
            (g == f + ENDING && !HasEnding(f)) || (f == g + ENDING && !HasEnding(g))
  {
    if HasEnding(f) {
      assert f == ModelName(f) + ENDING;
    }
    if HasEnding(g) {
      assert g == ModelName(g) + ENDING;
    }
    WithEnding(f);
    WithEnding(g);
  }

  lemma WithEnding(s: string)
    ensures HasEnding(s + ENDING) && ModelName(s + ENDING) == s
  {
    assert (s + ENDING)[|s|..] == ENDING;
  }

  lemma EndingInAnyCase(a: string, ending: string)
    requires ending == ".SQL" || ending == ENDING
    ensures EndsLikeSql(a + ending)
  {
    assert forall k | 0 <= k < |ENDING| :: (a + ending)[|a| + k] == ending[k] && LowerChar(ending[k]) == ENDING[k];
  }

  /** It happens: the ending is accepted in any case but cut off in lower case only. */
  lemma UpperCaseEndingClashes(a: string)
    requires '/' !in a
    ensures var f, g := a + ".SQL", a + ".SQL" + ".sql";
            Accepted(f) && Accepted(g) && f != g && ModelName(f) == ModelName(g)
  {
    var f := a + ".SQL";
    EndingInAnyCase(a, ".SQL");
    EndingInAnyCase(f, ENDING);
    assert f[|a| + 1] == 'S' && f[|f| - |ENDING|..][1] == f[|a| + 1];
    NamesClashExactly(f, f + ENDING);
  }

  // ---------------------------------------------------------------- files that cannot be read

  /** What fetching and parsing leaves: the files with a name and a content, and the others. */
  function ReadOf(files: seq<string>, fetch: string -> Option<Content>): (seq<Parsed>, seq<string>) {
    if files == [] then ([], [])
    else
      var (parsed, problems) := ReadOf(files[..|files| - 1], fetch);
      var f := files[|files| - 1];
      if fetch(f).Some? && ModelName(f) != "" then (parsed + [Parsed(ModelName(f), fetch(f).value)], problems)
      else (parsed, problems + [f])
  }

  /** The fetch and parse loop; `fetch` answers nothing for a file that cannot be fetched or parsed. */
  method ReadFiles(files: seq<string>, fetch: string -> Option<Content>)
    returns (parsed: seq<Parsed>, problems: seq<string>)
    ensures (parsed, problems) == ReadOf(files, fetch)
  {
    parsed, problems := [], [];
    for k := 0 to |files|
      invariant (parsed, problems) == ReadOf(files[..k], fetch)
    {
      assert files[..k + 1][..k] == files[..k];
      var content := fetch(files[k]);
      if content.None? || ModelName(files[k]) == "" {
        problems := problems + [files[k]];
        continue;
      }
      parsed := parsed + [Parsed(ModelName(files[k]), content.value)];
    }
    assert files[..|files|] == files;
  }

  function NamesIn(files: seq<string>): set<string> {
    set f | f in files :: ModelName(f)
  }

  /** Every file is read or reported, and nothing else is. */
  lemma {:induction false} ReadOrReported(files: seq<string>, fetch: string -> Option<Content>)
    ensures NamesIn(files) == NamesOf(ReadOf(files, fetch).0) + NamesIn(ReadOf(files, fetch).1)
    ensures |files| == |ReadOf(files, fetch).0| + |ReadOf(files, fetch).1|
  {
    if files != [] {
      var n := |files| - 1;
      var (parsed, problems) := ReadOf(files[..n], fetch);
      ReadOrReported(files[..n], fetch);
      assert files == files[..n] + [files[n]];
      NamesInMore(files[..n], files[n]);
      NamesInMore(problems, files[n]);
      if fetch(files[n]).Some? && ModelName(files[n]) != "" {
        NamesMore(parsed, Parsed(ModelName(files[n]), fetch(files[n]).value));
      }
    }
  }

  lemma NamesInMore(files: seq<string>, f: string)
    ensures NamesIn(files + [f]) == NamesIn(files) + {ModelName(f)}
  {
  }

  lemma NamesMore(parsed: seq<Parsed>, p: Parsed)
    ensures NamesOf(parsed + [p]) == NamesOf(parsed) + {p.name}
  {
  }

  /** A sync deletes exactly the repository models whose name no readable file has. */
  lemma DeletedExactly(db0: Db, conn: string, existing: seq<Model>, parsed: seq<Parsed>, problems: seq<string>, id: nat)
    requires Good(db0) && IsListing(db0, conn, existing) && id in db0.rows
    ensures id !in Synced(db0, conn, existing, parsed, problems).db.rows <==>
            Mine(db0.rows[id], conn) && db0.rows[id].name !in NamesOf(parsed)
  {
    ListingGivesIndex(db0, conn, existing);
    LoopKeeps(conn, ByName(existing), parsed, Before(db0, problems));
    assert RowKept(db0, conn, NamesOf(parsed), Loop(conn, ByName(existing), parsed, Before(db0, problems)).db, id);
    SeenIsNotDoomed(db0, conn, existing, NamesOf(parsed), id);
  }

  /** The model has the name of a file that could not be read, and of none that could. */
  ghost predicate OnlyUnreadable(row: Row, conn: string, parsed: seq<Parsed>, problems: seq<string>) {
    Mine(row, conn) && row.name in NamesIn(problems) && row.name !in NamesOf(parsed)
  }

  /** A sync deletes only models without a file in the repository exactly when no stored model has the name of a
      file that could not be read, unless a file that could has it too. */
  lemma DeletesOnlyAbandonedExactly(db0: Db, conn: string, existing: seq<Model>, files: seq<string>,
                                    fetch: string -> Option<Content>)
    requires Good(db0) && IsListing(db0, conn, existing)
    ensures var (parsed, problems) := ReadOf(files, fetch);
            var out := Synced(db0, conn, existing, parsed, problems).db;
            (forall id | id in db0.rows && id !in out.rows :: db0.rows[id].name !in NamesIn(files)) <==>
            forall id | id in db0.rows :: !OnlyUnreadable(db0.rows[id], conn, parsed, problems)
  {
    var (parsed, problems) := ReadOf(files, fetch);
    ReadOrReported(files, fetch);
    forall id | id in db0.rows
      ensures id !in Synced(db0, conn, existing, parsed, problems).db.rows && db0.rows[id].name in NamesIn(files)
              <==> OnlyUnreadable(db0.rows[id], conn, parsed, problems)
    {
      DeletedExactly(db0, conn, existing, parsed, problems, id);
    }
  }

  /** It happens: when the only file cannot be fetched, its model is deleted. */
  lemma UnreadableFileDeletesModel(conn: string, c: Content, fetch: string -> Option<Content>)
    requires fetch("m.sql").None?
    ensures var db0 := Db(map[0 := Row(conn, "m", GITHUB, c)], 1);
            var (parsed, problems) := ReadOf(["m.sql"], fetch);
            Good(db0) && IsListing(db0, conn, [Model(0, "m", c)])
            && 0 !in Synced(db0, conn, [Model(0, "m", c)], parsed, problems).db.rows
  {
    var db0 := Db(map[0 := Row(conn, "m", GITHUB, c)], 1);
    assert ReadOf([], fetch) == ([], []) && ["m.sql"][..0] == [];
    var (parsed, problems) := ReadOf(["m.sql"], fetch);
    assert parsed == [] && problems == [] + ["m.sql"] == ["m.sql"];
    assert [Model(0, "m", c)][0] == Model(0, "m", c);
    DeletedExactly(db0, conn, [Model(0, "m", c)], [], ["m.sql"], 0);
  }

  // ---------------------------------------------------------------- one sync after the other

  function Syncs(s: Repo, conn: string, pulls: seq<Pull>): Repo {
    if pulls == [] then s else SyncOnce(Syncs(s, conn, pulls[..|pulls| - 1]), conn, pulls[|pulls| - 1])
  }

  /** A sync is skipped exactly when it finds the head of the one before, and that is not empty; so a file that could
      not be read is tried again at the next sync exactly when the head has moved or is empty. */
  lemma SkippedExactly(s: Repo, conn: string, pulls: seq<Pull>, a: Pull)
    requires pulls != []
    ensures Skips(Syncs(s, conn, pulls).last, a.head) <==> a.head == pulls[|pulls| - 1].head && a.head != ""
  {
    var before, p := Syncs(s, conn, pulls[..|pulls| - 1]), pulls[|pulls| - 1];
    assert SyncOnce(before, conn, p).last == p.head;
  }

  /** While the head stays, nothing changes, whatever the files have become. */
  lemma {:induction false} NothingChangesAtOneHead(s: Repo, conn: string, pulls: seq<Pull>, more: seq<Pull>)
    requires pulls != [] && pulls[|pulls| - 1].head != ""
    requires forall k | 0 <= k < |more| :: more[k].head == pulls[|pulls| - 1].head
    ensures Syncs(s, conn, pulls + more) == Syncs(s, conn, pulls)
  {
    if more == [] {
      assert pulls + more == pulls;
    } else {
      var init, a := more[..|more| - 1], more[|more| - 1];
      NothingChangesAtOneHead(s, conn, pulls, init);
      SkippedExactly(s, conn, pulls, a);
      LastApart(pulls, more);
      OneSyncMore(s, conn, pulls + init, a);
    }
  }

  lemma OneSyncMore(s: Repo, conn: string, pulls: seq<Pull>, a: Pull)
    ensures Syncs(s, conn, pulls + [a]) == SyncOnce(Syncs(s, conn, pulls), conn, a)
  {
    assert (pulls + [a])[..|pulls|] == pulls;
  }

  lemma {:induction false} ReadableIsParsed(files: seq<string>, fetch: string -> Option<Content>, f: string)
    requires f in files && fetch(f).Some? && ModelName(f) != ""
    ensures Parsed(ModelName(f), fetch(f).value) in ReadOf(files, fetch).0
  {
    if f != files[|files| - 1] {
      ReadableIsParsed(files[..|files| - 1], fetch, f);
    }
  }

  /** After a sync that could read no file of a name, the name has a repository model again at the next sync of a
      readable file exactly when the head has moved or is empty, and the name is held by no other kind of model. */
  lemma BackExactlyWhenHeadMoves(s: Repo, conn: string, failed: Pull, again: Pull, f: string)
    requires Good(s.db) && IsListing(s.db, conn, failed.existing) && !Skips(s.last, failed.head)
    requires ModelName(f) !in NamesOf(ReadOf(failed.files, failed.fetch).0)
    requires IsListing(SyncOnce(s, conn, failed).db, conn, again.existing)
    requires f in again.files && again.fetch(f).Some? && ModelName(f) != ""
    ensures HasFile(Syncs(s, conn, [failed, again]).db, conn, ModelName(f)) <==>
            (again.head != failed.head || again.head == "") && !Held(SyncOnce(s, conn, failed).db, conn, ModelName(f))
  {
    var s1, n := SyncOnce(s, conn, failed), ModelName(f);
    var (parsed, problems) := ReadOf(failed.files, failed.fetch);
    SyncTouchesOnlyItsOwn(s.db, conn, failed.existing, parsed, problems);
    assert !HasFile(s1.db, conn, n);
    assert [failed, again] == [failed] + [again] && [failed] == [] + [failed];
    OneSyncMore(s, conn, [], failed);
    OneSyncMore(s, conn, [failed], again);
    SkippedExactly(s, conn, [failed], again);
    if !Skips(s1.last, again.head) {
      var (readable, others) := ReadOf(again.files, again.fetch);
      ReadableIsParsed(again.files, again.fetch, f);
      FileHasRow(s1.db, conn, again.existing, readable, others, Parsed(n, again.fetch(f).value));
    }
  }
}
