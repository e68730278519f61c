/** The query history: every new entry prunes its user's older entries on the same connection. */
module QueryHistory {

  const RETENTION := 500

  /** A user's history on one connection; no connection and the empty id are the same. */
  datatype Group = Group(user: string, connection: string)

  /** An entry with its creation time in milliseconds. The order of ids is that of their text. */
  datatype Entry = Entry(group: Group, created: int, id: int)

  /** `a` is listed before `b`: newer, or as new with the larger id. */
  predicate Above(a: Entry, b: Entry) {
    a.created > b.created || (a.created == b.created && a.id > b.id)
  }

  /** Ids are keys. */
  ghost predicate Keyed(s: set<Entry>) {
    forall a, b | a in s && b in s && a.id == b.id :: a == b
  }

  ghost function AllAbove(s: set<Entry>, z: Entry): set<Entry> {
    set a | a in s && Above(a, z)
  }

  ghost predicate IsFirst(s: set<Entry>, m: Entry) {
    m in s && forall a | a in s && a != m :: Above(m, a)
  }

  /** The entry listed first. */
  lemma {:induction false} FirstExists(s: set<Entry>) returns (m: Entry)
    requires s != {} && Keyed(s)
    ensures IsFirst(s, m)
  {
    var x :| x in s;
    m := x;
    var rest := s - {x};
    if rest != {} {
      var n := FirstExists(rest);
      if Above(n, x) { m := n; }
      forall a | a in s && a != m
        ensures Above(m, a)
      {
        assert n in s && x in s;
        assert a in rest || a == x;
      }
    } else {
      assert s == {x};
    }
  }

  /** The first `n` entries of the listing `ORDER BY created_at DESC, id DESC`. */
  ghost function Newest(s: set<Entry>, n: nat): (r: set<Entry>)
    requires Keyed(s)
    ensures r <= s
    decreases n
  {
    if n == 0 || s == {} then {}
    else
      FirstExistsHere(s);
      var m :| IsFirst(s, m);
      {m} + Newest(s - {m}, n - 1)
  }

  lemma FirstExistsHere(s: set<Entry>)
    requires s != {} && Keyed(s)
    ensures exists m :: IsFirst(s, m)
  {
    var m := FirstExists(s);
  }

  lemma FirstIsUnique(s: set<Entry>, a: Entry, b: Entry)
    requires IsFirst(s, a) && IsFirst(s, b)
    ensures a == b
  {
    assert a != b ==> Above(a, b) && Above(b, a);
  }

  lemma NewestStep(s: set<Entry>, n: nat, m: Entry)
    requires Keyed(s) && n > 0 && IsFirst(s, m)
    ensures Newest(s, n) == {m} + Newest(s - {m}, n - 1)
  {
    FirstExistsHere(s);
    var x :| IsFirst(s, x) && Newest(s, n) == {x} + Newest(s - {x}, n - 1);
    FirstIsUnique(s, x, m);
  }

  lemma AboveWithout(s: set<Entry>, m: Entry, z: Entry)
    requires m in s
    ensures |AllAbove(s, z)| == |AllAbove(s - {m}, z)| + if Above(m, z) then 1 else 0
  {
    if Above(m, z) {
      assert AllAbove(s, z) == AllAbove(s - {m}, z) + {m};
    } else {
      assert AllAbove(s, z) == AllAbove(s - {m}, z);
    }
  }

  lemma AboveWith(s: set<Entry>, x: Entry, z: Entry)
    requires x !in s
    ensures |AllAbove(s + {x}, z)| == |AllAbove(s, z)| + if Above(x, z) then 1 else 0
  {
    AboveWithout(s + {x}, x, z);
    assert s + {x} - {x} == s;
  }

  lemma NothingAbove(s: set<Entry>, m: Entry, z: Entry)
    requires IsFirst(s, m) && !Above(m, z)
    ensures AllAbove(s, z) == {}
  {
  }

  /** Of the entries above any `z` the first `n` listed ones hold `n`, or all if there are fewer. */
  lemma {:induction false} AboveNewest(s: set<Entry>, n: nat, z: Entry)
    requires Keyed(s)
    ensures |AllAbove(Newest(s, n), z)| == if |AllAbove(s, z)| <= n then |AllAbove(s, z)| else n
    decreases n
  {
    if n > 0 && s != {} {
      var m := FirstExists(s);
      NewestStep(s, n, m);
      AboveNewest(s - {m}, n - 1, z);
      AboveWithout(s, m, z);
      AboveWith(Newest(s - {m}, n - 1), m, z);
      assert {m} + Newest(s - {m}, n - 1) == Newest(s - {m}, n - 1) + {m};
      if !Above(m, z) { NothingAbove(s, m, z); }
    } else if s == {} {
      assert AllAbove(s, z) == {};
    }
  }

  /** An entry is among the first `n` exactly when fewer than `n` are above it. */
  lemma {:induction false} NewestByRank(s: set<Entry>, n: nat, z: Entry)
    requires Keyed(s) && z in s
    ensures z in Newest(s, n) <==> |AllAbove(s, z)| < n
    decreases n
  {
    if n > 0 {
      var m := FirstExists(s);
      NewestStep(s, n, m);
      AboveWithout(s, m, z);
      if z == m {
        assert AllAbove(s, z) == {};
      } else {
        NewestByRank(s - {m}, n - 1, z);
      }
    }
  }

  /** Adding an entry to the pruned history and pruning again is pruning the full history. */
  lemma PruneAgain(s: set<Entry>, n: nat, x: Entry)
    requires Keyed(s + {x}) && x !in s
    ensures Newest(Newest(s, n) + {x}, n) == Newest(s + {x}, n)
  {
    var pruned := Newest(s, n) + {x};
    forall z | z in s + {x}
      ensures z in Newest(pruned, n) <==> z in Newest(s + {x}, n)
    {
      NewestByRank(s + {x}, n, z);
      AboveWith(s, x, z);
      AboveWith(Newest(s, n), x, z);
      AboveNewest(s, n, z);
      if z in pruned { NewestByRank(pruned, n, z); }
      if z in s { NewestByRank(s, n, z); }
    }
  }

  // ---------------------------------------------------------------- the table

  ghost function InGroup(s: set<Entry>, g: Group): set<Entry> {
    set e | e in s && e.group == g
  }

  lemma SubsetKeyed(a: set<Entry>, b: set<Entry>)
    requires a <= b && Keyed(b)
    ensures Keyed(a)
  {
  }

  /** The rows after one new entry: its group is pruned, the others stay. */
  ghost function Recorded(rows: set<Entry>, e: Entry): set<Entry>
    requires Keyed(rows + {e})
  {
    SubsetKeyed(InGroup(rows + {e}, e.group), rows + {e});
    set r | r in rows + {e} && (r.group == e.group ==> r in Newest(InGroup(rows + {e}, e.group), RETENTION))
  }

  /** The entries of the history. Ids are fresh. */
  class HistoryTable {
    var rows: set<Entry>

    constructor ()
      ensures rows == {}
    {
      rows := {};
    }

    static method First(s: set<Entry>) returns (m: Entry)
      requires s != {} && Keyed(s)
      ensures IsFirst(s, m)
    {
      m :| m in s;
      var rest := s - {m};
      while rest != {}
        invariant rest <= s && m in s && m !in rest
        invariant forall a | a in s && a !in rest && a != m :: Above(m, a)
      {
        var a :| a in rest;
        rest := rest - {a};
        if Above(a, m) {
          m := a;
        }
      }
    }

    /** The listing with its limit. */
    static method SelectNewest(s: set<Entry>, n: nat) returns (r: set<Entry>)
      requires Keyed(s)
      ensures r == Newest(s, n)
    {
      r := {};
      var rest, k := s, n;
      while k > 0 && rest != {}
        invariant rest <= s && r + Newest(rest, k) == Newest(s, n)
        decreases k
      {
        var m := First(rest);
        NewestStep(rest, k, m);
        r, rest, k := r + {m}, rest - {m}, k - 1;
      }
    }

    /** Records an entry, then prunes what its user has beyond the retention on the connection. */
    method CreateEntry(e: Entry)
      requires Keyed(rows + {e})
      modifies this
      ensures rows == Recorded(old(rows), e)
    {
      rows := rows + {e};
      SubsetKeyed(InGroup(rows, e.group), rows);
      var group := set r | r in rows && r.group == e.group;
      assert group == InGroup(rows, e.group);
      var kept := SelectNewest(group, RETENTION);
      rows := set r | r in rows && (r.group == e.group ==> r in kept);
    }
  }

  // ---------------------------------------------------------------- the history over time

  ghost predicate FreshIds(es: seq<Entry>) {
    forall i, j | 0 <= i < j < |es| :: es[i].id != es[j].id
  }

  ghost function Listed(es: seq<Entry>): set<Entry> {
    set e | e in es
  }

  /** The table after these entries were recorded one by one. */
  ghost function After(es: seq<Entry>): (rows: set<Entry>)
    requires FreshIds(es)
    ensures rows <= Listed(es)
  {
    if es == [] then {}
    else
      var init, last := es[..|es| - 1], es[|es| - 1];
      assert After(init) + {last} <= Listed(es);
      Recorded(After(init), last)
  }

  lemma RecordedElsewhere(rows: set<Entry>, e: Entry, g: Group)
    requires Keyed(rows + {e})
    ensures g != e.group ==> InGroup(Recorded(rows, e), g) == InGroup(rows, g)
    ensures InGroup(rows + {e}, e.group) == InGroup(rows, e.group) + {e}
  {
  }

  lemma RecordedHere(rows: set<Entry>, e: Entry)
    requires Keyed(rows + {e})
    ensures Keyed(InGroup(rows + {e}, e.group))
    ensures InGroup(Recorded(rows, e), e.group) == Newest(InGroup(rows + {e}, e.group), RETENTION)
  {
    SubsetKeyed(InGroup(rows + {e}, e.group), rows + {e});
  }

  /** However often the history was pruned, a user sees on a connection exactly the newest entries ever
      recorded there, up to the retention, whatever the clock did. */
  lemma {:induction false} HistoryHoldsTheNewest(es: seq<Entry>, g: Group)
    requires FreshIds(es)
    ensures Keyed(InGroup(Listed(es), g))
    ensures InGroup(After(es), g) == Newest(InGroup(Listed(es), g), RETENTION)
  {
    if es == [] {
      assert InGroup(Listed(es), g) == {};
    } else {
      var init, last := es[..|es| - 1], es[|es| - 1];
      HistoryHoldsTheNewest(init, g);
      assert Listed(es) == Listed(init) + {last};
      assert After(init) + {last} <= Listed(es);
      RecordedElsewhere(After(init), last, g);
      RecordedElsewhere(Listed(init), last, g);
      if g == last.group {
        RecordedHere(After(init), last);
        PruneAgain(InGroup(Listed(init), g), RETENTION, last);
      } else {
        assert InGroup(Listed(es), g) == InGroup(Listed(init), g);
      }
    }
  }
}
