/** One table's statements, executed from any state of the target: exactly when they
    all pass the target's constraints, and what they leave behind. */
module MigrationTable {
  import opened Prelude
  import opened Relational
  import opened Migration

  // Shape of prepared rows: distinct keys, self-references nulled out of the insert
  // and carried, non-null, in the deferred part.
  ghost predicate PreparedOk(t: Table, ps: seq<Prepared>) {
    && TableOk(t)
    && (forall i, j | 0 <= i < j < |ps| :: ps[i].key != ps[j].key)
    && (forall p | p in ps ::
          && Get(p.insert, t.pk) == p.key
          && (forall c | c in t.columns && IsSelf(t, c) :: Get(p.insert, c.name) == Null)
          && (forall c | c in p.deferred :: SelfColumn(t, c) && p.deferred[c] != Null))
  }

  function KeysOf(ps: seq<Prepared>): set<Value> {
    set p | p in ps :: p.key
  }

  // Every foreign key into another table names a row of the target.
  ghost predicate ParentsPresent(db: Tables, t: Table, row: Row) {
    forall c | c in t.columns && IsCross(t, c) ::
      Get(row, c.name) != Null ==> Get(row, c.name) in At(db, c.ref.value.table).Keys
  }

  // The condition, on the target as it is before the table is copied, under which
  // no statement of the table is rejected.
  ghost predicate Acceptable(db: Tables, t: Table, ps: seq<Prepared>) {
    && (forall p | p in ps :: NotNullOk(t, p.insert))
    && (forall p | p in ps :: p.key !in At(db, t.name).Keys ==> ParentsPresent(db, t, p.insert))
    && (forall p | p in ps :: forall c | c in p.deferred ::
          p.deferred[c] in At(db, t.name).Keys || p.deferred[c] in KeysOf(ps))
    && UniqueAcceptable(t, ps, At(db, t.name))
  }

  // No row the table's inserts really add clashes with one that is there or added too.
  ghost predicate UniqueAcceptable(t: Table, ps: seq<Prepared>, have: map<Value, Row>) {
    NoNewClash(t, have, InsertAll(t.pk, InsertRows(ps), have))
  }

  function ApplyUpdates(ps: seq<Prepared>, rows: map<Value, Row>): map<Value, Row>
    decreases |ps|
  {
    if ps == [] then rows
    else
      ApplyUpdates(ps[1..],
                   if ps[0].deferred != map[] && ps[0].key in rows
                   then rows[ps[0].key := rows[ps[0].key] + ps[0].deferred] else rows)
  }

  // The table's contents after its copy.
  function Merged(t: Table, ps: seq<Prepared>, have: map<Value, Row>): map<Value, Row> {
    ApplyUpdates(ps, InsertAll(t.pk, InsertRows(ps), have))
  }

  /* ----- inserts ----- */

  lemma {:induction false} InsertAllAppend(pk: Name, a: seq<Row>, b: seq<Row>, have: map<Value, Row>)
    ensures InsertAll(pk, a + b, have) == InsertAll(pk, b, InsertAll(pk, a, have))
    decreases |a|
  {
    if a == [] {
      assert a + b == b;
    } else {
      assert (a + b)[1..] == a[1..] + b;
      var k := Get(a[0], pk);
      InsertAllAppend(pk, a[1..], b, if k in have then have else have[k := a[0]]);
    }
  }

  lemma {:induction false} InsertAllShape(pk: Name, rows: seq<Row>, have: map<Value, Row>)
    ensures var now := InsertAll(pk, rows, have);
            && now.Keys == have.Keys + (set row | row in rows :: Get(row, pk))
            && (forall k | k in have :: now[k] == have[k])
            && (forall k | k in now && k !in have :: now[k] in rows && Get(now[k], pk) == k)
    decreases |rows|
  {
    if rows != [] {
      var k := Get(rows[0], pk);
      InsertAllShape(pk, rows[1..], if k in have then have else have[k := rows[0]]);
      assert rows == [rows[0]] + rows[1..];
    }
  }

  ghost predicate Distinct(pk: Name, rows: seq<Row>) {
    forall i, j | 0 <= i < j < |rows| :: Get(rows[i], pk) != Get(rows[j], pk)
  }

  lemma SameKeySameRow(pk: Name, rows: seq<Row>, a: Row, b: Row)
    requires Distinct(pk, rows) && a in rows && b in rows && Get(a, pk) == Get(b, pk)
    ensures a == b
  {
    var i :| 0 <= i < |rows| && rows[i] == a;
    var j :| 0 <= j < |rows| && rows[j] == b;
    assert !(i < j) && !(j < i);
  }

  ghost predicate SelfNull(t: Table, row: Row) {
    forall c | c in t.columns && IsSelf(t, c) :: Get(row, c.name) == Null
  }

  ghost predicate RowsAcceptable(db: Tables, t: Table, rows: seq<Row>) {
    && (forall row | row in rows :: NotNullOk(t, row))
    && (forall row | row in rows :: Get(row, t.pk) !in At(db, t.name).Keys ==> ParentsPresent(db, t, row))
    && NoNewClash(t, At(db, t.name), InsertAll(t.pk, rows, At(db, t.name)))
  }

  // Adding rows in two steps clashes exactly when adding them at once does.
  lemma ClashInSteps(t: Table, have: map<Value, Row>, mid: map<Value, Row>, now: map<Value, Row>)
    requires have.Keys <= mid.Keys <= now.Keys
    requires forall k | k in mid :: now[k] == mid[k]
    ensures NoNewClash(t, have, now) <==> NoNewClash(t, have, mid) && NoNewClash(t, mid, now)
  {
    if NoNewClash(t, have, mid) && NoNewClash(t, mid, now) {
      forall k, j | k in now.Keys && k !in have.Keys && j in now.Keys && j != k ensures !Clashes(t, now[k], now[j]) {
        if k in mid.Keys {
          if j in mid.Keys {
            assert !Clashes(t, mid[k], mid[j]);
          } else {
            assert !Clashes(t, now[j], now[k]);
            ClashSymmetric(t, now[j], now[k]);
          }
        }
      }
    }
    if NoNewClash(t, have, now) {
      forall k, j | k in mid.Keys && k !in have.Keys && j in mid.Keys && j != k ensures !Clashes(t, mid[k], mid[j]) {
        assert !Clashes(t, now[k], now[j]);
      }
    }
  }

  lemma ClashSymmetric(t: Table, a: Row, b: Row)
    ensures Clashes(t, a, b) <==> Clashes(t, b, a)
  {
    if Clashes(t, a, b) {
      var u :| u in t.uniques && Shares(u, a, b);
      assert Shares(u, b, a);
    }
    if Clashes(t, b, a) {
      var u :| u in t.uniques && Shares(u, b, a);
      assert Shares(u, a, b);
    }
  }

  lemma ForeignKeysOfInsert(db: Tables, t: Table, row: Row, now: map<Value, Row>)
    requires SelfNull(t, row)
    ensures ForeignKeysOk(db[t.name := now], t, row) <==> ParentsPresent(db, t, row)
  {
  }

  // The rows an INSERT really adds are the given ones whose key was absent.
  lemma NewRowsForeignKeys(db: Tables, t: Table, rows: seq<Row>)
    requires Distinct(t.pk, rows) && forall row | row in rows :: SelfNull(t, row)
    ensures var have := At(db, t.name);
            var now := InsertAll(t.pk, rows, have);
            (forall k | k in now.Keys && k !in have.Keys :: ForeignKeysOk(db[t.name := now], t, now[k]))
            <==> (forall row | row in rows :: Get(row, t.pk) !in have.Keys ==> ParentsPresent(db, t, row))
  {
    var have := At(db, t.name);
    var now := InsertAll(t.pk, rows, have);
    InsertAllShape(t.pk, rows, have);
    if forall k | k in now.Keys && k !in have.Keys :: ForeignKeysOk(db[t.name := now], t, now[k]) {
      forall row | row in rows && Get(row, t.pk) !in have.Keys ensures ParentsPresent(db, t, row) {
        var k := Get(row, t.pk);
        assert k in now.Keys;
        SameKeySameRow(t.pk, rows, row, now[k]);
        ForeignKeysOfInsert(db, t, row, now);
      }
    }
    if forall row | row in rows :: Get(row, t.pk) !in have.Keys ==> ParentsPresent(db, t, row) {
      forall k | k in now.Keys && k !in have.Keys ensures ForeignKeysOk(db[t.name := now], t, now[k]) {
        ForeignKeysOfInsert(db, t, now[k], now);
      }
    }
  }

  lemma InsertStep(s: Session, t: Table, rows: seq<Row>)
    requires Distinct(t.pk, rows) && forall row | row in rows :: SelfNull(t, row)
    ensures Step(s, Insert(t, rows)).Accepted? <==> RowsAcceptable(s.working, t, rows)
    ensures RowsAcceptable(s.working, t, rows) ==>
              Step(s, Insert(t, rows)).s
              == s.(working := s.working[t.name := InsertAll(t.pk, rows, At(s.working, t.name))])
  {
    hide Clashes, ForeignKeysOk, ParentsPresent, NotNullOk;
    NewRowsForeignKeys(s.working, t, rows);
  }

  lemma {:induction false} InsertsExec(s: Session, t: Table, rows: seq<Row>, b: int)
    requires b > 0 && rows != [] && Distinct(t.pk, rows) && forall row | row in rows :: SelfNull(t, row)
    ensures var o := Exec(s, InsertStatements(t, rows, b));
            && (o.Running? <==> RowsAcceptable(s.working, t, rows))
            && (o.Running? ==> o.s == s.(working := s.working[t.name := InsertAll(t.pk, rows, At(s.working, t.name))]))
    decreases |rows|
  {
    var n := if b < |rows| then b else |rows|;
    var first, rest := rows[..n], rows[n..];
    assert rows == first + rest;
    var st := Insert(t, first);
    InsertStep(s, t, first);
    assert InsertStatements(t, rows, b) == [st] + InsertStatements(t, rest, b);
    ExecFirst(s, st, InsertStatements(t, rest, b));
    if RowsAcceptable(s.working, t, first) {
      var s' := Step(s, st).s;
      InsertAllAppend(t.pk, first, rest, At(s.working, t.name));
      RestUnaffected(s, s', t, first, rest, rows);
      if rest == [] {
        assert rows == first;
      } else {
        InsertsExec(s', t, rest, b);
        UpdateTwice(s.working, t.name, At(s'.working, t.name), InsertAll(t.pk, rows, At(s.working, t.name)));
      }
    } else {
      FirstUnacceptable(s.working, t, first, rest, rows);
    }
  }

  lemma FirstUnacceptable(db: Tables, t: Table, first: seq<Row>, rest: seq<Row>, rows: seq<Row>)
    requires rows == first + rest && !RowsAcceptable(db, t, first)
    ensures !RowsAcceptable(db, t, rows)
  {
    hide Clashes, ParentsPresent, NotNullOk;
    var have, mid := At(db, t.name), InsertAll(t.pk, first, At(db, t.name));
    InsertAllShape(t.pk, first, have);
    InsertAllShape(t.pk, rest, mid);
    InsertAllAppend(t.pk, first, rest, have);
    ClashInSteps(t, have, mid, InsertAll(t.pk, rest, mid));
    forall row | row in first ensures row in rows {}
  }

  lemma ExecFirst(s: Session, st: Stmt, rest: seq<Stmt>)
    ensures Step(s, st).Accepted? ==> Exec(s, [st] + rest) == Exec(Step(s, st).s, rest)
    ensures Step(s, st).Rejected? ==> Exec(s, [st] + rest) == Aborted(Rollback(s), Step(s, st).why)
  {
    assert ([st] + rest)[1..] == rest;
  }

  lemma UpdateTwice(db: Tables, n: Name, a: map<Value, Row>, b: map<Value, Row>)
    ensures db[n := a][n := b] == db[n := b]
  {
  }

  // Rows of the table itself are no parents by a cross reference.
  lemma ParentsStay(db: Tables, t: Table, now: map<Value, Row>, row: Row)
    ensures ParentsPresent(db[t.name := now], t, row) <==> ParentsPresent(db, t, row)
  {
  }

  // The batches already inserted change nothing about what the remaining rows need.
  lemma KeyNotBefore(pk: Name, first: seq<Row>, rest: seq<Row>, row: Row)
    requires Distinct(pk, first + rest) && row in rest
    ensures row in first + rest && forall other | other in first :: Get(other, pk) != Get(row, pk)
  {
    hide Get;
    var rows := first + rest;
    var j :| 0 <= j < |rest| && rest[j] == row;
    assert rows[|first| + j] == row;
    forall other | other in first ensures Get(other, pk) != Get(row, pk) {
      var i :| 0 <= i < |first| && first[i] == other;
      assert rows[i] == other;
    }
  }

  lemma RestUnaffected(s: Session, s': Session, t: Table, first: seq<Row>, rest: seq<Row>, rows: seq<Row>)
    requires rows == first + rest && Distinct(t.pk, rows)
    requires RowsAcceptable(s.working, t, first)
    requires s'.working == s.working[t.name := InsertAll(t.pk, first, At(s.working, t.name))]
    ensures RowsAcceptable(s'.working, t, rest) <==> RowsAcceptable(s.working, t, rows)
  {
    hide Clashes, ParentsPresent, NotNullOk;
    var have, mid := At(s.working, t.name), At(s'.working, t.name);
    InsertAllShape(t.pk, first, have);
    InsertAllShape(t.pk, rest, mid);
    InsertAllAppend(t.pk, first, rest, have);
    ClashInSteps(t, have, mid, InsertAll(t.pk, rest, mid));
    forall row | row in rest
      ensures Get(row, t.pk) in At(s'.working, t.name).Keys <==> Get(row, t.pk) in At(s.working, t.name).Keys
      ensures ParentsPresent(s'.working, t, row) <==> ParentsPresent(s.working, t, row)
      ensures row in rows
    {
      ParentsStay(s.working, t, mid, row);
      KeyNotBefore(t.pk, first, rest, row);
    }
    forall row | row in rows ensures row in first || row in rest {}
    forall row | row in first ensures row in rows {}
  }

  /* ----- deferred updates ----- */

  lemma ColumnUnique(t: Table, c: Column, d: Column)
    requires TableOk(t) && c in t.columns && d in t.columns && c.name == d.name
    ensures c == d
  {
    var i :| 0 <= i < |t.columns| && t.columns[i] == c;
    var j :| 0 <= j < |t.columns| && t.columns[j] == d;
    assert !(i < j) && !(j < i);
  }

  ghost predicate TargetsPresent(rows: map<Value, Row>, p: Prepared) {
    forall c | c in p.deferred :: p.deferred[c] in rows.Keys
  }

  // A deferred update writes no column of a unique key.
  lemma UniquesUntouched(t: Table, p: Prepared, have: map<Value, Row>)
    requires PreparedOk(t, [p]) && p.key in have
    ensures !UpdateClashes(t, have, p.key, p.deferred)
  {
    assert p in [p];
    forall u, c | u in t.uniques && c in u ensures !SelfColumn(t, c) {
      forall d | d in t.columns && d.name == c ensures !IsSelf(t, d) {}
    }
  }

  lemma UpdateStep(s: Session, t: Table, p: Prepared)
    requires PreparedOk(t, [p]) && t.name in s.working && p.key in At(s.working, t.name).Keys
    ensures Step(s, Update(t, p.key, p.deferred)).Accepted? <==> TargetsPresent(At(s.working, t.name), p)
    ensures TargetsPresent(At(s.working, t.name), p) ==>
              var have := At(s.working, t.name);
              Step(s, Update(t, p.key, p.deferred)).s
              == s.(working := s.working[t.name := have[p.key := have[p.key] + p.deferred]])
  {
    assert p in [p];
    UniquesUntouched(t, p, At(s.working, t.name));
    var have := At(s.working, t.name);
    var db' := s.working[t.name := have[p.key := have[p.key] + p.deferred]];
    assert At(db', t.name).Keys == have.Keys;
    forall c | c in t.columns && c.ref.Some? && Get(p.deferred, c.name) != Null
      ensures IsSelf(t, c) && c.name in p.deferred
    {
      var d :| d in t.columns && d.name == c.name && IsSelf(t, d);
      ColumnUnique(t, c, d);
    }
    if ForeignKeysOk(db', t, p.deferred) {
      forall c | c in p.deferred ensures p.deferred[c] in have.Keys {
        var d :| d in t.columns && d.name == c && IsSelf(t, d);
        assert Get(p.deferred, d.name) == p.deferred[c];
      }
    }
  }

  lemma PreparedParts(t: Table, ps: seq<Prepared>)
    requires PreparedOk(t, ps) && ps != []
    ensures PreparedOk(t, [ps[0]]) && PreparedOk(t, ps[1..])
    ensures ps[0] in ps && forall p | p in ps :: p == ps[0] || p in ps[1..]
    ensures forall p | p in ps[1..] :: p in ps
  {
    assert ps == [ps[0]] + ps[1..];
  }

  lemma {:induction false} UpdatesExec(s: Session, t: Table, ps: seq<Prepared>)
    requires PreparedOk(t, ps) && t.name in s.working
    requires forall p | p in ps :: p.key in At(s.working, t.name).Keys
    ensures var o := Exec(s, UpdateStatements(t, ps));
            && (o.Running? <==> forall p | p in ps :: TargetsPresent(At(s.working, t.name), p))
            && (o.Running? ==> o.s == s.(working := s.working[t.name := ApplyUpdates(ps, At(s.working, t.name))]))
    decreases |ps|
  {
    if ps == [] {
      assert s.working[t.name := At(s.working, t.name)] == s.working;
    } else {
      var p, rest := ps[0], ps[1..];
      var have := At(s.working, t.name);
      PreparedParts(t, ps);
      if p.deferred == map[] {
        assert UpdateStatements(t, ps) == UpdateStatements(t, rest);
        UpdatesExec(s, t, rest);
      } else {
        var st := Update(t, p.key, p.deferred);
        UpdateStep(s, t, p);
        assert UpdateStatements(t, ps) == [st] + UpdateStatements(t, rest);
        ExecFirst(s, st, UpdateStatements(t, rest));
        if TargetsPresent(have, p) {
          var s' := Step(s, st).s;
          var next := have[p.key := have[p.key] + p.deferred];
          assert next.Keys == have.Keys;
          assert At(s'.working, t.name) == next;
          UpdatesExec(s', t, rest);
          SameTargets(ps, have, next);
          UpdateTwice(s.working, t.name, next, ApplyUpdates(rest, next));
        }
      }
    }
  }

  lemma SameTargets(ps: seq<Prepared>, a: map<Value, Row>, b: map<Value, Row>)
    requires a.Keys == b.Keys
    ensures forall p | p in ps :: TargetsPresent(a, p) <==> TargetsPresent(b, p)
  {
  }

  lemma {:induction false} ApplyUpdatesShape(ps: seq<Prepared>, rows: map<Value, Row>)
    requires forall i, j | 0 <= i < j < |ps| :: ps[i].key != ps[j].key
    requires forall p | p in ps :: p.key in rows
    ensures var now := ApplyUpdates(ps, rows);
            && now.Keys == rows.Keys
            && (forall k | k in rows && k !in KeysOf(ps) :: now[k] == rows[k])
            && (forall p | p in ps :: now[p.key] == rows[p.key] + p.deferred)
    decreases |ps|
  {
    if ps != [] {
      var p, rest := ps[0], ps[1..];
      var next := if p.deferred != map[] && p.key in rows then rows[p.key := rows[p.key] + p.deferred] else rows;
      assert p in ps;
      assert next[p.key] == rows[p.key] + p.deferred;
      ApplyUpdatesShape(rest, next);
      assert p.key !in KeysOf(rest) by {
        forall q | q in rest ensures q.key != p.key {
          var j :| 0 <= j < |rest| && rest[j] == q;
          assert ps[j + 1] == q;
        }
      }
      assert ps == [p] + rest;
    }
  }

  /* ----- the whole table ----- */

  lemma InsertRowsShape(t: Table, ps: seq<Prepared>)
    requires PreparedOk(t, ps)
    ensures Distinct(t.pk, InsertRows(ps))
    ensures forall row | row in InsertRows(ps) :: SelfNull(t, row)
    ensures (set row | row in InsertRows(ps) :: Get(row, t.pk)) == KeysOf(ps)
    ensures forall p | p in ps :: p.insert in InsertRows(ps)
    ensures forall row | row in InsertRows(ps) :: exists p :: p in ps && p.insert == row
  {
    hide TableOk, SelfColumn, Get;
    var rows := InsertRows(ps);
    forall i | 0 <= i < |ps| ensures Get(rows[i], t.pk) == ps[i].key && SelfNull(t, rows[i]) {
      assert ps[i] in ps && rows[i] == ps[i].insert;
    }
    forall p | p in ps ensures p.insert in rows && p.key in (set row | row in rows :: Get(row, t.pk)) {
      var i :| 0 <= i < |ps| && ps[i] == p;
      assert rows[i] == p.insert;
    }
    forall row | row in rows ensures exists p :: p in ps && p.insert == row {
      var i :| 0 <= i < |rows| && rows[i] == row;
      assert ps[i] in ps && ps[i].insert == row;
    }
  }

  lemma InsertedShape(t: Table, ps: seq<Prepared>, have: map<Value, Row>)
    requires PreparedOk(t, ps)
    ensures var mid := InsertAll(t.pk, InsertRows(ps), have);
            && mid.Keys == have.Keys + KeysOf(ps)
            && (forall k | k in have :: mid[k] == have[k])
            && (forall p | p in ps :: mid[p.key] == if p.key in have then have[p.key] else p.insert)
  {
    var rows := InsertRows(ps);
    InsertRowsShape(t, ps);
    InsertAllShape(t.pk, rows, have);
    var mid := InsertAll(t.pk, rows, have);
    forall p | p in ps ensures p.key in mid && mid[p.key] == if p.key in have then have[p.key] else p.insert {
      if p.key !in have {
        SameKeySameRow(t.pk, rows, p.insert, mid[p.key]);
      }
    }
  }

  // After a copy: the keys of both sides; a row that was there keeps everything but
  // its deferred self-references; a new row is the prepared row with them restored.
  lemma MergedShape(t: Table, ps: seq<Prepared>, have: map<Value, Row>)
    requires PreparedOk(t, ps)
    ensures var now := Merged(t, ps, have);
            && now.Keys == have.Keys + KeysOf(ps)
            && (forall k | k in have && k !in KeysOf(ps) :: now[k] == have[k])
            && (forall p | p in ps ::
                  now[p.key] == (if p.key in have then have[p.key] else p.insert) + p.deferred)
  {
    InsertedShape(t, ps, have);
    ApplyUpdatesShape(ps, InsertAll(t.pk, InsertRows(ps), have));
  }

  ghost function AfterTable(s: Session, t: Table, ps: seq<Prepared>): Session {
    if ps == [] then s
    else
      var db := s.working[t.name := Merged(t, ps, At(s.working, t.name))];
      Session(db, db, if t.intKey then s.sequences[t.name := HighestKey(At(db, t.name))] else s.sequences)
  }

  /** The statements of one table all pass exactly when the table is acceptable to the
      target, whatever the batch size and the row order, and then leave AfterTable. */
  lemma TableExec(s: Session, t: Table, ps: seq<Prepared>, b: int)
    requires b > 0 && PreparedOk(t, ps)
    ensures var o := Exec(s, TableProgram(t, ps, b));
            && (o.Running? <==> Acceptable(s.working, t, ps))
            && (o.Running? ==> o.s == AfterTable(s, t, ps))
  {
    if ps != [] {
      var rows := InsertRows(ps);
      var tail := (if t.intKey then [ResetSequence(t)] else []) + [Commit];
      var inserts, updates := InsertStatements(t, rows, b), UpdateStatements(t, ps);
      assert TableProgram(t, ps, b) == inserts + (updates + tail);
      InsertRowsShape(t, ps);
      ExecAppend(s, inserts, updates + tail);
      InsertsExec(s, t, rows, b);
      RowsVersusPrepared(s.working, t, ps);
      if RowsAcceptable(s.working, t, rows) {
        AfterInserts(s, Exec(s, inserts).s, t, ps, updates, tail);
      }
    }
  }

  lemma AfterInserts(s: Session, s1: Session, t: Table, ps: seq<Prepared>, updates: seq<Stmt>, tail: seq<Stmt>)
    requires ps != [] && PreparedOk(t, ps)
    requires s1 == s.(working := s.working[t.name := InsertAll(t.pk, InsertRows(ps), At(s.working, t.name))])
    requires updates == UpdateStatements(t, ps)
    requires tail == (if t.intKey then [ResetSequence(t)] else []) + [Commit]
    ensures var o := Exec(s1, updates + tail);
            && (o.Running? <==> forall p | p in ps :: forall c | c in p.deferred ::
                  p.deferred[c] in At(s.working, t.name).Keys || p.deferred[c] in KeysOf(ps))
            && (o.Running? ==> o.s == AfterTable(s, t, ps))
  {
    var mid := At(s1.working, t.name);
    InsertRowsShape(t, ps);
    InsertAllShape(t.pk, InsertRows(ps), At(s.working, t.name));
    assert mid.Keys == At(s.working, t.name).Keys + KeysOf(ps);
    UpdatesExec(s1, t, ps);
    ExecAppend(s1, updates, tail);
    if forall p | p in ps :: TargetsPresent(mid, p) {
      var s2 := Exec(s1, updates).s;
      UpdateTwice(s.working, t.name, mid, ApplyUpdates(ps, mid));
      TailExec(s2, t, tail);
    }
  }

  lemma RowsVersusPrepared(db: Tables, t: Table, ps: seq<Prepared>)
    requires PreparedOk(t, ps)
    ensures RowsAcceptable(db, t, InsertRows(ps)) <==>
            && (forall p | p in ps :: NotNullOk(t, p.insert))
            && (forall p | p in ps :: p.key !in At(db, t.name).Keys ==> ParentsPresent(db, t, p.insert))
            && UniqueAcceptable(t, ps, At(db, t.name))
  {
    hide NoNewClash;
    InsertRowsShape(t, ps);
    var rows := InsertRows(ps);
    if RowsAcceptable(db, t, rows) {
      forall p | p in ps ensures NotNullOk(t, p.insert) && (p.key !in At(db, t.name).Keys ==> ParentsPresent(db, t, p.insert)) {
        assert p.insert in rows;
      }
    }
  }

  lemma TailExec(s: Session, t: Table, tail: seq<Stmt>)
    requires tail == (if t.intKey then [ResetSequence(t)] else []) + [Commit]
    ensures Exec(s, tail) ==
            Running(Session(s.working, s.working,
                            if t.intKey then s.sequences[t.name := HighestKey(At(s.working, t.name))] else s.sequences))
  {
    if t.intKey {
      assert tail[1..] == [Commit];
      assert [Commit][1..] == [];
    } else {
      assert tail == [Commit] && tail[1..] == [];
    }
  }
}
