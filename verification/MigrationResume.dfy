/** Starting from any target: safety at every statement, what stays, and what an
    interruption at any statement followed by a rerun leaves. */
module MigrationResume {
  import opened Prelude
  import opened Relational
  import opened Migration
  import opened MigrationTable
  import opened MigrationRun

  /* ----- what stays ----- */

  /** A row that was already there keeps every column that is not a self-reference. */
  lemma ExistingRowsKept(sch: Schema, src: Source, clock: Clock, b: int, s: Session, t: Table, k: Value, c: Name)
    requires SchemaOk(sch) && SourceOk(sch, src) && b > 0 && t in sch
    requires k in At(s.working, t.name) && !SelfColumn(t, c)
    requires Exec(s, Program(sch, src, clock, b, 0)).Running?
    ensures var now := At(Exec(s, Program(sch, src, clock, b, 0)).s.working, t.name);
            k in now && Get(now[k], c) == Get(At(s.working, t.name)[k], c)
  {
    RunExec(sch, src, clock, b, s, 0);
    var j :| 0 <= j < |sch| && sch[j] == t;
    var ps, have := Plan(src, clock, t), At(s.working, t.name);
    AfterAt(sch, src, clock, s, |sch|, j);
    PlanOk(sch, src, clock, t);
    MergedShape(t, ps, have);
    if k in KeysOf(ps) {
      var p :| p in ps && p.key == k;
      assert c !in p.deferred;
    }
  }

  /* ----- the target is referentially closed after every statement ----- */

  ghost predicate StmtOk(sch: Schema, st: Stmt) {
    match st
    case Insert(t, _) => t in sch && TableOk(t)
    case Update(t, _, cells) => t in sch && TableOk(t) && t.pk !in cells
    case ResetSequence(_) => true
    case Commit => true
  }

  lemma InsertKeepsClashFree(t: Table, have: map<Value, Row>, now: map<Value, Row>)
    requires ClashFree(t, have) && NoNewClash(t, have, now)
    requires have.Keys <= now.Keys && forall k | k in have :: now[k] == have[k]
    ensures ClashFree(t, now)
  {
    hide Clashes;
    forall j, k | j in now.Keys && k in now.Keys && j != k ensures !Clashes(t, now[j], now[k]) {
      if j in have.Keys && k in have.Keys {
        assert !Clashes(t, have[j], have[k]);
      } else if j in have.Keys {
        assert !Clashes(t, now[k], now[j]);
        ClashSymmetric(t, now[j], now[k]);
      }
    }
  }

  lemma UpdateKeepsClashFree(t: Table, have: map<Value, Row>, key: Value, cells: Row)
    requires ClashFree(t, have) && key in have && !UpdateClashes(t, have, key, cells)
    ensures ClashFree(t, have[key := have[key] + cells])
  {
    var now := have[key := have[key] + cells];
    forall j | j in have.Keys && j != key ensures !Clashes(t, now[key], have[j]) {
      forall u | u in t.uniques ensures !Shares(u, now[key], have[j]) {
        if !exists c :: c in u && c in cells {
          assert forall c | c in u :: Get(now[key], c) == Get(have[key], c);
          assert !Clashes(t, have[key], have[j]);
          assert !Shares(u, have[key], have[j]);
        }
      }
    }
    forall j, k | j in now.Keys && k in now.Keys && j != k ensures !Clashes(t, now[j], now[k]) {
      if j != key && k != key {
        assert !Clashes(t, have[j], have[k]);
      } else {
        ClashSymmetric(t, now[j], now[k]);
      }
    }
  }

  lemma InsertKeepsClosed(sch: Schema, db: Tables, t: Table, rows: seq<Row>)
    requires Closed(sch, db) && t in sch
    requires forall u | u in sch && u.name == t.name :: u == t
    ensures Closed(sch, InsertResult(db, t, rows).0)
  {
    hide Clashes, NotNullOk, InsertAll;
    var (db', bad) := InsertResult(db, t, rows);
    if bad.None? {
      var have, now := At(db, t.name), InsertAll(t.pk, rows, At(db, t.name));
      InsertAllShape(t.pk, rows, have);
      InsertKeepsClashFree(t, have, now);
      forall u | u in sch ensures ClashFree(u, At(db', u.name)) {
        assert u != t ==> At(db', u.name) == At(db, u.name);
      }
      forall u, k | u in sch && k in At(db', u.name).Keys
        ensures NotNullOk(u, At(db', u.name)[k]) && ForeignKeysOk(db', u, At(db', u.name)[k])
      {
        if u == t && k !in have.Keys {
          assert now[k] in rows;
        } else {
          assert k in At(db, u.name).Keys && At(db', u.name)[k] == At(db, u.name)[k];
        }
      }
    }
  }

  lemma UpdateKeepsClosed(sch: Schema, db: Tables, t: Table, key: Value, cells: Row)
    requires Closed(sch, db) && t in sch && t.pk !in cells
    requires forall u | u in sch && u.name == t.name :: u == t
    ensures Closed(sch, UpdateResult(db, t, key, cells).0)
  {
    hide Clashes, ClashFree, UpdateClashes;
    var (db', bad) := UpdateResult(db, t, key, cells);
    if bad.None? && key in At(db, t.name) {
      var before := At(db, t.name)[key];
      var after := before + cells;
      assert forall n :: At(db', n).Keys == At(db, n).Keys;
      UpdateKeepsClashFree(t, At(db, t.name), key, cells);
      forall u | u in sch ensures ClashFree(u, At(db', u.name)) {
        assert u != t ==> At(db', u.name) == At(db, u.name);
      }
      forall u, k | u in sch && k in At(db', u.name).Keys
        ensures NotNullOk(u, At(db', u.name)[k]) && ForeignKeysOk(db', u, At(db', u.name)[k])
      {
        if u == t && k == key {
          assert NotNullOk(t, before) && ForeignKeysOk(db, t, before);
          forall c | c in t.columns
            ensures Get(after, c.name) == if c.name in cells then cells[c.name] else Get(before, c.name)
          {
          }
        } else {
          assert At(db', u.name)[k] == At(db, u.name)[k];
        }
      }
    }
  }

  /** Whatever sequence of statements is executed, and wherever it stops or is rejected,
      both the durable state and the open transaction satisfy NOT NULL, every unique key
      and every foreign key. */
  lemma {:induction false} AlwaysClosed(sch: Schema, s: Session, prog: seq<Stmt>)
    requires forall i, j | 0 <= i < j < |sch| :: sch[i].name != sch[j].name
    requires forall st | st in prog :: StmtOk(sch, st)
    requires Closed(sch, s.committed) && Closed(sch, s.working)
    ensures Closed(sch, Exec(s, prog).s.committed) && Closed(sch, Exec(s, prog).s.working)
    decreases |prog|
  {
    if prog != [] {
      var st := prog[0];
      assert StmtOk(sch, st);
      match st {
        case Insert(t, rows) =>
          InsertKeepsClosed(sch, s.working, t, rows);
        case Update(t, key, cells) =>
          UpdateKeepsClosed(sch, s.working, t, key, cells);
        case ResetSequence(_) =>
        case Commit =>
      }
      match Step(s, st)
      case Accepted(s') =>
        forall x | x in prog[1..] ensures StmtOk(sch, x) {}
        AlwaysClosed(sch, s', prog[1..]);
      case Rejected(_) =>
    }
  }

  lemma {:induction false} InsertStatementsOk(sch: Schema, t: Table, rows: seq<Row>, b: int)
    requires t in sch && TableOk(t)
    ensures forall st | st in InsertStatements(t, rows, b) :: StmtOk(sch, st) && st != Commit
    decreases |rows|
  {
    if b > 0 && rows != [] {
      InsertStatementsOk(sch, t, rows[if b < |rows| then b else |rows|..], b);
    }
  }

  lemma {:induction false} UpdateStatementsOk(sch: Schema, t: Table, ps: seq<Prepared>)
    requires t in sch && PreparedOk(t, ps)
    ensures forall st | st in UpdateStatements(t, ps) :: StmtOk(sch, st) && st != Commit
    decreases |ps|
  {
    if ps != [] {
      PreparedParts(t, ps);
      UpdateStatementsOk(sch, t, ps[1..]);
      assert !SelfColumn(t, t.pk);
    }
  }

  lemma {:induction false} ProgramOk(sch: Schema, src: Source, clock: Clock, b: int, i: nat)
    requires SchemaOk(sch) && SourceOk(sch, src) && i <= |sch|
    ensures forall st | st in Program(sch, src, clock, b, i) :: StmtOk(sch, st)
    decreases |sch| - i
  {
    if i < |sch| {
      var t := sch[i];
      PlanOk(sch, src, clock, t);
      InsertStatementsOk(sch, t, InsertRows(Plan(src, clock, t)), b);
      UpdateStatementsOk(sch, t, Plan(src, clock, t));
      ProgramOk(sch, src, clock, b, i + 1);
    }
  }

  lemma RunAlwaysClosed(sch: Schema, src: Source, clock: Clock, b: int, s: Session, n: nat)
    requires SchemaOk(sch) && SourceOk(sch, src) && n <= |Program(sch, src, clock, b, 0)|
    requires Closed(sch, s.committed) && Closed(sch, s.working)
    ensures var o := Exec(s, Program(sch, src, clock, b, 0)[..n]);
            Closed(sch, o.s.committed) && Closed(sch, o.s.working)
  {
    ProgramOk(sch, src, clock, b, 0);
    AlwaysClosed(sch, s, Program(sch, src, clock, b, 0)[..n]);
  }

  /* ----- interruption and rerun ----- */

  lemma {:induction false} NoCommitNoChange(s: Session, prog: seq<Stmt>)
    requires Commit !in prog
    ensures Exec(s, prog).s.committed == s.committed
    decreases |prog|
  {
    if prog != [] {
      match Step(s, prog[0])
      case Accepted(s') =>
        assert Commit !in prog[1..];
        NoCommitNoChange(s', prog[1..]);
      case Rejected(_) =>
    }
  }

  lemma CommitOnlyLast(sch: Schema, t: Table, ps: seq<Prepared>, b: int, n: nat)
    requires t in sch && PreparedOk(t, ps) && n < |TableProgram(t, ps, b)|
    ensures Commit !in TableProgram(t, ps, b)[..n]
  {
    var body := InsertStatements(t, InsertRows(ps), b) + UpdateStatements(t, ps)
                + (if t.intKey then [ResetSequence(t)] else []);
    InsertStatementsOk(sch, t, InsertRows(ps), b);
    UpdateStatementsOk(sch, t, ps);
    assert TableProgram(t, ps, b) == body + [Commit];
    assert TableProgram(t, ps, b)[..n] == body[..n];
    assert Commit !in body;
    assert forall st | st in body[..n] :: st in body;
  }

  lemma CutInside(sch: Schema, s: Session, t: Table, ps: seq<Prepared>, b: int, rest: seq<Stmt>, n: nat)
    requires t in sch && PreparedOk(t, ps) && n < |TableProgram(t, ps, b)|
    ensures Exec(s, (TableProgram(t, ps, b) + rest)[..n]).s.committed == s.committed
  {
    var first := TableProgram(t, ps, b);
    assert (first + rest)[..n] == first[..n];
    CommitOnlyLast(sch, t, ps, b, n);
    NoCommitNoChange(s, first[..n]);
  }

  lemma CutBeyond(s: Session, first: seq<Stmt>, rest: seq<Stmt>, n: nat)
    requires |first| <= n <= |first| + |rest|
    ensures Exec(s, (first + rest)[..n]) ==
            (var o := Exec(s, first); if o.Running? then Exec(o.s, rest[..n - |first|]) else o)
  {
    assert (first + rest)[..n] == first + rest[..n - |first|];
    ExecAppend(s, first, rest[..n - |first|]);
  }

  // Cut anywhere, the durable state is that of some number of whole tables.
  lemma {:induction false} CutLeavesWholeTables(sch: Schema, src: Source, clock: Clock, b: int, s: Session, i: nat, n: nat)
    returns (k: nat)
    requires SchemaOk(sch) && SourceOk(sch, src) && b > 0 && s.committed == s.working
    requires i <= |sch| && n <= |Program(sch, src, clock, b, i)|
    ensures i <= k <= |sch|
    ensures forall j | i <= j < k :: AcceptedAt(sch, src, clock, s, j)
    ensures Exec(After(sch, src, clock, s, i), Program(sch, src, clock, b, i)[..n]).s.committed
            == After(sch, src, clock, s, k).committed
    decreases |sch| - i
  {
    hide After, AcceptedAt, Exec, TableProgram, Plan, SchemaOk, SourceOk, PreparedOk;
    k := i;
    if i == |sch| {
      ExecNothing(After(sch, src, clock, s, i));
    } else {
      var t, here := sch[i], After(sch, src, clock, s, i);
      var ps := Plan(src, clock, t);
      var first, rest := TableProgram(t, ps, b), Program(sch, src, clock, b, i + 1);
      PlanOk(sch, src, clock, t);
      if n < |first| {
        CutInside(sch, here, t, ps, b, rest, n);
      } else {
        CutBeyond(here, first, rest, n);
        OneTable(sch, src, clock, b, s, i);
        if Exec(here, first).Running? {
          k := CutLeavesWholeTables(sch, src, clock, b, s, i + 1, n - |first|);
        } else {
          AbortedTable(sch, here, t, ps, b);
        }
      }
    }
  }

  lemma AbortedTable(sch: Schema, s: Session, t: Table, ps: seq<Prepared>, b: int)
    requires t in sch && PreparedOk(t, ps) && Exec(s, TableProgram(t, ps, b)).Aborted?
    ensures Exec(s, TableProgram(t, ps, b)).s.committed == s.committed
  {
    var prog := TableProgram(t, ps, b);
    var n := |prog| - 1;
    CommitOnlyLast(sch, t, ps, b, n);
    NoCommitNoChange(s, prog[..n]);
    ExecAppend(s, prog[..n], [Commit]);
    assert prog == prog[..n] + [Commit];
  }

  ghost predicate SameUpToClock(t: Table, a: map<Value, Row>, b: map<Value, Row>) {
    a.Keys == b.Keys && forall k | k in a :: SameRowUpToClock(t, a[k], b[k])
  }

  ghost predicate Twins(t: Table, ps: seq<Prepared>, qs: seq<Prepared>) {
    && |ps| == |qs|
    && forall i | 0 <= i < |ps| ::
         && ps[i].key == qs[i].key && ps[i].deferred == qs[i].deferred
         && SameRowUpToClock(t, ps[i].insert, qs[i].insert)
         && (NotNullOk(t, ps[i].insert) <==> NotNullOk(t, qs[i].insert))
  }

  lemma PlanUpToClock(sch: Schema, src: Source, c1: Clock, c2: Clock, t: Table)
    requires SchemaOk(sch) && SourceOk(sch, src) && t in sch
    ensures Twins(t, Plan(src, c1, t), Plan(src, c2, t))
  {
    KeptRowsShape(sch, src, t);
    forall i | 0 <= i < |Plan(src, c1, t)|
      ensures var p, q := Plan(src, c1, t)[i], Plan(src, c2, t)[i];
              && p.key == q.key && p.deferred == q.deferred && SameRowUpToClock(t, p.insert, q.insert)
              && (NotNullOk(t, p.insert) <==> NotNullOk(t, q.insert))
    {
      var row := KeptRows(src, t)[i];
      PrepareUpToClock(c1, c2, t, row);
      CompleteIff(c1, t, row);
      CompleteIff(c2, t, row);
    }
  }

  // Copying a table again changes nothing, whatever the clock says by then.
  lemma MergedAgain(t: Table, ps: seq<Prepared>, qs: seq<Prepared>, have: map<Value, Row>)
    requires PreparedOk(t, ps) && PreparedOk(t, qs) && Twins(t, ps, qs)
    ensures Merged(t, qs, Merged(t, ps, have)) == Merged(t, ps, have)
  {
    hide Merged, SameRowUpToClock, Twins;
    var once := Merged(t, ps, have);
    var twice := Merged(t, qs, once);
    TwinKeys(t, ps, qs);
    MergedShape(t, ps, have);
    MergedShape(t, qs, once);
    assert twice.Keys == once.Keys;
    forall q | q in qs ensures once[q.key] + q.deferred == once[q.key] {
      TwinOverlaid(t, ps, qs, have, once, q);
    }
    forall k | k in once ensures twice[k] == once[k] {
      if k in KeysOf(qs) {
        var q :| q in qs && q.key == k;
        assert twice[q.key] == once[q.key] + q.deferred;
      }
    }
  }

  lemma TwinOverlaid(t: Table, ps: seq<Prepared>, qs: seq<Prepared>, have: map<Value, Row>, once: map<Value, Row>, q: Prepared)
    requires Twins(t, ps, qs) && q in qs
    requires forall p | p in ps :: p.key in once && once[p.key] == (if p.key in have then have[p.key] else p.insert) + p.deferred
    ensures q.key in once && once[q.key] + q.deferred == once[q.key]
  {
    hide SameRowUpToClock;
    var i :| 0 <= i < |qs| && qs[i] == q;
    assert ps[i] in ps;
    OverlayTwice(if ps[i].key in have then have[ps[i].key] else ps[i].insert, q.deferred);
  }

  lemma OverlayTwice(row: Row, d: Row)
    ensures row + d + d == row + d
  {
  }

  lemma TwinKeys(t: Table, ps: seq<Prepared>, qs: seq<Prepared>)
    requires Twins(t, ps, qs)
    ensures KeysOf(ps) == KeysOf(qs)
  {
    forall i | 0 <= i < |ps| ensures ps[i].key in KeysOf(qs) && qs[i].key in KeysOf(ps) {
      assert ps[i] in ps && qs[i] in qs;
    }
  }

  lemma OverlayUpToClock(t: Table, a: Row, b: Row, d: Row)
    requires SameRowUpToClock(t, a, b)
    ensures SameRowUpToClock(t, a + d, b + d)
  {
    forall c | !ClockCell(t, c) ensures Get(a + d, c) == Get(b + d, c) {
      assert Get(a, c) == Get(b, c);
    }
  }

  lemma MergedUpToClock(t: Table, ps: seq<Prepared>, qs: seq<Prepared>, have: map<Value, Row>)
    requires PreparedOk(t, ps) && PreparedOk(t, qs) && Twins(t, ps, qs)
    ensures SameUpToClock(t, Merged(t, ps, have), Merged(t, qs, have))
  {
    var a, b := Merged(t, ps, have), Merged(t, qs, have);
    TwinKeys(t, ps, qs);
    MergedShape(t, ps, have);
    MergedShape(t, qs, have);
    assert a.Keys == b.Keys;
    forall k | k in KeysOf(ps) ensures SameRowUpToClock(t, a[k], b[k]) {
      var p :| p in ps && p.key == k;
      var i :| 0 <= i < |ps| && ps[i] == p;
      assert qs[i] in qs;
      OverlayUpToClock(t, if k in have then have[k] else p.insert, if k in have then have[k] else qs[i].insert, p.deferred);
    }
  }

  /* ----- the rerun is accepted exactly when an uninterrupted run is ----- */

  ghost predicate SameKeys(sch: Schema, a: Tables, b: Tables, below: nat)
    requires below <= |sch|
  {
    forall i | 0 <= i < below :: At(a, sch[i].name).Keys == At(b, sch[i].name).Keys
  }

  // Of other tables acceptance looks at the keys only, and it does not look at the clock.
  lemma AcceptableByKeys(sch: Schema, j: nat, a: Tables, ps: seq<Prepared>, b: Tables, qs: seq<Prepared>)
    requires SchemaOk(sch) && j < |sch| && SameKeys(sch, a, b, j + 1) && Twins(sch[j], ps, qs)
    requires At(a, sch[j].name) == At(b, sch[j].name) && PreparedOk(sch[j], ps) && PreparedOk(sch[j], qs)
    requires Acceptable(a, sch[j], ps)
    ensures Acceptable(b, sch[j], qs)
  {
    hide UniqueAcceptable, NotNullOk, ParentsPresent, Declared, SameRowUpToClock;
    var t := sch[j];
    TwinKeys(t, ps, qs);
    UniqueTwins(t, ps, qs, At(a, t.name));
    forall i | 0 <= i < |qs|
      ensures NotNullOk(t, qs[i].insert)
      ensures qs[i].key !in At(b, t.name).Keys ==> ParentsPresent(b, t, qs[i].insert)
      ensures forall c | c in qs[i].deferred :: qs[i].deferred[c] in At(b, t.name).Keys || qs[i].deferred[c] in KeysOf(qs)
    {
      assert ps[i] in ps;
      if qs[i].key !in At(b, t.name).Keys {
        ParentsByKeys(sch, j, a, ps[i].insert, b, qs[i].insert);
      }
    }
  }

  lemma UniqueTwins(t: Table, ps: seq<Prepared>, qs: seq<Prepared>, have: map<Value, Row>)
    requires PreparedOk(t, ps) && PreparedOk(t, qs) && Twins(t, ps, qs) && UniqueAcceptable(t, ps, have)
    ensures UniqueAcceptable(t, qs, have)
  {
    hide Clashes, TableOk, SameRowUpToClock;
    var p, q := InsertAll(t.pk, InsertRows(ps), have), InsertAll(t.pk, InsertRows(qs), have);
    InsertedShape(t, ps, have);
    InsertedShape(t, qs, have);
    TwinKeys(t, ps, qs);
    forall k | k in q ensures SameRowUpToClock(t, p[k], q[k]) {
      if k in have {
        SameRow(t, have[k]);
      } else {
        var x :| x in qs && x.key == k;
        var i :| 0 <= i < |qs| && qs[i] == x;
        assert ps[i] in ps;
      }
    }
    forall k, j | k in q.Keys && k !in have.Keys && j in q.Keys && j != k ensures !Clashes(t, q[k], q[j]) {
      ClashUpToClock(t, p[k], q[k], p[j], q[j]);
      assert !Clashes(t, p[k], p[j]);
    }
  }

  lemma ParentsByKeys(sch: Schema, j: nat, a: Tables, r: Row, b: Tables, q: Row)
    requires SchemaOk(sch) && j < |sch| && SameKeys(sch, a, b, j)
    requires SameRowUpToClock(sch[j], r, q) && ParentsPresent(a, sch[j], r)
    ensures ParentsPresent(b, sch[j], q)
  {
    var t := sch[j];
    forall c | c in t.columns && IsCross(t, c) && Get(q, c.name) != Null
      ensures Get(q, c.name) in At(b, c.ref.value.table).Keys
    {
      NamedColumn(t, c);
      assert !ClockCell(t, c.name) && Get(r, c.name) == Get(q, c.name);
      assert Declared(sch, t, c, j);
      var i :| 0 <= i < j && sch[i].name == c.ref.value.table;
      assert At(a, sch[i].name).Keys == At(b, sch[i].name).Keys;
    }
  }

  // A table already copied is acceptable again: nothing of it is inserted anew.
  lemma AcceptableAgain(t: Table, before: Tables, after: Tables, qs: seq<Prepared>)
    requires Acceptable(before, t, qs) && PreparedOk(t, qs)
    requires At(after, t.name).Keys == At(before, t.name).Keys + KeysOf(qs)
    ensures Acceptable(after, t, qs)
  {
    hide NotNullOk, ParentsPresent, Clashes;
    InsertedShape(t, qs, At(after, t.name));
  }

  // What the process leaves when it is killed after k whole tables.
  ghost function Cut(sch: Schema, src: Source, clock: Clock, s: Session, k: nat): Session
    requires k <= |sch|
  {
    Rollback(After(sch, src, clock, s, k))
  }

  lemma CutKeys(sch: Schema, src: Source, c1: Clock, c2: Clock, s: Session, k: nat, j: nat, i: nat)
    requires SchemaOk(sch) && SourceOk(sch, src) && i <= j < |sch| && k <= |sch| && s.committed == s.working
    ensures At(After(sch, src, c2, Cut(sch, src, c1, s, k), j).working, sch[i].name).Keys
            == At(After(sch, src, c2, s, j).working, sch[i].name).Keys + (if i < k then KeptIds(src, sch[i]) else {})
  {
    AfterCommitted(sch, src, c1, s, k);
    KeysGrow(sch, src, c1, s, k, i);
    KeysGrow(sch, src, c2, Cut(sch, src, c1, s, k), j, i);
    KeysGrow(sch, src, c2, s, j, i);
  }

  // A table the first run did not reach is met as it was.
  lemma SameBefore(sch: Schema, src: Source, c1: Clock, c2: Clock, s: Session, k: nat, j: nat)
    requires SchemaOk(sch) && SourceOk(sch, src) && k <= j < |sch| && s.committed == s.working
    ensures At(After(sch, src, c2, Cut(sch, src, c1, s, k), j).working, sch[j].name)
            == At(After(sch, src, c2, s, j).working, sch[j].name)
  {
    AfterCommitted(sch, src, c1, s, k);
    AfterAt(sch, src, c1, s, k, j);
    AfterAt(sch, src, c2, Cut(sch, src, c1, s, k), j, j);
    AfterAt(sch, src, c2, s, j, j);
  }

  lemma SameAcceptance(sch: Schema, src: Source, c1: Clock, c2: Clock, s: Session, k: nat, j: nat)
    requires SchemaOk(sch) && SourceOk(sch, src) && j < |sch| && k <= |sch| && s.committed == s.working
    requires forall i | 0 <= i < k :: AcceptedAt(sch, src, c1, s, i)
    ensures AcceptedAt(sch, src, c2, Cut(sch, src, c1, s, k), j) <==> AcceptedAt(sch, src, c2, s, j)
  {
    hide SchemaOk, SourceOk, After, Plan, KeptIds, Cut, Acceptable, Merged, PreparedOk;
    var t := sch[j];
    assert t in sch;
    var ps, qs := Plan(src, c1, t), Plan(src, c2, t);
    var rerun, straight := After(sch, src, c2, Cut(sch, src, c1, s, k), j).working, After(sch, src, c2, s, j).working;
    forall i | 0 <= i <= j
      ensures At(rerun, sch[i].name).Keys == At(straight, sch[i].name).Keys + (if i < k then KeptIds(src, sch[i]) else {})
      ensures i < j ==> At(rerun, sch[i].name).Keys == At(straight, sch[i].name).Keys
    {
      CutKeys(sch, src, c1, c2, s, k, j, i);
      KeysGrow(sch, src, c2, s, j, i);
    }
    PlanOk(sch, src, c1, t);
    PlanOk(sch, src, c2, t);
    if j < k {
      var first := After(sch, src, c1, s, j).working;
      AfterAt(sch, src, c1, s, j, j);
      AfterAt(sch, src, c2, s, j, j);
      forall i | 0 <= i <= j ensures At(first, sch[i].name).Keys == At(straight, sch[i].name).Keys {
        KeysGrow(sch, src, c1, s, j, i);
        KeysGrow(sch, src, c2, s, j, i);
      }
      PlanUpToClock(sch, src, c1, c2, t);
      assert AcceptedAt(sch, src, c1, s, j);
      AcceptableByKeys(sch, j, first, ps, straight, qs);
      PlanKeys(src, c2, t);
      AcceptableAgain(t, straight, rerun, qs);
    } else {
      SameBefore(sch, src, c1, c2, s, k, j);
      PlanUpToClock(sch, src, c2, c2, t);
      if Acceptable(rerun, t, qs) { AcceptableByKeys(sch, j, rerun, qs, straight, qs); }
      if Acceptable(straight, t, qs) { AcceptableByKeys(sch, j, straight, qs, rerun, qs); }
    }
  }

  lemma CutThenRerun(sch: Schema, src: Source, c1: Clock, c2: Clock, s: Session, k: nat, j: nat)
    requires SchemaOk(sch) && SourceOk(sch, src) && j < |sch| && k <= |sch| && s.committed == s.working
    ensures var rerun := At(After(sch, src, c2, Cut(sch, src, c1, s, k), |sch|).working, sch[j].name);
            var straight := At(After(sch, src, c2, s, |sch|).working, sch[j].name);
            SameUpToClock(sch[j], rerun, straight) && (c1 == c2 ==> rerun == straight)
  {
    var t := sch[j];
    assert t in sch;
    var ps, qs, have := Plan(src, c1, t), Plan(src, c2, t), At(s.working, t.name);
    AfterCommitted(sch, src, c1, s, k);
    AfterAt(sch, src, c1, s, k, j);
    AfterAt(sch, src, c2, Cut(sch, src, c1, s, k), |sch|, j);
    AfterAt(sch, src, c2, s, |sch|, j);
    PlanOk(sch, src, c1, t);
    PlanOk(sch, src, c2, t);
    PlanUpToClock(sch, src, c1, c2, t);
    if j < k {
      MergedAgain(t, ps, qs, have);
      MergedUpToClock(t, ps, qs, have);
    }
  }

  /** Kill-anywhere and rerun. A run is cut after ANY number n of its statements - inside a
      batch sequence, between the inserts and the deferred updates, at a rejected statement
      - and whatever was not committed is lost. Running the script again from the start,
      with any batch size and at any later clock, succeeds exactly when one uninterrupted
      run would have, and leaves the same durable target: identical at the same clock
      readings, and otherwise identical outside clock-filled cells. */
  lemma InterruptAndResume(sch: Schema, src: Source, c1: Clock, b1: int, n: nat, c2: Clock, b2: int, s: Session)
    requires SchemaOk(sch) && SourceOk(sch, src) && b1 > 0 && b2 > 0 && s.committed == s.working
    requires n <= |Program(sch, src, c1, b1, 0)|
    ensures var cut := Rollback(Exec(s, Program(sch, src, c1, b1, 0)[..n]).s);
            var rerun := Exec(cut, Program(sch, src, c2, b2, 0));
            var straight := Exec(s, Program(sch, src, c2, b2, 0));
            && (rerun.Running? <==> straight.Running?)
            && (rerun.Running? ==> forall t | t in sch ::
                  && SameUpToClock(t, At(rerun.s.committed, t.name), At(straight.s.committed, t.name))
                  && (c1 == c2 ==> At(rerun.s.committed, t.name) == At(straight.s.committed, t.name)))
  {
    var cut := Rollback(Exec(s, Program(sch, src, c1, b1, 0)[..n]).s);
    var k := CutLeavesWholeTables(sch, src, c1, b1, s, 0, n);
    AfterCommitted(sch, src, c1, s, k);
    forall j | 0 <= j < |sch|
      ensures AcceptedAt(sch, src, c2, cut, j) <==> AcceptedAt(sch, src, c2, s, j)
      ensures var rerun := At(After(sch, src, c2, cut, |sch|).working, sch[j].name);
              var straight := At(After(sch, src, c2, s, |sch|).working, sch[j].name);
              SameUpToClock(sch[j], rerun, straight) && (c1 == c2 ==> rerun == straight)
    {
      var cut' := Cut(sch, src, c1, s, k);
      SequencesDoNotMatter(sch, src, c2, cut, cut', j);
      SequencesDoNotMatter(sch, src, c2, cut, cut', |sch|);
      SameAcceptance(sch, src, c1, c2, s, k, j);
      CutThenRerun(sch, src, c1, c2, s, k, j);
    }
    RunExec(sch, src, c2, b2, cut, 0);
    RunExec(sch, src, c2, b2, s, 0);
    AfterCommitted(sch, src, c2, cut, |sch|);
    AfterCommitted(sch, src, c2, s, |sch|);
    forall t | t in sch
      ensures var rerun := At(After(sch, src, c2, cut, |sch|).working, t.name);
              var straight := At(After(sch, src, c2, s, |sch|).working, t.name);
              SameUpToClock(t, rerun, straight) && (c1 == c2 ==> rerun == straight)
    {
      var j :| 0 <= j < |sch| && sch[j] == t;
    }
  }

  lemma {:induction false} SequencesDoNotMatter(sch: Schema, src: Source, clock: Clock, a: Session, b: Session, k: nat)
    requires k <= |sch| && a.working == b.working
    ensures After(sch, src, clock, a, k).working == After(sch, src, clock, b, k).working
  {
    if k > 0 {
      SequencesDoNotMatter(sch, src, clock, a, b, k - 1);
    }
  }
}
