/** The migration script itself: loops that null, split, prepare, insert, update and
    commit, proved against the functions and statement programs of Migration. */
module MigrationScript {
  import opened Prelude
  import opened Relational
  import opened Migration
  import opened MigrationTable
  import opened MigrationRun

  function CountOf(counts: map<Name, nat>, c: Name): nat {
    if c in counts then counts[c] else 0
  }

  function IsOrphanCell(src: Source, t: Table, row: Row, c: Name): nat {
    if c in row && Orphan(src, t, c, row[c]) then 1 else 0
  }

  // Names of the first j columns.
  ghost predicate Visited(t: Table, j: nat, c: Name)
    requires j <= |t.columns|
  {
    exists i :: 0 <= i < j && t.columns[i].name == c
  }

  lemma ColumnAt(t: Table, j: nat)
    requires TableOk(t) && j < |t.columns|
    ensures Lookup(t, t.columns[j].name) == Some(t.columns[j])
    ensures !Visited(t, j, t.columns[j].name)
    ensures forall c :: Visited(t, j + 1, c) <==> Visited(t, j, c) || c == t.columns[j].name
  {
    assert t.columns[j] in t.columns;
    NamedColumn(t, t.columns[j]);
    forall c | Visited(t, j + 1, c) ensures Visited(t, j, c) || c == t.columns[j].name {}
  }

  ghost function CleanedUpTo(src: Source, t: Table, row: Row, j: nat): Row
    requires j <= |t.columns|
  {
    map c | c in row :: if Visited(t, j, c) && Orphan(src, t, c, row[c]) then Null else row[c]
  }

  lemma CleanStep(src: Source, t: Table, row: Row, j: nat)
    requires TableOk(t) && j < |t.columns|
    ensures var col := t.columns[j];
            var hit := IsOrphanCell(src, t, row, col.name) == 1;
            && (hit <==> col.nullable && IsCross(t, col) && Get(row, col.name) != Null
                         && Get(row, col.name) !in Ids(src, col.ref.value))
            && Get(CleanedUpTo(src, t, row, j), col.name) == Get(row, col.name)
            && CleanedUpTo(src, t, row, j + 1)
               == (if hit then CleanedUpTo(src, t, row, j)[col.name := Null] else CleanedUpTo(src, t, row, j))
  {
    hide TableOk, Lookup, Visited;
    ColumnAt(t, j);
  }

  lemma CleanNone(src: Source, t: Table, row: Row)
    ensures CleanedUpTo(src, t, row, 0) == row
    ensures forall c :: !Visited(t, 0, c)
  {
  }

  lemma CleanAll(src: Source, t: Table, row: Row)
    ensures CleanedUpTo(src, t, row, |t.columns|) == Cleaned(src, t, row)
    ensures forall c :: !Visited(t, |t.columns|, c) ==> IsOrphanCell(src, t, row, c) == 0
  {
    forall c | !Visited(t, |t.columns|, c) ensures Lookup(t, c).None? {
      NotVisited(t, c);
    }
  }

  // One row of the double loop over rows and nullable foreign-key columns.
  method NullRow(src: Source, t: Table, row: Row, counts: map<Name, nat>)
    returns (cleaned: Row, nulled: map<Name, nat>)
    requires TableOk(t) && forall c | c in counts :: counts[c] > 0
    ensures cleaned == Cleaned(src, t, row)
    ensures forall c :: CountOf(nulled, c) == CountOf(counts, c) + IsOrphanCell(src, t, row, c)
    ensures forall c | c in nulled :: nulled[c] > 0
  {
    hide Orphan, Lookup, CleanedUpTo, Visited, TableOk;
    cleaned, nulled := row, counts;
    CleanNone(src, t, row);
    for j := 0 to |t.columns|
      invariant cleaned == CleanedUpTo(src, t, row, j)
      invariant forall c :: CountOf(nulled, c) == CountOf(counts, c) + if Visited(t, j, c) then IsOrphanCell(src, t, row, c) else 0
      invariant forall c | c in nulled :: nulled[c] > 0
    {
      var col := t.columns[j];
      ColumnAt(t, j);
      CleanStep(src, t, row, j);
      if col.nullable && IsCross(t, col) {
        var value := Get(cleaned, col.name);
        if value != Null && value !in Ids(src, col.ref.value) {
          cleaned := cleaned[col.name := Null];
          nulled := nulled[col.name := CountOf(nulled, col.name) + 1];
        }
      }
    }
    CleanAll(src, t, row);
  }

  lemma NotVisited(t: Table, c: Name)
    requires !Visited(t, |t.columns|, c)
    ensures Lookup(t, c).None?
  {
    forall i | 0 <= i < |t.columns| ensures t.columns[i].name != c {}
    assert forall d | d in t.columns :: d.name != c;
  }

  method NullOutOrphanedNullableFks(src: Source, t: Table, rows: seq<Row>)
    returns (cleaned: seq<Row>, nulled: map<Name, nat>)
    requires TableOk(t)
    ensures cleaned == CleanedRows(src, t, rows)
    ensures forall c :: CountOf(nulled, c) == OrphanCount(src, t, rows, c)
    ensures forall c | c in nulled :: nulled[c] > 0
  {
    cleaned, nulled := rows, map[];
    for i := 0 to |rows|
      invariant |cleaned| == |rows|
      invariant forall k | 0 <= k < |rows| :: cleaned[k] == if k < i then Cleaned(src, t, rows[k]) else rows[k]
      invariant forall c :: CountOf(nulled, c) == OrphanCount(src, t, rows[..i], c)
      invariant forall c | c in nulled :: nulled[c] > 0
    {
      var row;
      row, nulled := NullRow(src, t, cleaned[i], nulled);
      cleaned := cleaned[i := row];
      OrphanCountStep(src, t, rows, i);
    }
    assert rows[..|rows|] == rows;
  }

  lemma OrphanCountStep(src: Source, t: Table, rows: seq<Row>, i: nat)
    requires i < |rows|
    ensures forall c :: OrphanCount(src, t, rows[..i + 1], c) == OrphanCount(src, t, rows[..i], c) + IsOrphanCell(src, t, rows[i], c)
  {
    assert rows[..i + 1][..i] == rows[..i];
  }

  function RowsUnder(dangling: map<Name, seq<Row>>, c: Name): seq<Row> {
    if c in dangling then dangling[c] else []
  }

  method SplitDanglingRows(src: Source, t: Table, rows: seq<Row>)
    returns (keepable: seq<Row>, dangling: map<Name, seq<Row>>)
    ensures keepable == Kept(src, t, rows)
    ensures forall c :: RowsUnder(dangling, c) == Excluded(src, t, rows, c)
    ensures forall c | c in dangling :: dangling[c] != []
  {
    hide Kept, Excluded, Dangles;
    SplitNone(src, t);
    keepable, dangling := [], map[];
    for i := 0 to |rows|
      invariant keepable == Kept(src, t, rows[..i])
      invariant forall c :: RowsUnder(dangling, c) == Excluded(src, t, rows[..i], c)
      invariant forall c | c in dangling :: dangling[c] != []
    {
      var danglingCol := FirstDangling(src, t, rows[i], 0);
      if danglingCol.None? {
        keepable := keepable + [rows[i]];
      } else {
        dangling := dangling[danglingCol.value := RowsUnder(dangling, danglingCol.value) + [rows[i]]];
      }
      SplitStep(src, t, rows, i);
      forall c ensures RowsUnder(dangling, c) == Excluded(src, t, rows[..i + 1], c) {
        var before := Excluded(src, t, rows[..i], c);
        assert Excluded(src, t, rows[..i + 1], c) == if danglingCol == Some(c) then before + [rows[i]] else before;
      }
    }
    assert rows[..|rows|] == rows;
  }

  lemma SplitNone(src: Source, t: Table)
    ensures Kept(src, t, []) == [] && forall c :: Excluded(src, t, [], c) == []
  {
  }

  lemma SplitStep(src: Source, t: Table, rows: seq<Row>, i: nat)
    requires i < |rows|
    ensures var d := FirstDangling(src, t, rows[i], 0);
            && Kept(src, t, rows[..i + 1]) == (if d.None? then Kept(src, t, rows[..i]) + [rows[i]] else Kept(src, t, rows[..i]))
            && forall c :: Excluded(src, t, rows[..i + 1], c)
                           == if d == Some(c) then Excluded(src, t, rows[..i], c) + [rows[i]] else Excluded(src, t, rows[..i], c)
  {
    assert rows[..i + 1][..i] == rows[..i];
  }

  datatype DeferredUpdate = DeferredUpdate(key: Value, cells: Row)

  function DeferredList(ps: seq<Prepared>): seq<DeferredUpdate> {
    if ps == [] then []
    else
      var last := ps[|ps| - 1];
      DeferredList(ps[..|ps| - 1]) + (if last.deferred == map[] then [] else [DeferredUpdate(last.key, last.deferred)])
  }

  method PrepareRows(clock: Clock, t: Table, rows: seq<Row>)
    returns (insertRows: seq<Row>, deferredUpdates: seq<DeferredUpdate>)
    ensures insertRows == InsertRows(PreparedRows(clock, t, rows))
    ensures deferredUpdates == DeferredList(PreparedRows(clock, t, rows))
  {
    ghost var ps := PreparedRows(clock, t, rows);
    insertRows, deferredUpdates := [], [];
    for i := 0 to |rows|
      invariant insertRows == InsertRows(ps[..i])
      invariant deferredUpdates == DeferredList(ps[..i])
    {
      var p := Prepare(clock, t, rows[i]);
      insertRows := insertRows + [p.insert];
      if p.deferred != map[] {
        deferredUpdates := deferredUpdates + [DeferredUpdate(p.key, p.deferred)];
      }
      PrepareStep(ps, i);
    }
    assert ps[..|rows|] == ps;
  }

  lemma PrepareStep(ps: seq<Prepared>, i: nat)
    requires i < |ps|
    ensures InsertRows(ps[..i + 1]) == InsertRows(ps[..i]) + [ps[i].insert]
    ensures DeferredList(ps[..i + 1])
            == DeferredList(ps[..i]) + (if ps[i].deferred == map[] then [] else [DeferredUpdate(ps[i].key, ps[i].deferred)])
  {
    assert ps[..i + 1][..i] == ps[..i];
  }

  // UPDATE statements in list order.
  function UpdatesOf(t: Table, updates: seq<DeferredUpdate>): seq<Stmt> {
    seq(|updates|, i requires 0 <= i < |updates| => Update(t, updates[i].key, updates[i].cells))
  }

  lemma {:induction false} UpdatesAreStatements(t: Table, ps: seq<Prepared>)
    ensures UpdatesOf(t, DeferredList(ps)) == UpdateStatements(t, ps)
    decreases |ps|
  {
    if ps != [] {
      var init, last := ps[..|ps| - 1], ps[|ps| - 1];
      UpdatesAreStatements(t, init);
      assert ps == init + [last];
      UpdateStatementsAppend(t, init, [last]);
      assert UpdateStatements(t, []) == [];
    }
  }

  lemma {:induction false} UpdateStatementsAppend(t: Table, a: seq<Prepared>, b: seq<Prepared>)
    ensures UpdateStatements(t, a + b) == UpdateStatements(t, a) + UpdateStatements(t, b)
    decreases |a|
  {
    if a == [] {
      assert a + b == b;
    } else {
      assert (a + b)[1..] == a[1..] + b;
      UpdateStatementsAppend(t, a[1..], b);
    }
  }

  /** A connection to the target: what is durable, and the open transaction. A rejected
      statement loses the transaction. */
  class TargetConnection {
    var committed: Tables
    var working: Tables
    ghost var sequences: map<Name, int>

    ghost function View(): Session
      reads this
    {
      Session(committed, working, sequences)
    }

    method ExecuteInsert(t: Table, rows: seq<Row>) returns (failure: Option<Violation>)
      modifies this
      ensures var r := Step(old(View()), Insert(t, rows));
              && (failure.None? <==> r.Accepted?)
              && (failure.None? ==> View() == r.s)
              && (failure.Some? ==> failure.value == r.why && View() == Rollback(old(View())))
    {
      var (db, bad) := InsertResult(working, t, rows);
      failure := bad;
      working := if bad.None? then db else committed;
    }

    method ExecuteUpdate(t: Table, key: Value, cells: Row) returns (failure: Option<Violation>)
      modifies this
      ensures var r := Step(old(View()), Update(t, key, cells));
              && (failure.None? <==> r.Accepted?)
              && (failure.None? ==> View() == r.s)
              && (failure.Some? ==> failure.value == r.why && View() == Rollback(old(View())))
    {
      var (db, bad) := UpdateResult(working, t, key, cells);
      failure := bad;
      working := if bad.None? then db else committed;
    }

    method ExecuteSequenceReset(t: Table)
      modifies this`sequences
      ensures View() == Step(old(View()), ResetSequence(t)).s
    {
      sequences := sequences[t.name := HighestKey(At(working, t.name))];
    }

    method CommitWork()
      modifies this
      ensures View() == Step(old(View()), Commit).s
    {
      committed := working;
    }

    // SELECT COUNT(*)
    method Count(t: Table) returns (n: nat)
      ensures n == |At(working, t.name)|
    {
      n := |At(working, t.name)|;
    }
  }

  datatype CopyResult =
    | Copied(inSource: nat, newlyInserted: int)
    | Failed(why: Violation)
    | BadBatchSize                       // range() with step 0

  // The outcome of the remaining statements is the outcome of the whole table.
  method InsertBatches(target: TargetConnection, t: Table, insertRows: seq<Row>, batchSize: int)
    returns (failure: Option<Violation>)
    requires batchSize != 0
    modifies target
    ensures var o := Exec(old(target.View()), InsertStatements(t, insertRows, batchSize));
            && target.View() == o.s
            && (failure.None? <==> o.Running?)
            && (failure.Some? ==> failure.value == o.why)
  {
    failure := None;
    var i := 0;
    ghost var whole := Exec(target.View(), InsertStatements(t, insertRows, batchSize));
    assert insertRows[0..] == insertRows;
    while batchSize > 0 && i < |insertRows|
      invariant 0 <= i && (batchSize > 0 ==> i <= |insertRows|) && (batchSize < 0 ==> i == 0)
      invariant failure.None?
      invariant i <= |insertRows| ==> Exec(target.View(), InsertStatements(t, insertRows[i..], batchSize)) == whole
      decreases |insertRows| - i
    {
      var next := if i + batchSize < |insertRows| then i + batchSize else |insertRows|;
      ghost var rest := InsertStatements(t, insertRows[next..], batchSize);
      ghost var n := if batchSize < |insertRows[i..]| then batchSize else |insertRows[i..]|;
      assert insertRows[i..][..n] == insertRows[i..next] && insertRows[i..][n..] == insertRows[next..];
      assert InsertStatements(t, insertRows[i..], batchSize) == [Insert(t, insertRows[i..next])] + rest;
      ExecFirst(target.View(), Insert(t, insertRows[i..next]), rest);
      failure := target.ExecuteInsert(t, insertRows[i..next]);
      if failure.Some? {
        return;
      }
      i := next;
    }
  }

  method ApplyDeferred(target: TargetConnection, t: Table, updates: seq<DeferredUpdate>)
    returns (failure: Option<Violation>)
    modifies target
    ensures var o := Exec(old(target.View()), UpdatesOf(t, updates));
            && target.View() == o.s
            && (failure.None? <==> o.Running?)
            && (failure.Some? ==> failure.value == o.why)
  {
    failure := None;
    ghost var whole := Exec(target.View(), UpdatesOf(t, updates));
    assert updates[0..] == updates;
    for i := 0 to |updates|
      invariant failure.None?
      invariant Exec(target.View(), UpdatesOf(t, updates[i..])) == whole
    {
      var u := updates[i];
      assert UpdatesOf(t, updates[i..]) == [Update(t, u.key, u.cells)] + UpdatesOf(t, updates[i + 1..]);
      ExecFirst(target.View(), Update(t, u.key, u.cells), UpdatesOf(t, updates[i + 1..]));
      failure := target.ExecuteUpdate(t, u.key, u.cells);
      if failure.Some? {
        return;
      }
    }
    assert updates[|updates|..] == [];
  }

  ghost function Finished(s: Session, t: Table): Session {
    Session(s.working, s.working, if t.intKey then s.sequences[t.name := HighestKey(At(s.working, t.name))] else s.sequences)
  }

  lemma TableInParts(s: Session, t: Table, ps: seq<Prepared>, b: int)
    requires ps != []
    ensures var o := Exec(s, InsertStatements(t, InsertRows(ps), b));
            Exec(s, TableProgram(t, ps, b)) ==
            if o.Aborted? then o
            else var u := Exec(o.s, UpdatesOf(t, DeferredList(ps)));
                 if u.Aborted? then u else Running(Finished(u.s, t))
  {
    var inserts, updates := InsertStatements(t, InsertRows(ps), b), UpdateStatements(t, ps);
    var tail := (if t.intKey then [ResetSequence(t)] else []) + [Commit];
    assert TableProgram(t, ps, b) == inserts + (updates + tail);
    UpdatesAreStatements(t, ps);
    ExecAppend(s, inserts, updates + tail);
    if Exec(s, inserts).Running? {
      var mid := Exec(s, inserts).s;
      ExecAppend(mid, updates, tail);
      if Exec(mid, updates).Running? {
        TailExec(Exec(mid, updates).s, t, tail);
      }
    }
  }

  // The writing half of copy_table.
  method WriteTable(target: TargetConnection, t: Table, ghost ps: seq<Prepared>,
                    insertRows: seq<Row>, deferredUpdates: seq<DeferredUpdate>, batchSize: int)
    returns (failure: Option<Violation>, newlyInserted: int)
    requires ps != [] && batchSize != 0
    requires insertRows == InsertRows(ps) && deferredUpdates == DeferredList(ps)
    modifies target
    ensures var o := Exec(old(target.View()), TableProgram(t, ps, batchSize));
            && target.View() == o.s
            && (failure.None? <==> o.Running?)
            && (failure.Some? ==> failure.value == o.why)
    ensures failure.None? && PreparedOk(t, ps) && batchSize > 0 ==>
              newlyInserted == |KeysOf(ps) - At(old(target.working), t.name).Keys|
  {
    hide Exec, PreparedOk, InsertStatements, UpdateStatements;
    ghost var start := target.View();
    TableInParts(start, t, ps, batchSize);
    var beforeCount: int := target.Count(t);
    failure := InsertBatches(target, t, insertRows, batchSize);
    newlyInserted := 0;
    if failure.Some? {
      return;
    }
    var afterCount: int := target.Count(t);
    newlyInserted := afterCount - beforeCount;
    assert PreparedOk(t, ps) && batchSize > 0 ==> newlyInserted == |KeysOf(ps) - At(start.working, t.name).Keys| by {
      if PreparedOk(t, ps) && batchSize > 0 {
        CountsNewKeys(start, t, ps, batchSize);
      }
    }
    failure := ApplyDeferred(target, t, deferredUpdates);
    if failure.Some? {
      return;
    }
    ghost var applied := target.View();
    if t.intKey {
      target.ExecuteSequenceReset(t);
    }
    target.CommitWork();
    assert target.View() == Finished(applied, t);
  }

  lemma CountsNewKeys(s: Session, t: Table, ps: seq<Prepared>, b: int)
    requires ps != [] && PreparedOk(t, ps) && b > 0
    requires Exec(s, InsertStatements(t, InsertRows(ps), b)).Running?
    ensures var now := At(Exec(s, InsertStatements(t, InsertRows(ps), b)).s.working, t.name);
            |now| - |At(s.working, t.name)| == |KeysOf(ps) - At(s.working, t.name).Keys|
  {
    InsertRowsShape(t, ps);
    InsertsExec(s, t, InsertRows(ps), b);
    InsertAllShape(t.pk, InsertRows(ps), At(s.working, t.name));
    NewKeys(At(s.working, t.name), InsertAll(t.pk, InsertRows(ps), At(s.working, t.name)), KeysOf(ps));
  }

  lemma NewKeys(have: map<Value, Row>, now: map<Value, Row>, keys: set<Value>)
    requires now.Keys == have.Keys + keys
    ensures |now| - |have| == |keys - have.Keys|
  {
    assert now.Keys == have.Keys + (keys - have.Keys);
    assert |now| == |now.Keys| && |have| == |have.Keys|;
  }

  method CopyTable(src: Source, target: TargetConnection, t: Table, clock: Clock, batchSize: int, dryRun: bool)
    returns (r: CopyResult)
    requires TableOk(t)
    modifies target
    ensures dryRun || KeptRows(src, t) == [] ==>
              r == Copied(|KeptRows(src, t)|, 0) && target.View() == old(target.View())
    ensures r == BadBatchSize <==> !dryRun && batchSize == 0 && KeptRows(src, t) != []
    ensures r == BadBatchSize ==> target.View() == old(target.View())
    ensures !dryRun && batchSize != 0 ==>
              var o := Exec(old(target.View()), TableProgram(t, Plan(src, clock, t), batchSize));
              && target.View() == o.s
              && (o.Running? <==> r.Copied?)
              && (r.Failed? ==> r.why == o.why)
    ensures r.Copied? ==> r.inSource == |KeptRows(src, t)|
    ensures r.Copied? && !dryRun && PreparedOk(t, Plan(src, clock, t)) && batchSize > 0 ==>
              r.newlyInserted == |KeptIds(src, t) - At(old(target.working), t.name).Keys|
  {
    var sourceRows, nulled := NullOutOrphanedNullableFks(src, t, Rows(src, t.name));
    var dangling;
    sourceRows, dangling := SplitDanglingRows(src, t, sourceRows);
    var insertRows, deferredUpdates := PrepareRows(clock, t, sourceRows);
    ghost var ps := Plan(src, clock, t);
    PlanKeys(src, clock, t);
    if dryRun || |insertRows| == 0 {
      assert KeptRows(src, t) == [] ==> KeptIds(src, t) == {};
      return Copied(|insertRows|, 0);
    }
    if batchSize == 0 {
      return BadBatchSize;
    }
    var failure, newlyInserted := WriteTable(target, t, ps, insertRows, deferredUpdates, batchSize);
    if failure.Some? {
      return Failed(failure.value);
    }
    return Copied(|insertRows|, newlyInserted);
  }

  // Rows of the tables from i on that survive nulling and exclusion.
  function Total(sch: Schema, src: Source, i: nat): nat
    requires i <= |sch|
    decreases |sch| - i
  {
    if i == |sch| then 0 else |KeptRows(src, sch[i])| + Total(sch, src, i + 1)
  }

  lemma SchemaTablesOk(sch: Schema)
    requires SchemaOk(sch)
    ensures forall i | 0 <= i < |sch| :: TableOk(sch[i])
  {
  }

  datatype RunResult = Done(total: nat) | Stopped(why: Violation) | StoppedBadBatchSize

  /** A whole run. A dry run touches nothing and reports the very total a completed real
      run reports; a real run executes exactly the statements of Program. With a batch size
      of 0 it stops at the first table that keeps a row, having written nothing. */
  method RunMigration(sch: Schema, src: Source, target: TargetConnection, clock: Clock, batchSize: int, dryRun: bool)
    returns (r: RunResult)
    requires SchemaOk(sch)
    modifies target
    ensures dryRun ==> r == Done(Total(sch, src, 0)) && target.View() == old(target.View())
    ensures r.Done? ==> r.total == Total(sch, src, 0)
    ensures !dryRun && batchSize != 0 ==>
              var o := Exec(old(target.View()), Program(sch, src, clock, batchSize, 0));
              && target.View() == o.s
              && (o.Running? <==> r.Done?)
              && (o.Aborted? ==> r == Stopped(o.why))
    ensures !dryRun && batchSize == 0 ==>
              && target.View() == old(target.View())
              && r == if exists t :: t in sch && KeptRows(src, t) != [] then StoppedBadBatchSize else Done(0)
  {
    hide TableOk, Declared, Plan, KeptRows, TableProgram, PreparedOk, KeptIds;
    SchemaTablesOk(sch);
    var total := 0;
    ghost var start := target.View();
    for i := 0 to |sch|
      invariant dryRun ==> target.View() == start
      invariant !dryRun && batchSize == 0 ==>
                  target.View() == start && total == 0 && forall k | 0 <= k < i :: KeptRows(src, sch[k]) == []
      invariant !dryRun && batchSize != 0 ==>
                  Exec(start, Program(sch, src, clock, batchSize, 0)) == Exec(target.View(), Program(sch, src, clock, batchSize, i))
      invariant total + Total(sch, src, i) == Total(sch, src, 0)
    {
      if batchSize != 0 {
        ExecAppend(target.View(), TableProgram(sch[i], Plan(src, clock, sch[i]), batchSize),
                   Program(sch, src, clock, batchSize, i + 1));
      }
      var copied := CopyTable(src, target, sch[i], clock, batchSize, dryRun);
      match copied {
        case Copied(n, _) => total := total + n;
        case Failed(why) => return Stopped(why);
        case BadBatchSize => return StoppedBadBatchSize;
      }
    }
    return Done(total);
  }
}
