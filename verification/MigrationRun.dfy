/** Whole runs of the migration: when they succeed, what they leave, and what an
    interruption at any statement followed by a rerun leaves. */
module MigrationRun {
  import opened Prelude
  import opened Relational
  import opened Migration
  import opened MigrationTable

  /* ----- the prepared rows are well shaped ----- */

  lemma CleanedKey(src: Source, t: Table, row: Row)
    requires TableOk(t)
    ensures Get(Cleaned(src, t, row), t.pk) == Get(row, t.pk)
  {
  }

  lemma {:induction false} KeptShape(src: Source, t: Table, rows: seq<Row>)
    requires KeysOk(t.pk, rows)
    ensures KeysOk(t.pk, Kept(src, t, rows))
    ensures forall row | row in Kept(src, t, rows) :: row in rows && FirstDangling(src, t, row, 0).None?
    decreases |rows|
  {
    if rows != [] {
      var init, last := rows[..|rows| - 1], rows[|rows| - 1];
      assert rows == init + [last];
      KeptShape(src, t, init);
      var kept := Kept(src, t, init);
      forall i | 0 <= i < |kept| ensures Get(kept[i], t.pk) != Get(last, t.pk) {
        assert kept[i] in init;
        var j :| 0 <= j < |init| && init[j] == kept[i];
        assert rows[j] == kept[i];
      }
    }
  }

  lemma KeptRowsShape(sch: Schema, src: Source, t: Table)
    requires SchemaOk(sch) && SourceOk(sch, src) && t in sch
    ensures TableOk(t) && KeysOk(t.pk, KeptRows(src, t))
    ensures forall row | row in KeptRows(src, t) :: FirstDangling(src, t, row, 0).None?
  {
    var i :| 0 <= i < |sch| && sch[i] == t;
    var rows := Rows(src, t.name);
    forall j | 0 <= j < |rows| ensures Get(CleanedRows(src, t, rows)[j], t.pk) == Get(rows[j], t.pk) {
      CleanedKey(src, t, rows[j]);
    }
    KeptShape(src, t, CleanedRows(src, t, rows));
  }

  ghost predicate GoodKey(t: Table, row: Row) {
    Get(row, t.pk).Int? || Get(row, t.pk).Text?
  }

  lemma PrepareShape(clock: Clock, t: Table, row: Row)
    requires TableOk(t) && GoodKey(t, row)
    ensures PreparedOk(t, [Prepare(clock, t, row)])
  {
    var p := Prepare(clock, t, row);
    assert !SelfColumn(t, t.pk);
  }

  lemma PlanOk(sch: Schema, src: Source, clock: Clock, t: Table)
    requires SchemaOk(sch) && SourceOk(sch, src) && t in sch
    ensures PreparedOk(t, Plan(src, clock, t))
  {
    KeptRowsShape(sch, src, t);
    var rows := KeptRows(src, t);
    var ps := Plan(src, clock, t);
    forall p | p in ps ensures PreparedOk(t, [p]) && p in [p] {
      var i :| 0 <= i < |ps| && ps[i] == p;
      assert GoodKey(t, rows[i]);
      PrepareShape(clock, t, rows[i]);
    }
  }

  // Writing the deferred part back onto the insert gives the whole row again.
  lemma Restored(clock: Clock, t: Table, row: Row)
    ensures var p := Prepare(clock, t, row); p.insert + p.deferred == Resolved(clock, t, row)
  {
    var p := Prepare(clock, t, row);
    var full := Resolved(clock, t, row);
    assert (p.insert + p.deferred).Keys == full.Keys;
  }

  /* ----- a run, table by table ----- */

  // The session after the first k tables, all of them having been accepted.
  ghost function After(sch: Schema, src: Source, clock: Clock, s: Session, k: nat): Session
    requires k <= |sch|
  {
    if k == 0 then s
    else AfterTable(After(sch, src, clock, s, k - 1), sch[k - 1], Plan(src, clock, sch[k - 1]))
  }

  ghost predicate AcceptedAt(sch: Schema, src: Source, clock: Clock, s: Session, j: nat)
    requires j < |sch|
  {
    Acceptable(After(sch, src, clock, s, j).working, sch[j], Plan(src, clock, sch[j]))
  }

  ghost predicate AcceptedFrom(sch: Schema, src: Source, clock: Clock, s: Session, i: nat)
    requires i <= |sch|
  {
    forall j | i <= j < |sch| :: AcceptedAt(sch, src, clock, s, j)
  }

  lemma AcceptedFromStep(sch: Schema, src: Source, clock: Clock, s: Session, i: nat)
    requires i < |sch|
    ensures AcceptedFrom(sch, src, clock, s, i)
            <==> AcceptedAt(sch, src, clock, s, i) && AcceptedFrom(sch, src, clock, s, i + 1)
  {
  }

  lemma OneTable(sch: Schema, src: Source, clock: Clock, b: int, s: Session, i: nat)
    requires SchemaOk(sch) && SourceOk(sch, src) && b > 0 && i < |sch|
    ensures var o := Exec(After(sch, src, clock, s, i), TableProgram(sch[i], Plan(src, clock, sch[i]), b));
            && (o.Running? <==> AcceptedAt(sch, src, clock, s, i))
            && (o.Running? ==> o.s == After(sch, src, clock, s, i + 1))
  {
    PlanOk(sch, src, clock, sch[i]);
    TableExec(After(sch, src, clock, s, i), sch[i], Plan(src, clock, sch[i]), b);
  }

  lemma ExecNothing(s: Session)
    ensures Exec(s, []) == Running(s)
  {
  }

  lemma NothingLeft(sch: Schema, src: Source, clock: Clock, s: Session)
    ensures AcceptedFrom(sch, src, clock, s, |sch|)
    ensures Exec(After(sch, src, clock, s, |sch|), []) == Running(After(sch, src, clock, s, |sch|))
  {
  }

  // The statements from table i on, executed where the tables before it left off.
  lemma {:induction false} RunExec(sch: Schema, src: Source, clock: Clock, b: int, s: Session, i: nat)
    requires SchemaOk(sch) && SourceOk(sch, src) && b > 0 && i <= |sch|
    ensures var o := Exec(After(sch, src, clock, s, i), Program(sch, src, clock, b, i));
            && (o.Running? <==> AcceptedFrom(sch, src, clock, s, i))
            && (o.Running? ==> o.s == After(sch, src, clock, s, |sch|))
    decreases |sch| - i
  {
    hide After, AcceptedAt, AcceptedFrom, Exec, TableProgram, Plan, SchemaOk, SourceOk;
    if i == |sch| {
      NothingLeft(sch, src, clock, s);
    } else {
      var here := After(sch, src, clock, s, i);
      var first := TableProgram(sch[i], Plan(src, clock, sch[i]), b);
      OneTable(sch, src, clock, b, s, i);
      AcceptedFromStep(sch, src, clock, s, i);
      ExecAppend(here, first, Program(sch, src, clock, b, i + 1));
      RunExec(sch, src, clock, b, s, i + 1);
    }
  }

  lemma AfterTableAt(s: Session, t: Table, ps: seq<Prepared>, n: Name)
    ensures At(AfterTable(s, t, ps).working, n) ==
            if n == t.name then Merged(t, ps, At(s.working, n)) else At(s.working, n)
  {
    if ps == [] {
      assert InsertRows(ps) == [];
    }
  }

  // Each table's contents depend only on its own rows before the run.
  lemma {:induction false} AfterAt(sch: Schema, src: Source, clock: Clock, s: Session, k: nat, j: nat)
    requires SchemaOk(sch) && k <= |sch| && j < |sch|
    ensures At(After(sch, src, clock, s, k).working, sch[j].name) ==
            (var have := At(s.working, sch[j].name);
             if j < k then Merged(sch[j], Plan(src, clock, sch[j]), have) else have)
  {
    hide AfterTable, Merged, Plan, TableOk, Declared;
    if k > 0 {
      var t := sch[k - 1];
      AfterAt(sch, src, clock, s, k - 1, j);
      AfterTableAt(After(sch, src, clock, s, k - 1), t, Plan(src, clock, t), sch[j].name);
      assert sch[j].name == t.name <==> j == k - 1;
    }
  }

  lemma {:induction false} AfterCommitted(sch: Schema, src: Source, clock: Clock, s: Session, k: nat)
    requires k <= |sch| && s.committed == s.working
    ensures After(sch, src, clock, s, k).committed == After(sch, src, clock, s, k).working
  {
    if k > 0 {
      AfterCommitted(sch, src, clock, s, k - 1);
    }
  }

  /* ----- exactly when a run into a fresh target succeeds ----- */

  function KeptIds(src: Source, t: Table): set<Value> {
    set row | row in KeptRows(src, t) :: Get(row, t.pk)
  }

  function ExcludedIds(src: Source, t: Table): set<Value> {
    set row | row in CleanedRows(src, t, Rows(src, t.name)) && FirstDangling(src, t, row, 0).Some? :: Get(row, t.pk)
  }

  // A NOT NULL column has a value or a declared default, and is no self-reference
  // (those are inserted as NULL first).
  predicate Complete(t: Table, row: Row) {
    forall c | c in t.columns && !c.nullable :: !IsSelf(t, c) && (Get(row, c.name) != Null || Defaulted(c))
  }

  predicate NamesNoExcludedParent(sch: Schema, src: Source, t: Table, row: Row) {
    forall c, p | c in t.columns && IsCross(t, c) && p in sch && p.name == c.ref.value.table ::
      Get(row, c.name) !in ExcludedIds(src, p)
  }

  predicate SelfReferencesKept(src: Source, t: Table, row: Row) {
    forall c | c in t.columns && IsSelf(t, c) && Get(row, c.name) != Null :: Get(row, c.name) in KeptIds(src, t)
  }

  // The row as the script inserts it, at some fixed clock: its unique keys hold no
  // clock-filled cell, so which clock does not matter to them.
  function AsInserted(t: Table, row: Row): Row {
    Prepare((n: Name, key: Value, c: Name) => 0, t, row).insert
  }

  predicate KeptDistinct(src: Source, t: Table) {
    forall a, b | a in KeptRows(src, t) && b in KeptRows(src, t) && Get(a, t.pk) != Get(b, t.pk) ::
      !Clashes(t, AsInserted(t, a), AsInserted(t, b))
  }

  /** The proviso, read off the source alone. */
  predicate Portable(sch: Schema, src: Source, t: Table) {
    && (forall row | row in KeptRows(src, t) ::
          Complete(t, row) && NamesNoExcludedParent(sch, src, t, row) && SelfReferencesKept(src, t, row))
    && KeptDistinct(src, t)
  }

  /* ----- the same, for a target that already holds rows ----- */

  predicate ParentsKnown(sch: Schema, src: Source, base: Tables, t: Table, row: Row) {
    forall c, p | c in t.columns && IsCross(t, c) && p in sch && p.name == c.ref.value.table ::
      Get(row, c.name) == Null || Get(row, c.name) in KeptIds(src, p) || Get(row, c.name) in At(base, p.name).Keys
  }

  predicate SelfReferencesIn(t: Table, row: Row, keys: set<Value>) {
    forall c | c in t.columns && IsSelf(t, c) && Get(row, c.name) != Null :: ToUtcAware(Get(row, c.name)) in keys
  }

  // No kept row whose id is absent shares a unique key with a row the target has.
  predicate NoSharedKey(src: Source, t: Table, have: map<Value, Row>) {
    forall a, k | a in KeptRows(src, t) && Get(a, t.pk) !in have && k in have :: !Clashes(t, AsInserted(t, a), have[k])
  }

  predicate NewDistinct(src: Source, t: Table, have: map<Value, Row>) {
    forall a, b | a in KeptRows(src, t) && b in KeptRows(src, t) && Get(a, t.pk) != Get(b, t.pk)
                  && Get(a, t.pk) !in have && Get(b, t.pk) !in have ::
      !Clashes(t, AsInserted(t, a), AsInserted(t, b))
  }

  predicate PortableInto(sch: Schema, src: Source, base: Tables, t: Table) {
    && (forall row | row in KeptRows(src, t) ::
          && Complete(t, row)
          && (Get(row, t.pk) !in At(base, t.name) ==> ParentsKnown(sch, src, base, t, row))
          && SelfReferencesIn(t, row, KeptIds(src, t) + At(base, t.name).Keys))
    && NoSharedKey(src, t, At(base, t.name)) && NewDistinct(src, t, At(base, t.name))
  }

  lemma CompleteIff(clock: Clock, t: Table, row: Row)
    requires TableOk(t) && GoodKey(t, row)
    ensures NotNullOk(t, Prepare(clock, t, row).insert) <==> Complete(t, row)
  {
    hide Lookup;
    var insert, full := Prepare(clock, t, row).insert, Resolved(clock, t, row);
    PrepareShape(clock, t, row);
    assert Prepare(clock, t, row) in [Prepare(clock, t, row)];
    forall c | c in t.columns && !c.nullable
      ensures Get(insert, c.name) != Null <==> (!IsSelf(t, c) && (Get(row, c.name) != Null || Defaulted(c)))
    {
      NamedColumn(t, c);
      if IsSelf(t, c) {
        assert SelfColumn(t, c.name);
      } else {
        NotSelf(t, c);
      }
    }
  }

  lemma NamedColumn(t: Table, c: Column)
    requires TableOk(t) && c in t.columns
    ensures Lookup(t, c.name) == Some(c)
  {
    ColumnUnique(t, c, Lookup(t, c.name).value);
  }

  lemma NotSelf(t: Table, c: Column)
    requires TableOk(t) && c in t.columns && !IsSelf(t, c)
    ensures !SelfColumn(t, c.name)
  {
    forall d | d in t.columns && d.name == c.name ensures d == c {
      ColumnUnique(t, c, d);
    }
  }

  lemma {:induction false} KeptOrExcluded(src: Source, t: Table, rows: seq<Row>)
    ensures forall row | row in rows :: FirstDangling(src, t, row, 0).Some? || row in Kept(src, t, rows)
    decreases |rows|
  {
    if rows != [] {
      KeptOrExcluded(src, t, rows[..|rows| - 1]);
      assert rows == rows[..|rows| - 1] + [rows[|rows| - 1]];
    }
  }

  lemma CleanedRowsKeys(src: Source, t: Table)
    requires TableOk(t) && KeysOk(t.pk, Rows(src, t.name))
    ensures var cleaned := CleanedRows(src, t, Rows(src, t.name));
            && KeysOk(t.pk, cleaned)
            && (set row | row in cleaned :: Get(row, t.pk)) == (set row | row in Rows(src, t.name) :: Get(row, t.pk))
  {
    hide Cleaned, TableOk, Get, KeysOk;
    var rows := Rows(src, t.name);
    var cleaned := CleanedRows(src, t, rows);
    forall i | 0 <= i < |rows| ensures Get(cleaned[i], t.pk) == Get(rows[i], t.pk) {
      CleanedKey(src, t, rows[i]);
    }
    SameKeysOk(t.pk, rows, cleaned);
    SameKeySet(t.pk, rows, cleaned);
  }

  lemma SameKeysOk(pk: Name, a: seq<Row>, b: seq<Row>)
    requires |a| == |b| && (forall i | 0 <= i < |a| :: Get(b[i], pk) == Get(a[i], pk)) && KeysOk(pk, a)
    ensures KeysOk(pk, b)
  {
    hide Get;
  }

  lemma SameKeySet(pk: Name, a: seq<Row>, b: seq<Row>)
    requires |a| == |b| && forall i | 0 <= i < |a| :: Get(b[i], pk) == Get(a[i], pk)
    ensures (set row | row in b :: Get(row, pk)) == (set row | row in a :: Get(row, pk))
  {
    KeysWithin(pk, a, b);
    KeysWithin(pk, b, a);
  }

  lemma KeysWithin(pk: Name, a: seq<Row>, b: seq<Row>)
    requires |a| == |b| && forall i | 0 <= i < |a| :: Get(b[i], pk) == Get(a[i], pk)
    ensures (set row | row in a :: Get(row, pk)) <= (set row | row in b :: Get(row, pk))
  {
    hide Get;
    var from, to := set row | row in a :: Get(row, pk), set row | row in b :: Get(row, pk);
    forall v | v in from ensures v in to {
      var row :| row in a && Get(row, pk) == v;
      var i :| 0 <= i < |a| && a[i] == row;
      assert b[i] in b && Get(b[i], pk) == v;
    }
  }

  // Every id of the source is either kept or excluded, never both.
  lemma IdsSplit(sch: Schema, src: Source, p: Table, r: Ref)
    requires SchemaOk(sch) && SourceOk(sch, src) && p in sch && r == Ref(p.name, p.pk)
    ensures Ids(src, r) == KeptIds(src, p) + ExcludedIds(src, p)
    ensures KeptIds(src, p) !! ExcludedIds(src, p)
  {
    hide SchemaOk;
    var cleaned := CleanedRows(src, p, Rows(src, p.name));
    KeptRowsShape(sch, src, p);
    CleanedRowsKeys(src, p);
    KeptShape(src, p, cleaned);
    KeptOrExcluded(src, p, cleaned);
    assert Ids(src, r) == set row | row in cleaned :: Get(row, p.pk);
    forall a, e | a in KeptRows(src, p) && e in cleaned && FirstDangling(src, p, e, 0).Some?
      ensures Get(a, p.pk) != Get(e, p.pk)
    {
      if Get(a, p.pk) == Get(e, p.pk) {
        SameKeySameRow(p.pk, cleaned, a, e);
      }
    }
  }

  lemma KeptReferenceExists(sch: Schema, src: Source, t: Table, row: Row, c: Column)
    requires SchemaOk(sch) && SourceOk(sch, src) && t in sch && row in KeptRows(src, t)
    requires c in t.columns && IsCross(t, c)
    ensures Get(row, c.name) == Null || Get(row, c.name) in Ids(src, c.ref.value)
    ensures !c.nullable ==> Get(row, c.name) in Ids(src, c.ref.value)
  {
    KeptRowsShape(sch, src, t);
    var cleaned := CleanedRows(src, t, Rows(src, t.name));
    CleanedRowsKeys(src, t);
    KeptShape(src, t, cleaned);
    if c.nullable {
      var i :| 0 <= i < |cleaned| && cleaned[i] == row;
      CleanedReference(src, t, Rows(src, t.name)[i], c);
    } else {
      var j :| 0 <= j < |t.columns| && t.columns[j] == c;
      assert !Dangles(src, t, t.columns[j], row);
    }
  }

  lemma InsertVerbatim(clock: Clock, t: Table, row: Row, c: Column)
    requires TableOk(t) && c in t.columns && !IsSelf(t, c)
    requires !Get(row, c.name).Naive? && (Get(row, c.name) == Null ==> c.nullable)
    ensures Get(Prepare(clock, t, row).insert, c.name) == Get(row, c.name)
  {
    NamedColumn(t, c);
    NotSelf(t, c);
  }

  // A foreign key of a kept row is inserted verbatim, and names some row of the source.
  lemma KeptReference(sch: Schema, src: Source, clock: Clock, t: Table, row: Row, c: Column)
    requires SchemaOk(sch) && SourceOk(sch, src) && t in sch && row in KeptRows(src, t)
    requires c in t.columns && IsCross(t, c)
    ensures Get(Prepare(clock, t, row).insert, c.name) == Get(row, c.name)
    ensures Get(row, c.name) == Null || Get(row, c.name) in Ids(src, c.ref.value)
  {
    KeptRowsShape(sch, src, t);
    KeptReferenceExists(sch, src, t, row, c);
    IdsAreKeys(sch, src, t, c);
    InsertVerbatim(clock, t, row, c);
  }

  lemma CleanedReference(src: Source, t: Table, row: Row, c: Column)
    requires TableOk(t) && c in t.columns && IsCross(t, c) && c.nullable
    ensures var v := Get(Cleaned(src, t, row), c.name); v == Null || v in Ids(src, c.ref.value)
  {
    NamedColumn(t, c);
  }

  lemma IdsAreKeys(sch: Schema, src: Source, t: Table, c: Column)
    requires SchemaOk(sch) && SourceOk(sch, src) && t in sch && c in t.columns && IsCross(t, c)
    ensures exists p :: p in sch && c.ref.value == Ref(p.name, p.pk)
    ensures forall v | v in Ids(src, c.ref.value) :: v.Int? || v.Text?
  {
    var i :| 0 <= i < |sch| && sch[i] == t;
    assert Declared(sch, sch[i], c, i);
    var j :| 0 <= j < i && sch[j].name == c.ref.value.table && sch[j].pk == c.ref.value.column;
    assert sch[j] in sch && c.ref.value == Ref(sch[j].name, sch[j].pk);
  }

  // Before table i of a run from base: earlier tables have gained their kept ids.
  ghost predicate Loaded(sch: Schema, src: Source, base: Tables, db: Tables, i: nat)
    requires i < |sch|
  {
    && (forall j | 0 <= j < i :: At(db, sch[j].name).Keys == At(base, sch[j].name).Keys + KeptIds(src, sch[j]))
    && At(db, sch[i].name) == At(base, sch[i].name)
  }

  // Each table gains its kept ids when its turn comes.
  lemma KeysGrow(sch: Schema, src: Source, clock: Clock, s: Session, k: nat, j: nat)
    requires SchemaOk(sch) && SourceOk(sch, src) && k <= |sch| && j < |sch|
    ensures var now := At(After(sch, src, clock, s, k).working, sch[j].name).Keys;
            now == At(s.working, sch[j].name).Keys + (if j < k then KeptIds(src, sch[j]) else {})
  {
    AfterAt(sch, src, clock, s, k, j);
    assert sch[j] in sch;
    PlanOk(sch, src, clock, sch[j]);
    MergedShape(sch[j], Plan(src, clock, sch[j]), At(s.working, sch[j].name));
    PlanKeys(src, clock, sch[j]);
  }

  lemma RunLoaded(sch: Schema, src: Source, clock: Clock, s: Session, i: nat)
    requires SchemaOk(sch) && SourceOk(sch, src) && i < |sch|
    ensures Loaded(sch, src, s.working, After(sch, src, clock, s, i).working, i)
  {
    forall j | 0 <= j < i
      ensures At(After(sch, src, clock, s, i).working, sch[j].name).Keys == At(s.working, sch[j].name).Keys + KeptIds(src, sch[j])
    {
      KeysGrow(sch, src, clock, s, i, j);
    }
    AfterAt(sch, src, clock, s, i, i);
  }

  lemma PlanKeys(src: Source, clock: Clock, t: Table)
    ensures KeysOf(Plan(src, clock, t)) == KeptIds(src, t)
    ensures forall row | row in KeptRows(src, t) :: Prepare(clock, t, row) in Plan(src, clock, t)
    ensures forall p | p in Plan(src, clock, t) :: exists row :: row in KeptRows(src, t) && p == Prepare(clock, t, row)
  {
    var rows, ps := KeptRows(src, t), Plan(src, clock, t);
    forall i | 0 <= i < |rows| ensures ps[i] in ps && ps[i] == Prepare(clock, t, rows[i]) && rows[i] in rows {}
    forall row | row in rows ensures Prepare(clock, t, row) in ps {
      var i :| 0 <= i < |rows| && rows[i] == row;
    }
    forall p | p in ps ensures exists row :: row in rows && p == Prepare(clock, t, row) {
      var i :| 0 <= i < |ps| && ps[i] == p;
      assert rows[i] in rows;
    }
  }

  lemma ParentTable(sch: Schema, i: nat, c: Column) returns (j: nat)
    requires SchemaOk(sch) && i < |sch| && c in sch[i].columns && IsCross(sch[i], c)
    ensures j < i && sch[j] in sch && c.ref.value == Ref(sch[j].name, sch[j].pk)
    ensures forall q | q in sch && q.name == sch[j].name :: q == sch[j]
  {
    assert Declared(sch, sch[i], c, i);
    j :| 0 <= j < i && sch[j].name == c.ref.value.table && sch[j].pk == c.ref.value.column;
  }

  lemma ParentPresentIff(sch: Schema, src: Source, clock: Clock, base: Tables, db: Tables, i: nat, row: Row, c: Column)
    requires SchemaOk(sch) && SourceOk(sch, src) && i < |sch| && Loaded(sch, src, base, db, i)
    requires row in KeptRows(src, sch[i]) && c in sch[i].columns && IsCross(sch[i], c)
    ensures var v := Get(Prepare(clock, sch[i], row).insert, c.name);
            (v != Null ==> v in At(db, c.ref.value.table).Keys)
            <==> forall p | p in sch && p.name == c.ref.value.table ::
                   Get(row, c.name) == Null || Get(row, c.name) in KeptIds(src, p) || Get(row, c.name) in At(base, p.name).Keys
  {
    hide SchemaOk, SourceOk, KeptRows, KeptIds, Prepare, Ids;
    var j := ParentTable(sch, i, c);
    KeptReference(sch, src, clock, sch[i], row, c);
    assert At(db, sch[j].name).Keys == At(base, sch[j].name).Keys + KeptIds(src, sch[j]);
  }

  lemma ParentsPresentIff(sch: Schema, src: Source, clock: Clock, base: Tables, db: Tables, i: nat, row: Row)
    requires SchemaOk(sch) && SourceOk(sch, src) && i < |sch| && Loaded(sch, src, base, db, i)
    requires row in KeptRows(src, sch[i])
    ensures ParentsPresent(db, sch[i], Prepare(clock, sch[i], row).insert) <==> ParentsKnown(sch, src, base, sch[i], row)
  {
    hide SchemaOk, SourceOk, KeptRows, KeptIds, Prepare, Loaded;
    var t, insert := sch[i], Prepare(clock, sch[i], row).insert;
    forall c | c in t.columns && IsCross(t, c)
      ensures (Get(insert, c.name) != Null ==> Get(insert, c.name) in At(db, c.ref.value.table).Keys)
              <==> forall p | p in sch && p.name == c.ref.value.table ::
                     Get(row, c.name) == Null || Get(row, c.name) in KeptIds(src, p) || Get(row, c.name) in At(base, p.name).Keys
    {
      ParentPresentIff(sch, src, clock, base, db, i, row, c);
    }
  }

  lemma DeferredCell(clock: Clock, t: Table, row: Row, c: Column)
    requires TableOk(t) && c in t.columns && IsSelf(t, c) && c.nullable
    ensures c.name in Prepare(clock, t, row).deferred <==> Get(row, c.name) != Null
    ensures Get(row, c.name) != Null ==> Prepare(clock, t, row).deferred[c.name] == ToUtcAware(Get(row, c.name))
  {
    NamedColumn(t, c);
    assert SelfColumn(t, c.name);
  }

  lemma KeptIdsAreKeys(sch: Schema, src: Source, t: Table)
    requires SchemaOk(sch) && SourceOk(sch, src) && t in sch
    ensures forall v | v in KeptIds(src, t) :: v.Int? || v.Text?
  {
    KeptRowsShape(sch, src, t);
  }

  lemma SelfTargetsIff(clock: Clock, t: Table, row: Row, keys: set<Value>)
    requires TableOk(t) && Complete(t, row)
    ensures var p := Prepare(clock, t, row);
            (forall c | c in p.deferred :: p.deferred[c] in keys) <==> SelfReferencesIn(t, row, keys)
  {
    var deferred := Prepare(clock, t, row).deferred;
    forall c | c in t.columns && IsSelf(t, c)
      ensures c.name in deferred <==> Get(row, c.name) != Null
      ensures c.name in deferred ==> deferred[c.name] == ToUtcAware(Get(row, c.name))
    {
      DeferredCell(clock, t, row, c);
    }
    forall c | c in deferred ensures exists d :: d in t.columns && IsSelf(t, d) && d.name == c {
      assert SelfColumn(t, c);
    }
  }

  /* ----- unique keys ----- */

  // A cell whose value is read off the clock when it has to be filled in.
  predicate ClockCell(t: Table, c: Name) {
    var col := Lookup(t, c);
    col.Some? && Defaulted(col.value) && col.value.default.ClockNow?
  }

  ghost predicate SameRowUpToClock(t: Table, a: Row, b: Row) {
    forall c :: !ClockCell(t, c) ==> Get(a, c) == Get(b, c)
  }

  lemma ResolvedUpToClock(c1: Clock, c2: Clock, t: Table, row: Row)
    ensures var f, g := Resolved(c1, t, row), Resolved(c2, t, row);
            f.Keys == g.Keys && forall c | c in f && !ClockCell(t, c) :: f[c] == g[c]
  {
    forall c | !ClockCell(t, c) ensures Cell(c1, t, row, c) == Cell(c2, t, row, c) {}
  }

  lemma SelfIsNoClockCell(t: Table, c: Name)
    requires TableOk(t) && SelfColumn(t, c)
    ensures !ClockCell(t, c)
  {
    var d :| d in t.columns && d.name == c && IsSelf(t, d);
    NamedColumn(t, d);
  }

  lemma PartsUpToClock(t: Table, f: Row, g: Row)
    requires f.Keys == g.Keys && forall c | c in f && !ClockCell(t, c) :: f[c] == g[c]
    requires forall c | SelfColumn(t, c) :: !ClockCell(t, c)
    ensures SameRowUpToClock(t, InsertPart(t, f), InsertPart(t, g))
    ensures DeferredPart(t, f) == DeferredPart(t, g)
  {
    assert DeferredPart(t, f).Keys == DeferredPart(t, g).Keys;
  }

  lemma PrepareUpToClock(c1: Clock, c2: Clock, t: Table, row: Row)
    requires TableOk(t)
    ensures var p, q := Prepare(c1, t, row), Prepare(c2, t, row);
            p.key == q.key && p.deferred == q.deferred && SameRowUpToClock(t, p.insert, q.insert)
  {
    ResolvedUpToClock(c1, c2, t, row);
    forall c | SelfColumn(t, c) ensures !ClockCell(t, c) {
      SelfIsNoClockCell(t, c);
    }
    PartsUpToClock(t, Resolved(c1, t, row), Resolved(c2, t, row));
  }

  // Unique keys hold no clock-filled cell.
  lemma ClashUpToClock(t: Table, a: Row, a': Row, b: Row, b': Row)
    requires TableOk(t) && SameRowUpToClock(t, a, a') && SameRowUpToClock(t, b, b')
    ensures Clashes(t, a, b) <==> Clashes(t, a', b')
  {
    forall u, c | u in t.uniques && c in u ensures Get(a, c) == Get(a', c) && Get(b, c) == Get(b', c) {
      assert !ClockCell(t, c);
    }
    forall u | u in t.uniques ensures Shares(u, a, b) <==> Shares(u, a', b') {}
  }

  lemma SameRow(t: Table, a: Row)
    ensures SameRowUpToClock(t, a, a)
  {
  }

  lemma UniqueAcceptableIff(sch: Schema, src: Source, clock: Clock, t: Table, have: map<Value, Row>)
    requires SchemaOk(sch) && SourceOk(sch, src) && t in sch
    ensures UniqueAcceptable(t, Plan(src, clock, t), have) <==> NoSharedKey(src, t, have) && NewDistinct(src, t, have)
  {
    hide SchemaOk, SourceOk, Clashes, TableOk, SameRowUpToClock, KeptRows, PreparedOk, AsInserted, Prepare, KeptIds, Plan;
    var ps := Plan(src, clock, t);
    PlanOk(sch, src, clock, t);
    PlanKeys(src, clock, t);
    KeptRowsShape(sch, src, t);
    InsertedShape(t, ps, have);
    var mid := InsertAll(t.pk, InsertRows(ps), have);
    forall row | row in KeptRows(src, t) && Get(row, t.pk) !in have
      ensures Get(row, t.pk) in mid && SameRowUpToClock(t, mid[Get(row, t.pk)], AsInserted(t, row))
    {
      InsertedAt(clock, t, row, ps, mid, have);
    }
    if UniqueAcceptable(t, ps, have) {
      forall a, k | a in KeptRows(src, t) && Get(a, t.pk) !in have && k in have ensures !Clashes(t, AsInserted(t, a), have[k]) {
        SameRow(t, have[k]);
        ClashUpToClock(t, mid[Get(a, t.pk)], AsInserted(t, a), have[k], have[k]);
      }
      forall a, b | a in KeptRows(src, t) && b in KeptRows(src, t) && Get(a, t.pk) != Get(b, t.pk)
                    && Get(a, t.pk) !in have && Get(b, t.pk) !in have
        ensures !Clashes(t, AsInserted(t, a), AsInserted(t, b))
      {
        ClashUpToClock(t, mid[Get(a, t.pk)], AsInserted(t, a), mid[Get(b, t.pk)], AsInserted(t, b));
      }
    }
    if NoSharedKey(src, t, have) && NewDistinct(src, t, have) {
      forall k, j | k in mid.Keys && k !in have.Keys && j in mid.Keys && j != k ensures !Clashes(t, mid[k], mid[j]) {
        var a := KeptAt(src, clock, t, k);
        if j in have {
          SameRow(t, have[j]);
          ClashUpToClock(t, mid[k], AsInserted(t, a), have[j], have[j]);
        } else {
          var b := KeptAt(src, clock, t, j);
          ClashUpToClock(t, mid[k], AsInserted(t, a), mid[j], AsInserted(t, b));
        }
      }
    }
  }

  lemma InsertedAt(clock: Clock, t: Table, row: Row, ps: seq<Prepared>, mid: map<Value, Row>, have: map<Value, Row>)
    requires TableOk(t) && Prepare(clock, t, row) in ps && Get(row, t.pk) !in have
    requires forall p | p in ps :: p.key in mid && mid[p.key] == if p.key in have then have[p.key] else p.insert
    ensures Get(row, t.pk) in mid && SameRowUpToClock(t, mid[Get(row, t.pk)], AsInserted(t, row))
  {
    PrepareUpToClock(clock, (n: Name, key: Value, c: Name) => 0, t, row);
    assert Prepare(clock, t, row).key == Get(row, t.pk);
  }

  lemma KeptAt(src: Source, clock: Clock, t: Table, k: Value) returns (row: Row)
    requires k in KeysOf(Plan(src, clock, t))
    ensures row in KeptRows(src, t) && Get(row, t.pk) == k
  {
    PlanKeys(src, clock, t);
    row :| row in KeptRows(src, t) && Get(row, t.pk) == k;
  }

  /* ----- exactly when a run succeeds ----- */

  lemma AcceptableIff(sch: Schema, src: Source, clock: Clock, base: Tables, db: Tables, i: nat)
    requires SchemaOk(sch) && SourceOk(sch, src) && i < |sch| && Loaded(sch, src, base, db, i)
    ensures Acceptable(db, sch[i], Plan(src, clock, sch[i])) <==> PortableInto(sch, src, base, sch[i])
  {
    hide SchemaOk, SourceOk, UniqueAcceptable, NoSharedKey, NewDistinct, ParentsKnown, ParentsPresent, SelfReferencesIn,
      KeptRows, KeptIds, Prepare, NotNullOk, Complete, Plan;
    var t := sch[i];
    var ps := Plan(src, clock, t);
    PlanKeys(src, clock, t);
    KeptRowsShape(sch, src, t);
    UniqueAcceptableIff(sch, src, clock, t, At(db, t.name));
    forall row | row in KeptRows(src, t)
      ensures var p := Prepare(clock, t, row);
              && p in ps && p.key == Get(row, t.pk)
              && (NotNullOk(t, p.insert) <==> Complete(t, row))
              && (ParentsPresent(db, t, p.insert) <==> ParentsKnown(sch, src, base, t, row))
              && (Complete(t, row) ==>
                    ((forall c | c in p.deferred :: p.deferred[c] in At(db, t.name).Keys || p.deferred[c] in KeysOf(ps))
                     <==> SelfReferencesIn(t, row, KeptIds(src, t) + At(base, t.name).Keys)))
    {
      KeptGoodKey(src, t, row);
      CompleteIff(clock, t, row);
      ParentsPresentIff(sch, src, clock, base, db, i, row);
      PreparedKey(clock, t, row);
      if Complete(t, row) {
        SelfTargetsIff(clock, t, row, KeptIds(src, t) + At(base, t.name).Keys);
      }
    }
  }

  lemma PreparedKey(clock: Clock, t: Table, row: Row)
    ensures Prepare(clock, t, row).key == Get(row, t.pk)
  {
  }

  lemma KeptGoodKey(src: Source, t: Table, row: Row)
    requires KeysOk(t.pk, KeptRows(src, t)) && row in KeptRows(src, t)
    ensures GoodKey(t, row)
  {
    var k :| 0 <= k < |KeptRows(src, t)| && KeptRows(src, t)[k] == row;
  }

  /** From ANY target - fresh, partly migrated or already in use - a run executes every
      INSERT and every deferred UPDATE without a violation of a primary key, a unique key,
      a foreign key or NOT NULL if and only if, for every table, each kept row is complete,
      each new one finds its parents among the kept and the present rows, self-references
      name such rows, and no new row shares a unique key with a row that is there or with
      another new one. */
  lemma RunSucceedsIff(sch: Schema, src: Source, clock: Clock, b: int, s: Session)
    requires SchemaOk(sch) && SourceOk(sch, src) && b > 0
    ensures Exec(s, Program(sch, src, clock, b, 0)).Running? <==> forall t | t in sch :: PortableInto(sch, src, s.working, t)
  {
    hide SchemaOk, SourceOk, PortableInto, Loaded, Acceptable, Exec, Program;
    RunExec(sch, src, clock, b, s, 0);
    forall j | 0 <= j < |sch| ensures AcceptedAt(sch, src, clock, s, j) <==> PortableInto(sch, src, s.working, sch[j]) {
      RunLoaded(sch, src, clock, s, j);
      AcceptableIff(sch, src, clock, s.working, After(sch, src, clock, s, j).working, j);
    }
    if forall j | 0 <= j < |sch| :: AcceptedAt(sch, src, clock, s, j) {
      forall t | t in sch ensures PortableInto(sch, src, s.working, t) {
        var j :| 0 <= j < |sch| && sch[j] == t;
      }
    }
    if forall t | t in sch :: PortableInto(sch, src, s.working, t) {
      forall j | 0 <= j < |sch| ensures AcceptedAt(sch, src, clock, s, j) {
        assert sch[j] in sch;
      }
    }
  }

  ghost predicate Fresh(sch: Schema, s: Session) {
    s.committed == s.working && forall t | t in sch :: At(s.working, t.name) == map[]
  }

  // A kept row's parent is kept, in the target or excluded.
  lemma ParentsKnownIff(sch: Schema, src: Source, base: Tables, t: Table, row: Row)
    requires SchemaOk(sch) && SourceOk(sch, src) && t in sch && row in KeptRows(src, t)
    ensures NamesNoExcludedParent(sch, src, t, row) ==> ParentsKnown(sch, src, base, t, row)
    ensures (forall p | p in sch :: At(base, p.name) == map[]) && ParentsKnown(sch, src, base, t, row) ==>
              NamesNoExcludedParent(sch, src, t, row)
  {
    hide KeptRows, KeptIds, ExcludedIds, Ids;
    forall c, p | c in t.columns && IsCross(t, c) && p in sch && p.name == c.ref.value.table
      ensures Get(row, c.name) == Null || Get(row, c.name) in KeptIds(src, p) + ExcludedIds(src, p)
      ensures KeptIds(src, p) !! ExcludedIds(src, p) && Null !in ExcludedIds(src, p)
    {
      ParentIds(sch, src, t, row, c, p);
    }
  }

  lemma ParentIds(sch: Schema, src: Source, t: Table, row: Row, c: Column, p: Table)
    requires SchemaOk(sch) && SourceOk(sch, src) && t in sch && row in KeptRows(src, t)
    requires c in t.columns && IsCross(t, c) && p in sch && p.name == c.ref.value.table
    ensures Get(row, c.name) == Null || Get(row, c.name) in KeptIds(src, p) + ExcludedIds(src, p)
    ensures KeptIds(src, p) !! ExcludedIds(src, p) && Null !in ExcludedIds(src, p)
  {
    hide KeptRows, KeptIds, ExcludedIds, Ids, SourceOk;
    var i :| 0 <= i < |sch| && sch[i] == t;
    var j := ParentTable(sch, i, c);
    IdsSplit(sch, src, p, c.ref.value);
    IdsAreKeys(sch, src, t, c);
    KeptReferenceExists(sch, src, t, row, c);
  }

  // Ids are integers or text, which the UTC step leaves alone.
  lemma SelfKeptIff(sch: Schema, src: Source, t: Table, row: Row)
    requires SchemaOk(sch) && SourceOk(sch, src) && t in sch
    ensures SelfReferencesKept(src, t, row) <==> SelfReferencesIn(t, row, KeptIds(src, t))
  {
    hide SchemaOk, SourceOk, KeptIds;
    KeptIdsAreKeys(sch, src, t);
  }

  lemma PortableIff(sch: Schema, src: Source, base: Tables, t: Table)
    requires SchemaOk(sch) && SourceOk(sch, src) && t in sch
    ensures Portable(sch, src, t) ==> (PortableInto(sch, src, base, t) <==> NoSharedKey(src, t, At(base, t.name)))
    ensures (forall p | p in sch :: At(base, p.name) == map[]) ==> (Portable(sch, src, t) <==> PortableInto(sch, src, base, t))
  {
    hide SchemaOk, SourceOk, KeptRows, KeptIds, AsInserted, Clashes, NamesNoExcludedParent, ParentsKnown, SelfReferencesKept, Complete;
    forall row | row in KeptRows(src, t)
      ensures NamesNoExcludedParent(sch, src, t, row) ==> ParentsKnown(sch, src, base, t, row)
      ensures (forall p | p in sch :: At(base, p.name) == map[]) && ParentsKnown(sch, src, base, t, row) ==>
                NamesNoExcludedParent(sch, src, t, row)
      ensures SelfReferencesKept(src, t, row) <==> SelfReferencesIn(t, row, KeptIds(src, t))
    {
      ParentsKnownIff(sch, src, base, t, row);
      SelfKeptIff(sch, src, t, row);
    }
  }

  /** A run into a fresh target executes every INSERT and every deferred UPDATE without
      a violation of a primary key, a unique key, a foreign key or NOT NULL if and only if
      every table is portable: each kept row is complete, names no excluded parent, its
      self-references name kept rows, and no two kept rows share a unique key. */
  lemma FreshRunSucceedsIff(sch: Schema, src: Source, clock: Clock, b: int, s: Session)
    requires SchemaOk(sch) && SourceOk(sch, src) && b > 0 && Fresh(sch, s)
    ensures Exec(s, Program(sch, src, clock, b, 0)).Running? <==> forall t | t in sch :: Portable(sch, src, t)
  {
    hide SchemaOk, SourceOk, PortableInto, Portable, Exec, Program;
    RunSucceedsIff(sch, src, clock, b, s);
    forall t | t in sch ensures Portable(sch, src, t) <==> PortableInto(sch, src, s.working, t) {
      PortableIff(sch, src, s.working, t);
    }
  }

  /** A portable source migrates into any target, partly migrated or already in use,
      exactly when no kept row whose id is absent there shares a unique key with a row the
      target has: ON CONFLICT names the primary key only. */
  lemma PortableRunSucceedsIff(sch: Schema, src: Source, clock: Clock, b: int, s: Session)
    requires SchemaOk(sch) && SourceOk(sch, src) && b > 0
    requires forall t | t in sch :: Portable(sch, src, t)
    ensures var o := Exec(s, Program(sch, src, clock, b, 0));
            && (o.Running? <==> forall t | t in sch :: NoSharedKey(src, t, At(s.working, t.name)))
            && (o.Running? ==> forall t | t in sch :: At(o.s.working, t.name).Keys == At(s.working, t.name).Keys + KeptIds(src, t))
  {
    hide SchemaOk, SourceOk, PortableInto, Portable, NoSharedKey, Exec, Program, KeptIds;
    RunSucceedsIff(sch, src, clock, b, s);
    forall t | t in sch ensures PortableInto(sch, src, s.working, t) <==> NoSharedKey(src, t, At(s.working, t.name)) {
      PortableIff(sch, src, s.working, t);
    }
    RunExec(sch, src, clock, b, s, 0);
    forall t | t in sch
      ensures At(After(sch, src, clock, s, |sch|).working, t.name).Keys == At(s.working, t.name).Keys + KeptIds(src, t)
    {
      var j :| 0 <= j < |sch| && sch[j] == t;
      KeysGrow(sch, src, clock, s, |sch|, j);
    }
  }

  /** What a successful run into a fresh target leaves, durable: each table holds exactly
      its kept rows, whole again - every self-reference (chains and cycles included)
      restored, missing defaults filled in, date-times made UTC-aware - whatever the row
      order and the batch size. */
  lemma FreshRunContents(sch: Schema, src: Source, clock: Clock, b: int, s: Session, t: Table)
    requires SchemaOk(sch) && SourceOk(sch, src) && b > 0 && Fresh(sch, s)
    requires Exec(s, Program(sch, src, clock, b, 0)).Running? && t in sch
    ensures var db := Exec(s, Program(sch, src, clock, b, 0)).s.committed;
            && At(db, t.name).Keys == KeptIds(src, t)
            && (forall row | row in KeptRows(src, t) ::
                  var copied := At(db, t.name)[Get(row, t.pk)];
                  && copied == Resolved(clock, t, row)
                  && forall c :: Get(row, c) != Null ==>
                       Get(copied, c) == match Get(row, c) case Naive(at) => Aware(at) case v => v)
  {
    RunExec(sch, src, clock, b, s, 0);
    AfterCommitted(sch, src, clock, s, |sch|);
    var j :| 0 <= j < |sch| && sch[j] == t;
    KeysGrow(sch, src, clock, s, |sch|, j);
    AfterAt(sch, src, clock, s, |sch|, j);
    PlanOk(sch, src, clock, t);
    MergedShape(t, Plan(src, clock, t), map[]);
    PlanKeys(src, clock, t);
    forall row | row in KeptRows(src, t)
      ensures Merged(t, Plan(src, clock, t), map[])[Get(row, t.pk)] == Resolved(clock, t, row)
    {
      assert Prepare(clock, t, row) in Plan(src, clock, t);
      Restored(clock, t, row);
    }
  }

  /* ----- the same, cell by cell, from the source row itself ----- */

  ghost predicate HasParent(src: Source, c: Column, v: Value)
    requires c.ref.Some?
  {
    exists p :: p in Rows(src, c.ref.value.table) && Get(p, c.ref.value.column) == v
  }

  lemma HasParentIff(src: Source, c: Column, v: Value)
    requires c.ref.Some?
    ensures HasParent(src, c, v) <==> v in Ids(src, c.ref.value)
  {
  }

  // The row has a parent wherever the schema demands one.
  ghost predicate HasNeededParents(src: Source, t: Table, row: Row) {
    forall c | c in t.columns && !c.nullable && c.ref.Some? && c.ref.value.table != t.name :: HasParent(src, c, Get(row, c.name))
  }

  lemma CleanedCell(src: Source, t: Table, row: Row, c: Column)
    requires TableOk(t) && c in t.columns
    ensures var v := Get(row, c.name);
            Get(Cleaned(src, t, row), c.name)
            == if c.nullable && c.ref.Some? && c.ref.value.table != t.name && !HasParent(src, c, v) then Null else v
  {
    NamedColumn(t, c);
    if c.ref.Some? {
      HasParentIff(src, c, Get(row, c.name));
    }
  }

  lemma KeptByParents(src: Source, t: Table, row: Row)
    requires TableOk(t)
    ensures FirstDangling(src, t, Cleaned(src, t, row), 0).None? <==> HasNeededParents(src, t, row)
  {
    hide Cleaned, TableOk, HasParent, Ids;
    forall c | c in t.columns
      ensures Dangles(src, t, c, Cleaned(src, t, row)) <==>
                !c.nullable && c.ref.Some? && c.ref.value.table != t.name && !HasParent(src, c, Get(row, c.name))
    {
      CleanedCell(src, t, row, c);
      if c.ref.Some? {
        HasParentIff(src, c, Get(row, c.name));
      }
    }
    forall c | c in t.columns ensures exists j :: 0 <= j < |t.columns| && t.columns[j] == c {}
  }

  lemma KeptIffParents(sch: Schema, src: Source, t: Table, row: Row)
    requires SchemaOk(sch) && SourceOk(sch, src) && t in sch && row in Rows(src, t.name)
    ensures Get(row, t.pk) in KeptIds(src, t) <==> HasNeededParents(src, t, row)
    ensures HasNeededParents(src, t, row) ==> Cleaned(src, t, row) in KeptRows(src, t)
  {
    hide SchemaOk, Cleaned, HasNeededParents;
    KeptRowsShape(sch, src, t);
    var rows := Rows(src, t.name);
    var i :| 0 <= i < |rows| && rows[i] == row;
    assert CleanedRows(src, t, rows)[i] == Cleaned(src, t, row);
    CleanedKey(src, t, row);
    KeptByParents(src, t, row);
    KeptOrExcluded(src, t, CleanedRows(src, t, rows));
    IdsSplit(sch, src, t, Ref(t.name, t.pk));
  }

  lemma ResolvedCell(clock: Clock, t: Table, row: Row, c: Column)
    requires TableOk(t) && c in t.columns
    ensures Get(Resolved(clock, t, row), c.name) ==
            match Get(row, c.name)
            case Null =>
              if c.nullable || c.default == NoDefault then Null
              else if c.default.Constant? then c.default.v
              else Aware(clock(t.name, Get(row, t.pk), c.name))
            case Naive(at) => Aware(at)
            case v => v
  {
    NamedColumn(t, c);
    assert Defaulted(c) ==> c.name in Resolved(clock, t, row);
    assert c.name in Resolved(clock, t, row) ==> Resolved(clock, t, row)[c.name] == Cell(clock, t, row, c.name);
  }

  /** Which source rows a successful run into a fresh target carries over, and what becomes
      of each cell: a row arrives exactly when every NOT NULL reference to another table
      names a row of the source; a nullable one that names none is NULL; a date-time
      without a zone is the same instant in UTC; a NULL in a NOT NULL column with a
      declared default is that default or the clock's reading; every other value, the
      self-references among them, arrives as it was. */
  lemma CellArrives(sch: Schema, src: Source, clock: Clock, b: int, s: Session, t: Table, row: Row, c: Column)
    requires SchemaOk(sch) && SourceOk(sch, src) && b > 0 && Fresh(sch, s)
    requires Exec(s, Program(sch, src, clock, b, 0)).Running? && t in sch && row in Rows(src, t.name) && c in t.columns
    ensures var rows := At(Exec(s, Program(sch, src, clock, b, 0)).s.committed, t.name);
            var key := Get(row, t.pk);
            && (key in rows <==> HasNeededParents(src, t, row))
            && (key in rows ==>
                  Get(rows[key], c.name) ==
                  match Get(row, c.name)
                  case Null =>
                    if c.nullable || c.default == NoDefault then Null
                    else if c.default.Constant? then c.default.v
                    else Aware(clock(t.name, key, c.name))
                  case v =>
                    if c.nullable && c.ref.Some? && c.ref.value.table != t.name && !HasParent(src, c, v) then Null
                    else if v.Naive? then Aware(v.at) else v)
  {
    hide SchemaOk, SourceOk, Program, Exec, HasParent, HasNeededParents, Cleaned, Resolved, KeptRows, KeptIds;
    FreshRunContents(sch, src, clock, b, s, t);
    KeptIffParents(sch, src, t, row);
    KeptRowsShape(sch, src, t);
    CleanedKey(src, t, row);
    CleanedCell(src, t, row, c);
    ResolvedCell(clock, t, Cleaned(src, t, row), c);
  }
}
