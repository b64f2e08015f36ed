/** Schema migration of the application database: diff, create, add columns, backfill;
    and the life of the legacy-documents marker under any mix of migrations and work. */
module SchemaEvolution {
  type Name = string
  type Key = int

  datatype Value = Null | Number(n: int) | Flag(b: bool) | Moment(t: int)

  type Cells = map<Name, Value>

  function Get(row: Cells, c: Name): Value {
    if c in row then row[c] else Null
  }

  // A stored table: its columns, and its rows by primary key. An absent cell is NULL.
  datatype Stored = Stored(columns: set<Name>, rows: map<Key, Cells>)
  type Database = map<Name, Stored>

  // What the models declare, in dependency order.
  datatype Declared = Declared(name: Name, columns: seq<Name>)
  type Model = seq<Declared>

  const APPLICATIONS := "applications"
  const DOCUMENTS := "documents"
  const APPLICATION_ID := "application_id"
  const ATTEMPTS := "extraction_attempt_count"
  const LEGACY := "documents_legacy_unverified"
  const REFRESH := "evidence_refresh_required"
  const LAST_CHECKED := "documents_last_checked_at"

  predicate ModelOk(model: Model) {
    && (forall i, j | 0 <= i < j < |model| :: model[i].name != model[j].name)
    && (exists i :: 0 <= i < |model| && model[i].name == APPLICATIONS && ATTEMPTS in model[i].columns
                    && LEGACY in model[i].columns && REFRESH in model[i].columns && LAST_CHECKED in model[i].columns)
    && (exists i :: 0 <= i < |model| && model[i].name == DOCUMENTS && APPLICATION_ID in model[i].columns)
  }

  /* ----- the diff ----- */

  function MissingTables(model: Model, db: Database, k: nat): seq<Name>
    requires k <= |model|
  {
    if k == 0 then []
    else MissingTables(model, db, k - 1) + (if model[k - 1].name in db then [] else [model[k - 1].name])
  }

  function MissingIn(t: Declared, have: set<Name>, j: nat): seq<(Name, Name)>
    requires j <= |t.columns|
  {
    if j == 0 then []
    else MissingIn(t, have, j - 1) + (if t.columns[j - 1] in have then [] else [(t.name, t.columns[j - 1])])
  }

  function MissingColumns(model: Model, db: Database, k: nat): seq<(Name, Name)>
    requires k <= |model|
  {
    if k == 0 then []
    else
      var t := model[k - 1];
      MissingColumns(model, db, k - 1) + (if t.name in db then MissingIn(t, db[t.name].columns, |t.columns|) else [])
  }

  predicate Current(model: Model, db: Database) {
    forall t | t in model :: t.name in db && forall c | c in t.columns :: c in db[t.name].columns
  }

  lemma {:induction false} MissingInSound(t: Declared, have: set<Name>, j: nat)
    requires j <= |t.columns|
    ensures forall p :: p in MissingIn(t, have, j) <==> p.0 == t.name && p.1 !in have && p.1 in t.columns[..j]
  {
    if j > 0 {
      MissingInSound(t, have, j - 1);
      assert t.columns[..j] == t.columns[..j - 1] + [t.columns[j - 1]];
    }
  }

  predicate IsMissing(model: Model, db: Database, p: (Name, Name)) {
    exists t :: t in model && t.name == p.0 && t.name in db && p.1 in t.columns && p.1 !in db[t.name].columns
  }

  /** The diff lists exactly the declared tables that are absent and the declared columns
      absent from the tables that exist. */
  lemma {:induction false} DiffSound(model: Model, db: Database, k: nat)
    requires k <= |model|
    ensures forall n :: n in MissingTables(model, db, k) <==> n !in db && exists t :: t in model[..k] && t.name == n
    ensures forall p :: p in MissingColumns(model, db, k) <==> IsMissing(model[..k], db, p)
  {
    if k > 0 {
      DiffSound(model, db, k - 1);
      var t := model[k - 1];
      assert model[..k] == model[..k - 1] + [t];
      if t.name in db {
        MissingInSound(t, db[t.name].columns, |t.columns|);
        assert t.columns[..|t.columns|] == t.columns;
      }
      forall n ensures n in MissingTables(model, db, k) <==> n !in db && exists u :: u in model[..k] && u.name == n {
        assert t in model[..k];
      }
      forall p ensures p in MissingColumns(model, db, k) <==> IsMissing(model[..k], db, p) {
        assert t in model[..k];
      }
    }
  }

  lemma SomeMember<T(!new)>(s: seq<T>)
    ensures s != [] ==> exists x :: x in s
  {
    if s != [] {
      assert s[0] in s;
    }
  }

  lemma NoMembers<T(!new)>(s: seq<T>)
    requires forall x :: x !in s
    ensures s == []
  {
    SomeMember(s);
  }

  /** verify_schema reports nothing exactly when the schema is current. */
  lemma NothingMissingIff(model: Model, db: Database)
    ensures Current(model, db) <==> MissingTables(model, db, |model|) == [] && MissingColumns(model, db, |model|) == []
  {
    DiffSound(model, db, |model|);
    assert model[..|model|] == model;
    var tables, columns := MissingTables(model, db, |model|), MissingColumns(model, db, |model|);
    if tables == [] && columns == [] {
      forall t | t in model ensures t.name in db && forall c | c in t.columns :: c in db[t.name].columns {
        assert t.name !in tables;
        forall c | c in t.columns ensures c in db[t.name].columns {
          assert (t.name, c) !in columns;
        }
      }
    }
    if Current(model, db) {
      assert forall n :: n !in tables;
      forall p ensures p !in columns {
        assert !IsMissing(model, db, p);
      }
      NoMembers(tables);
      NoMembers(columns);
    }
  }

  /* ----- the four kinds of change ----- */

  function CreateTables(model: Model, db: Database, k: nat): Database
    requires k <= |model|
  {
    if k == 0 then db
    else
      var d := CreateTables(model, db, k - 1);
      var t := model[k - 1];
      if t.name in d then d else d[t.name := Stored(set c | c in t.columns, map[])]
  }

  function AddColumns(db: Database, columns: seq<(Name, Name)>, k: nat): Database
    requires k <= |columns|
  {
    if k == 0 then db
    else
      var d, p := AddColumns(db, columns, k - 1), columns[k - 1];
      if p.0 in d then d[p.0 := Stored(d[p.0].columns + {p.1}, d[p.0].rows)] else d
  }

  function HasDocument(db: Database, id: Key): bool {
    DOCUMENTS in db && exists d :: d in db[DOCUMENTS].rows && Get(db[DOCUMENTS].rows[d], APPLICATION_ID) == Number(id)
  }

  // What a backfill writes into a NULL cell of its column.
  function Filled(db: Database, c: Name, id: Key): Value {
    if c == ATTEMPTS then Number(0)
    else if c == LEGACY then Flag(HasDocument(db, id))
    else Flag(false)
  }

  function Pending(db: Database, c: Name): set<Key> {
    if APPLICATIONS in db then set id | id in db[APPLICATIONS].rows && Get(db[APPLICATIONS].rows[id], c) == Null else {}
  }

  function Backfill(db: Database, c: Name): Database {
    if APPLICATIONS !in db then db
    else
      var t := db[APPLICATIONS];
      db[APPLICATIONS := t.(rows := map id | id in t.rows ::
                              if Get(t.rows[id], c) == Null then t.rows[id][c := Filled(db, c, id)] else t.rows[id])]
  }

  function Cell(db: Database, n: Name, id: Key, c: Name): Value {
    if n in db && id in db[n].rows then Get(db[n].rows[id], c) else Null
  }

  function Ids(db: Database, n: Name): set<Key> {
    if n in db then db[n].rows.Keys else {}
  }

  // Cell by cell: the NULLs of one column of applications are filled, and no other cell,
  // row, column or table is touched.
  ghost predicate NullsFilled(was: Database, now: Database, c: Name) {
    && now.Keys == was.Keys
    && (forall n | n in was && n != APPLICATIONS :: now[n] == was[n])
    && (APPLICATIONS in was ==> now[APPLICATIONS].columns == was[APPLICATIONS].columns)
    && Ids(now, APPLICATIONS) == Ids(was, APPLICATIONS)
    && (forall id, x | id in Ids(was, APPLICATIONS) ::
          var before := Cell(was, APPLICATIONS, id, x);
          Cell(now, APPLICATIONS, id, x) == if x == c && before == Null then Filled(was, c, id) else before)
    && (forall id, x | id in Ids(was, APPLICATIONS) ::
          x in now[APPLICATIONS].rows[id] <==>
            x in was[APPLICATIONS].rows[id] || (x == c && Cell(was, APPLICATIONS, id, x) == Null))
  }

  lemma BackfillFillsNulls(db: Database, c: Name)
    ensures NullsFilled(db, Backfill(db, c), c)
  {
  }

  // That description leaves no choice.
  lemma NullsFilledOneWay(was: Database, now: Database, c: Name)
    requires NullsFilled(was, now, c)
    ensures now == Backfill(was, c)
  {
    hide Filled;
    var b := Backfill(was, c);
    BackfillFillsNulls(was, c);
    if APPLICATIONS in was {
      forall id | id in Ids(was, APPLICATIONS) ensures now[APPLICATIONS].rows[id] == b[APPLICATIONS].rows[id] {
        var p, q := now[APPLICATIONS].rows[id], b[APPLICATIONS].rows[id];
        forall x ensures x in p <==> x in q {}
        forall x | x in p ensures p[x] == q[x] {
          assert Cell(now, APPLICATIONS, id, x) == p[x] && Cell(b, APPLICATIONS, id, x) == q[x];
        }
      }
      assert now[APPLICATIONS].rows == b[APPLICATIONS].rows;
    }
  }

  function Altered(model: Model, db: Database): Database {
    var d := CreateTables(model, db, |model|);
    var missing := MissingColumns(model, d, |model|);
    AddColumns(d, missing, |missing|)
  }

  // The state after the first k of the migration's five transactions.
  function MigrateUpTo(model: Model, db: Database, k: nat): Database {
    if k == 0 then db
    else if k == 1 then CreateTables(model, db, |model|)
    else if k == 2 then Altered(model, db)
    else if k == 3 then Backfill(Altered(model, db), ATTEMPTS)
    else if k == 4 then Backfill(Backfill(Altered(model, db), ATTEMPTS), LEGACY)
    else Backfill(Backfill(Backfill(Altered(model, db), ATTEMPTS), LEGACY), REFRESH)
  }

  function Migrate(model: Model, db: Database): Database {
    MigrateUpTo(model, db, 5)
  }

  class Engine {
    var db: Database

    constructor (db: Database)
      ensures this.db == db
    {
      this.db := db;
    }

    /** verify_schema, and the first half of every migration; reads only. */
    method DiffMissingColumns(model: Model) returns (missingTables: seq<Name>, missingColumns: seq<(Name, Name)>)
      ensures missingTables == MissingTables(model, db, |model|)
      ensures missingColumns == MissingColumns(model, db, |model|)
      ensures missingTables == [] && missingColumns == [] <==> Current(model, db)
    {
      missingTables, missingColumns := [], [];
      for k := 0 to |model|
        invariant missingTables == MissingTables(model, db, k)
        invariant missingColumns == MissingColumns(model, db, k)
      {
        var t := model[k];
        if t.name !in db {
          missingTables := missingTables + [t.name];
          continue;
        }
        ghost var before := missingColumns;
        for j := 0 to |t.columns|
          invariant missingColumns == before + MissingIn(t, db[t.name].columns, j)
        {
          if t.columns[j] !in db[t.name].columns {
            missingColumns := missingColumns + [(t.name, t.columns[j])];
          }
        }
      }
      NothingMissingIff(model, db);
    }

    method CreateAll(model: Model)
      modifies this
      ensures db == CreateTables(model, old(db), |model|)
    {
      for k := 0 to |model|
        invariant db == CreateTables(model, old(db), k)
      {
        if model[k].name !in db {
          db := db[model[k].name := Stored(set c | c in model[k].columns, map[])];
        }
      }
    }

    method AddMissingColumns(model: Model) returns (added: seq<(Name, Name)>)
      modifies this
      ensures added == MissingColumns(model, old(db), |model|)
      ensures db == AddColumns(old(db), added, |added|)
    {
      hide MissingColumns, MissingTables, Current;
      var tables;
      tables, added := DiffMissingColumns(model);
      DiffSound(model, db, |model|);
      for k := 0 to |added|
        invariant db == AddColumns(old(db), added, k)
        invariant db.Keys == old(db).Keys
      {
        var (table, column) := added[k];
        assert (table, column) in added;
        db := db[table := Stored(db[table].columns + {column}, db[table].rows)];
      }
    }

    method BackfillNulls(c: Name) returns (count: nat)
      requires APPLICATIONS in db && c in db[APPLICATIONS].columns && (c == LEGACY ==> DOCUMENTS in db)
      modifies this
      ensures NullsFilled(old(db), db, c) && count == |Pending(old(db), c)|
    {
      count := |Pending(db, c)|;
      var t := db[APPLICATIONS];
      db := db[APPLICATIONS := t.(rows := map id | id in t.rows ::
                                    if Get(t.rows[id], c) == Null then t.rows[id][c := Filled(db, c, id)] else t.rows[id])];
    }

    /** The explicit migration. */
    method MigrateSchema(model: Model) returns (created: seq<Name>, added: seq<(Name, Name)>, backfilled: seq<nat>)
      requires ModelOk(model)
      modifies this
      ensures db == Migrate(model, old(db)) && Current(model, db)
      ensures created == MissingTables(model, old(db), |model|)
      ensures added == MissingColumns(model, CreateTables(model, old(db), |model|), |model|)
      ensures backfilled == [|Pending(MigrateUpTo(model, old(db), 2), ATTEMPTS)|,
                             |Pending(MigrateUpTo(model, old(db), 3), LEGACY)|,
                             |Pending(MigrateUpTo(model, old(db), 4), REFRESH)|]
    {
      hide Current, CreateTables, AddColumns, MissingTables, MissingColumns, Backfill, Pending, ModelOk, NullsFilled;
      ghost var start := db;
      var columns;
      created, columns := DiffMissingColumns(model);
      CreateAll(model);
      added := AddMissingColumns(model);
      assert db == MigrateUpTo(model, start, 2);
      AlteredIsCurrent(model, start);
      BackfillableFrom(model, start);
      var attempts := BackfillNulls(ATTEMPTS);
      NullsFilledOneWay(MigrateUpTo(model, start, 2), db, ATTEMPTS);
      var legacy := BackfillNulls(LEGACY);
      NullsFilledOneWay(MigrateUpTo(model, start, 3), db, LEGACY);
      var refresh := BackfillNulls(REFRESH);
      NullsFilledOneWay(MigrateUpTo(model, start, 4), db, REFRESH);
      backfilled := [attempts, legacy, refresh];
    }

    /** Ordinary start-up: SQLite is migrated in place; any other database is only
        verified, and refused exactly when it is not current. */
    method InitDb(model: Model, sqlite: bool) returns (refused: bool)
      requires ModelOk(model)
      modifies this
      ensures sqlite ==> !refused && db == Migrate(model, old(db))
      ensures !sqlite ==> db == old(db) && (refused <==> !Current(model, db))
    {
      if sqlite {
        var created, added, backfilled := MigrateSchema(model);
        return false;
      }
      var missingTables, missingColumns := DiffMissingColumns(model);
      refused := missingTables != [] || missingColumns != [];
    }
  }

  /* ----- convergence ----- */

  lemma {:induction false} CreatedShape(model: Model, db: Database, k: nat)
    requires k <= |model|
    ensures var d := CreateTables(model, db, k);
            && db.Keys <= d.Keys
            && (forall n | n in db :: d[n] == db[n])
            && (forall t | t in model[..k] :: t.name in d)
            && (forall n | n in d && n !in db :: d[n].rows == map[])
  {
    if k > 0 {
      CreatedShape(model, db, k - 1);
      assert model[..k] == model[..k - 1] + [model[k - 1]];
    }
  }

  lemma {:induction false} AddedShape(db: Database, columns: seq<(Name, Name)>, k: nat)
    requires k <= |columns|
    ensures var d := AddColumns(db, columns, k);
            && d.Keys == db.Keys
            && (forall n | n in db :: d[n].rows == db[n].rows && db[n].columns <= d[n].columns)
            && (forall p | p in columns[..k] && p.0 in db :: p.1 in d[p.0].columns)
            && (forall n, c | n in db && c in d[n].columns && c !in db[n].columns :: (n, c) in columns[..k])
  {
    if k > 0 {
      AddedShape(db, columns, k - 1);
      assert columns[..k] == columns[..k - 1] + [columns[k - 1]];
    }
  }

  // Creating and altering already make the schema current.
  lemma AlteredIsCurrent(model: Model, db: Database)
    ensures Current(model, MigrateUpTo(model, db, 2))
  {
    var d := CreateTables(model, db, |model|);
    var missing := MissingColumns(model, d, |model|);
    CreatedShape(model, db, |model|);
    assert model[..|model|] == model && missing[..|missing|] == missing;
    DiffSound(model, d, |model|);
    AddedShape(d, missing, |missing|);
    var e := Altered(model, db);
    forall t | t in model ensures t.name in e && forall c | c in t.columns :: c in e[t.name].columns {
      forall c | c in t.columns ensures c in e[t.name].columns {
        if c !in d[t.name].columns {
          assert IsMissing(model, d, (t.name, c));
        }
      }
    }
  }

  predicate Backfillable(db: Database) {
    && APPLICATIONS in db && {ATTEMPTS, LEGACY, REFRESH, LAST_CHECKED} <= db[APPLICATIONS].columns
    && DOCUMENTS in db
  }

  lemma BackfillableFrom(model: Model, db: Database)
    requires ModelOk(model)
    ensures forall k: nat | 2 <= k <= 5 :: Current(model, MigrateUpTo(model, db, k)) && Backfillable(MigrateUpTo(model, db, k))
  {
    hide Altered, HasDocument, Filled;
    AlteredIsCurrent(model, db);
    var i :| 0 <= i < |model| && model[i].name == APPLICATIONS && ATTEMPTS in model[i].columns
             && LEGACY in model[i].columns && REFRESH in model[i].columns && LAST_CHECKED in model[i].columns;
    var j :| 0 <= j < |model| && model[j].name == DOCUMENTS && APPLICATION_ID in model[j].columns;
    assert model[i] in model && model[j] in model;
    assert Current(model, MigrateUpTo(model, db, 3)) by { BackfillKeepsCurrent(model, MigrateUpTo(model, db, 2), ATTEMPTS); }
    assert Current(model, MigrateUpTo(model, db, 4)) by { BackfillKeepsCurrent(model, MigrateUpTo(model, db, 3), LEGACY); }
    assert Current(model, MigrateUpTo(model, db, 5)) by { BackfillKeepsCurrent(model, MigrateUpTo(model, db, 4), REFRESH); }
  }

  lemma BackfillKeepsCurrent(model: Model, db: Database, c: Name)
    requires Current(model, db)
    ensures Current(model, Backfill(db, c))
  {
  }

  /* ----- nothing lost, nothing invented ----- */

  predicate Backfilled(c: Name) {
    c == ATTEMPTS || c == LEGACY || c == REFRESH
  }

  lemma BackfillShape(db: Database, c: Name)
    ensures var d := Backfill(db, c);
            && d.Keys == db.Keys
            && (forall n | n in db && n != APPLICATIONS :: d[n] == db[n])
            && (APPLICATIONS in db ==> d[APPLICATIONS].columns == db[APPLICATIONS].columns)
            && Ids(d, APPLICATIONS) == Ids(db, APPLICATIONS)
  {
  }

  lemma BackfillCell(db: Database, c: Name, id: Key, x: Name)
    requires id in Ids(db, APPLICATIONS)
    ensures Cell(Backfill(db, c), APPLICATIONS, id, x)
            == var was := Cell(db, APPLICATIONS, id, x); if x == c && was == Null then Filled(db, c, id) else was
  {
  }

  lemma AlteredRows(model: Model, db: Database, n: Name)
    ensures var d := Altered(model, db);
            && (n in db ==> n in d && d[n].rows == db[n].rows && db[n].columns <= d[n].columns)
            && (n !in db && n in d ==> d[n].rows == map[])
  {
    var d := CreateTables(model, db, |model|);
    var missing := MissingColumns(model, d, |model|);
    CreatedShape(model, db, |model|);
    AddedShape(d, missing, |missing|);
  }

  lemma AlteredDocuments(model: Model, db: Database, id: Key)
    ensures HasDocument(Altered(model, db), id) == HasDocument(db, id)
  {
    AlteredRows(model, db, DOCUMENTS);
  }

  // Some stored document's application_id is that row's key.
  predicate StoredDocumentNames(db: Database, id: Key) {
    "documents" in db && exists d :: d in db["documents"].rows && Get(db["documents"].rows[d], "application_id") == Number(id)
  }

  lemma DocumentNamed(db: Database, id: Key)
    ensures HasDocument(db, id) <==> StoredDocumentNames(db, id)
  {
  }

  lemma FilledIs(db: Database, id: Key)
    ensures Filled(db, "extraction_attempt_count", id) == Number(0)
    ensures Filled(db, "evidence_refresh_required", id) == Flag(false)
    ensures Filled(db, "documents_legacy_unverified", id) == Flag(StoredDocumentNames(db, id))
    ensures forall c :: Backfilled(c) <==> c in {"extraction_attempt_count", "evidence_refresh_required", "documents_legacy_unverified"}
  {
  }

  lemma MigratedCells(model: Model, db: Database, n: Name)
    requires n in db
    ensures var d := Migrate(model, db);
            && n in d && db[n].columns <= d[n].columns && d[n].rows.Keys == db[n].rows.Keys
            && (n != APPLICATIONS ==> d[n].rows == db[n].rows)
            && (forall id, c | id in db[n].rows ::
                  Cell(d, n, id, c)
                  == var was := Cell(db, n, id, c);
                     if n == APPLICATIONS && Backfilled(c) && was == Null then Filled(db, c, id) else was)
  {
    hide Backfill, Altered, HasDocument, Filled, StoredDocumentNames;
    var a := Altered(model, db);
    var b := Backfill(a, ATTEMPTS);
    var e := Backfill(b, LEGACY);
    AlteredRows(model, db, n);
    BackfillShape(a, ATTEMPTS);
    BackfillShape(b, LEGACY);
    BackfillShape(e, REFRESH);
    if n == APPLICATIONS {
      forall id, c | id in db[n].rows
        ensures Cell(Migrate(model, db), n, id, c)
                == var was := Cell(db, n, id, c); if Backfilled(c) && was == Null then Filled(db, c, id) else was
      {
        BackfillCell(a, ATTEMPTS, id, c);
        BackfillCell(b, LEGACY, id, c);
        BackfillCell(e, REFRESH, id, c);
        AlteredDocuments(model, db, id);
        SameDocuments(a, ATTEMPTS, id);
        SameDocuments(b, LEGACY, id);
        FilledSame(db, a, c, id);
        FilledSame(a, b, c, id);
        FilledSame(b, e, c, id);
      }
    }
  }

  /** The whole effect of a migration on stored data: no table, column or row is lost,
      tables it creates are empty, and the only cells that change are the NULLs of the
      three backfilled columns: a missing attempt count becomes 0, a missing refresh flag
      false, and a missing legacy marker says whether the application has a document. In
      particular documents_last_checked_at never changes. */
  lemma MigrationKeepsData(model: Model, db: Database, n: Name)
    requires n in db
    ensures var d := Migrate(model, db);
            && n in d && db[n].columns <= d[n].columns && d[n].rows.Keys == db[n].rows.Keys
            && (n != "applications" ==> d[n].rows == db[n].rows)
            && (forall id, c | id in db[n].rows ::
                  Cell(d, n, id, c)
                  == var was := Cell(db, n, id, c);
                     if n != "applications" || was != Null then was
                     else if c == "extraction_attempt_count" then Number(0)
                     else if c == "evidence_refresh_required" then Flag(false)
                     else if c == "documents_legacy_unverified" then Flag(StoredDocumentNames(db, id))
                     else Null)
  {
    hide Migrate, Filled, StoredDocumentNames, Cell;
    MigratedCells(model, db, n);
    forall id, c | id in db[n].rows && Backfilled(c)
      ensures Filled(db, c, id) == if c == "extraction_attempt_count" then Number(0)
                                   else if c == "evidence_refresh_required" then Flag(false)
                                   else Flag(StoredDocumentNames(db, id))
      ensures Backfilled(c) <==> c in {"extraction_attempt_count", "evidence_refresh_required", "documents_legacy_unverified"}
    {
      FilledIs(db, id);
    }
  }

  lemma FilledSame(db: Database, d: Database, c: Name, id: Key)
    requires HasDocument(db, id) == HasDocument(d, id)
    ensures Filled(db, c, id) == Filled(d, c, id)
  {
  }

  lemma SameDocuments(db: Database, c: Name, id: Key)
    ensures HasDocument(Backfill(db, c), id) == HasDocument(db, id)
  {
    BackfillShape(db, c);
  }

  lemma {:induction false} CreatedColumns(model: Model, db: Database, k: nat)
    requires k <= |model| && forall i, j | 0 <= i < j < |model| :: model[i].name != model[j].name
    ensures forall i: nat | i < |model| && model[i].name !in db ::
              if i < k then model[i].name in CreateTables(model, db, k)
                            && CreateTables(model, db, k)[model[i].name] == Stored(set c | c in model[i].columns, map[])
              else model[i].name !in CreateTables(model, db, k)
  {
    if k > 0 {
      CreatedColumns(model, db, k - 1);
    }
  }

  /** What a migration reports as added: the declared columns that tables already stored
      were missing; a table it creates has all of its own from the start. */
  lemma AddedAre(model: Model, db: Database)
    requires ModelOk(model)
    ensures forall p :: p in MissingColumns(model, CreateTables(model, db, |model|), |model|) <==>
              p.0 in db && exists t :: t in model && t.name == p.0 && p.1 in t.columns && p.1 !in db[t.name].columns
  {
    hide ModelOk;
    var d := CreateTables(model, db, |model|);
    ModelNamesDistinct(model);
    CreatedShape(model, db, |model|);
    CreatedColumns(model, db, |model|);
    DiffSound(model, d, |model|);
    assert model[..|model|] == model;
    forall t | t in model && t.name !in db ensures t.name in d && d[t.name].columns == set c | c in t.columns {
      var i: nat :| i < |model| && model[i] == t;
    }
    forall p ensures IsMissing(model, d, p) <==>
                       p.0 in db && exists t :: t in model && t.name == p.0 && p.1 in t.columns && p.1 !in db[t.name].columns {}
  }

  lemma ModelNamesDistinct(model: Model)
    requires ModelOk(model)
    ensures forall i, j | 0 <= i < j < |model| :: model[i].name != model[j].name
  {
  }

  function NullIn(db: Database, c: Name): set<Key> {
    set id | id in Ids(db, "applications") && Cell(db, "applications", id, c) == Null
  }

  /** What it reports as backfilled: as many rows as had a NULL there before it. */
  lemma BackfilledCounts(model: Model, db: Database)
    ensures Pending(MigrateUpTo(model, db, 2), ATTEMPTS) == NullIn(db, "extraction_attempt_count")
    ensures Pending(MigrateUpTo(model, db, 3), LEGACY) == NullIn(db, "documents_legacy_unverified")
    ensures Pending(MigrateUpTo(model, db, 4), REFRESH) == NullIn(db, "evidence_refresh_required")
  {
    hide Backfill, Altered, HasDocument, Filled;
    var a := Altered(model, db);
    var b := Backfill(a, ATTEMPTS);
    var e := Backfill(b, LEGACY);
    AlteredRows(model, db, APPLICATIONS);
    BackfillShape(a, ATTEMPTS);
    BackfillShape(b, LEGACY);
    forall id, c | id in Ids(db, APPLICATIONS) && c in {ATTEMPTS, LEGACY, REFRESH}
      ensures Cell(a, APPLICATIONS, id, c) == Cell(db, APPLICATIONS, id, c)
      ensures c != ATTEMPTS ==> Cell(b, APPLICATIONS, id, c) == Cell(db, APPLICATIONS, id, c)
      ensures c == REFRESH ==> Cell(e, APPLICATIONS, id, c) == Cell(db, APPLICATIONS, id, c)
    {
      BackfillCell(a, ATTEMPTS, id, c);
      BackfillCell(b, LEGACY, id, c);
    }
    PendingIs(a, ATTEMPTS);
    PendingIs(b, LEGACY);
    PendingIs(e, REFRESH);
  }

  lemma PendingIs(db: Database, c: Name)
    ensures Pending(db, c) == NullIn(db, c)
  {
    forall id ensures id in Pending(db, c) <==> id in NullIn(db, c) {}
  }

  lemma NewTablesEmpty(model: Model, db: Database, n: Name)
    requires n !in db && n in Migrate(model, db)
    ensures Migrate(model, db)[n].rows == map[]
  {
    AlteredRows(model, db, n);
  }

  /* ----- idempotence and interruption ----- */

  lemma BackfillNoop(db: Database, c: Name)
    requires Pending(db, c) == {}
    ensures Backfill(db, c) == db
  {
    if APPLICATIONS in db {
      forall id | id in db[APPLICATIONS].rows ensures Get(db[APPLICATIONS].rows[id], c) != Null {
        assert id !in Pending(db, c);
      }
      assert Backfill(db, c)[APPLICATIONS].rows == db[APPLICATIONS].rows;
    }
  }

  lemma BackfillClears(db: Database, c: Name, e: Name)
    requires e == c || Pending(db, e) == {}
    ensures Pending(Backfill(db, c), e) == {}
  {
    BackfillShape(db, c);
    forall id | id in Ids(db, APPLICATIONS) ensures Cell(Backfill(db, c), APPLICATIONS, id, e) != Null {
      BackfillCell(db, c, id, e);
      assert e != c ==> id !in Pending(db, e);
    }
  }

  lemma {:induction false} CreateNoop(model: Model, db: Database, k: nat)
    requires k <= |model| && forall t | t in model[..k] :: t.name in db
    ensures CreateTables(model, db, k) == db
  {
    if k > 0 {
      assert model[..k] == model[..k - 1] + [model[k - 1]];
      CreateNoop(model, db, k - 1);
    }
  }

  lemma AlterNoop(model: Model, db: Database)
    requires Current(model, db)
    ensures Altered(model, db) == db
  {
    assert model[..|model|] == model;
    CreateNoop(model, db, |model|);
    NothingMissingIff(model, db);
  }

  lemma CreateTwice(model: Model, db: Database)
    ensures CreateTables(model, CreateTables(model, db, |model|), |model|) == CreateTables(model, db, |model|)
  {
    assert model[..|model|] == model;
    CreatedShape(model, db, |model|);
    CreateNoop(model, CreateTables(model, db, |model|), |model|);
  }

  function DeclaredColumns(model: Model, n: Name): set<Name> {
    set t, c | t in model && t.name == n && c in t.columns :: c
  }

  function ColumnsAt(db: Database, n: Name): set<Name> {
    if n in db then db[n].columns else {}
  }

  function RowsAt(db: Database, n: Name): map<Key, Cells> {
    if n in db then db[n].rows else map[]
  }

  // Some of the CREATEs and ALTERs, and nothing else, have been applied to db.
  ghost predicate PartWay(model: Model, db: Database, mid: Database) {
    && (forall n | n in db :: n in mid)
    && (forall n | n in mid :: n in db || exists t :: t in model && t.name == n)
    && (forall n | n in mid ::
          && RowsAt(mid, n) == RowsAt(db, n)
          && ColumnsAt(db, n) <= ColumnsAt(mid, n) <= ColumnsAt(db, n) + DeclaredColumns(model, n))
  }

  lemma {:induction false} CreatedPartWay(model: Model, db: Database, k: nat)
    requires k <= |model|
    ensures PartWay(model, db, CreateTables(model, db, k))
  {
    if k > 0 {
      CreatedPartWay(model, db, k - 1);
      assert model[k - 1] in model;
    }
  }

  lemma {:induction false} AddedPartWay(model: Model, db: Database, mid: Database, columns: seq<(Name, Name)>, k: nat)
    requires k <= |columns| && PartWay(model, db, mid)
    requires forall p | p in columns :: p.1 in DeclaredColumns(model, p.0)
    ensures PartWay(model, db, AddColumns(mid, columns, k))
  {
    hide DeclaredColumns, PartWay;
    if k > 0 {
      AddedPartWay(model, db, mid, columns, k - 1);
      var d, p := AddColumns(mid, columns, k - 1), columns[k - 1];
      assert p in columns;
      if p.0 in d {
        OneColumnMore(model, db, d, p.0, p.1);
      }
    }
  }

  lemma OneColumnMore(model: Model, db: Database, mid: Database, n: Name, c: Name)
    requires PartWay(model, db, mid) && n in mid && c in DeclaredColumns(model, n)
    ensures PartWay(model, db, mid[n := Stored(mid[n].columns + {c}, mid[n].rows)])
  {
    hide DeclaredColumns;
  }

  lemma MissingAreDeclared(model: Model, db: Database)
    ensures forall p | p in MissingColumns(model, db, |model|) :: p.1 in DeclaredColumns(model, p.0)
  {
    DiffSound(model, db, |model|);
    assert model[..|model|] == model;
  }

  // What creating and altering leave: every declared table, with every declared column
  // beside what was there.
  lemma AlteredIs(model: Model, db: Database)
    ensures var e := Altered(model, db);
            && (forall n :: n in e <==> n in db || exists t :: t in model && t.name == n)
            && (forall n | n in e :: e[n] == Stored(ColumnsAt(db, n) + DeclaredColumns(model, n), RowsAt(db, n)))
  {
    hide MissingColumns, CreateTables, AddColumns;
    var d := CreateTables(model, db, |model|);
    var missing := MissingColumns(model, d, |model|);
    var e := Altered(model, db);
    assert e == AddColumns(d, missing, |missing|);
    AlteredIsCurrent(model, db);
    CreatedPartWay(model, db, |model|);
    MissingAreDeclared(model, d);
    AddedPartWay(model, db, d, missing, |missing|);
    forall n | n in e ensures DeclaredColumns(model, n) <= e[n].columns {}
    forall t | t in model ensures t.name in e {}
  }

  lemma AlteredOfPartWay(model: Model, db: Database, mid: Database)
    requires PartWay(model, db, mid)
    ensures Altered(model, mid) == Altered(model, db)
  {
    hide Altered, DeclaredColumns;
    var d, e := Altered(model, db), Altered(model, mid);
    AlteredIs(model, db);
    AlteredIs(model, mid);
    forall n ensures n in d <==> n in e {}
    forall n | n in d ensures d[n] == e[n] {
      assert n !in mid ==> n !in db;
    }
  }

  /** Where the engine commits each statement by itself, a kill may leave any part of the
      CREATEs and ALTERs behind, in any order: a rerun ends in the same database as one
      uninterrupted run. */
  lemma PartWayMigration(model: Model, db: Database, mid: Database)
    requires PartWay(model, db, mid)
    ensures Migrate(model, mid) == Migrate(model, db)
  {
    AlteredOfPartWay(model, db, mid);
  }

  /** In particular after the first i CREATEs, or after all of them and the first j ALTERs. */
  lemma InterruptedStatements(model: Model, db: Database, i: nat, j: nat)
    requires i <= |model| && j <= |MissingColumns(model, CreateTables(model, db, |model|), |model|)|
    ensures Migrate(model, CreateTables(model, db, i)) == Migrate(model, db)
    ensures var d := CreateTables(model, db, |model|);
            Migrate(model, AddColumns(d, MissingColumns(model, d, |model|), j)) == Migrate(model, db)
  {
    hide Migrate, PartWay, CreateTables, AddColumns, MissingColumns;
    var d := CreateTables(model, db, |model|);
    var missing := MissingColumns(model, d, |model|);
    CreatedPartWay(model, db, i);
    CreatedPartWay(model, db, |model|);
    MissingAreDeclared(model, d);
    AddedPartWay(model, db, d, missing, j);
    PartWayMigration(model, db, CreateTables(model, db, i));
    PartWayMigration(model, db, AddColumns(d, missing, j));
  }

  /** Killed between any two of its transactions and run again, the migration ends in the
      same database as one uninterrupted run; k == 5 says a second run changes nothing. */
  lemma InterruptedMigration(model: Model, db: Database, k: nat)
    requires ModelOk(model) && k <= 5
    ensures Migrate(model, MigrateUpTo(model, db, k)) == Migrate(model, db)
  {
    hide Backfill, Altered, CreateTables, Current, Pending, ModelOk;
    var a := Altered(model, db);
    var b := Backfill(a, ATTEMPTS);
    var c := Backfill(b, LEGACY);
    var d := Backfill(c, REFRESH);
    if k == 1 {
      AlterAfterCreate(model, db);
    } else if k >= 2 {
      BackfillableFrom(model, db);
      AlterNoop(model, MigrateUpTo(model, db, k));
      BackfillClears(a, ATTEMPTS, ATTEMPTS);
      BackfillClears(b, LEGACY, ATTEMPTS);
      BackfillClears(b, LEGACY, LEGACY);
      BackfillClears(c, REFRESH, ATTEMPTS);
      BackfillClears(c, REFRESH, LEGACY);
      BackfillClears(c, REFRESH, REFRESH);
      if k >= 3 { BackfillNoop(MigrateUpTo(model, db, k), ATTEMPTS); }
      if k >= 4 { BackfillNoop(MigrateUpTo(model, db, k), LEGACY); }
      if k >= 5 { BackfillNoop(MigrateUpTo(model, db, k), REFRESH); }
    }
  }

  lemma AlterAfterCreate(model: Model, db: Database)
    ensures Altered(model, CreateTables(model, db, |model|)) == Altered(model, db)
  {
    CreateTwice(model, db);
  }

  /** A migration changes nothing exactly when the schema is current and no cell of the
      three columns is NULL. */
  lemma NoopIff(model: Model, db: Database)
    requires ModelOk(model)
    ensures Migrate(model, db) == db <==>
              Current(model, db) && Pending(db, ATTEMPTS) == {} && Pending(db, LEGACY) == {} && Pending(db, REFRESH) == {}
  {
    hide Backfill, Altered, Current, Pending, ModelOk;
    var a := Altered(model, db);
    var b := Backfill(a, ATTEMPTS);
    var c := Backfill(b, LEGACY);
    BackfillableFrom(model, db);
    BackfillClears(a, ATTEMPTS, ATTEMPTS);
    BackfillClears(b, LEGACY, ATTEMPTS);
    BackfillClears(b, LEGACY, LEGACY);
    BackfillClears(c, REFRESH, ATTEMPTS);
    BackfillClears(c, REFRESH, LEGACY);
    BackfillClears(c, REFRESH, REFRESH);
    if Current(model, db) && Pending(db, ATTEMPTS) == {} && Pending(db, LEGACY) == {} && Pending(db, REFRESH) == {} {
      AlterNoop(model, db);
      BackfillNoop(db, ATTEMPTS);
      BackfillNoop(db, LEGACY);
      BackfillNoop(db, REFRESH);
    }
  }

  /* ----- the legacy-documents marker over any mix of work ----- */

  // OldApplication is a row written by a process that predates the marker column.
  datatype Event =
    | Migrated
    | NewApplication(id: Key, cells: Cells) | OldApplication(id: Key, cells: Cells)
    | NewDocument(doc: Key, application: Key)
    | Rechecked(id: Key, complete: bool, at: int)
    | OtherWrite(id: Key, c: Name, v: Value)

  function WithRow(db: Database, id: Key, row: Cells): Database
    requires APPLICATIONS in db
  {
    db[APPLICATIONS := db[APPLICATIONS].(rows := db[APPLICATIONS].rows[id := row])]
  }

  // An event that cannot happen in the state leaves it alone.
  function Next(model: Model, db: Database, e: Event): Database {
    match e
    case Migrated => Migrate(model, db)
    case NewApplication(id, cells) =>
      if APPLICATIONS in db && LEGACY in db[APPLICATIONS].columns && id !in db[APPLICATIONS].rows
      then WithRow(db, id, cells[LEGACY := Flag(false)][LAST_CHECKED := Null]) else db
    case OldApplication(id, cells) =>
      if APPLICATIONS in db && id !in db[APPLICATIONS].rows
      then WithRow(db, id, cells[LEGACY := Null][LAST_CHECKED := Null]) else db
    case NewDocument(doc, application) =>
      if DOCUMENTS in db && doc !in db[DOCUMENTS].rows
      then db[DOCUMENTS := db[DOCUMENTS].(rows := db[DOCUMENTS].rows[doc := map[APPLICATION_ID := Number(application)]])] else db
    case Rechecked(id, complete, at) =>
      if id in Ids(db, APPLICATIONS) && complete
      then WithRow(db, id, db[APPLICATIONS].rows[id][LAST_CHECKED := Moment(at)][LEGACY := Flag(false)]) else db
    case OtherWrite(id, c, v) =>
      if id in Ids(db, APPLICATIONS) && c != LEGACY && c != LAST_CHECKED
      then WithRow(db, id, db[APPLICATIONS].rows[id][c := v]) else db
  }

  function Marker(db: Database, id: Key): Value {
    Cell(db, APPLICATIONS, id, LEGACY)
  }

  function LastChecked(db: Database, id: Key): Value {
    Cell(db, APPLICATIONS, id, LAST_CHECKED)
  }

  // DOCUMENT_DISCOVERY_ELIGIBLE
  predicate Eligible(db: Database, id: Key) {
    LastChecked(db, id) == Null && Marker(db, id) != Flag(true)
  }

  // Everything one event can do to one existing application's two cells.
  lemma MarkerStep(model: Model, db: Database, e: Event, id: Key)
    requires id in Ids(db, APPLICATIONS)
    ensures var next := Next(model, db, e);
            var checked := e.Rechecked? && e.id == id && e.complete;
            && id in Ids(next, APPLICATIONS)
            && Marker(next, id) == (if checked then Flag(false)
                                    else if e.Migrated? && Marker(db, id) == Null then Flag(HasDocument(db, id))
                                    else Marker(db, id))
            && LastChecked(next, id) == (if checked then Moment(e.at) else LastChecked(db, id))
  {
    hide Migrate, HasDocument;
    if e.Migrated? {
      MigratedCells(model, db, APPLICATIONS);
    }
  }

  function History(model: Model, db: Database, events: seq<Event>, n: nat): Database
    requires n <= |events|
  {
    if n == 0 then db else Next(model, History(model, db, events, n - 1), events[n - 1])
  }

  /** Once False, the marker is False for good, however migrations, new rows, new
      documents and rechecks are interleaved. */
  lemma {:induction false} MarkerNeverReturns(model: Model, db: Database, events: seq<Event>, i: nat, j: nat, id: Key)
    requires i <= j <= |events|
    requires var d := History(model, db, events, i); id in Ids(d, APPLICATIONS) && Marker(d, id) == Flag(false)
    ensures var d := History(model, db, events, j); id in Ids(d, APPLICATIONS) && Marker(d, id) == Flag(false)
  {
    hide Next;
    if i < j {
      MarkerNeverReturns(model, db, events, i, j - 1, id);
      MarkerStep(model, History(model, db, events, j - 1), events[j - 1], id);
    }
  }

  /** A legacy-marked application is never again picked up by routine discovery: the only
      event that clears its marker also records the completed check. */
  lemma {:induction false} LegacyNeverRequeued(model: Model, db: Database, events: seq<Event>, i: nat, j: nat, id: Key)
    requires i <= j <= |events|
    requires var d := History(model, db, events, i); id in Ids(d, APPLICATIONS) && Marker(d, id) == Flag(true)
    ensures var d := History(model, db, events, j);
            && id in Ids(d, APPLICATIONS) && !Eligible(d, id)
            && (Marker(d, id) == Flag(true) <==>
                  forall k | i <= k < j :: !(events[k].Rechecked? && events[k].id == id && events[k].complete))
            && (Marker(d, id) == Flag(true) || Marker(d, id) == Flag(false))
  {
    hide Next;
    if i < j {
      LegacyNeverRequeued(model, db, events, i, j - 1, id);
      MarkerStep(model, History(model, db, events, j - 1), events[j - 1], id);
    }
  }

  /** What a migration decides for an application that existed before it: eligible for a
      first discovery exactly when it was never checked and is not a documented legacy row. */
  lemma EligibleAfterMigrationIff(model: Model, db: Database, id: Key)
    requires id in Ids(db, APPLICATIONS)
    ensures Eligible(Migrate(model, db), id) <==>
              && Cell(db, "applications", id, "documents_last_checked_at") == Null
              && Cell(db, "applications", id, "documents_legacy_unverified") != Flag(true)
              && !(Cell(db, "applications", id, "documents_legacy_unverified") == Null && StoredDocumentNames(db, id))
  {
    hide Migrate, HasDocument, StoredDocumentNames;
    MarkerStep(model, db, Migrated, id);
    DocumentNamed(db, id);
  }
}
