/** The two databases of the SQLite-to-Postgres migration.
    The source is a bag of rows with no foreign-key enforcement. The target is a
    step machine: each statement either satisfies NOT NULL, every unique key and every
    foreign key at the moment it executes, or is rejected and takes the uncommitted
    work with it. */
module Relational {
  import opened Prelude

  type Name = string

  // A cell. Naive and Aware are date-times without and with a time zone; every
  // other scalar type of the schema behaves like Text here.
  datatype Value = Null | Int(n: int) | Text(s: string) | Naive(at: int) | Aware(at: int)

  type Row = map<Name, Value>

  function Get(row: Row, c: Name): Value {
    if c in row then row[c] else Null
  }

  // A model-declared Python-side default: absent, a fixed value, or the clock.
  datatype Default = NoDefault | Constant(v: Value) | ClockNow

  datatype Ref = Ref(table: Name, column: Name)
  datatype Column = Column(name: Name, nullable: bool, default: Default, ref: Option<Ref>)
  // uniques: the unique keys besides the primary key, each a list of columns.
  datatype Table = Table(name: Name, columns: seq<Column>, pk: Name, intKey: bool, uniques: seq<seq<Name>>)

  predicate IsCross(t: Table, c: Column) {
    c.ref.Some? && c.ref.value.table != t.name
  }

  predicate IsSelf(t: Table, c: Column) {
    c.ref.Some? && c.ref.value.table == t.name
  }

  // Tables in the order in which they are created and copied.
  type Schema = seq<Table>

  // No unique key of the models holds a self-reference or a clock default.
  predicate UniquesOk(t: Table) {
    forall u, c, d | u in t.uniques && c in u && d in t.columns && d.name == c :: !IsSelf(t, d) && !d.default.ClockNow?
  }

  predicate TableOk(t: Table) {
    && UniquesOk(t)
    && (forall i, j | 0 <= i < j < |t.columns| :: t.columns[i].name != t.columns[j].name)
    && (forall c | c in t.columns ::
          && (c.name == t.pk ==> c.ref.None?)
          && (c.default.Constant? ==> c.default.v != Null)
          && (c.default.ClockNow? ==> c.name != t.pk && c.ref.None?))
  }

  predicate Declared(sch: Schema, t: Table, c: Column, before: nat)
    requires before <= |sch|
  {
    IsCross(t, c) ==>
      exists j :: 0 <= j < before && sch[j].name == c.ref.value.table && sch[j].pk == c.ref.value.column
  }

  // Distinct table names, and parents strictly before children (topological order).
  predicate SchemaOk(sch: Schema) {
    && (forall i, j | 0 <= i < j < |sch| :: sch[i].name != sch[j].name)
    && (forall i | 0 <= i < |sch| :: TableOk(sch[i]))
    && (forall i | 0 <= i < |sch| :: forall c | c in sch[i].columns :: Declared(sch, sch[i], c, i))
    && (forall i | 0 <= i < |sch| :: forall c | c in sch[i].columns && IsSelf(sch[i], c) :: c.ref.value.column == sch[i].pk)
  }

  /* ----- the target ----- */

  type Tables = map<Name, map<Value, Row>>

  function At(db: Tables, t: Name): map<Value, Row> {
    if t in db then db[t] else map[]
  }

  datatype Violation = NotNullViolation(table: Name) | UniqueViolation(table: Name) | ForeignKeyViolation(table: Name)

  datatype Stmt =
    | Insert(t: Table, rows: seq<Row>)               // ... ON CONFLICT (pk) DO NOTHING
    | Update(t: Table, key: Value, cells: Row)       // ... WHERE pk = key
    | ResetSequence(t: Table)
    | Commit

  predicate NotNullOk(t: Table, row: Row) {
    Get(row, t.pk) != Null && forall c | c in t.columns && !c.nullable :: Get(row, c.name) != Null
  }

  predicate ForeignKeysOk(db: Tables, t: Table, row: Row) {
    forall c | c in t.columns && c.ref.Some? ::
      Get(row, c.name) != Null ==> Get(row, c.name) in At(db, c.ref.value.table).Keys
  }

  // Equal in every column of a unique key; NULLs are never equal.
  predicate Shares(u: seq<Name>, a: Row, b: Row) {
    forall c | c in u :: Get(a, c) != Null && Get(a, c) == Get(b, c)
  }

  predicate Clashes(t: Table, a: Row, b: Row) {
    exists u :: u in t.uniques && Shares(u, a, b)
  }

  // No row that is only in `now` clashes with another row there.
  predicate NoNewClash(t: Table, have: map<Value, Row>, now: map<Value, Row>) {
    forall k, j | k in now.Keys && k !in have.Keys && j in now.Keys && j != k :: !Clashes(t, now[k], now[j])
  }

  // A unique key is looked at again only if one of its columns is written.
  predicate UpdateClashes(t: Table, have: map<Value, Row>, key: Value, cells: Row)
    requires key in have
  {
    exists u, j :: u in t.uniques && j in have.Keys && j != key && (exists c :: c in u && c in cells)
                   && Shares(u, have[key] + cells, have[j])
  }

  function InsertAll(pk: Name, rows: seq<Row>, have: map<Value, Row>): map<Value, Row> {
    if rows == [] then have
    else
      var k := Get(rows[0], pk);
      InsertAll(pk, rows[1..], if k in have then have else have[k := rows[0]])
  }

  // Work of the open transaction, what is durable, and the id sequences (which a
  // rollback does not restore).
  datatype Session = Session(committed: Tables, working: Tables, sequences: map<Name, int>)

  datatype StepResult = Accepted(s: Session) | Rejected(why: Violation)

  function InsertResult(db: Tables, t: Table, rows: seq<Row>): (r: (Tables, Option<Violation>)) {
    var have := At(db, t.name);
    var now := InsertAll(t.pk, rows, have);
    var db' := db[t.name := now];
    if exists row :: row in rows && !NotNullOk(t, row) then
      (db, Some(NotNullViolation(t.name)))
    else if !NoNewClash(t, have, now) then
      (db, Some(UniqueViolation(t.name)))
    else if exists k :: k in now.Keys && k !in have.Keys && !ForeignKeysOk(db', t, now[k]) then
      (db, Some(ForeignKeyViolation(t.name)))
    else
      (db', None)
  }

  function UpdateResult(db: Tables, t: Table, key: Value, cells: Row): (r: (Tables, Option<Violation>)) {
    var have := At(db, t.name);
    if key !in have then
      (db, None)
    else
      var db' := db[t.name := have[key := have[key] + cells]];
      if exists c :: c in t.columns && !c.nullable && c.name in cells && cells[c.name] == Null then
        (db, Some(NotNullViolation(t.name)))
      else if UpdateClashes(t, have, key, cells) then
        (db, Some(UniqueViolation(t.name)))
      else if !ForeignKeysOk(db', t, cells) then
        (db, Some(ForeignKeyViolation(t.name)))
      else
        (db', None)
  }

  // COALESCE(MAX(pk), 1) over an integer-keyed table.
  ghost function HighestKey(rows: map<Value, Row>): (n: int)
    ensures forall k | k in rows.Keys && k.Int? :: k.n <= n
  {
    HighestOf(rows.Keys)
  }

  ghost function HighestOf(keys: set<Value>): (n: int)
    ensures forall k | k in keys && k.Int? :: k.n <= n
    ensures n == 1 || Int(n) in keys
  {
    if forall k | k in keys :: !k.Int? then 1
    else
      var k :| k in keys && k.Int?;
      var rest := HighestOf(keys - {k});
      if (forall j | j in keys - {k} :: !j.Int?) || rest < k.n then k.n else rest
  }

  ghost function Step(s: Session, st: Stmt): StepResult {
    match st
    case Insert(t, rows) =>
      var (db, bad) := InsertResult(s.working, t, rows);
      if bad.Some? then Rejected(bad.value) else Accepted(s.(working := db))
    case Update(t, key, cells) =>
      var (db, bad) := UpdateResult(s.working, t, key, cells);
      if bad.Some? then Rejected(bad.value) else Accepted(s.(working := db))
    case ResetSequence(t) =>
      Accepted(s.(sequences := s.sequences[t.name := HighestKey(At(s.working, t.name))]))
    case Commit =>
      Accepted(s.(committed := s.working))
  }

  // A rejected statement, a lost connection or a killed process.
  function Rollback(s: Session): Session {
    s.(working := s.committed)
  }

  datatype Outcome = Running(s: Session) | Aborted(s: Session, why: Violation)

  ghost function Exec(s: Session, prog: seq<Stmt>): Outcome
    decreases |prog|
  {
    if prog == [] then Running(s)
    else
      match Step(s, prog[0])
      case Accepted(s') => Exec(s', prog[1..])
      case Rejected(why) => Aborted(Rollback(s), why)
  }

  lemma {:induction false} ExecAppend(s: Session, a: seq<Stmt>, b: seq<Stmt>)
    ensures Exec(s, a + b) == (var o := Exec(s, a); if o.Running? then Exec(o.s, b) else o)
    decreases |a|
  {
    if a == [] {
      assert a + b == b;
    } else {
      assert (a + b)[1..] == a[1..] + b;
      match Step(s, a[0])
      case Accepted(s') => ExecAppend(s', a[1..], b);
      case Rejected(_) =>
    }
  }

  ghost predicate ClashFree(t: Table, rows: map<Value, Row>) {
    forall j, k | j in rows.Keys && k in rows.Keys && j != k :: !Clashes(t, rows[j], rows[k])
  }

  // What every state of the target satisfies, whoever wrote it.
  ghost predicate Closed(sch: Schema, db: Tables) {
    && (forall t, k | t in sch && k in At(db, t.name).Keys ::
          NotNullOk(t, At(db, t.name)[k]) && ForeignKeysOk(db, t, At(db, t.name)[k]))
    && (forall t | t in sch :: ClashFree(t, At(db, t.name)))
  }
}
