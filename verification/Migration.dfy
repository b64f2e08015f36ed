/** What the migration script computes from the source, and the statements it sends.
    Everything here is a function of the source rows, the schema, the clock and the
    batch size; the target's state is only met in the statements' execution. */
module Migration {
  import opened Prelude
  import opened Relational

  // SQLite: per table, its rows in SELECT order.
  type Source = map<Name, seq<Row>>

  // The reading of a callable (clock) default for one cell of one run.
  type Clock = (Name, Value, Name) -> int

  function Rows(src: Source, t: Name): seq<Row> {
    if t in src then src[t] else []
  }

  // SQLite enforces the primary key and nothing else.
  predicate KeysOk(pk: Name, rows: seq<Row>) {
    && (forall i | 0 <= i < |rows| :: Get(rows[i], pk).Int? || Get(rows[i], pk).Text?)
    && (forall i, j | 0 <= i < j < |rows| :: Get(rows[i], pk) != Get(rows[j], pk))
  }

  predicate SourceOk(sch: Schema, src: Source) {
    forall t | t in sch :: KeysOk(t.pk, Rows(src, t.name))
  }

  // The ids a foreign key may name, as read from the source.
  function Ids(src: Source, r: Ref): set<Value> {
    set row | row in Rows(src, r.table) :: Get(row, r.column)
  }

  function Lookup(t: Table, c: Name): (r: Option<Column>)
    ensures r.Some? ==> r.value in t.columns && r.value.name == c
    ensures r.None? ==> forall d | d in t.columns :: d.name != c
  {
    LookupFrom(t.columns, c)
  }

  function LookupFrom(cols: seq<Column>, c: Name): (r: Option<Column>)
    ensures r.Some? ==> r.value in cols && r.value.name == c
    ensures r.None? ==> forall d | d in cols :: d.name != c
  {
    if cols == [] then None
    else if cols[0].name == c then Some(cols[0])
    else LookupFrom(cols[1..], c)
  }

  /* ----- orphaned nullable references are nulled ----- */

  predicate Orphan(src: Source, t: Table, c: Name, v: Value) {
    var col := Lookup(t, c);
    && v != Null
    && col.Some? && col.value.nullable && IsCross(t, col.value)
    && v !in Ids(src, col.value.ref.value)
  }

  function Cleaned(src: Source, t: Table, row: Row): Row {
    map c | c in row :: if Orphan(src, t, c, row[c]) then Null else row[c]
  }

  function CleanedRows(src: Source, t: Table, rows: seq<Row>): seq<Row> {
    seq(|rows|, i requires 0 <= i < |rows| => Cleaned(src, t, rows[i]))
  }

  function OrphanCount(src: Source, t: Table, rows: seq<Row>, c: Name): nat {
    if rows == [] then 0
    else
      var last := rows[|rows| - 1];
      OrphanCount(src, t, rows[..|rows| - 1], c) + (if c in last && Orphan(src, t, c, last[c]) then 1 else 0)
  }

  /* ----- rows with a dangling NOT NULL reference are excluded ----- */

  predicate Dangles(src: Source, t: Table, c: Column, row: Row) {
    !c.nullable && IsCross(t, c) && Get(row, c.name) !in Ids(src, c.ref.value)
  }

  function FirstDangling(src: Source, t: Table, row: Row, from: nat): (r: Option<Name>)
    requires from <= |t.columns|
    ensures r.None? <==> forall j | from <= j < |t.columns| :: !Dangles(src, t, t.columns[j], row)
    ensures r.Some? ==> exists j :: from <= j < |t.columns| && t.columns[j].name == r.value
                                    && Dangles(src, t, t.columns[j], row)
                                    && forall i | from <= i < j :: !Dangles(src, t, t.columns[i], row)
    decreases |t.columns| - from
  {
    if from == |t.columns| then None
    else if Dangles(src, t, t.columns[from], row) then Some(t.columns[from].name)
    else FirstDangling(src, t, row, from + 1)
  }

  function Kept(src: Source, t: Table, rows: seq<Row>): seq<Row> {
    if rows == [] then []
    else
      var last := rows[|rows| - 1];
      Kept(src, t, rows[..|rows| - 1]) + (if FirstDangling(src, t, last, 0).None? then [last] else [])
  }

  function Excluded(src: Source, t: Table, rows: seq<Row>, c: Name): seq<Row> {
    if rows == [] then []
    else
      var last := rows[|rows| - 1];
      Excluded(src, t, rows[..|rows| - 1], c) + (if FirstDangling(src, t, last, 0) == Some(c) then [last] else [])
  }

  /* ----- what is inserted, and what is deferred to the second pass ----- */

  function ToUtcAware(v: Value): Value {
    if v.Naive? then Aware(v.at) else v
  }

  function DefaultValue(clock: Clock, t: Table, key: Value, c: Column): (v: Value)
    requires c.default != NoDefault
  {
    if c.default.Constant? then c.default.v else Aware(clock(t.name, key, c.name))
  }

  predicate Defaulted(c: Column) {
    !c.nullable && c.default != NoDefault
  }

  function Cell(clock: Clock, t: Table, row: Row, c: Name): Value {
    var v := ToUtcAware(Get(row, c));
    var col := Lookup(t, c);
    if v == Null && col.Some? && Defaulted(col.value)
    then DefaultValue(clock, t, Get(row, t.pk), col.value)
    else v
  }

  function Resolved(clock: Clock, t: Table, row: Row): Row {
    map c | c in row.Keys + (set d | d in t.columns && Defaulted(d) :: d.name) :: Cell(clock, t, row, c)
  }

  predicate SelfColumn(t: Table, c: Name) {
    exists d :: d in t.columns && d.name == c && IsSelf(t, d)
  }

  datatype Prepared = Prepared(key: Value, insert: Row, deferred: Row)

  function InsertPart(t: Table, full: Row): Row {
    map c | c in full :: if SelfColumn(t, c) then Null else full[c]
  }

  function DeferredPart(t: Table, full: Row): Row {
    map c | c in full && SelfColumn(t, c) && full[c] != Null :: full[c]
  }

  function Prepare(clock: Clock, t: Table, row: Row): Prepared {
    var full := Resolved(clock, t, row);
    Prepared(Get(row, t.pk), InsertPart(t, full), DeferredPart(t, full))
  }

  function PreparedRows(clock: Clock, t: Table, rows: seq<Row>): seq<Prepared> {
    seq(|rows|, i requires 0 <= i < |rows| => Prepare(clock, t, rows[i]))
  }

  function KeptRows(src: Source, t: Table): seq<Row> {
    Kept(src, t, CleanedRows(src, t, Rows(src, t.name)))
  }

  function Plan(src: Source, clock: Clock, t: Table): seq<Prepared> {
    PreparedRows(clock, t, KeptRows(src, t))
  }

  /* ----- the statements of one table, and of a run ----- */

  function InsertRows(ps: seq<Prepared>): seq<Row> {
    seq(|ps|, i requires 0 <= i < |ps| => ps[i].insert)
  }

  // for i in range(0, len(rows), b): a negative step is an empty range.
  function InsertStatements(t: Table, rows: seq<Row>, b: int): seq<Stmt>
    decreases |rows|
  {
    if b <= 0 || rows == [] then []
    else
      var n := if b < |rows| then b else |rows|;
      [Insert(t, rows[..n])] + InsertStatements(t, rows[n..], b)
  }

  function UpdateStatements(t: Table, ps: seq<Prepared>): seq<Stmt>
    decreases |ps|
  {
    if ps == [] then []
    else (if ps[0].deferred == map[] then [] else [Update(t, ps[0].key, ps[0].deferred)]) + UpdateStatements(t, ps[1..])
  }

  function TableProgram(t: Table, ps: seq<Prepared>, b: int): seq<Stmt> {
    if ps == [] then []
    else
      InsertStatements(t, InsertRows(ps), b) + UpdateStatements(t, ps)
      + (if t.intKey then [ResetSequence(t)] else []) + [Commit]
  }

  // The statements for the tables from position i on.
  function Program(sch: Schema, src: Source, clock: Clock, b: int, i: nat): seq<Stmt>
    requires i <= |sch|
    decreases |sch| - i
  {
    if i == |sch| then []
    else TableProgram(sch[i], Plan(src, clock, sch[i]), b) + Program(sch, src, clock, b, i + 1)
  }
}
