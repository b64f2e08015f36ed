/** Conservation of rows, safety of the id sequences, and the inputs on which the
    migration's own checks are not enough. */
module MigrationFacts {
  import opened Prelude
  import opened Relational
  import opened Migration
  import opened MigrationTable
  import opened MigrationRun

  /* ----- every source row is kept or excluded, once ----- */

  // The rows excluded under each of the first k columns.
  function ExcludedByColumn(src: Source, t: Table, rows: seq<Row>, k: nat): seq<Row>
    requires k <= |t.columns|
  {
    if k == 0 then [] else ExcludedByColumn(src, t, rows, k - 1) + Excluded(src, t, rows, t.columns[k - 1].name)
  }

  ghost predicate Names(t: Table, k: nat, c: Option<Name>)
    requires k <= |t.columns|
  {
    exists i :: 0 <= i < k && c == Some(t.columns[i].name)
  }

  lemma ExcludedStep(src: Source, t: Table, rows: seq<Row>, row: Row, c: Name)
    ensures Excluded(src, t, rows + [row], c)
            == Excluded(src, t, rows, c) + (if FirstDangling(src, t, row, 0) == Some(c) then [row] else [])
    ensures Kept(src, t, rows + [row])
            == Kept(src, t, rows) + (if FirstDangling(src, t, row, 0).None? then [row] else [])
  {
    assert (rows + [row])[..|rows|] == rows;
  }

  lemma NamesStep(t: Table, k: nat, c: Option<Name>)
    requires TableOk(t) && 0 < k <= |t.columns|
    ensures Names(t, k, c) <==> Names(t, k - 1, c) || c == Some(t.columns[k - 1].name)
    ensures !(Names(t, k - 1, c) && c == Some(t.columns[k - 1].name))
  {
  }

  function Once(yes: bool, row: Row): multiset<Row> {
    if yes then multiset{row} else multiset{}
  }

  lemma ColumnStep(src: Source, t: Table, rows: seq<Row>, k: nat)
    requires 0 < k <= |t.columns|
    ensures multiset(ExcludedByColumn(src, t, rows, k))
            == multiset(ExcludedByColumn(src, t, rows, k - 1)) + multiset(Excluded(src, t, rows, t.columns[k - 1].name))
  {
  }

  lemma OneMore(src: Source, t: Table, rows: seq<Row>, row: Row, c: Name)
    ensures multiset(Excluded(src, t, rows + [row], c))
            == multiset(Excluded(src, t, rows, c)) + Once(FirstDangling(src, t, row, 0) == Some(c), row)
    ensures multiset(Kept(src, t, rows + [row]))
            == multiset(Kept(src, t, rows)) + Once(FirstDangling(src, t, row, 0).None?, row)
  {
    ExcludedStep(src, t, rows, row, c);
  }

  lemma ExcludedGrowsStep(src: Source, t: Table, rows: seq<Row>, row: Row, k: nat, d: Option<Name>)
    requires TableOk(t) && 0 < k <= |t.columns| && d == FirstDangling(src, t, row, 0)
    requires multiset(ExcludedByColumn(src, t, rows + [row], k - 1))
             == multiset(ExcludedByColumn(src, t, rows, k - 1)) + Once(Names(t, k - 1, d), row)
    ensures multiset(ExcludedByColumn(src, t, rows + [row], k))
            == multiset(ExcludedByColumn(src, t, rows, k)) + Once(Names(t, k, d), row)
  {
    ColumnStep(src, t, rows, k);
    ColumnStep(src, t, rows + [row], k);
    OneMore(src, t, rows, row, t.columns[k - 1].name);
    NamesStep(t, k, d);
  }

  lemma {:induction false} ExcludedGrows(src: Source, t: Table, rows: seq<Row>, row: Row, k: nat)
    requires TableOk(t) && k <= |t.columns|
    ensures multiset(ExcludedByColumn(src, t, rows + [row], k))
            == multiset(ExcludedByColumn(src, t, rows, k)) + Once(Names(t, k, FirstDangling(src, t, row, 0)), row)
  {
    hide FirstDangling, Excluded, TableOk;
    if k > 0 {
      ExcludedGrows(src, t, rows, row, k - 1);
      ExcludedGrowsStep(src, t, rows, row, k, FirstDangling(src, t, row, 0));
    }
  }

  lemma NamedOrKept(src: Source, t: Table, row: Row)
    ensures var d := FirstDangling(src, t, row, 0);
            Once(d.None?, row) + Once(Names(t, |t.columns|, d), row) == multiset{row}
  {
  }

  lemma ConservedStep(src: Source, t: Table, rows: seq<Row>, row: Row)
    requires TableOk(t)
    requires multiset(rows) == multiset(Kept(src, t, rows)) + multiset(ExcludedByColumn(src, t, rows, |t.columns|))
    ensures multiset(rows + [row])
            == multiset(Kept(src, t, rows + [row])) + multiset(ExcludedByColumn(src, t, rows + [row], |t.columns|))
  {
    ExcludedGrows(src, t, rows, row, |t.columns|);
    OneMore(src, t, rows, row, "");
    NamedOrKept(src, t, row);
  }

  /** The source rows are exactly the kept rows plus the rows reported as excluded, each
      excluded row being reported once, under its first dangling column. */
  lemma {:induction false} RowsConserved(src: Source, t: Table, rows: seq<Row>)
    requires TableOk(t)
    ensures multiset(rows) == multiset(Kept(src, t, rows)) + multiset(ExcludedByColumn(src, t, rows, |t.columns|))
    decreases |rows|
  {
    if rows == [] {
      NothingExcluded(src, t, |t.columns|);
    } else {
      var init, last := rows[..|rows| - 1], rows[|rows| - 1];
      assert rows == init + [last];
      RowsConserved(src, t, init);
      ConservedStep(src, t, init, last);
    }
  }

  lemma {:induction false} NothingExcluded(src: Source, t: Table, k: nat)
    requires k <= |t.columns|
    ensures ExcludedByColumn(src, t, [], k) == []
  {
    if k > 0 {
      NothingExcluded(src, t, k - 1);
    }
  }

  ghost predicate InOrder(src: Source, t: Table, rows: seq<Row>, kept: seq<Row>, at: seq<nat>) {
    && |at| == |kept|
    && (forall i | 0 <= i < |at| :: at[i] < |rows| && kept[i] == rows[at[i]])
    && (forall i, j | 0 <= i < j < |at| :: at[i] < at[j])
    && (forall p | 0 <= p < |rows| :: p in at <==> FirstDangling(src, t, rows[p], 0).None?)
  }

  lemma InOrderStep(src: Source, t: Table, rows: seq<Row>, kept: seq<Row>, at: seq<nat>, row: Row)
    requires InOrder(src, t, rows, kept, at)
    ensures if FirstDangling(src, t, row, 0).None? then InOrder(src, t, rows + [row], kept + [row], at + [|rows|])
            else InOrder(src, t, rows + [row], kept, at)
  {
    assert |rows| !in at;
    var all := rows + [row];
    forall p | 0 <= p < |all| ensures p in at + [|rows|] <==> (p in at || p == |rows|) {}
  }

  /** Kept rows stay in source order, and a row is kept exactly when none of its NOT NULL
      references dangles. */
  lemma {:induction false} KeptInOrder(src: Source, t: Table, rows: seq<Row>)
    ensures InOrder(src, t, rows, Kept(src, t, rows), KeptPositions(src, t, rows))
    decreases |rows|
  {
    if rows != [] {
      var n := |rows| - 1;
      KeptInOrder(src, t, rows[..n]);
      InOrderStep(src, t, rows[..n], Kept(src, t, rows[..n]), KeptPositions(src, t, rows[..n]), rows[n]);
      assert rows[..n] + [rows[n]] == rows;
    }
  }

  function KeptPositions(src: Source, t: Table, rows: seq<Row>): seq<nat> {
    if rows == [] then []
    else
      var n := |rows| - 1;
      KeptPositions(src, t, rows[..n]) + (if FirstDangling(src, t, rows[n], 0).None? then [n] else [])
  }

  /* ----- the counts reported, and the batches sent ----- */

  function NulledAt(src: Source, t: Table, rows: seq<Row>, c: Name): set<nat> {
    set i: nat | i < |rows| && Get(rows[i], c) != Null && Get(Cleaned(src, t, rows[i]), c) == Null
  }

  /** The count reported for a column is the number of rows in which it was nulled. */
  lemma {:induction false} OrphanCountIs(src: Source, t: Table, rows: seq<Row>, c: Name)
    ensures OrphanCount(src, t, rows, c) == |NulledAt(src, t, rows, c)|
    decreases |rows|
  {
    hide Orphan, Get, NulledAt, Cleaned;
    if rows == [] {
      NothingNulled(src, t, c);
    } else {
      OrphanCountIs(src, t, rows[..|rows| - 1], c);
      NulledStep(src, t, rows, c);
    }
  }

  lemma NothingNulled(src: Source, t: Table, c: Name)
    ensures NulledAt(src, t, [], c) == {}
  {
  }

  lemma NulledStep(src: Source, t: Table, rows: seq<Row>, c: Name)
    requires rows != []
    ensures var last := rows[|rows| - 1];
            |NulledAt(src, t, rows, c)|
            == |NulledAt(src, t, rows[..|rows| - 1], c)| + (if c in last && Orphan(src, t, c, last[c]) then 1 else 0)
  {
    hide Orphan, Get, Cleaned;
    var n := |rows| - 1;
    NulledCell(src, t, rows[n], c);
    assert NulledAt(src, t, rows, c)
           == NulledAt(src, t, rows[..n], c) + (if c in rows[n] && Orphan(src, t, c, rows[n][c]) then {n} else {});
  }

  lemma NulledCell(src: Source, t: Table, row: Row, c: Name)
    ensures Get(row, c) != Null && Get(Cleaned(src, t, row), c) == Null <==> c in row && Orphan(src, t, c, row[c])
  {
  }

  function Sent(inserts: seq<Stmt>): seq<Row>
    requires forall st | st in inserts :: st.Insert?
  {
    if inserts == [] then [] else inserts[0].rows + Sent(inserts[1..])
  }

  /** The batches send every row once, in order, each batch full but for the last. */
  lemma {:induction false} BatchesAre(t: Table, rows: seq<Row>, b: int)
    requires b > 0
    ensures var sent := InsertStatements(t, rows, b);
            && (forall st | st in sent :: st.Insert? && st.t == t)
            && Sent(sent) == rows
            && (forall i | 0 <= i < |sent| :: 0 < |sent[i].rows| <= b && (i < |sent| - 1 ==> |sent[i].rows| == b))
    decreases |rows|
  {
    if rows != [] {
      var n := if b < |rows| then b else |rows|;
      BatchesAre(t, rows[n..], b);
      assert rows == rows[..n] + rows[n..];
      assert InsertStatements(t, rows, b)[1..] == InsertStatements(t, rows[n..], b);
    }
  }

  /** Each table that keeps a row ends in one commit, after a sequence reset exactly if its
      key is an integer; one that keeps none sends nothing. */
  lemma ProgramEnds(t: Table, ps: seq<Prepared>, b: int)
    ensures ps == [] ==> TableProgram(t, ps, b) == []
    ensures ps != [] ==>
              var p := TableProgram(t, ps, b);
              && |p| > 0 && p[|p| - 1] == Commit
              && (ResetSequence(t) in p <==> t.intKey) && (t.intKey ==> |p| > 1 && p[|p| - 2] == ResetSequence(t))
  {
    if ps != [] {
      OnlyInserts(t, InsertRows(ps), b);
      OnlyUpdates(t, ps);
    }
  }

  lemma {:induction false} OnlyInserts(t: Table, rows: seq<Row>, b: int)
    ensures forall st | st in InsertStatements(t, rows, b) :: st.Insert?
    decreases |rows|
  {
    if b > 0 && rows != [] {
      OnlyInserts(t, rows[if b < |rows| then b else |rows|..], b);
    }
  }

  lemma {:induction false} OnlyUpdates(t: Table, ps: seq<Prepared>)
    ensures forall st | st in UpdateStatements(t, ps) :: st.Update?
    decreases |ps|
  {
    if ps != [] {
      OnlyUpdates(t, ps[1..]);
    }
  }

  // NULLs never clash: a row with one in every unique key clashes with nothing.
  lemma NullsNeverClash(t: Table, a: Row, b: Row)
    requires forall u | u in t.uniques :: exists c :: c in u && Get(a, c) == Null
    ensures !Clashes(t, a, b)
  {
  }

  /* ----- the next generated id collides with nothing ----- */

  lemma SequenceOfTable(s: Session, t: Table, ps: seq<Prepared>, n: Name)
    ensures var end := AfterTable(s, t, ps);
            && (n == t.name && t.intKey && ps != [] ==>
                  n in end.sequences && end.sequences[n] == HighestKey(At(end.working, n)))
            && (n != t.name && n in s.sequences ==> n in end.sequences && end.sequences[n] == s.sequences[n])
  {
  }

  ghost predicate SequenceCurrent(s: Session, n: Name) {
    n in s.sequences && s.sequences[n] == HighestKey(At(s.working, n))
  }

  lemma SequenceStep(s: Session, t: Table, ps: seq<Prepared>, n: Name)
    requires if n == t.name then t.intKey && ps != [] else SequenceCurrent(s, n)
    ensures SequenceCurrent(AfterTable(s, t, ps), n)
  {
    SequenceOfTable(s, t, ps, n);
    AfterTableAt(s, t, ps, n);
  }

  lemma PlanNonempty(src: Source, clock: Clock, t: Table)
    ensures Plan(src, clock, t) == [] <==> KeptRows(src, t) == []
  {
    assert |Plan(src, clock, t)| == |KeptRows(src, t)|;
  }

  lemma {:induction false} SequenceAfter(sch: Schema, src: Source, clock: Clock, s: Session, k: nat, j: nat)
    requires j < k <= |sch| && forall i | j < i < k :: sch[i].name != sch[j].name
    requires sch[j].intKey && KeptRows(src, sch[j]) != []
    ensures SequenceCurrent(After(sch, src, clock, s, k), sch[j].name)
    decreases k
  {
    hide Plan, KeptRows, AfterTable, SequenceCurrent;
    if j < k - 1 {
      SequenceAfter(sch, src, clock, s, k - 1, j);
    }
    PlanNonempty(src, clock, sch[k - 1]);
    SequenceStep(After(sch, src, clock, s, k - 1), sch[k - 1], Plan(src, clock, sch[k - 1]), sch[j].name);
  }

  lemma NoIdCollision(sch: Schema, src: Source, clock: Clock, b: int, s: Session, t: Table, id: int)
    requires SchemaOk(sch) && SourceOk(sch, src) && b > 0 && t in sch && t.intKey && KeptRows(src, t) != []
    requires Exec(s, Program(sch, src, clock, b, 0)).Running?
    ensures var end := Exec(s, Program(sch, src, clock, b, 0)).s;
            && t.name in end.sequences
            && (Int(id) in At(end.working, t.name) ==> id < end.sequences[t.name] + 1)
  {
    RunExec(sch, src, clock, b, s, 0);
    var j :| 0 <= j < |sch| && sch[j] == t;
    SequenceAfter(sch, src, clock, s, |sch|, j);
  }

  /* ----- a non-positive batch size ----- */

  lemma {:induction false} UpdatesOfAbsentRows(s: Session, t: Table, ps: seq<Prepared>)
    requires forall p | p in ps :: p.key !in At(s.working, t.name)
    ensures Exec(s, UpdateStatements(t, ps)) == Running(s)
    decreases |ps|
  {
    if ps != [] {
      forall p | p in ps[1..] ensures p.key !in At(s.working, t.name) {}
      UpdatesOfAbsentRows(s, t, ps[1..]);
      if ps[0].deferred != map[] {
        assert ps[0] in ps;
        ExecFirst(s, Update(t, ps[0].key, ps[0].deferred), UpdateStatements(t, ps[1..]));
      } else {
        assert UpdateStatements(t, ps) == UpdateStatements(t, ps[1..]);
      }
    }
  }

  lemma NegativeBatchTable(s: Session, t: Table, ps: seq<Prepared>, b: int)
    requires b < 0 && s.committed == s.working && At(s.working, t.name) == map[]
    ensures var o := Exec(s, TableProgram(t, ps, b));
            o.Running? && o.s.committed == s.committed && o.s.working == s.working
  {
    if ps != [] {
      var tail := (if t.intKey then [ResetSequence(t)] else []) + [Commit];
      UpdatesOfAbsentRows(s, t, ps);
      assert TableProgram(t, ps, b) == UpdateStatements(t, ps) + tail;
      ExecAppend(s, UpdateStatements(t, ps), tail);
      TailExec(s, t, tail);
    }
  }

  /** With a negative --batch-size the batch loop is empty: a run into a fresh target
      completes, reports its full total, and has copied nothing. Every theorem about the
      target's contents therefore asks for a batch size of at least 1. */
  lemma {:induction false} NegativeBatchCopiesNothing(sch: Schema, src: Source, clock: Clock, b: int, s: Session, i: nat)
    requires b < 0 && i <= |sch| && Fresh(sch, s)
    ensures var o := Exec(s, Program(sch, src, clock, b, i));
            o.Running? && o.s.committed == s.committed && o.s.working == s.working
    decreases |sch| - i
  {
    if i < |sch| {
      var first := TableProgram(sch[i], Plan(src, clock, sch[i]), b);
      assert sch[i] in sch;
      ExecAppend(s, first, Program(sch, src, clock, b, i + 1));
      NegativeBatchTable(s, sch[i], Plan(src, clock, sch[i]), b);
      NegativeBatchCopiesNothing(sch, src, clock, b, Exec(s, first).s, i + 1);
    }
  }

  lemma NothingKeptIff(src: Source, t: Table)
    ensures KeptIds(src, t) == {} <==> KeptRows(src, t) == []
  {
    if KeptRows(src, t) != [] {
      assert KeptRows(src, t)[0] in KeptRows(src, t);
      assert Get(KeptRows(src, t)[0], t.pk) in KeptIds(src, t);
    }
  }

  ghost predicate HoldsKeptRows(sch: Schema, src: Source, db: Tables) {
    forall t | t in sch :: At(db, t.name).Keys == KeptIds(src, t)
  }

  /** A completed run of a portable source into a fresh target has copied what it kept
      exactly when the batch size was positive or there was nothing to copy. (A batch
      size of 0 raises in range before the first INSERT.) */
  lemma CopiedIff(sch: Schema, src: Source, clock: Clock, b: int, s: Session)
    requires SchemaOk(sch) && SourceOk(sch, src) && Fresh(sch, s) && b != 0
    requires forall t | t in sch :: Portable(sch, src, t)
    ensures var o := Exec(s, Program(sch, src, clock, b, 0));
            && o.Running?
            && (HoldsKeptRows(sch, src, o.s.committed) <==> b > 0 || forall t | t in sch :: KeptRows(src, t) == [])
  {
    hide SchemaOk, SourceOk, Portable, Exec, Program, KeptRows, KeptIds;
    if b > 0 {
      FreshRunSucceedsIff(sch, src, clock, b, s);
      forall t | t in sch ensures At(Exec(s, Program(sch, src, clock, b, 0)).s.committed, t.name).Keys == KeptIds(src, t) {
        FreshRunContents(sch, src, clock, b, s, t);
      }
    } else {
      NegativeBatchCopiesNothing(sch, src, clock, b, s, 0);
      forall t | t in sch ensures KeptIds(src, t) == {} <==> KeptRows(src, t) == [] {
        NothingKeptIff(src, t);
      }
    }
  }

  /* ----- why the proviso is needed ----- */

  function Required(n: Name): Column {
    Column(n, false, NoDefault, None)
  }

  function RequiredRef(n: Name, t: Name, c: Name): Column {
    Column(n, false, NoDefault, Some(Ref(t, c)))
  }

  function Councils(): Table { Table("councils", [Required("code")], "code", false, []) }
  function Applications(): Table {
    Table("applications", [Required("id"), RequiredRef("council_code", "councils", "code")], "id", true, [])
  }
  function Documents(): Table {
    Table("documents", [Required("id"), RequiredRef("application_id", "applications", "id")], "id", true, [])
  }

  function ApplicationOfNoCouncil(): Row { map["id" := Int(1), "council_code" := Text("gone")] }
  function DocumentOfThat(): Row { map["id" := Int(7), "application_id" := Int(1)] }

  function OrphanedGrandchild(): Source {
    map["councils" := [], "applications" := [ApplicationOfNoCouncil()], "documents" := [DocumentOfThat()]]
  }

  function GrandchildSchema(): Schema { [Councils(), Applications(), Documents()] }

  lemma GrandchildTablesOk()
    ensures TableOk(Councils()) && TableOk(Applications()) && TableOk(Documents())
    ensures SourceOk(GrandchildSchema(), OrphanedGrandchild())
  {
  }

  lemma GrandchildColumnsDeclared()
    ensures var sch := GrandchildSchema();
            && (forall c | c in Councils().columns :: Declared(sch, Councils(), c, 0) && !IsSelf(Councils(), c))
            && (forall c | c in Applications().columns :: Declared(sch, Applications(), c, 1) && !IsSelf(Applications(), c))
            && (forall c | c in Documents().columns :: Declared(sch, Documents(), c, 2) && !IsSelf(Documents(), c))
  {
    var sch := GrandchildSchema();
    assert sch[0] == Councils() && sch[1] == Applications();
  }

  lemma GrandchildSchemaOk()
    ensures SchemaOk(GrandchildSchema()) && SourceOk(GrandchildSchema(), OrphanedGrandchild())
  {
    hide TableOk, Declared, IsSelf, SourceOk;
    var sch := GrandchildSchema();
    GrandchildTablesOk();
    GrandchildColumnsDeclared();
    assert |sch| == 3 && sch[0] == Councils() && sch[1] == Applications() && sch[2] == Documents();
  }

  // A table without nullable references to other tables has nothing to null.
  lemma OneRowUncleaned(src: Source, t: Table, row: Row)
    requires forall c | c in t.columns :: !(c.nullable && IsCross(t, c))
    ensures CleanedRows(src, t, [row]) == [row]
  {
    assert Cleaned(src, t, row) == row;
  }

  lemma OneRowKept(src: Source, t: Table, row: Row)
    ensures Kept(src, t, [row]) == if FirstDangling(src, t, row, 0).None? then [row] else []
  {
    assert [row][..0] == [];
  }

  lemma ApplicationExcluded()
    ensures KeptRows(OrphanedGrandchild(), Applications()) == []
    ensures Int(1) in ExcludedIds(OrphanedGrandchild(), Applications())
  {
    hide TableOk;
    var src, t, row := OrphanedGrandchild(), Applications(), ApplicationOfNoCouncil();
    OneRowUncleaned(src, t, row);
    OneRowKept(src, t, row);
    assert Dangles(src, t, t.columns[1], row);
    assert row in CleanedRows(src, t, Rows(src, t.name)) && Get(row, t.pk) == Int(1);
  }

  lemma DocumentKept()
    ensures KeptRows(OrphanedGrandchild(), Documents()) == [DocumentOfThat()]
  {
    var src, t, row := OrphanedGrandchild(), Documents(), DocumentOfThat();
    OneRowUncleaned(src, t, row);
    OneRowKept(src, t, row);
    assert ApplicationOfNoCouncil() in Rows(src, "applications");
    assert Int(1) in Ids(src, Ref("applications", "id"));
  }

  // The application is excluded, but the document's parent is looked up among source
  // ids, so the document is kept, and its INSERT is what fails.
  lemma ValidityIsCheckedAgainstTheSource()
    ensures var sch, src := GrandchildSchema(), OrphanedGrandchild();
            && KeptRows(src, Applications()) == []
            && KeptRows(src, Documents()) == [DocumentOfThat()]
            && !Portable(sch, src, Documents())
  {
    ApplicationExcluded();
    DocumentKept();
    DocumentNamesExcluded();
    assert DocumentOfThat() in KeptRows(OrphanedGrandchild(), Documents());
  }

  lemma DocumentNamesExcluded()
    ensures !NamesNoExcludedParent(GrandchildSchema(), OrphanedGrandchild(), Documents(), DocumentOfThat())
  {
    ApplicationExcluded();
    var c := Documents().columns[1];
    assert c in Documents().columns && GrandchildSchema()[1] == Applications();
    assert Get(DocumentOfThat(), c.name) == Int(1);
  }

  lemma ExcludedParentAbortsRun(clock: Clock, b: int, s: Session)
    requires b > 0 && Fresh(GrandchildSchema(), s)
    ensures Exec(s, Program(GrandchildSchema(), OrphanedGrandchild(), clock, b, 0)).Aborted?
  {
    GrandchildSchemaOk();
    ValidityIsCheckedAgainstTheSource();
    FreshRunSucceedsIff(GrandchildSchema(), OrphanedGrandchild(), clock, b, s);
    assert Documents() in GrandchildSchema();
  }

  function Reports(): Table {
    Table("monitored_reports",
          [Required("id"), Column("superseded_by_id", true, NoDefault, Some(Ref("monitored_reports", "id")))], "id", true, [])
  }

  function ReportOfNoSuccessor(): Row { map["id" := Int(1), "superseded_by_id" := Int(99)] }

  function UnsupersededReport(): Source { map["monitored_reports" := [ReportOfNoSuccessor()]] }

  lemma SingleRowKept(src: Source, t: Table, row: Row)
    requires Rows(src, t.name) == [row] && forall c | c in t.columns :: !IsCross(t, c)
    ensures KeptRows(src, t) == [row]
    ensures KeptIds(src, t) == {Get(row, t.pk)}
  {
    OneRowUncleaned(src, t, row);
    OneRowKept(src, t, row);
    assert row in KeptRows(src, t);
  }

  lemma ReportNotPortable()
    ensures !Portable([Reports()], UnsupersededReport(), Reports())
  {
    var src, t, row := UnsupersededReport(), Reports(), ReportOfNoSuccessor();
    SingleRowKept(src, t, row);
    assert Get(row, "superseded_by_id") == Int(99) && Int(99) !in KeptIds(src, t);
    assert !SelfReferencesKept(src, t, row) by {
      assert t.columns[1] in t.columns && IsSelf(t, t.columns[1]);
    }
    assert row in KeptRows(src, t);
  }

  lemma ReportSchemaOk()
    ensures SchemaOk([Reports()]) && SourceOk([Reports()], UnsupersededReport())
  {
    assert forall c | c in Reports().columns :: Declared([Reports()], Reports(), c, 0);
  }

  // A nullable self-reference gets no orphan check: it is not nulled, it is deferred.
  lemma DanglingSelfReferenceAbortsRun(clock: Clock, b: int, s: Session)
    requires b > 0 && Fresh([Reports()], s)
    ensures Exec(s, Program([Reports()], UnsupersededReport(), clock, b, 0)).Aborted?
  {
    ReportSchemaOk();
    ReportNotPortable();
    assert Reports() in [Reports()];
    FreshRunSucceedsIff([Reports()], UnsupersededReport(), clock, b, s);
  }

  /* ----- ON CONFLICT names the primary key only ----- */

  function ReferencedApplications(): Table {
    Table("applications", [Required("id"), RequiredRef("council_code", "councils", "code"), Required("reference")],
          "id", true, [["council_code", "reference"]])
  }

  function ApplicationAs(id: int): Row {
    map["id" := Int(id), "council_code" := Text("X"), "reference" := Text("R")]
  }

  function CouncilX(): Row { map["code" := Text("X")] }

  function ReferencedSchema(): Schema { [Councils(), ReferencedApplications()] }

  function SameApplicationUnderSeven(): Source {
    map["councils" := [CouncilX()], "applications" := [ApplicationAs(7)]]
  }

  lemma ReferencedTablesOk()
    ensures TableOk(Councils()) && TableOk(ReferencedApplications())
  {
  }

  lemma ReferencedColumnsDeclared()
    ensures var sch := ReferencedSchema();
            && (forall c | c in Councils().columns :: Declared(sch, Councils(), c, 0) && !IsSelf(Councils(), c))
            && (forall c | c in ReferencedApplications().columns ::
                  Declared(sch, ReferencedApplications(), c, 1) && !IsSelf(ReferencedApplications(), c))
  {
    hide TableOk;
    assert ReferencedSchema()[0] == Councils();
  }

  lemma ReferencedSchemaOk()
    ensures SchemaOk(ReferencedSchema())
  {
    hide TableOk, Declared, IsSelf;
    ReferencedTablesOk();
    ReferencedColumnsDeclared();
    var sch := ReferencedSchema();
    assert |sch| == 2 && sch[0] == Councils() && sch[1] == ReferencedApplications();
  }

  lemma ReferencedSourceOk()
    ensures SourceOk(ReferencedSchema(), SameApplicationUnderSeven())
  {
    hide TableOk, Declared;
  }

  lemma CouncilKept()
    ensures KeptRows(SameApplicationUnderSeven(), Councils()) == [CouncilX()]
  {
    hide TableOk;
    OneRowUncleaned(SameApplicationUnderSeven(), Councils(), CouncilX());
    OneRowKept(SameApplicationUnderSeven(), Councils(), CouncilX());
  }

  lemma CouncilKnown()
    ensures Text("X") in Ids(SameApplicationUnderSeven(), Ref("councils", "code"))
    ensures Text("X") !in ExcludedIds(SameApplicationUnderSeven(), Councils())
  {
    hide TableOk;
    assert CouncilX() in Rows(SameApplicationUnderSeven(), "councils");
    assert Get(CouncilX(), "code") == Text("X");
    OneRowUncleaned(SameApplicationUnderSeven(), Councils(), CouncilX());
  }

  lemma SevenKept()
    ensures KeptRows(SameApplicationUnderSeven(), ReferencedApplications()) == [ApplicationAs(7)]
  {
    hide TableOk, Ids, Shares;
    var src, t, row := SameApplicationUnderSeven(), ReferencedApplications(), ApplicationAs(7);
    CouncilKnown();
    OneRowUncleaned(src, t, row);
    OneRowKept(src, t, row);
  }

  lemma CouncilPortable()
    ensures Portable(ReferencedSchema(), SameApplicationUnderSeven(), Councils())
  {
    hide TableOk, KeptRows, AsInserted;
    CouncilKept();
  }

  lemma SevenPortable()
    ensures Portable(ReferencedSchema(), SameApplicationUnderSeven(), ReferencedApplications())
  {
    hide TableOk, KeptRows, AsInserted, ExcludedIds;
    SevenKept();
    CouncilKnown();
  }

  lemma InsertedVerbatim(id: int)
    ensures AsInserted(ReferencedApplications(), ApplicationAs(id)) == ApplicationAs(id)
  {
    hide TableOk, Resolved;
    NothingToResolve((n: Name, key: Value, c: Name) => 0, id);
    NoSelfColumn();
  }

  lemma NoSelfColumn()
    ensures forall c :: !SelfColumn(ReferencedApplications(), c)
  {
    hide TableOk;
  }

  lemma NothingToResolve(clock: Clock, id: int)
    ensures Resolved(clock, ReferencedApplications(), ApplicationAs(id)) == ApplicationAs(id)
  {
    hide TableOk;
    var t, row := ReferencedApplications(), ApplicationAs(id);
    assert forall d | d in t.columns :: !Defaulted(d);
    assert Resolved(clock, t, row).Keys == row.Keys;
  }

  lemma SevenSharesKey(have: map<Value, Row>)
    requires Int(1) in have && Int(7) !in have && have[Int(1)] == ApplicationAs(1)
    ensures !NoSharedKey(SameApplicationUnderSeven(), ReferencedApplications(), have)
  {
    hide TableOk, KeptRows, AsInserted;
    var t, row := ReferencedApplications(), ApplicationAs(7);
    SevenKept();
    InsertedVerbatim(7);
    assert t.uniques[0] in t.uniques && Shares(t.uniques[0], row, have[Int(1)]);
    assert Clashes(t, row, have[Int(1)]);
    assert row in KeptRows(SameApplicationUnderSeven(), t);
  }

  /** A target in use that holds the source's application under another id aborts the
      run, though the source is portable: the conflict clause absorbs a conflict of ids,
      not one of (council_code, reference). */
  lemma UsedTargetAbortsRun(clock: Clock, b: int, s: Session)
    requires b > 0
    requires var have := At(s.working, "applications");
             Int(1) in have && Int(7) !in have && have[Int(1)] == ApplicationAs(1)
    ensures var sch, src := ReferencedSchema(), SameApplicationUnderSeven();
            && (forall t | t in sch :: Portable(sch, src, t))
            && Exec(s, Program(sch, src, clock, b, 0)).Aborted?
  {
    hide SchemaOk, SourceOk, Portable, NoSharedKey, Exec, Program, At, KeptIds;
    ReferencedSchemaOk();
    ReferencedSourceOk();
    CouncilPortable();
    SevenPortable();
    SevenSharesKey(At(s.working, "applications"));
    PortableRunSucceedsIff(ReferencedSchema(), SameApplicationUnderSeven(), clock, b, s);
    assert ReferencedApplications() in ReferencedSchema();
  }
}
