/** The fixture server's socket accounting: accepts and closes under one lock,
    application descriptors opening and closing at any time, and the release check that
    runs against all of them. Every schedule of the steps is a run. */
module DescriptorAccounting {
  import opened Prelude

  type Fd = nat
  type Request = nat
  // Device, inode, mode and link target, as one value.
  type Meta = int
  type Identity = (Fd, Meta)

  datatype AcceptStage = Listening | Got(req: Request) | Recorded
  datatype CloseStage = Owned | Closed | Forgotten

  // Who holds the ownership lock, and where inside its critical section.
  datatype Holder = Free | Accepting(a: AcceptStage) | Closing(req: Request, c: CloseStage) | Asserting

  datatype Why = Unavailable | Stale | Missing | Leak | Incomplete

  // Progress of assert_released.
  datatype Phase = NotStarted | Checking(todo: set<Request>, owned: set<Identity>) | Waiting | Final | Passed | Failed(why: Why)

  // table: every open descriptor of the process; accepted: the open sockets the fixture
  // owns; requests: the server's own record of them.
  datatype World = World(table: map<Fd, Meta>, accepted: map<Request, Fd>, requests: map<Request, Identity>,
                         holder: Holder, phase: Phase)

  datatype Step =
    | AppOpen(fd: Fd, meta: Meta) | AppClose(fd: Fd)
    | BeginAccept | AcceptSocket(req: Request, fd: Fd, meta: Meta) | AcceptFails | RecordSocket | RecordFails | EndAccept
    | BeginClose(req: Request) | CloseSocket | CloseFails | CloseRaises | ForgetSocket | EndClose
    | TryAssert | CheckOne(req: Request) | FirstSnapshot | WakeUp(timedOut: bool) | SecondSnapshot

  function Snapshot(table: map<Fd, Meta>): set<Identity> {
    set fd | fd in table :: (fd, table[fd])
  }

  function Sockets(w: World): set<Fd> {
    set r | r in w.accepted :: w.accepted[r]
  }

  // What the check is about: the descriptors that are not fixture sockets.
  function NonFixture(w: World): set<Identity> {
    set fd | fd in w.table && fd !in Sockets(w) :: (fd, w.table[fd])
  }

  // descriptor_identity(request.fileno())
  function IdentityNow(w: World, r: Request): Option<Identity> {
    if r in w.accepted && w.accepted[r] in w.table then Some((w.accepted[r], w.table[w.accepted[r]])) else None
  }

  // None: the step is not possible in this state.
  function Apply(baseline: set<Identity>, w: World, st: Step): Option<World> {
    match st
    case AppOpen(fd, meta) =>
      if fd !in w.table then Some(w.(table := w.table[fd := meta])) else None
    case AppClose(fd) =>
      if fd in w.table && fd !in Sockets(w) then Some(w.(table := w.table - {fd})) else None
    case BeginAccept =>
      if w.holder.Free? then Some(w.(holder := Accepting(Listening))) else None
    case AcceptSocket(r, fd, meta) =>
      if w.holder == Accepting(Listening) && fd !in w.table && r !in w.accepted && r !in w.requests
      then Some(w.(table := w.table[fd := meta], accepted := w.accepted[r := fd], holder := Accepting(Got(r)))) else None
    case AcceptFails =>
      if w.holder == Accepting(Listening) then Some(w.(holder := Free)) else None
    case RecordSocket =>
      if w.holder.Accepting? && w.holder.a.Got? && IdentityNow(w, w.holder.a.req).Some?
      then Some(w.(requests := w.requests[w.holder.a.req := IdentityNow(w, w.holder.a.req).value], holder := Accepting(Recorded)))
      else None
    case RecordFails =>
      // Raised between accept and record: the descriptor stays open and nobody owns it,
      // until whatever collects the socket object closes it (an AppClose).
      if w.holder.Accepting? && w.holder.a.Got?
      then Some(w.(accepted := w.accepted - {w.holder.a.req}, holder := Free)) else None
    case EndAccept =>
      if w.holder == Accepting(Recorded) then Some(w.(holder := Free)) else None
    case BeginClose(r) =>
      if w.holder.Free? && r in w.requests && r in w.accepted then Some(w.(holder := Closing(r, Owned))) else None
    case CloseSocket =>
      if w.holder.Closing? && w.holder.c.Owned? && w.holder.req in w.accepted
      then
        var r := w.holder.req;
        Some(w.(table := w.table - {w.accepted[r]}, accepted := w.accepted - {r}, holder := Closing(r, Closed)))
      else None
    case CloseFails =>
      // "Fixture socket did not close": still open, still recorded, the lock released.
      if w.holder.Closing? && w.holder.c.Owned? then Some(w.(holder := Free)) else None
    case CloseRaises =>
      // The close released the descriptor and then raised: the record keeps a dead socket.
      if w.holder.Closing? && w.holder.c.Closed? then Some(w.(holder := Free)) else None
    case ForgetSocket =>
      if w.holder.Closing? && w.holder.c.Closed?
      then Some(w.(requests := w.requests - {w.holder.req}, holder := Closing(w.holder.req, Forgotten))) else None
    case EndClose =>
      if w.holder.Closing? && w.holder.c.Forgotten? then Some(w.(holder := Free)) else None
    case TryAssert =>
      if !w.phase.NotStarted? then None
      else if w.holder.Free? then Some(w.(holder := Asserting, phase := Checking(w.requests.Keys, {})))
      else Some(w.(phase := Failed(Unavailable)))
    case CheckOne(r) =>
      if w.phase.Checking? && r in w.phase.todo && r in w.requests then
        if IdentityNow(w, r) == Some(w.requests[r])
        then Some(w.(phase := Checking(w.phase.todo - {r}, w.phase.owned + {w.requests[r]})))
        else Some(w.(holder := Free, phase := Failed(Stale)))
      else None
    case FirstSnapshot =>
      if w.phase.Checking? && w.phase.todo == {} then
        var current := Snapshot(w.table);
        if !(w.phase.owned <= current) then Some(w.(holder := Free, phase := Failed(Missing)))
        else if current - w.phase.owned != baseline then Some(w.(holder := Free, phase := Failed(Leak)))
        else if w.requests == map[] then Some(w.(phase := Final))
        else Some(w.(holder := Free, phase := Waiting))
      else None
    case WakeUp(timedOut) =>
      if w.phase.Waiting? && w.holder.Free? then
        if w.requests == map[] then Some(w.(holder := Asserting, phase := Final))
        else if timedOut then Some(w.(phase := Failed(Incomplete)))
        else Some(w)
      else None
    case SecondSnapshot =>
      if w.phase.Final? then
        Some(w.(holder := Free, phase := if Snapshot(w.table) == baseline then Passed else Failed(Leak)))
      else None
  }

  // The state after the first n steps of a schedule, if they are all possible.
  function Run(baseline: set<Identity>, start: World, schedule: seq<Step>, n: nat): Option<World>
    requires n <= |schedule|
  {
    if n == 0 then Some(start)
    else
      var before := Run(baseline, start, schedule, n - 1);
      if before.None? then None else Apply(baseline, before.value, schedule[n - 1])
  }

  predicate Start(w: World) {
    w.accepted == map[] && w.requests == map[] && w.holder.Free? && w.phase.NotStarted?
  }

  /* ----- the accounting invariant ----- */

  predicate Distinct(w: World) {
    && (forall r | r in w.accepted :: w.accepted[r] in w.table)
    && (forall r, q | r in w.accepted && q in w.accepted && r != q :: w.accepted[r] != w.accepted[q])
  }

  // The socket being accepted that the record does not hold yet.
  function Unrecorded(w: World): set<Request> {
    if w.holder.Accepting? && w.holder.a.Got? then {w.holder.a.req} else {}
  }

  // The socket being closed that the record still holds.
  function StillRecorded(w: World): set<Request> {
    if w.holder.Closing? && w.holder.c.Closed? then {w.holder.req} else {}
  }

  // Records whose socket is closed.
  function Dead(w: World): set<Request> {
    w.requests.Keys - w.accepted.Keys
  }

  predicate RecordInStep(w: World) {
    && w.accepted.Keys - Unrecorded(w) <= w.requests.Keys
    && Unrecorded(w) <= w.accepted.Keys && Unrecorded(w) !! w.requests.Keys
    && StillRecorded(w) <= Dead(w)
    && (forall r | r in w.accepted && r !in Unrecorded(w) :: IdentityNow(w, r) == Some(w.requests[r]))
    && (w.holder.Closing? && w.holder.c.Owned? ==> w.holder.req in w.accepted)
  }

  predicate CheckInStep(w: World) {
    && (w.phase.Checking? || w.phase.Final? <==> w.holder.Asserting?)
    && (w.phase.Checking? ==>
          && w.phase.todo <= w.requests.Keys
          && Dead(w) <= w.phase.todo
          && w.phase.owned == set r | r in w.requests && r !in w.phase.todo :: w.requests[r])
    && (w.phase.Final? ==> w.requests == map[])
    && w.phase != Failed(Missing)
  }

  predicate Inv(w: World) {
    Distinct(w) && RecordInStep(w) && CheckInStep(w)
  }

  lemma SocketsAre(w: World)
    ensures forall r | r in w.accepted :: w.accepted[r] in Sockets(w)
  {
  }

  lemma StepKeepsDistinct(baseline: set<Identity>, w: World, st: Step)
    requires Inv(w) && Apply(baseline, w, st).Some?
    ensures Distinct(Apply(baseline, w, st).value)
  {
    hide RecordInStep, CheckInStep, Snapshot, Sockets, IdentityNow;
    var next := Apply(baseline, w, st).value;
    SocketsAre(w);
    if st.CloseSocket? || st.RecordFails? {
      assert forall r | r in next.accepted :: r in w.accepted && next.accepted[r] in next.table;
    }
  }

  // Steps of the application and of the check leave the sockets' identities alone.
  lemma OthersKeepRecord(w: World, next: World)
    requires Inv(w) && next.accepted == w.accepted && next.requests == w.requests
    requires Unrecorded(next) == Unrecorded(w) && StillRecorded(next) <= StillRecorded(w)
    requires next.holder.Closing? && next.holder.c.Owned? ==> next.holder.req in w.accepted
    requires forall r | r in w.accepted :: w.accepted[r] in next.table && next.table[w.accepted[r]] == w.table[w.accepted[r]]
    ensures RecordInStep(next)
  {
    forall r | r in next.accepted ensures IdentityNow(next, r) == IdentityNow(w, r) {}
  }

  lemma AcceptKeepsRecord(baseline: set<Identity>, w: World, st: Step)
    requires Inv(w) && Apply(baseline, w, st).Some? && (st.AcceptSocket? || st.RecordSocket?)
    ensures RecordInStep(Apply(baseline, w, st).value)
  {
    hide CheckInStep, Snapshot, Sockets, NonFixture;
    var next := Apply(baseline, w, st).value;
    forall r | r in w.accepted ensures IdentityNow(next, r) == IdentityNow(w, r) {}
  }

  lemma AbandonKeepsRecord(baseline: set<Identity>, w: World)
    requires Inv(w) && Apply(baseline, w, RecordFails).Some?
    ensures RecordInStep(Apply(baseline, w, RecordFails).value)
  {
    hide CheckInStep, Snapshot, Sockets, NonFixture;
    var next := Apply(baseline, w, RecordFails).value;
    forall r | r in next.accepted ensures r in w.accepted && IdentityNow(next, r) == IdentityNow(w, r) {}
  }

  lemma CloseKeepsRecord(baseline: set<Identity>, w: World, st: Step)
    requires Inv(w) && Apply(baseline, w, st).Some? && (st.CloseSocket? || st.ForgetSocket?)
    ensures RecordInStep(Apply(baseline, w, st).value)
  {
    hide CheckInStep, Snapshot, Sockets, NonFixture;
    var next := Apply(baseline, w, st).value;
    forall r | r in next.accepted ensures IdentityNow(next, r) == IdentityNow(w, r) {
      assert r in w.accepted;
    }
  }

  lemma StepKeepsRecord(baseline: set<Identity>, w: World, st: Step)
    requires Inv(w) && Apply(baseline, w, st).Some?
    ensures RecordInStep(Apply(baseline, w, st).value)
  {
    hide RecordInStep, Snapshot, NonFixture, Sockets;
    if st.AcceptSocket? || st.RecordSocket? {
      AcceptKeepsRecord(baseline, w, st);
    } else if st.RecordFails? {
      AbandonKeepsRecord(baseline, w);
    } else if st.CloseSocket? || st.ForgetSocket? {
      CloseKeepsRecord(baseline, w, st);
    } else {
      SocketsAre(w);
      BeginCloseIsOwned(w);
      OthersKeepRecord(w, Apply(baseline, w, st).value);
    }
  }

  lemma BeginCloseIsOwned(w: World)
    requires Inv(w)
    ensures w.holder.Free? ==> w.accepted.Keys <= w.requests.Keys
    ensures w.holder.Closing? && w.holder.c.Owned? ==> w.holder.req in w.accepted
  {
  }

  lemma StepKeepsCheck(baseline: set<Identity>, w: World, st: Step)
    requires Inv(w) && Apply(baseline, w, st).Some?
    ensures CheckInStep(Apply(baseline, w, st).value)
  {
    hide Snapshot, Sockets, NonFixture, Distinct;
    if st.FirstSnapshot? {
      OwnedIsOpen(w);
    }
  }

  lemma StepKeepsInv(baseline: set<Identity>, w: World, st: Step)
    requires Inv(w) && Apply(baseline, w, st).Some?
    ensures Inv(Apply(baseline, w, st).value)
  {
    hide Apply, Distinct, RecordInStep, CheckInStep;
    StepKeepsDistinct(baseline, w, st);
    StepKeepsRecord(baseline, w, st);
    StepKeepsCheck(baseline, w, st);
  }

  // With every recorded socket checked, "owned" is exactly the fixture's part of the table.
  lemma OwnedIsOpen(w: World)
    requires Inv(w) && w.phase.Checking? && w.phase.todo == {}
    ensures w.phase.owned <= Snapshot(w.table)
    ensures Snapshot(w.table) - w.phase.owned == NonFixture(w)
  {
    var owned := w.phase.owned;
    forall r | r in w.requests ensures r in w.accepted && w.requests[r] == (w.accepted[r], w.table[w.accepted[r]]) {
      assert IdentityNow(w, r) == Some(w.requests[r]);
    }
    forall id | id in Snapshot(w.table) ensures id in owned <==> id.0 in Sockets(w) {
      if id.0 in Sockets(w) {
        var r :| r in w.accepted && w.accepted[r] == id.0;
        assert w.requests[r] == id && w.requests[r] in owned;
      }
    }
  }

  lemma {:induction false} Reachable(baseline: set<Identity>, start: World, schedule: seq<Step>, n: nat)
    requires Start(start) && n <= |schedule| && Run(baseline, start, schedule, n).Some?
    ensures Inv(Run(baseline, start, schedule, n).value)
  {
    if n > 0 {
      Reachable(baseline, start, schedule, n - 1);
      StepKeepsInv(baseline, Run(baseline, start, schedule, n - 1).value, schedule[n - 1]);
    }
  }

  // A socket's record dies when its close raises after all, and never comes back.
  ghost predicate Raised(schedule: seq<Step>, n: nat)
    requires n <= |schedule|
  {
    exists i :: 0 <= i < n && schedule[i].CloseRaises?
  }

  lemma DeadStep(baseline: set<Identity>, w: World, st: Step)
    requires Inv(w) && Apply(baseline, w, st).Some?
    ensures var next := Apply(baseline, w, st).value;
            Dead(next) - StillRecorded(next) == Dead(w) - StillRecorded(w) + (if st.CloseRaises? then StillRecorded(w) else {})
    ensures st.CloseRaises? ==> StillRecorded(w) != {} && StillRecorded(w) <= Dead(w)
  {
    hide Snapshot, Sockets, NonFixture, Distinct, IdentityNow;
    var next := Apply(baseline, w, st).value;
    if st.AcceptSocket? || st.RecordFails? || st.RecordSocket? || st.CloseSocket? || st.ForgetSocket? {
      forall r ensures r in Dead(next) - StillRecorded(next) <==> r in Dead(w) - StillRecorded(w) {}
    }
  }

  /** Whenever the lock is free (or the check holds it), every socket the fixture owns is
      recorded under its current identity, and nothing else is, if and only if no close
      released its descriptor and then raised. */
  lemma {:induction false} RecordIsExact(baseline: set<Identity>, start: World, schedule: seq<Step>, n: nat)
    requires Start(start) && n <= |schedule| && Run(baseline, start, schedule, n).Some?
    ensures var w := Run(baseline, start, schedule, n).value;
            && (Dead(w) - StillRecorded(w) == {} <==> !Raised(schedule, n))
            && (w.holder.Free? || w.holder.Asserting? ==>
                  && (forall r | r in w.accepted :: r in w.requests && IdentityNow(w, r) == Some(w.requests[r]))
                  && (w.requests.Keys == w.accepted.Keys <==> !Raised(schedule, n)))
  {
    hide Apply, Distinct, IdentityNow;
    Reachable(baseline, start, schedule, n);
    if n > 0 {
      var w := Run(baseline, start, schedule, n - 1).value;
      Reachable(baseline, start, schedule, n - 1);
      RecordIsExact(baseline, start, schedule, n - 1);
      DeadStep(baseline, w, schedule[n - 1]);
      assert Raised(schedule, n) <==> Raised(schedule, n - 1) || schedule[n - 1].CloseRaises?;
    }
  }

  /** The first snapshot, taken before any wait, passes exactly when the non-fixture
      descriptors equal the baseline; its other failures cannot happen. */
  lemma FirstSnapshotIff(baseline: set<Identity>, w: World)
    requires Inv(w) && Apply(baseline, w, FirstSnapshot).Some?
    ensures var next := Apply(baseline, w, FirstSnapshot).value;
            && (NonFixture(w) == baseline <==> next.phase.Waiting? || next.phase.Final?)
            && (NonFixture(w) != baseline <==> next.phase == Failed(Leak))
            && (next.phase.Waiting? ==> next.accepted != map[]) && (next.phase.Final? ==> next.accepted == map[])
  {
    OwnedIsOpen(w);
    assert w.requests == map[] <==> w.requests.Keys == {};
    assert w.accepted == map[] <==> w.accepted.Keys == {};
  }

  // Only the first snapshot leads into the wait or the final check.
  lemma PhaseEntry(baseline: set<Identity>, w: World, st: Step)
    requires Apply(baseline, w, st).Some?
    ensures var p := Apply(baseline, w, st).value.phase;
            && ((p.Waiting? || p.Final?) && st != FirstSnapshot ==> w.phase.Waiting? || w.phase.Final?)
            && (st == FirstSnapshot ==> w.phase.Checking?)
            && (p.Passed? && st != SecondSnapshot ==> w.phase.Passed?)
            && (st == SecondSnapshot ==> w.phase.Final? && (p.Passed? <==> Snapshot(w.table) == baseline))
  {
    hide Snapshot, Sockets, NonFixture;
  }

  ghost predicate PassedFirst(baseline: set<Identity>, start: World, schedule: seq<Step>, i: nat)
    requires i <= |schedule|
  {
    var w := Run(baseline, start, schedule, i);
    w.Some? && w.value.phase.Checking? && w.value.holder.Asserting? && NonFixture(w.value) == baseline
  }

  ghost predicate PassedLast(baseline: set<Identity>, start: World, schedule: seq<Step>, j: nat)
    requires j <= |schedule|
  {
    var w := Run(baseline, start, schedule, j);
    w.Some? && w.value.phase.Final? && w.value.accepted == map[] && Snapshot(w.value.table) == baseline
  }

  lemma {:induction false} FirstWasClean(baseline: set<Identity>, start: World, schedule: seq<Step>, n: nat) returns (i: nat)
    requires Start(start) && n <= |schedule| && Run(baseline, start, schedule, n).Some?
    requires var p := Run(baseline, start, schedule, n).value.phase; p.Waiting? || p.Final?
    ensures i < n && PassedFirst(baseline, start, schedule, i)
  {
    hide Apply, Distinct, RecordInStep, NonFixture;
    var w := Run(baseline, start, schedule, n - 1).value;
    Reachable(baseline, start, schedule, n - 1);
    PhaseEntry(baseline, w, schedule[n - 1]);
    if schedule[n - 1].FirstSnapshot? {
      FirstSnapshotIff(baseline, w);
      i := n - 1;
    } else {
      i := FirstWasClean(baseline, start, schedule, n - 1);
    }
  }

  /** If assert_released returns, then at one moment before any wait the non-fixture
      descriptors were exactly the baseline, and at a later one no fixture socket was open
      and the whole table was the baseline. Nothing the application leaked can hide
      behind a fixture socket or behind the wait. */
  lemma {:induction false} PassedMeansReleased(baseline: set<Identity>, start: World, schedule: seq<Step>, n: nat)
    requires Start(start) && n <= |schedule| && Run(baseline, start, schedule, n).Some?
    requires Run(baseline, start, schedule, n).value.phase.Passed?
    ensures exists i, j :: 0 <= i < j < n && PassedFirst(baseline, start, schedule, i) && PassedLast(baseline, start, schedule, j)
  {
    hide Apply, Distinct, NonFixture, Snapshot;
    var w := Run(baseline, start, schedule, n - 1).value;
    Reachable(baseline, start, schedule, n - 1);
    PhaseEntry(baseline, w, schedule[n - 1]);
    if schedule[n - 1].SecondSnapshot? {
      var i := FirstWasClean(baseline, start, schedule, n - 1);
      assert w.accepted.Keys == {};
      assert PassedLast(baseline, start, schedule, n - 1);
    } else {
      PassedMeansReleased(baseline, start, schedule, n - 1);
    }
  }

  lemma RunStep(baseline: set<Identity>, start: World, schedule: seq<Step>, n: nat)
    requires 0 < n <= |schedule| && Run(baseline, start, schedule, n).Some?
    ensures var before := Run(baseline, start, schedule, n - 1);
            before.Some? && Run(baseline, start, schedule, n) == Apply(baseline, before.value, schedule[n - 1])
  {
  }

  lemma FailureStep(baseline: set<Identity>, w: World, st: Step)
    requires Inv(w) && !w.phase.Failed? && Apply(baseline, w, st).Some? && Apply(baseline, w, st).value.phase.Failed?
    ensures var why := Apply(baseline, w, st).value.phase.why;
            && why != Missing
            && (why == Stale <==> st.CheckOne? && st.req in Dead(w))
            && (why == Unavailable <==> w.phase.NotStarted? && !w.holder.Free?)
            && (why == Incomplete <==> w.phase.Waiting? && st == WakeUp(true) && w.requests != map[])
            && (why == Leak <==> (st.FirstSnapshot? && NonFixture(w) != baseline)
                                 || (st.SecondSnapshot? && Snapshot(w.table) != baseline))
  {
    hide Sockets, Snapshot, NonFixture;
    assert w.accepted == map[] <==> w.accepted.Keys == {};
    assert w.requests == map[] <==> w.requests.Keys == {};
    StepKeepsCheck(baseline, w, st);
    if st.FirstSnapshot? {
      FirstSnapshotIff(baseline, w);
    }
  }

  /** The only failures a run can end in, and what each one proves about the moment it was
      raised: the lock was taken, a recorded socket was dead, a snapshot differed, or a
      socket was still recorded when the wait ran out - never before. */
  lemma FailureMeans(baseline: set<Identity>, start: World, schedule: seq<Step>, n: nat)
    requires Start(start) && 0 < n <= |schedule| && Run(baseline, start, schedule, n).Some?
    requires var p := Run(baseline, start, schedule, n - 1).value.phase; !p.Failed?
    requires Run(baseline, start, schedule, n).value.phase.Failed?
    ensures var w := Run(baseline, start, schedule, n - 1).value;
            var why := Run(baseline, start, schedule, n).value.phase.why;
            && why != Missing
            && (why == Stale <==> schedule[n - 1].CheckOne? && schedule[n - 1].req in Dead(w))
            && (why == Unavailable <==> w.phase.NotStarted? && !w.holder.Free?)
            && (why == Incomplete <==> w.phase.Waiting? && schedule[n - 1] == WakeUp(true) && w.requests != map[])
            && (why == Leak <==> (schedule[n - 1].FirstSnapshot? && NonFixture(w) != baseline)
                                 || (schedule[n - 1].SecondSnapshot? && Snapshot(w.table) != baseline))
  {
    hide Run;
    RunStep(baseline, start, schedule, n);
    var w := Run(baseline, start, schedule, n - 1).value;
    Reachable(baseline, start, schedule, n - 1);
    FailureStep(baseline, w, schedule[n - 1]);
  }

  /* ----- the critical sections, as the server runs them when nothing interleaves ----- */

  function Steps(baseline: set<Identity>, w: World, steps: seq<Step>): Option<World> {
    Run(baseline, w, steps, |steps|)
  }

  function AcceptSteps(req: Request, fd: Fd, meta: Meta, accepts: bool, records: bool): seq<Step> {
    if !accepts then [BeginAccept, AcceptFails]
    else if !records then [BeginAccept, AcceptSocket(req, fd, meta), RecordFails]
    else [BeginAccept, AcceptSocket(req, fd, meta), RecordSocket, EndAccept]
  }

  function AcceptResult(w: World, req: Request, fd: Fd, meta: Meta, accepts: bool, records: bool): World {
    w.(table := if accepts then w.table[fd := meta] else w.table,
       accepted := if accepts && records then w.accepted[req := fd] else w.accepted,
       requests := if accepts && records then w.requests[req := (fd, meta)] else w.requests)
  }

  lemma AcceptIs(baseline: set<Identity>, w: World, req: Request, fd: Fd, meta: Meta, accepts: bool, records: bool)
    requires Inv(w) && w.holder.Free? && fd !in w.table && req !in w.accepted && req !in w.requests
    ensures var end := AcceptResult(w, req, fd, meta, accepts, records);
            Steps(baseline, w, AcceptSteps(req, fd, meta, accepts, records)) == Some(end) && Inv(end)
  {
    hide Inv, Run, Snapshot, Sockets, NonFixture;
    BeginCloseIsOwned(w);
    var w1 := w.(holder := Accepting(Listening));
    var w2 := w.(table := w.table[fd := meta], accepted := w.accepted[req := fd], holder := Accepting(Got(req)));
    var end := AcceptResult(w, req, fd, meta, accepts, records);
    if !accepts {
      AreSteps(baseline, [w, w1, end], [BeginAccept, AcceptFails], 2);
    } else if !records {
      assert w2.accepted - {req} == w.accepted;
      AreSteps(baseline, [w, w1, w2, end], [BeginAccept, AcceptSocket(req, fd, meta), RecordFails], 3);
    } else {
      var w3 := w2.(requests := w.requests[req := (fd, meta)], holder := Accepting(Recorded));
      AreSteps(baseline, [w, w1, w2, w3, end], [BeginAccept, AcceptSocket(req, fd, meta), RecordSocket, EndAccept], 4);
    }
  }

  datatype CloseOutcome = StaysOpen | ClosesAndRaises | Closes

  function CloseSteps(req: Request, how: CloseOutcome): seq<Step> {
    match how
    case StaysOpen => [BeginClose(req), CloseFails]
    case ClosesAndRaises => [BeginClose(req), CloseSocket, CloseRaises]
    case Closes => [BeginClose(req), CloseSocket, ForgetSocket, EndClose]
  }

  function CloseResult(w: World, req: Request, how: CloseOutcome): World
    requires req in w.accepted
  {
    if how.StaysOpen? then w
    else w.(table := w.table - {w.accepted[req]}, accepted := w.accepted - {req},
            requests := if how.Closes? then w.requests - {req} else w.requests)
  }

  lemma CloseIs(baseline: set<Identity>, w: World, r: Request, how: CloseOutcome)
    requires Inv(w) && w.holder.Free? && r in w.accepted
    ensures r in w.requests
    ensures Steps(baseline, w, CloseSteps(r, how)) == Some(CloseResult(w, r, how)) && Inv(CloseResult(w, r, how))
  {
    hide Inv, Run, Snapshot, Sockets, NonFixture;
    BeginCloseIsOwned(w);
    var end := CloseResult(w, r, how);
    var w1 := w.(holder := Closing(r, Owned));
    var w2 := w1.(table := w.table - {w.accepted[r]}, accepted := w.accepted - {r}, holder := Closing(r, Closed));
    match how
    case StaysOpen =>
      AreSteps(baseline, [w, w1, w], [BeginClose(r), CloseFails], 2);
    case ClosesAndRaises =>
      AreSteps(baseline, [w, w1, w2, end], [BeginClose(r), CloseSocket, CloseRaises], 3);
    case Closes =>
      var w3 := w2.(requests := w.requests - {r}, holder := Closing(r, Forgotten));
      AreSteps(baseline, [w, w1, w2, w3, end], [BeginClose(r), CloseSocket, ForgetSocket, EndClose], 4);
  }

  class AccountedFixtureServer {
    var table: map<Fd, Meta>
    var accepted: map<Request, Fd>
    var requests: map<Request, Identity>
    var holder: Holder
    var phase: Phase

    constructor (table: map<Fd, Meta>)
      ensures Start(View()) && this.table == table
    {
      this.table, accepted, requests, holder, phase := table, map[], map[], Free, NotStarted;
    }

    function View(): World
      reads this
    {
      World(table, accepted, requests, holder, phase)
    }

    /** get_request: accept and record under one lock, which every exception releases. */
    method GetRequest(baseline: set<Identity>, req: Request, fd: Fd, meta: Meta, accepts: bool, records: bool)
      requires Inv(View()) && holder.Free? && fd !in table && req !in accepted && req !in requests
      modifies this
      ensures Inv(View()) && holder.Free? && phase == old(phase)
      ensures table == if accepts then old(table)[fd := meta] else old(table)
      ensures accepted == if accepts && records then old(accepted)[req := fd] else old(accepted)
      ensures requests == if accepts && records then old(requests)[req := (fd, meta)] else old(requests)
      ensures Steps(baseline, old(View()), AcceptSteps(req, fd, meta, accepts, records)) == Some(View())
    {
      hide Inv, Steps;
      AcceptIs(baseline, View(), req, fd, meta, accepts, records);
      holder := Accepting(Listening);
      if !accepts {
        holder := Free;
        return;
      }
      table, accepted, holder := table[fd := meta], accepted[req := fd], Accepting(Got(req));
      if !records {
        accepted, holder := accepted - {req}, Free;
        assert accepted == old(accepted);
        return;
      }
      requests, holder := requests[req := (accepted[req], table[accepted[req]])], Accepting(Recorded);
      holder := Free;
    }

    /** shutdown_request: close, forget and notify under one lock. A socket that stays open
        fails the assertion and stays recorded; one whose close raises after all stays
        recorded too, dead. */
    method ShutdownRequest(baseline: set<Identity>, req: Request, how: CloseOutcome)
      requires Inv(View()) && holder.Free? && req in accepted
      modifies this
      ensures Inv(View()) && holder.Free? && phase == old(phase)
      ensures table == if how.StaysOpen? then old(table) else old(table) - {old(accepted)[req]}
      ensures accepted == if how.StaysOpen? then old(accepted) else old(accepted) - {req}
      ensures requests == if how.Closes? then old(requests) - {req} else old(requests)
      ensures Steps(baseline, old(View()), CloseSteps(req, how)) == Some(View())
    {
      hide Inv, Steps;
      CloseIs(baseline, View(), req, how);
      holder := Closing(req, Owned);
      if how.StaysOpen? {
        holder := Free;
        return;
      }
      table, accepted, holder := table - {accepted[req]}, accepted - {req}, Closing(req, Closed);
      if how.ClosesAndRaises? {
        holder := Free;
        return;
      }
      requests, holder := requests - {req}, Closing(req, Forgotten);
      holder := Free;
    }

    /** assert_released up to its wait: the try-lock, the ownership loop and the first
        snapshot. */
    method CheckBeforeWait(baseline: set<Identity>)
      requires Inv(View()) && phase.NotStarted?
      modifies this`holder, this`phase
      ensures Inv(View())
      ensures !old(holder).Free? ==> phase == Failed(Unavailable) && holder == old(holder)
      ensures old(holder).Free? ==>
                if Dead(old(View())) != {} then phase == Failed(Stale) && holder.Free?
                else if NonFixture(old(View())) != baseline then phase == Failed(Leak) && holder.Free?
                else if accepted == map[] then phase.Final? && holder.Asserting?
                else phase.Waiting? && holder.Free?
    {
      hide Inv, NonFixture, Snapshot, IdentityNow;
      ghost var start := View();
      CheckBegins(start);
      if !holder.Free? {
        phase := Failed(Unavailable);
        return;
      }
      var todo, owned := requests.Keys, {};
      holder, phase := Asserting, Checking(todo, owned);
      while todo != {}
        invariant Inv(View()) && holder.Asserting? && phase == Checking(todo, owned)
        decreases |todo|
      {
        var req :| req in todo;
        CheckMeets(View(), req);
        if req !in accepted {
          // No identity for a closed socket: the lookup itself raises.
          holder, phase := Free, Failed(Stale);
          return;
        }
        CheckGoesOn(View(), req);
        var fd := accepted[req];
        assert (fd, table[fd]) == requests[req];  // the source's "Stale fixture ownership" cannot fire
        todo, owned := todo - {req}, owned + {requests[req]};
        phase := Checking(todo, owned);
      }
      CheckEnds(View(), start);
      var current := Snapshot(table);
      assert owned <= current;  // nor can "Fixture ownership missing from descriptor snapshot"
      if current - owned != baseline {
        holder, phase := Free, Failed(Leak);
      } else if requests == map[] {
        phase := Final;
      } else {
        holder, phase := Free, Waiting;
      }
    }
  }

  lemma CheckBegins(w: World)
    requires Inv(w) && w.phase.NotStarted?
    ensures w.holder.Free? ==> Inv(w.(holder := Asserting, phase := Checking(w.requests.Keys, {})))
    ensures !w.holder.Free? ==> Inv(w.(phase := Failed(Unavailable)))
  {
    StepKeepsInv({}, w, TryAssert);
  }

  lemma CheckMeets(w: World, r: Request)
    requires Inv(w) && w.phase.Checking? && r in w.phase.todo
    ensures r in w.requests
    ensures r !in w.accepted ==> r in Dead(w) && Inv(w.(holder := Free, phase := Failed(Stale)))
  {
    StepKeepsInv({}, w, CheckOne(r));
  }

  lemma CheckGoesOn(w: World, r: Request)
    requires Inv(w) && w.phase.Checking? && r in w.phase.todo && r in w.accepted
    ensures r in w.requests && w.accepted[r] in w.table
    ensures w.requests[r] == (w.accepted[r], w.table[w.accepted[r]])
    ensures Inv(w.(phase := Checking(w.phase.todo - {r}, w.phase.owned + {w.requests[r]})))
  {
    assert IdentityNow(w, r) == Some(w.requests[r]);
    StepKeepsInv({}, w, CheckOne(r));
  }

  lemma CheckEnds(w: World, start: World)
    requires Inv(w) && w.phase.Checking? && w.phase.todo == {}
    requires start.table == w.table && start.accepted == w.accepted
    ensures Dead(w) == {} && w.phase.owned <= Snapshot(w.table) && Snapshot(w.table) - w.phase.owned == NonFixture(start)
    ensures w.requests == map[] <==> w.accepted == map[]
    ensures w.requests == map[] ==> Inv(w.(phase := Final))
    ensures Inv(w.(holder := Free, phase := Waiting)) && Inv(w.(holder := Free, phase := Failed(Leak)))
  {
    OwnedIsOpen(w);
    assert w.requests == map[] <==> w.requests.Keys == {};
    assert w.accepted == map[] <==> w.accepted.Keys == {};
  }

  lemma {:induction false} AreSteps(baseline: set<Identity>, ws: seq<World>, steps: seq<Step>, n: nat)
    requires n <= |steps| && |ws| == |steps| + 1 && Inv(ws[0])
    requires forall i | 0 <= i < |steps| :: Apply(baseline, ws[i], steps[i]) == Some(ws[i + 1])
    ensures Run(baseline, ws[0], steps, n) == Some(ws[n]) && Inv(ws[n])
  {
    hide Apply, Inv;
    if n > 0 {
      AreSteps(baseline, ws, steps, n - 1);
      assert Apply(baseline, ws[n - 1], steps[n - 1]) == Some(ws[n - 1 + 1]);
      StepKeepsInv(baseline, ws[n - 1], steps[n - 1]);
    }
  }

  /* ----- the check does not fail a clean application ----- */

  lemma {:induction false} RunAppend(baseline: set<Identity>, w: World, a: seq<Step>, b: seq<Step>, n: nat)
    requires n <= |b| && Steps(baseline, w, a).Some?
    ensures Run(baseline, w, a + b, |a| + n) == Run(baseline, Steps(baseline, w, a).value, b, n)
  {
    hide Apply;
    if n == 0 {
      RunPrefix(baseline, w, a, b, |a|);
    } else {
      RunAppend(baseline, w, a, b, n - 1);
    }
  }

  lemma {:induction false} RunPrefix(baseline: set<Identity>, w: World, a: seq<Step>, b: seq<Step>, n: nat)
    requires n <= |a|
    ensures Run(baseline, w, a + b, n) == Run(baseline, w, a, n)
  {
    hide Apply;
    if n > 0 {
      RunPrefix(baseline, w, a, b, n - 1);
    }
  }

  // Closing one socket under the lock leaves the non-fixture descriptors alone.
  lemma CloseOne(baseline: set<Identity>, w: World, r: Request)
    requires Inv(w) && w.holder.Free? && r in w.accepted
    ensures r in w.requests && Dead(w.(table := w.table - {w.accepted[r]}, accepted := w.accepted - {r}, requests := w.requests - {r})) == Dead(w)
    ensures var next := w.(table := w.table - {w.accepted[r]}, accepted := w.accepted - {r}, requests := w.requests - {r});
            && Steps(baseline, w, CloseSteps(r, Closes)) == Some(next)
            && Inv(next) && NonFixture(next) == NonFixture(w) && |next.requests| < |w.requests|
  {
    CloseIs(baseline, w, r, Closes);
    var next := CloseResult(w, r, Closes);
    NonFixtureKept(w, next, r);
    assert w.requests.Keys == next.requests.Keys + {r};
    assert |w.requests| == |w.requests.Keys| && |next.requests| == |next.requests.Keys|;
  }

  lemma NonFixtureKept(w: World, next: World, r: Request)
    requires Distinct(w) && r in w.accepted
    requires next.table == w.table - {w.accepted[r]} && next.accepted == w.accepted - {r}
    ensures NonFixture(next) == NonFixture(w)
  {
    forall fd ensures fd in Sockets(w) <==> fd in Sockets(next) || fd == w.accepted[r] {
      if fd in Sockets(w) {
        var q :| q in w.accepted && w.accepted[q] == fd;
        assert q != r ==> q in next.accepted && next.accepted[q] == fd;
      }
      if fd in Sockets(next) {
        var q :| q in next.accepted && next.accepted[q] == fd;
        assert w.accepted[q] == fd;
      }
    }
    forall fd | fd in Sockets(next) ensures fd != w.accepted[r] {
      var q :| q in next.accepted && next.accepted[q] == fd;
    }
  }

  // The application opens and closes no descriptor and no accepted socket is abandoned;
  // the fixture may accept, close, fail to close, and the wait may time out.
  predicate Quiet(st: Step) {
    !st.AppOpen? && !st.AppClose? && !st.RecordFails?
  }

  predicate AfterFirst(p: Phase) {
    p.Waiting? || p.Final? || p.Passed? || p == Failed(Incomplete)
  }

  lemma AcceptKeepsNonFixture(w: World, next: World, r: Request, fd: Fd, meta: Meta)
    requires fd !in w.table && r !in w.accepted
    requires next.table == w.table[fd := meta] && next.accepted == w.accepted[r := fd]
    ensures NonFixture(next) == NonFixture(w)
  {
    forall d ensures d in Sockets(next) <==> d in Sockets(w) || d == fd {
      if d in Sockets(w) {
        var q :| q in w.accepted && w.accepted[q] == d;
        assert q in next.accepted && next.accepted[q] == d;
      }
      assert r in next.accepted && next.accepted[r] == fd;
    }
  }

  lemma QuietKeepsNonFixture(baseline: set<Identity>, w: World, st: Step)
    requires Inv(w) && Quiet(st) && Apply(baseline, w, st).Some?
    ensures NonFixture(Apply(baseline, w, st).value) == NonFixture(w)
  {
    hide NonFixture, Snapshot, RecordInStep, CheckInStep;
    var next := Apply(baseline, w, st).value;
    if st.AcceptSocket? {
      AcceptKeepsNonFixture(w, next, st.req, st.fd, st.meta);
    } else if st.CloseSocket? {
      NonFixtureKept(w, next, w.holder.req);
    } else {
      SameNonFixture(w, next);
    }
  }

  lemma SameNonFixture(w: World, next: World)
    requires next.table == w.table && next.accepted == w.accepted
    ensures NonFixture(next) == NonFixture(w)
  {
  }

  lemma NoSocketsLeft(w: World)
    requires w.accepted == map[]
    ensures NonFixture(w) == Snapshot(w.table)
  {
    assert Sockets(w) == {};
  }

  lemma QuietStep(baseline: set<Identity>, w: World, st: Step)
    requires Inv(w) && Quiet(st) && Apply(baseline, w, st).Some? && AfterFirst(w.phase) && NonFixture(w) == baseline
    ensures var next := Apply(baseline, w, st).value; AfterFirst(next.phase) && NonFixture(next) == baseline
    ensures Apply(baseline, w, st).value.phase.Failed? ==>
              w.phase.Failed? || (st == WakeUp(true) && w.phase.Waiting? && w.requests != map[])
  {
    hide NonFixture, Snapshot, Sockets, Distinct;
    QuietKeepsNonFixture(baseline, w, st);
    if st.SecondSnapshot? {
      assert w.requests.Keys == {} && w.accepted.Keys <= w.requests.Keys;
      NoSocketsLeft(w);
    }
  }

  /** Once the first snapshot has passed, an application that leaves its descriptors alone
      is never reported: whatever the fixture's threads do and in whatever order, the check
      waits, passes, or fails only because the wait ran out on a socket still recorded; a
      schedule on which it does not run out never fails. */
  lemma {:induction false} QuietNeverLeaks(baseline: set<Identity>, w: World, schedule: seq<Step>, n: nat)
    requires Inv(w) && w.phase.Waiting? && NonFixture(w) == baseline
    requires n <= |schedule| && Run(baseline, w, schedule, n).Some? && forall i | 0 <= i < n :: Quiet(schedule[i])
    ensures var end := Run(baseline, w, schedule, n).value; Inv(end) && AfterFirst(end.phase) && NonFixture(end) == baseline
    ensures Run(baseline, w, schedule, n).value.phase.Failed? ==> WakeUp(true) in schedule[..n]
  {
    hide Apply, Inv, NonFixture;
    if n > 0 {
      assert schedule[..n] == schedule[..n - 1] + [schedule[n - 1]];
      QuietNeverLeaks(baseline, w, schedule, n - 1);
      var before := Run(baseline, w, schedule, n - 1).value;
      StepKeepsInv(baseline, before, schedule[n - 1]);
      QuietStep(baseline, before, schedule[n - 1]);
    }
  }

  /** A socket accepted but never recorded is not excused: it is one more non-fixture
      descriptor, so a check whose first snapshot meets it reports a leak. */
  lemma AbandonedIsReported(baseline: set<Identity>, w: World)
    requires Inv(w) && Apply(baseline, w, RecordFails).Some?
    ensures var next := Apply(baseline, w, RecordFails).value;
            var fd := w.accepted[w.holder.a.req];
            && next.holder.Free? && next.requests == w.requests
            && NonFixture(next) == NonFixture(w) + {(fd, w.table[fd])} && (fd, w.table[fd]) !in NonFixture(w)
  {
    var r := w.holder.a.req;
    var next := w.(accepted := w.accepted - {r}, holder := Free);
    assert r in w.accepted;
    forall d ensures d in Sockets(w) <==> d in Sockets(next) || d == w.accepted[r] {
      if d in Sockets(w) {
        var q :| q in w.accepted && w.accepted[q] == d;
        assert q != r ==> q in next.accepted && next.accepted[q] == d;
      }
      if d in Sockets(next) {
        var q :| q in next.accepted && next.accepted[q] == d;
        assert w.accepted[q] == d;
      }
    }
    assert w.accepted[r] !in Sockets(next);
  }

  /** And passing stays within reach: some schedule closes the fixture's remaining sockets,
      however many there are, and passes. */
  lemma {:induction false} DrainPasses(baseline: set<Identity>, w: World) returns (schedule: seq<Step>)
    requires Inv(w) && w.phase.Waiting? && w.holder.Free? && NonFixture(w) == baseline && Dead(w) == {}
    ensures var end := Steps(baseline, w, schedule); end.Some? && end.value.phase.Passed?
    decreases |w.requests|
  {
    hide Inv, NonFixture, Apply;
    if w.requests == map[] {
      schedule := [WakeUp(false), SecondSnapshot];
      NothingLeftPasses(baseline, w);
    } else {
      var r :| r in w.requests;
      assert r in w.accepted by { assert r !in Dead(w); }
      CloseOne(baseline, w, r);
      var close := CloseSteps(r, Closes);
      var rest := DrainPasses(baseline, Steps(baseline, w, close).value);
      schedule := close + rest;
      RunAppend(baseline, w, close, rest, |rest|);
    }
  }

  lemma NothingLeftPasses(baseline: set<Identity>, w: World)
    requires Inv(w) && w.phase.Waiting? && w.holder.Free? && NonFixture(w) == baseline && w.requests == map[]
    ensures var end := Steps(baseline, w, [WakeUp(false), SecondSnapshot]); end.Some? && end.value.phase.Passed?
  {
    var steps := [WakeUp(false), SecondSnapshot];
    var final := w.(holder := Asserting, phase := Final);
    assert w.accepted.Keys == {};
    assert Sockets(w) == {};
    assert NonFixture(w) == Snapshot(w.table);
    assert Run(baseline, w, steps, 1) == Some(final);
  }

  // A dead record is never forgotten, so the wait for an empty record never ends well.
  lemma {:induction false} DeadNeverPasses(baseline: set<Identity>, w: World, schedule: seq<Step>, n: nat)
    requires Inv(w) && w.phase.Waiting? && Dead(w) - StillRecorded(w) != {}
    requires n <= |schedule| && Run(baseline, w, schedule, n).Some?
    ensures var end := Run(baseline, w, schedule, n).value;
            Inv(end) && Dead(end) - StillRecorded(end) != {} && (end.phase.Waiting? || end.phase.Failed?)
  {
    hide Apply, Inv, Dead, StillRecorded;
    if n > 0 {
      DeadNeverPasses(baseline, w, schedule, n - 1);
      var before := Run(baseline, w, schedule, n - 1).value;
      StepKeepsInv(baseline, before, schedule[n - 1]);
      DeadStep(baseline, before, schedule[n - 1]);
      WaitGoesOn(baseline, before, schedule[n - 1]);
    }
  }

  lemma WaitGoesOn(baseline: set<Identity>, w: World, st: Step)
    requires Dead(w) != {} && (w.phase.Waiting? || w.phase.Failed?) && Apply(baseline, w, st).Some?
    ensures var p := Apply(baseline, w, st).value.phase; p.Waiting? || p.Failed?
  {
    hide Snapshot, Sockets;
    assert w.requests.Keys != {};
  }

  /** From a wait that began clean the check can still pass exactly when no record is dead. */
  lemma PassableIff(baseline: set<Identity>, w: World)
    requires Inv(w) && w.phase.Waiting? && w.holder.Free? && NonFixture(w) == baseline
    ensures (exists schedule ::
               var end := Steps(baseline, w, schedule); end.Some? && end.value.phase.Passed?) <==> Dead(w) == {}
  {
    hide Inv, NonFixture, Apply, Run;
    if Dead(w) == {} {
      var schedule := DrainPasses(baseline, w);
      assert Steps(baseline, w, schedule).value.phase.Passed?;
    } else {
      assert StillRecorded(w) == {};
      forall schedule | Steps(baseline, w, schedule).Some? ensures !Steps(baseline, w, schedule).value.phase.Passed? {
        DeadNeverPasses(baseline, w, schedule, |schedule|);
      }
    }
  }

  // One socket accepted, a check that begins clean and waits, a close that raises after all.
  function DeadSchedule(r: Request, fd: Fd, meta: Meta): seq<Step> {
    AcceptSteps(r, fd, meta, true, true) + ([TryAssert, CheckOne(r), FirstSnapshot] + CloseSteps(r, ClosesAndRaises))
  }

  lemma StepsAppend(baseline: set<Identity>, w: World, a: seq<Step>, b: seq<Step>)
    requires Steps(baseline, w, a).Some?
    ensures Steps(baseline, w, a + b) == Steps(baseline, Steps(baseline, w, a).value, b)
  {
    RunAppend(baseline, w, a, b, |b|);
  }

  // The check over one open socket, uninterrupted, ends in the wait.
  lemma WaitsForOne(baseline: set<Identity>, w: World, r: Request)
    requires Inv(w) && w.holder.Free? && w.phase.NotStarted? && NonFixture(w) == baseline
    requires w.requests.Keys == w.accepted.Keys == {r}
    ensures var waiting := w.(phase := Waiting);
            Steps(baseline, w, [TryAssert, CheckOne(r), FirstSnapshot]) == Some(waiting) && Inv(waiting)
  {
    hide Inv, NonFixture, Snapshot, IdentityNow;
    var w1 := w.(holder := Asserting, phase := Checking({r}, {}));
    CheckBegins(w);
    CheckGoesOn(w1, r);
    var w2 := w1.(phase := Checking({r} - {r}, {} + {w.requests[r]}));
    CheckEnds(w2, w);
    assert IdentityNow(w1, r) == Some(w.requests[r]) by { IdentityOf(w1, r); }
    AreSteps(baseline, [w, w1, w2, w.(phase := Waiting)], [TryAssert, CheckOne(r), FirstSnapshot], 3);
  }

  lemma IdentityOf(w: World, r: Request)
    requires r in w.accepted && w.accepted[r] in w.table
    ensures IdentityNow(w, r) == Some((w.accepted[r], w.table[w.accepted[r]]))
  {
  }

  /** Such a record can be met: from every start there is a run that begins its wait clean
      and is left with nothing open but a dead record, so that it cannot pass. */
  lemma DeadIsReachable(w: World, r: Request, fd: Fd, meta: Meta)
    requires Start(w) && fd !in w.table
    ensures var baseline := Snapshot(w.table);
            var end := Steps(baseline, w, DeadSchedule(r, fd, meta));
            && end.Some? && end.value.phase.Waiting? && end.value.accepted == map[] && Dead(end.value) == {r}
            && end.value.table == w.table
            && forall more: seq<Step> :: Steps(baseline, end.value, more).Some? ==> !Steps(baseline, end.value, more).value.phase.Passed?
  {
    hide Inv, NonFixture, Snapshot, Run, Steps;
    var baseline := Snapshot(w.table);
    StartInv(w);
    AcceptIs(baseline, w, r, fd, meta, true, true);
    var open := AcceptResult(w, r, fd, meta, true, true);
    AcceptKeepsNonFixture(w, open, r, fd, meta);
    NoSocketsLeft(w);
    assert open.requests.Keys == {r} && open.accepted.Keys == {r};
    WaitsForOne(baseline, open, r);
    var waiting := open.(phase := Waiting);
    CloseIs(baseline, waiting, r, ClosesAndRaises);
    var end := CloseResult(waiting, r, ClosesAndRaises);
    StepsAppend(baseline, open, [TryAssert, CheckOne(r), FirstSnapshot], CloseSteps(r, ClosesAndRaises));
    StepsAppend(baseline, w, AcceptSteps(r, fd, meta, true, true),
                [TryAssert, CheckOne(r), FirstSnapshot] + CloseSteps(r, ClosesAndRaises));
    assert end.accepted == map[] && end.table == w.table && Dead(end) == {r};
    forall more: seq<Step> | Steps(baseline, end, more).Some? ensures !Steps(baseline, end, more).value.phase.Passed? {
      NeverPasses(baseline, end, more);
    }
  }

  lemma StartInv(w: World)
    requires Start(w)
    ensures Inv(w)
  {
  }

  lemma NeverPasses(baseline: set<Identity>, w: World, more: seq<Step>)
    requires Inv(w) && w.phase.Waiting? && w.holder.Free? && Dead(w) != {} && Steps(baseline, w, more).Some?
    ensures !Steps(baseline, w, more).value.phase.Passed?
  {
    DeadNeverPasses(baseline, w, more, |more|);
  }
}
