/** The intelligence-processing run: five bounded stages over a list of councils, any of
    which may raise at any call, and the run row that has to end in a truthful state. */
module IntelligenceBudget {
  import opened Prelude

  type Code = string

  datatype Stage = Refresh | Allocation | Extraction | Summary

  // aside: no usable text for extractions, rejected as ungrounded for allocations.
  datatype Report = Report(inspected: nat, attempted: nat, succeeded: nat, aside: nat, failed: nat)
  {
    function Plus(r: Report): Report {
      Report(inspected + r.inspected, attempted + r.attempted, succeeded + r.succeeded, aside + r.aside, failed + r.failed)
    }
  }

  const NOTHING := Report(0, 0, 0, 0, 0)

  // One call of a stage for the council at a position, under a limit.
  datatype Call = Raises | Returns(report: Report)
  type Calls = (nat, int) -> Call

  datatype Limits = Limits(extractions: int, summaries: int, refresh: int, allocation: int, applicant: int,
                           allocationOn: bool, applicantOn: bool)

  // Everything the run meets: reads that may raise, stage calls, the environment and
  // whether each of the four commits goes through.
  datatype World = World(count: (Stage, Code) -> Option<nat>, recount: (Stage, Code) -> Option<nat>,
                         applicantCount: Option<nat>,
                         refresh: Calls, allocation: Calls, extraction: Calls, generate: (nat, int) -> Option<nat>,
                         applicant: int -> Call, key: bool, clientBuilds: bool,
                         openCommit: bool, keyCommit: bool, failCommit: bool, finalCommit: bool)

  /* ----- one stage's budget, on its own ----- */

  datatype Account = Account(remaining: int, report: Report)

  // After the first n councils; None once a call has raised.
  function AccountAt(planned: int, backlog: seq<nat>, calls: Calls, n: nat): Option<Account>
    requires n <= |backlog|
  {
    if n == 0 then Some(Account(planned, NOTHING))
    else
      var a := AccountAt(planned, backlog, calls, n - 1);
      if a.None? then None else Charge(a.value, backlog[n - 1], calls, n - 1)
  }

  function Charge(a: Account, backlog: nat, calls: Calls, i: nat): Option<Account> {
    if a.remaining > 0 && backlog > 0 then
      var call := calls(i, a.remaining);
      if call.Raises? then None
      else Some(Account(a.remaining - call.report.attempted, a.report.Plus(call.report)))
    else Some(a)
  }

  function Min(a: int, b: int): int {
    if a < b then a else b
  }

  // The summary stage reports only how many it generated; it is charged for all it
  // could have attempted.
  function SummaryCall(backlog: seq<nat>, generated: Option<nat>, i: nat, limit: int): Call {
    if generated.None? then Raises
    else
      var planned := if i < |backlog| && limit > 0 then Min(limit, backlog[i]) else 0;
      Returns(Report(0, planned, generated.value, 0, if planned > generated.value then planned - generated.value else 0))
  }

  function SummaryCalls(backlog: seq<nat>, generate: (nat, int) -> Option<nat>): Calls {
    (i: nat, limit: int) => SummaryCall(backlog, generate(i, limit), i, limit)
  }

  ghost predicate WithinLimit(calls: Calls) {
    forall i, limit :: calls(i, limit).Returns? && limit > 0 ==> calls(i, limit).report.attempted <= limit
  }

  /** Nothing is created or lost: what is left plus what was attempted is what was planned. */
  lemma {:induction false} Conserved(planned: int, backlog: seq<nat>, calls: Calls, n: nat)
    requires n <= |backlog| && AccountAt(planned, backlog, calls, n).Some?
    ensures var a := AccountAt(planned, backlog, calls, n).value; a.remaining + a.report.attempted == planned
  {
    if n > 0 {
      Conserved(planned, backlog, calls, n - 1);
    }
  }

  /** A stage that keeps to its limits never overdraws, so its attempts over all councils
      stay within the plan; a negative plan attempts nothing. */
  lemma {:induction false} NeverOverdrawn(planned: int, backlog: seq<nat>, calls: Calls, n: nat)
    requires n <= |backlog| && AccountAt(planned, backlog, calls, n).Some? && WithinLimit(calls)
    ensures var a := AccountAt(planned, backlog, calls, n).value;
            if planned < 0 then a == Account(planned, NOTHING) else 0 <= a.remaining && a.report.attempted <= planned
  {
    Conserved(planned, backlog, calls, n);
    if n > 0 {
      NeverOverdrawn(planned, backlog, calls, n - 1);
    }
  }

  function Sum(backlog: seq<nat>): nat {
    if backlog == [] then 0 else Sum(backlog[..|backlog| - 1]) + backlog[|backlog| - 1]
  }

  lemma SummaryCharge(a: Account, backlog: seq<nat>, generate: (nat, int) -> Option<nat>, i: nat)
    requires i < |backlog|
    ensures var after := Charge(a, backlog[i], SummaryCalls(backlog, generate), i);
            after.Some? ==>
              after.value.report.attempted == a.report.attempted + (if a.remaining > 0 then Min(a.remaining, backlog[i]) else 0)
  {
    CallIs(backlog, generate, i, a.remaining);
  }

  lemma CallIs(backlog: seq<nat>, generate: (nat, int) -> Option<nat>, i: nat, limit: int)
    ensures SummaryCalls(backlog, generate)(i, limit) == SummaryCall(backlog, generate(i, limit), i, limit)
  {
  }

  lemma SummariesWithinLimit(backlog: seq<nat>, generate: (nat, int) -> Option<nat>)
    ensures WithinLimit(SummaryCalls(backlog, generate))
  {
    forall i, limit {
      CallIs(backlog, generate, i, limit);
    }
  }

  /** Greedy charging drains the summary budget exactly. */
  lemma {:induction false} SummariesExact(planned: int, backlog: seq<nat>, generate: (nat, int) -> Option<nat>, n: nat)
    requires 0 <= planned && n <= |backlog|
    requires AccountAt(planned, backlog, SummaryCalls(backlog, generate), n).Some?
    ensures AccountAt(planned, backlog, SummaryCalls(backlog, generate), n).value.report.attempted
            == Min(planned, Sum(backlog[..n]))
  {
    var calls := SummaryCalls(backlog, generate);
    if n > 0 {
      SummariesExact(planned, backlog, generate, n - 1);
      Conserved(planned, backlog, calls, n - 1);
      SummaryCharge(AccountAt(planned, backlog, calls, n - 1).value, backlog, generate, n - 1);
      assert backlog[..n][..n - 1] == backlog[..n - 1];
      assert Sum(backlog[..n]) == Sum(backlog[..n - 1]) + backlog[n - 1];
    }
  }

  // The n-th council generated at most what it was charged for.
  predicate WithinCharge(planned: int, backlog: seq<nat>, generate: (nat, int) -> Option<nat>, i: nat)
    requires i < |backlog|
  {
    var a := AccountAt(planned, backlog, SummaryCalls(backlog, generate), i);
    a.Some? && a.value.remaining > 0 && backlog[i] > 0 && generate(i, a.value.remaining).Some? ==>
      generate(i, a.value.remaining).value <= Min(a.value.remaining, backlog[i])
  }

  /** succeeded + failed never falls short of attempted, and equals it exactly when no
      council generated more than it was charged for. */
  lemma {:induction false} SummariesAddUpIff(planned: int, backlog: seq<nat>, generate: (nat, int) -> Option<nat>, n: nat)
    requires n <= |backlog| && AccountAt(planned, backlog, SummaryCalls(backlog, generate), n).Some?
    ensures var r := AccountAt(planned, backlog, SummaryCalls(backlog, generate), n).value.report;
            && r.succeeded + r.failed >= r.attempted
            && (r.succeeded + r.failed == r.attempted <==>
                  forall i: nat | i < n :: WithinCharge(planned, backlog, generate, i))
  {
    if n > 0 {
      SummariesAddUpIff(planned, backlog, generate, n - 1);
      assert WithinCharge(planned, backlog, generate, n - 1) || !WithinCharge(planned, backlog, generate, n - 1);
    }
  }

  // What the call for council i generated, the councils before it having used up their
  // backlogs of the budget.
  function Generated(planned: int, backlog: seq<nat>, generate: (nat, int) -> Option<nat>, i: nat): nat
    requires i < |backlog|
  {
    var limit := planned - Sum(backlog[..i]);
    if limit > 0 && backlog[i] > 0 && generate(i, limit).Some? then generate(i, limit).value else 0
  }

  // By how much it fell short of what it could have attempted.
  function Missed(planned: int, backlog: seq<nat>, generate: (nat, int) -> Option<nat>, i: nat): nat
    requires i < |backlog|
  {
    var limit := planned - Sum(backlog[..i]);
    var possible := if limit < backlog[i] then limit else backlog[i];
    if limit > 0 && backlog[i] > 0 && generate(i, limit).Some? && generate(i, limit).value < possible
    then possible - generate(i, limit).value else 0
  }

  function GeneratedBy(planned: int, backlog: seq<nat>, generate: (nat, int) -> Option<nat>, n: nat): nat
    requires n <= |backlog|
  {
    if n == 0 then 0 else GeneratedBy(planned, backlog, generate, n - 1) + Generated(planned, backlog, generate, n - 1)
  }

  function MissedBy(planned: int, backlog: seq<nat>, generate: (nat, int) -> Option<nat>, n: nat): nat
    requires n <= |backlog|
  {
    if n == 0 then 0 else MissedBy(planned, backlog, generate, n - 1) + Missed(planned, backlog, generate, n - 1)
  }

  // What is left for council n, without running the account.
  lemma SummaryLimit(planned: int, backlog: seq<nat>, generate: (nat, int) -> Option<nat>, n: nat)
    requires n <= |backlog| && AccountAt(planned, backlog, SummaryCalls(backlog, generate), n).Some?
    ensures var left := AccountAt(planned, backlog, SummaryCalls(backlog, generate), n).value.remaining;
            && (left > 0 <==> planned - Sum(backlog[..n]) > 0) && (left > 0 ==> left == planned - Sum(backlog[..n]))
  {
    if planned >= 0 {
      SummariesExact(planned, backlog, generate, n);
    } else {
      SummariesWithinLimit(backlog, generate);
      NeverOverdrawn(planned, backlog, SummaryCalls(backlog, generate), n);
    }
    Conserved(planned, backlog, SummaryCalls(backlog, generate), n);
  }

  lemma SummaryCountersStep(a: Account, backlog: seq<nat>, generate: (nat, int) -> Option<nat>, i: nat)
    requires i < |backlog| && Charge(a, backlog[i], SummaryCalls(backlog, generate), i).Some?
    ensures var r := Charge(a, backlog[i], SummaryCalls(backlog, generate), i).value.report;
            var possible := if a.remaining < backlog[i] then a.remaining else backlog[i];
            if a.remaining > 0 && backlog[i] > 0 then
              && generate(i, a.remaining).Some?
              && r.succeeded == a.report.succeeded + generate(i, a.remaining).value
              && r.failed == a.report.failed + (if generate(i, a.remaining).value < possible
                                                then possible - generate(i, a.remaining).value else 0)
              && r.inspected == a.report.inspected && r.aside == a.report.aside
            else r == a.report
  {
    CallIs(backlog, generate, i, a.remaining);
  }

  /** The summary counters of a whole run: succeeded is what the calls made generated,
      failed is what they fell short, call by call. */
  lemma {:induction false} SummaryCounters(planned: int, backlog: seq<nat>, generate: (nat, int) -> Option<nat>, n: nat)
    requires n <= |backlog| && AccountAt(planned, backlog, SummaryCalls(backlog, generate), n).Some?
    ensures var r := AccountAt(planned, backlog, SummaryCalls(backlog, generate), n).value.report;
            && r.succeeded == GeneratedBy(planned, backlog, generate, n) && r.failed == MissedBy(planned, backlog, generate, n)
            && r.inspected == 0 && r.aside == 0
  {
    hide SummaryCalls, Charge, Sum;
    if n > 0 {
      SummaryCounters(planned, backlog, generate, n - 1);
      SummaryLimit(planned, backlog, generate, n - 1);
      SummaryCountersStep(AccountAt(planned, backlog, SummaryCalls(backlog, generate), n - 1).value, backlog, generate, n - 1);
    }
  }

  lemma {:induction false} NothingMissedIff(planned: int, backlog: seq<nat>, generate: (nat, int) -> Option<nat>, n: nat)
    requires n <= |backlog|
    ensures MissedBy(planned, backlog, generate, n) == 0 <==> forall i: nat | i < n :: Missed(planned, backlog, generate, i) == 0
  {
    if n > 0 {
      NothingMissedIff(planned, backlog, generate, n - 1);
    }
  }

  lemma {:induction false} GeneratedInFull(planned: int, backlog: seq<nat>, generate: (nat, int) -> Option<nat>, n: nat)
    requires n <= |backlog|
    requires forall i, limit | 0 <= i < n && limit > 0 && backlog[i] > 0 ::
               generate(i, limit) == Some(if limit < backlog[i] then limit else backlog[i])
    ensures forall i: nat | i < n :: Missed(planned, backlog, generate, i) == 0
    ensures GeneratedBy(planned, backlog, generate, n) == if planned < 0 then 0 else Min(planned, Sum(backlog[..n]))
  {
    if n > 0 {
      GeneratedInFull(planned, backlog, generate, n - 1);
      assert backlog[..n][..n - 1] == backlog[..n - 1];
    }
  }

  /** Calls that generate all they may leave no failure: every attempt succeeded. */
  lemma AllGenerated(planned: int, backlog: seq<nat>, generate: (nat, int) -> Option<nat>, n: nat)
    requires n <= |backlog| && AccountAt(planned, backlog, SummaryCalls(backlog, generate), n).Some?
    requires forall i, limit | 0 <= i < n && limit > 0 && backlog[i] > 0 ::
               generate(i, limit) == Some(if limit < backlog[i] then limit else backlog[i])
    ensures var r := AccountAt(planned, backlog, SummaryCalls(backlog, generate), n).value.report;
            r.failed == 0 && r.succeeded == r.attempted
  {
    SummaryCounters(planned, backlog, generate, n);
    GeneratedInFull(planned, backlog, generate, n);
    NothingMissedIff(planned, backlog, generate, n);
    if planned >= 0 {
      SummariesExact(planned, backlog, generate, n);
    } else {
      SummariesWithinLimit(backlog, generate);
      NeverOverdrawn(planned, backlog, SummaryCalls(backlog, generate), n);
    }
  }

  /* ----- any stage's counters, from the reports of its calls ----- */

  datatype Counter = Inspected | Attempted | Succeeded | Aside | FailedItems

  function Read(r: Report, c: Counter): nat {
    match c
    case Inspected => r.inspected
    case Attempted => r.attempted
    case Succeeded => r.succeeded
    case Aside => r.aside
    case FailedItems => r.failed
  }

  function SumOf(reports: seq<Report>, c: Counter): nat {
    if reports == [] then 0 else SumOf(reports[..|reports| - 1], c) + Read(reports[|reports| - 1], c)
  }

  // What the calls made for the first n councils returned: one is made for each council
  // with a backlog while the attempts so far are fewer than planned.
  function Made(planned: int, backlog: seq<nat>, calls: Calls, n: nat): seq<Report>
    requires n <= |backlog|
  {
    if n == 0 then []
    else
      var before := Made(planned, backlog, calls, n - 1);
      var limit := planned - SumOf(before, Attempted);
      if limit > 0 && backlog[n - 1] > 0 && calls(n - 1, limit).Returns? then before + [calls(n - 1, limit).report] else before
  }

  lemma SumAppend(reports: seq<Report>, r: Report, c: Counter)
    ensures SumOf(reports + [r], c) == SumOf(reports, c) + Read(r, c)
  {
    assert (reports + [r])[..|reports|] == reports;
  }

  lemma NothingRead(c: Counter)
    ensures Read(NOTHING, c) == 0
  {
  }

  lemma AttemptedIsRead(r: Report)
    ensures Read(r, Attempted) == r.attempted
  {
  }

  lemma ReadCharge(a: Account, backlog: nat, calls: Calls, i: nat, c: Counter)
    requires Charge(a, backlog, calls, i).Some?
    ensures Read(Charge(a, backlog, calls, i).value.report, c)
            == Read(a.report, c)
               + (if a.remaining > 0 && backlog > 0 && calls(i, a.remaining).Returns? then Read(calls(i, a.remaining).report, c) else 0)
    ensures a.remaining > 0 && backlog > 0 ==> calls(i, a.remaining).Returns?
  {
  }

  /** Every counter of a stage is the sum of that counter over the calls it made. */
  lemma {:induction false} CountersAreSums(planned: int, backlog: seq<nat>, calls: Calls, n: nat, c: Counter)
    requires n <= |backlog| && AccountAt(planned, backlog, calls, n).Some?
    ensures Read(AccountAt(planned, backlog, calls, n).value.report, c) == SumOf(Made(planned, backlog, calls, n), c)
  {
    hide Read, Charge;
    if n == 0 {
      assert Read(NOTHING, c) == 0 by { NothingRead(c); }
    } else {
      CountersAreSums(planned, backlog, calls, n - 1, c);
      CountersAreSums(planned, backlog, calls, n - 1, Attempted);
      Conserved(planned, backlog, calls, n - 1);
      AttemptedIsRead(AccountAt(planned, backlog, calls, n - 1).value.report);
      ReadCharge(AccountAt(planned, backlog, calls, n - 1).value, backlog[n - 1], calls, n - 1, c);
      var before := Made(planned, backlog, calls, n - 1);
      var limit := planned - SumOf(before, Attempted);
      if limit > 0 && backlog[n - 1] > 0 && calls(n - 1, limit).Returns? {
        SumAppend(before, calls(n - 1, limit).report, c);
      }
    }
  }

  /* ----- the four stages of a run ----- */

  function On(l: Limits, s: Stage): bool {
    s == Allocation ==> l.allocationOn
  }

  function Cap(l: Limits, s: Stage): int {
    match s
    case Refresh => l.refresh
    case Allocation => l.allocation
    case Extraction => l.extractions
    case Summary => l.summaries
  }

  function CountOf(w: World, l: Limits, s: Stage, c: Code): Option<nat> {
    if On(l, s) then w.count(s, c) else Some(0)
  }

  predicate Counted(w: World, l: Limits, s: Stage, codes: seq<Code>) {
    forall c | c in codes :: CountOf(w, l, s, c).Some?
  }

  function Backlog(w: World, l: Limits, s: Stage, codes: seq<Code>): (b: seq<nat>)
    requires Counted(w, l, s, codes)
    ensures |b| == |codes|
  {
    seq(|codes|, i requires 0 <= i < |codes| => CountOf(w, l, s, codes[i]).value)
  }

  // A dictionary keyed by code: a repeated code counts once.
  function Total(w: World, l: Limits, s: Stage, codes: seq<Code>): nat
    requires Counted(w, l, s, codes)
  {
    if codes == [] then 0
    else
      var init, last := codes[..|codes| - 1], codes[|codes| - 1];
      Total(w, l, s, init) + (if last in init then 0 else CountOf(w, l, s, last).value)
  }

  lemma {:induction false} TotalWithinSum(w: World, l: Limits, s: Stage, codes: seq<Code>)
    requires Counted(w, l, s, codes)
    ensures Total(w, l, s, codes) <= Sum(Backlog(w, l, s, codes))
    decreases |codes|
  {
    if codes != [] {
      var init := codes[..|codes| - 1];
      TotalWithinSum(w, l, s, init);
      assert Backlog(w, l, s, codes)[..|init|] == Backlog(w, l, s, init);
    }
  }

  function Planned(w: World, l: Limits, s: Stage, codes: seq<Code>): int
    requires Counted(w, l, s, codes)
  {
    if On(l, s) then Min(Cap(l, s), Total(w, l, s, codes)) else 0
  }

  /** What each stage may attempt: the smaller of its own cap and its own backlog, and
      nothing for a disabled one. */
  lemma PlannedIs(w: World, l: Limits, codes: seq<Code>)
    requires Counted(w, l, Refresh, codes) && Counted(w, l, Allocation, codes)
    requires Counted(w, l, Extraction, codes) && Counted(w, l, Summary, codes)
    ensures var (r, a) := (Total(w, l, Refresh, codes), Total(w, l, Allocation, codes));
            var (e, m) := (Total(w, l, Extraction, codes), Total(w, l, Summary, codes));
            && Planned(w, l, Refresh, codes) == (if l.refresh < r then l.refresh else r)
            && Planned(w, l, Extraction, codes) == (if l.extractions < e then l.extractions else e)
            && Planned(w, l, Summary, codes) == (if l.summaries < m then l.summaries else m)
            && Planned(w, l, Allocation, codes) == (if !l.allocationOn then 0 else if l.allocation < a then l.allocation else a)
  {
    hide Total;
  }

  /** The backlog is summed over the councils, a repeated one counted once; a disabled
      stage has none. */
  lemma {:induction false} TotalOnce(w: World, l: Limits, s: Stage, codes: seq<Code>, c: Code)
    requires Counted(w, l, s, codes + [c])
    ensures Counted(w, l, s, codes)
    ensures var n := if s == Allocation && !l.allocationOn then Some(0) else w.count(s, c);
            && n.Some?
            && Total(w, l, s, codes + [c]) == if c in codes then Total(w, l, s, codes) else Total(w, l, s, codes) + n.value
    ensures Total(w, l, s, []) == 0
  {
    assert c in codes + [c] && (codes + [c])[..|codes|] == codes;
    forall d | d in codes ensures d in codes + [c] {}
  }

  function CallsOf(w: World, l: Limits, s: Stage, codes: seq<Code>): Calls
    requires Counted(w, l, s, codes)
  {
    match s
    case Refresh => w.refresh
    case Allocation => w.allocation
    case Extraction => w.extraction
    case Summary => SummaryCalls(Backlog(w, l, s, codes), w.generate)
  }

  // A stage's account depends on its own counts, cap and calls, and on nothing any
  // other stage does.
  function StageAt(w: World, l: Limits, s: Stage, codes: seq<Code>, n: nat): Option<Account>
    requires Counted(w, l, s, codes) && n <= |codes|
  {
    AccountAt(Planned(w, l, s, codes), Backlog(w, l, s, codes), CallsOf(w, l, s, codes), n)
  }

  /** Over a whole run the summaries attempted are exactly the smaller of the cap and the
      backlog, however the other stages fare and even if a council is listed twice. */
  lemma SummariesAttempted(w: World, l: Limits, codes: seq<Code>)
    requires Counted(w, l, Summary, codes) && StageAt(w, l, Summary, codes, |codes|).Some?
    ensures StageAt(w, l, Summary, codes, |codes|).value.report.attempted
            == if l.summaries < 0 then 0 else Min(l.summaries, Total(w, l, Summary, codes))
  {
    var planned, backlog := Planned(w, l, Summary, codes), Backlog(w, l, Summary, codes);
    TotalWithinSum(w, l, Summary, codes);
    assert backlog[..|codes|] == backlog;
    if planned >= 0 {
      SummariesExact(planned, backlog, w.generate, |codes|);
    } else {
      SummariesWithinLimit(backlog, w.generate);
      NeverOverdrawn(planned, backlog, SummaryCalls(backlog, w.generate), |codes|);
    }
  }

  lemma {:induction false} TotalUnaffected(v: World, w: World, l: Limits, m: Limits, s: Stage, codes: seq<Code>)
    requires Counted(v, l, s, codes) && forall c | c in codes :: CountOf(v, l, s, c) == CountOf(w, m, s, c)
    ensures Counted(w, m, s, codes) && Total(v, l, s, codes) == Total(w, m, s, codes)
    decreases |codes|
  {
    if codes != [] {
      TotalUnaffected(v, w, l, m, s, codes[..|codes| - 1]);
    }
  }

  // Two runs give a stage the same cap, the same counts and the same behaviour.
  ghost predicate SameStage(v: World, w: World, l: Limits, m: Limits, s: Stage, codes: seq<Code>) {
    && On(l, s) == On(m, s) && Cap(l, s) == Cap(m, s)
    && (forall c | c in codes :: v.count(s, c) == w.count(s, c))
    && (match s
        case Refresh => v.refresh == w.refresh
        case Allocation => v.allocation == w.allocation
        case Extraction => v.extraction == w.extraction
        case Summary => v.generate == w.generate)
  }

  /** No stage can starve or feed another: two runs that agree on one stage's own cap,
      counts and calls allow and spend the same on it, council by council, whatever the
      other stages attempt, fail at or are allowed in either. */
  lemma StageUnaffected(v: World, w: World, l: Limits, m: Limits, s: Stage, codes: seq<Code>, n: nat)
    requires n <= |codes| && Counted(v, l, s, codes) && SameStage(v, w, l, m, s, codes)
    ensures Counted(w, m, s, codes) && StageAt(v, l, s, codes, n) == StageAt(w, m, s, codes, n)
  {
    TotalUnaffected(v, w, l, m, s, codes);
    assert Backlog(v, l, s, codes) == Backlog(w, m, s, codes);
    assert CallsOf(v, l, s, codes) == CallsOf(w, m, s, codes);
  }

  /* ----- the run row ----- */

  datatype Status = Running | Success | Partial | Failed
  datatype Detail = NoDetail | NoWork | KeyMissing | RunLevelFailure | Counts

  datatype Reports = Reports(refresh: Report, allocation: Report, extraction: Report, summary: Report)
  {
    function Of(s: Stage): Report {
      match s
      case Refresh => refresh
      case Allocation => allocation
      case Extraction => extraction
      case Summary => summary
    }
  }

  const NO_REPORTS := Reports(NOTHING, NOTHING, NOTHING, NOTHING)

  // What is still outstanding after the run, as recounted; allocations only if enabled.
  datatype Outstanding = Unknown | Outstanding(applications: nat, sites: nat, allocations: Option<nat>)

  datatype Row = Row(status: Status, finished: bool, detail: Detail, reports: Reports, outstanding: Outstanding)

  const OPENING := Row(Running, false, NoDetail, NO_REPORTS, Unknown)

  class IntelligenceRun {
    var status: Status
    var finished: bool
    var detail: Detail
    var reports: Reports
    var outstanding: Outstanding
    var durable: Option<Row>

    constructor ()
      ensures View() == OPENING && durable == None
    {
      status, finished, detail, reports := Running, false, NoDetail, NO_REPORTS;
      outstanding, durable := Unknown, None;
    }

    function View(): Row
      reads this
    {
      Row(status, finished, detail, reports, outstanding)
    }

    method Commit(ok: bool)
      modifies this`durable
      ensures durable == if ok then Some(View()) else old(durable)
    {
      if ok {
        durable := Some(View());
      }
    }
  }

  datatype Failure =
    CountFailed | NoKey | ClientFailed | UnknownCouncil | StageFailed | ApplicantFailed | CommitFailed | RecountFailed

  predicate AllCounted(w: World, l: Limits, codes: seq<Code>) {
    && Counted(w, l, Refresh, codes) && Counted(w, l, Allocation, codes)
    && Counted(w, l, Extraction, codes) && Counted(w, l, Summary, codes)
    && (l.applicantOn ==> w.applicantCount.Some?)
  }

  function ApplicantPlanned(w: World, l: Limits): int {
    if l.applicantOn && w.applicantCount.Some? then Min(l.applicant, w.applicantCount.value) else 0
  }

  predicate Idle(w: World, l: Limits, codes: seq<Code>)
    requires AllCounted(w, l, codes)
  {
    && Planned(w, l, Refresh, codes) == 0 && Planned(w, l, Allocation, codes) == 0
    && Planned(w, l, Extraction, codes) == 0 && Planned(w, l, Summary, codes) == 0
    && ApplicantPlanned(w, l) == 0
  }

  predicate HasWork(w: World, l: Limits, codes: seq<Code>)
    requires AllCounted(w, l, codes)
  {
    || Planned(w, l, Refresh, codes) > 0 || Planned(w, l, Allocation, codes) > 0
    || Planned(w, l, Extraction, codes) > 0 || Planned(w, l, Summary, codes) > 0
    || ApplicantPlanned(w, l) > 0
  }

  predicate NoNegativeCap(l: Limits) {
    l.refresh >= 0 && l.extractions >= 0 && l.summaries >= 0
    && (l.allocationOn ==> l.allocation >= 0) && (l.applicantOn ==> l.applicant >= 0)
  }

  /** Without work the run stops before asking for a paid client exactly when no enabled
      cap is negative: a negative cap alone makes it ask for a client it will never use.
      With work it never stops there. */
  lemma ClientOnlyForWorkIff(w: World, l: Limits, codes: seq<Code>)
    requires AllCounted(w, l, codes)
    ensures HasWork(w, l, codes) ==> !Idle(w, l, codes)
    ensures !HasWork(w, l, codes) ==> (Idle(w, l, codes) <==> NoNegativeCap(l))
  {
    hide Total;
  }

  lemma ApplicantPlannedIs(w: World, l: Limits, n: nat)
    requires w.applicantCount == Some(n)
    ensures ApplicantPlanned(w, l) == if !l.applicantOn then 0 else if l.applicant < n then l.applicant else n
  {
  }

  /** With positive caps a run is idle exactly when no enabled stage has a backlog anywhere. */
  lemma IdleIff(w: World, l: Limits, codes: seq<Code>)
    requires AllCounted(w, l, codes)
    requires l.refresh > 0 && l.extractions > 0 && l.summaries > 0 && l.allocation > 0 && l.applicant > 0
    ensures Idle(w, l, codes) <==>
              && (forall s: Stage, c: Code | c in codes && (s == Allocation ==> l.allocationOn) :: w.count(s, c) == Some(0))
              && (l.applicantOn ==> w.applicantCount == Some(0))
  {
    hide Total;
    NoBacklogIff(w, l, Refresh, codes);
    NoBacklogIff(w, l, Allocation, codes);
    NoBacklogIff(w, l, Extraction, codes);
    NoBacklogIff(w, l, Summary, codes);
    PlannedIs(w, l, codes);
  }

  lemma {:induction false} NoBacklogIff(w: World, l: Limits, s: Stage, codes: seq<Code>)
    requires Counted(w, l, s, codes)
    ensures Total(w, l, s, codes) == 0 <==>
              forall c | c in codes && (s == Allocation ==> l.allocationOn) :: w.count(s, c) == Some(0)
    decreases |codes|
  {
    if codes != [] {
      var init, last := codes[..|codes| - 1], codes[|codes| - 1];
      NoBacklogIff(w, l, s, init);
      assert codes == init + [last];
      assert last in codes && forall c | c in init :: c in codes;
    }
  }

  predicate StagesReturn(w: World, l: Limits, codes: seq<Code>)
    requires AllCounted(w, l, codes)
  {
    && StageAt(w, l, Refresh, codes, |codes|).Some? && StageAt(w, l, Allocation, codes, |codes|).Some?
    && StageAt(w, l, Extraction, codes, |codes|).Some? && StageAt(w, l, Summary, codes, |codes|).Some?
  }

  predicate ApplicantReturns(w: World, l: Limits) {
    ApplicantPlanned(w, l) > 0 ==> w.applicant(ApplicantPlanned(w, l)).Returns?
  }

  // The guarded block runs to its end.
  predicate Completes(w: World, l: Limits, councils: set<Code>, codes: seq<Code>) {
    AllCounted(w, l, codes) &&
    (Idle(w, l, codes) ||
     (w.key && w.clientBuilds && AllKnown(councils, codes) && StagesReturn(w, l, codes) && ApplicantReturns(w, l)))
  }

  function Ordinal(s: Stage): nat {
    match s
    case Refresh => 0
    case Allocation => 1
    case Extraction => 2
    case Summary => 3
  }

  function Reached(s: Stage, i: nat, d: nat): nat {
    if Ordinal(s) < d then i + 1 else i
  }

  // What the counters hold once i councils are done and, for the next one, d stages.
  ghost predicate UpTo(w: World, l: Limits, codes: seq<Code>, reports: Reports, i: nat, d: nat) {
    && AllCounted(w, l, codes)
    && i <= |codes| && d <= 4 && (i == |codes| ==> d == 0)
    && forall s: Stage :: ReportAt(w, l, s, codes, Reached(s, i, d), reports.Of(s))
  }

  ghost predicate ReportAt(w: World, l: Limits, s: Stage, codes: seq<Code>, n: nat, r: Report) {
    && Counted(w, l, s, codes) && n <= |codes|
    && StageAt(w, l, s, codes, n).Some? && StageAt(w, l, s, codes, n).value.report == r
  }

  ghost predicate Final(w: World, l: Limits, codes: seq<Code>, reports: Reports) {
    UpTo(w, l, codes, reports, |codes|, 0)
  }

  /* ----- where a run of the councils stops ----- */

  predicate AllKnown(councils: set<Code>, codes: seq<Code>) {
    forall c | c in codes :: c in councils
  }

  // The first thing to raise: the lookup of council i (before any of its stages), or its
  // stage s.
  ghost predicate StoppedAt(w: World, l: Limits, councils: set<Code>, codes: seq<Code>, i: nat, s: Stage)
    requires AllCounted(w, l, codes)
  {
    && i < |codes| && (forall k | 0 <= k < i :: codes[k] in councils)
    && (if codes[i] in councils then StageAt(w, l, s, codes, i + 1).None? else s == Refresh)
  }

  // The counters hold exactly the calls that returned before that point.
  ghost predicate StoppedWith(w: World, l: Limits, councils: set<Code>, codes: seq<Code>, failure: Failure, reports: Reports, i: nat,
                              s: Stage)
    requires AllCounted(w, l, codes)
  {
    && StoppedAt(w, l, councils, codes, i, s) && UpTo(w, l, codes, reports, i, Ordinal(s))
    && failure == if codes[i] in councils then StageFailed else UnknownCouncil
  }

  ghost predicate Stopped(w: World, l: Limits, councils: set<Code>, codes: seq<Code>, failure: Failure, reports: Reports)
    requires AllCounted(w, l, codes)
  {
    exists i, s :: StoppedWith(w, l, councils, codes, failure, reports, i, s)
  }

  /** The order of the stages, in the counters of a run that stops at stage s of council i:
      refresh, allocation, extraction, summary; the earlier ones include that council. */
  lemma StoppedInOrder(w: World, l: Limits, councils: set<Code>, codes: seq<Code>, failure: Failure, reports: Reports, i: nat, s: Stage)
    requires AllCounted(w, l, codes) && StoppedWith(w, l, councils, codes, failure, reports, i, s)
    ensures ReportAt(w, l, Refresh, codes, if s == Refresh then i else i + 1, reports.refresh)
    ensures ReportAt(w, l, Allocation, codes, if s == Refresh || s == Allocation then i else i + 1, reports.allocation)
    ensures ReportAt(w, l, Extraction, codes, if s == Summary then i + 1 else i, reports.extraction)
    ensures ReportAt(w, l, Summary, codes, i, reports.summary)
    ensures failure == UnknownCouncil <==> codes[i] !in councils
    ensures failure == UnknownCouncil ==> s == Refresh
  {
    hide ReportAt, AllCounted;
    assert reports.Of(Refresh) == reports.refresh && reports.Of(Allocation) == reports.allocation;
    assert reports.Of(Extraction) == reports.extraction && reports.Of(Summary) == reports.summary;
  }

  // A stage that raised within the first m councils has not returned for the first n.
  lemma RaisedBefore(w: World, l: Limits, s: Stage, codes: seq<Code>, m: nat, n: nat)
    requires AllCounted(w, l, codes) && m <= n <= |codes| && StageAt(w, l, s, codes, m).None?
    ensures StageAt(w, l, s, codes, n).None?
  {
    OnceRaisedStays(Planned(w, l, s, codes), Backlog(w, l, s, codes), CallsOf(w, l, s, codes), m, n);
  }

  lemma NotLater(w: World, l: Limits, councils: set<Code>, codes: seq<Code>, reports: Reports, i: nat, s: Stage, j: nat, t: Stage)
    requires AllCounted(w, l, codes) && StoppedAt(w, l, councils, codes, i, s)
    requires StoppedAt(w, l, councils, codes, j, t) && UpTo(w, l, codes, reports, j, Ordinal(t))
    ensures j < i || (j == i && Ordinal(t) <= Ordinal(s))
  {
    hide AllCounted, StageAt;
    if i < j || (i == j && Ordinal(s) < Ordinal(t)) {
      assert i + 1 <= Reached(s, j, Ordinal(t));
      assert codes[i] in councils;
      assert ReportAt(w, l, s, codes, Reached(s, j, Ordinal(t)), reports.Of(s));
      RaisedBefore(w, l, s, codes, i + 1, Reached(s, j, Ordinal(t)));
    }
  }

  lemma SameOrdinal(s: Stage, t: Stage)
    requires Ordinal(s) == Ordinal(t)
    ensures s == t
  {
  }

  lemma SameCounters(w: World, l: Limits, codes: seq<Code>, a: Reports, b: Reports, i: nat, d: nat)
    requires UpTo(w, l, codes, a, i, d) && UpTo(w, l, codes, b, i, d)
    ensures a == b
  {
    hide StageAt;
    forall s: Stage ensures a.Of(s) == b.Of(s) {
      assert ReportAt(w, l, s, codes, Reached(s, i, d), a.Of(s)) && ReportAt(w, l, s, codes, Reached(s, i, d), b.Of(s));
    }
    assert a.Of(Refresh) == b.Of(Refresh) && a.Of(Allocation) == b.Of(Allocation);
    assert a.Of(Extraction) == b.Of(Extraction) && a.Of(Summary) == b.Of(Summary);
  }

  /** There is one stopping point, and so one failure and one set of counters. */
  lemma StoppedUnique(w: World, l: Limits, councils: set<Code>, codes: seq<Code>, f: Failure, a: Reports, g: Failure, b: Reports)
    requires AllCounted(w, l, codes) && Stopped(w, l, councils, codes, f, a) && Stopped(w, l, councils, codes, g, b)
    ensures f == g && a == b
  {
    hide AllCounted, StoppedAt, UpTo, Ordinal;
    var i, s :| StoppedWith(w, l, councils, codes, f, a, i, s);
    var j, t :| StoppedWith(w, l, councils, codes, g, b, j, t);
    NotLater(w, l, councils, codes, b, i, s, j, t);
    NotLater(w, l, councils, codes, a, j, t, i, s);
    SameOrdinal(s, t);
    SameCounters(w, l, codes, a, b, i, Ordinal(s));
  }

  /** What a failed block raises, and the counters it leaves: a function of what it met. */
  ghost predicate BlockFails(w: World, l: Limits, councils: set<Code>, codes: seq<Code>, failure: Failure, reports: Reports) {
    if !AllCounted(w, l, codes) then failure == CountFailed && reports == NO_REPORTS
    else if !w.key then failure == (if w.keyCommit then NoKey else CommitFailed) && reports == NO_REPORTS
    else if !w.clientBuilds then failure == ClientFailed && reports == NO_REPORTS
    else if AllKnown(councils, codes) && StagesReturn(w, l, codes) then failure == ApplicantFailed && Final(w, l, codes, reports)
    else Stopped(w, l, councils, codes, failure, reports)
  }

  lemma BlockFailsOneWay(w: World, l: Limits, councils: set<Code>, codes: seq<Code>, f: Failure, a: Reports, g: Failure, b: Reports)
    requires BlockFails(w, l, councils, codes, f, a) && BlockFails(w, l, councils, codes, g, b)
    ensures f == g && a == b
  {
    hide AllCounted, StagesReturn, AllKnown, Stopped, UpTo;
    if AllCounted(w, l, codes) && w.key && w.clientBuilds {
      if AllKnown(councils, codes) && StagesReturn(w, l, codes) {
        SameCounters(w, l, codes, a, b, |codes|, 0);
      } else {
        StoppedUnique(w, l, councils, codes, f, a, g, b);
      }
    }
  }

  /* ----- the guarded block ----- */

  lemma {:induction false} OnceRaisedStays(planned: int, backlog: seq<nat>, calls: Calls, m: nat, n: nat)
    requires m <= n <= |backlog| && AccountAt(planned, backlog, calls, m).None?
    ensures AccountAt(planned, backlog, calls, n).None?
  {
    if m < n {
      OnceRaisedStays(planned, backlog, calls, m, n - 1);
    }
  }

  lemma StageRaised(w: World, l: Limits, s: Stage, codes: seq<Code>, n: nat)
    requires AllCounted(w, l, codes) && n <= |codes| && StageAt(w, l, s, codes, n).None?
    ensures !StagesReturn(w, l, codes)
  {
    OnceRaisedStays(Planned(w, l, s, codes), Backlog(w, l, s, codes), CallsOf(w, l, s, codes), n, |codes|);
    match s
    case Refresh =>
    case Allocation =>
    case Extraction =>
    case Summary =>
  }

  // With nothing planned no call is made, whatever the backlog of a disabled stage.
  lemma {:induction false} NothingPlanned(backlog: seq<nat>, calls: Calls, n: nat)
    requires n <= |backlog|
    ensures AccountAt(0, backlog, calls, n) == Some(Account(0, NOTHING))
  {
    if n > 0 {
      NothingPlanned(backlog, calls, n - 1);
    }
  }

  lemma IdleIsFinal(w: World, l: Limits, codes: seq<Code>)
    requires AllCounted(w, l, codes) && Idle(w, l, codes)
    ensures Final(w, l, codes, NO_REPORTS)
  {
    forall s: Stage ensures ReportAt(w, l, s, codes, |codes|, NOTHING) {
      NothingPlanned(Backlog(w, l, s, codes), CallsOf(w, l, s, codes), |codes|);
    }
  }

  method CountBacklog(w: World, l: Limits, s: Stage, codes: seq<Code>)
    returns (backlog: Option<map<Code, nat>>, total: nat)
    ensures backlog.Some? <==> Counted(w, l, s, codes)
    ensures backlog.Some? ==> total == Total(w, l, s, codes)
    ensures backlog.Some? ==>
              forall c | c in codes :: c in backlog.value && backlog.value[c] == CountOf(w, l, s, c).value
  {
    var counts: map<Code, nat> := map[];
    total := 0;
    for i := 0 to |codes|
      invariant Counted(w, l, s, codes[..i]) && total == Total(w, l, s, codes[..i])
      invariant forall c :: c in counts <==> c in codes[..i]
      invariant forall c | c in counts :: counts[c] == CountOf(w, l, s, c).value
    {
      assert codes[..i + 1][..i] == codes[..i] && codes[..i + 1][i] == codes[i];
      var count := CountOf(w, l, s, codes[i]);
      if count.None? {
        assert codes[i] in codes;
        return None, 0;
      }
      if codes[i] !in counts {
        total := total + count.value;
      }
      counts := counts[codes[i] := count.value];
    }
    assert codes[..|codes|] == codes;
    backlog := Some(counts);
  }

  method Spend(a: Account, backlog: nat, calls: Calls, i: nat) returns (after: Option<Account>)
    ensures after == Charge(a, backlog, calls, i)
  {
    if a.remaining > 0 && backlog > 0 {
      var call := calls(i, a.remaining);
      if call.Raises? {
        return None;
      }
      var r := call.report;
      return Some(Account(a.remaining - r.attempted,
                          Report(a.report.inspected + r.inspected, a.report.attempted + r.attempted,
                                 a.report.succeeded + r.succeeded, a.report.aside + r.aside, a.report.failed + r.failed)));
    }
    after := Some(a);
  }

  method SpendOnSummaries(a: Account, backlog: seq<nat>, generate: (nat, int) -> Option<nat>, i: nat)
    returns (after: Option<Account>)
    requires i < |backlog|
    ensures after == Charge(a, backlog[i], SummaryCalls(backlog, generate), i)
  {
    CallIs(backlog, generate, i, a.remaining);
    if a.remaining > 0 && backlog[i] > 0 {
      var plannedHere := Min(a.remaining, backlog[i]);
      var generated := generate(i, a.remaining);
      if generated.None? {
        return None;
      }
      var failed := if plannedHere > generated.value then plannedHere - generated.value else 0;
      return Some(Account(a.remaining - plannedHere,
                          a.report.(attempted := a.report.attempted + plannedHere,
                                    succeeded := a.report.succeeded + generated.value,
                                    failed := a.report.failed + failed)));
    }
    after := Some(a);
  }

  lemma StageStep(w: World, l: Limits, s: Stage, codes: seq<Code>, i: nat)
    requires AllCounted(w, l, codes) && i < |codes| && StageAt(w, l, s, codes, i).Some?
    ensures StageAt(w, l, s, codes, i + 1)
            == Charge(StageAt(w, l, s, codes, i).value, CountOf(w, l, s, codes[i]).value, CallsOf(w, l, s, codes), i)
    ensures StageAt(w, l, s, codes, i + 1).None? ==> !StagesReturn(w, l, codes)
  {
    if StageAt(w, l, s, codes, i + 1).None? {
      StageRaised(w, l, s, codes, i + 1);
    }
  }

  // One stage for one council, under what is left of that stage's own budget.
  method Advance(w: World, l: Limits, s: Stage, codes: seq<Code>, i: nat, a: Account) returns (after: Option<Account>)
    requires AllCounted(w, l, codes) && i < |codes| && StageAt(w, l, s, codes, i) == Some(a)
    ensures after == StageAt(w, l, s, codes, i + 1)
    ensures after.None? ==> !StagesReturn(w, l, codes)
  {
    StageStep(w, l, s, codes, i);
    var backlog := CountOf(w, l, s, codes[i]).value;
    match s
    case Refresh => after := Spend(a, backlog, w.refresh, i);
    case Allocation => after := Spend(a, backlog, w.allocation, i);
    case Extraction => after := Spend(a, backlog, w.extraction, i);
    case Summary => after := SpendOnSummaries(a, Backlog(w, l, s, codes), w.generate, i);
  }

  ghost predicate Holds(w: World, l: Limits, codes: seq<Code>, i: nat, d: nat, r: Account, a: Account, e: Account, m: Account) {
    && AllCounted(w, l, codes) && i <= |codes| && d <= 4 && (i == |codes| ==> d == 0)
    && StageAt(w, l, Refresh, codes, Reached(Refresh, i, d)) == Some(r)
    && StageAt(w, l, Allocation, codes, Reached(Allocation, i, d)) == Some(a)
    && StageAt(w, l, Extraction, codes, Reached(Extraction, i, d)) == Some(e)
    && StageAt(w, l, Summary, codes, Reached(Summary, i, d)) == Some(m)
  }

  lemma HoldsUpTo(w: World, l: Limits, codes: seq<Code>, i: nat, d: nat, r: Account, a: Account, e: Account, m: Account)
    requires Holds(w, l, codes, i, d, r, a, e, m)
    ensures UpTo(w, l, codes, Reports(r.report, a.report, e.report, m.report), i, d)
  {
    var reports := Reports(r.report, a.report, e.report, m.report);
    forall s: Stage ensures ReportAt(w, l, s, codes, Reached(s, i, d), reports.Of(s)) {
      match s
      case Refresh =>
      case Allocation =>
      case Extraction =>
      case Summary =>
    }
  }

  lemma StagesReturnMeans(w: World, l: Limits, codes: seq<Code>, r: Account, a: Account, e: Account, m: Account)
    requires Holds(w, l, codes, |codes|, 0, r, a, e, m)
    ensures StagesReturn(w, l, codes)
    ensures Final(w, l, codes, Reports(r.report, a.report, e.report, m.report))
  {
    HoldsUpTo(w, l, codes, |codes|, 0, r, a, e, m);
  }

  // All councils in order, four stages each.
  method RunCouncils(w: World, l: Limits, councils: set<Code>, codes: seq<Code>)
    returns (failure: Option<Failure>, reports: Reports)
    requires AllCounted(w, l, codes)
    ensures failure.None? <==> AllKnown(councils, codes) && StagesReturn(w, l, codes)
    ensures failure.None? ==> Final(w, l, codes, reports)
    ensures failure.Some? ==> Stopped(w, l, councils, codes, failure.value, reports)
  {
    hide StagesReturn, AccountAt, Charge, CountOf, CallsOf, Backlog, UpTo, Final;
    var r, a := Account(Planned(w, l, Refresh, codes), NOTHING), Account(Planned(w, l, Allocation, codes), NOTHING);
    var e, m := Account(Planned(w, l, Extraction, codes), NOTHING), Account(Planned(w, l, Summary, codes), NOTHING);
    NothingSpent(w, l, codes);
    for i := 0 to |codes|
      invariant forall k | 0 <= k < i :: codes[k] in councils
      invariant Holds(w, l, codes, i, 0, r, a, e, m)
    {
      HoldsUpTo(w, l, codes, i, 0, r, a, e, m);
      reports := Reports(r.report, a.report, e.report, m.report);
      if codes[i] !in councils {
        assert StoppedWith(w, l, councils, codes, UnknownCouncil, reports, i, Refresh);
        return Some(UnknownCouncil), reports;
      }
      var after := Advance(w, l, Refresh, codes, i, r);
      if after.None? {
        assert StoppedWith(w, l, councils, codes, StageFailed, reports, i, Refresh);
        return Some(StageFailed), reports;
      }
      r := after.value;
      HoldsUpTo(w, l, codes, i, 1, r, a, e, m);
      after := Advance(w, l, Allocation, codes, i, a);
      reports := Reports(r.report, a.report, e.report, m.report);
      if after.None? {
        assert StoppedWith(w, l, councils, codes, StageFailed, reports, i, Allocation);
        return Some(StageFailed), reports;
      }
      a := after.value;
      HoldsUpTo(w, l, codes, i, 2, r, a, e, m);
      after := Advance(w, l, Extraction, codes, i, e);
      reports := Reports(r.report, a.report, e.report, m.report);
      if after.None? {
        assert StoppedWith(w, l, councils, codes, StageFailed, reports, i, Extraction);
        return Some(StageFailed), reports;
      }
      e := after.value;
      HoldsUpTo(w, l, codes, i, 3, r, a, e, m);
      after := Advance(w, l, Summary, codes, i, m);
      reports := Reports(r.report, a.report, e.report, m.report);
      if after.None? {
        assert StoppedWith(w, l, councils, codes, StageFailed, reports, i, Summary);
        return Some(StageFailed), reports;
      }
      m := after.value;
    }
    HoldsUpTo(w, l, codes, |codes|, 0, r, a, e, m);
    StagesReturnMeans(w, l, codes, r, a, e, m);
    failure, reports := None, Reports(r.report, a.report, e.report, m.report);
  }

  lemma NothingSpent(w: World, l: Limits, codes: seq<Code>)
    requires AllCounted(w, l, codes)
    ensures Holds(w, l, codes, 0, 0, Account(Planned(w, l, Refresh, codes), NOTHING),
                  Account(Planned(w, l, Allocation, codes), NOTHING), Account(Planned(w, l, Extraction, codes), NOTHING),
                  Account(Planned(w, l, Summary, codes), NOTHING))
  {
  }

  predicate KeyIsMissing(w: World, l: Limits, codes: seq<Code>) {
    AllCounted(w, l, codes) && !Idle(w, l, codes) && !w.key
  }

  const KEY_ROW := Row(Failed, true, KeyMissing, NO_REPORTS, Unknown)

  // The try block. The only writes to the row it makes itself are those of a missing key.
  method GuardedWork(w: World, l: Limits, councils: set<Code>, codes: seq<Code>, run: IntelligenceRun)
    returns (failure: Option<Failure>, reports: Reports, applicantFailed: nat, detail: Detail, clientAsked: bool)
    requires run.View() == OPENING
    modifies run
    ensures failure.None? <==> Completes(w, l, councils, codes)
    ensures failure.Some? ==> BlockFails(w, l, councils, codes, failure.value, reports)
    ensures failure.None? ==> Final(w, l, codes, reports) && applicantFailed == ApplicantFailures(w, l)
    ensures failure.None? ==> detail == if Idle(w, l, codes) then NoWork else Counts
    ensures clientAsked <==> AllCounted(w, l, codes) && !Idle(w, l, codes) && w.key
    ensures if KeyIsMissing(w, l, codes)
            then run.View() == KEY_ROW && reports == NO_REPORTS
                 && failure == Some(if w.keyCommit then NoKey else CommitFailed)
                 && run.durable == if w.keyCommit then Some(KEY_ROW) else old(run.durable)
            else run.View() == OPENING && run.durable == old(run.durable)
  {
    hide StageAt, StagesReturn, Total, UpTo, Stopped, AllKnown;
    failure, reports, applicantFailed, detail, clientAsked := None, NO_REPORTS, 0, NoWork, false;
    var extraction, totalExtraction := CountBacklog(w, l, Extraction, codes);
    if extraction.None? { failure := Some(CountFailed); return; }
    var summary, totalSummary := CountBacklog(w, l, Summary, codes);
    if summary.None? { failure := Some(CountFailed); return; }
    var refresh, totalRefresh := CountBacklog(w, l, Refresh, codes);
    if refresh.None? { failure := Some(CountFailed); return; }
    var allocation, totalAllocation := CountBacklog(w, l, Allocation, codes);
    if allocation.None? || (l.applicantOn && w.applicantCount.None?) { failure := Some(CountFailed); return; }
    var extractionsPlanned := Min(l.extractions, totalExtraction);
    var summariesPlanned := Min(l.summaries, totalSummary);
    var refreshPlanned := Min(l.refresh, totalRefresh);
    var allocationPlanned := if l.allocationOn then Min(l.allocation, totalAllocation) else 0;
    var applicantPlanned := if l.applicantOn then Min(l.applicant, w.applicantCount.value) else 0;
    if extractionsPlanned == 0 && summariesPlanned == 0 && refreshPlanned == 0 && allocationPlanned == 0 && applicantPlanned == 0 {
      IdleIsFinal(w, l, codes);
      return;
    }
    if !w.key {
      run.status, run.finished, run.detail := Failed, true, KeyMissing;
      run.Commit(w.keyCommit);
      failure := Some(if w.keyCommit then NoKey else CommitFailed);
      return;
    }
    clientAsked := true;
    if !w.clientBuilds { failure := Some(ClientFailed); return; }
    failure, reports := RunCouncils(w, l, councils, codes);
    if failure.Some? { return; }
    if applicantPlanned > 0 {
      var call := w.applicant(applicantPlanned);
      if call.Raises? { failure := Some(ApplicantFailed); return; }
      applicantFailed := call.report.failed;
    }
    detail := Counts;
  }

  function ApplicantFailures(w: World, l: Limits): nat {
    if ApplicantPlanned(w, l) > 0 && w.applicant(ApplicantPlanned(w, l)).Returns?
    then w.applicant(ApplicantPlanned(w, l)).report.failed else 0
  }

  // The applicant stage is called at most once, with what it may attempt as its limit.
  lemma ApplicantFailuresIs(w: World, l: Limits, n: nat, r: Report)
    requires w.applicantCount == Some(n) && l.applicantOn && l.applicant > 0 && n > 0
    requires w.applicant(if l.applicant < n then l.applicant else n) == Returns(r)
    ensures ApplicantFailures(w, l) == r.failed
  {
  }

  /* ----- the whole run ----- */

  function ClassifyRunStatus(reports: Reports, applicantFailed: nat): Status {
    if reports.extraction.failed > 0 || reports.summary.failed > 0 || reports.refresh.failed > 0
       || reports.allocation.failed > 0 || applicantFailed > 0
    then Partial else Success
  }

  // The call made for council i, if one was made, reported a failure.
  predicate FailedCall(planned: int, backlog: seq<nat>, calls: Calls, i: nat)
    requires i < |backlog|
  {
    var a := AccountAt(planned, backlog, calls, i);
    && a.Some? && a.value.remaining > 0 && backlog[i] > 0
    && calls(i, a.value.remaining).Returns? && calls(i, a.value.remaining).report.failed > 0
  }

  lemma {:induction false} FailuresIff(planned: int, backlog: seq<nat>, calls: Calls, n: nat)
    requires n <= |backlog| && AccountAt(planned, backlog, calls, n).Some?
    ensures AccountAt(planned, backlog, calls, n).value.report.failed > 0 <==>
              exists i :: 0 <= i < n && FailedCall(planned, backlog, calls, i)
  {
    if n > 0 {
      FailuresIff(planned, backlog, calls, n - 1);
      var before, after := AccountAt(planned, backlog, calls, n - 1).value, AccountAt(planned, backlog, calls, n).value;
      assert FailedCall(planned, backlog, calls, n - 1) <==> after.report.failed > before.report.failed;
    }
  }

  predicate StageReportsFailure(w: World, l: Limits, s: Stage, codes: seq<Code>)
    requires Counted(w, l, s, codes)
  {
    exists i :: 0 <= i < |codes| && FailedCall(Planned(w, l, s, codes), Backlog(w, l, s, codes), CallsOf(w, l, s, codes), i)
  }

  predicate SomeCallFailed(w: World, l: Limits, codes: seq<Code>)
    requires AllCounted(w, l, codes)
  {
    || StageReportsFailure(w, l, Refresh, codes) || StageReportsFailure(w, l, Allocation, codes)
    || StageReportsFailure(w, l, Extraction, codes) || StageReportsFailure(w, l, Summary, codes)
    || ApplicantFailures(w, l) > 0
  }

  /** A run that got through its councils is partial exactly when some call it really made,
      for whichever stage and council, reported a failure, and a success otherwise. */
  lemma PartialIff(w: World, l: Limits, codes: seq<Code>, reports: Reports)
    requires Final(w, l, codes, reports)
    ensures ClassifyRunStatus(reports, ApplicantFailures(w, l)) == if SomeCallFailed(w, l, codes) then Partial else Success
    ensures SomeCallFailed(w, l, codes) <==>
              || (exists s: Stage :: Counted(w, l, s, codes) && StageReportsFailure(w, l, s, codes))
              || ApplicantFailures(w, l) > 0
    ensures forall s: Stage :: reports.Of(s).failed > 0 ==> SomeCallFailed(w, l, codes)
  {
    hide CountOf, Total, Backlog, CallsOf, FailedCall, AccountAt, ApplicantFailures;
    forall s: Stage ensures Counted(w, l, s, codes) && (reports.Of(s).failed > 0 <==> StageReportsFailure(w, l, s, codes)) {
      assert ReportAt(w, l, s, codes, Reached(s, |codes|, 0), reports.Of(s));
      FailuresIff(Planned(w, l, s, codes), Backlog(w, l, s, codes), CallsOf(w, l, s, codes), |codes|);
    }
    assert reports.extraction == reports.Of(Extraction) && reports.summary == reports.Of(Summary);
    assert reports.refresh == reports.Of(Refresh) && reports.allocation == reports.Of(Allocation);
  }

  /** The summary stage reports a failure exactly when some call generated fewer than it
      could have attempted. */
  lemma SummaryFailsIff(w: World, l: Limits, codes: seq<Code>)
    requires Counted(w, l, Summary, codes) && StageAt(w, l, Summary, codes, |codes|).Some?
    ensures StageReportsFailure(w, l, Summary, codes) <==>
              exists i :: 0 <= i < |codes| && Missed(Planned(w, l, Summary, codes), Backlog(w, l, Summary, codes), w.generate, i) > 0
  {
    hide Backlog, Planned, FailedCall, Missed;
    var planned, backlog := Planned(w, l, Summary, codes), Backlog(w, l, Summary, codes);
    FailuresIff(planned, backlog, SummaryCalls(backlog, w.generate), |codes|);
    SummaryCounters(planned, backlog, w.generate, |codes|);
    NothingMissedIff(planned, backlog, w.generate, |codes|);
  }

  /** So a run whose other stages report no failure and whose summary calls generate all
      they may is a success, not a partial one. */
  lemma FullSummariesSucceed(w: World, l: Limits, codes: seq<Code>, reports: Reports)
    requires Final(w, l, codes, reports) && ApplicantFailures(w, l) == 0
    requires reports.refresh.failed == 0 && reports.allocation.failed == 0 && reports.extraction.failed == 0
    requires forall i, limit | 0 <= i < |codes| && limit > 0 && Backlog(w, l, Summary, codes)[i] > 0 ::
               w.generate(i, limit)
               == Some(if limit < Backlog(w, l, Summary, codes)[i] then limit else Backlog(w, l, Summary, codes)[i])
    ensures reports.summary.failed == 0 && reports.summary.succeeded == reports.summary.attempted
    ensures !SomeCallFailed(w, l, codes)
  {
    hide SomeCallFailed, Backlog, ApplicantFailures;
    assert ReportAt(w, l, Summary, codes, Reached(Summary, |codes|, 0), reports.Of(Summary));
    AllGenerated(Planned(w, l, Summary, codes), Backlog(w, l, Summary, codes), w.generate, |codes|);
    PartialIff(w, l, codes, reports);
  }

  predicate Recounts(w: World, l: Limits, codes: seq<Code>) {
    forall c | c in codes ::
      w.recount(Extraction, c).Some? && w.recount(Summary, c).Some? && (l.allocationOn ==> w.recount(Allocation, c).Some?)
  }

  // Summed over the list as given: unlike the first count, a repeated code counts again.
  function RecountSum(w: World, s: Stage, codes: seq<Code>): Option<nat> {
    if codes == [] then Some(0)
    else
      var before, last := RecountSum(w, s, codes[..|codes| - 1]), w.recount(s, codes[|codes| - 1]);
      if before.Some? && last.Some? then Some(before.value + last.value) else None
  }

  lemma RecountIs(w: World, s: Stage, codes: seq<Code>, c: Code)
    ensures RecountSum(w, s, []) == Some(0)
    ensures var before := RecountSum(w, s, codes);
            RecountSum(w, s, codes + [c])
            == if before.Some? && w.recount(s, c).Some? then Some(before.value + w.recount(s, c).value) else None
  {
    assert (codes + [c])[..|codes|] == codes;
  }

  method Recount(w: World, s: Stage, codes: seq<Code>) returns (total: Option<nat>)
    ensures total.Some? <==> forall c | c in codes :: w.recount(s, c).Some?
    ensures total == RecountSum(w, s, codes)
  {
    var sum: nat := 0;
    for i := 0 to |codes|
      invariant forall k | 0 <= k < i :: w.recount(s, codes[k]).Some?
      invariant RecountSum(w, s, codes[..i]) == Some(sum)
    {
      assert codes[..i + 1][..i] == codes[..i];
      var count := w.recount(s, codes[i]);
      if count.None? {
        NoRecount(w, s, codes, i);
        return None;
      }
      sum := sum + count.value;
    }
    assert codes[..|codes|] == codes;
    total := Some(sum);
  }

  lemma {:induction false} NoRecount(w: World, s: Stage, codes: seq<Code>, i: nat)
    requires i < |codes| && w.recount(s, codes[i]).None?
    ensures RecountSum(w, s, codes).None?
    decreases |codes|
  {
    if i < |codes| - 1 {
      NoRecount(w, s, codes[..|codes| - 1], i);
    }
  }

  /** Every way through a run. A failed block's failure is what the run raises, whether or
      not the best-effort commit of the failed row goes through, and that row holds the
      counters of the calls that had returned. The row can only stay durably "running" if
      one of its own commits fails or, after a complete block, if a recount raises. */
  method ProcessBacklog(w: World, l: Limits, councils: set<Code>, codes: seq<Code>)
    returns (run: IntelligenceRun, failure: Option<Failure>, clientAsked: bool)
    ensures failure.None? <==> w.openCommit && Completes(w, l, councils, codes) && Recounts(w, l, codes) && w.finalCommit
    ensures failure.None? ==>
              && run.finished && run.durable == Some(run.View()) && Final(w, l, codes, run.reports)
              && run.status == (if SomeCallFailed(w, l, codes) then Partial else Success)
              && run.detail == (if Idle(w, l, codes) then NoWork else Counts)
              && run.outstanding.Outstanding?
              && Some(run.outstanding.applications) == RecountSum(w, Extraction, codes)
              && Some(run.outstanding.sites) == RecountSum(w, Summary, codes)
              && run.outstanding.allocations == (if l.allocationOn then RecountSum(w, Allocation, codes) else None)
    ensures !w.openCommit ==> failure == Some(CommitFailed) && run.durable == None && !clientAsked
    ensures w.openCommit && !Completes(w, l, councils, codes) ==>
              && failure.Some? && BlockFails(w, l, councils, codes, failure.value, run.reports)
              && run.View() == Row(Failed, true, if KeyIsMissing(w, l, codes) then KeyMissing else RunLevelFailure, run.reports, Unknown)
              && run.durable == Some(if (if KeyIsMissing(w, l, codes) then w.keyCommit else w.failCommit) then run.View() else OPENING)
    ensures w.openCommit && Completes(w, l, councils, codes) && !(Recounts(w, l, codes) && w.finalCommit) ==>
              run.durable == Some(OPENING) && OPENING.status == Running && !OPENING.finished && failure == Some(if Recounts(w, l, codes) then CommitFailed else RecountFailed)
    ensures w.openCommit ==> (clientAsked <==> AllCounted(w, l, codes) && !Idle(w, l, codes) && w.key)
  {
    hide Completes, BlockFails, Final, Idle, AllCounted, SomeCallFailed, ClassifyRunStatus, ApplicantFailures;
    run := new IntelligenceRun();
    run.Commit(w.openCommit);
    failure, clientAsked := None, false;
    if !w.openCommit {
      failure := Some(CommitFailed);
      return;
    }
    var reports, applicantFailed, detail;
    failure, reports, applicantFailed, detail, clientAsked := GuardedWork(w, l, councils, codes, run);
    if failure.Some? {
      if run.status != Failed {
        run.status, run.finished, run.reports, run.detail := Failed, true, reports, RunLevelFailure;
        run.Commit(w.failCommit);
      }
      return;
    }
    var applications := Recount(w, Extraction, codes);
    if applications.None? { failure := Some(RecountFailed); return; }
    var sites := Recount(w, Summary, codes);
    if sites.None? { failure := Some(RecountFailed); return; }
    var allocations := None;
    if l.allocationOn {
      allocations := Recount(w, Allocation, codes);
      if allocations.None? { failure := Some(RecountFailed); return; }
    }
    PartialIff(w, l, codes, reports);
    run.status := ClassifyRunStatus(reports, applicantFailed);
    run.finished, run.reports, run.detail := true, reports, detail;
    run.outstanding := Outstanding(applications.value, sites.value, allocations);
    run.Commit(w.finalCommit);
    if !w.finalCommit {
      failure := Some(CommitFailed);
    }
  }
}
