/** The unattended rebuild runner: batches until the backlog is empty or a stop rule
    fires. The stream of batches is arbitrary; the last section plugs in the real one. */
module RebuildRunner {
  import opened Prelude
  import opened HistoricalRebuild

  const CONSECUTIVE_SYSTEMIC_FAILURE_STOP := 3
  const FAILURE_RATE_MIN_ATTEMPTED := 5
  const NO_PROGRESS_MIN_ATTEMPTED := 2

  datatype Reason =
    Completed | ConsecutiveSystemicFailures | BatchFailureRate | NoForwardProgress | SystemicException | MaxBatchesExceeded

  type Stream = nat -> Batch

  /* ----- the stop rules, over the whole history ----- */

  function History(stream: Stream, n: nat): seq<Result> {
    if n == 0 then [] else History(stream, n - 1) + (if stream(n - 1).Done? then stream(n - 1).summary.results else [])
  }

  predicate RunOfThreeAt(h: seq<Result>, i: nat) {
    i + 2 < |h| && Systemic(h[i].outcome) && Systemic(h[i + 1].outcome) && Systemic(h[i + 2].outcome)
  }

  predicate ThreeInARow(h: seq<Result>) {
    exists i :: 0 <= i < |h| && RunOfThreeAt(h, i)
  }

  // 20%, without the division.
  predicate TooManyFailures(s: Summary) {
    s.attempted >= FAILURE_RATE_MIN_ATTEMPTED && 5 * s.tally.Failures() > s.attempted
  }

  predicate NoProgress(s: Summary) {
    s.attempted >= NO_PROGRESS_MIN_ATTEMPTED && s.rebuiltAfter == s.rebuiltBefore
  }

  // Why the run ends with batch n, if it gets that far.
  function Verdict(stream: Stream, n: nat): Option<Reason> {
    if stream(n).Raised? then Some(SystemicException)
    else
      var s := stream(n).summary;
      if ThreeInARow(History(stream, n + 1)) then Some(ConsecutiveSystemicFailures)
      else if s.selected == 0 then Some(Completed)
      else if TooManyFailures(s) then Some(BatchFailureRate)
      else if NoProgress(s) then Some(NoForwardProgress)
      else if s.remainingAfter == 0 then Some(Completed)
      else None
  }

  ghost predicate Reaches(stream: Stream, n: nat) {
    forall m: nat | m < n :: Verdict(stream, m).None?
  }

  /* ----- the counter ----- */

  // Length of the run of systemic failures that ends the history.
  function TrailingRun(h: seq<Result>): (t: nat)
    ensures t <= |h|
    ensures forall k | |h| - t <= k < |h| :: Systemic(h[k].outcome)
    ensures t < |h| ==> !Systemic(h[|h| - t - 1].outcome)
  {
    if h == [] || !Systemic(h[|h| - 1].outcome) then 0 else 1 + TrailingRun(h[..|h| - 1])
  }

  lemma CounterStep(h: seq<Result>, r: Result)
    ensures TrailingRun(h + [r]) == if Systemic(r.outcome) then TrailingRun(h) + 1 else 0
    ensures ThreeInARow(h + [r]) <==> ThreeInARow(h) || TrailingRun(h + [r]) >= 3
  {
    var all := h + [r];
    assert all[..|h|] == h;
    if ThreeInARow(h) {
      ThreeInARowGrows(h, [r]);
    }
    if TrailingRun(all) >= 3 {
      assert RunOfThreeAt(all, |all| - 3);
    }
    forall i: nat | i < |all| && RunOfThreeAt(all, i) ensures ThreeInARow(h) || TrailingRun(all) >= 3 {
      if i + 2 < |h| {
        assert RunOfThreeAt(h, i);
      }
    }
  }

  lemma ThreeInARowGrows(h: seq<Result>, more: seq<Result>)
    requires ThreeInARow(h)
    ensures ThreeInARow(h + more)
  {
    var i: nat :| i < |h| && RunOfThreeAt(h, i);
    assert RunOfThreeAt(h + more, i);
  }

  /* ----- the runner ----- */

  function SumAttempted(stream: Stream, n: nat): nat {
    if n == 0 then 0
    else SumAttempted(stream, n - 1) + (if stream(n - 1).Done? then stream(n - 1).summary.attempted else 0)
  }

  function SumTally(stream: Stream, n: nat): Tally {
    if n == 0 then NOTHING
    else if stream(n - 1).Done? then SumTally(stream, n - 1).Plus(stream(n - 1).summary.tally)
    else SumTally(stream, n - 1)
  }

  class Totals {
    var batches: nat
    var attempted: nat
    var tally: Tally

    constructor ()
      ensures batches == 0 && attempted == 0 && tally == NOTHING
    {
      batches, attempted, tally := 0, 0, NOTHING;
    }

    method Add(s: Summary)
      modifies this
      ensures batches == old(batches) + 1 && attempted == old(attempted) + s.attempted
      ensures tally == old(tally).Plus(s.tally)
    {
      batches := batches + 1;
      attempted := attempted + s.attempted;
      tally := tally.Plus(s.tally);
    }
  }

  /** Stops with the verdict of the first batch that has one, and reports the totals of
      exactly the batches that returned a summary. */
  method RunToCompletion(stream: Stream, maxBatches: int) returns (reason: Reason, exitCode: int, ran: nat, totals: Totals)
    ensures reason == MaxBatchesExceeded <==> forall n: nat | n < maxBatches :: Verdict(stream, n).None?
    ensures reason == MaxBatchesExceeded ==> ran == if maxBatches > 0 then maxBatches else 0
    ensures reason != MaxBatchesExceeded ==>
              0 < ran <= maxBatches && Reaches(stream, ran - 1) && Verdict(stream, ran - 1) == Some(reason)
    ensures exitCode == 0 <==> reason == Completed
    ensures exitCode == 0 || exitCode == 2
    ensures totals.batches == if reason == SystemicException then ran - 1 else ran
    ensures totals.attempted == SumAttempted(stream, ran) && totals.tally == SumTally(stream, ran)
  {
    hide ThreeInARow, TrailingRun;
    totals := new Totals();
    ran := 0;
    NothingYet();
    var consecutive := 0;
    while ran < maxBatches
      invariant ran <= if maxBatches > 0 then maxBatches else 0
      invariant Reaches(stream, ran)
      invariant consecutive == TrailingRun(History(stream, ran)) && !ThreeInARow(History(stream, ran))
      invariant totals.batches == ran
      invariant totals.attempted == SumAttempted(stream, ran) && totals.tally == SumTally(stream, ran)
      invariant fresh(totals)
    {
      var batch := stream(ran);
      ghost var verdict := Verdict(stream, ran);
      ghost var before := History(stream, ran);
      ran := ran + 1;
      if batch.Raised? {
        return SystemicException, 2, ran, totals;
      }
      var summary := batch.summary;
      totals.Add(summary);
      assert History(stream, ran) == before + summary.results;
      var stop;
      consecutive, stop := CountSystemic(before, summary.results, consecutive);
      if stop {
        return ConsecutiveSystemicFailures, 2, ran, totals;
      }
      if summary.selected == 0 {
        return Completed, 0, ran, totals;
      }
      if summary.attempted >= FAILURE_RATE_MIN_ATTEMPTED {
        var failures := summary.tally.aiError + summary.tally.invalidOutput + summary.tally.error;
        if 5 * failures > summary.attempted {
          return BatchFailureRate, 2, ran, totals;
        }
      }
      if summary.attempted >= NO_PROGRESS_MIN_ATTEMPTED && summary.rebuiltAfter == summary.rebuiltBefore {
        return NoForwardProgress, 2, ran, totals;
      }
      if summary.remainingAfter == 0 {
        return Completed, 0, ran, totals;
      }
    }
    reason, exitCode := MaxBatchesExceeded, 2;
  }

  lemma NothingYet()
    ensures TrailingRun([]) == 0 && !ThreeInARow([])
  {
  }

  // The inner loop: the counter resets on anything but a systemic failure, and the
  // batch is abandoned at the third in a row.
  method CountSystemic(ghost before: seq<Result>, results: seq<Result>, start: nat) returns (consecutive: nat, stop: bool)
    requires start == TrailingRun(before) && !ThreeInARow(before)
    ensures stop <==> ThreeInARow(before + results)
    ensures !stop ==> consecutive == TrailingRun(before + results)
  {
    hide ThreeInARow, TrailingRun;
    consecutive, stop := start, false;
    assert before + results[..0] == before;
    for i := 0 to |results|
      invariant consecutive == TrailingRun(before + results[..i]) && !ThreeInARow(before + results[..i])
    {
      ghost var h := before + results[..i];
      CounterStep(h, results[i]);
      assert before + results[..i + 1] == h + [results[i]];
      if Systemic(results[i].outcome) {
        consecutive := consecutive + 1;
        if consecutive >= CONSECUTIVE_SYSTEMIC_FAILURE_STOP {
          ThreeInARowGrows(before + results[..i + 1], results[i + 1..]);
          assert before + results[..i + 1] + results[i + 1..] == before + results;
          return consecutive, true;
        }
      } else {
        consecutive := 0;
      }
    }
    assert results[..|results|] == results;
  }

  /* ----- what each verdict means ----- */

  lemma {:induction false} HistoryGrows(stream: Stream, m: nat, n: nat)
    requires m <= n
    ensures ThreeInARow(History(stream, m)) ==> ThreeInARow(History(stream, n))
  {
    if m < n {
      HistoryGrows(stream, m, n - 1);
      if ThreeInARow(History(stream, m)) {
        ThreeInARowGrows(History(stream, n - 1), History(stream, n)[|History(stream, n - 1)|..]);
        var tail := if stream(n - 1).Done? then stream(n - 1).summary.results else [];
        assert History(stream, n)[|History(stream, n - 1)|..] == tail;
      }
    }
  }

  // The failed attempts of a batch, by kind.
  function FailedAttempts(s: Summary): nat {
    s.tally.aiError + s.tally.invalidOutput + s.tally.error
  }

  // Fewer than 5 attempts, or at most a fifth of them failed.
  predicate RateOk(s: Summary) {
    s.attempted < 5 || 5 * FailedAttempts(s) <= s.attempted
  }

  // A single attempt, or something was rebuilt.
  predicate MovedOn(s: Summary) {
    s.attempted < 2 || s.rebuiltAfter != s.rebuiltBefore
  }

  lemma RulesAre(s: Summary)
    ensures TooManyFailures(s) <==> s.attempted >= 5 && 5 * (s.tally.aiError + s.tally.invalidOutput + s.tally.error) > s.attempted
    ensures NoProgress(s) <==> s.attempted >= 2 && s.rebuiltAfter == s.rebuiltBefore
  {
  }

  predicate FailedOutcome(r: Result) {
    r.outcome == AiError || r.outcome == InvalidOutput || r.outcome == Error
  }

  predicate ThreeFailedAt(h: seq<Result>, i: int) {
    0 <= i && i + 2 < |h| && FailedOutcome(h[i]) && FailedOutcome(h[i + 1]) && FailedOutcome(h[i + 2])
  }

  predicate ThreeFailed(h: seq<Result>) {
    exists i :: 0 <= i < |h| && ThreeFailedAt(h, i)
  }

  /** Which rule ends a batch that has none of the rules before it against it: an
      exception; three failures of the AI, of its output or of the attempt itself in a row;
      an empty selection; more than a fifth of at least 5 attempts failed; nothing rebuilt
      by at least 2; an empty backlog. */
  lemma RulesInOrder(stream: Stream, n: nat)
    ensures stream(n).Raised? ==> Verdict(stream, n) == Some(SystemicException)
    ensures stream(n).Done? ==>
              var s := stream(n).summary;
              var h := History(stream, n + 1);
              var three := ThreeFailed(h);
              var failed := s.tally.aiError + s.tally.invalidOutput + s.tally.error;
              && (three ==> Verdict(stream, n) == Some(ConsecutiveSystemicFailures))
              && (!three && s.selected == 0 ==> Verdict(stream, n) == Some(Completed))
              && (!three && s.selected > 0 && s.attempted >= 5 && 5 * failed > s.attempted ==>
                    Verdict(stream, n) == Some(BatchFailureRate))
              && (!three && s.selected > 0 && (s.attempted < 5 || 5 * failed <= s.attempted) ==>
                    if s.attempted >= 2 && s.rebuiltAfter == s.rebuiltBefore then Verdict(stream, n) == Some(NoForwardProgress)
                    else if s.remainingAfter == 0 then Verdict(stream, n) == Some(Completed)
                    else Verdict(stream, n).None?)
  {
    hide History, ThreeInARow, ThreeFailed, TooManyFailures, NoProgress;
    if stream(n).Done? {
      ThreeInARowIs(History(stream, n + 1));
      RulesAre(stream(n).summary);
    }
  }

  lemma ThreeInARowIs(h: seq<Result>)
    ensures ThreeInARow(h) <==> ThreeFailed(h)
  {
    forall i | ThreeFailedAt(h, i) ensures ThreeInARow(h) {
      assert RunOfThreeAt(h, i);
    }
    forall i: nat | i < |h| && RunOfThreeAt(h, i) ensures ThreeFailedAt(h, i) {}
  }

  /** Exit 0 only for an empty selection or an empty backlog, after a history without
      three systemic failures in a row in which every earlier batch returned, selected
      something, left something, kept its failure rate and made progress. */
  lemma CompletedMeans(stream: Stream, n: nat)
    ensures Reaches(stream, n) && Verdict(stream, n) == Some(Completed) <==>
              && stream(n).Done? && !ThreeInARow(History(stream, n + 1))
              && (var s := stream(n).summary; s.selected == 0 || (s.remainingAfter == 0 && RateOk(s) && MovedOn(s)))
              && (forall m: nat | m < n ::
                    && stream(m).Done?
                    && (var s := stream(m).summary; s.selected > 0 && s.remainingAfter > 0 && RateOk(s) && MovedOn(s)))
  {
    hide History, ThreeInARow, TooManyFailures, NoProgress;
    forall m: nat | stream(m).Done? ensures var s := stream(m).summary; (TooManyFailures(s) <==> !RateOk(s)) && (NoProgress(s) <==> !MovedOn(s)) {
      RulesAre(stream(m).summary);
    }
    if Reaches(stream, n) {
      forall m: nat | m < n
        ensures stream(m).Done? && var s := stream(m).summary; s.selected > 0 && s.remainingAfter > 0 && RateOk(s) && MovedOn(s)
      {
        assert Verdict(stream, m).None?;
      }
    }
    if !ThreeInARow(History(stream, n + 1)) && forall m: nat | m < n ::
         stream(m).Done? && var s := stream(m).summary; s.selected > 0 && s.remainingAfter > 0 && RateOk(s) && MovedOn(s) {
      forall m: nat | m < n ensures Verdict(stream, m).None? {
        HistoryGrows(stream, m + 1, n + 1);
      }
    }
  }

  /** A run of systemic failures that straddles batches stops the run in the very batch
      that completes three, unless an earlier batch ends it. */
  lemma ThirdFailureStops(stream: Stream, n: nat)
    requires stream(n).Done? && !ThreeInARow(History(stream, n)) && ThreeInARow(History(stream, n + 1))
    ensures Reaches(stream, n) ==> Verdict(stream, n) == Some(ConsecutiveSystemicFailures)
    ensures !Reaches(stream, n + 2)
    ensures forall m: nat | m < n :: Verdict(stream, m) != Some(ConsecutiveSystemicFailures)
  {
    assert Verdict(stream, n).Some?;
    forall m: nat | m < n ensures Verdict(stream, m) != Some(ConsecutiveSystemicFailures) {
      HistoryGrows(stream, m + 1, n);
    }
  }

  /* ----- the real stream ----- */

  type Oracle = (nat, nat) -> Attempt

  function Refresh(oracle: Oracle, batch: nat): nat -> Attempt {
    (r: nat) => oracle(batch, r)
  }

  // The rebuilt set before batch n.
  function State(usable: seq<bool>, rebuilt: set<nat>, limit: int, oracle: Oracle, n: nat): set<nat> {
    if n == 0 then rebuilt
    else After(usable, State(usable, rebuilt, limit, oracle, n - 1), limit, Refresh(oracle, n - 1))
  }

  function Live(usable: seq<bool>, rebuilt: set<nat>, limit: int, oracle: Oracle, raises: nat -> bool): Stream {
    (n: nat) =>
      if limit > MAX_BATCH_LIMIT || raises(n) then Raised
      else Done(SummaryOf(usable, State(usable, rebuilt, limit, oracle, n), limit, Refresh(oracle, n)))
  }

  function Left(usable: seq<bool>, rebuilt: set<nat>, limit: int, oracle: Oracle, n: nat): nat {
    |Remaining(usable, State(usable, rebuilt, limit, oracle, n))|
  }

  // No attempt reports a missing text for an application selected for having one.
  ghost predicate EvidenceHolds(oracle: Oracle) {
    forall k, r :: oracle(k, r).Finished? ==> oracle(k, r).outcome != NoUsableText
  }

  lemma {:induction false} AllSystemicTrail(h: seq<Result>, more: seq<Result>)
    requires forall r | r in more :: Systemic(r.outcome)
    ensures TrailingRun(h + more) == TrailingRun(h) + |more|
    decreases |more|
  {
    if more == [] {
      assert h + more == h;
    } else {
      var init, last := more[..|more| - 1], more[|more| - 1];
      AllSystemicTrail(h, init);
      CounterStep(h + init, last);
      assert h + more == h + init + [last];
    }
  }

  lemma TrailBelowThree(h: seq<Result>)
    requires !ThreeInARow(h)
    ensures TrailingRun(h) <= 2
  {
    if TrailingRun(h) >= 3 {
      assert RunOfThreeAt(h, |h| - 3);
    }
  }

  lemma {:induction false} NoTextsIff(results: seq<Result>)
    ensures TallyOf(results).noUsableText == 0 <==> forall r | r in results :: !r.outcome.NoUsableText?
    decreases |results|
  {
    if results != [] {
      var init, last := results[..|results| - 1], results[|results| - 1];
      NoTextsIff(init);
      assert results == init + [last];
    }
  }

  // With nothing rebuilt and no text missing, every result of the batch is a systemic failure.
  lemma GainedOrSystemic(chosen: seq<nat>, f: nat -> Attempt)
    requires Gained(chosen, f) == {} && TallyOf(Results(chosen, f)).noUsableText == 0
    ensures forall r | r in Results(chosen, f) :: Systemic(r.outcome)
  {
    var results := Results(chosen, f);
    NoTextsIff(results);
    forall r | r in results ensures Systemic(r.outcome) {
      var i :| 0 <= i < |results| && results[i] == r;
      assert r == ResultOf(chosen[i], f(chosen[i]));
      assert chosen[i] in chosen && chosen[i] !in Gained(chosen, f);
    }
  }

  lemma BatchMeasure(usable: seq<bool>, s: set<nat>, limit: int, f: nat -> Attempt, h: seq<Result>)
    requires !ThreeInARow(h) && Chosen(usable, s, limit) != []
    ensures var results := Results(Chosen(usable, s, limit), f);
            3 * |Remaining(usable, After(usable, s, limit, f))| - TrailingRun(h + results) - 3 * TallyOf(results).noUsableText
            < 3 * |Remaining(usable, s)| - TrailingRun(h)
  {
    var chosen := Chosen(usable, s, limit);
    BatchConserves(usable, s, limit, f);
    TrailBelowThree(h);
    if Gained(chosen, f) == {} && TallyOf(Results(chosen, f)).noUsableText == 0 {
      GainedOrSystemic(chosen, f);
      AllSystemicTrail(h, Results(chosen, f));
    }
  }

  // The missing texts met so far, as the runner's own totals count them.
  function NoTexts(stream: Stream, n: nat): nat {
    SumTally(stream, n).noUsableText
  }

  /** The measure 3 * remaining - trailing falls with every batch that does not stop, but
      for three per missing text the batch met. */
  lemma MeasureFalls(usable: seq<bool>, rebuilt: set<nat>, limit: int, oracle: Oracle, raises: nat -> bool, n: nat)
    requires var live := Live(usable, rebuilt, limit, oracle, raises);
             Verdict(live, n).None? && !ThreeInARow(History(live, n))
    ensures var live := Live(usable, rebuilt, limit, oracle, raises);
            && 3 * Left(usable, rebuilt, limit, oracle, n + 1) - TrailingRun(History(live, n + 1)) - 3 * NoTexts(live, n + 1)
               < 3 * Left(usable, rebuilt, limit, oracle, n) - TrailingRun(History(live, n)) - 3 * NoTexts(live, n)
            && !ThreeInARow(History(live, n + 1)) && Left(usable, rebuilt, limit, oracle, n + 1) >= 1
  {
    var live := Live(usable, rebuilt, limit, oracle, raises);
    var s := State(usable, rebuilt, limit, oracle, n);
    LiveBatch(usable, rebuilt, limit, oracle, raises, n);
    BatchMeasure(usable, s, limit, Refresh(oracle, n), History(live, n));
  }

  lemma LiveBatch(usable: seq<bool>, rebuilt: set<nat>, limit: int, oracle: Oracle, raises: nat -> bool, n: nat)
    requires Live(usable, rebuilt, limit, oracle, raises)(n).Done?
    ensures var live := Live(usable, rebuilt, limit, oracle, raises);
            var s := State(usable, rebuilt, limit, oracle, n);
            var f := Refresh(oracle, n);
            && live(n).summary == SummaryOf(usable, s, limit, f)
            && live(n).summary.selected == |Chosen(usable, s, limit)|
            && live(n).summary.remainingAfter == Left(usable, rebuilt, limit, oracle, n + 1)
            && History(live, n + 1) == History(live, n) + Results(Chosen(usable, s, limit), f)
            && State(usable, rebuilt, limit, oracle, n + 1) == After(usable, s, limit, f)
  {
  }

  lemma {:induction false} MeasureBound(usable: seq<bool>, rebuilt: set<nat>, limit: int, oracle: Oracle, raises: nat -> bool, n: nat)
    requires Reaches(Live(usable, rebuilt, limit, oracle, raises), n)
    ensures var live := Live(usable, rebuilt, limit, oracle, raises);
            && !ThreeInARow(History(live, n))
            && 3 * Left(usable, rebuilt, limit, oracle, n) - TrailingRun(History(live, n)) - 3 * NoTexts(live, n) + n
               <= 3 * |Remaining(usable, rebuilt)|
            && (n > 0 ==> Left(usable, rebuilt, limit, oracle, n) >= 1)
  {
    hide Live, Verdict, History, ThreeInARow, TrailingRun, NoTexts, Left, Remaining;
    if n > 0 {
      assert Verdict(Live(usable, rebuilt, limit, oracle, raises), n - 1).None?;
      MeasureBound(usable, rebuilt, limit, oracle, raises, n - 1);
      MeasureFalls(usable, rebuilt, limit, oracle, raises, n - 1);
    } else {
      MeasureAtStart(usable, rebuilt, limit, oracle, raises);
    }
  }

  lemma MeasureAtStart(usable: seq<bool>, rebuilt: set<nat>, limit: int, oracle: Oracle, raises: nat -> bool)
    ensures var live := Live(usable, rebuilt, limit, oracle, raises);
            && !ThreeInARow(History(live, 0)) && TrailingRun(History(live, 0)) == 0 && NoTexts(live, 0) == 0
            && Left(usable, rebuilt, limit, oracle, 0) == |Remaining(usable, rebuilt)|
  {
  }

  /** Whatever the attempts do, a run from R remaining applications that goes on after n
      batches has met enough missing texts to pay for them: n < 3R + 3N. */
  lemma BatchesBounded(usable: seq<bool>, rebuilt: set<nat>, limit: int, oracle: Oracle, raises: nat -> bool, n: nat)
    requires n > 0 && Reaches(Live(usable, rebuilt, limit, oracle, raises), n)
    ensures n < 3 * |Remaining(usable, rebuilt)| + 3 * NoTexts(Live(usable, rebuilt, limit, oracle, raises), n)
  {
    MeasureBound(usable, rebuilt, limit, oracle, raises, n);
    TrailBelowThree(History(Live(usable, rebuilt, limit, oracle, raises), n));
  }

  lemma TextsStep(usable: seq<bool>, rebuilt: set<nat>, limit: int, oracle: Oracle, raises: nat -> bool, n: nat)
    ensures var live := Live(usable, rebuilt, limit, oracle, raises);
            var chosen := Chosen(usable, State(usable, rebuilt, limit, oracle, n), limit);
            NoTexts(live, n + 1)
            == NoTexts(live, n) + (if live(n).Done? then TallyOf(Results(chosen, Refresh(oracle, n))).noUsableText else 0)
  {
    hide Chosen, Results, TallyOf;
    var live := Live(usable, rebuilt, limit, oracle, raises);
    var s := State(usable, rebuilt, limit, oracle, n);
    assert live(n).Done? ==> live(n).summary == SummaryOf(usable, s, limit, Refresh(oracle, n));
  }

  lemma {:induction false} EvidenceMeansNoTexts(usable: seq<bool>, rebuilt: set<nat>, limit: int, oracle: Oracle,
                                                raises: nat -> bool, n: nat)
    requires EvidenceHolds(oracle)
    ensures NoTexts(Live(usable, rebuilt, limit, oracle, raises), n) == 0
  {
    if n > 0 {
      EvidenceMeansNoTexts(usable, rebuilt, limit, oracle, raises, n - 1);
      var f := Refresh(oracle, n - 1);
      var chosen := Chosen(usable, State(usable, rebuilt, limit, oracle, n - 1), limit);
      forall r | r in Results(chosen, f) ensures !r.outcome.NoUsableText? {
        var i :| 0 <= i < |chosen| && Results(chosen, f)[i] == r;
        assert r == ResultOf(chosen[i], f(chosen[i])) && f(chosen[i]) == oracle(n - 1, chosen[i]);
      }
      NoTextsIff(Results(chosen, f));
      TextsStep(usable, rebuilt, limit, oracle, raises, n - 1);
    }
  }

  /** So from R remaining applications, with no text missing, at most max(1, 3R) batches
      run: with that many allowed, the batch cap is unreachable. */
  lemma StopsWithin(usable: seq<bool>, rebuilt: set<nat>, limit: int, oracle: Oracle, raises: nat -> bool, maxBatches: nat)
    requires EvidenceHolds(oracle)
    requires maxBatches >= 1 && maxBatches >= 3 * |Remaining(usable, rebuilt)|
    ensures exists n: nat :: n < maxBatches && Verdict(Live(usable, rebuilt, limit, oracle, raises), n).Some?
  {
    hide NoTexts;
    if Reaches(Live(usable, rebuilt, limit, oracle, raises), maxBatches) {
      BatchesBounded(usable, rebuilt, limit, oracle, raises, maxBatches);
      EvidenceMeansNoTexts(usable, rebuilt, limit, oracle, raises, maxBatches);
    }
  }

  /** "completed" means an empty backlog exactly when the batch size is positive (or
      there was nothing to do). */
  lemma CompletedIsHonestIff(usable: seq<bool>, rebuilt: set<nat>, limit: int, oracle: Oracle, raises: nat -> bool, n: nat)
    requires var live := Live(usable, rebuilt, limit, oracle, raises);
             Reaches(live, n) && Verdict(live, n) == Some(Completed)
    ensures Left(usable, rebuilt, limit, oracle, n + 1) == 0 <==> limit >= 1 || Remaining(usable, rebuilt) == {}
  {
    if limit >= 1 {
      PositiveLimitDrains(usable, rebuilt, limit, oracle, raises, n);
    } else {
      assert n > 0 ==> Verdict(Live(usable, rebuilt, limit, oracle, raises), 0).None?;
      NonPositiveLimitCompletes(usable, rebuilt, limit, oracle, raises);
    }
  }

  lemma PositiveLimitDrains(usable: seq<bool>, rebuilt: set<nat>, limit: int, oracle: Oracle, raises: nat -> bool, n: nat)
    requires limit >= 1 && Verdict(Live(usable, rebuilt, limit, oracle, raises), n) == Some(Completed)
    ensures Left(usable, rebuilt, limit, oracle, n + 1) == 0
  {
    CompletedEither(Live(usable, rebuilt, limit, oracle, raises), n);
    LiveBatch(usable, rebuilt, limit, oracle, raises, n);
    SelectsNothing(usable, State(usable, rebuilt, limit, oracle, n), limit, Refresh(oracle, n));
  }

  lemma CompletedEither(stream: Stream, n: nat)
    requires Verdict(stream, n) == Some(Completed)
    ensures stream(n).Done? && (stream(n).summary.selected == 0 || stream(n).summary.remainingAfter == 0)
  {
  }

  /** A batch size of 0 or less selects nothing and reports completion at once. */
  lemma NonPositiveLimitCompletes(usable: seq<bool>, rebuilt: set<nat>, limit: int, oracle: Oracle, raises: nat -> bool)
    requires limit < 1 && !raises(0)
    ensures Verdict(Live(usable, rebuilt, limit, oracle, raises), 0) == Some(Completed)
    ensures Left(usable, rebuilt, limit, oracle, 1) == |Remaining(usable, rebuilt)|
  {
    LiveBatch(usable, rebuilt, limit, oracle, raises, 0);
    SelectsNothing(usable, rebuilt, limit, Refresh(oracle, 0));
  }

  lemma SelectsNothing(usable: seq<bool>, rebuilt: set<nat>, limit: int, f: nat -> Attempt)
    ensures var chosen := Chosen(usable, rebuilt, limit);
            && (limit < 1 ==> chosen == [])
            && (chosen == [] ==> After(usable, rebuilt, limit, f) == rebuilt)
            && (chosen == [] && limit >= 1 ==> Remaining(usable, rebuilt) == {})
  {
    ChosenIsSelection(usable, rebuilt, limit);
    BatchConserves(usable, rebuilt, limit, f);
    var chosen := Chosen(usable, rebuilt, limit);
    if chosen == [] {
      assert Gained(chosen, f) == {};
      assert limit >= 1 ==> forall r | r in Remaining(usable, rebuilt) :: r in chosen;
    }
  }

  /** A batch size above 50 never touches a row: the first batch raises. */
  lemma OverLimitStopsAtOnce(usable: seq<bool>, rebuilt: set<nat>, limit: int, oracle: Oracle, raises: nat -> bool)
    requires limit > MAX_BATCH_LIMIT
    ensures Verdict(Live(usable, rebuilt, limit, oracle, raises), 0) == Some(SystemicException)
  {
  }

  /* ----- the bound is exact, and its assumption is needed ----- */

  function AllUsable(n: nat): seq<bool> {
    seq(n, i => true)
  }

  function Below(n: nat): (s: set<nat>)
    ensures |s| == n && forall r: nat :: r in s <==> r < n
  {
    if n == 0 then {} else Below(n - 1) + {n - 1}
  }

  function Never(): nat -> bool {
    (n: nat) => false
  }

  // Batches of one over n applications with evidence.
  function Singles(n: nat, oracle: Oracle): Stream {
    Live(AllUsable(n), Below(0), 1, oracle, Never())
  }

  function SinglesState(n: nat, oracle: Oracle, k: nat): set<nat> {
    State(AllUsable(n), Below(0), 1, oracle, k)
  }

  lemma NextRank(n: nat, done: nat)
    requires done < n
    ensures Chosen(AllUsable(n), Below(done), 1) == [done]
    ensures |Remaining(AllUsable(n), Below(done))| > 0
  {
    ChosenIsSelection(AllUsable(n), Below(done), 1);
    assert Selection(AllUsable(n), Below(done), 1, [done]);
    SelectionUnique(AllUsable(n), Below(done), 1, Chosen(AllUsable(n), Below(done), 1), [done]);
    assert done in Remaining(AllUsable(n), Below(done));
  }

  function NextDone(done: nat, a: Attempt): nat {
    if a.Finished? && a.outcome.Success? then done + 1 else done
  }

  lemma BatchOfOne(n: nat, done: nat, f: nat -> Attempt)
    requires done < n
    ensures Results(Chosen(AllUsable(n), Below(done), 1), f) == [ResultOf(done, f(done))]
    ensures After(AllUsable(n), Below(done), 1, f) == Below(NextDone(done, f(done)))
  {
    hide Chosen, Remaining, AllUsable, Below, After, Gained;
    NextRank(n, done);
    BatchConserves(AllUsable(n), Below(done), 1, f);
    GainedOne(done, f);
    assert Results([done], f) == [ResultOf(done, f(done))];
  }

  lemma GainedOne(done: nat, f: nat -> Attempt)
    ensures Below(done) + Gained([done], f) == Below(NextDone(done, f(done)))
  {
    assert Gained([done], f) == if NextDone(done, f(done)) == done + 1 then {done} else {};
    assert Below(done) + {} == Below(done);
  }

  lemma SinglesStep(n: nat, oracle: Oracle, k: nat, done: nat)
    requires SinglesState(n, oracle, k) == Below(done) && done < n
    ensures SinglesState(n, oracle, k + 1) == Below(NextDone(done, oracle(k, done)))
    ensures History(Singles(n, oracle), k + 1) == History(Singles(n, oracle), k) + [ResultOf(done, oracle(k, done))]
    ensures var b := Singles(n, oracle)(k);
            && b.Done? && b.summary.selected == b.summary.attempted == 1
            && b.summary.remainingAfter == |Remaining(AllUsable(n), SinglesState(n, oracle, k + 1))|
  {
    LiveBatch(AllUsable(n), Below(0), 1, oracle, Never(), k);
    BatchOfOne(n, done, Refresh(oracle, k));
  }

  lemma GoesOn(n: nat, oracle: Oracle, k: nat, done: nat)
    requires SinglesState(n, oracle, k) == Below(done) && done < n
    requires NextDone(done, oracle(k, done)) < n && !ThreeInARow(History(Singles(n, oracle), k + 1))
    ensures Verdict(Singles(n, oracle), k).None?
  {
    SinglesStep(n, oracle, k, done);
    NextRank(n, NextDone(done, oracle(k, done)));
  }

  // Each application fails twice and then succeeds.
  function ThirdTime(): Oracle {
    (k: nat, r: nat) => if k % 3 == 2 then Finished(Success, false, false) else Finished(AiError, false, false)
  }

  lemma Attempts(done: nat, tries: nat)
    requires tries < 3
    ensures ThirdTime()(3 * done + tries, done).Finished?
    ensures ThirdTime()(3 * done + tries, done).outcome == if tries == 2 then Success else AiError
  {
  }

  ghost predicate AfterTries(n: nat, done: nat, tries: nat) {
    && SinglesState(n, ThirdTime(), 3 * done + tries) == Below(done)
    && TrailingRun(History(Singles(n, ThirdTime()), 3 * done + tries)) == tries
    && !ThreeInARow(History(Singles(n, ThirdTime()), 3 * done + tries))
  }

  lemma NextTry(n: nat, done: nat, tries: nat)
    requires tries < 3 && done < n && AfterTries(n, done, tries)
    ensures if tries == 2 then AfterTries(n, done + 1, 0) else AfterTries(n, done, tries + 1)
    ensures done + 1 < n || tries < 2 ==> Verdict(Singles(n, ThirdTime()), 3 * done + tries).None?
  {
    hide Singles, SinglesState, Below, History, ThreeInARow, TrailingRun, ThirdTime, Live, State, Verdict;
    var k := 3 * done + tries;
    Attempts(done, tries);
    SinglesStep(n, ThirdTime(), k, done);
    CounterStep(History(Singles(n, ThirdTime()), k), ResultOf(done, ThirdTime()(k, done)));
    assert k + 1 == if tries == 2 then 3 * (done + 1) else 3 * done + (tries + 1);
    if done + 1 < n || tries < 2 {
      GoesOn(n, ThirdTime(), k, done);
    }
  }

  lemma NoTriesYet(n: nat)
    ensures AfterTries(n, 0, 0)
  {
  }

  lemma {:induction false} ThirdTimeState(n: nat, done: nat, tries: nat)
    requires tries < 3 && done < n
    ensures AfterTries(n, done, tries)
    decreases done, tries
  {
    hide AfterTries;
    if tries > 0 {
      ThirdTimeState(n, done, tries - 1);
      NextTry(n, done, tries - 1);
    } else if done > 0 {
      ThirdTimeState(n, done - 1, 2);
      NextTry(n, done - 1, 2);
    } else {
      NoTriesYet(n);
    }
  }

  /** The bound is exact: n applications can take all 3n batches, so a cap one lower
      would be reached. */
  lemma BoundIsExact(n: nat, k: nat)
    requires k + 1 < 3 * n
    ensures EvidenceHolds(ThirdTime()) && |Remaining(AllUsable(n), Below(0))| == n
    ensures Verdict(Singles(n, ThirdTime()), k).None?
  {
    hide AfterTries, Singles;
    var done, tries := k / 3, k % 3;
    ThirdTimeState(n, done, tries);
    NextTry(n, done, tries);
    AllRemain(n);
  }

  lemma AllRemain(n: nat)
    ensures |Remaining(AllUsable(n), Below(0))| == n
  {
    assert Remaining(AllUsable(n), Below(0)) == Below(n);
  }

  function NoText(): Oracle {
    (k: nat, r: nat) => Finished(NoUsableText, false, false)
  }

  lemma {:induction false} NoTextState(k: nat)
    ensures SinglesState(1, NoText(), k) == Below(0)
    ensures !ThreeInARow(History(Singles(1, NoText()), k))
  {
    if k > 0 {
      NoTextState(k - 1);
      SinglesStep(1, NoText(), k - 1, 0);
      CounterStep(History(Singles(1, NoText()), k - 1), ResultOf(0, NoText()(k - 1, 0)));
    }
  }

  /** One application that never yields text is retried for ever: without EvidenceHolds
      no number of batches suffices. */
  lemma NoUsableTextNeverStops(k: nat)
    ensures Verdict(Singles(1, NoText()), k).None?
  {
    NoTextState(k);
    NoTextState(k + 1);
    GoesOn(1, NoText(), k, 0);
  }

  // Two systemic failures, then a missing text, for ever.
  function ThirdNoText(): Oracle {
    (k: nat, r: nat) => Finished(if k % 3 == 2 then NoUsableText else AiError, false, false)
  }

  ghost predicate NoTextAfter(k: nat) {
    && SinglesState(1, ThirdNoText(), k) == Below(0)
    && TrailingRun(History(Singles(1, ThirdNoText()), k)) == k % 3 && !ThreeInARow(History(Singles(1, ThirdNoText()), k))
    && NoTexts(Singles(1, ThirdNoText()), k) == k / 3
  }

  lemma ThirdNoTextIs(k: nat)
    ensures ThirdNoText()(k, 0) == Finished(if k % 3 == 2 then NoUsableText else AiError, false, false)
  {
  }

  lemma NoTextStep(k: nat)
    requires NoTextAfter(k)
    ensures NoTextAfter(k + 1)
  {
    hide Singles, SinglesState, Below, History, ThreeInARow, TrailingRun, Live, State, Verdict, ThirdNoText, NoTexts;
    ThirdNoTextIs(k);
    SinglesStep(1, ThirdNoText(), k, 0);
    CounterStep(History(Singles(1, ThirdNoText()), k), ResultOf(0, ThirdNoText()(k, 0)));
    SinglesTally(1, ThirdNoText(), k, 0);
  }

  lemma SinglesTally(n: nat, oracle: Oracle, k: nat, done: nat)
    requires SinglesState(n, oracle, k) == Below(done) && done < n
    ensures NoTexts(Singles(n, oracle), k + 1)
            == NoTexts(Singles(n, oracle), k) + (if ResultOf(done, oracle(k, done)).outcome.NoUsableText? then 1 else 0)
  {
    hide Below, State, AllUsable, Chosen, Results, TallyOf, NoTexts, After;
    BatchOfOne(n, done, Refresh(oracle, k));
    OneText(ResultOf(done, oracle(k, done)));
    TextsStep(AllUsable(n), Below(0), 1, oracle, Never(), k);
  }

  lemma OneText(r: Result)
    ensures TallyOf([r]).noUsableText == if r.outcome.NoUsableText? then 1 else 0
  {
    assert [r][..0] == [];
  }

  lemma {:induction false} NoTextStates(k: nat)
    ensures NoTextAfter(k)
  {
    hide NoTextAfter;
    if k > 0 {
      NoTextStates(k - 1);
      NoTextStep(k - 1);
    } else {
      NoTextsYet();
    }
  }

  lemma NoTextsYet()
    ensures NoTextAfter(0)
  {
  }

  /** The bound with missing texts is exact too: this run never stops, and after 3m + 2
      batches, one fewer than 3R + 3N, it has met just m. */
  lemma TextBoundIsExact(m: nat)
    ensures var live := Singles(1, ThirdNoText());
            && Reaches(live, 3 * m + 2) && |Remaining(AllUsable(1), Below(0))| == 1
            && NoTexts(live, 3 * m + 2) == m && 3 * m + 2 == 3 * 1 + 3 * m - 1
  {
    hide NoTextAfter, Verdict, Singles;
    AllRemain(1);
    NoTextStates(3 * m + 2);
    assert NoTexts(Singles(1, ThirdNoText()), 3 * m + 2) == m by { NoTextCount(3 * m + 2); }
    forall k: nat | k < 3 * m + 2 ensures Verdict(Singles(1, ThirdNoText()), k).None? {
      NoTextStates(k);
      NoTextStates(k + 1);
      NoTextGoesOn(k);
    }
  }

  lemma NoTextCount(k: nat)
    requires NoTextAfter(k)
    ensures NoTexts(Singles(1, ThirdNoText()), k) == k / 3
  {
  }

  lemma NoTextGoesOn(k: nat)
    requires NoTextAfter(k) && NoTextAfter(k + 1)
    ensures Verdict(Singles(1, ThirdNoText()), k).None?
  {
    GoesOn(1, ThirdNoText(), k, 0);
  }
}
