/** One bounded batch of the historical rebuild: which applications it selects, what
    each attempt does to the rebuild marker, and the summary it reports. */
module HistoricalRebuild {
  const MAX_BATCH_LIMIT := 50

  datatype Outcome = Success | NoUsableText | AiError | InvalidOutput | Error

  predicate Systemic(o: Outcome) {
    o.AiError? || o.InvalidOutput? || o.Error?
  }

  // What refreshing one application does: raise, or return an outcome. A successful
  // refresh commits the rebuild marker in the same transaction.
  datatype Attempt = Crashed | Finished(outcome: Outcome, tenureMismatch: bool, complexSite: bool)

  // An application is named by its rank in the selection order.
  datatype Result = Result(rank: nat, outcome: Outcome, tenureMismatch: bool, complexSite: bool)

  datatype Tally = Tally(success: nat, warned: nat, noUsableText: nat, aiError: nat, invalidOutput: nat, error: nat,
                         tenureMismatch: nat, complexSite: nat)
  {
    function Plus(other: Tally): Tally {
      Tally(success + other.success, warned + other.warned, noUsableText + other.noUsableText,
            aiError + other.aiError, invalidOutput + other.invalidOutput, error + other.error,
            tenureMismatch + other.tenureMismatch, complexSite + other.complexSite)
    }

    function Failures(): nat {
      aiError + invalidOutput + error
    }

    function All(): nat {
      success + warned + noUsableText + Failures()
    }
  }

  const NOTHING := Tally(0, 0, 0, 0, 0, 0, 0, 0)

  datatype Summary = Summary(selected: nat, attempted: nat, tally: Tally,
                             rebuiltBefore: nat, rebuiltAfter: nat, remainingAfter: nat, results: seq<Result>)

  datatype Batch = Raised | Done(summary: Summary)

  /* ----- selection ----- */

  predicate Eligible(usable: seq<bool>, rebuilt: set<nat>, r: nat) {
    r < |usable| && usable[r] && r !in rebuilt
  }

  function Remaining(usable: seq<bool>, rebuilt: set<nat>): set<nat> {
    set r | 0 <= r < |usable| && Eligible(usable, rebuilt, r)
  }

  predicate Increasing(s: seq<nat>) {
    forall i, j | 0 <= i < j < |s| :: s[i] < s[j]
  }

  // The first `limit` eligible ranks, in order.
  ghost predicate Selection(usable: seq<bool>, rebuilt: set<nat>, limit: int, chosen: seq<nat>) {
    && Increasing(chosen)
    && (forall r | r in chosen :: Eligible(usable, rebuilt, r))
    && |chosen| <= (if limit > 0 then limit else 0)
    && (|chosen| < limit ==> forall r: nat | Eligible(usable, rebuilt, r) :: r in chosen)
    && (forall r: nat, c | Eligible(usable, rebuilt, r) && c in chosen && r < c :: r in chosen)
  }

  function Select(usable: seq<bool>, rebuilt: set<nat>, limit: int, n: nat): seq<nat>
    requires n <= |usable|
  {
    if n == 0 then []
    else
      var before := Select(usable, rebuilt, limit, n - 1);
      if |before| < limit && usable[n - 1] && n - 1 !in rebuilt then before + [n - 1] else before
  }

  lemma {:induction false} SelectSelects(usable: seq<bool>, rebuilt: set<nat>, limit: int, n: nat)
    requires n <= |usable|
    ensures Selection(usable[..n], rebuilt, limit, Select(usable, rebuilt, limit, n))
  {
    if n > 0 {
      SelectSelects(usable, rebuilt, limit, n - 1);
      SelectStep(usable, rebuilt, limit, n);
    }
  }

  lemma SelectStep(usable: seq<bool>, rebuilt: set<nat>, limit: int, n: nat)
    requires 0 < n <= |usable|
    requires Selection(usable[..n - 1], rebuilt, limit, Select(usable, rebuilt, limit, n - 1))
    ensures Selection(usable[..n], rebuilt, limit, Select(usable, rebuilt, limit, n))
  {
    var u := usable[n - 1];
    SelectionStep(usable[..n - 1], u, rebuilt, limit, Select(usable, rebuilt, limit, n - 1));
    assert usable[..n - 1] + [u] == usable[..n];
  }

  lemma SelectionStep(usable: seq<bool>, u: bool, rebuilt: set<nat>, limit: int, chosen: seq<nat>)
    requires Selection(usable, rebuilt, limit, chosen)
    ensures var n := |usable|;
            Selection(usable + [u], rebuilt, limit, if |chosen| < limit && u && n !in rebuilt then chosen + [n] else chosen)
  {
    var n, more := |usable|, usable + [u];
    forall r: nat ensures Eligible(more, rebuilt, r) <==> Eligible(usable, rebuilt, r) || (r == n && u && n !in rebuilt) {}
    forall r | r in chosen ensures r < n { assert Eligible(usable, rebuilt, r); }
    var longer := chosen + [n];
    forall r ensures r in longer <==> r in chosen || r == n {}
    assert forall i | 0 <= i < |chosen| :: chosen[i] in chosen;
  }

  function Chosen(usable: seq<bool>, rebuilt: set<nat>, limit: int): seq<nat> {
    Select(usable, rebuilt, limit, |usable|)
  }

  lemma ChosenIsSelection(usable: seq<bool>, rebuilt: set<nat>, limit: int)
    ensures Selection(usable, rebuilt, limit, Chosen(usable, rebuilt, limit))
  {
    SelectSelects(usable, rebuilt, limit, |usable|);
    assert usable[..|usable|] == usable;
  }

  /** The rule of Selection determines the selection. */
  lemma SelectionUnique(usable: seq<bool>, rebuilt: set<nat>, limit: int, a: seq<nat>, b: seq<nat>)
    requires Selection(usable, rebuilt, limit, a) && Selection(usable, rebuilt, limit, b)
    ensures a == b
  {
    if |a| <= |b| {
      SamePrefix(usable, rebuilt, limit, a, b, |a|);
      SelectionSize(usable, rebuilt, limit, a, b);
    } else {
      SamePrefix(usable, rebuilt, limit, b, a, |b|);
      SelectionSize(usable, rebuilt, limit, b, a);
    }
  }

  lemma SelectionSize(usable: seq<bool>, rebuilt: set<nat>, limit: int, a: seq<nat>, b: seq<nat>)
    requires Selection(usable, rebuilt, limit, a) && Selection(usable, rebuilt, limit, b)
    requires |a| <= |b| && a == b[..|a|]
    ensures a == b
  {
    if |a| < limit && b != [] {
      var last := b[|b| - 1];
      assert last in b && Eligible(usable, rebuilt, last);
      var i :| 0 <= i < |a| && a[i] == last;
      assert b[..|a|][i] == last;
    }
  }

  lemma {:induction false} SamePrefix(usable: seq<bool>, rebuilt: set<nat>, limit: int, a: seq<nat>, b: seq<nat>, n: nat)
    requires Selection(usable, rebuilt, limit, a) && Selection(usable, rebuilt, limit, b)
    requires n <= |a| <= |b|
    ensures a[..n] == b[..n]
  {
    if n > 0 {
      SamePrefix(usable, rebuilt, limit, a, b, n - 1);
      NotBefore(usable, rebuilt, limit, a, b, n - 1);
      NotBefore(usable, rebuilt, limit, b, a, n - 1);
      assert a[..n] == a[..n - 1] + [a[n - 1]] && b[..n] == b[..n - 1] + [b[n - 1]];
    }
  }

  lemma NotBefore(usable: seq<bool>, rebuilt: set<nat>, limit: int, a: seq<nat>, b: seq<nat>, n: nat)
    requires Selection(usable, rebuilt, limit, a) && Selection(usable, rebuilt, limit, b)
    requires n < |a| && n < |b| && a[..n] == b[..n]
    ensures !(a[n] < b[n])
  {
    assert a[n] in a && b[n] in b;
    assert Eligible(usable, rebuilt, a[n]);
    forall i | 0 <= i < |b| ensures a[n] < b[n] ==> b[i] != a[n] {
      if i < n {
        assert a[..n][i] == b[..n][i];
      }
    }
  }

  /* ----- one batch ----- */

  function ResultOf(rank: nat, a: Attempt): Result {
    if a.Crashed? then Result(rank, Error, false, false)
    else Result(rank, a.outcome, a.outcome.Success? && a.tenureMismatch, a.outcome.Success? && a.complexSite)
  }

  function Results(chosen: seq<nat>, refresh: nat -> Attempt): seq<Result> {
    seq(|chosen|, i requires 0 <= i < |chosen| => ResultOf(chosen[i], refresh(chosen[i])))
  }

  function Rebuilt(results: seq<Result>): set<nat> {
    set r | r in results && r.outcome.Success? :: r.rank
  }

  function One(r: Result): Tally {
    var warned := r.tenureMismatch || r.complexSite;
    Tally(if r.outcome.Success? && !warned then 1 else 0, if r.outcome.Success? && warned then 1 else 0,
          if r.outcome.NoUsableText? then 1 else 0, if r.outcome.AiError? then 1 else 0,
          if r.outcome.InvalidOutput? then 1 else 0, if r.outcome.Error? then 1 else 0,
          if r.tenureMismatch then 1 else 0, if r.complexSite then 1 else 0)
  }

  function TallyOf(results: seq<Result>): Tally {
    if results == [] then NOTHING
    else TallyOf(results[..|results| - 1]).Plus(One(results[|results| - 1]))
  }

  lemma OneMore(t: Tally, r: Result)
    ensures t.Plus(One(r)).All() == t.All() + 1
    ensures t.Plus(One(r)).Failures() == t.Failures() + (if Systemic(r.outcome) then 1 else 0)
  {
  }

  lemma CompleteStep(results: seq<Result>, r: Result)
    requires TallyOf(results).All() == |results| && TallyOf(results).Failures() == SystemicCount(results)
    ensures TallyOf(results + [r]).All() == |results + [r]|
    ensures TallyOf(results + [r]).Failures() == SystemicCount(results + [r])
  {
    hide One, TallyOf;
    TallyAppend(results, r);
    OneMore(TallyOf(results), r);
    assert (results + [r])[..|results|] == results;
  }

  /** The tally accounts for every result exactly once. */
  lemma {:induction false} TallyComplete(results: seq<Result>)
    ensures TallyOf(results).All() == |results|
    ensures TallyOf(results).Failures() == SystemicCount(results)
    decreases |results|
  {
    if results == [] {
      assert SystemicCount(results) == 0;
    } else {
      var init, last := results[..|results| - 1], results[|results| - 1];
      assert results == init + [last];
      TallyComplete(init);
      CompleteStep(init, last);
    }
  }

  function SystemicCount(results: seq<Result>): (n: nat)
    ensures n <= |results|
    ensures n == |results| <==> forall r | r in results :: Systemic(r.outcome)
    ensures n == 0 <==> forall r | r in results :: !Systemic(r.outcome)
  {
    if results == [] then 0
    else
      assert results == results[..|results| - 1] + [results[|results| - 1]];
      SystemicCount(results[..|results| - 1]) + (if Systemic(results[|results| - 1].outcome) then 1 else 0)
  }

  function SummaryOf(usable: seq<bool>, rebuilt: set<nat>, limit: int, refresh: nat -> Attempt): Summary {
    var results := Results(Chosen(usable, rebuilt, limit), refresh);
    var after := rebuilt + Rebuilt(results);
    Summary(|results|, |results|, TallyOf(results), |rebuilt|, |after|, |Remaining(usable, after)|, results)
  }

  function After(usable: seq<bool>, rebuilt: set<nat>, limit: int, refresh: nat -> Attempt): set<nat> {
    rebuilt + Rebuilt(Results(Chosen(usable, rebuilt, limit), refresh))
  }

  /* ----- what the counters of a batch count ----- */

  datatype Kind = Clean | Warned | NoText | AiFailed | Invalid | Broken | TenureWarned | ComplexWarned

  // A crash counts as an error; warnings are only looked for on success.
  predicate IsKind(a: Attempt, k: Kind) {
    match k
    case Clean => a == Finished(Success, false, false)
    case Warned => a.Finished? && a.outcome == Success && (a.tenureMismatch || a.complexSite)
    case NoText => a.Finished? && a.outcome == NoUsableText
    case AiFailed => a.Finished? && a.outcome == AiError
    case Invalid => a.Finished? && a.outcome == InvalidOutput
    case Broken => a.Crashed? || a.outcome == Error
    case TenureWarned => a.Finished? && a.outcome == Success && a.tenureMismatch
    case ComplexWarned => a.Finished? && a.outcome == Success && a.complexSite
  }

  function CountKind(chosen: seq<nat>, refresh: nat -> Attempt, k: Kind): nat {
    if chosen == [] then 0
    else CountKind(chosen[..|chosen| - 1], refresh, k) + (if IsKind(refresh(chosen[|chosen| - 1]), k) then 1 else 0)
  }

  function CounterOf(t: Tally, k: Kind): nat {
    match k
    case Clean => t.success
    case Warned => t.warned
    case NoText => t.noUsableText
    case AiFailed => t.aiError
    case Invalid => t.invalidOutput
    case Broken => t.error
    case TenureWarned => t.tenureMismatch
    case ComplexWarned => t.complexSite
  }

  lemma CounterStep(t: Tally, rank: nat, a: Attempt, k: Kind)
    ensures CounterOf(t.Plus(One(ResultOf(rank, a))), k) == CounterOf(t, k) + (if IsKind(a, k) then 1 else 0)
  {
  }

  /** Each counter of a batch is the number of its attempts of that kind. */
  lemma {:induction false} CountersCount(chosen: seq<nat>, refresh: nat -> Attempt, k: Kind)
    ensures CounterOf(TallyOf(Results(chosen, refresh)), k) == CountKind(chosen, refresh, k)
    decreases |chosen|
  {
    hide CounterOf, IsKind, One, ResultOf;
    if chosen == [] {
      NothingCounted(k);
    } else {
      var n := |chosen| - 1;
      CountersCount(chosen[..n], refresh, k);
      ResultsStep(chosen, refresh, n);
      assert chosen[..n + 1] == chosen;
      TallyAppend(Results(chosen[..n], refresh), ResultOf(chosen[n], refresh(chosen[n])));
      CounterStep(TallyOf(Results(chosen[..n], refresh)), chosen[n], refresh(chosen[n]), k);
    }
  }

  lemma NothingCounted(k: Kind)
    ensures CounterOf(NOTHING, k) == 0
  {
  }

  class Corpus {
    const usable: seq<bool>
    var rebuilt: set<nat>

    constructor (usable: seq<bool>, rebuilt: set<nat>)
      ensures this.usable == usable && this.rebuilt == rebuilt
    {
      this.usable := usable;
      this.rebuilt := rebuilt;
    }

    method SelectCandidates(limit: int) returns (chosen: seq<nat>)
      ensures chosen == Chosen(usable, rebuilt, limit)
      ensures Selection(usable, rebuilt, limit, chosen)
      ensures forall r | r in chosen :: r < |usable| && usable[r] && r !in rebuilt
      ensures |chosen| < limit ==> forall r: nat | r < |usable| && usable[r] && r !in rebuilt :: r in chosen
    {
      chosen := [];
      var i := 0;
      while i < |usable|
        invariant 0 <= i <= |usable|
        invariant chosen == Select(usable, rebuilt, limit, i)
      {
        if |chosen| >= limit {
          SelectFull(usable, rebuilt, limit, i, |usable|);
          ChosenIsSelection(usable, rebuilt, limit);
          return;
        }
        if usable[i] && i !in rebuilt {
          chosen := chosen + [i];
        }
        i := i + 1;
      }
      ChosenIsSelection(usable, rebuilt, limit);
    }

    method ProcessOneCandidate(rank: nat, attempt: Attempt) returns (result: Result)
      modifies this
      ensures result == ResultOf(rank, attempt)
      ensures result.outcome == match attempt case Crashed => Error case Finished(outcome, _, _) => outcome
      ensures rebuilt == old(rebuilt) + (if result.outcome.Success? then {rank} else {})
    {
      match attempt
      case Crashed =>
        result := Result(rank, Error, false, false);
      case Finished(outcome, tenureMismatch, complexSite) =>
        if outcome != Success {
          return Result(rank, outcome, false, false);
        }
        rebuilt := rebuilt + {rank};
        result := Result(rank, outcome, tenureMismatch, complexSite);
    }

    method ProcessInOrder(chosen: seq<nat>, refresh: nat -> Attempt)
        returns (attempted: nat, tally: Tally, results: seq<Result>)
      modifies this
      ensures attempted == |chosen| && results == Results(chosen, refresh) && tally == TallyOf(results)
      ensures rebuilt == old(rebuilt) + Rebuilt(results)
    {
      attempted, tally, results := 0, NOTHING, [];
      for i := 0 to |chosen|
        invariant attempted == i
        invariant results == Results(chosen[..i], refresh)
        invariant tally == TallyOf(results)
        invariant rebuilt == old(rebuilt) + Rebuilt(results)
      {
        attempted := attempted + 1;
        var result := ProcessOneCandidate(chosen[i], refresh(chosen[i]));
        RebuiltAppend(results, result);
        TallyAppend(results, result);
        ResultsStep(chosen, refresh, i);
        results := results + [result];
        tally := tally.Plus(One(result));
      }
      assert chosen[..|chosen|] == chosen;
    }

    /** A live batch: an over-limit request raises before anything is touched;
        otherwise the selected applications are attempted in order. */
    method RunHistoricalRebuild(limit: int, refresh: nat -> Attempt) returns (batch: Batch)
      modifies this
      ensures limit > 50 ==> batch == Raised && rebuilt == old(rebuilt)
      ensures limit <= 50 ==>
                && batch == Done(SummaryOf(usable, old(rebuilt), limit, refresh))
                && rebuilt == After(usable, old(rebuilt), limit, refresh)
                && batch.summary.selected == batch.summary.attempted == |Chosen(usable, old(rebuilt), limit)|
                && batch.summary.rebuiltBefore == |old(rebuilt)| && batch.summary.rebuiltAfter == |rebuilt|
                && batch.summary.remainingAfter == |set r | 0 <= r < |usable| && usable[r] && r !in rebuilt|
    {
      if limit > MAX_BATCH_LIMIT {
        return Raised;
      }
      var chosen := SelectCandidates(limit);
      var before := |rebuilt|;
      var attempted, tally, results := ProcessInOrder(chosen, refresh);
      assert Remaining(usable, rebuilt) == set r | 0 <= r < |usable| && usable[r] && r !in rebuilt;
      batch := Done(Summary(|chosen|, attempted, tally, before, |rebuilt|, |Remaining(usable, rebuilt)|, results));
    }
  }

  lemma {:induction false} SelectFull(usable: seq<bool>, rebuilt: set<nat>, limit: int, i: nat, n: nat)
    requires i <= n <= |usable| && |Select(usable, rebuilt, limit, i)| >= limit
    ensures Select(usable, rebuilt, limit, n) == Select(usable, rebuilt, limit, i)
  {
    if i < n {
      SelectFull(usable, rebuilt, limit, i, n - 1);
    }
  }

  lemma ResultsStep(chosen: seq<nat>, refresh: nat -> Attempt, i: nat)
    requires i < |chosen|
    ensures Results(chosen[..i + 1], refresh) == Results(chosen[..i], refresh) + [ResultOf(chosen[i], refresh(chosen[i]))]
  {
  }

  lemma TallyAppend(results: seq<Result>, r: Result)
    ensures TallyOf(results + [r]) == TallyOf(results).Plus(One(r))
  {
    assert (results + [r])[..|results|] == results;
  }

  lemma RebuiltAppend(results: seq<Result>, r: Result)
    ensures Rebuilt(results + [r]) == Rebuilt(results) + (if r.outcome.Success? then {r.rank} else {})
  {
    var all := results + [r];
    forall q | q in all ensures q in results || q == r {}
    assert forall q | q in results :: q in all;
    assert r in all;
  }

  /* ----- what a batch changes ----- */

  function Gained(chosen: seq<nat>, refresh: nat -> Attempt): set<nat> {
    set r | r in chosen && refresh(r).Finished? && refresh(r).outcome.Success?
  }

  /** Only selected, previously eligible applications are marked; the remaining backlog
      falls by exactly as many as the rebuilt count rises. */
  lemma BatchConserves(usable: seq<bool>, rebuilt: set<nat>, limit: int, refresh: nat -> Attempt)
    ensures var after := After(usable, rebuilt, limit, refresh);
            var gained := Gained(Chosen(usable, rebuilt, limit), refresh);
            && after == rebuilt + gained && rebuilt !! gained
            && |after| == |rebuilt| + |gained|
            && Remaining(usable, after) == Remaining(usable, rebuilt) - gained
            && |Remaining(usable, after)| == |Remaining(usable, rebuilt)| - |gained|
  {
    var after, chosen := After(usable, rebuilt, limit, refresh), Chosen(usable, rebuilt, limit);
    var gained := Gained(chosen, refresh);
    RebuiltOfResults(chosen, refresh);
    ChosenIsSelection(usable, rebuilt, limit);
    assert gained <= Remaining(usable, rebuilt);
    assert Remaining(usable, after) == Remaining(usable, rebuilt) - gained;
    assert Remaining(usable, rebuilt) == Remaining(usable, after) + gained;
  }

  lemma RebuiltOfResults(chosen: seq<nat>, refresh: nat -> Attempt)
    ensures Rebuilt(Results(chosen, refresh)) == Gained(chosen, refresh)
  {
    var results := Results(chosen, refresh);
    forall i | 0 <= i < |chosen| ensures results[i] in results && results[i] == ResultOf(chosen[i], refresh(chosen[i])) {}
    forall r | r in Gained(chosen, refresh) ensures r in Rebuilt(results) {
      var i :| 0 <= i < |chosen| && chosen[i] == r;
      assert results[i] in results;
    }
    forall r | r in Rebuilt(results) ensures r in Gained(chosen, refresh) {
      var q :| q in results && q.outcome.Success? && q.rank == r;
      var i :| 0 <= i < |results| && results[i] == q;
      assert chosen[i] == r;
    }
  }
}
