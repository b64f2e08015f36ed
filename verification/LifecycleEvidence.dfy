/** The UI lifecycle harness, which records one snapshot per stage, and the validator that
    later has to decide from its files alone whether a complete, clean run happened. */
module LifecycleEvidence {
  import opened Prelude

  datatype Stage =
    | Dashboard | Rerun(i: nat) | Navigation(page: nat) | Independent(i: nat) | AllocationSiteMatches | Stop | RerunAction

  const RERUNS := 18
  const PAGES := 9

  // The stages the validator expects, in order.
  function Expected(): (s: seq<Stage>)
    ensures |s| == 2 * RERUNS + PAGES + 4
  {
    [Dashboard] + seq(RERUNS, (i: nat) => Rerun(i)) + seq(PAGES, (i: nat) => Navigation(i))
    + seq(RERUNS, (i: nat) => Independent(i)) + [AllocationSiteMatches, Stop, RerunAction]
  }

  /** The 49 stages: the dashboard, 18 reruns of it, the nine pages, 18 independent
      sessions, the unlisted review page, and a stopped and a rerun script. */
  lemma ExpectedIs()
    ensures |Expected()| == 49 && Expected()[0] == Dashboard
    ensures forall i: nat | i < 18 :: Expected()[1 + i] == Rerun(i)
    ensures forall i: nat | i < 9 :: Expected()[19 + i] == Navigation(i)
    ensures forall i: nat | i < 18 :: Expected()[28 + i] == Independent(i)
    ensures Expected()[46..] == [AllocationSiteMatches, Stop, RerunAction]
  {
  }

  datatype Snapshot = Snapshot(stage: Stage, checkout: int, checkin: int, outstanding: int, transactions: int,
                               newSessions: int, errors: nat)
  datatype Evidence = Evidence(baseline: int, snapshots: seq<Snapshot>)

  // The completion line of the log.
  datatype Marker = Marker(checkpoints: int, sessions: int, checkout: int, checkin: int, outstanding: int)

  /* ----- the validator ----- */

  predicate CleanSnapshot(s: Snapshot) {
    && s.checkout >= 0 && s.checkin >= 0 && s.outstanding >= 0 && s.transactions >= 0 && s.newSessions >= 0
    && s.checkout == s.checkin && s.outstanding == 0 && s.transactions == 0 && s.errors == 0 && s.newSessions >= 1
  }

  function Sessions(snapshots: seq<Snapshot>): int {
    if snapshots == [] then 0 else Sessions(snapshots[..|snapshots| - 1]) + snapshots[|snapshots| - 1].newSessions
  }

  function LastCheckout(snapshots: seq<Snapshot>): int {
    if snapshots == [] then 0 else snapshots[|snapshots| - 1].checkout
  }

  function Stages(snapshots: seq<Snapshot>): seq<Stage> {
    seq(|snapshots|, i requires 0 <= i < |snapshots| => snapshots[i].stage)
  }

  /** What one accepted snapshot shows, and what the harness asserts of it: nothing still
      checked out, open or shown, as many returns as checkouts, and a session of its own. */
  lemma CleanIs(s: Snapshot)
    ensures CleanSnapshot(s) <==>
              s.checkout == s.checkin >= 0 && s.outstanding == 0 && s.transactions == 0 && s.errors == 0 && s.newSessions > 0
    ensures forall baseline: nat :: Asserted(baseline, s) <==>
              s.checkout == s.checkin && s.outstanding == baseline && s.transactions == 0 && s.errors == 0 && s.newSessions > 0
  {
  }

  // What accepted evidence shows.
  ghost predicate Acceptable(e: Evidence, log: seq<Marker>) {
    && e.baseline == 0 && Stages(e.snapshots) == Expected()
    && (forall i | 0 <= i < |e.snapshots| :: CleanSnapshot(e.snapshots[i]))
    && (forall i, j | 0 <= i < j < |e.snapshots| :: e.snapshots[i].checkout <= e.snapshots[j].checkout)
    && log == [Marker(|Expected()|, Sessions(e.snapshots), LastCheckout(e.snapshots), LastCheckout(e.snapshots), 0)]
  }

  predicate Rises(s: seq<Snapshot>) {
    forall i | 0 <= i < |s| - 1 :: s[i].checkout <= s[i + 1].checkout
  }

  /** Accepted evidence: a zero baseline, the expected stages in order, every snapshot
      clean, checkouts that never fall, and one completion line with their totals. */
  lemma AcceptableIff(e: Evidence, log: seq<Marker>)
    ensures Acceptable(e, log) <==>
              && e.baseline == 0 && |e.snapshots| == |Expected()|
              && (forall i | 0 <= i < |e.snapshots| ::
                    var s := e.snapshots[i];
                    && s.stage == Expected()[i] && s.checkout == s.checkin >= 0 && s.outstanding == 0 && s.transactions == 0
                    && s.errors == 0 && s.newSessions > 0)
              && Rises(e.snapshots)
              && log == [Marker(|Expected()|, Sessions(e.snapshots), e.snapshots[|e.snapshots| - 1].checkout,
                                e.snapshots[|e.snapshots| - 1].checkin, 0)]
  {
    hide Expected, Sessions, CleanSnapshot;
    var n := |Expected()|;
    ExpectedIs();
    forall i | 0 <= i < |e.snapshots| ensures CleanSnapshot(e.snapshots[i]) <==>
        e.snapshots[i].checkout == e.snapshots[i].checkin >= 0 && e.snapshots[i].outstanding == 0
        && e.snapshots[i].transactions == 0 && e.snapshots[i].errors == 0 && e.snapshots[i].newSessions > 0
    {
      CleanIs(e.snapshots[i]);
    }
    assert Stages(e.snapshots) == Expected() <==>
             |e.snapshots| == n && forall i | 0 <= i < n :: e.snapshots[i].stage == Expected()[i];
    RisesIff(e.snapshots);
  }

  lemma RisesIff(s: seq<Snapshot>)
    ensures Rises(s) <==> forall i, j | 0 <= i < j < |s| :: s[i].checkout <= s[j].checkout
  {
    if Rises(s) {
      forall i, j | 0 <= i < j < |s| ensures s[i].checkout <= s[j].checkout {
        RisesTo(s, i, j);
      }
    }
  }

  lemma {:induction false} RisesTo(s: seq<Snapshot>, i: nat, j: nat)
    requires Rises(s) && i <= j < |s|
    ensures s[i].checkout <= s[j].checkout
  {
    if i < j {
      RisesTo(s, i, j - 1);
      assert s[j - 1].checkout <= s[j - 1 + 1].checkout;
    }
  }

  lemma SessionsIs(snapshots: seq<Snapshot>, s: Snapshot)
    ensures Sessions([]) == 0 && Sessions(snapshots + [s]) == Sessions(snapshots) + s.newSessions
  {
    assert (snapshots + [s])[..|snapshots|] == snapshots;
  }

  method Validate(e: Evidence, log: seq<Marker>) returns (pass: bool)
    ensures pass <==> Acceptable(e, log)
  {
    if e.baseline != 0 || Stages(e.snapshots) != Expected() {
      return false;
    }
    var previous, sessions := 0, 0;
    for k := 0 to |e.snapshots|
      invariant previous == LastCheckout(e.snapshots[..k]) && sessions == Sessions(e.snapshots[..k])
      invariant forall i | 0 <= i < k :: CleanSnapshot(e.snapshots[i]) && e.snapshots[i].checkout <= previous
      invariant forall i, j | 0 <= i < j < k :: e.snapshots[i].checkout <= e.snapshots[j].checkout
      invariant previous >= 0
    {
      assert e.snapshots[..k + 1][..k] == e.snapshots[..k];
      var s := e.snapshots[k];
      if s.checkout < 0 || s.checkin < 0 || s.outstanding < 0 || s.transactions < 0 || s.newSessions < 0 {
        return false;
      }
      if !(s.checkout == s.checkin && s.checkout >= previous) {
        assert s.checkout < previous ==> k > 0 && e.snapshots[k - 1].checkout == previous;
        return false;
      }
      if !(s.outstanding == s.transactions == 0) || s.errors != 0 || s.newSessions < 1 {
        return false;
      }
      previous := s.checkout;
      sessions := sessions + s.newSessions;
    }
    assert e.snapshots[..|e.snapshots|] == e.snapshots;
    pass := log == [Marker(|Expected()|, sessions, previous, previous, 0)];
  }

  /* ----- the harness ----- */

  // What happens while one stage runs: connections taken and returned, sessions opened,
  // transactions still open at its end, exceptions shown. A stage whose own run raises (a
  // timeout, say) ends the script without a snapshot.
  datatype Activity = Activity(raises: bool, checkouts: nat, checkins: nat, sessions: nat, transactions: nat, errors: nat)

  function Taken(acts: seq<Activity>): nat {
    if acts == [] then 0 else Taken(acts[..|acts| - 1]) + acts[|acts| - 1].checkouts
  }

  function Returned(acts: seq<Activity>): nat {
    if acts == [] then 0 else Returned(acts[..|acts| - 1]) + acts[|acts| - 1].checkins
  }

  function Opened(acts: seq<Activity>): nat {
    if acts == [] then 0 else Opened(acts[..|acts| - 1]) + acts[|acts| - 1].sessions
  }

  // The snapshot after the last of these stages; the pool's own count moves with the
  // checkouts and checkins since the baseline was read.
  function SnapshotAfter(baseline: nat, stage: Stage, acts: seq<Activity>): Snapshot
    requires acts != []
  {
    var last := acts[|acts| - 1];
    Snapshot(stage, Taken(acts), Returned(acts), baseline + Taken(acts) - Returned(acts), last.transactions, last.sessions, last.errors)
  }

  // The harness's own assertions on a snapshot.
  predicate Asserted(baseline: nat, s: Snapshot) {
    s.errors == 0 && s.outstanding == baseline && s.transactions == 0 && s.checkout == s.checkin && s.newSessions >= 1
  }

  ghost predicate Recorded(baseline: nat, acts: seq<Activity>, snapshots: seq<Snapshot>) {
    |snapshots| <= |acts| && |snapshots| <= |Expected()|
    && forall i | 0 <= i < |snapshots| :: snapshots[i] == SnapshotAfter(baseline, Expected()[i], acts[..i + 1])
  }

  // Ended by a snapshot that fails the harness's assertions, or by a stage that raised.
  ghost predicate Aborted(baseline: nat, acts: seq<Activity>, snapshots: seq<Snapshot>) {
    || (snapshots != [] && !Asserted(baseline, snapshots[|snapshots| - 1]))
    || (|snapshots| < |acts| && |snapshots| < |Expected()| && acts[|snapshots|].raises)
  }

  lemma RecordedStep(baseline: nat, acts: seq<Activity>, snapshots: seq<Snapshot>)
    requires Recorded(baseline, acts, snapshots) && |snapshots| < |acts| && |snapshots| < |Expected()|
    ensures var n := |snapshots|;
            && Recorded(baseline, acts, snapshots + [SnapshotAfter(baseline, Expected()[n], acts[..n + 1])])
            && Taken(acts[..n + 1]) == Taken(acts[..n]) + acts[n].checkouts
            && Returned(acts[..n + 1]) == Returned(acts[..n]) + acts[n].checkins
            && Opened(acts[..n + 1]) == Opened(acts[..n]) + acts[n].sessions
  {
    hide Expected;
    var n := |snapshots|;
    assert acts[..n + 1][..n] == acts[..n];
  }

  class Harness {
    const baseline: nat
    const acts: seq<Activity>
    var checkout: nat
    var checkin: nat
    var sessions: nat
    var snapshots: seq<Snapshot>

    constructor (baseline: nat, acts: seq<Activity>)
      ensures this.baseline == baseline && this.acts == acts
      ensures checkout == 0 && checkin == 0 && sessions == 0 && snapshots == []
    {
      this.baseline, this.acts := baseline, acts;
      checkout, checkin, sessions, snapshots := 0, 0, 0, [];
    }

    ghost predicate Valid()
      reads this
    {
      && |acts| == |Expected()| && Recorded(baseline, acts, snapshots)
      && var done := acts[..|snapshots|];
         checkout == Taken(done) && checkin == Returned(done) && sessions == Opened(done)
    }

    ghost predicate Clean()
      reads this
    {
      forall i | 0 <= i < |snapshots| :: Asserted(baseline, snapshots[i])
    }

    method Run(stage: Stage) returns (ok: bool)
      requires Valid() && Clean() && |snapshots| < |Expected()| && stage == Expected()[|snapshots|]
      modifies this
      ensures Valid() && |snapshots| == old(|snapshots|) + (if acts[old(|snapshots|)].raises then 0 else 1)
      ensures ok <==> Clean() && !acts[old(|snapshots|)].raises
      ensures !ok ==> Aborted(baseline, acts, snapshots)
    {
      hide Expected, Recorded;
      var before := sessions;
      var n := |snapshots|;
      var a := acts[n];
      if a.raises {
        return false;
      }
      RecordedStep(baseline, acts, snapshots);
      checkout, checkin, sessions := checkout + a.checkouts, checkin + a.checkins, sessions + a.sessions;
      var snapshot := Snapshot(stage, checkout, checkin, baseline + checkout - checkin, a.transactions, sessions - before, a.errors);
      snapshots := snapshots + [snapshot];
      ok := snapshot.errors == 0 && snapshot.outstanding == baseline && snapshot.transactions == 0
            && checkout == checkin && snapshot.newSessions >= 1;
      assert ok <==> Asserted(baseline, snapshots[n]);
    }

    method RunAll(stages: seq<Stage>) returns (ok: bool)
      requires Valid() && Clean() && stages <= Expected()[|snapshots|..]
      modifies this
      ensures Valid() && old(|snapshots|) <= |snapshots| <= old(|snapshots|) + |stages|
      ensures ok ==> Clean() && |snapshots| == old(|snapshots|) + |stages|
      ensures !ok ==> Aborted(baseline, acts, snapshots)
    {
      hide Expected, Aborted;
      ghost var from := |snapshots|;
      for k := 0 to |stages|
        invariant Valid() && Clean() && |snapshots| == from + k
      {
        assert stages[k] == Expected()[from..][k];
        ok := Run(stages[k]);
        if !ok {
          return;
        }
      }
      ok := true;
    }

    /** The whole script: every stage in turn, stopping at the first that raises or whose
        snapshot fails an assertion; the completion line is printed only at the end, and
        always says outstanding=0. The validator accepts what it leaves behind exactly for
        a completed run that started from zero. */
    method Produce() returns (completed: bool, log: seq<Marker>)
      requires snapshots == [] && checkout == 0 && checkin == 0 && sessions == 0 && |acts| == |Expected()|
      modifies this
      ensures Recorded(baseline, acts, snapshots)
      ensures completed ==> |snapshots| == |Expected()| && Clean()
      ensures !completed ==> Aborted(baseline, acts, snapshots)
      ensures Acceptable(Evidence(baseline, snapshots), log) <==> completed && baseline == 0
      ensures log == if completed then [Marker(|snapshots|, Opened(acts), Taken(acts), Returned(acts), 0)] else []
    {
      hide Aborted, Acceptable;
      log := [];
      var reruns := seq(RERUNS, (i: nat) => Rerun(i));
      var pages := seq(PAGES, (i: nat) => Navigation(i));
      var independents := seq(RERUNS, (i: nat) => Independent(i));
      ghost var all := Expected();
      completed := RunAll([Dashboard]);
      if !completed { AbortedRejected(baseline, acts, snapshots, log); return; }
      assert all[1..] == reruns + pages + independents + [AllocationSiteMatches, Stop, RerunAction];
      completed := RunAll(reruns);
      if !completed { AbortedRejected(baseline, acts, snapshots, log); return; }
      assert all[1 + RERUNS..] == pages + independents + [AllocationSiteMatches, Stop, RerunAction];
      completed := RunAll(pages);
      if !completed { AbortedRejected(baseline, acts, snapshots, log); return; }
      assert all[1 + RERUNS + PAGES..] == independents + [AllocationSiteMatches, Stop, RerunAction];
      completed := RunAll(independents);
      if !completed { AbortedRejected(baseline, acts, snapshots, log); return; }
      assert all[1 + RERUNS + PAGES + RERUNS..] == [AllocationSiteMatches, Stop, RerunAction];
      completed := RunAll([AllocationSiteMatches, Stop, RerunAction]);
      if !completed { AbortedRejected(baseline, acts, snapshots, log); return; }
      assert acts[..|acts|] == acts;
      log := [Marker(|snapshots|, sessions, checkout, checkin, 0)];
      CompletedAcceptedIff(baseline, acts, snapshots);
    }
  }

  /* ----- the two agree ----- */

  lemma {:induction false} CountersGrow(acts: seq<Activity>, i: nat, j: nat)
    requires i <= j <= |acts|
    ensures Taken(acts[..i]) <= Taken(acts[..j])
  {
    if i < j {
      CountersGrow(acts, i, j - 1);
      assert acts[..j][..j - 1] == acts[..j - 1];
    }
  }

  lemma {:induction false} SessionsOpened(baseline: nat, acts: seq<Activity>, snapshots: seq<Snapshot>, n: nat)
    requires Recorded(baseline, acts, snapshots) && n <= |snapshots|
    ensures Sessions(snapshots[..n]) == Opened(acts[..n])
  {
    if n > 0 {
      SessionsOpened(baseline, acts, snapshots, n - 1);
      assert snapshots[..n][..n - 1] == snapshots[..n - 1] && acts[..n][..n - 1] == acts[..n - 1];
    }
  }

  /** The evidence and log of a run that completed are accepted exactly when nothing was
      checked out at its start: the harness compares with its baseline, the validator with
      zero. */
  lemma {:induction false} CompletedAcceptedIff(baseline: nat, acts: seq<Activity>, snapshots: seq<Snapshot>)
    requires |acts| == |Expected()| == |snapshots| && Recorded(baseline, acts, snapshots)
    requires forall i | 0 <= i < |snapshots| :: Asserted(baseline, snapshots[i])
    ensures Acceptable(Evidence(baseline, snapshots), [Marker(|snapshots|, Opened(acts), Taken(acts), Returned(acts), 0)])
            <==> baseline == 0
  {
    hide Expected;
    var n := |snapshots|;
    assert snapshots[..n] == snapshots && acts[..n] == acts;
    SessionsOpened(baseline, acts, snapshots, n);
    forall i | 0 <= i < n ensures snapshots[i].stage == Expected()[i] {}
    assert Stages(snapshots) == Expected();
    forall i, j | 0 <= i < j < n ensures snapshots[i].checkout <= snapshots[j].checkout {
      CountersGrow(acts, i + 1, j + 1);
    }
    assert n > 0 ==> snapshots[n - 1] == SnapshotAfter(baseline, Expected()[n - 1], acts[..n]);
  }

  // Whatever ended it, evidence of fewer stages than expected is rejected.
  lemma IncompleteRejected(e: Evidence, log: seq<Marker>)
    requires |e.snapshots| < |Expected()|
    ensures !Acceptable(e, log)
  {
    assert |Stages(e.snapshots)| != |Expected()|;
  }

  /** Evidence of a run that stopped early, at a failed assertion or because a stage
      raised, is rejected whatever the log claims. */
  lemma {:induction false} AbortedRejected(baseline: nat, acts: seq<Activity>, snapshots: seq<Snapshot>, log: seq<Marker>)
    requires Aborted(baseline, acts, snapshots)
    ensures !Acceptable(Evidence(baseline, snapshots), log)
  {
    hide Expected;
    if snapshots != [] && !Asserted(baseline, snapshots[|snapshots| - 1]) {
      CleanMeansAsserted(snapshots[|snapshots| - 1]);
    } else {
      IncompleteRejected(Evidence(baseline, snapshots), log);
    }
  }

  lemma CleanMeansAsserted(s: Snapshot)
    ensures CleanSnapshot(s) ==> Asserted(0, s)
  {
  }
}
