/** The agent-evaluation benchmark: its free call estimate against what a paid run really
    executes, and the scorecard's counts and self-agreement. */
module Benchmark {
  import opened Prelude

  type CaseId = string
  type ConfigId = string

  datatype Case = Case(id: CaseId, zeroLlm: bool, repeated: bool, approved: bool)
  datatype Execution = Execution(config: ConfigId, caseId: CaseId, repeatIndex: nat)

  /* ----- estimate and execution ----- */

  function Repeats(c: Case, repeats: int): int {
    if c.zeroLlm then 0 else if c.repeated then repeats else 1
  }

  // base_calls of the estimate.
  function BaseCalls(cases: seq<Case>, repeats: int): int {
    if cases == [] then 0 else BaseCalls(cases[..|cases| - 1], repeats) + Repeats(cases[|cases| - 1], repeats)
  }

  // for repeat_index in range(n): nothing when n is negative.
  function Range(config: ConfigId, caseId: CaseId, n: int): seq<Execution> {
    if n <= 0 then [] else Range(config, caseId, n - 1) + [Execution(config, caseId, n - 1)]
  }

  function CaseRuns(config: ConfigId, cases: seq<Case>, repeats: int): seq<Execution> {
    if cases == [] then []
    else
      var last := cases[|cases| - 1];
      CaseRuns(config, cases[..|cases| - 1], repeats) + Range(config, last.id, Repeats(last, repeats))
  }

  function AllRuns(configs: seq<ConfigId>, cases: seq<Case>, repeats: int): seq<Execution> {
    if configs == [] then []
    else AllRuns(configs[..|configs| - 1], cases, repeats) + CaseRuns(configs[|configs| - 1], cases, repeats)
  }

  datatype Plan = Plan(perConfig: map<ConfigId, int>, totalMin: int, totalMax: int)

  method EstimateCallPlan(cases: seq<Case>, configs: seq<ConfigId>, repeats: int) returns (plan: Plan)
    ensures plan.totalMin == |configs| * BaseCalls(cases, repeats) && plan.totalMax == 2 * plan.totalMin
    ensures plan.perConfig == map c | c in configs :: BaseCalls(cases, repeats)
  {
    plan := Plan(map[], 0, 0);
    for i := 0 to |configs|
      invariant plan.totalMin == i * BaseCalls(cases, repeats) && plan.totalMax == 2 * plan.totalMin
      invariant plan.perConfig == map c | c in configs[..i] :: BaseCalls(cases, repeats)
    {
      var base := 0;
      for j := 0 to |cases|
        invariant base == BaseCalls(cases[..j], repeats)
      {
        assert cases[..j + 1][..j] == cases[..j];
        if !cases[j].zeroLlm {
          base := base + (if cases[j].repeated then repeats else 1);
        }
      }
      assert cases[..|cases|] == cases && configs[..i + 1] == configs[..i] + [configs[i]];
      plan := Plan(plan.perConfig[configs[i] := base], plan.totalMin + base, plan.totalMax + base * 2);
    }
    assert configs[..|configs|] == configs;
  }

  // The innermost loop: the repeats of one case under one configuration.
  method RunCase(config: ConfigId, c: Case, repeats: int, before: seq<Execution>) returns (runs: seq<Execution>)
    ensures runs == before + Range(config, c.id, Repeats(c, repeats))
  {
    runs := before;
    if c.zeroLlm {
      return;
    }
    var n := if c.repeated then repeats else 1;
    var k := 0;
    while k < n
      invariant 0 <= k && (k <= n || k == 0)
      invariant runs == before + Range(config, c.id, k)
    {
      runs := runs + [Execution(config, c.id, k)];
      k := k + 1;
    }
    assert Range(config, c.id, n) == Range(config, c.id, k);
  }

  /** The paid path: refused as a whole if any case is unapproved, otherwise one record per
      executed repeat, in order. */
  method RunRealBenchmark(cases: seq<Case>, configs: seq<ConfigId>, repeats: int) returns (records: Option<seq<Execution>>)
    ensures records.None? <==> exists c :: c in cases && !c.approved
    ensures records.Some? ==> records.value == AllRuns(configs, cases, repeats)
  {
    hide Range;
    for i := 0 to |cases|
      invariant forall k | 0 <= k < i :: cases[k].approved
    {
      if !cases[i].approved {
        return None;
      }
    }
    var runs := [];
    for i := 0 to |configs|
      invariant runs == AllRuns(configs[..i], cases, repeats)
    {
      ghost var before := runs;
      for j := 0 to |cases|
        invariant runs == before + CaseRuns(configs[i], cases[..j], repeats)
      {
        assert cases[..j + 1][..j] == cases[..j];
        runs := RunCase(configs[i], cases[j], repeats, runs);
      }
      assert cases[..|cases|] == cases && configs[..i + 1][..i] == configs[..i];
    }
    assert configs[..|configs|] == configs;
    records := Some(runs);
  }

  /* ----- what is estimated and what is executed, in the cases' own terms ----- */

  function Once(cases: seq<Case>): set<nat> {
    set i: nat | i < |cases| && !cases[i].zeroLlm && !cases[i].repeated
  }

  function Repeated(cases: seq<Case>): set<nat> {
    set i: nat | i < |cases| && !cases[i].zeroLlm && cases[i].repeated
  }

  lemma NoCases(repeats: int)
    ensures Once([]) == {} && Repeated([]) == {} && BaseCalls([], repeats) == 0
  {
  }

  lemma OnceStep(cases: seq<Case>)
    requires cases != []
    ensures var last := cases[|cases| - 1];
            |Once(cases)| == |Once(cases[..|cases| - 1])| + (if !last.zeroLlm && !last.repeated then 1 else 0)
  {
    var n := |cases| - 1;
    assert Once(cases) == Once(cases[..n]) + (if !cases[n].zeroLlm && !cases[n].repeated then {n} else {});
  }

  lemma RepeatedStep(cases: seq<Case>)
    requires cases != []
    ensures var last := cases[|cases| - 1];
            |Repeated(cases)| == |Repeated(cases[..|cases| - 1])| + (if !last.zeroLlm && last.repeated then 1 else 0)
  {
    var n := |cases| - 1;
    assert Repeated(cases) == Repeated(cases[..n]) + (if !cases[n].zeroLlm && cases[n].repeated then {n} else {});
  }

  /** The estimate for one configuration: one call per case that calls a model, or the
      repeat count for one marked for it; none for a deterministic case. */
  lemma {:induction false} BaseCallsIs(cases: seq<Case>, repeats: int)
    ensures BaseCalls(cases, repeats) == |Once(cases)| + |Repeated(cases)| * repeats
    decreases |cases|
  {
    hide Once, Repeated;
    if cases == [] {
      NoCases(repeats);
    } else {
      var n := |cases| - 1;
      BaseCallsIs(cases[..n], repeats);
      OnceStep(cases);
      RepeatedStep(cases);
      OneMoreTime(|Repeated(cases[..n])|, repeats);
    }
  }

  lemma {:induction false} RangeMembers(config: ConfigId, caseId: CaseId, n: int)
    ensures forall e :: e in Range(config, caseId, n) <==> e.config == config && e.caseId == caseId && e.repeatIndex < n
    decreases if n <= 0 then 0 else n
  {
    if n > 0 {
      RangeMembers(config, caseId, n - 1);
    }
  }

  // Some case with that id calls a model that many times.
  ghost predicate Calls(cases: seq<Case>, repeats: int, caseId: CaseId, k: nat) {
    exists c :: c in cases && c.id == caseId && !c.zeroLlm && k < if c.repeated then repeats else 1
  }

  lemma {:induction false} CaseRunsMembers(config: ConfigId, cases: seq<Case>, repeats: int)
    ensures forall e :: e in CaseRuns(config, cases, repeats) <==>
              e.config == config && Calls(cases, repeats, e.caseId, e.repeatIndex)
    decreases |cases|
  {
    hide Range;
    if cases != [] {
      var init, last := cases[..|cases| - 1], cases[|cases| - 1];
      assert cases == init + [last];
      CaseRunsMembers(config, init, repeats);
      RangeMembers(config, last.id, Repeats(last, repeats));
      forall id, k: nat ensures Calls(cases, repeats, id, k) <==>
                             Calls(init, repeats, id, k) || (id == last.id && k < Repeats(last, repeats))
      {
        assert last in cases;
        if Calls(init, repeats, id, k) {
          var c :| c in init && c.id == id && !c.zeroLlm && k < if c.repeated then repeats else 1;
          assert c in cases;
        }
      }
    }
  }

  /** What is executed: every configuration with every repeat of every case that calls a
      model, and nothing else. */
  lemma {:induction false} RunsAre(configs: seq<ConfigId>, cases: seq<Case>, repeats: int)
    ensures forall e :: e in AllRuns(configs, cases, repeats) <==>
              e.config in configs && Calls(cases, repeats, e.caseId, e.repeatIndex)
    decreases |configs|
  {
    hide CaseRuns, Calls;
    if configs != [] {
      var init, last := configs[..|configs| - 1], configs[|configs| - 1];
      assert configs == init + [last];
      RunsAre(init, cases, repeats);
      CaseRunsMembers(last, cases, repeats);
    }
  }

  predicate Exact(cases: seq<Case>, repeats: int) {
    repeats >= 0 || forall c | c in cases :: c.zeroLlm || !c.repeated
  }

  lemma {:induction false} RangeLength(config: ConfigId, caseId: CaseId, n: int)
    ensures |Range(config, caseId, n)| == if n <= 0 then 0 else n
    ensures forall e | e in Range(config, caseId, n) :: e.config == config && e.caseId == caseId
    decreases if n <= 0 then 0 else n
  {
    if n > 0 {
      RangeLength(config, caseId, n - 1);
    }
  }

  lemma {:induction false} CaseRunsLength(config: ConfigId, cases: seq<Case>, repeats: int)
    ensures |CaseRuns(config, cases, repeats)| >= BaseCalls(cases, repeats)
    ensures |CaseRuns(config, cases, repeats)| == BaseCalls(cases, repeats) <==> Exact(cases, repeats)
    ensures forall e | e in CaseRuns(config, cases, repeats) :: e.config == config
    decreases |cases|
  {
    if cases != [] {
      var init, last := cases[..|cases| - 1], cases[|cases| - 1];
      CaseRunsLength(config, init, repeats);
      RangeLength(config, last.id, Repeats(last, repeats));
      assert cases == init + [last];
    }
  }

  lemma AllRunsStep(configs: seq<ConfigId>, cases: seq<Case>, repeats: int)
    ensures AllRuns(configs, cases, repeats) ==
            if configs == [] then []
            else AllRuns(configs[..|configs| - 1], cases, repeats) + CaseRuns(configs[|configs| - 1], cases, repeats)
  {
  }

  lemma OneMoreTime(n: nat, k: int)
    ensures (n + 1) * k == n * k + k
  {
  }

  /** A real run executes exactly the calls it was estimated to, if and only if the repeat
      count is not negative, or no case that calls a model is repeated, or there is no
      configuration: a negative count is subtracted by the estimate but skipped by the run. */
  lemma {:induction false} EstimateIsExactIff(configs: seq<ConfigId>, cases: seq<Case>, repeats: int)
    ensures |AllRuns(configs, cases, repeats)| >= |configs| * BaseCalls(cases, repeats)
    ensures |AllRuns(configs, cases, repeats)| == |configs| * BaseCalls(cases, repeats) <==> configs == [] || Exact(cases, repeats)
    decreases |configs|
  {
    hide CaseRuns, BaseCalls, Exact, AllRuns;
    AllRunsStep(configs, cases, repeats);
    if configs != [] {
      EstimateIsExactIff(configs[..|configs| - 1], cases, repeats);
      CaseRunsLength(configs[|configs| - 1], cases, repeats);
      OneMoreTime(|configs| - 1, BaseCalls(cases, repeats));
    }
  }

  function RunsFor(runs: seq<Execution>, c: ConfigId): nat {
    if runs == [] then 0 else RunsFor(runs[..|runs| - 1], c) + (if runs[|runs| - 1].config == c then 1 else 0)
  }

  lemma {:induction false} RunsForAppend(a: seq<Execution>, b: seq<Execution>, c: ConfigId)
    ensures RunsFor(a + b, c) == RunsFor(a, c) + RunsFor(b, c)
    decreases |b|
  {
    if b == [] {
      assert a + b == a;
    } else {
      RunsForAppend(a, b[..|b| - 1], c);
      assert (a + b)[..|a + b| - 1] == a + b[..|b| - 1];
    }
  }

  lemma {:induction false} RunsForOne(runs: seq<Execution>, config: ConfigId, c: ConfigId)
    requires forall e | e in runs :: e.config == config
    ensures RunsFor(runs, c) == if c == config then |runs| else 0
    decreases |runs|
  {
    if runs != [] {
      RunsForOne(runs[..|runs| - 1], config, c);
    }
  }

  lemma NoRuns(c: ConfigId)
    ensures RunsFor([], c) == 0
  {
  }

  /** Per configuration too: a configuration listed m times runs m times what its own line
      of the estimate says (the estimate keeps one line per name). */
  lemma {:induction false} PerConfigExact(configs: seq<ConfigId>, cases: seq<Case>, repeats: int, c: ConfigId)
    requires Exact(cases, repeats)
    ensures RunsFor(AllRuns(configs, cases, repeats), c) == multiset(configs)[c] * BaseCalls(cases, repeats)
    decreases |configs|
  {
    hide CaseRuns, BaseCalls, Exact, AllRuns, RunsFor;
    AllRunsStep(configs, cases, repeats);
    if configs == [] {
      NoRuns(c);
    } else {
      var init, last := configs[..|configs| - 1], configs[|configs| - 1];
      assert configs == init + [last];
      OneMoreTime(multiset(init)[c], BaseCalls(cases, repeats));
      PerConfigExact(init, cases, repeats, c);
      CaseRunsLength(last, cases, repeats);
      RunsForAppend(AllRuns(init, cases, repeats), CaseRuns(last, cases, repeats), c);
      RunsForOne(CaseRuns(last, cases, repeats), last, c);
    }
  }

  /* ----- the scorecard ----- */

  datatype Outcome = Pass | QualityConcern | CriticalIncident
  datatype Record = Record(caseId: CaseId, recommendation: Option<string>, auto: Outcome, human: Option<Outcome>)

  function Severity(o: Outcome): nat {
    match o
    case Pass => 0
    case QualityConcern => 1
    case CriticalIncident => 2
  }

  function FinalOutcome(r: Record): Outcome {
    if r.human.None? then r.auto
    else if Severity(r.human.value) > Severity(r.auto) then r.human.value else r.auto
  }

  /** A human verdict can only make an outcome worse: the final one is the worse of the two. */
  lemma FinalIsWorst(r: Record)
    ensures FinalOutcome(r) == CriticalIncident <==> r.auto == CriticalIncident || r.human == Some(CriticalIncident)
    ensures FinalOutcome(r) == Pass <==> r.auto == Pass && (r.human == None || r.human == Some(Pass))
  {
  }

  function CountFinal(records: seq<Record>, o: Outcome): nat {
    if records == [] then 0
    else CountFinal(records[..|records| - 1], o) + (if FinalOutcome(records[|records| - 1]) == o then 1 else 0)
  }

  function WithOutcome(records: seq<Record>, o: Outcome): set<nat> {
    set i: nat | i < |records| && FinalOutcome(records[i]) == o
  }

  lemma {:induction false} CountFinalCounts(records: seq<Record>, o: Outcome)
    ensures CountFinal(records, o) == |WithOutcome(records, o)|
    decreases |records|
  {
    hide FinalOutcome;
    if records != [] {
      var n := |records| - 1;
      CountFinalCounts(records[..n], o);
      assert WithOutcome(records, o) == WithOutcome(records[..n], o) + (if FinalOutcome(records[n]) == o then {n} else {});
    }
  }

  /** The scorecard's critical incidents are the runs that were one automatically or by
      review; its passes are those that neither faulted. */
  lemma ScorecardCounts(records: seq<Record>)
    ensures CountFinal(records, CriticalIncident)
            == |set i: nat | i < |records| && (records[i].auto == CriticalIncident || records[i].human == Some(CriticalIncident))|
    ensures CountFinal(records, Pass)
            == |set i: nat | i < |records| && records[i].auto == Pass && (records[i].human in {None, Some(Pass)})|
  {
    hide FinalOutcome;
    CountFinalCounts(records, CriticalIncident);
    CountFinalCounts(records, Pass);
    forall i: nat | i < |records| ensures
      && (FinalOutcome(records[i]) == CriticalIncident <==> records[i].auto == CriticalIncident || records[i].human == Some(CriticalIncident))
      && (FinalOutcome(records[i]) == Pass <==> records[i].auto == Pass && (records[i].human == None || records[i].human == Some(Pass)))
    {
      FinalIsWorst(records[i]);
    }
    assert WithOutcome(records, CriticalIncident)
           == set i: nat | i < |records| && (records[i].auto == CriticalIncident || records[i].human == Some(CriticalIncident));
    assert WithOutcome(records, Pass)
           == set i: nat | i < |records| && records[i].auto == Pass && (records[i].human in {None, Some(Pass)});
  }

  /** The three outcome counts partition the runs. */
  lemma {:induction false} OutcomesPartition(records: seq<Record>)
    ensures CountFinal(records, Pass) + CountFinal(records, QualityConcern) + CountFinal(records, CriticalIncident) == |records|
    decreases |records|
  {
    if records != [] {
      OutcomesPartition(records[..|records| - 1]);
    }
  }

  /* ----- order does not matter to a filtered map ----- */

  function FilterMap<A, B>(xs: seq<A>, f: A -> Option<B>): seq<B> {
    if xs == [] then []
    else FilterMap(xs[..|xs| - 1], f) + (if f(xs[|xs| - 1]).Some? then [f(xs[|xs| - 1]).value] else [])
  }

  lemma {:induction false} FilterMapAppend<A, B>(a: seq<A>, b: seq<A>, f: A -> Option<B>)
    ensures FilterMap(a + b, f) == FilterMap(a, f) + FilterMap(b, f)
    decreases |b|
  {
    if b == [] {
      assert a + b == a;
    } else {
      FilterMapAppend(a, b[..|b| - 1], f);
      assert (a + b)[..|a + b| - 1] == a + b[..|b| - 1];
    }
  }

  lemma TakeOut<A>(xs: seq<A>, x: A) returns (i: nat)
    requires x in multiset(xs)
    ensures i < |xs| && xs[i] == x && multiset(xs[..i] + xs[i + 1..]) == multiset(xs) - multiset{x}
  {
    i :| 0 <= i < |xs| && xs[i] == x;
    assert xs == xs[..i] + [x] + xs[i + 1..];
  }

  lemma {:induction false} FilterMapPermutes<A, B>(xs: seq<A>, ys: seq<A>, f: A -> Option<B>)
    requires multiset(xs) == multiset(ys)
    ensures multiset(FilterMap(xs, f)) == multiset(FilterMap(ys, f))
    decreases |xs|
  {
    if xs == [] {
      assert |multiset(ys)| == 0 && ys == [];
    } else {
      var init, x := xs[..|xs| - 1], xs[|xs| - 1];
      assert xs == init + [x];
      assert x in multiset(xs);
      var i := TakeOut(ys, x);
      var rest := ys[..i] + ys[i + 1..];
      assert multiset(init) == multiset(xs) - multiset{x};
      FilterMapPermutes(init, rest, f);
      FilterMapOut(ys, i, f);
    }
  }

  lemma FilterMapOut<A, B>(ys: seq<A>, i: nat, f: A -> Option<B>)
    requires i < |ys|
    ensures multiset(FilterMap(ys, f))
            == multiset(FilterMap(ys[..i] + ys[i + 1..], f)) + multiset(if f(ys[i]).Some? then [f(ys[i]).value] else [])
  {
    hide FilterMap;
    var before, after := ys[..i], ys[i + 1..];
    FilterMapAppend(before, after, f);
    FilterMapAppend(before, [ys[i]], f);
    FilterMapAppend(before + [ys[i]], after, f);
    FilterMapOne(ys[i], f);
    assert ys == before + [ys[i]] + after;
  }

  lemma FilterMapOne<A, B>(x: A, f: A -> Option<B>)
    ensures FilterMap([x], f) == if f(x).Some? then [f(x).value] else []
  {
    assert [x][..0] == [];
  }

  function Sum(xs: seq<real>): real {
    if xs == [] then 0.0 else Sum(xs[..|xs| - 1]) + xs[|xs| - 1]
  }

  lemma {:induction false} SumAppend(a: seq<real>, b: seq<real>)
    ensures Sum(a + b) == Sum(a) + Sum(b)
    decreases |b|
  {
    if b == [] {
      assert a + b == a;
    } else {
      SumAppend(a, b[..|b| - 1]);
      assert (a + b)[..|a + b| - 1] == a + b[..|b| - 1];
    }
  }

  lemma {:induction false} SumPermutes(xs: seq<real>, ys: seq<real>)
    requires multiset(xs) == multiset(ys)
    ensures Sum(xs) == Sum(ys) && |xs| == |ys|
    decreases |xs|
  {
    assert |xs| == |multiset(xs)| && |ys| == |multiset(ys)|;
    if xs != [] {
      var init, x := xs[..|xs| - 1], xs[|xs| - 1];
      assert xs == init + [x];
      assert x in multiset(xs);
      var i := TakeOut(ys, x);
      assert multiset(init) == multiset(xs) - multiset{x};
      SumPermutes(init, ys[..i] + ys[i + 1..]);
      SumOut(ys, i);
    }
  }

  lemma SumOut(ys: seq<real>, i: nat)
    requires i < |ys|
    ensures Sum(ys) == Sum(ys[..i] + ys[i + 1..]) + ys[i]
  {
    hide Sum;
    var before, after := ys[..i], ys[i + 1..];
    SumAppend(before, after);
    SumAppend(before, [ys[i]]);
    SumAppend(before + [ys[i]], after);
    SumOne(ys[i]);
    assert ys == before + [ys[i]] + after;
  }

  lemma SumOne(x: real)
    ensures Sum([x]) == x
  {
    assert [x][..0] == [];
  }

  /* ----- self-agreement ----- */

  // recs.count(max(set(recs), key=recs.count))
  function Largest(recs: seq<string>, k: nat): (n: nat)
    requires k <= |recs|
    ensures forall i | 0 <= i < k :: multiset(recs)[recs[i]] <= n
    ensures n == 0 || exists i :: 0 <= i < k && multiset(recs)[recs[i]] == n
  {
    if k == 0 then 0
    else
      var before, here := Largest(recs, k - 1), multiset(recs)[recs[k - 1]];
      if here > before then here else before
  }

  function Agreement(recs: seq<string>): real
    requires recs != []
  {
    Largest(recs, |recs|) as real / |recs| as real
  }

  predicate AllSame(recs: seq<string>) {
    forall i, j | 0 <= i < j < |recs| :: recs[i] == recs[j]
  }

  lemma {:induction false} FullCount(recs: seq<string>, x: string)
    ensures multiset(recs)[x] <= |recs|
    ensures multiset(recs)[x] == |recs| <==> forall i | 0 <= i < |recs| :: recs[i] == x
    decreases |recs|
  {
    if recs != [] {
      var init := recs[..|recs| - 1];
      FullCount(init, x);
      assert recs == init + [recs[|recs| - 1]];
    }
  }

  lemma AgreementRange(recs: seq<string>)
    requires recs != []
    ensures 0.0 < Agreement(recs) <= 1.0
    ensures Agreement(recs) == 1.0 <==> AllSame(recs)
  {
    var n := Largest(recs, |recs|);
    assert recs[0] in multiset(recs) && multiset(recs)[recs[0]] <= n;
    var i :| 0 <= i < |recs| && multiset(recs)[recs[i]] == n;
    FullCount(recs, recs[i]);
    Ratio(n, |recs|);
    if AllSame(recs) {
      FullCount(recs, recs[0]);
    }
  }

  lemma Ratio(n: nat, d: nat)
    requires 0 < n <= d
    ensures 0.0 < n as real / d as real <= 1.0 && (n as real / d as real == 1.0 <==> n == d)
  {
    assert (n as real / d as real) * d as real == n as real;
  }

  lemma AgreementPermutes(a: seq<string>, b: seq<string>)
    requires multiset(a) == multiset(b) && a != []
    ensures b != [] && Agreement(a) == Agreement(b)
  {
    assert |a| == |multiset(a)| == |multiset(b)| == |b|;
    LargestUpTo(a, b);
    LargestUpTo(b, a);
  }

  lemma LargestUpTo(a: seq<string>, b: seq<string>)
    requires multiset(a) == multiset(b)
    ensures Largest(a, |a|) <= Largest(b, |b|)
  {
    var n := Largest(a, |a|);
    if n > 0 {
      var i :| 0 <= i < |a| && multiset(a)[a[i]] == n;
      assert a[i] in multiset(b);
      var j :| 0 <= j < |b| && b[j] == a[i];
    }
  }

  // by_case: the cases in the order first met.
  function Cases(records: seq<Record>): seq<CaseId> {
    if records == [] then []
    else
      var before, id := Cases(records[..|records| - 1]), records[|records| - 1].caseId;
      if id in before then before else before + [id]
  }

  lemma {:induction false} CasesAre(records: seq<Record>)
    ensures forall id :: id in Cases(records) <==> exists r :: r in records && r.caseId == id
    ensures forall i, j | 0 <= i < j < |Cases(records)| :: Cases(records)[i] != Cases(records)[j]
    decreases |records|
  {
    if records != [] {
      var init, last := records[..|records| - 1], records[|records| - 1];
      assert records == init + [last];
      CasesAre(init);
      forall id ensures id in Cases(records) <==> exists r :: r in records && r.caseId == id {
        assert last in records;
        if id in Cases(init) {
          var r :| r in init && r.caseId == id;
          assert r in records;
        }
      }
    }
  }

  function RunOf(id: CaseId): Record -> Option<Record> {
    (r: Record) => if r.caseId == id then Some(r) else None
  }

  function RecommendationOf(id: CaseId): Record -> Option<string> {
    (r: Record) => if r.caseId == id then r.recommendation else None
  }

  function Runs(records: seq<Record>, id: CaseId): seq<Record> {
    FilterMap(records, RunOf(id))
  }

  function Recommendations(records: seq<Record>, id: CaseId): seq<string> {
    FilterMap(records, RecommendationOf(id))
  }

  // A case contributes if it was repeated and at least one of its runs did not fail.
  function CaseAgreement(records: seq<Record>): CaseId -> Option<real> {
    (id: CaseId) =>
      if |Runs(records, id)| > 1 && Recommendations(records, id) != [] then Some(Agreement(Recommendations(records, id))) else None
  }

  function Agreements(records: seq<Record>): seq<real> {
    FilterMap(Cases(records), CaseAgreement(records))
  }

  function Consistency(records: seq<Record>): Option<real> {
    var a := Agreements(records);
    if a == [] then None else Some(Sum(a) / |a| as real)
  }

  lemma {:induction false} FilterMapMembers<A(!new), B>(xs: seq<A>, f: A -> Option<B>)
    ensures forall y :: y in FilterMap(xs, f) <==> exists x :: x in xs && f(x) == Some(y)
    decreases |xs|
  {
    if xs != [] {
      var init, last := xs[..|xs| - 1], xs[|xs| - 1];
      assert xs == init + [last];
      FilterMapMembers(init, f);
      forall y ensures y in FilterMap(xs, f) <==> exists x :: x in xs && f(x) == Some(y) {
        assert last in xs;
        if y in FilterMap(init, f) {
          var x :| x in init && f(x) == Some(y);
          assert x in xs;
        }
      }
    }
  }

  lemma {:induction false} MeanInRange(xs: seq<real>)
    requires forall x | x in xs :: 0.0 < x <= 1.0
    ensures xs != [] ==> 0.0 < Sum(xs)
    ensures 0.0 <= Sum(xs) <= |xs| as real
    ensures Sum(xs) == |xs| as real <==> forall x | x in xs :: x == 1.0
    decreases |xs|
  {
    if xs != [] {
      var init := xs[..|xs| - 1];
      assert xs == init + [xs[|xs| - 1]];
      forall x | x in init ensures x in xs {}
      assert xs[|xs| - 1] in xs;
      MeanInRange(init);
    }
  }

  lemma MeanOfSum(sum: real, n: nat)
    requires n > 0 && 0.0 < sum <= n as real
    ensures 0.0 < sum / n as real <= 1.0 && (sum / n as real == 1.0 <==> sum == n as real)
  {
    assert (sum / n as real) * n as real == sum;
  }

  /** Self-agreement is a rate in (0, 1], defined when some repeated case has a run that did
      not fail, and 1 exactly when every such case's recommendations are all the same. */
  lemma ConsistencyRange(records: seq<Record>)
    ensures Consistency(records).None? <==> forall id | id in Cases(records) :: CaseAgreement(records)(id).None?
    ensures Consistency(records).Some? ==>
              && 0.0 < Consistency(records).value <= 1.0
              && (Consistency(records).value == 1.0 <==>
                    forall id | id in Cases(records) && CaseAgreement(records)(id).Some? :: AllSame(Recommendations(records, id)))
  {
    hide Cases, Recommendations, Runs, Agreement;
    var f, a := CaseAgreement(records), Agreements(records);
    FilterMapMembers(Cases(records), f);
    forall id | f(id).Some? ensures 0.0 < f(id).value <= 1.0 && (f(id).value == 1.0 <==> AllSame(Recommendations(records, id))) {
      AgreementRange(Recommendations(records, id));
    }
    forall id | id in Cases(records) && f(id).Some? ensures f(id).value in a {}
    forall x | x in a ensures exists id :: id in Cases(records) && f(id) == Some(x) {}
    MeanInRange(a);
    if a != [] {
      assert a[0] in a;
      MeanOfSum(Sum(a), |a|);
    }
  }

  /** What a case contributes: something only if it has at least two runs and one of them
      recommended something; then the share of its commonest recommendation. */
  lemma CaseAgreementIs(records: seq<Record>, id: CaseId)
    ensures CaseAgreement(records)(id).Some? <==>
              && (exists i, j :: 0 <= i < j < |records| && records[i].caseId == id && records[j].caseId == id)
              && (exists r :: r in records && r.caseId == id && r.recommendation.Some?)
    ensures CaseAgreement(records)(id).Some? ==>
              var recs := Recommendations(records, id);
              && recs != []
              && exists x :: multiset(recs)[x] as real / |recs| as real == CaseAgreement(records)(id).value
                             && forall y :: multiset(recs)[y] <= multiset(recs)[x]
  {
    hide FilterMap;
    RunsCount(records, id);
    var recs := Recommendations(records, id);
    FilterMapMembers(records, RecommendationOf(id));
    assert recs != [] ==> recs[0] in recs;
    forall r | r in records && r.caseId == id && r.recommendation.Some? ensures recs != [] {
      assert RecommendationOf(id)(r) == Some(r.recommendation.value);
      assert r.recommendation.value in recs;
    }
    if recs != [] {
      Commonest(recs);
    }
  }

  lemma Commonest(recs: seq<string>)
    requires recs != []
    ensures exists x :: multiset(recs)[x] as real / |recs| as real == Agreement(recs) && forall y :: multiset(recs)[y] <= multiset(recs)[x]
  {
    var n := Largest(recs, |recs|);
    assert recs[0] in multiset(recs) && multiset(recs)[recs[0]] <= n;
    var i :| 0 <= i < |recs| && multiset(recs)[recs[i]] == n;
    forall y ensures multiset(recs)[y] <= n {
      if y in multiset(recs) {
        var j :| 0 <= j < |recs| && recs[j] == y;
      }
    }
    assert multiset(recs)[recs[i]] as real / |recs| as real == Agreement(recs);
  }

  lemma {:induction false} RunsCount(records: seq<Record>, id: CaseId)
    ensures |Runs(records, id)| >= 1 <==> exists i :: 0 <= i < |records| && records[i].caseId == id
    ensures |Runs(records, id)| >= 2 <==> exists i, j :: 0 <= i < j < |records| && records[i].caseId == id && records[j].caseId == id
    decreases |records|
  {
    if records != [] {
      var n := |records| - 1;
      RunsCount(records[..n], id);
      assert forall i | 0 <= i < n :: records[..n][i] == records[i];
    }
  }

  lemma RecommendationsAre(records: seq<Record>, id: CaseId)
    ensures forall x :: x in Recommendations(records, id) <==> exists r :: r in records && r.caseId == id && r.recommendation == Some(x)
  {
    FilterMapMembers(records, RecommendationOf(id));
    forall x ensures x in Recommendations(records, id) <==> exists r :: r in records && r.caseId == id && r.recommendation == Some(x) {
      forall r | r in records ensures RecommendationOf(id)(r) == Some(x) <==> r.caseId == id && r.recommendation == Some(x) {}
    }
  }

  /** The rate is the plain mean over the cases that contribute, each once. */
  lemma ConsistencyIsMean(records: seq<Record>)
    ensures Consistency(records).Some? ==>
              && |Agreements(records)| > 0
              && Consistency(records).value * |Agreements(records)| as real == Sum(Agreements(records))
    ensures Agreements(records) == FilterMap(Cases(records), CaseAgreement(records))
  {
    hide Sum, Cases, CaseAgreement, FilterMap;
    var a := Agreements(records);
    if a != [] {
      Quotient(Sum(a), |a|);
    }
  }

  lemma Quotient(sum: real, n: nat)
    requires n > 0
    ensures (sum / n as real) * n as real == sum
  {
  }

  lemma {:induction false} DistinctSameSet(a: seq<CaseId>, b: seq<CaseId>)
    requires forall i, j | 0 <= i < j < |a| :: a[i] != a[j]
    requires forall i, j | 0 <= i < j < |b| :: b[i] != b[j]
    requires forall x :: x in a <==> x in b
    ensures multiset(a) == multiset(b)
  {
    forall x ensures multiset(a)[x] == multiset(b)[x] {
      OneAtMost(a, x);
      OneAtMost(b, x);
    }
  }

  lemma {:induction false} OneAtMost(a: seq<CaseId>, x: CaseId)
    requires forall i, j | 0 <= i < j < |a| :: a[i] != a[j]
    ensures multiset(a)[x] == if x in a then 1 else 0
    decreases |a|
  {
    if a != [] {
      var init := a[..|a| - 1];
      OneAtMost(init, x);
      assert a == init + [a[|a| - 1]];
    }
  }

  lemma SameCaseAgreement(a: seq<Record>, b: seq<Record>, id: CaseId)
    requires multiset(a) == multiset(b)
    ensures CaseAgreement(a)(id) == CaseAgreement(b)(id)
  {
    hide Agreement;
    FilterMapPermutes(a, b, RunOf(id));
    FilterMapPermutes(a, b, RecommendationOf(id));
    assert |Runs(a, id)| == |multiset(Runs(a, id))| && |Runs(b, id)| == |multiset(Runs(b, id))|;
    var p, q := Recommendations(a, id), Recommendations(b, id);
    assert |p| == |multiset(p)| && |q| == |multiset(q)|;
    if p != [] {
      AgreementPermutes(p, q);
    }
  }

  lemma {:induction false} FilterMapSame<A(!new), B>(xs: seq<A>, f: A -> Option<B>, g: A -> Option<B>)
    requires forall x :: f(x) == g(x)
    ensures FilterMap(xs, f) == FilterMap(xs, g)
    decreases |xs|
  {
    if xs != [] {
      FilterMapSame(xs[..|xs| - 1], f, g);
    }
  }

  /** Self-agreement does not depend on the order in which the runs were recorded. */
  lemma ConsistencyPermutes(a: seq<Record>, b: seq<Record>)
    requires multiset(a) == multiset(b)
    ensures Consistency(a) == Consistency(b)
  {
    hide Cases, CaseAgreement, FilterMap;
    CasesAre(a);
    CasesAre(b);
    SameMembers(a, b);
    forall id ensures id in Cases(a) <==> id in Cases(b) {}
    DistinctSameSet(Cases(a), Cases(b));
    forall id ensures CaseAgreement(a)(id) == CaseAgreement(b)(id) {
      SameCaseAgreement(a, b, id);
    }
    FilterMapSame(Cases(b), CaseAgreement(a), CaseAgreement(b));
    FilterMapPermutes(Cases(a), Cases(b), CaseAgreement(a));
    SumPermutes(Agreements(a), Agreements(b));
  }

  lemma SameMembers(a: seq<Record>, b: seq<Record>)
    requires multiset(a) == multiset(b)
    ensures forall r :: r in a <==> r in b
  {
    forall r ensures r in a <==> r in b {
      assert r in a <==> r in multiset(a);
    }
  }

  ghost predicate GroupedAt(records: seq<Record>, byCase: map<CaseId, (nat, seq<string>)>, id: CaseId) {
    if id in byCase then id in Cases(records) && byCase[id] == (|Runs(records, id)|, Recommendations(records, id))
    else id !in Cases(records) && Runs(records, id) == [] && Recommendations(records, id) == []
  }

  ghost predicate Grouped(records: seq<Record>, byCase: map<CaseId, (nat, seq<string>)>) {
    forall id :: GroupedAt(records, byCase, id)
  }

  function AddRun(byCase: map<CaseId, (nat, seq<string>)>, r: Record): map<CaseId, (nat, seq<string>)> {
    var (count, recs) := if r.caseId in byCase then byCase[r.caseId] else (0, []);
    byCase[r.caseId := (count + 1, if r.recommendation.Some? then recs + [r.recommendation.value] else recs)]
  }

  lemma AddRunGroups(records: seq<Record>, i: nat, byCase: map<CaseId, (nat, seq<string>)>)
    requires i < |records| && Grouped(records[..i], byCase)
    ensures Grouped(records[..i + 1], AddRun(byCase, records[i]))
    ensures Cases(records[..i + 1])
            == if records[i].caseId in byCase then Cases(records[..i]) else Cases(records[..i]) + [records[i].caseId]
  {
    hide Cases, Runs, Recommendations;
    var after, next := records[..i + 1], AddRun(byCase, records[i]);
    forall id ensures GroupedAt(after, next, id) {
      assert GroupedAt(records[..i], byCase, id);
      assert GroupedAt(records[..i], byCase, records[i].caseId);
      GroupStep(records, i, id);
    }
    assert GroupedAt(records[..i], byCase, records[i].caseId);
    GroupStep(records, i, records[i].caseId);
  }

  method GroupByCase(records: seq<Record>) returns (byCase: map<CaseId, (nat, seq<string>)>, order: seq<CaseId>)
    ensures Grouped(records, byCase) && order == Cases(records)
  {
    hide Cases, Grouped;
    GroupStart();
    byCase, order := map[], [];
    for i := 0 to |records|
      invariant order == Cases(records[..i]) && Grouped(records[..i], byCase)
    {
      var r := records[i];
      AddRunGroups(records, i, byCase);
      var (count, recs) := if r.caseId in byCase then byCase[r.caseId] else (0, []);
      if r.caseId !in byCase {
        order := order + [r.caseId];
      }
      byCase := byCase[r.caseId := (count + 1, if r.recommendation.Some? then recs + [r.recommendation.value] else recs)];
    }
    assert records[..|records|] == records;
  }

  /** The scorecard's loops over the grouped records compute that rate. */
  method SelfAgreement(records: seq<Record>) returns (consistency: Option<real>)
    ensures consistency == Consistency(records)
  {
    hide Agreement, Cases, Runs, Recommendations, Sum;
    var byCase, order := GroupByCase(records);
    var agreements := [];
    for k := 0 to |order|
      invariant agreements == FilterMap(order[..k], CaseAgreement(records))
    {
      assert order[..k + 1][..k] == order[..k];
      assert order[k] in order && GroupedAt(records, byCase, order[k]);
      var (count, recs) := byCase[order[k]];
      if count > 1 && recs != [] {
        agreements := agreements + [Agreement(recs)];
      }
    }
    assert order[..|order|] == order;
    consistency := if agreements == [] then None else Some(Sum(agreements) / |agreements| as real);
  }

  lemma GroupStart()
    ensures Cases([]) == [] && Grouped([], map[])
  {
  }

  lemma GroupStep(records: seq<Record>, i: nat, id: CaseId)
    requires i < |records|
    ensures var before, after, r := records[..i], records[..i + 1], records[i];
            && Cases(after) == (if r.caseId in Cases(before) then Cases(before) else Cases(before) + [r.caseId])
            && Runs(after, id) == (if r.caseId == id then Runs(before, id) + [r] else Runs(before, id))
            && Recommendations(after, id)
               == (if r.caseId == id && r.recommendation.Some? then Recommendations(before, id) + [r.recommendation.value]
                   else Recommendations(before, id))
  {
    assert records[..i + 1][..i] == records[..i];
    assert Runs(records[..i], id) + [] == Runs(records[..i], id);
    assert Recommendations(records[..i], id) + [] == Recommendations(records[..i], id);
  }
}
