/** Ingesting one extraction of a council's Local Plan over the allocations already
    stored: what is written at once, what is only queued, and what is never touched. */
module LocalPlanIngest {
  import opened Prelude

  const UNREFERENCED := "__unref__:"

  datatype Review = AutoApplied | NeedsReview | Reviewed

  // A stored allocation. Capacities, status and progression are the trusted facts.
  datatype Row = Row(reference: Option<string>, siteName: string, category: string,
                     minimum: Option<int>, indicative: Option<int>, maximum: Option<int>,
                     status: string, progression: string, review: Review)

  datatype Site = Site(reference: Option<string>, siteName: string, minimum: Option<int>, category: string)

  datatype Kind = NewAllocation | CapacityChanged | Amended | Retained | Removed
  datatype Event = Event(row: nat, kind: Kind, auto: bool)

  // A printed code may be missing, and an empty one counts as missing.
  predicate Coded(reference: Option<string>) {
    reference.Some? && reference.value != ""
  }

  function DedupKey(reference: Option<string>, siteName: string): string {
    if Coded(reference) then reference.value else UNREFERENCED + siteName
  }

  function KeyOf(r: Row): string { DedupKey(r.reference, r.siteName) }
  function SiteKey(s: Site): string { DedupKey(s.reference, s.siteName) }

  /** A printed code is the key; a site with none, or an empty one, goes by its name. */
  lemma KeyIs(reference: Option<string>, siteName: string)
    ensures DedupKey(reference, siteName)
            == if reference == None || reference == Some("") then "__unref__:" + siteName else reference.value
  {
  }

  /** The key tells codes apart, and names of uncoded sites apart; the one collision left
      is a printed code that spells another site's synthetic key. */
  lemma KeysCollideIff(a: Option<string>, aName: string, b: Option<string>, bName: string)
    ensures DedupKey(a, aName) == DedupKey(b, bName) <==>
              (Coded(a) && Coded(b) && a.value == b.value)
              || (!Coded(a) && !Coded(b) && aName == bName)
              || (Coded(a) && !Coded(b) && a.value == UNREFERENCED + bName)
              || (!Coded(a) && Coded(b) && b.value == UNREFERENCED + aName)
  {
    if !Coded(a) && !Coded(b) && UNREFERENCED + aName == UNREFERENCED + bName {
      assert aName == (UNREFERENCED + aName)[|UNREFERENCED|..] == (UNREFERENCED + bName)[|UNREFERENCED|..] == bName;
    }
  }

  /* ----- the stored rows by key ----- */

  // A dictionary built over the rows: a repeated key keeps its last row.
  function LastRow(rows: seq<Row>, key: string, n: nat): (at: Option<nat>)
    requires n <= |rows|
    ensures at.None? <==> forall i | 0 <= i < n :: KeyOf(rows[i]) != key
    ensures at.Some? ==>
              at.value < n && KeyOf(rows[at.value]) == key && forall i | at.value < i < n :: KeyOf(rows[i]) != key
  {
    if n == 0 then None
    else if KeyOf(rows[n - 1]) == key then Some(n - 1)
    else LastRow(rows, key, n - 1)
  }

  function Existing(rows: seq<Row>, key: string): Option<nat> {
    LastRow(rows, key, |rows|)
  }

  // Stored under its own key, not hidden by a later row with the same key.
  predicate Visible(rows: seq<Row>, i: nat)
    requires i < |rows|
  {
    Existing(rows, KeyOf(rows[i])) == Some(i)
  }

  // The dictionary's keys, in the order they were first met.
  function Keys(rows: seq<Row>, n: nat): seq<string>
    requires n <= |rows|
  {
    if n == 0 then []
    else if LastRow(rows, KeyOf(rows[n - 1]), n - 1).None? then Keys(rows, n - 1) + [KeyOf(rows[n - 1])]
    else Keys(rows, n - 1)
  }

  lemma {:induction false} KeysAre(rows: seq<Row>, n: nat)
    requires n <= |rows|
    ensures forall k :: k in Keys(rows, n) <==> LastRow(rows, k, n).Some?
    ensures forall i, j | 0 <= i < j < |Keys(rows, n)| :: Keys(rows, n)[i] != Keys(rows, n)[j]
  {
    if n > 0 {
      KeysAre(rows, n - 1);
    }
  }

  // A key met earlier stands earlier.
  lemma {:induction false} KeysFirstMet(rows: seq<Row>, n: nat, a: nat, b: nat, j: nat)
    requires n <= |rows| && a < b < |Keys(rows, n)| && j < n && KeyOf(rows[j]) == Keys(rows, n)[b]
    ensures exists i :: 0 <= i < j && KeyOf(rows[i]) == Keys(rows, n)[a]
  {
    hide KeyOf;
    KeysAre(rows, n - 1);
    var before := Keys(rows, n - 1);
    if j < n - 1 && b < |before| {
      KeysFirstMet(rows, n - 1, a, b, j);
    } else {
      assert b < |before| ==> before[b] in before;
      assert before[a] in before;
    }
  }

  /* ----- the extraction by key ----- */

  function LastSite(sites: seq<Site>, key: string, n: nat): (s: Option<Site>)
    requires n <= |sites|
    ensures s.None? <==> forall j | 0 <= j < n :: SiteKey(sites[j]) != key
    ensures s.Some? ==> s.value in sites && SiteKey(s.value) == key
  {
    if n == 0 then None
    else if SiteKey(sites[n - 1]) == key then Some(sites[n - 1])
    else LastSite(sites, key, n - 1)
  }

  function Latest(sites: seq<Site>, key: string): Option<Site> {
    LastSite(sites, key, |sites|)
  }

  // The diff for a stored allocation met again. Its status is compared with itself, so
  // only capacities can differ; the extraction never states the other two.
  function Changed(r: Row, s: Site): bool {
    r.minimum != s.minimum || r.indicative.Some? || r.maximum.Some?
  }

  function DiffAgainst(r: Row, s: Site): Kind {
    if Changed(r, s) then CapacityChanged else Retained
  }

  function AutoApplies(k: Kind): bool {
    k == NewAllocation || k == Retained
  }

  /* ----- the state after the first j extracted sites ----- */

  function NewRow(s: Site, derivedStatus: string, progression: string): Row {
    Row(s.reference, s.siteName, s.category, s.minimum, None, None, derivedStatus, progression, AutoApplied)
  }

  // Only wording is refreshed; a difference in facts is queued.
  function Refreshed(r: Row, s: Site, latest: Site): Row {
    r.(siteName := s.siteName, category := s.category, review := if Changed(r, latest) then NeedsReview else r.review)
  }

  function RowAfter(rows: seq<Row>, sites: seq<Site>, i: nat, j: nat): Row
    requires i < |rows| && j <= |sites|
  {
    var met := LastSite(sites, KeyOf(rows[i]), j);
    var latest := Latest(sites, KeyOf(rows[i]));
    if Visible(rows, i) && met.Some? && latest.Some? then Refreshed(rows[i], met.value, latest.value) else rows[i]
  }

  function Added(rows: seq<Row>, sites: seq<Site>, j: nat, status: string, progression: string): seq<Row>
    requires j <= |sites|
  {
    if j == 0 then []
    else
      Added(rows, sites, j - 1, status, progression)
      + (if Existing(rows, SiteKey(sites[j - 1])).None? then [NewRow(sites[j - 1], status, progression)] else [])
  }

  function SiteEvents(rows: seq<Row>, sites: seq<Site>, j: nat, status: string, progression: string): (e: seq<Event>)
    requires j <= |sites|
    ensures |e| == j
  {
    if j == 0 then []
    else
      var key := SiteKey(sites[j - 1]);
      var at := Existing(rows, key);
      var latest := Latest(sites, key);
      SiteEvents(rows, sites, j - 1, status, progression)
      + [if at.Some? && latest.Some? then
           var kind := DiffAgainst(rows[at.value], latest.value);
           Event(at.value, kind, AutoApplies(kind))
         else Event(|rows| + |Added(rows, sites, j - 1, status, progression)|, NewAllocation, true)]
  }

  // Stored allocations the extraction does not mention: flagged and queued, no more.
  function RemovalEvents(rows: seq<Row>, sites: seq<Site>, k: nat): seq<Event>
    requires k <= |Keys(rows, |rows|)|
  {
    if k == 0 then []
    else
      var key := Keys(rows, |rows|)[k - 1];
      var at := Existing(rows, key);
      RemovalEvents(rows, sites, k - 1)
      + (if Latest(sites, key).None? && at.Some? then [Event(at.value, Removed, false)] else [])
  }

  function FinalRow(rows: seq<Row>, sites: seq<Site>, i: nat): Row
    requires i < |rows|
  {
    if Visible(rows, i) && Latest(sites, KeyOf(rows[i])).None? then rows[i].(review := NeedsReview)
    else RowAfter(rows, sites, i, |sites|)
  }

  function FinalRows(rows: seq<Row>, sites: seq<Site>, status: string, progression: string): seq<Row> {
    seq(|rows|, i requires 0 <= i < |rows| => FinalRow(rows, sites, i)) + Added(rows, sites, |sites|, status, progression)
  }

  function FinalEvents(rows: seq<Row>, sites: seq<Site>, status: string, progression: string): seq<Event> {
    SiteEvents(rows, sites, |sites|, status, progression) + RemovalEvents(rows, sites, |Keys(rows, |rows|)|)
  }

  /* ----- the ingest ----- */

  datatype PlanEvent = NewPlanVersion | StatusChange(was: string, now: string)
  datatype Plan = Plan(version: string, status: string, source: string)

  class Store {
    var plan: Option<Plan>
    var planEvents: seq<(PlanEvent, bool)>
    var rows: seq<Row>
    var events: seq<Event>

    constructor (plan: Option<Plan>, rows: seq<Row>)
      ensures this.plan == plan && this.rows == rows && planEvents == [] && events == []
    {
      this.plan, this.rows, planEvents, events := plan, rows, [], [];
    }

    /** A new plan is written at once; a stored plan keeps its version and status, and a
        difference in status is queued for review. */
    method RecordPlan(version: string, status: string, source: string)
      requires plan.Some? ==> plan.value.version == version
      modifies this`plan, this`planEvents
      ensures plan.Some? && plan.value.source == source && plan.value.version == version
      ensures old(plan).None? ==> plan.value.status == status && planEvents == old(planEvents) + [(NewPlanVersion, true)]
      ensures old(plan).Some? ==>
                && plan.value.status == old(plan.value.status)
                && planEvents == old(planEvents) + (if plan.value.status == status then []
                                                    else [(StatusChange(plan.value.status, status), false)])
    {
      if plan.None? {
        plan := Some(Plan(version, status, source));
        planEvents := planEvents + [(NewPlanVersion, true)];
      } else {
        if plan.value.status != status {
          planEvents := planEvents + [(StatusChange(plan.value.status, status), false)];
        }
        plan := Some(plan.value.(source := source));
      }
    }

    method IndexRows() returns (existing: map<string, nat>, order: seq<string>)
      ensures order == Keys(rows, |rows|)
      ensures forall k :: k in existing <==> Existing(rows, k).Some?
      ensures forall k | k in existing :: Existing(rows, k) == Some(existing[k])
    {
      existing, order := map[], [];
      for i := 0 to |rows|
        invariant order == Keys(rows, i)
        invariant forall k :: k in existing <==> LastRow(rows, k, i).Some?
        invariant forall k | k in existing :: LastRow(rows, k, i) == Some(existing[k])
      {
        var key := KeyOf(rows[i]);
        if key !in existing {
          order := order + [key];
        }
        existing := existing[key := i];
      }
    }

    /** One ingest of an extraction. */
    method Ingest(sites: seq<Site>, derivedStatus: string, progression: string)
      modifies this`rows, this`events
      ensures rows == FinalRows(old(rows), sites, derivedStatus, progression)
      ensures events == old(events) + FinalEvents(old(rows), sites, derivedStatus, progression)
    {
      ghost var start := rows;
      var existing, order := IndexRows();
      ReconcileSites(sites, existing, derivedStatus, progression);
      FlagUnseen(sites, existing, order, start, derivedStatus, progression);
    }

    method ReconcileSites(sites: seq<Site>, existing: map<string, nat>, derivedStatus: string, progression: string)
      requires forall k :: k in existing <==> Existing(rows, k).Some?
      requires forall k | k in existing :: Existing(rows, k) == Some(existing[k])
      modifies this`rows, this`events
      ensures events == old(events) + SiteEvents(old(rows), sites, |sites|, derivedStatus, progression)
      ensures Reconciled(old(rows), sites, |sites|, derivedStatus, progression, rows)
    {
      hide Existing, SiteKey, Reconciled, SiteEvents, Latest;
      ghost var start := rows;
      NothingReconciled(start, sites, derivedStatus, progression);
      for j := 0 to |sites|
        invariant events == old(events) + SiteEvents(start, sites, j, derivedStatus, progression)
        invariant Reconciled(start, sites, j, derivedStatus, progression, rows)
      {
        var s := sites[j];
        var key := SiteKey(s);
        if key !in existing {
          ReconcileNew(start, sites, j, derivedStatus, progression, rows);
          events := events + [Event(|rows|, NewAllocation, true)];
          rows := rows + [NewRow(s, derivedStatus, progression)];
        } else {
          var at := existing[key];
          var latest := LatestSite(sites, key, j);
          ReconcileOld(start, sites, j, derivedStatus, progression, rows, at, latest);
          var kind := if rows[at].minimum != latest.minimum || rows[at].indicative.Some? || rows[at].maximum.Some?
                      then CapacityChanged else Retained;
          events := events + [Event(at, kind, AutoApplies(kind))];
          var review := if AutoApplies(kind) then rows[at].review else NeedsReview;
          rows := rows[at := rows[at].(siteName := s.siteName, category := s.category, review := review)];
        }
      }
    }

    method FlagUnseen(sites: seq<Site>, existing: map<string, nat>, order: seq<string>,
                      ghost start: seq<Row>, ghost derivedStatus: string, ghost progression: string)
      requires forall k :: k in existing <==> Existing(start, k).Some?
      requires forall k | k in existing :: Existing(start, k) == Some(existing[k])
      requires order == Keys(start, |start|)
      requires Reconciled(start, sites, |sites|, derivedStatus, progression, rows)
      modifies this`rows, this`events
      ensures rows == FinalRows(start, sites, derivedStatus, progression)
      ensures events == old(events) + RemovalEvents(start, sites, |order|)
    {
      hide Existing, Flagged, RemovalEvents, SeenKeys, Keys, FinalRows, Reconciled, Latest;
      KeysAre(start, |start|);
      NothingFlagged(start, sites, derivedStatus, progression, rows);
      var seen := SeenKeys(sites);
      for k := 0 to |order|
        invariant Flagged(start, sites, order, k, derivedStatus, progression, rows)
        invariant events == old(events) + RemovalEvents(start, sites, k)
      {
        var key := order[k];
        FlagStep(start, sites, order, k, derivedStatus, progression, rows);
        if key !in seen {
          var at := existing[key];
          rows := rows[at := rows[at].(review := NeedsReview)];
          events := events + [Event(at, Removed, false)];
        }
      }
      AllFlagged(start, sites, order, derivedStatus, progression, rows);
    }
  }

  ghost predicate Reconciled(start: seq<Row>, sites: seq<Site>, j: nat, status: string, progression: string, rows: seq<Row>)
    requires j <= |sites|
  {
    && |rows| == |start| + |Added(start, sites, j, status, progression)|
    && rows[|start|..] == Added(start, sites, j, status, progression)
    && forall i | 0 <= i < |start| :: rows[i] == RowAfter(start, sites, i, j)
  }

  lemma NothingReconciled(start: seq<Row>, sites: seq<Site>, status: string, progression: string)
    ensures Reconciled(start, sites, 0, status, progression, start)
    ensures SiteEvents(start, sites, 0, status, progression) == []
  {
  }

  lemma RowAfterStep(start: seq<Row>, sites: seq<Site>, i: nat, j: nat)
    requires i < |start| && j < |sites| && KeyOf(start[i]) != SiteKey(sites[j])
    ensures RowAfter(start, sites, i, j + 1) == RowAfter(start, sites, i, j)
  {
    hide SiteKey, KeyOf, Refreshed, Latest, Visible;
  }

  lemma NotThatKey(rows: seq<Row>, key: string, i: nat)
    requires Existing(rows, key).None? && i < |rows|
    ensures KeyOf(rows[i]) != key
  {
  }

  lemma NewEvent(rows: seq<Row>, sites: seq<Site>, j: nat, status: string, progression: string)
    requires j < |sites| && Existing(rows, SiteKey(sites[j])).None?
    ensures SiteEvents(rows, sites, j + 1, status, progression)
            == SiteEvents(rows, sites, j, status, progression)
               + [Event(|rows| + |Added(rows, sites, j, status, progression)|, NewAllocation, true)]
  {
    hide SiteKey, Existing, Latest, Added;
  }

  lemma ReconcileNew(start: seq<Row>, sites: seq<Site>, j: nat, status: string, progression: string, rows: seq<Row>)
    requires j < |sites| && Reconciled(start, sites, j, status, progression, rows)
    requires Existing(start, SiteKey(sites[j])).None?
    ensures Reconciled(start, sites, j + 1, status, progression, rows + [NewRow(sites[j], status, progression)])
    ensures SiteEvents(start, sites, j + 1, status, progression)
            == SiteEvents(start, sites, j, status, progression) + [Event(|rows|, NewAllocation, true)]
  {
    hide SiteKey, KeyOf, RowAfter, NewRow, SiteEvents, Existing;
    NewEvent(start, sites, j, status, progression);
    forall i | 0 <= i < |start| ensures RowAfter(start, sites, i, j + 1) == RowAfter(start, sites, i, j) {
      NotThatKey(start, SiteKey(sites[j]), i);
      RowAfterStep(start, sites, i, j);
    }
    assert rows == rows[..|start|] + rows[|start|..];
  }

  lemma ReconcileOld(start: seq<Row>, sites: seq<Site>, j: nat, status: string, progression: string, rows: seq<Row>,
                     at: nat, latest: Site)
    requires j < |sites| && Reconciled(start, sites, j, status, progression, rows)
    requires Existing(start, SiteKey(sites[j])) == Some(at) && Latest(sites, SiteKey(sites[j])) == Some(latest)
    ensures at < |start| <= |rows|
    ensures rows[at].minimum == start[at].minimum && rows[at].indicative == start[at].indicative && rows[at].maximum == start[at].maximum
    ensures var review := if Changed(start[at], latest) then NeedsReview else rows[at].review;
            var s := sites[j];
            Reconciled(start, sites, j + 1, status, progression,
                       rows[at := rows[at].(siteName := s.siteName, category := s.category, review := review)])
    ensures var kind := DiffAgainst(start[at], latest);
            SiteEvents(start, sites, j + 1, status, progression)
            == SiteEvents(start, sites, j, status, progression) + [Event(at, kind, AutoApplies(kind))]
  {
    hide SiteKey, KeyOf;
    forall i | 0 <= i < |start| && i != at ensures RowAfter(start, sites, i, j + 1) == RowAfter(start, sites, i, j) {
      assert Visible(start, i) ==> KeyOf(start[i]) != SiteKey(sites[j]);
    }
    assert Added(start, sites, j + 1, status, progression) == Added(start, sites, j, status, progression) + [];
  }

  ghost predicate Flagged(start: seq<Row>, sites: seq<Site>, order: seq<string>, k: nat, status: string, progression: string,
                          rows: seq<Row>)
    requires k <= |order|
  {
    && |rows| >= |start| && rows[|start|..] == Added(start, sites, |sites|, status, progression)
    && forall i | 0 <= i < |start| ::
         rows[i] == if KeyOf(start[i]) in order[..k] then FinalRow(start, sites, i) else RowAfter(start, sites, i, |sites|)
  }

  lemma NothingFlagged(start: seq<Row>, sites: seq<Site>, status: string, progression: string, rows: seq<Row>)
    requires Reconciled(start, sites, |sites|, status, progression, rows)
    ensures Flagged(start, sites, Keys(start, |start|), 0, status, progression, rows)
    ensures RemovalEvents(start, sites, 0) == []
  {
  }

  lemma FlagStep(start: seq<Row>, sites: seq<Site>, order: seq<string>, k: nat, status: string, progression: string,
                 rows: seq<Row>)
    requires order == Keys(start, |start|) && k < |order| && Flagged(start, sites, order, k, status, progression, rows)
    ensures Existing(start, order[k]).Some? && Existing(start, order[k]).value < |start| <= |rows|
    ensures var at := Existing(start, order[k]).value;
            if order[k] in SeenKeys(sites) then
              && Flagged(start, sites, order, k + 1, status, progression, rows)
              && RemovalEvents(start, sites, k + 1) == RemovalEvents(start, sites, k)
            else
              && Flagged(start, sites, order, k + 1, status, progression, rows[at := rows[at].(review := NeedsReview)])
              && RemovalEvents(start, sites, k + 1) == RemovalEvents(start, sites, k) + [Event(at, Removed, false)]
  {
    hide KeyOf, SiteKey, SeenKeys, Existing, Latest, FinalRow, RowAfter, Keys, RemovalEvents;
    var key := order[k];
    KeysAre(start, |start|);
    assert key in order && order[..k + 1] == order[..k] + [key];
    SeenIff(sites, key);
    VisibleIff(start, 0, key);
    var at := Existing(start, key).value;
    RemovalStep(start, sites, k);
    forall i | 0 <= i < |start| && KeyOf(start[i]) == key
      ensures FinalRow(start, sites, i)
              == if key !in SeenKeys(sites) && i == at then start[i].(review := NeedsReview) else RowAfter(start, sites, i, |sites|)
      ensures key !in SeenKeys(sites) ==> RowAfter(start, sites, i, |sites|) == start[i]
    {
      VisibleIff(start, i, key);
      FinalRowIs(start, sites, i);
    }
  }

  lemma FinalRowIs(rows: seq<Row>, sites: seq<Site>, i: nat)
    requires i < |rows|
    ensures var unseen := Latest(sites, KeyOf(rows[i])).None?;
            && (unseen ==> RowAfter(rows, sites, i, |sites|) == rows[i])
            && FinalRow(rows, sites, i)
               == if Visible(rows, i) && unseen then rows[i].(review := NeedsReview) else RowAfter(rows, sites, i, |sites|)
  {
    hide KeyOf, Visible, Refreshed;
  }

  lemma RemovalStep(rows: seq<Row>, sites: seq<Site>, k: nat)
    requires k < |Keys(rows, |rows|)|
    ensures var key := Keys(rows, |rows|)[k];
            var at := Existing(rows, key);
            && at.Some? && at.value < |rows| && KeyOf(rows[at.value]) == key
            && RemovalEvents(rows, sites, k + 1)
               == if Latest(sites, key).None? then RemovalEvents(rows, sites, k) + [Event(at.value, Removed, false)]
                  else RemovalEvents(rows, sites, k)
  {
    hide KeyOf, Latest, Keys;
    var key := Keys(rows, |rows|)[k];
    KeysAre(rows, |rows|);
    assert key in Keys(rows, |rows|);
    assert RemovalEvents(rows, sites, k) + [] == RemovalEvents(rows, sites, k);
  }

  lemma SeenIff(sites: seq<Site>, key: string)
    ensures key in SeenKeys(sites) <==> Latest(sites, key).Some?
  {
    hide SiteKey;
    if Latest(sites, key).None? {
      forall s | s in sites ensures SiteKey(s) != key {
        var j :| 0 <= j < |sites| && sites[j] == s;
      }
    }
  }

  lemma AllFlagged(start: seq<Row>, sites: seq<Site>, order: seq<string>, status: string, progression: string, rows: seq<Row>)
    requires order == Keys(start, |start|) && Flagged(start, sites, order, |order|, status, progression, rows)
    ensures rows == FinalRows(start, sites, status, progression)
  {
    hide KeyOf, SiteKey, FinalRow, RowAfter, Added, Latest;
    assert order[..|order|] == order;
    KeysAre(start, |start|);
    forall i | 0 <= i < |start| ensures rows[i] == FinalRow(start, sites, i) {
      assert Existing(start, KeyOf(start[i])).Some?;
    }
    assert rows == rows[..|start|] + rows[|start|..];
  }

  function SeenKeys(sites: seq<Site>): set<string> {
    set s | s in sites :: SiteKey(s)
  }

  // new_by_ref: the last extracted site with the key.
  method LatestSite(sites: seq<Site>, key: string, j: nat) returns (latest: Site)
    requires j < |sites| && SiteKey(sites[j]) == key
    ensures Latest(sites, key) == Some(latest)
  {
    latest := sites[j];
    var n := |sites|;
    while n > 0
      invariant 0 <= n <= |sites| && Latest(sites, key) == LastSite(sites, key, n)
      invariant j < n
    {
      if SiteKey(sites[n - 1]) == key {
        return sites[n - 1];
      }
      n := n - 1;
    }
  }

  /* ----- trusted facts ----- */

  predicate SameFacts(a: Row, b: Row) {
    && a.reference == b.reference && a.minimum == b.minimum && a.indicative == b.indicative
    && a.maximum == b.maximum && a.status == b.status && a.progression == b.progression
  }

  /** Nothing is deleted and no stored fact changes. A stored allocation that is met takes
      the latest wording and is put up for review exactly when its minimum differs or it
      has a capacity the extraction never states; one that is not met is put up for review
      and left as it was; one hidden under another's key is not touched. */
  lemma FactsKept(rows: seq<Row>, sites: seq<Site>, status: string, progression: string, i: nat)
    requires i < |rows|
    ensures var after := FinalRows(rows, sites, status, progression);
            var r, latest := rows[i], Latest(sites, KeyOf(rows[i]));
            && |after| >= |rows| && SameFacts(after[i], r)
            && after[i] == if !Visible(rows, i) then r
                           else if latest.None? then
                             Row(r.reference, r.siteName, r.category, r.minimum, r.indicative, r.maximum, r.status, r.progression, NeedsReview)
                           else
                             var s := latest.value;
                             Row(r.reference, s.siteName, s.category, r.minimum, r.indicative, r.maximum, r.status, r.progression,
                                 if r.minimum != s.minimum || r.indicative != None || r.maximum != None then NeedsReview else r.review)
  {
    hide KeyOf, SiteKey;
    LatestIsLast(sites, KeyOf(rows[i]));
    assert FinalRows(rows, sites, status, progression)[i] == FinalRow(rows, sites, i);
  }

  lemma AddedAt(rows: seq<Row>, sites: seq<Site>, j: nat, n: nat, status: string, progression: string)
    requires j < n <= |sites| && Existing(rows, SiteKey(sites[j])).None?
    ensures var at := |Added(rows, sites, j, status, progression)|;
            at < |Added(rows, sites, n, status, progression)|
            && Added(rows, sites, n, status, progression)[at] == NewRow(sites[j], status, progression)
    decreases n
  {
    hide SiteKey, Existing, NewRow;
    if j < n - 1 {
      AddedAt(rows, sites, j, n - 1, status, progression);
    }
  }

  lemma {:induction false} SiteEventAt(rows: seq<Row>, sites: seq<Site>, j: nat, n: nat, status: string, progression: string)
    requires j < n <= |sites|
    ensures SiteEvents(rows, sites, n, status, progression)[j] == SiteEvents(rows, sites, j + 1, status, progression)[j]
    decreases n
  {
    hide SiteKey, Existing, DiffAgainst, AutoApplies, Latest, Added;
    if j < n - 1 {
      SiteEventAt(rows, sites, j, n - 1, status, progression);
    }
  }

  /** A site whose key is not stored is written at once, with the derived status, no
      indicative or maximum capacity and nothing to review; its event is applied. */
  lemma NewSiteIs(rows: seq<Row>, sites: seq<Site>, status: string, progression: string, j: nat)
    requires j < |sites| && Unstored(rows, SiteKey(sites[j]))
    ensures var after, s := FinalRows(rows, sites, status, progression), sites[j];
            var at := |rows| + |Added(rows, sites, j, status, progression)|;
            && at < |after|
            && after[at] == Row(s.reference, s.siteName, s.category, s.minimum, None, None, status, progression, AutoApplied)
            && j < |FinalEvents(rows, sites, status, progression)|
            && FinalEvents(rows, sites, status, progression)[j] == Event(at, NewAllocation, true)
  {
    hide KeyOf, SiteKey, FinalRow;
    AddedAt(rows, sites, j, |sites|, status, progression);
    SiteEventAt(rows, sites, j, |sites|, status, progression);
  }

  /** The event of a stored site: its facts against the latest extracted ones. */
  lemma StoredSiteEventIs(rows: seq<Row>, sites: seq<Site>, status: string, progression: string, j: nat)
    requires j < |sites| && Existing(rows, SiteKey(sites[j])).Some?
    ensures var at, latest := Existing(rows, SiteKey(sites[j])).value, Latest(sites, SiteKey(sites[j]));
            && latest.Some? && j < |FinalEvents(rows, sites, status, progression)|
            && FinalEvents(rows, sites, status, progression)[j] ==
                 if rows[at].minimum != latest.value.minimum || rows[at].indicative != None || rows[at].maximum != None
                 then Event(at, CapacityChanged, false) else Event(at, Retained, true)
  {
    hide KeyOf, SiteKey;
    SiteEventAt(rows, sites, j, |sites|, status, progression);
  }

  /** Every event after those is an unmentioned stored allocation, queued. */
  lemma {:induction false} LaterEventsAreRemovals(rows: seq<Row>, sites: seq<Site>, k: nat)
    requires k <= |Keys(rows, |rows|)|
    ensures forall e | e in RemovalEvents(rows, sites, k) ::
              && e.row < |rows| && e.kind == Removed && !e.auto && forall s | s in sites :: SiteKey(s) != KeyOf(rows[e.row])
  {
    hide KeyOf, SiteKey, Keys;
    if k > 0 {
      LaterEventsAreRemovals(rows, sites, k - 1);
      var key := Keys(rows, |rows|)[k - 1];
      if Latest(sites, key).None? {
        forall s | s in sites ensures SiteKey(s) != key {
          var j :| 0 <= j < |sites| && sites[j] == s;
        }
      }
    }
  }

  predicate Unstored(rows: seq<Row>, key: string) {
    forall r | r in rows :: KeyOf(r) != key
  }

  function NewSites(rows: seq<Row>, sites: seq<Site>, j: nat): set<nat>
    requires j <= |sites|
  {
    set k: nat | k < j && Unstored(rows, SiteKey(sites[k]))
  }

  /** No other row is added: one per such site. */
  lemma {:induction false} AddedCount(rows: seq<Row>, sites: seq<Site>, j: nat, status: string, progression: string)
    requires j <= |sites|
    ensures |Added(rows, sites, j, status, progression)| == |NewSites(rows, sites, j)|
  {
    hide KeyOf, SiteKey;
    if j > 0 {
      AddedCount(rows, sites, j - 1, status, progression);
      assert Existing(rows, SiteKey(sites[j - 1])).None? <==> Unstored(rows, SiteKey(sites[j - 1]));
      assert NewSites(rows, sites, j)
             == if Unstored(rows, SiteKey(sites[j - 1])) then NewSites(rows, sites, j - 1) + {j - 1} else NewSites(rows, sites, j - 1);
    }
  }

  /* ----- the queue ----- */

  function EventsOf(events: seq<Event>, i: nat): seq<Event> {
    if events == [] then []
    else
      EventsOf(events[..|events| - 1], i) + (if events[|events| - 1].row == i then [events[|events| - 1]] else [])
  }

  lemma {:induction false} EventsOfAppend(a: seq<Event>, b: seq<Event>, i: nat)
    ensures EventsOf(a + b, i) == EventsOf(a, i) + EventsOf(b, i)
    decreases |b|
  {
    if b == [] {
      assert a + b == a;
    } else {
      var init := b[..|b| - 1];
      EventsOfAppend(a, init, i);
      assert (a + b)[..|a + b| - 1] == a + init;
    }
  }

  lemma EventsOfOne(e: Event, i: nat)
    ensures EventsOf([e], i) == if e.row == i then [e] else []
  {
    assert [e][..0] == [];
  }

  lemma {:induction false} NoSiteEvents(rows: seq<Row>, sites: seq<Site>, j: nat, status: string, progression: string, i: nat)
    requires i < |rows| && j <= |sites|
    requires Visible(rows, i) ==> Latest(sites, KeyOf(rows[i])).None?
    ensures EventsOf(SiteEvents(rows, sites, j, status, progression), i) == []
  {
    hide KeyOf, SiteKey;
    if j > 0 {
      NoSiteEvents(rows, sites, j - 1, status, progression, i);
      var before, all := SiteEvents(rows, sites, j - 1, status, progression), SiteEvents(rows, sites, j, status, progression);
      var e := all[|all| - 1];
      assert all == before + [e];
      EventsOfAppend(before, [e], i);
      EventsOfOne(e, i);
      assert e.row != i;
    }
  }

  lemma NoEvents(i: nat)
    ensures EventsOf([], i) == []
  {
  }

  lemma VisibleIff(rows: seq<Row>, i: nat, key: string)
    requires key in Keys(rows, |rows|)
    ensures Existing(rows, key).Some?
    ensures i < |rows| ==> (Existing(rows, key).value == i <==> Visible(rows, i) && KeyOf(rows[i]) == key)
  {
    hide KeyOf, Keys;
    KeysAre(rows, |rows|);
  }

  lemma {:induction false} OneRemoval(rows: seq<Row>, sites: seq<Site>, k: nat, i: nat)
    requires i < |rows| && k <= |Keys(rows, |rows|)|
    ensures EventsOf(RemovalEvents(rows, sites, k), i)
            == if Visible(rows, i) && Latest(sites, KeyOf(rows[i])).None? && KeyOf(rows[i]) in Keys(rows, |rows|)[..k]
               then [Event(i, Removed, false)] else []
  {
    hide KeyOf, Latest, Keys, EventsOf, Visible, Existing;
    if k == 0 {
      NoEvents(i);
    } else {
      var keys := Keys(rows, |rows|);
      KeysAre(rows, |rows|);
      OneRemoval(rows, sites, k - 1, i);
      VisibleIff(rows, i, keys[k - 1]);
      assert keys[..k] == keys[..k - 1] + [keys[k - 1]];
      var before := RemovalEvents(rows, sites, k - 1);
      var at := Existing(rows, keys[k - 1]);
      if Latest(sites, keys[k - 1]).None? && at.Some? {
        var e := Event(at.value, Removed, false);
        EventsOfAppend(before, [e], i);
        EventsOfOne(e, i);
      } else {
        assert RemovalEvents(rows, sites, k) == before + [] == before;
      }
    }
  }

  /** Each stored allocation the extraction does not mention is queued for removal exactly
      once, never applied, and gets no other event. */
  lemma UnseenQueuedOnce(rows: seq<Row>, sites: seq<Site>, status: string, progression: string, i: nat)
    requires i < |rows| && Visible(rows, i) && Latest(sites, KeyOf(rows[i])).None?
    ensures EventsOf(FinalEvents(rows, sites, status, progression), i) == [Event(i, Removed, false)]
  {
    hide KeyOf, Latest, SiteEvents, RemovalEvents, EventsOf;
    var keys := Keys(rows, |rows|);
    KeysAre(rows, |rows|);
    assert keys[..|keys|] == keys && KeyOf(rows[i]) in keys;
    NoSiteEvents(rows, sites, |sites|, status, progression, i);
    OneRemoval(rows, sites, |keys|, i);
    EventsOfAppend(SiteEvents(rows, sites, |sites|, status, progression), RemovalEvents(rows, sites, |keys|), i);
  }

  predicate DistinctSites(sites: seq<Site>) {
    forall i, j | 0 <= i < j < |sites| :: SiteKey(sites[i]) != SiteKey(sites[j])
  }

  lemma {:induction false} OneSiteEvent(rows: seq<Row>, sites: seq<Site>, j: nat, status: string, progression: string, i: nat)
    requires i < |rows| && j <= |sites| && Visible(rows, i) && DistinctSites(sites)
    ensures EventsOf(SiteEvents(rows, sites, j, status, progression), i)
            == (var met, latest := LastSite(sites, KeyOf(rows[i]), j), Latest(sites, KeyOf(rows[i]));
                if met.Some? && latest.Some?
                then [Event(i, DiffAgainst(rows[i], latest.value), AutoApplies(DiffAgainst(rows[i], latest.value)))] else [])
  {
    hide KeyOf, SiteKey, DiffAgainst, AutoApplies, Latest, Visible, DistinctSites, SiteEvents, EventsOf;
    if j == 0 {
      FirstSiteEvents(rows, sites, status, progression);
      NoEvents(i);
    } else {
      OneSiteEvent(rows, sites, j - 1, status, progression, i);
      SiteEventStep(rows, sites, j, status, progression, i);
    }
  }

  lemma FirstSiteEvents(rows: seq<Row>, sites: seq<Site>, status: string, progression: string)
    ensures SiteEvents(rows, sites, 0, status, progression) == []
  {
  }

  lemma SiteEventStep(rows: seq<Row>, sites: seq<Site>, j: nat, status: string, progression: string, i: nat)
    requires i < |rows| && 0 < j <= |sites| && Visible(rows, i) && DistinctSites(sites)
    ensures var latest := Latest(sites, KeyOf(rows[i]));
            var before := EventsOf(SiteEvents(rows, sites, j - 1, status, progression), i);
            EventsOf(SiteEvents(rows, sites, j, status, progression), i)
            == if SiteKey(sites[j - 1]) == KeyOf(rows[i]) && latest.Some?
               then before + [Event(i, DiffAgainst(rows[i], latest.value), AutoApplies(DiffAgainst(rows[i], latest.value)))]
               else before
    ensures SiteKey(sites[j - 1]) == KeyOf(rows[i]) ==> LastSite(sites, KeyOf(rows[i]), j - 1).None?
  {
    hide KeyOf, SiteKey, DiffAgainst, EventsOf, AutoApplies;
    var before, all := SiteEvents(rows, sites, j - 1, status, progression), SiteEvents(rows, sites, j, status, progression);
    var e := all[|all| - 1];
    assert all == before + [e];
    EventsOfAppend(before, [e], i);
    EventsOfOne(e, i);
    assert EventsOf(before, i) + [] == EventsOf(before, i);
  }

  /** With distinct keys a stored allocation met again gets exactly one event: applied as
      "retained" when the capacities agree, queued as "capacity changed" when not. */
  lemma SeenQueuedOnce(rows: seq<Row>, sites: seq<Site>, status: string, progression: string, i: nat)
    requires i < |rows| && Visible(rows, i) && DistinctSites(sites) && Latest(sites, KeyOf(rows[i])).Some?
    ensures var s := Latest(sites, KeyOf(rows[i])).value;
            var changed := rows[i].minimum != s.minimum || rows[i].indicative != None || rows[i].maximum != None;
            EventsOf(FinalEvents(rows, sites, status, progression), i)
            == [Event(i, if changed then CapacityChanged else Retained, !changed)]
  {
    hide KeyOf, Latest, SiteEvents, RemovalEvents, EventsOf;
    OneSiteEvent(rows, sites, |sites|, status, progression, i);
    OneRemoval(rows, sites, |Keys(rows, |rows|)|, i);
    EventsOfAppend(SiteEvents(rows, sites, |sites|, status, progression), RemovalEvents(rows, sites, |Keys(rows, |rows|)|), i);
    LatestIsLast(sites, KeyOf(rows[i]));
  }

  lemma LatestIsLast(sites: seq<Site>, key: string)
    ensures Latest(sites, key) == LastSite(sites, key, |sites|)
  {
  }

  /* ----- running the same extraction again ----- */

  // An uncoded stored site met under a printed code that spells its synthetic key, with
  // another name: the refresh of its wording then changes its key.
  predicate Renamed(rows: seq<Row>, sites: seq<Site>, i: nat)
    requires i < |rows|
  {
    && Visible(rows, i) && !Coded(rows[i].reference)
    && Latest(sites, KeyOf(rows[i])).Some? && Latest(sites, KeyOf(rows[i])).value.siteName != rows[i].siteName
  }

  /** A stored row keeps its key exactly when it is not renamed in that sense. */
  lemma KeyKeptIff(rows: seq<Row>, sites: seq<Site>, i: nat)
    requires i < |rows|
    ensures KeyOf(FinalRow(rows, sites, i)) == KeyOf(rows[i]) <==> !Renamed(rows, sites, i)
  {
    hide Visible;
    LatestIsLast(sites, KeyOf(rows[i]));
    if Latest(sites, KeyOf(rows[i])).Some? {
      KeysCollideIff(rows[i].reference, rows[i].siteName, rows[i].reference, Latest(sites, KeyOf(rows[i])).value.siteName);
    }
  }

  // No printed code begins with the synthetic prefix.
  predicate PlainCodes(sites: seq<Site>) {
    forall s | s in sites :: Coded(s.reference) ==> !(UNREFERENCED <= s.reference.value)
  }

  lemma PlainCodesNeverRename(rows: seq<Row>, sites: seq<Site>, i: nat)
    requires PlainCodes(sites) && i < |rows|
    ensures !Renamed(rows, sites, i)
  {
    var latest := Latest(sites, KeyOf(rows[i]));
    if latest.Some? {
      var s := latest.value;
      KeysCollideIff(s.reference, s.siteName, rows[i].reference, rows[i].siteName);
      assert UNREFERENCED <= UNREFERENCED + rows[i].siteName;
    }
  }

  lemma {:induction false} AddedKeys(rows: seq<Row>, sites: seq<Site>, j: nat, status: string, progression: string)
    requires j <= |sites|
    ensures forall k | 0 <= k < j && Existing(rows, SiteKey(sites[k])).None? ::
              exists r :: r in Added(rows, sites, j, status, progression) && KeyOf(r) == SiteKey(sites[k])
  {
    hide Existing;
    if j > 0 {
      AddedKeys(rows, sites, j - 1, status, progression);
      var before, all := Added(rows, sites, j - 1, status, progression), Added(rows, sites, j, status, progression);
      forall k | 0 <= k < j && Existing(rows, SiteKey(sites[k])).None?
        ensures exists r :: r in all && KeyOf(r) == SiteKey(sites[k])
      {
        if k < j - 1 {
          var r :| r in before && KeyOf(r) == SiteKey(sites[k]);
          assert r in all;
        } else {
          var r := NewRow(sites[k], status, progression);
          assert r in all && KeyOf(r) == SiteKey(sites[k]);
        }
      }
    }
  }

  lemma {:induction false} NothingAdded(rows: seq<Row>, sites: seq<Site>, j: nat, status: string, progression: string)
    requires j <= |sites| && forall k | 0 <= k < j :: Existing(rows, SiteKey(sites[k])).Some?
    ensures Added(rows, sites, j, status, progression) == []
  {
    if j > 0 {
      NothingAdded(rows, sites, j - 1, status, progression);
    }
  }

  lemma HasKey(rows: seq<Row>, r: Row)
    requires r in rows
    ensures Existing(rows, KeyOf(r)).Some?
  {
  }

  lemma {:induction false} AddedAbsent(rows: seq<Row>, sites: seq<Site>, j: nat, status: string, progression: string)
    requires j <= |sites|
    ensures forall r | r in Added(rows, sites, j, status, progression) :: Existing(rows, KeyOf(r)).None?
  {
    hide Existing;
    if j > 0 {
      AddedAbsent(rows, sites, j - 1, status, progression);
    }
  }

  lemma LatestMet(sites: seq<Site>, key: string) returns (k: nat)
    requires Latest(sites, key).Some?
    ensures k < |sites| && SiteKey(sites[k]) == key
  {
    var s := Latest(sites, key).value;
    k :| 0 <= k < |sites| && sites[k] == s;
  }

  // The key a renamed row gave up is held by another stored row all the same: one that
  // was hidden under it, or one renamed to it.
  predicate KeyRetaken(rows: seq<Row>, sites: seq<Site>, i: nat)
    requires i < |rows|
  {
    exists j :: 0 <= j < |rows| && j != i
                && (KeyOf(rows[j]) == KeyOf(rows[i])
                    || (Renamed(rows, sites, j) && Latest(sites, KeyOf(rows[j])).value.siteName == rows[i].siteName))
  }

  lemma NewKey(rows: seq<Row>, sites: seq<Site>, i: nat, j: nat)
    requires i < |rows| && j < |rows| && Renamed(rows, sites, i)
    ensures KeyOf(FinalRow(rows, sites, j)) == KeyOf(rows[i]) <==>
              j != i && (KeyOf(rows[j]) == KeyOf(rows[i])
                         || (Renamed(rows, sites, j) && Latest(sites, KeyOf(rows[j])).value.siteName == rows[i].siteName))
  {
    KeyKeptIff(rows, sites, i);
    KeyKeptIff(rows, sites, j);
    if Renamed(rows, sites, j) {
      var latest := Latest(sites, KeyOf(rows[j])).value;
      LatestIsLast(sites, KeyOf(rows[j]));
      KeysCollideIff(None, latest.siteName, None, rows[i].siteName);
    }
  }

  lemma KeyRetakenIff(rows: seq<Row>, sites: seq<Site>, i: nat)
    requires i < |rows| && Renamed(rows, sites, i)
    ensures KeyRetaken(rows, sites, i) <==> exists j :: 0 <= j < |rows| && KeyOf(FinalRow(rows, sites, j)) == KeyOf(rows[i])
  {
    hide KeyOf, FinalRow, Visible;
    forall j | 0 <= j < |rows|
      ensures KeyOf(FinalRow(rows, sites, j)) == KeyOf(rows[i]) <==>
                j != i && (KeyOf(rows[j]) == KeyOf(rows[i])
                           || (Renamed(rows, sites, j) && Latest(sites, KeyOf(rows[j])).value.siteName == rows[i].siteName))
    {
      NewKey(rows, sites, i, j);
    }
  }

  // The rerun adds a row exactly when some extracted site's key is gone.
  lemma AddsNothingIff(rows: seq<Row>, sites: seq<Site>, status: string, progression: string)
    ensures |FinalRows(rows, sites, status, progression)| == |rows| <==>
              forall k | 0 <= k < |sites| :: Existing(rows, SiteKey(sites[k])).Some?
  {
    hide Existing, SiteKey, KeyOf;
    AddedKeys(rows, sites, |sites|, status, progression);
    if forall k | 0 <= k < |sites| :: Existing(rows, SiteKey(sites[k])).Some? {
      NothingAdded(rows, sites, |sites|, status, progression);
    }
  }

  lemma KeyAfterIff(rows: seq<Row>, sites: seq<Site>, status: string, progression: string, i: nat)
    requires i < |rows| && Visible(rows, i)
    ensures Existing(FinalRows(rows, sites, status, progression), KeyOf(rows[i])).Some? <==>
              !Renamed(rows, sites, i) || KeyRetaken(rows, sites, i)
  {
    hide KeyOf, Existing, FinalRow, Renamed, KeyRetaken, Visible, Added;
    var after, key := FinalRows(rows, sites, status, progression), KeyOf(rows[i]);
    KeyKeptIff(rows, sites, i);
    if Renamed(rows, sites, i) {
      KeyRetakenIff(rows, sites, i);
    }
    forall j | 0 <= j < |rows| ensures after[j] == FinalRow(rows, sites, j) && after[j] in after {}
    forall r | r in after ensures Existing(after, KeyOf(r)).Some? {
      HasKey(after, r);
    }
    if Existing(after, key).Some? {
      var m := StoredAt(after, key);
      AddedAbsent(rows, sites, |sites|, status, progression);
      HasKey(rows, rows[i]);
      assert m >= |rows| ==> after[m] in Added(rows, sites, |sites|, status, progression);
      assert KeyOf(FinalRow(rows, sites, m)) == key;
    }
  }

  /** Ingesting the same extraction again, under whatever plan status, adds no row if and
      only if every stored site it renamed left its key to another stored row. */
  lemma RerunAddsNothingIff(rows: seq<Row>, sites: seq<Site>, status: string, progression: string, status2: string, progression2: string)
    ensures var after := FinalRows(rows, sites, status, progression);
            |FinalRows(after, sites, status2, progression2)| == |after| <==>
              forall i | 0 <= i < |rows| && Renamed(rows, sites, i) :: KeyRetaken(rows, sites, i)
  {
    hide KeyOf, SiteKey, Existing, FinalRows, KeyRetaken, Latest;
    var after := FinalRows(rows, sites, status, progression);
    AddsNothingIff(after, sites, status2, progression2);
    forall k | 0 <= k < |sites| && Existing(rows, SiteKey(sites[k])).None? ensures Existing(after, SiteKey(sites[k])).Some? {
      NewKeyStored(rows, sites, status, progression, k);
    }
    if forall i | 0 <= i < |rows| && Renamed(rows, sites, i) :: KeyRetaken(rows, sites, i) {
      forall k | 0 <= k < |sites| ensures Existing(after, SiteKey(sites[k])).Some? {
        if Existing(rows, SiteKey(sites[k])).Some? {
          var i := VisibleAt(rows, SiteKey(sites[k]));
          KeyAfterIff(rows, sites, status, progression, i);
        }
      }
    }
    if forall k | 0 <= k < |sites| :: Existing(after, SiteKey(sites[k])).Some? {
      forall i | 0 <= i < |rows| && Renamed(rows, sites, i) ensures KeyRetaken(rows, sites, i) {
        var k := LatestMet(sites, KeyOf(rows[i]));
        KeyAfterIff(rows, sites, status, progression, i);
      }
    }
  }

  lemma NewKeyStored(rows: seq<Row>, sites: seq<Site>, status: string, progression: string, k: nat)
    requires k < |sites| && Existing(rows, SiteKey(sites[k])).None?
    ensures Existing(FinalRows(rows, sites, status, progression), SiteKey(sites[k])).Some?
  {
    hide KeyOf, SiteKey, Existing, FinalRow, Added;
    var added := Added(rows, sites, |sites|, status, progression);
    AddedKeys(rows, sites, |sites|, status, progression);
    var r :| r in added && KeyOf(r) == SiteKey(sites[k]);
    assert r in FinalRows(rows, sites, status, progression);
    HasKey(FinalRows(rows, sites, status, progression), r);
  }

  lemma VisibleAt(rows: seq<Row>, key: string) returns (i: nat)
    requires Existing(rows, key).Some?
    ensures i < |rows| && KeyOf(rows[i]) == key && Visible(rows, i)
  {
    i := Existing(rows, key).value;
  }

  lemma RerunAddsNothing(rows: seq<Row>, sites: seq<Site>, status: string, progression: string, status2: string, progression2: string)
    requires forall i | 0 <= i < |rows| :: !Renamed(rows, sites, i)
    ensures var after := FinalRows(rows, sites, status, progression);
            |FinalRows(after, sites, status2, progression2)| == |after|
  {
    hide FinalRows, Renamed;
    RerunAddsNothingIff(rows, sites, status, progression, status2, progression2);
  }

  /** In particular no rerun of an extraction without a prefixed printed code adds a row. */
  lemma PlainRerunAddsNothing(rows: seq<Row>, sites: seq<Site>, status: string, progression: string, status2: string, progression2: string)
    requires PlainCodes(sites)
    ensures var after := FinalRows(rows, sites, status, progression);
            |FinalRows(after, sites, status2, progression2)| == |after|
  {
    hide FinalRows, Renamed, PlainCodes;
    forall i | 0 <= i < |rows| ensures !Renamed(rows, sites, i) {
      PlainCodesNeverRename(rows, sites, i);
    }
    RerunAddsNothing(rows, sites, status, progression, status2, progression2);
  }

  lemma StoredAt(rows: seq<Row>, key: string) returns (i: nat)
    requires Existing(rows, key).Some?
    ensures i < |rows| && KeyOf(rows[i]) == key
  {
    i := Existing(rows, key).value;
  }

  // Why the printed codes matter: an uncoded "Mill Lane" met as code "__unref__:Mill Lane",
  // reworded, is added again by the very next run.
  lemma RenamedIsAddedAgain()
    ensures var stored := Row(None, "Mill Lane", "housing", Some(10), None, None, "allocated", "", AutoApplied);
            var site := Site(Some(UNREFERENCED + "Mill Lane"), "Land at Mill Lane", Some(10), "housing");
            var after := FinalRows([stored], [site], "allocated", "");
            Renamed([stored], [site], 0) && |after| == 1 && |FinalRows(after, [site], "allocated", "")| == 2
  {
    var stored := Row(None, "Mill Lane", "housing", Some(10), None, None, "allocated", "", AutoApplied);
    var site := Site(Some(UNREFERENCED + "Mill Lane"), "Land at Mill Lane", Some(10), "housing");
    OneRow(stored, SiteKey(site));
    OneSite(site, KeyOf(stored));
    KeyKeptIff([stored], [site], 0);
    var after := FinalRows([stored], [site], "allocated", "");
    assert Added([stored], [site], 1, "allocated", "") == [];
    assert after == [FinalRow([stored], [site], 0)];
    OneRow(after[0], SiteKey(site));
    assert |Added(after, [site], 1, "allocated", "")| == 1;
  }

  lemma OneRow(r: Row, key: string)
    ensures Existing([r], key) == if KeyOf(r) == key then Some(0) else None
  {
  }

  lemma OneSite(s: Site, key: string)
    ensures Latest([s], key) == if SiteKey(s) == key then Some(s) else None
  {
  }
}
