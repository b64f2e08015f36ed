/** The daily orchestrator: one child process per council, its output streamed into a
    bounded tail and into durable checkpoints, and one exit code for the whole job. */
module DailyCouncils {
  import opened Prelude

  const TAIL_MAX_LINES := 200
  const DETAIL_MAX_CHARS := 4000

  datatype Health = Success | Partial | Failed

  /* ----- lines ----- */

  predicate IsCheckpoint(line: string) {
    "[mem]" <= line || "[mem-warning]" <= line
  }

  predicate WordChar(c: char) {
    'a' <= c <= 'z' || 'A' <= c <= 'Z' || '0' <= c <= '9' || c == '_'
  }

  // The value, then a word boundary.
  predicate HasWord(line: string, prefix: string, word: string) {
    prefix + word <= line && (|line| > |prefix + word| ==> !WordChar(line[|prefix + word|]))
  }

  function ParseRunHealthStatus(line: string): Option<Health> {
    var prefix := "[run-health] status=";
    if HasWord(line, prefix, "success") then Some(Success)
    else if HasWord(line, prefix, "partial") then Some(Partial)
    else if HasWord(line, prefix, "failed") then Some(Failed)
    else None
  }

  // The rest of the line does not go on the word.
  predicate WordEnds(rest: string) {
    rest == "" || !('a' <= rest[0] <= 'z' || 'A' <= rest[0] <= 'Z' || '0' <= rest[0] <= '9' || rest[0] == '_')
  }

  lemma HasWordIff(line: string, prefix: string, word: string)
    ensures HasWord(line, prefix, word) <==> exists rest :: line == prefix + word + rest && WordEnds(rest)
  {
    if HasWord(line, prefix, word) {
      var rest := line[|prefix + word|..];
      assert line == prefix + word + rest && WordEnds(rest);
    }
  }

  lemma WordsDiffer(prefix: string, a: string, b: string, r: string, q: string)
    requires prefix + a + r == prefix + b + q && a != "" && b != ""
    ensures a[0] == b[0]
  {
    assert (prefix + a + r)[|prefix|] == a[0] && (prefix + b + q)[|prefix|] == b[0];
  }

  /** What a line reports: success, partial or failed exactly if it begins with that status
      field and the word ends there. */
  lemma StatusLineIff(line: string)
    ensures ParseRunHealthStatus(line) == Some(Success) <==>
              exists rest :: line == "[run-health] status=" + "success" + rest && WordEnds(rest)
    ensures ParseRunHealthStatus(line) == Some(Partial) <==>
              exists rest :: line == "[run-health] status=" + "partial" + rest && WordEnds(rest)
    ensures ParseRunHealthStatus(line) == Some(Failed) <==>
              exists rest :: line == "[run-health] status=" + "failed" + rest && WordEnds(rest)
  {
    hide HasWord;
    var prefix := "[run-health] status=";
    HasWordIff(line, prefix, "success");
    HasWordIff(line, prefix, "partial");
    HasWordIff(line, prefix, "failed");
    forall r, q ensures line == prefix + "success" + r ==> line != prefix + "partial" + q && line != prefix + "failed" + q {
      if line == prefix + "success" + r && line == prefix + "partial" + q { WordsDiffer(prefix, "success", "partial", r, q); }
      if line == prefix + "success" + r && line == prefix + "failed" + q { WordsDiffer(prefix, "success", "failed", r, q); }
    }
    forall r, q ensures line == prefix + "partial" + r ==> line != prefix + "failed" + q {
      if line == prefix + "partial" + r && line == prefix + "failed" + q { WordsDiffer(prefix, "partial", "failed", r, q); }
    }
  }

  function Cut(s: string, n: nat): string {
    if |s| <= n then s else s[..n]
  }

  function LastChars(s: string, n: nat): string {
    if |s| <= n then s else s[|s| - n..]
  }

  function LastLines(lines: seq<string>, n: nat): seq<string> {
    if |lines| <= n then lines else lines[|lines| - n..]
  }

  function Join(lines: seq<string>): string {
    if lines == [] then ""
    else if |lines| == 1 then lines[0]
    else Join(lines[..|lines| - 1]) + "\n" + lines[|lines| - 1]
  }

  // What a row must still say if the orchestrator dies right after these lines.
  function LatestCheckpoint(lines: seq<string>): (d: Option<string>)
    ensures d.None? <==> forall i | 0 <= i < |lines| :: !IsCheckpoint(lines[i])
    ensures d.Some? ==>
              exists i :: 0 <= i < |lines| && IsCheckpoint(lines[i]) && d.value == Cut(lines[i], DETAIL_MAX_CHARS)
                          && forall j | i < j < |lines| :: !IsCheckpoint(lines[j])
  {
    if lines == [] then None
    else if IsCheckpoint(lines[|lines| - 1]) then Some(Cut(lines[|lines| - 1], DETAIL_MAX_CHARS))
    else LatestCheckpoint(lines[..|lines| - 1])
  }

  function Reports(line: string): Option<Health> {
    if IsCheckpoint(line) then None else ParseRunHealthStatus(line)
  }

  function LatestHealth(lines: seq<string>): Option<Health> {
    if lines == [] then None
    else if Reports(lines[|lines| - 1]).Some? then Reports(lines[|lines| - 1])
    else LatestHealth(lines[..|lines| - 1])
  }

  lemma {:induction false} LatestHealthIs(lines: seq<string>)
    ensures var h := LatestHealth(lines);
            && (h.None? <==> forall i | 0 <= i < |lines| :: Reports(lines[i]).None?)
            && (h.Some? ==> exists i :: 0 <= i < |lines| && Reports(lines[i]) == h
                                        && forall j | i < j < |lines| :: Reports(lines[j]).None?)
    decreases |lines|
  {
    hide Reports;
    if lines != [] && Reports(lines[|lines| - 1]).None? {
      LatestHealthIs(lines[..|lines| - 1]);
    }
  }

  lemma OneMoreLine(lines: seq<string>, line: string)
    ensures LatestCheckpoint(lines + [line])
            == if IsCheckpoint(line) then Some(Cut(line, DETAIL_MAX_CHARS)) else LatestCheckpoint(lines)
    ensures LatestHealth(lines + [line]) == if Reports(line).Some? then Reports(line) else LatestHealth(lines)
  {
    assert (lines + [line])[..|lines|] == lines;
  }

  // A deque of bounded length drops from the left.
  lemma TailAppend(lines: seq<string>, line: string)
    ensures LastLines(LastLines(lines, TAIL_MAX_LINES) + [line], TAIL_MAX_LINES) == LastLines(lines + [line], TAIL_MAX_LINES)
  {
  }

  /* ----- one council ----- */

  datatype Status = Running | Done(h: Health)
  datatype Row = Row(status: Status, detail: Option<string>, counts: Option<(int, int)>)

  // What the environment does to one council's run. checkpointFails: the line whose
  // checkpoint commit raises, if any. timedOut: whether the timer had fired by the time
  // it was cancelled, however the child ended.
  datatype Child = Child(before: Option<int>, openCommit: bool, spawnFails: bool, lines: seq<string>,
                         checkpointFails: Option<nat>, returnCode: int, timedOut: bool,
                         timeoutLine: string, errorLine: string, after: Option<int>, finalCommit: bool)

  // The lines read before a checkpoint commit raises; all of them if none does.
  function FailsAt(c: Child): Option<nat> {
    if c.checkpointFails.Some? && c.checkpointFails.value < |c.lines| && IsCheckpoint(c.lines[c.checkpointFails.value])
    then c.checkpointFails else None
  }

  // What was read, and which part of it had its checkpoints committed.
  function ReadLines(c: Child): seq<string> {
    if c.spawnFails then [] else if FailsAt(c).Some? then c.lines[..FailsAt(c).value + 1] else c.lines
  }

  function CommittedLines(c: Child): seq<string> {
    if c.spawnFails then [] else if FailsAt(c).Some? then c.lines[..FailsAt(c).value] else c.lines
  }

  function Crashed(c: Child): bool {
    c.spawnFails || FailsAt(c).Some? || c.timedOut || c.returnCode != 0
  }

  // The tail's content before it is bounded.
  function Output(c: Child): seq<string> {
    ReadLines(c) + (if c.spawnFails || FailsAt(c).Some? then [c.errorLine]
                    else if c.timedOut then [c.timeoutLine] else [])
  }

  function Verdict(c: Child): Health {
    if Crashed(c) then Failed
    else if LatestHealth(c.lines).Some? then LatestHealth(c.lines).value
    else Success
  }

  function FinalRow(c: Child): Row
    requires c.before.Some? && c.after.Some?
  {
    Row(Done(Verdict(c)), Some(LastChars(Join(LastLines(Output(c), TAIL_MAX_LINES)), DETAIL_MAX_CHARS)),
        Some((c.before.value, c.after.value)))
  }

  // The row of a run still being streamed, its latest checkpoint as the detail.
  function RunningRow(lines: seq<string>): Row {
    Row(Running, LatestCheckpoint(lines), None)
  }

  // The durable row after each line.
  ghost predicate JournalOf(journal: seq<Option<Row>>, lines: seq<string>) {
    |journal| == |lines| && forall i | 0 <= i < |journal| :: journal[i] == Some(RunningRow(lines[..i + 1]))
  }

  lemma JournalStep(journal: seq<Option<Row>>, lines: seq<string>, line: string, row: Option<Row>)
    requires JournalOf(journal, lines) && row == Some(RunningRow(lines + [line]))
    ensures JournalOf(journal + [row], lines + [line])
  {
    var more := journal + [row];
    forall i | 0 <= i < |more| ensures more[i] == Some(RunningRow((lines + [line])[..i + 1])) {
      assert (lines + [line])[..i + 1] == if i < |lines| then lines[..i + 1] else lines + [line];
    }
  }

  datatype Interruption = LineRaised | TimeoutExpired | Spawn

  class ScrapeRun {
    var status: Status
    var detail: Option<string>
    var counts: Option<(int, int)>
    var durable: Option<Row>
    var tail: seq<string>
    var runHealth: Option<Health>
    // The durable row as it stood after each line so far: what a kill there leaves.
    ghost var journal: seq<Option<Row>>

    constructor ()
      ensures status == Running && detail == None && counts == None && durable == None
      ensures tail == [] && runHealth == None && journal == []
    {
      status, detail, counts, durable, tail, runHealth, journal := Running, None, None, None, [], None, [];
    }

    function View(): Row
      reads this
    {
      Row(status, detail, counts)
    }

    ghost predicate Streaming(lines: seq<string>)
      reads this
    {
      && status == Running && counts == None
      && tail == LastLines(lines, TAIL_MAX_LINES) && runHealth == LatestHealth(lines)
      && durable == Some(RunningRow(lines))
      && detail == LatestCheckpoint(lines)
      && JournalOf(journal, lines)
    }

    method Append(line: string)
      requires |tail| <= TAIL_MAX_LINES
      modifies this`tail
      ensures tail == LastLines(old(tail) + [line], TAIL_MAX_LINES)
    {
      tail := tail + [line];
      if |tail| > TAIL_MAX_LINES {
        tail := tail[1..];
      }
    }

    /** One streamed line. If its checkpoint commit raises, nothing durable changes. */
    method OnLine(line: string, commits: bool, ghost lines: seq<string>) returns (raised: bool)
      requires Streaming(lines) && |tail| <= TAIL_MAX_LINES
      modifies this
      ensures raised <==> ("[mem]" <= line || "[mem-warning]" <= line) && !commits
      ensures !raised && ("[mem]" <= line || "[mem-warning]" <= line) ==>
                durable == Some(Row(Running, Some(if |line| <= 4000 then line else line[..4000]), None)) && runHealth == old(runHealth)
      ensures !raised && !("[mem]" <= line || "[mem-warning]" <= line) ==>
                && durable == old(durable)
                && runHealth == (if ParseRunHealthStatus(line) == None then old(runHealth) else ParseRunHealthStatus(line))
      ensures !raised ==> Streaming(lines + [line])
      ensures raised ==> durable == old(durable) && journal == old(journal) && status == Running && counts == None
      ensures tail == LastLines(lines + [line], TAIL_MAX_LINES)
    {
      hide Join, LatestHealth, ParseRunHealthStatus, JournalOf;
      OneMoreLine(lines, line);
      TailAppend(lines, line);
      Append(line);
      raised := false;
      if "[mem]" <= line || "[mem-warning]" <= line {
        detail := Some(Cut(line, DETAIL_MAX_CHARS));
        if !commits {
          return true;
        }
        durable := Some(View());
      } else {
        var health := ParseRunHealthStatus(line);
        if health.Some? {
          runHealth := health;
        }
      }
      JournalStep(journal, lines, line, durable);
      journal := journal + [durable];
    }
  }

  /** run_one_council: it either returns with the final row committed, or raises leaving a
      row that still says "running" with the latest committed checkpoint (or no row). At
      every point of the stream the durable row was "running" with the latest checkpoint. */
  method RunOneCouncil(c: Child) returns (run: ScrapeRun, returned: bool)
    ensures returned <==> c.before.Some? && c.openCommit && c.after.Some? && c.finalCommit
    ensures returned ==> run.durable == Some(FinalRow(c)) && run.View() == FinalRow(c)
    ensures returned ==> run.counts == Some((c.before.value, c.after.value)) && run.status == Done(Verdict(c))
    ensures !returned ==>
              run.durable == if c.before.Some? && c.openCommit then Some(RunningRow(CommittedLines(c))) else None
    ensures c.before.Some? && c.openCommit ==> JournalOf(run.journal, CommittedLines(c))
  {
    run := new ScrapeRun();
    if c.before.None? || !c.openCommit {
      return run, false;
    }
    run.durable := Some(run.View());
    assert run.Streaming([]);
    var interruption := RunCouncilSubprocess(run, c);
    var crashed := if interruption.Some? then true else c.returnCode != 0;
    if interruption == Some(TimeoutExpired) {
      TailAppend(ReadLines(c), c.timeoutLine);
      run.Append(c.timeoutLine);
    } else if interruption.Some? {
      TailAppend(ReadLines(c), c.errorLine);
      run.Append(c.errorLine);
    }
    assert ReadLines(c) + [] == ReadLines(c);
    run.status := if crashed then Done(Failed) else if run.runHealth.Some? then Done(run.runHealth.value) else Done(Success);
    if c.after.None? {
      return run, false;
    }
    run.counts := Some((c.before.value, c.after.value));
    run.detail := Some(LastChars(Join(run.tail), DETAIL_MAX_CHARS));
    if c.finalCommit {
      run.durable := Some(run.View());
    }
    returned := c.finalCommit;
  }

  // The reader loop: every line to OnLine, then the exit, then the timer's verdict.
  method RunCouncilSubprocess(run: ScrapeRun, c: Child) returns (interruption: Option<Interruption>)
    requires run.Streaming([]) && run.tail == []
    modifies run
    ensures interruption.Some? <==> c.spawnFails || FailsAt(c).Some? || c.timedOut
    ensures interruption == Some(TimeoutExpired) <==> !c.spawnFails && FailsAt(c).None? && c.timedOut
    ensures run.tail == LastLines(ReadLines(c), TAIL_MAX_LINES)
    ensures run.durable == Some(RunningRow(CommittedLines(c)))
    ensures run.counts == None && (interruption.None? ==> run.runHealth == LatestHealth(c.lines))
    ensures JournalOf(run.journal, CommittedLines(c))
  {
    hide Join, LatestHealth, ParseRunHealthStatus, JournalOf, LatestCheckpoint;
    if c.spawnFails {
      return Some(Spawn);
    }
    for i := 0 to |c.lines|
      invariant run.Streaming(c.lines[..i])
      invariant forall k: nat | k < i :: FailsAt(c) != Some(k)
    {
      assert c.lines[..i + 1] == c.lines[..i] + [c.lines[i]];
      var raised := run.OnLine(c.lines[i], c.checkpointFails != Some(i), c.lines[..i]);
      if raised {
        return Some(LineRaised);
      }
    }
    assert c.lines[..|c.lines|] == c.lines;
    if c.timedOut {
      return Some(TimeoutExpired);
    }
    interruption := None;
  }

  /** A run is recorded as healthy exactly when the child exited 0 before the timer fired,
      the stream was read to its end, and its last health report, if any, was not
      "failed": a crash outranks whatever the child printed. */
  lemma HealthyIff(c: Child)
    ensures Verdict(c) != Failed <==>
              && !c.spawnFails && FailsAt(c).None? && !c.timedOut && c.returnCode == 0
              && forall i | 0 <= i < |c.lines| && Reports(c.lines[i]) == Some(Failed) ::
                   exists j :: i < j < |c.lines| && Reports(c.lines[j]).Some?
  {
    hide Reports;
    var h := LatestHealth(c.lines);
    LatestHealthIs(c.lines);
    if h.Some? {
      var i :| 0 <= i < |c.lines| && Reports(c.lines[i]) == h && forall j | i < j < |c.lines| :: Reports(c.lines[j]).None?;
      forall k | 0 <= k < |c.lines| && Reports(c.lines[k]).Some? ensures k <= i {}
    }
  }

  /** Short of a failure, a run is partial exactly when its last report says so, and a
      success when its last report says that or there is none. */
  lemma PartialIff(c: Child)
    ensures Verdict(c) == Partial <==>
              && !c.spawnFails && FailsAt(c).None? && !c.timedOut && c.returnCode == 0
              && exists i :: 0 <= i < |c.lines| && Reports(c.lines[i]) == Some(Partial)
                             && forall j | i < j < |c.lines| :: Reports(c.lines[j]).None?
    ensures Verdict(c) == Success <==>
              && !c.spawnFails && FailsAt(c).None? && !c.timedOut && c.returnCode == 0
              && ((forall i | 0 <= i < |c.lines| :: Reports(c.lines[i]).None?)
                  || exists i :: 0 <= i < |c.lines| && Reports(c.lines[i]) == Some(Success)
                                 && forall j | i < j < |c.lines| :: Reports(c.lines[j]).None?)
  {
    hide Reports;
    LatestHealthIs(c.lines);
  }

  // A checkpoint line reports nothing.
  lemma ReportsIs(line: string)
    ensures Reports(line) == if "[mem]" <= line || "[mem-warning]" <= line then None else ParseRunHealthStatus(line)
  {
    hide ParseRunHealthStatus;
  }

  lemma {:induction false} JoinIs(lines: seq<string>, line: string)
    ensures Join([line]) == line
    ensures lines != [] ==> Join(lines + [line]) == Join(lines) + "\n" + line
  {
    assert (lines + [line])[..|lines|] == lines;
  }

  /** What the tail is taken from: the lines read, then the reason if the run was cut. */
  lemma OutputIs(c: Child)
    ensures c.spawnFails ==> Output(c) == [c.errorLine]
    ensures forall k: nat | !c.spawnFails && c.checkpointFails == Some(k) && k < |c.lines|
                            && ("[mem]" <= c.lines[k] || "[mem-warning]" <= c.lines[k]) ::
              Output(c) == c.lines[..k + 1] + [c.errorLine]
    ensures !c.spawnFails && c.checkpointFails == None ==> Output(c) == c.lines + (if c.timedOut then [c.timeoutLine] else [])
  {
  }

  /** The final detail is the end of the output: of at most its last 200 lines, joined, the
      last 4000 characters. */
  lemma FinalDetailIs(c: Child)
    requires c.before.Some? && c.after.Some?
    ensures var all := Output(c);
            var text := Join(if |all| <= 200 then all else all[|all| - 200..]);
            && FinalRow(c).detail.Some? && |FinalRow(c).detail.value| == (if |text| <= 4000 then |text| else 4000)
            && exists dropped :: text == dropped + FinalRow(c).detail.value
  {
    hide Join, Output, Verdict;
    var all := Output(c);
    var text := Join(if |all| <= 200 then all else all[|all| - 200..]);
    var d := LastChars(text, 4000);
    assert text == text[..|text| - |d|] + d;
    assert FinalRow(c).detail == Some(d);
  }

  /* ----- the whole job ----- */

  function Recorded(c: Child): Option<Health> {
    if c.before.Some? && c.openCommit && c.after.Some? && c.finalCommit then Some(Verdict(c)) else None
  }

  predicate Healthy(c: Child) {
    Recorded(c) == Some(Success) || Recorded(c) == Some(Partial)
  }

  /** A council counts as healthy exactly when every step of its bookkeeping went through
      and its run did not fail. */
  lemma HealthyMeans(c: Child)
    ensures Healthy(c) <==> c.before.Some? && c.openCommit && c.after.Some? && c.finalCommit && Verdict(c) != Failed
  {
  }

  function ExitCode(healthy: nat, attempted: nat): int {
    if healthy == attempted then 0 else 1
  }

  /** main: 0 exactly when every attempted council left a recorded run that is success or
      partial. A council whose bookkeeping raised has no record and fails the job, and
      never keeps the later councils from running. */
  method RunAllCouncils(children: seq<Child>) returns (exitCode: int, recorded: seq<Health>)
    ensures exitCode == 0 <==> forall c | c in children :: Healthy(c)
    ensures exitCode == 0 || exitCode == 1
    ensures recorded == AllRecorded(children)
  {
    recorded := [];
    for i := 0 to |children|
      invariant recorded == AllRecorded(children[..i])
    {
      assert children[..i + 1][..i] == children[..i];
      var run, returned := RunOneCouncil(children[i]);
      if returned {
        recorded := recorded + [run.status.h];
      }
    }
    assert children[..|children|] == children;
    var successes := CountOf(recorded, Success);
    var partials := CountOf(recorded, Partial);
    CountsHealthy(children);
    AllHealthyIff(children);
    exitCode := ExitCode(successes + partials, |children|);
  }

  function AllRecorded(children: seq<Child>): seq<Health> {
    if children == [] then []
    else
      var last := Recorded(children[|children| - 1]);
      AllRecorded(children[..|children| - 1]) + (if last.Some? then [last.value] else [])
  }

  function CountOf(results: seq<Health>, h: Health): nat {
    if results == [] then 0
    else CountOf(results[..|results| - 1], h) + (if results[|results| - 1] == h then 1 else 0)
  }

  lemma CountAppend(results: seq<Health>, h: Health, x: Health)
    ensures CountOf(results + [h], x) == CountOf(results, x) + (if h == x then 1 else 0)
  {
    assert (results + [h])[..|results|] == results;
  }

  function HealthyCount(children: seq<Child>): (n: nat)
    ensures n <= |children|
  {
    if children == [] then 0
    else HealthyCount(children[..|children| - 1]) + (if Healthy(children[|children| - 1]) then 1 else 0)
  }

  lemma {:induction false} CountsHealthy(children: seq<Child>)
    ensures var r := AllRecorded(children); CountOf(r, Success) + CountOf(r, Partial) == HealthyCount(children)
    decreases |children|
  {
    hide Recorded;
    if children != [] {
      var last := children[|children| - 1];
      CountsHealthy(children[..|children| - 1]);
      var r := AllRecorded(children[..|children| - 1]);
      if Recorded(last).Some? {
        CountAppend(r, Recorded(last).value, Success);
        CountAppend(r, Recorded(last).value, Partial);
      } else {
        assert r + [] == r;
      }
    }
  }

  lemma {:induction false} AllHealthyIff(children: seq<Child>)
    ensures HealthyCount(children) == |children| <==> forall c | c in children :: Healthy(c)
    decreases |children|
  {
    hide Healthy;
    if children != [] {
      var init, last := children[..|children| - 1], children[|children| - 1];
      AllHealthyIff(init);
      assert children == init + [last];
    }
  }
}
