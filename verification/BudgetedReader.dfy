/** The evidence assessment's HTTP reader: one object whose request, byte, spacing and
    per-host limits must hold over every sequence of calls and every kind of failure. */
module BudgetedReader {
  import opened Prelude

  type Host = string

  const REQUEST_CAP := 250
  const BYTE_CAP := 134217728
  const DEADLINE := 600.0
  const SPACING := 0.5
  const ACCESS_FAILURE_LIMIT := 3
  const PDF_LIMIT := 8388608
  const PAGE_LIMIT := 512000

  datatype Path = Page | PdfDocument | Converter | OtherPath
  datatype Url = Url(https: bool, host: Host, userinfo: bool, fragment: bool, length: nat, path: Path)

  datatype Fault = Timeout | ConnectionLost | OtherFault

  // A chunk as iter_content yields it, what the raw stream then says it has read, and
  // the time since the reader was created.
  datatype Chunk = Chunk(size: nat, tell: Option<nat>, elapsed: real)
  datatype Prefix = Broken(fault: Fault) | Prefix(size: nat, challenged: bool)
  datatype Body = Body(isPdf: bool, pages: Option<nat>, textLength: nat, decodes: bool, challenged: bool)

  // Everything the far side can do to one dispatched request.
  datatype Reply =
    | Unreachable(fault: Fault)
    | NotOk(prefix: Prefix)
    | Answer(attachment: bool, chunks: seq<Chunk>, broken: Option<Fault>, body: Body)

  datatype Failure =
    | AccessControlStop | HttpStatus | UnexpectedAttachment | ResponseCap
    | PdfShape | PdfUnreadable | PdfPageCap | TextCap | Undecodable | Transport(fault: Fault)

  datatype Status = Unknown | Read | Failed(why: Failure)
  datatype Row = Row(host: Host, pdf: bool, status: Status, bytes: int)

  datatype Refusal = UnadmittedSource | UnadmittedPath | HostStopped | AssessmentCap
  datatype Result = Refused(r: Refusal) | Dispatched(failure: Option<Failure>)

  predicate AccessFailure(f: Failure) {
    f.HttpStatus? || f == Transport(Timeout) || f == Transport(ConnectionLost)
  }

  // A refused or timed-out connection, or an HTTP status other than 200.
  predicate CountedStatus(s: Status) {
    s == Failed(HttpStatus) || s == Failed(Transport(Timeout)) || s == Failed(Transport(ConnectionLost))
  }

  lemma AccessFailureIs(f: Failure)
    ensures AccessFailure(f) <==> CountedStatus(Failed(f))
  {
  }

  function Limit(pdf: bool): int {
    if pdf then PDF_LIMIT else PAGE_LIMIT
  }

  function Max(a: int, b: int): int {
    if a < b then b else a
  }

  /* ----- what one dispatched request reads, and how it is judged ----- */

  function Size(chunks: seq<Chunk>, k: nat): nat
    requires k <= |chunks|
  {
    if k == 0 then 0 else Size(chunks, k - 1) + chunks[k - 1].size
  }

  // The row's byte count after k chunks.
  function BytesAfter(chunks: seq<Chunk>, k: nat): int
    requires k <= |chunks|
  {
    if k == 0 then 0
    else Max(Size(chunks, k), if chunks[k - 1].tell.Some? then chunks[k - 1].tell.value else 0)
  }

  predicate Capped(chunks: seq<Chunk>, pdf: bool, before: int, k: nat)
    requires k <= |chunks|
  {
    k > 0 && (BytesAfter(chunks, k) > Limit(pdf) || before + BytesAfter(chunks, k) > BYTE_CAP
              || chunks[k - 1].elapsed >= DEADLINE)
  }

  // How many chunks are read: up to and including the first that trips a cap.
  function Consumed(chunks: seq<Chunk>, pdf: bool, before: int, k: nat): (n: nat)
    requires k <= |chunks|
    ensures k <= n <= |chunks|
    ensures forall j | k <= j < n :: !Capped(chunks, pdf, before, j)
    ensures n < |chunks| ==> Capped(chunks, pdf, before, n)
    decreases |chunks| - k
  {
    if Capped(chunks, pdf, before, k) || k == |chunks| then k else Consumed(chunks, pdf, before, k + 1)
  }

  function JudgeBody(pdf: bool, b: Body): Option<Failure> {
    if pdf then
      if !b.isPdf then Some(PdfShape)
      else if b.pages.None? then Some(PdfUnreadable)
      else if b.pages.value > 100 then Some(PdfPageCap)
      else if b.textLength > 1000000 then Some(TextCap)
      else None
    else if !b.decodes then Some(Undecodable)
    else if b.challenged then Some(AccessControlStop)
    else None
  }

  datatype Judgement = Judgement(bytes: int, failure: Option<Failure>)

  function Judge(reply: Reply, pdf: bool, before: int): Judgement {
    match reply
    case Unreachable(fault) => Judgement(0, Some(Transport(fault)))
    case NotOk(Broken(fault)) => Judgement(0, Some(Transport(fault)))
    case NotOk(Prefix(size, challenged)) => Judgement(size, Some(if challenged then AccessControlStop else HttpStatus))
    case Answer(attachment, chunks, broken, body) =>
      if attachment && !pdf then Judgement(0, Some(UnexpectedAttachment))
      else
        var n := Consumed(chunks, pdf, before, 0);
        Judgement(BytesAfter(chunks, n),
                  if Capped(chunks, pdf, before, n) then Some(ResponseCap)
                  else if broken.Some? then Some(Transport(broken.value))
                  else JudgeBody(pdf, body))
  }

  // The largest single growth of the byte count in a reply.
  function Growth(reply: Reply): (g: int)
    ensures g >= 0
  {
    match reply
    case Unreachable(_) => 0
    case NotOk(Broken(_)) => 0
    case NotOk(Prefix(size, _)) => size
    case Answer(_, chunks, _, _) => GrowthUpTo(chunks, |chunks|)
  }

  function GrowthUpTo(chunks: seq<Chunk>, k: nat): (g: int)
    requires k <= |chunks|
    ensures g >= 0
    ensures forall j | 0 <= j < k :: BytesAfter(chunks, j + 1) - BytesAfter(chunks, j) <= g
    ensures g == 0 || exists j :: 0 <= j < k && BytesAfter(chunks, j + 1) - BytesAfter(chunks, j) == g
  {
    if k == 0 then 0
    else Max(GrowthUpTo(chunks, k - 1), BytesAfter(chunks, k) - BytesAfter(chunks, k - 1))
  }

  /** A request dispatched below the byte cap can pass a limit by one growth at most. */
  lemma JudgedWithin(reply: Reply, pdf: bool, before: int)
    requires before <= BYTE_CAP
    ensures var j := Judge(reply, pdf, before);
            0 <= j.bytes <= Limit(pdf) + Growth(reply) && before + j.bytes <= BYTE_CAP + Growth(reply)
  {
    if reply.Answer? && !(reply.attachment && !pdf) {
      var n := Consumed(reply.chunks, pdf, before, 0);
      if n > 0 {
        assert !Capped(reply.chunks, pdf, before, n - 1);
        assert BytesAfter(reply.chunks, n) - BytesAfter(reply.chunks, n - 1) <= GrowthUpTo(reply.chunks, |reply.chunks|);
      }
    }
  }

  // The bytes a reply is charged for after k chunks: those received, or what the stream
  // says it has read if that is more.
  lemma BytesAre(chunks: seq<Chunk>, k: nat)
    requires k < |chunks|
    ensures Size(chunks, 0) == 0 && Size(chunks, k + 1) == Size(chunks, k) + chunks[k].size
    ensures BytesAfter(chunks, 0) == 0
    ensures BytesAfter(chunks, k + 1) >= Size(chunks, k + 1)
    ensures chunks[k].tell.Some? ==> BytesAfter(chunks, k + 1) >= chunks[k].tell.value
    ensures BytesAfter(chunks, k + 1) == Size(chunks, k + 1) || chunks[k].tell == Some(BytesAfter(chunks, k + 1) as nat)
  {
  }

  // The k-th chunk leaves the reply over its own limit, the assessment over its byte cap
  // or past its deadline.
  predicate TooMuch(chunks: seq<Chunk>, pdf: bool, before: int, k: nat)
    requires k < |chunks|
  {
    || BytesAfter(chunks, k + 1) > (if pdf then 8388608 else 512000)
    || before + BytesAfter(chunks, k + 1) > 134217728
    || chunks[k].elapsed >= 600.0
  }

  lemma CappedIs(chunks: seq<Chunk>, pdf: bool, before: int, k: nat)
    requires k < |chunks|
    ensures Capped(chunks, pdf, before, k + 1) <==> TooMuch(chunks, pdf, before, k)
    ensures !Capped(chunks, pdf, before, 0)
  {
  }

  /** When a response is read: an answer (no attachment, for a page) every chunk of which
      keeps the limits, whose stream does not break, and whose body is a readable PDF of at
      most 100 pages and a million characters, or a page that decodes and is no challenge. */
  lemma ReadIff(reply: Reply, pdf: bool, before: int)
    ensures Judge(reply, pdf, before).failure == None <==>
              && reply.Answer? && (pdf || !reply.attachment) && reply.broken == None
              && (forall k: nat | k < |reply.chunks| :: !TooMuch(reply.chunks, pdf, before, k))
              && (if pdf then
                    reply.body.isPdf && reply.body.pages.Some? && reply.body.pages.value <= 100 && reply.body.textLength <= 1000000
                  else reply.body.decodes && !reply.body.challenged)
  {
    hide Capped, TooMuch, BytesAfter;
    if reply.Answer? && (pdf || !reply.attachment) {
      NoCapIff(reply.chunks, pdf, before);
    }
  }

  // Reading goes to the end exactly when no chunk is too much.
  lemma NoCapIff(chunks: seq<Chunk>, pdf: bool, before: int)
    ensures !Capped(chunks, pdf, before, Consumed(chunks, pdf, before, 0)) <==>
              forall k: nat | k < |chunks| :: !TooMuch(chunks, pdf, before, k)
  {
    hide Capped, TooMuch, BytesAfter;
    var n := Consumed(chunks, pdf, before, 0);
    if |chunks| > 0 {
      CappedIs(chunks, pdf, before, 0);
    } else {
      NeverCappedEmpty(chunks, pdf, before);
    }
    forall k: nat | k < |chunks| ensures Capped(chunks, pdf, before, k + 1) <==> TooMuch(chunks, pdf, before, k) {
      CappedIs(chunks, pdf, before, k);
    }
    if 0 < n && Capped(chunks, pdf, before, n) {
      assert TooMuch(chunks, pdf, before, n - 1);
    }
    if !Capped(chunks, pdf, before, n) {
      forall k: nat | k < |chunks| ensures !TooMuch(chunks, pdf, before, k) {
        assert !Capped(chunks, pdf, before, k + 1);
      }
    }
  }

  lemma NeverCappedEmpty(chunks: seq<Chunk>, pdf: bool, before: int)
    ensures !Capped(chunks, pdf, before, 0)
  {
  }

  /** Which failure a response ends in. A cap outranks a broken stream, and a broken stream
      the body. */
  lemma FailureIs(reply: Reply, pdf: bool, before: int)
    ensures forall fault :: reply == Unreachable(fault) || reply == NotOk(Broken(fault)) ==>
              Judge(reply, pdf, before) == Judgement(0, Some(Transport(fault)))
    ensures forall size: nat :: reply == NotOk(Prefix(size, true)) ==> Judge(reply, pdf, before) == Judgement(size, Some(AccessControlStop))
    ensures forall size: nat :: reply == NotOk(Prefix(size, false)) ==> Judge(reply, pdf, before) == Judgement(size, Some(HttpStatus))
    ensures reply.Answer? && reply.attachment && !pdf ==> Judge(reply, pdf, before) == Judgement(0, Some(UnexpectedAttachment))
    ensures reply.Answer? && (pdf || !reply.attachment) ==>
              var f := Judge(reply, pdf, before).failure;
              var capped := exists k: nat :: k < |reply.chunks| && TooMuch(reply.chunks, pdf, before, k);
              && (f == Some(ResponseCap) <==> capped)
              && (!capped && reply.broken.Some? ==> f == Some(Transport(reply.broken.value)))
              && (!capped && reply.broken == None && pdf ==>
                    && (f == Some(PdfShape) <==> !reply.body.isPdf)
                    && (f == Some(PdfUnreadable) <==> reply.body.isPdf && reply.body.pages == None)
                    && (f == Some(PdfPageCap) <==> reply.body.isPdf && reply.body.pages.Some? && reply.body.pages.value > 100)
                    && (f == Some(TextCap) <==> reply.body.isPdf && reply.body.pages.Some? && reply.body.pages.value <= 100
                                                && reply.body.textLength > 1000000))
              && (!capped && reply.broken == None && !pdf ==>
                    && (f == Some(Undecodable) <==> !reply.body.decodes)
                    && (f == Some(AccessControlStop) <==> reply.body.decodes && reply.body.challenged))
  {
    hide Capped, TooMuch, BytesAfter;
    if reply.Answer? && (pdf || !reply.attachment) {
      NoCapIff(reply.chunks, pdf, before);
    }
  }

  /* ----- what the audit says ----- */

  function TotalBytes(audit: seq<Row>): int {
    if audit == [] then 0 else TotalBytes(audit[..|audit| - 1]) + audit[|audit| - 1].bytes
  }

  predicate CountsFor(row: Row, h: Host) {
    row.host == h && row.status.Failed? && AccessFailure(row.status.why)
  }

  function AccessFailures(audit: seq<Row>, h: Host): nat {
    if audit == [] then 0
    else AccessFailures(audit[..|audit| - 1], h) + (if CountsFor(audit[|audit| - 1], h) then 1 else 0)
  }

  lemma AuditAppend(audit: seq<Row>, row: Row)
    ensures TotalBytes(audit + [row]) == TotalBytes(audit) + row.bytes
    ensures forall h :: AccessFailures(audit + [row], h) == AccessFailures(audit, h) + (if CountsFor(row, h) then 1 else 0)
  {
    assert (audit + [row])[..|audit|] == audit;
  }

  function Count(failures: map<Host, nat>, h: Host): nat {
    if h in failures then failures[h] else 0
  }

  /* ----- the limits, as facts about the audit ----- */

  ghost predicate CountersOk(audit: seq<Row>, bytes: int, growth: int) {
    && |audit| <= REQUEST_CAP
    && bytes == TotalBytes(audit) <= BYTE_CAP + growth
    && 0 <= growth
    && forall row | row in audit :: 0 <= row.bytes <= Limit(row.pdf) + growth && row.status != Unknown
  }

  // blockedAt: the length of the audit when a host was blocked.
  ghost predicate HostsOk(audit: seq<Row>, failures: map<Host, nat>, blocked: set<Host>, blockedAt: map<Host, nat>) {
    && (forall h :: Count(failures, h) == AccessFailures(audit, h) <= ACCESS_FAILURE_LIMIT)
    && (forall h | AccessFailures(audit, h) == ACCESS_FAILURE_LIMIT :: h in blocked)
    && blocked == blockedAt.Keys
    && (forall h | h in blocked :: blockedAt[h] <= |audit| && NotAfter(audit, h, blockedAt[h]))
  }

  ghost predicate NotAfter(audit: seq<Row>, h: Host, n: nat) {
    forall i | n <= i < |audit| :: audit[i].host != h
  }

  ghost predicate SpacedOk(stamps: seq<real>, last: real) {
    && (forall i | 0 < i < |stamps| :: stamps[i] >= stamps[i - 1] + SPACING)
    && (|stamps| > 0 ==> last == stamps[|stamps| - 1])
  }

  lemma CountersStep(audit: seq<Row>, bytes: int, growth: int, row: Row, grown: int)
    requires CountersOk(audit, bytes, growth) && |audit| < REQUEST_CAP && grown >= growth && row.status != Unknown
    requires 0 <= row.bytes <= Limit(row.pdf) + grown && bytes + row.bytes <= BYTE_CAP + grown
    ensures CountersOk(audit + [row], bytes + row.bytes, grown)
  {
    AuditAppend(audit, row);
  }

  function WithFailure(failures: map<Host, nat>, row: Row): map<Host, nat> {
    if CountsFor(row, row.host) then failures[row.host := Count(failures, row.host) + 1] else failures
  }

  lemma WithFailureIs(failures: map<Host, nat>, row: Row)
    ensures forall h :: Count(WithFailure(failures, row), h) == Count(failures, h)
              + (if h == row.host && CountedStatus(row.status) then 1 else 0)
  {
    if row.status.Failed? {
      AccessFailureIs(row.status.why);
    }
  }

  predicate Blocks(failures: map<Host, nat>, row: Row) {
    row.status == Failed(AccessControlStop) || Count(WithFailure(failures, row), row.host) >= ACCESS_FAILURE_LIMIT
  }

  lemma HostsStep(audit: seq<Row>, failures: map<Host, nat>, blocked: set<Host>, blockedAt: map<Host, nat>, row: Row)
    requires HostsOk(audit, failures, blocked, blockedAt) && row.host !in blocked
    ensures var hit := Blocks(failures, row);
            HostsOk(audit + [row], WithFailure(failures, row), if hit then blocked + {row.host} else blocked,
                    if hit then blockedAt[row.host := |audit| + 1] else blockedAt)
    ensures Count(failures, row.host) < ACCESS_FAILURE_LIMIT
  {
    hide AccessFailure, AccessFailures;
    AuditAppend(audit, row);
    assert Count(failures, row.host) == AccessFailures(audit, row.host) < ACCESS_FAILURE_LIMIT;
    forall h | h in blocked ensures NotAfter(audit + [row], h, blockedAt[h]) {}
  }

  lemma SpacedStep(stamps: seq<real>, last: real, next: real)
    requires SpacedOk(stamps, last) && next >= last + SPACING
    ensures SpacedOk(stamps + [next], next)
  {
  }

  class Reader {
    var requests: nat
    var bytes: int
    var last: real
    var audit: seq<Row>
    var blocked: set<Host>
    var accessFailures: map<Host, nat>

    ghost var stamps: seq<real>            // dispatch times
    ghost var blockedAt: map<Host, nat>    // length of the audit when a host was blocked
    ghost var growth: int                  // largest single growth met so far

    ghost predicate Valid()
      reads this
    {
      && requests == |audit| && CountersOk(audit, bytes, growth)
      && HostsOk(audit, accessFailures, blocked, blockedAt)
      && |stamps| == |audit| && SpacedOk(stamps, last)
    }

    constructor ()
      ensures Valid() && audit == [] && blocked == {} && last == 0.0 && growth == 0
    {
      requests, bytes, last, audit, blocked, accessFailures := 0, 0, 0.0, [], {}, map[];
      stamps, blockedAt, growth := [], map[], 0;
    }

    function Refuse(url: Url, allowed: set<Host>, pdf: bool, elapsed: real): Option<Refusal>
      reads this
    {
      if !url.https || url.host !in allowed || url.userinfo || url.fragment || url.length > 4096 then Some(UnadmittedSource)
      else if (if pdf then !url.path.PdfDocument? && !url.path.Converter? else !url.path.Page?) then Some(UnadmittedPath)
      else if url.host in blocked then Some(HostStopped)
      else if requests >= REQUEST_CAP || bytes >= BYTE_CAP || elapsed >= DEADLINE then Some(AssessmentCap)
      else None
    }

    // What is dispatched, and the first reason it is not.
    lemma RefuseIs(url: Url, allowed: set<Host>, pdf: bool, elapsed: real)
      ensures var r := Refuse(url, allowed, pdf, elapsed);
              var source := url.https && url.host in allowed && !url.userinfo && !url.fragment && url.length <= 4096;
              var path := if pdf then url.path == PdfDocument || url.path == Converter else url.path == Page;
              var room := requests < 250 && bytes < 134217728 && elapsed < 600.0;
              && (r == None <==> source && path && url.host !in blocked && room)
              && (r == Some(UnadmittedSource) <==> !source)
              && (r == Some(UnadmittedPath) <==> source && !path)
              && (r == Some(HostStopped) <==> source && path && url.host in blocked)
              && (r == Some(AssessmentCap) <==> source && path && url.host !in blocked && !room)
    {
    }

    /** One call. Valid() is kept by every call, so over any sequence of calls: at most 250
        requests, each audited; the bytes are those of the audit and pass the cap by one
        growth at most; dispatches are half a second apart; a host is dispatched to no
        more once blocked, and at most three access failures are audited against it. */
    method Get(url: Url, allowed: set<Host>, pdf: bool, now: real, elapsed: real, oversleep: real, reply: Reply)
      returns (result: Result)
      requires Valid() && oversleep >= 0.0
      modifies this
      ensures Valid()
      ensures result.Refused? <==> old(Refuse(url, allowed, pdf, elapsed)).Some?
      ensures result.Dispatched? <==>
                && url.https && url.host in allowed && !url.userinfo && !url.fragment && url.length <= 4096
                && (if pdf then url.path == PdfDocument || url.path == Converter else url.path == Page)
                && url.host !in old(blocked) && old(requests) < 250 && old(bytes) < 134217728 && elapsed < 600.0
      ensures result.Refused? ==>
                && Some(result.r) == old(Refuse(url, allowed, pdf, elapsed))
                && unchanged(this)
      ensures result.Dispatched? ==>
                var j := Judge(reply, pdf, old(bytes));
                && result.failure == j.failure
                && audit == old(audit) + [Row(url.host, pdf, if j.failure.Some? then Failed(j.failure.value) else Read, j.bytes)]
                && blocked == old(blocked) + (if j.failure == Some(AccessControlStop) || Count(accessFailures, url.host) >= 3
                                              then {url.host} else {})
                && last == (if now < old(last) + 0.5 then old(last) + 0.5 else now) + oversleep
                && requests == old(requests) + 1 && bytes == old(bytes) + j.bytes
                && (forall h :: Count(accessFailures, h) == old(Count(accessFailures, h))
                      + (if h == url.host && j.failure.Some? && CountedStatus(Failed(j.failure.value)) then 1 else 0))
                && growth == Max(old(growth), Growth(reply))
    {
      hide Refuse;
      RefuseIs(url, allowed, pdf, elapsed);
      var refusal := Refuse(url, allowed, pdf, elapsed);
      if refusal.Some? {
        return Refused(refusal.value);
      }
      hide CountedStatus, Count, CountersOk, HostsOk, SpacedOk, Judge, NotAfter, AccessFailure;
      ghost var before := bytes;
      ghost var was := last;
      Space(now, oversleep);
      SpacedStep(stamps, was, last);
      requests := requests + 1;
      var rowBytes, failure := ReadReply(reply, pdf);
      JudgedWithin(reply, pdf, before);
      var row := Row(url.host, pdf, if failure.Some? then Failed(failure.value) else Read, rowBytes);
      RecordOutcome(row, failure, Max(growth, Growth(reply)));
      result := Dispatched(failure);
    }

    // time.sleep to half a second after the last dispatch; it may sleep longer.
    method Space(now: real, oversleep: real)
      requires oversleep >= 0.0
      modifies this`last
      ensures last == (if now < old(last) + 0.5 then old(last) + 0.5 else now) + oversleep
      ensures last >= old(last) + SPACING && last >= now
    {
      var wait := SPACING - (now - last);
      last := now + (if wait > 0.0 then wait else 0.0) + oversleep;
    }

    // The audit row and the per-host bookkeeping of the exception handler.
    method RecordOutcome(row: Row, failure: Option<Failure>, ghost grown: int)
      requires requests == |audit| + 1 <= REQUEST_CAP && |stamps| == |audit|
      requires CountersOk(audit, bytes - row.bytes, growth) && HostsOk(audit, accessFailures, blocked, blockedAt)
      requires SpacedOk(stamps + [last], last) && row.host !in blocked && grown >= growth
      requires row.status == if failure.Some? then Failed(failure.value) else Read
      requires 0 <= row.bytes <= Limit(row.pdf) + grown && bytes <= BYTE_CAP + grown
      modifies this`audit, this`blocked, this`accessFailures, this`stamps, this`blockedAt, this`growth
      ensures Valid() && audit == old(audit) + [row] && growth == grown
      ensures blocked == old(blocked) + (if failure == Some(AccessControlStop) || Count(accessFailures, row.host) >= 3
                                         then {row.host} else {})
      ensures forall h :: Count(accessFailures, h) == old(Count(accessFailures, h))
                + (if h == row.host && CountedStatus(row.status) then 1 else 0)
    {

      hide CountersOk, HostsOk, SpacedOk, NotAfter, AccessFailure;
      CountersStep(audit, bytes - row.bytes, growth, row, grown);
      HostsStep(audit, accessFailures, blocked, blockedAt, row);
      ghost var was := accessFailures;
      audit := audit + [row];
      stamps := stamps + [last];
      growth := grown;
      if failure == Some(AccessControlStop) {
        blocked := blocked + {row.host};
      }
      if failure.Some? && AccessFailure(failure.value) {
        accessFailures := accessFailures[row.host := Count(accessFailures, row.host) + 1];
        if accessFailures[row.host] >= ACCESS_FAILURE_LIMIT {
          blocked := blocked + {row.host};
        }
      }
      assert accessFailures == WithFailure(was, row);
      WithFailureIs(was, row);
      assert blocked == old(blocked) + if Blocks(was, row) then {row.host} else {};
      if Blocks(was, row) {
        blockedAt := blockedAt[row.host := |audit|];
      }
    }

    // The body of the request: bytes are charged chunk by chunk, as they arrive.
    method ReadReply(reply: Reply, pdf: bool) returns (rowBytes: int, failure: Option<Failure>)
      modifies this`bytes
      ensures Judgement(rowBytes, failure) == Judge(reply, pdf, old(bytes))
      ensures bytes == old(bytes) + rowBytes
    {
      rowBytes := 0;
      match reply
      case Unreachable(fault) =>
        failure := Some(Transport(fault));
      case NotOk(Broken(fault)) =>
        failure := Some(Transport(fault));
      case NotOk(Prefix(size, challenged)) =>
        bytes, rowBytes := bytes + size, size;
        failure := Some(if challenged then AccessControlStop else HttpStatus);
      case Answer(attachment, chunks, broken, body) =>
        if attachment && !pdf {
          return 0, Some(UnexpectedAttachment);
        }
        var length: nat := 0;
        for k := 0 to |chunks|
          invariant length == Size(chunks, k) && rowBytes == BytesAfter(chunks, k)
          invariant bytes == old(bytes) + rowBytes
          invariant Consumed(chunks, pdf, old(bytes), 0) == Consumed(chunks, pdf, old(bytes), k)
          invariant !Capped(chunks, pdf, old(bytes), k)
        {
          length := length + chunks[k].size;
          var measured := Max(length, if chunks[k].tell.Some? then chunks[k].tell.value else 0);
          bytes := bytes + (measured - rowBytes);
          rowBytes := measured;
          if measured > Limit(pdf) || bytes > BYTE_CAP || chunks[k].elapsed >= DEADLINE {
            return rowBytes, Some(ResponseCap);
          }
        }
        failure := if broken.Some? then Some(Transport(broken.value)) else JudgeBody(pdf, body);
    }
  }
}
