/** Recovery of the extraction queue.

    A row moves between `pending`, `processing`, `error` and its final states. Instants
    are seconds. Claims, outcomes and intake come from code outside this model and are
    events; everything else follows the jobs that repair the queue. */
module ExtractionQueue {
  import opened Wrappers

  datatype Status = Pending | Processing | Processed | Skipped | Error

  /** How `last_error` starts: `timeout:`, `tombstoned:`, or anything else. */
  datatype Failure = Timeout | Tombstoned | Other

  /** `drifted`: extracted by another schema or model version than the current one. */
  datatype Row = Row(status: Status, attempts: nat, lastError: Option<Failure>,
                     started: Option<int>, finished: Option<int>, revisitOf: Option<int>, drifted: bool)
  type Table = map<int, Row>

  const STALE_TIMEOUT_MINUTES: int := 150
  const STALE_TOMBSTONE_ATTEMPTS: nat := 3
  const MAX_SILENT_ATTEMPTS: nat := 10
  const RETRY_BASE_MINUTES: int := 60
  const RETRY_MAX_MINUTES: int := 24 * 60
  const MAX_TIMEOUT_ATTEMPTS: nat := 5

  function RetryDelay(attempts: nat): int {
    var exponent := if attempts == 0 then 0 else attempts - 1;
    var delay := RETRY_BASE_MINUTES * Pow2(exponent);
    if delay <= RETRY_MAX_MINUTES then delay else RETRY_MAX_MINUTES
  }

  function StaleMinutes(maxItemSeconds: int): int {
    var budget := maxItemSeconds / 60 + 30;
    if STALE_TIMEOUT_MINUTES >= budget then STALE_TIMEOUT_MINUTES else budget
  }

  // --------------------------------------------------------------- the retry job

  datatype Plan = Leave | Buried | Wait | Requeue | BuryTimeout | BuryStale | ResetStale | BurySilent

  function PlanFor(row: Row, now: int, stale: int): Plan {
    match row.status
    case Error =>
      if row.lastError == Some(Tombstoned) then Buried
      else if row.lastError != Some(Timeout) then Requeue
      else if row.attempts >= MAX_TIMEOUT_ATTEMPTS then BuryTimeout
      else if row.finished.Some? && (now - row.finished.value) / 60 < RetryDelay(row.attempts) then Wait
      else Requeue
    case Processing =>
      if row.started.None? || row.started.value >= now - 60 * stale then Leave
      else if row.attempts >= STALE_TOMBSTONE_ATTEMPTS then BuryStale
      else ResetStale
    case Pending => if row.lastError == None && row.attempts >= MAX_SILENT_ATTEMPTS then BurySilent else Leave
    case _ => Leave
  }

  function Requeued(row: Row): Row {
    row.(status := Pending, lastError := None, started := None, finished := None)
  }

  function Bury(row: Row, now: int): Row {
    row.(status := Error, lastError := Some(Tombstoned), finished := Some(now))
  }

  function Apply(plan: Plan, row: Row, now: int): Row {
    match plan
    case Requeue => Requeued(row)
    case ResetStale => Requeued(row)
    case BuryTimeout => Bury(row, now)
    case BuryStale => Bury(row, now)
    case BurySilent => Bury(row, now)
    case _ => row
  }

  function Retried(row: Row, now: int, stale: int): Row {
    Apply(PlanFor(row, now, stale), row, now)
  }

  predicate Distinct(ids: seq<int>) {
    forall i, j :: 0 <= i < j < |ids| ==> ids[i] != ids[j]
  }

  /** The ids, in query order, that a plan falls on. */
  function Planned(rows: Table, order: seq<int>, now: int, stale: int, plan: Plan): (r: seq<int>)
    ensures forall id :: id in r <==> id in order && id in rows && PlanFor(rows[id], now, stale) == plan
    ensures Distinct(order) ==> Distinct(r)
  {
    if order == [] then []
    else
      var last := order[|order| - 1];
      assert order == order[..|order| - 1] + [last];
      Planned(rows, order[..|order| - 1], now, stale, plan)
        + (if last in rows && PlanFor(rows[last], now, stale) == plan then [last] else [])
  }

  datatype Stats = Stats(retried: nat, skippedTombstoned: nat, waiting: nat, timeoutTombstoned: nat,
                         staleReset: nat, staleTombstoned: nat, silentTombstoned: nat)

  function StatsFor(rows: Table, order: seq<int>, now: int, stale: int): Stats {
    Stats(|Planned(rows, order, now, stale, Requeue)|, |Planned(rows, order, now, stale, Buried)|,
          |Planned(rows, order, now, stale, Wait)|, |Planned(rows, order, now, stale, BuryTimeout)|,
          |Planned(rows, order, now, stale, ResetStale)|, |Planned(rows, order, now, stale, BuryStale)|,
          |Planned(rows, order, now, stale, BurySilent)|)
  }

  function AllRetried(rows: Table, now: int, stale: int): Table {
    map id | id in rows :: Retried(rows[id], now, stale)
  }

  /** `u` is `t` with a plan carried out on some rows. */
  ghost predicate IsWritten(t: Table, u: Table, ids: seq<int>, plan: Plan, now: int) {
    u.Keys == t.Keys && forall id :: id in t ==> u[id] == if id in ids then Apply(plan, t[id], now) else t[id]
  }

  lemma WrittenAt(rows: Table, order: seq<int>, now: int, stale: int, plan: Plan, t: Table, u: Table, id: int)
    requires id in order && id in rows && id in t
    requires IsWritten(t, u, Planned(rows, order, now, stale, plan), plan, now)
    ensures id in u && u[id] == if PlanFor(rows[id], now, stale) == plan then Apply(plan, t[id], now) else t[id]
  {
  }

  /** The five plans fall on different rows, so carrying them out one after the other
      retries every row once. */
  lemma FiveRewrites(rows: Table, order: seq<int>, now: int, stale: int, a: Table, b: Table, c: Table, d: Table,
                     e: Table)
    requires forall id :: id in order <==> id in rows
    requires IsWritten(rows, a, Planned(rows, order, now, stale, Requeue), Requeue, now)
    requires IsWritten(a, b, Planned(rows, order, now, stale, BuryTimeout), BuryTimeout, now)
    requires IsWritten(b, c, Planned(rows, order, now, stale, BuryStale), BuryStale, now)
    requires IsWritten(c, d, Planned(rows, order, now, stale, ResetStale), ResetStale, now)
    requires IsWritten(d, e, Planned(rows, order, now, stale, BurySilent), BurySilent, now)
    ensures e == AllRetried(rows, now, stale)
  {
    forall id | id in rows
      ensures e[id] == Retried(rows[id], now, stale)
    {
      WrittenAt(rows, order, now, stale, Requeue, rows, a, id);
      WrittenAt(rows, order, now, stale, BuryTimeout, a, b, id);
      WrittenAt(rows, order, now, stale, BuryStale, b, c, id);
      WrittenAt(rows, order, now, stale, ResetStale, c, d, id);
      WrittenAt(rows, order, now, stale, BurySilent, d, e, id);
    }
  }

  class Queue {
    var rows: Table

    constructor (rows: Table)
      ensures this.rows == rows
    {
      this.rows := rows;
    }

    /** Every row is judged on the state before the job wrote anything. A live run rewrites
        exactly the rows its plan names; a dry run writes nothing and reports the same
        figures. `order` lists the rows as the queries return them. */
    method RetryFailed(order: seq<int>, now: int, maxItemSeconds: int, dryRun: bool) returns (stats: Stats)
      requires Distinct(order) && forall id :: id in order <==> id in rows
      modifies this
      ensures rows == if dryRun then old(rows) else AllRetried(old(rows), now, StaleMinutes(maxItemSeconds))
      ensures stats == StatsFor(old(rows), order, now, StaleMinutes(maxItemSeconds))
    {
      var stale := StaleMinutes(maxItemSeconds);
      assert forall i :: 0 <= i < |order| ==> order[i] in order;
      var retry, buryTimeout, waiting := SelectErrors(rows, order, now, stale);
      var resetStale := Planned(rows, order, now, stale, ResetStale);
      var buryStale := Planned(rows, order, now, stale, BuryStale);
      var burySilent := Planned(rows, order, now, stale, BurySilent);
      stats := Stats(|retry|, |Planned(rows, order, now, stale, Buried)|, waiting, |buryTimeout|,
                     |resetStale|, |buryStale|, |burySilent|);
      if !dryRun {
        RewriteAll(order, now, stale, retry, buryTimeout, resetStale, buryStale, burySilent);
      }
    }

    method RewriteAll(ghost order: seq<int>, now: int, ghost stale: int, retry: seq<int>, buryTimeout: seq<int>,
                      resetStale: seq<int>, buryStale: seq<int>, burySilent: seq<int>)
      requires Distinct(order) && forall id :: id in order <==> id in rows
      requires retry == Planned(rows, order, now, stale, Requeue)
      requires buryTimeout == Planned(rows, order, now, stale, BuryTimeout)
      requires resetStale == Planned(rows, order, now, stale, ResetStale)
      requires buryStale == Planned(rows, order, now, stale, BuryStale)
      requires burySilent == Planned(rows, order, now, stale, BurySilent)
      modifies this
      ensures rows == AllRetried(old(rows), now, stale)
    {
      ghost var before := rows;
      Rewrite(retry, Requeue, now);
      ghost var a := rows;
      Rewrite(buryTimeout, BuryTimeout, now);
      ghost var b := rows;
      Rewrite(buryStale, BuryStale, now);
      ghost var c := rows;
      Rewrite(resetStale, ResetStale, now);
      ghost var d := rows;
      Rewrite(burySilent, BurySilent, now);
      FiveRewrites(before, order, now, stale, a, b, c, d, rows);
    }

    method Rewrite(ids: seq<int>, plan: Plan, now: int)
      requires Distinct(ids) && forall id :: id in ids ==> id in rows
      modifies this
      ensures IsWritten(old(rows), rows, ids, plan, now)
    {
      for i := 0 to |ids|
        invariant IsWritten(old(rows), rows, ids[..i], plan, now)
      {
        var id := ids[i];
        rows := rows[id := Apply(plan, rows[id], now)];
        assert ids[..i + 1] == ids[..i] + [id];
      }
      assert ids[..|ids|] == ids;
    }
  }

  lemma PlannedStep(rows: Table, order: seq<int>, now: int, stale: int, i: nat)
    requires i < |order| && order[i] in rows
    ensures forall plan :: Planned(rows, order[..i + 1], now, stale, plan) ==
              Planned(rows, order[..i], now, stale, plan)
              + (if PlanFor(rows[order[i]], now, stale) == plan then [order[i]] else [])
  {
    assert order[..i + 1][..i] == order[..i];
  }

  /** The pass over the failed rows: retry, bury, or keep waiting. */
  method SelectErrors(rows: Table, order: seq<int>, now: int, stale: int)
      returns (retry: seq<int>, bury: seq<int>, waiting: nat)
    requires forall i :: 0 <= i < |order| ==> order[i] in rows
    ensures retry == Planned(rows, order, now, stale, Requeue)
    ensures bury == Planned(rows, order, now, stale, BuryTimeout)
    ensures waiting == |Planned(rows, order, now, stale, Wait)|
  {
    retry, bury, waiting := [], [], 0;
    for i := 0 to |order|
      invariant retry == Planned(rows, order[..i], now, stale, Requeue)
      invariant bury == Planned(rows, order[..i], now, stale, BuryTimeout)
      invariant waiting == |Planned(rows, order[..i], now, stale, Wait)|
    {
      PlannedStep(rows, order, now, stale, i);
      match PlanFor(rows[order[i]], now, stale) {
        case Requeue => retry := retry + [order[i]];
        case BuryTimeout => bury := bury + [order[i]];
        case Wait => waiting := waiting + 1;
        case _ =>
      }
    }
    assert order[..|order|] == order;
  }

  // ------------------------------------------------------------------- all events

  /** `Retry`, `Startup`, `Shutdown`, `Reap` and `Revisit` happen by themselves; `Claim` is
      the dispatcher; `Fail` and `Finish` are the reports of extraction workers; `RetryOne`,
      `RetryAll` are the operator's command; `Intake` is the same source being queued again.
      Only a claim looks at the row first: a report is written whatever the row has become
      since the worker started. */
  datatype Event = Retry(now: int, stale: int)
                 | Startup
                 | Shutdown(now: int)
                 | Reap(now: int, maxSeconds: int)
                 | Revisit(source: int, newId: int, cutoff: int)
                 | Claim(id: int, now: int)
                 | Fail(id: int, now: int, failure: Failure)
                 | Finish(id: int, now: int, skipped: bool, drifted: bool)
                 | RetryOne(id: int)
                 | RetryAll(includeTombstoned: bool)
                 | Intake(id: int, changed: bool)

  predicate Manual(e: Event) {
    e.RetryOne? || e.RetryAll? || e.Intake?
  }

  /** What an event does to row `id`. An event that does not apply leaves it alone. */
  function RowNext(row: Row, id: int, e: Event): Row {
    match e
    case Retry(now, stale) => Retried(row, now, stale)
    case Startup =>
      if row.status == Processing then row.(status := Pending, finished := None, lastError := None) else row
    case Shutdown(now) =>
      if row.status == Processing then row.(status := Error, finished := Some(now), lastError := Some(Other)) else row
    case Reap(now, maxSeconds) =>
      if row.status == Processing && (row.started.None? || row.started.value <= now - maxSeconds)
      then row.(status := Pending, started := None) else row
    case Revisit(_, _, _) => row
    case Claim(i, now) =>
      if i == id && row.status == Pending
      then row.(status := Processing, attempts := row.attempts + 1, started := Some(now), finished := None,
                lastError := None)
      else row
    case Fail(i, now, failure) =>
      if i == id then row.(status := Error, finished := Some(now), lastError := Some(failure)) else row
    case Finish(i, now, skipped, drifted) =>
      if i == id
      then row.(status := if skipped then Skipped else Processed, finished := Some(now), lastError := None,
                drifted := drifted)
      else row
    case RetryOne(i) => if i == id && row.status == Error then Requeued(row) else row
    case RetryAll(includeTombstoned) =>
      if row.status == Error && (includeTombstoned || row.lastError != Some(Tombstoned)) then Requeued(row) else row
    case Intake(i, changed) =>
      if i != id then row
      else if row.status == Processing || (row.status == Processed && !changed) then row.(lastError := None)
      else row.(status := Pending, lastError := None)
  }

  predicate Live(row: Row) {
    row.status in {Pending, Processing, Processed}
  }

  /** A processed original that has drifted, is old enough and has no live revisit. */
  ghost predicate Revisitable(t: Table, source: int, cutoff: int) {
    && source in t && t[source].status == Processed && t[source].revisitOf == None && t[source].drifted
    && t[source].finished.Some? && t[source].finished.value < cutoff
    && !exists id :: id in t && t[id].revisitOf == Some(source) && Live(t[id])
  }

  const FRESH_ROW: Row := Row(Pending, 0, None, None, None, None, false)

  ghost function Next(t: Table, e: Event): Table {
    var rows := map id | id in t :: RowNext(t[id], id, e);
    if e.Revisit? && e.newId !in t && Revisitable(t, e.source, e.cutoff)
    then rows[e.newId := FRESH_ROW.(revisitOf := Some(e.source))]
    else rows
  }

  ghost function Run(t: Table, events: seq<Event>): Table
    decreases events
  {
    if events == [] then t else Run(Next(t, events[0]), events[1..])
  }

  /** Every row evolves on its own: a table run is a row run for each of its rows. */
  function RowRun(row: Row, id: int, events: seq<Event>): Row
    decreases events
  {
    if events == [] then row else RowRun(RowNext(row, id, events[0]), id, events[1..])
  }

  lemma {:induction false} RunIsRowwise(t: Table, events: seq<Event>, id: int)
    requires id in t
    ensures id in Run(t, events) && Run(t, events)[id] == RowRun(t[id], id, events)
    decreases events
  {
    if events != [] {
      RunIsRowwise(Next(t, events[0]), events[1..], id);
    }
  }

  // -------------------------------------------------------------- tombstones stay

  predicate IsTombstoned(row: Row) {
    row.status == Error && row.lastError == Some(Tombstoned)
  }

  predicate IsReport(e: Event, id: int) {
    (e.Fail? || e.Finish?) && e.id == id
  }

  /** A report that does not itself bury the row. */
  predicate Unburies(e: Event, id: int) {
    IsReport(e, id) && !(e.Fail? && e.failure == Tombstoned)
  }

  /** Without an operator, a new intake or a late report a tombstoned row never changes. */
  lemma {:induction false} TombstonesStay(t: Table, events: seq<Event>, id: int)
    requires id in t && IsTombstoned(t[id])
    requires forall i :: 0 <= i < |events| ==> !Manual(events[i]) && !IsReport(events[i], id)
    ensures id in Run(t, events) && Run(t, events)[id] == t[id]
    decreases events
  {
    if events != [] {
      TombstonesStay(Next(t, events[0]), events[1..], id);
    }
  }

  /** The row is tombstoned at every point of the run. */
  predicate StaysTombstoned(row: Row, id: int, events: seq<Event>)
    decreases events
  {
    IsTombstoned(row) && (events == [] || StaysTombstoned(RowNext(row, id, events[0]), id, events[1..]))
  }

  /** Without an operator or a new intake, a tombstoned row stays tombstoned if and only if
      no report arrives that would have ended it otherwise. */
  lemma {:induction false} TombstoneStaysExactlyWhen(row: Row, id: int, events: seq<Event>)
    requires IsTombstoned(row) && forall i :: 0 <= i < |events| ==> !Manual(events[i])
    ensures StaysTombstoned(row, id, events) <==> forall i :: 0 <= i < |events| ==> !Unburies(events[i], id)
    decreases events
  {
    if events != [] {
      var after := RowNext(row, id, events[0]);
      assert IsTombstoned(after) <==> !Unburies(events[0], id);
      if IsTombstoned(after) {
        TombstoneStaysExactlyWhen(after, id, events[1..]);
        assert events == [events[0]] + events[1..];
      }
    }
  }

  /** Two workers of one row: the first outlives a restart of the daemon, and the second
      fails for good. */
  function Outlived(id: int): seq<Event> {
    [Claim(id, 0), Startup] + [Claim(id, 60), Fail(id, 120, Tombstoned)]
  }

  const OUTLIVED_ROW: Row := Row(Error, 2, Some(Tombstoned), Some(60), Some(120), None, false)

  lemma RunOutlived(id: int)
    ensures RowRun(FRESH_ROW, id, Outlived(id)) == OUTLIVED_ROW && IsTombstoned(OUTLIVED_ROW)
  {
    var requeued := Row(Pending, 1, None, Some(0), None, None, false);
    RowRunTwo(FRESH_ROW, id, Claim(id, 0), Startup);
    RowRunTwo(requeued, id, Claim(id, 60), Fail(id, 120, Tombstoned));
    RowRunConcat(FRESH_ROW, id, [Claim(id, 0), Startup], [Claim(id, 60), Fail(id, 120, Tombstoned)]);
  }

  /** When then the first worker reports, the tombstone is gone: the row counts as processed,
      or it is an ordinary failure that the next retry job requeues. */
  lemma LateReportRevives(id: int)
    ensures IsTombstoned(RowRun(FRESH_ROW, id, Outlived(id)))
    ensures RowRun(FRESH_ROW, id, Outlived(id) + [Finish(id, 180, false, false)]).status == Processed
    ensures RowRun(FRESH_ROW, id, Outlived(id) + [Fail(id, 180, Other), Retry(240, 150)]).status == Pending
  {
    RunOutlived(id);
    RowRunConcat(FRESH_ROW, id, Outlived(id), [Finish(id, 180, false, false)]);
    RowRunOne(OUTLIVED_ROW, id, Finish(id, 180, false, false));
    RowRunConcat(FRESH_ROW, id, Outlived(id), [Fail(id, 180, Other), Retry(240, 150)]);
    RowRunTwo(OUTLIVED_ROW, id, Fail(id, 180, Other), Retry(240, 150));
  }

  lemma RowRunOne(row: Row, id: int, e: Event)
    ensures RowRun(row, id, [e]) == RowNext(row, id, e)
  {
    assert [e][1..] == [];
  }

  lemma RowRunTwo(row: Row, id: int, e: Event, f: Event)
    ensures RowRun(row, id, [e, f]) == RowNext(RowNext(row, id, e), id, f)
  {
    assert [e, f][1..] == [f];
    RowRunOne(RowNext(row, id, e), id, f);
  }

  lemma {:induction false} RowRunConcat(row: Row, id: int, a: seq<Event>, b: seq<Event>)
    ensures RowRun(row, id, a + b) == RowRun(RowRun(row, id, a), id, b)
    decreases a
  {
    if a == [] {
      assert a + b == b;
    } else {
      RowRunConcat(RowNext(row, id, a[0]), id, a[1..], b);
      assert (a + b)[1..] == a[1..] + b;
    }
  }

  // ------------------------------------------------------------ the timeout backoff

  /** The retry job gives a timed-out row another try. */
  predicate TimeoutRequeue(row: Row, e: Event) {
    e.Retry? && TimedOut(row) && PlanFor(row, e.now, e.stale) == Requeue
  }

  datatype Try = Try(attempts: nat, waited: int)

  /** The retries a row got after timeouts, with the minutes since each failure. */
  function TimeoutTries(row: Row, id: int, events: seq<Event>): seq<Try>
    decreases events
  {
    if events == [] then []
    else
      var rest := TimeoutTries(RowNext(row, id, events[0]), id, events[1..]);
      if TimeoutRequeue(row, events[0])
      then [Try(row.attempts, if row.finished.Some? then (events[0].now - row.finished.value) / 60 else 0)] + rest
      else rest
  }

  /** A row in flight has been claimed, and a failure by timeout records when it happened. */
  predicate RowInv(row: Row) {
    && (row.status == Processing ==> 1 <= row.attempts)
    && (TimedOut(row) ==> row.finished.Some?)
  }

  predicate TimedOut(row: Row) {
    row.status == Error && row.lastError == Some(Timeout)
  }

  /** The tries come at attempt counts from `low` to below the cap, each after its full
      delay; never at a smaller count than the one before, and never at the same one when
      they are `strict`. */
  predicate BackedOff(tries: seq<Try>, low: nat, strict: bool) {
    tries == []
    || (low <= tries[0].attempts < MAX_TIMEOUT_ATTEMPTS && RetryDelay(tries[0].attempts) <= tries[0].waited
        && BackedOff(tries[1..], if strict then tries[0].attempts + 1 else tries[0].attempts, strict))
  }

  lemma {:induction false} BackedOffFrom(tries: seq<Try>, low: nat, lower: nat, strict: bool)
    requires BackedOff(tries, low, strict) && lower <= low
    ensures BackedOff(tries, lower, strict)
    ensures strict && low <= MAX_TIMEOUT_ATTEMPTS ==> |tries| <= MAX_TIMEOUT_ATTEMPTS - low
    ensures MAX_TIMEOUT_ATTEMPTS <= low ==> tries == []
  {
    if tries != [] {
      var next := if strict then tries[0].attempts + 1 else tries[0].attempts;
      BackedOffFrom(tries[1..], next, next, strict);
    }
  }

  lemma RowStep(row: Row, id: int, e: Event)
    requires RowInv(row)
    ensures RowInv(RowNext(row, id, e)) && row.attempts <= RowNext(row, id, e).attempts
  {
  }

  /** Whatever happens to a row, late reports, operators and intake included, its timeout
      retries back off: none comes early, none at a smaller attempt count than the last,
      and none from the cap on. */
  lemma {:induction false} TimeoutTriesBackOff(row: Row, id: int, events: seq<Event>)
    requires RowInv(row)
    ensures BackedOff(TimeoutTries(row, id, events), row.attempts, false)
    decreases events
  {
    if events != [] {
      var e, after := events[0], RowNext(row, id, events[0]);
      RowStep(row, id, e);
      TimeoutTriesBackOff(after, id, events[1..]);
      var rest := TimeoutTries(after, id, events[1..]);
      BackedOffFrom(rest, after.attempts, row.attempts, false);
      if TimeoutRequeue(row, e) {
        assert TimeoutTries(row, id, events)[1..] == rest;
      }
    }
  }

  // ------------------------------------------------------------- how many timeout retries

  predicate Claims(row: Row, id: int, e: Event) {
    e.Claim? && e.id == id && row.status == Pending
  }

  function Credit(row: Row, id: int, e: Event, credit: nat, perClaim: nat): nat {
    if Claims(row, id, e) then credit + perClaim
    else if IsReport(e, id) && credit > 0 then credit - 1
    else credit
  }

  /** Every claim of the row starts a worker that reports at most `perClaim` times, early or
      late; `credit` counts the reports still owed. */
  predicate ReportsAreOwed(row: Row, id: int, events: seq<Event>, credit: nat, perClaim: nat)
    decreases events
  {
    events == []
    || ((IsReport(events[0], id) ==> credit > 0)
        && ReportsAreOwed(RowNext(row, id, events[0]), id, events[1..], Credit(row, id, events[0], credit, perClaim),
                          perClaim))
  }

  ghost predicate NoneManual(events: seq<Event>) {
    forall i :: 0 <= i < |events| ==> !Manual(events[i])
  }

  /** Nothing that can follow by itself ends the tombstone, when `credit` reports are owed. */
  ghost predicate TombstonedFor(row: Row, id: int, credit: nat, perClaim: nat) {
    forall events :: NoneManual(events) && ReportsAreOwed(row, id, events, credit, perClaim) ==>
      StaysTombstoned(row, id, events)
  }

  lemma {:induction false} NothingOwedStays(row: Row, id: int, events: seq<Event>, perClaim: nat)
    requires IsTombstoned(row) && NoneManual(events) && ReportsAreOwed(row, id, events, 0, perClaim)
    ensures StaysTombstoned(row, id, events)
    decreases events
  {
    if events != [] {
      assert !Manual(events[0]) && !IsReport(events[0], id);
      assert RowNext(row, id, events[0]) == row && Credit(row, id, events[0], 0, perClaim) == 0;
      assert forall i :: 0 <= i < |events| - 1 ==> events[1..][i] == events[i + 1];
      NothingOwedStays(row, id, events[1..], perClaim);
    }
  }

  /** A tombstoned row is never claimed, so without an operator or a new intake it stays
      tombstoned for good if and only if none of its workers still owes a report. */
  lemma TombstonedForExactlyWhen(row: Row, id: int, credit: nat, perClaim: nat)
    requires IsTombstoned(row)
    ensures TombstonedFor(row, id, credit, perClaim) <==> credit == 0
  {
    if credit == 0 {
      forall events | NoneManual(events) && ReportsAreOwed(row, id, events, 0, perClaim)
        ensures StaysTombstoned(row, id, events)
      {
        NothingOwedStays(row, id, events, perClaim);
      }
    } else {
      OwedReportEnds(row, id, credit, perClaim);
    }
  }

  lemma OwedReportEnds(row: Row, id: int, credit: nat, perClaim: nat)
    requires credit > 0
    ensures !TombstonedFor(row, id, credit, perClaim)
  {
    var e := Finish(id, 0, false, false);
    assert [e][1..] == [];
    assert NoneManual([e]) && ReportsAreOwed(row, id, [e], credit, perClaim);
    assert !StaysTombstoned(RowNext(row, id, e), id, []);
  }

  /** The reports that claims below the cap can still bring. */
  function Room(attempts: nat, perClaim: nat): nat
    decreases MAX_TIMEOUT_ATTEMPTS - attempts
  {
    if attempts + 1 >= MAX_TIMEOUT_ATTEMPTS then 0 else perClaim + Room(attempts + 1, perClaim)
  }

  function TriesLeft(row: Row, credit: nat, perClaim: nat): nat {
    if row.attempts >= MAX_TIMEOUT_ATTEMPTS then 0
    else (if TimedOut(row) then 1 else 0) + credit + Room(row.attempts, perClaim)
  }

  lemma TriesLeftStep(row: Row, id: int, e: Event, credit: nat, perClaim: nat)
    requires IsReport(e, id) ==> credit > 0
    ensures TriesLeft(RowNext(row, id, e), Credit(row, id, e, credit, perClaim), perClaim)
            + (if TimeoutRequeue(row, e) then 1 else 0) <= TriesLeft(row, credit, perClaim)
  {
  }

  lemma {:induction false} TriesWithinCredit(row: Row, id: int, events: seq<Event>, credit: nat, perClaim: nat)
    requires ReportsAreOwed(row, id, events, credit, perClaim)
    ensures |TimeoutTries(row, id, events)| <= TriesLeft(row, credit, perClaim)
    decreases events
  {
    if events != [] {
      TriesLeftStep(row, id, events[0], credit, perClaim);
      TriesWithinCredit(RowNext(row, id, events[0]), id, events[1..], Credit(row, id, events[0], credit, perClaim),
                        perClaim);
    }
  }

  /** A row is retried after a timeout at most four times for each report a claim may bring:
      four times when workers report once, however late. */
  lemma TimeoutTriesAreBounded(id: int, events: seq<Event>, perClaim: nat)
    requires ReportsAreOwed(FRESH_ROW, id, events, 0, perClaim)
    ensures |TimeoutTries(FRESH_ROW, id, events)| <= 4 * perClaim
  {
    TriesWithinCredit(FRESH_ROW, id, events, 0, perClaim);
    assert Room(3, perClaim) == perClaim && Room(2, perClaim) == 2 * perClaim && Room(1, perClaim) == 3 * perClaim;
  }

  /** Every report finds the row in flight. */
  predicate ReportsInTime(row: Row, id: int, events: seq<Event>)
    decreases events
  {
    events == []
    || ((IsReport(events[0], id) ==> row.status == Processing)
        && ReportsInTime(RowNext(row, id, events[0]), id, events[1..]))
  }

  /** The attempt count from which the next timeout retry can come. */
  function NextTry(row: Row): nat {
    if row.status == Processing || TimedOut(row) then row.attempts else row.attempts + 1
  }

  predicate Claimed(row: Row) {
    RowInv(row) && (TimedOut(row) ==> 1 <= row.attempts)
  }

  lemma InTimeStep(row: Row, id: int, e: Event)
    requires Claimed(row) && (IsReport(e, id) ==> row.status == Processing)
    ensures Claimed(RowNext(row, id, e)) && NextTry(row) <= NextTry(RowNext(row, id, e))
    ensures TimeoutRequeue(row, e) ==> NextTry(RowNext(row, id, e)) == row.attempts + 1
  {
  }

  /** Without late reports no two timeout retries come at the same attempt count. */
  lemma {:induction false} TriesInTimeAreSpread(row: Row, id: int, events: seq<Event>)
    requires Claimed(row) && ReportsInTime(row, id, events)
    ensures BackedOff(TimeoutTries(row, id, events), NextTry(row), true)
    ensures |TimeoutTries(row, id, events)| <= 4
    decreases events
  {
    if events != [] {
      var e, after := events[0], RowNext(row, id, events[0]);
      InTimeStep(row, id, e);
      TriesInTimeAreSpread(after, id, events[1..]);
      var rest := TimeoutTries(after, id, events[1..]);
      if TimeoutRequeue(row, e) {
        assert TimeoutTries(row, id, events)[1..] == rest;
      } else {
        BackedOffFrom(rest, NextTry(after), NextTry(row), true);
      }
      BackedOffFrom(TimeoutTries(row, id, events), NextTry(row), NextTry(row), true);
    }
  }

  lemma Tick(row: Row, id: int, e: Event, rest: seq<Event>, credit: nat, perClaim: nat)
    ensures ReportsAreOwed(row, id, [e] + rest, credit, perClaim) <==>
              (IsReport(e, id) ==> credit > 0)
              && ReportsAreOwed(RowNext(row, id, e), id, rest, Credit(row, id, e, credit, perClaim), perClaim)
    ensures !TimeoutRequeue(row, e) ==> TimeoutTries(row, id, [e] + rest) == TimeoutTries(RowNext(row, id, e), id, rest)
    ensures TimeoutRequeue(row, e) && row.finished.Some? ==>
              TimeoutTries(row, id, [e] + rest)
              == [Try(row.attempts, (e.now - row.finished.value) / 60)] + TimeoutTries(RowNext(row, id, e), id, rest)
  {
    assert ([e] + rest)[1..] == rest;
  }

  function Standing(status: Status, attempts: nat, started: Option<int>, finished: Option<int>): Row {
    Row(status, attempts, if status == Error then Some(Timeout) else None, started, finished, None, false)
  }

  /** With them two can: both workers of an outlived row time out, the first one late. */
  lemma LateTimeoutRepeatsACount(id: int)
    ensures var events := [Claim(id, 0), Startup, Claim(id, 60)] + [Fail(id, 120, Timeout), Retry(7320, 150)]
                          + [Fail(id, 7380, Timeout), Retry(14580, 150)];
            && ReportsAreOwed(FRESH_ROW, id, events, 0, 1)
            && TimeoutTries(FRESH_ROW, id, events) == [Try(2, 120), Try(2, 120)]
  {
    var late := [Fail(id, 7380, Timeout), Retry(14580, 150)];
    LateTry(id);
    var fails := [Fail(id, 120, Timeout), Retry(7320, 150)] + late;
    FirstTry(id, late);
    var tail := [Startup, Claim(id, 60)] + fails;
    Tick(Standing(Pending, 1, Some(0), None), id, Claim(id, 60), fails, 1, 1);
    Tick(Standing(Processing, 1, Some(0), None), id, Startup, [Claim(id, 60)] + fails, 1, 1);
    assert [Startup] + ([Claim(id, 60)] + fails) == tail;
    Tick(FRESH_ROW, id, Claim(id, 0), tail, 0, 1);
    assert [Claim(id, 0)] + tail ==
           [Claim(id, 0), Startup, Claim(id, 60)] + [Fail(id, 120, Timeout), Retry(7320, 150)] + late;
  }

  lemma LateTry(id: int)
    ensures var late := [Fail(id, 7380, Timeout), Retry(14580, 150)];
            && ReportsAreOwed(Standing(Pending, 2, None, None), id, late, 1, 1)
            && TimeoutTries(Standing(Pending, 2, None, None), id, late) == [Try(2, 120)]
  {
    var failed := Standing(Error, 2, None, Some(7380));
    assert RetryDelay(2) == 120 by { assert Pow2(1) == 2; }
    Tick(failed, id, Retry(14580, 150), [], 0, 1);
    assert [Retry(14580, 150)] + [] == [Retry(14580, 150)];
    Tick(Standing(Pending, 2, None, None), id, Fail(id, 7380, Timeout), [Retry(14580, 150)], 1, 1);
    assert [Fail(id, 7380, Timeout)] + [Retry(14580, 150)] == [Fail(id, 7380, Timeout), Retry(14580, 150)];
  }

  lemma FirstTry(id: int, late: seq<Event>)
    requires ReportsAreOwed(Standing(Pending, 2, None, None), id, late, 1, 1)
    ensures var events := [Fail(id, 120, Timeout), Retry(7320, 150)] + late;
            var row := Standing(Processing, 2, Some(60), None);
            && ReportsAreOwed(row, id, events, 2, 1)
            && TimeoutTries(row, id, events) == [Try(2, 120)] + TimeoutTries(Standing(Pending, 2, None, None), id, late)
  {
    assert RetryDelay(2) == 120 by { assert Pow2(1) == 2; }
    Tick(Standing(Error, 2, Some(60), Some(120)), id, Retry(7320, 150), late, 1, 1);
    Tick(Standing(Processing, 2, Some(60), None), id, Fail(id, 120, Timeout), [Retry(7320, 150)] + late, 2, 1);
    assert [Fail(id, 120, Timeout)] + ([Retry(7320, 150)] + late) == [Fail(id, 120, Timeout), Retry(7320, 150)] + late;
  }

  function TotalWait(tries: seq<Try>): int {
    if tries == [] then 0 else tries[0].waited + TotalWait(tries[1..])
  }

  /** Every outcome of the row is a timeout, and the retry job is the only one to touch it
      besides its worker: it is never cut short while in flight. */
  predicate OnlyTimesOut(row: Row, id: int, e: Event) {
    match e
    case Fail(i, _, failure) => i == id ==> failure == Timeout && row.status == Processing
    case Finish(i, _, _, _) => i != id
    case Retry(now, stale) => row.status == Processing ==> PlanFor(row, now, stale) == Leave
    case Startup => row.status != Processing
    case Shutdown(_) => row.status != Processing
    case Reap(now, maxSeconds) => RowNext(row, id, e) == row
    case _ => !Manual(e)
  }

  predicate AlwaysTimesOut(row: Row, id: int, events: seq<Event>)
    decreases events
  {
    events == [] || (OnlyTimesOut(row, id, events[0]) && AlwaysTimesOut(RowNext(row, id, events[0]), id, events[1..]))
  }

  /** Where such a row stands after `n` retries. */
  predicate AfterTries(row: Row, n: nat) {
    match row.status
    case Pending => row.attempts == n <= 4 && row.lastError == None
    case Processing => row.attempts == n + 1 <= 5
    case Error => if row.lastError == Some(Tombstoned) then row.attempts == 5 && n == 4
                  else row.attempts == n + 1 <= 5 && row.lastError == Some(Timeout) && row.finished.Some?
    case _ => false
  }

  /** The minutes the backoff imposes before retry `n + 1`, `n + 2`, ... `m`. */
  function Backoff(n: nat, m: nat): int
    decreases m
  {
    if m <= n then 0 else Backoff(n, m - 1) + RetryDelay(m)
  }

  lemma {:induction false} BackoffHead(n: nat, m: nat)
    requires n < m
    ensures Backoff(n, m) == RetryDelay(n + 1) + Backoff(n + 1, m)
    decreases m
  {
    if n + 1 < m {
      BackoffHead(n, m - 1);
    }
  }

  lemma OneMoreTry(row: Row, id: int, e: Event, n: nat)
    requires AfterTries(row, n) && OnlyTimesOut(row, id, e)
    ensures AfterTries(RowNext(row, id, e), if TimeoutRequeue(row, e) then n + 1 else n)
  {
  }

  lemma {:induction false} TriesCount(row: Row, id: int, events: seq<Event>, n: nat)
    requires AfterTries(row, n) && AlwaysTimesOut(row, id, events)
    ensures AfterTries(RowRun(row, id, events), n + |TimeoutTries(row, id, events)|)
    decreases events
  {
    if events != [] {
      OneMoreTry(row, id, events[0], n);
      TriesCount(RowNext(row, id, events[0]), id, events[1..], if TimeoutRequeue(row, events[0]) then n + 1 else n);
    }
  }

  lemma {:induction false} TriesWait(row: Row, id: int, events: seq<Event>, n: nat)
    requires AfterTries(row, n) && AlwaysTimesOut(row, id, events)
    ensures Backoff(n, n + |TimeoutTries(row, id, events)|) <= TotalWait(TimeoutTries(row, id, events))
    decreases events
  {
    if events != [] {
      var after := RowNext(row, id, events[0]);
      OneMoreTry(row, id, events[0], n);
      if TimeoutRequeue(row, events[0]) {
        TriesWait(after, id, events[1..], n + 1);
        BackoffHead(n, n + |TimeoutTries(row, id, events)|);
      } else {
        TriesWait(after, id, events[1..], n);
      }
    }
  }

  /** A row that times out on every attempt: after any run it stands where its number of
      retries says, and it has waited at least the backoff of each of them. */
  lemma TimesOutToTheEnd(row: Row, id: int, events: seq<Event>, n: nat)
    requires AfterTries(row, n) && AlwaysTimesOut(row, id, events)
    ensures var tries := TimeoutTries(row, id, events);
            AfterTries(RowRun(row, id, events), n + |tries|) && Backoff(n, n + |tries|) <= TotalWait(tries)
  {
    TriesCount(row, id, events, n);
    TriesWait(row, id, events, n);
  }

  /** So a tombstone after nothing but timeouts means exactly four retries and at least 900
      minutes of waiting. */
  lemma TimeoutTombstone(id: int, events: seq<Event>)
    requires AlwaysTimesOut(FRESH_ROW, id, events)
    ensures var tries := TimeoutTries(FRESH_ROW, id, events);
            IsTombstoned(RowRun(FRESH_ROW, id, events)) ==> |tries| == 4 && TotalWait(tries) >= 900
  {
    TimesOutToTheEnd(FRESH_ROW, id, events, 0);
    assert Backoff(0, 4) == 900 by {
      assert RetryDelay(1) == 60 && RetryDelay(2) == 120;
      assert Pow2(2) == 4 && Pow2(3) == 8;
      assert Backoff(0, 2) == 180;
    }
  }

  /** The fifth timeout is the last: the next retry job buries the row, whenever it runs. A
      row with fewer timeouts behind it is not buried. */
  lemma FifthTimeoutIsBuried(row: Row, n: nat, now: int, stale: int)
    requires AfterTries(row, n) && TimedOut(row)
    ensures IsTombstoned(Retried(row, now, stale)) <==> n == 4
  {
  }

  /** When a failed row is given another try: after a timeout while it has been tried fewer
      than five times and its delay, which doubles with each attempt, is over. The cap of a day
      on the delay never applies. */
  lemma TimeoutRetryExactlyWhen(t: Table, id: int, now: int, stale: int)
    requires id in t && t[id].status == Error && t[id].lastError == Some(Timeout) && t[id].finished.Some?
    ensures var row, after := t[id], Next(t, Retry(now, stale))[id];
            && (after.status == Pending <==>
                row.attempts < 5
                && (now - row.finished.value) / 60 >= 60 * Pow2(if row.attempts == 0 then 0 else row.attempts - 1))
            && (after.status == Error && after.lastError == Some(Tombstoned) <==> row.attempts >= 5)
            && (after.status == Pending || IsTombstoned(after) || after == row)
  {
    assert Pow2(0) == 1 && Pow2(1) == 2 && Pow2(2) == 4;
    assert Pow2(3) == 2 * Pow2(2);
  }

  /** Any other failure is given another try at once, and a tombstone never. */
  lemma OtherFailuresRetryAtOnce(t: Table, id: int, now: int, stale: int)
    requires id in t && t[id].status == Error && t[id].lastError != Some(Timeout)
    ensures var after := Next(t, Retry(now, stale))[id];
            if t[id].lastError == Some(Tombstoned) then after == t[id]
            else after.status == Pending && after.lastError == None && after.attempts == t[id].attempts
  {
  }

  // --------------------------------------------------------------- by hand and by intake

  /** An operator's retry revives failed rows and no others: one by its number, tombstoned or
      not, or all of them, the tombstoned ones only on demand. It keeps the attempt count. */
  lemma ManualRetryRevives(t: Table, id: int, all: bool)
    requires id in t
    ensures var one, some := Next(t, RetryOne(id))[id], Next(t, RetryAll(all))[id];
            && one.attempts == some.attempts == t[id].attempts
            && (t[id].status != Error ==> one == some == t[id])
            && (t[id].status == Error ==> one.status == Pending && one.lastError == None)
            && (t[id].status == Error && (all || !IsTombstoned(t[id])) ==>
                some.status == Pending && some.lastError == None)
            && (IsTombstoned(t[id]) && !all ==> some == t[id])
    ensures forall i :: i in t && i != id ==> Next(t, RetryOne(id))[i] == t[i]
  {
  }

  /** So a row that timed out to the end gets a single further attempt by hand: its next
      timeout is buried by the next retry job. From ten attempts on it does not even get that,
      unless it is claimed before that job runs. */
  lemma ManualRetryIsOneAttempt(row: Row, id: int, claimed: int, failed: int, now: int, stale: int)
    requires IsTombstoned(row) && row.attempts >= 5
    ensures IsTombstoned(RowRun(row, id, [RetryOne(id), Claim(id, claimed)]
                                + [Fail(id, failed, Timeout), Retry(now, stale)]))
    ensures row.attempts >= 10 ==> IsTombstoned(RowRun(row, id, [RetryOne(id), Retry(now, stale)]))
  {
    RowRunTwo(row, id, RetryOne(id), Claim(id, claimed));
    RowRunConcat(row, id, [RetryOne(id), Claim(id, claimed)], [Fail(id, failed, Timeout), Retry(now, stale)]);
    RowRunTwo(RowRun(row, id, [RetryOne(id), Claim(id, claimed)]), id, Fail(id, failed, Timeout), Retry(now, stale));
    RowRunTwo(row, id, RetryOne(id), Retry(now, stale));
  }

  /** Queueing a source again leaves a worker in flight and an unchanged result alone and puts
      everything else back to waiting, tombstoned or not. */
  lemma IntakeExactlyWhen(t: Table, id: int, changed: bool)
    requires id in t
    ensures var after := Next(t, Intake(id, changed))[id];
            && (after.status == Processing <==> t[id].status == Processing)
            && (after.status == Processed <==> t[id].status == Processed && !changed)
            && (after.status in {Pending, Processing, Processed}) && after.lastError == None
            && after.attempts == t[id].attempts
    ensures forall i :: i in t && i != id ==> Next(t, Intake(id, changed))[i] == t[i]
  {
  }

  /** The reaper takes exactly the rows in flight that were started long enough ago, or never. */
  lemma ReapExactlyWhen(t: Table, id: int, now: int, maxSeconds: int)
    requires id in t
    ensures var after := Next(t, Reap(now, maxSeconds))[id];
            if t[id].status == Processing && (t[id].started == None || t[id].started.value + maxSeconds <= now)
            then after.status == Pending && after.attempts == t[id].attempts else after == t[id]
  {
  }

  // ------------------------------------------------------- workers that never report

  /** A worker within its time limit is never taken for dead. */
  lemma LiveWorkerIsLeft(t: Table, id: int, now: int, maxItemSeconds: int)
    requires id in t && t[id].status == Processing && t[id].started.Some?
    requires now - t[id].started.value <= maxItemSeconds || now - t[id].started.value <= 150 * 60
    ensures Next(t, Retry(now, StaleMinutes(maxItemSeconds)))[id] == t[id]
  {
  }

  /** A worker half an hour over it, and over 150 minutes, always is: its row is given back
      after the first and second attempt and tombstoned after the third. */
  lemma DeadWorkerIsTaken(t: Table, id: int, now: int, maxItemSeconds: int)
    requires id in t && t[id].status == Processing && t[id].started.Some?
    requires now - t[id].started.value > maxItemSeconds + 30 * 60 && now - t[id].started.value > 150 * 60
    ensures var after := Next(t, Retry(now, StaleMinutes(maxItemSeconds)))[id];
            && after.attempts == t[id].attempts
            && (t[id].attempts <= 2 ==> after.status == Pending && after.lastError == None)
            && (t[id].attempts >= 3 ==> after.status == Error && after.lastError == Some(Tombstoned))
  {
  }

  /** No worker of the row ever reports, and every retry job that meets the row in flight
      meets it stale. Nothing else takes it out of flight. */
  predicate NeverReports(row: Row, id: int, e: Event) {
    match e
    case Claim(_, _) => true
    case Revisit(_, _, _) => true
    case Fail(i, _, _) => i != id
    case Finish(i, _, _, _) => i != id
    case Retry(now, stale) => row.status == Processing ==> row.started.Some? && now - row.started.value > 60 * stale
    case _ => row.status != Processing && !Manual(e)
  }

  predicate AlwaysDies(row: Row, id: int, events: seq<Event>)
    decreases events
  {
    events == [] || (NeverReports(row, id, events[0]) && AlwaysDies(RowNext(row, id, events[0]), id, events[1..]))
  }

  /** Waiting for at most its third attempt, in it, or tombstoned after it. */
  predicate AtMostThree(row: Row) {
    || (row.status == Pending && row.lastError == None && row.attempts <= 2)
    || (row.status == Processing && row.lastError == None && 1 <= row.attempts <= 3)
    || (row.status == Error && row.lastError == Some(Tombstoned) && row.attempts == 3)
  }

  lemma {:induction false} DyingRow(row: Row, id: int, events: seq<Event>)
    requires AtMostThree(row) && AlwaysDies(row, id, events)
    ensures AtMostThree(RowRun(row, id, events))
    decreases events
  {
    if events != [] {
      DyingRow(RowNext(row, id, events[0]), id, events[1..]);
    }
  }

  /** A row whose workers always die is started three times and no more: over every run it
      waits for one of its three attempts, is in one, or is tombstoned after the third. */
  lemma DyingWorkerIsGivenUp(t: Table, id: int, events: seq<Event>)
    requires id in t && t[id] == FRESH_ROW && AlwaysDies(t[id], id, events)
    ensures id in Run(t, events) && AtMostThree(Run(t, events)[id])
  {
    RunIsRowwise(t, events, id);
    DyingRow(t[id], id, events);
  }

  /** The row is claimed, given back without a word by a restart or the reaper, and then met
      waiting by the retry job. */
  datatype Round = Round(claimed: int, back: Event, now: int, stale: int)

  predicate GivesBack(round: Round) {
    round.back.Startup? || (round.back.Reap? && round.claimed <= round.back.now - round.back.maxSeconds)
  }

  function RoundEvents(id: int, round: Round): seq<Event> {
    [Claim(id, round.claimed), round.back] + [Retry(round.now, round.stale)]
  }

  function AllRounds(id: int, rounds: seq<Round>): seq<Event> {
    if rounds == [] then [] else AllRounds(id, rounds[..|rounds| - 1]) + RoundEvents(id, rounds[|rounds| - 1])
  }

  /** Waiting after fewer than ten silent attempts, or tombstoned after ten. */
  predicate SilentAfter(row: Row, n: nat) {
    if n < 10 then row.status == Pending && row.lastError == None && row.attempts == n
    else row.status == Error && row.lastError == Some(Tombstoned) && row.attempts == 10
  }

  lemma OneRound(row: Row, id: int, round: Round, n: nat)
    requires SilentAfter(row, n) && GivesBack(round)
    ensures SilentAfter(RowRun(row, id, RoundEvents(id, round)), n + 1)
  {
    RowRunTwo(row, id, Claim(id, round.claimed), round.back);
    RowRunConcat(row, id, [Claim(id, round.claimed), round.back], [Retry(round.now, round.stale)]);
    RowRunOne(RowRun(row, id, [Claim(id, round.claimed), round.back]), id, Retry(round.now, round.stale));
  }

  /** Ten silent attempts are the limit: after that many rounds, and any number more, the row
      is tombstoned, and before that it is not. */
  lemma {:induction false} SilentAttemptsAreBounded(id: int, rounds: seq<Round>)
    requires forall i :: 0 <= i < |rounds| ==> GivesBack(rounds[i])
    ensures SilentAfter(RowRun(FRESH_ROW, id, AllRounds(id, rounds)), |rounds|)
  {
    if rounds != [] {
      var front, last := rounds[..|rounds| - 1], rounds[|rounds| - 1];
      SilentAttemptsAreBounded(id, front);
      OneRound(RowRun(FRESH_ROW, id, AllRounds(id, front)), id, last, |front|);
      RowRunConcat(FRESH_ROW, id, AllRounds(id, front), RoundEvents(id, last));
    }
  }

  // ------------------------------------------------------------- double revisits

  ghost predicate TwoLiveRevisits(t: Table, source: int) {
    exists a, b :: a in t && b in t && a != b && t[a].revisitOf == Some(source) && t[b].revisitOf == Some(source)
                   && Live(t[a]) && Live(t[b])
  }

  /** A source is revisited exactly when it is an original that was processed by other versions,
      long enough ago, and every earlier revisit of it has failed or was skipped. The revisit is
      a fresh row; the other rows stay. */
  lemma RevisitExactlyWhen(t: Table, source: int, newId: int, cutoff: int)
    requires newId !in t
    ensures var after := Next(t, Revisit(source, newId, cutoff));
            && (newId in after <==>
                && source in t && t[source].status == Processed && t[source].revisitOf == None && t[source].drifted
                && t[source].finished != None && t[source].finished.value < cutoff
                && forall id :: id in t && t[id].revisitOf == Some(source) ==> t[id].status in {Skipped, Error})
            && (newId in after ==> after[newId] == Row(Pending, 0, None, None, None, Some(source), false))
            && forall id :: id in t ==> id in after && after[id] == t[id]
  {
    forall id | id in t
      ensures Live(t[id]) <==> t[id].status !in {Skipped, Error}
    {
      LiveIs(t[id]);
    }
  }

  lemma LiveIs(row: Row)
    ensures Live(row) <==> row.status !in {Skipped, Error}
  {
    match row.status
    case Pending =>
    case Processing =>
    case Processed =>
    case Skipped =>
    case Error =>
  }

  /** By itself revisiting never gives a source a second live revisit. */
  lemma RevisitKeepsOne(t: Table, source: int, other: int, newId: int, cutoff: int)
    requires newId !in t && !TwoLiveRevisits(t, source)
    ensures !TwoLiveRevisits(Next(t, Revisit(other, newId, cutoff)), source)
  {
  }

  /** Retrying never changes what a row revisits, and revives exactly the rows it requeues. */
  lemma RetriedRow(row: Row, now: int, stale: int)
    ensures Retried(row, now, stale).revisitOf == row.revisitOf
    ensures !Live(row) ==> (Live(Retried(row, now, stale)) <==> PlanFor(row, now, stale) == Requeue)
  {
  }

  lemma RevisitThenRetry(t: Table, source: int, newId: int, cutoff: int, now: int, stale: int)
    requires Revisitable(t, source, cutoff) && newId !in t
    ensures var after := Next(Next(t, Revisit(source, newId, cutoff)), Retry(now, stale));
            && after.Keys == t.Keys + {newId}
            && after[newId] == FRESH_ROW.(revisitOf := Some(source))
            && forall id :: id in t ==> after[id] == Retried(t[id], now, stale)
  {
  }

  /** A source is revisited while it has no live revisit, yet the next retry job makes two:
      exactly when an earlier revisit of it has failed and is due for a retry. */
  lemma DoubleRevisitExactlyWhen(t: Table, source: int, newId: int, cutoff: int, now: int, stale: int)
    requires Revisitable(t, source, cutoff) && newId !in t
    ensures TwoLiveRevisits(Next(Next(t, Revisit(source, newId, cutoff)), Retry(now, stale)), source) <==>
            exists id :: id in t && t[id].revisitOf == Some(source) && PlanFor(t[id], now, stale) == Requeue
  {
    var after := Next(Next(t, Revisit(source, newId, cutoff)), Retry(now, stale));
    RevisitThenRetry(t, source, newId, cutoff, now, stale);
    forall id | id in t && t[id].revisitOf == Some(source)
      ensures id in after && (Live(after[id]) <==> PlanFor(t[id], now, stale) == Requeue)
    {
      RetriedRow(t[id], now, stale);
    }
    if id :| id in t && t[id].revisitOf == Some(source) && PlanFor(t[id], now, stale) == Requeue {
      RetriedRow(t[id], now, stale);
      assert after[id].revisitOf == Some(source) && Live(after[id]) && Live(after[newId]);
    }
    if TwoLiveRevisits(after, source) {
      var a, b :| a in after && b in after && a != b && after[a].revisitOf == Some(source)
                  && after[b].revisitOf == Some(source) && Live(after[a]) && Live(after[b]);
      var id := if a == newId then b else a;
      RetriedRow(t[id], now, stale);
    }
  }
}
