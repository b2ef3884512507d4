/** Training columns of the interaction ledger and their recovery (`src/llm_ledger.rs`). */
module TrainingLedger {
  import opened Common

  const I32_MAX: int := 0x7fff_ffff

  /** The columns training reads and writes; timers are in seconds. */
  datatype Row = Row(
    status: string,
    response: Option<string>,
    attempts: int,
    trainStatus: Option<string>,
    error: Option<string>,
    nextTrainAt: Option<int>,
    trainedAt: Option<int>,
    snapshot: Option<string>)

  function NewRow(status: string, response: Option<string>): Row {
    Row(status, response, 0, None, None, None, None, None)
  }

  predicate Finished(trainStatus: Option<string>) {
    trainStatus == Some("trained") || trainStatus == Some("snapshotted")
  }

  /** What the trainer selects. */
  predicate Selectable(row: Row, now: int, includeDegraded: bool) {
    && row.trainedAt.None?
    && row.trainStatus != Some("failed")
    && (row.nextTrainAt.None? || row.nextTrainAt.value <= now)
    && HasResponse(row)
    && Eligible(row, includeDegraded)
  }

  predicate HasResponse(row: Row) {
    row.response.Some? && row.response.value != ""
  }

  predicate Eligible(row: Row, includeDegraded: bool) {
    row.status == "ok" || (includeDegraded && row.status == "degraded")
  }

  // ---- one UPDATE each ----

  /** `mark_training_success`: only the two final statuses finish a row, any other requeues it at once. */
  function MarkSuccess(row: Row, status: string, snapshot: string, now: int): Row {
    var done := Finished(Some(status));
    row.(attempts := row.attempts + 1, trainStatus := Some(status), error := None,
         nextTrainAt := if done then None else Some(now),
         trainedAt := if done then Some(now) else None,
         snapshot := Some(snapshot))
  }

  function MarkRetry(row: Row, error: string, now: int, max: int, backoff: int): Row {
    if row.attempts >= I32_MAX then row
    else
      var exhausted := row.attempts + 1 >= max;
      row.(attempts := row.attempts + 1,
           trainStatus := Some(if exhausted then "failed" else "retry"),
           error := Some(error),
           nextTrainAt := if exhausted then None else Some(now + backoff),
           trainedAt := None)
  }

  const PENDING: string := "trained_registration_pending"

  /** When a marked row is selected next, if it is eligible and has a response: after a status that is not final at
      once, after a retry once its back-off has passed, after a final status or the last attempt not at all. */
  lemma SelectedNext(row: Row, status: string, snapshot: string, error: string, now: int, max: int, backoff: int,
                     later: int, includeDegraded: bool)
    requires row.attempts < I32_MAX && status != "failed"
    ensures var ready := HasResponse(row) && Eligible(row, includeDegraded);
            && (Selectable(MarkSuccess(row, status, snapshot, now), later, includeDegraded) <==>
                  ready && status != "trained" && status != "snapshotted" && later >= now)
            && (Selectable(MarkRetry(row, error, now, max, backoff), later, includeDegraded) <==>
                  ready && row.attempts + 1 < max && later >= now + backoff)
  {
  }

  /** Rows that older workers finalised before their registration had completed. */
  predicate Recoverable(row: Row) {
    || row.trainStatus == Some(PENDING)
    || (row.trainStatus == Some("retry") && row.trainedAt.Some?)
  }

  function Requeue(row: Row, now: int): Row {
    row.(trainStatus := Some("retry"),
         error := Some(if row.error.Some? then row.error.value else "serving model registration was not completed"),
         nextTrainAt := Some(now), trainedAt := None)
  }

  /** A failure of the infrastructure starts over. */
  function Revive(row: Row, now: int): Row {
    if row.trainStatus != Some("failed") then row
    else row.(attempts := 0, trainStatus := Some("retry"), error := None,
              nextTrainAt := Some(now), trainedAt := None, snapshot := None)
  }

  /** A row put back by recovery, or revived after it failed, is selected at once. */
  lemma PutBackSelected(row: Row, now: int, later: int, includeDegraded: bool)
    requires HasResponse(row) && Eligible(row, includeDegraded)
    ensures Selectable(Requeue(row, now), later, includeDegraded) <==> later >= now
    ensures row.trainStatus == Some("failed") ==>
      Revive(row, now).attempts == 0 && (Selectable(Revive(row, now), later, includeDegraded) <==> later >= now)
    ensures row.trainStatus != Some("failed") ==> Revive(row, now) == row
  {
  }

  function Recoverables(rows: map<int, Row>): set<int> {
    set id | id in rows && Recoverable(rows[id])
  }

  function Requeued(rows: map<int, Row>, chosen: seq<int>, now: int): map<int, Row> {
    map id | id in rows :: if id in chosen then Requeue(rows[id], now) else rows[id]
  }

  /** The attempt counter of a row to be marked is at its limit. */
  predicate Overflows(rows: map<int, Row>, ids: seq<int>) {
    exists id :: id in ids && id in rows && rows[id].attempts >= I32_MAX
  }

  function Marked(rows: map<int, Row>, ids: seq<int>, status: string, snapshot: string, now: int): map<int, Row> {
    map id | id in rows :: if id in ids then MarkSuccess(rows[id], status, snapshot, now) else rows[id]
  }

  /** One statement marks all its rows; a counter at its limit fails the whole statement. */
  function SuccessMarked(rows: map<int, Row>, ids: seq<int>, status: string, snapshot: string, now: int): map<int, Row> {
    if Overflows(rows, ids) then rows else Marked(rows, ids, status, snapshot, now)
  }

  function BatchLimit(batch: nat): (limit: nat)
    ensures 1 <= limit <= 100_000 && (1 <= batch <= 100_000 ==> limit == batch)
    ensures batch > 100_000 ==> limit == 100_000
  {
    if batch < 1 then 1 else if batch > 100_000 then 100_000 else batch
  }

  class Ledger {
    var rows: map<int, Row>

    constructor ()
      ensures rows == map[]
    {
      rows := map[];
    }

    method MarkTrainingSuccess(ids: seq<int>, snapshot: string, status: string, now: int)
      modifies this
      ensures rows == SuccessMarked(old(rows), ids, status, snapshot, now)
    {
      var done := status == "trained" || status == "snapshotted";
      var updated := rows;
      for k := 0 to |ids|
        invariant rows == old(rows) && !Overflows(rows, ids[..k])
        invariant updated == Marked(rows, ids[..k], status, snapshot, now)
      {
        var id := ids[k];
        if id in rows {
          var row := rows[id];
          if row.attempts >= I32_MAX {
            return;
          }
          row := row.(attempts := row.attempts + 1, trainStatus := Some(status), error := None, snapshot := Some(snapshot));
          if done {
            row := row.(nextTrainAt := None, trainedAt := Some(now));
          } else {
            row := row.(nextTrainAt := Some(now), trainedAt := None);
          }
          updated := updated[id := row];
        }
      }
      assert ids[..|ids|] == ids;
      rows := updated;
    }

    method MarkTrainingRetry(id: int, error: string, now: int, max: int, backoff: int)
      modifies this
      ensures rows == if id in old(rows) then old(rows)[id := MarkRetry(old(rows)[id], error, now, max, backoff)] else old(rows)
    {
      if id in rows && rows[id].attempts < I32_MAX {
        var row := rows[id].(attempts := rows[id].attempts + 1, error := Some(error), trainedAt := None);
        if row.attempts >= max {
          row := row.(trainStatus := Some("failed"), nextTrainAt := None);
        } else {
          row := row.(trainStatus := Some("retry"), nextTrainAt := Some(now + backoff));
        }
        rows := rows[id := row];
      }
      assert id in old(rows) && rows == old(rows) ==> rows == old(rows)[id := rows[id]];
    }

    /** Requeues the first recoverable rows that no other session has locked. */
    method RecoverIncompleteRegistrations(batch: nat, locked: set<int>, now: int)
      returns (recovered: nat, ghost chosen: seq<int>)
      modifies this
      ensures IsFirst(Recoverables(old(rows)) - locked, BatchLimit(batch), chosen)
      ensures rows == Requeued(old(rows), chosen, now)
      ensures recovered == |chosen| == Min(BatchLimit(batch), |Recoverables(old(rows)) - locked|)
    {
      var ids := First(Recoverables(rows) - locked, BatchLimit(batch));
      FirstSize(Recoverables(rows) - locked, BatchLimit(batch), ids);
      chosen := ids;
      rows := Requeued(rows, ids, now);
      recovered := |ids|;
    }

    /** Rows to train on next: retries first, then by id, at most `limit` of them. */
    method FetchPendingTraining(limit: nat, now: int, includeDegraded: bool) returns (ids: seq<int>)
      ensures exists retries, others ::
        && ids == retries + others
        && IsFirst(Chosen(rows, now, includeDegraded, true), limit, retries)
        && IsFirst(Chosen(rows, now, includeDegraded, false), limit - |retries|, others)
    {
      var retries := First(Chosen(rows, now, includeDegraded, true), limit);
      var others := First(Chosen(rows, now, includeDegraded, false), limit - |retries|);
      ids := retries + others;
    }
  }

  function Chosen(rows: map<int, Row>, now: int, includeDegraded: bool, retry: bool): set<int> {
    set id | id in rows && Selectable(rows[id], now, includeDegraded)
             && (rows[id].trainStatus == Some("retry") <==> retry)
  }

  // ---- any interleaving ----

  datatype Step =
    | Record(id: int, status: string, response: Option<string>)
    | Succeed(ids: seq<int>, snapshot: string, status: string, now: int)
    | Retry(id: int, error: string, now: int, max: int, backoff: int)
    | Recover(chosen: seq<int>, now: int)
    | ReviveAll(ids: seq<int>, now: int)

  function Apply(rows: map<int, Row>, step: Step): map<int, Row> {
    match step
    case Record(id, status, response) =>
      rows[id := if id in rows then rows[id].(status := status, response := response) else NewRow(status, response)]
    case Succeed(ids, snapshot, status, now) => SuccessMarked(rows, ids, status, snapshot, now)
    case Retry(id, error, now, max, backoff) =>
      if id in rows then rows[id := MarkRetry(rows[id], error, now, max, backoff)] else rows
    case Recover(chosen, now) => Requeued(rows, chosen, now)
    case ReviveAll(ids, now) => map id | id in rows :: if id in ids then Revive(rows[id], now) else rows[id]
  }

  function After(rows: map<int, Row>, steps: seq<Step>): map<int, Row> {
    if steps == [] then rows else Apply(After(rows, steps[..|steps| - 1]), steps[|steps| - 1])
  }

  /** A row counts as finished for selection exactly when its status is final. */
  predicate Sound(row: Row) {
    row.trainedAt.Some? <==> Finished(row.trainStatus)
  }

  /** No training step leaves a row that is finished without its time or timed without being finished, unless it
      found it so; and only success with the pending status makes a row recoverable. */
  lemma StepKeepsSound(rows: map<int, Row>, step: Step, id: int)
    requires id in Apply(rows, step)
    ensures (id in rows ==> Sound(rows[id])) ==> Sound(Apply(rows, step)[id])
    ensures id in rows && Recoverable(rows[id]) ==>
      Sound(Apply(rows, step)[id]) || Recoverable(Apply(rows, step)[id])
    ensures Recoverable(Apply(rows, step)[id]) ==>
      (id in rows && Recoverable(rows[id])) || (step.Succeed? && step.status == PENDING)
  {
  }

  /** From an empty ledger, over any interleaving of training steps, `trained_at` is set exactly on the
      rows whose status is final. */
  lemma {:induction false} TrainedOnlyWhenFinal(steps: seq<Step>, id: int)
    requires id in After(map[], steps)
    ensures Sound(After(map[], steps)[id])
  {
    if steps == [] {
    } else {
      var before, step := After(map[], steps[..|steps| - 1]), steps[|steps| - 1];
      if id in before {
        TrainedOnlyWhenFinal(steps[..|steps| - 1], id);
      }
      StepKeepsSound(before, step, id);
    }
  }

  /** So no unfinished row is lost: unless it failed, it is selectable once its timer is due. */
  lemma UnfinishedSelectable(steps: seq<Step>, id: int, now: int, includeDegraded: bool)
    requires id in After(map[], steps)
    requires var row := After(map[], steps)[id];
             && !Finished(row.trainStatus) && row.trainStatus != Some("failed")
             && HasResponse(row) && Eligible(row, includeDegraded)
             && (row.nextTrainAt.Some? ==> row.nextTrainAt.value <= now)
    ensures Selectable(After(map[], steps)[id], now, includeDegraded)
  {
    TrainedOnlyWhenFinal(steps, id);
  }

  // ---- ledgers written by older workers ----

  /** The only bad rows are of the two legacy kinds. */
  ghost predicate LegacyOnly(rows: map<int, Row>) {
    forall id :: id in rows ==> Sound(rows[id]) || Recoverable(rows[id])
  }

  /** Such a ledger gets no other bad rows, whatever happens. */
  lemma {:induction false} LegacyOnlyKept(rows: map<int, Row>, steps: seq<Step>)
    requires LegacyOnly(rows)
    ensures LegacyOnly(After(rows, steps))
  {
    if steps == [] {
    } else {
      var before, step := After(rows, steps[..|steps| - 1]), steps[|steps| - 1];
      LegacyOnlyKept(rows, steps[..|steps| - 1]);
      forall id | id in Apply(before, step) ensures Sound(Apply(before, step)[id]) || Recoverable(Apply(before, step)[id]) {
        StepKeepsSound(before, step, id);
      }
    }
  }

  /** A call repairs as many bad rows as its limit and the locks of other sessions allow, and breaks none. */
  lemma RecoveryShrinks(rows: map<int, Row>, locked: set<int>, limit: nat, chosen: seq<int>, now: int)
    requires LegacyOnly(rows) && IsFirst(Recoverables(rows) - locked, limit, chosen)
    ensures LegacyOnly(Requeued(rows, chosen, now))
    ensures |Recoverables(Requeued(rows, chosen, now))| == |Recoverables(rows)| - Min(limit, |Recoverables(rows) - locked|)
  {
    var free := Recoverables(rows) - locked;
    FirstSize(free, limit, chosen);
    var ids := set id | id in chosen;
    assert Recoverables(Requeued(rows, chosen, now)) == Recoverables(rows) - ids;
    assert ids <= Recoverables(rows);
  }

  /** Both legacy kinds are repaired: a row finalised while its registration was pending, and one finalised while
      it was to be retried, is retried by a call that has room for all. */
  lemma LegacyRepaired(rows: map<int, Row>, limit: nat, chosen: seq<int>, now: int, id: int)
    requires id in rows && IsFirst(Recoverables(rows), limit, chosen) && |Recoverables(rows)| <= limit
    requires rows[id].trainStatus == Some("trained_registration_pending")
             || (rows[id].trainStatus == Some("retry") && rows[id].trainedAt.Some?)
    ensures var row := Requeued(rows, chosen, now)[id];
            row.trainStatus == Some("retry") && row.trainedAt.None? && row.nextTrainAt == Some(now)
  {
    FirstSize(Recoverables(rows), limit, chosen);
    var ids := set i | i in chosen;
    assert Recoverables(rows) - ids == {};
    assert id in Recoverables(rows);
  }

  /** What happens to a ledger under repair: recovery calls, each with the rows other sessions hold, and any
      steps of workers in between. */
  datatype Event = Call(chosen: seq<int>, locked: set<int>, now: int) | Between(step: Step)

  function Happened(rows: map<int, Row>, event: Event): map<int, Row> {
    match event
    case Call(chosen, _, now) => Requeued(rows, chosen, now)
    case Between(step) => Apply(rows, step)
  }

  function Recovered(rows: map<int, Row>, events: seq<Event>): map<int, Row> {
    if events == [] then rows else Happened(Recovered(rows, events[..|events| - 1]), events[|events| - 1])
  }

  /** A call takes the first recoverable rows that are not locked; workers leave no registration pending. */
  ghost predicate Proceeds(rows: map<int, Row>, event: Event, limit: nat) {
    match event
    case Call(chosen, locked, _) => IsFirst(Recoverables(rows) - locked, limit, chosen)
    case Between(step) => step.Succeed? ==> step.status != PENDING
  }

  ghost predicate Repair(rows: map<int, Row>, events: seq<Event>, limit: nat) {
    events == [] ||
    var n := |events| - 1;
    Repair(rows, events[..n], limit) && Proceeds(Recovered(rows, events[..n]), events[n], limit)
  }

  /** Calls that found no recoverable row locked. */
  ghost function FreeCalls(rows: map<int, Row>, events: seq<Event>): nat {
    if events == [] then 0
    else
      var n := |events| - 1;
      var before, last := Recovered(rows, events[..n]), events[n];
      FreeCalls(rows, events[..n]) + if last.Call? && last.locked !! Recoverables(before) then 1 else 0
  }

  lemma EventShrinks(rows: map<int, Row>, event: Event, limit: nat)
    requires LegacyOnly(rows) && Proceeds(rows, event, limit)
    ensures LegacyOnly(Happened(rows, event))
    ensures |Recoverables(Happened(rows, event))| <=
      |Recoverables(rows)| - if event.Call? && event.locked !! Recoverables(rows) then Min(limit, |Recoverables(rows)|) else 0
  {
    match event
    case Call(chosen, locked, now) =>
      RecoveryShrinks(rows, locked, limit, chosen, now);
      assert locked !! Recoverables(rows) ==> Recoverables(rows) - locked == Recoverables(rows);
    case Between(step) =>
      forall id | id in Apply(rows, step)
        ensures Sound(Apply(rows, step)[id]) || Recoverable(Apply(rows, step)[id])
        ensures id in Recoverables(Apply(rows, step)) ==> id in Recoverables(rows)
      {
        StepKeepsSound(rows, step, id);
      }
      SubsetSize(Recoverables(Apply(rows, step)), Recoverables(rows));
  }

  lemma {:induction false} EventsShrink(rows: map<int, Row>, events: seq<Event>, limit: nat)
    requires LegacyOnly(rows) && Repair(rows, events, limit)
    ensures LegacyOnly(Recovered(rows, events))
    ensures var left := |Recoverables(Recovered(rows, events))|;
            left == 0 || left <= |Recoverables(rows)| - limit * FreeCalls(rows, events)
  {
    if events == [] {
      assert limit * FreeCalls(rows, events) == 0;
    } else {
      var n := |events| - 1;
      EventsShrink(rows, events[..n], limit);
      EventShrinks(Recovered(rows, events[..n]), events[n], limit);
      OneMore(limit, FreeCalls(rows, events[..n]));
    }
  }

  lemma OneMore(limit: nat, calls: nat)
    ensures limit * (calls + 1) == limit * calls + limit
  {
  }

  /** Whatever workers do in between, and however many calls find rows locked, a ledger whose only bad rows are
      of the legacy kinds has none left once as many calls as cover them found none locked. */
  lemma RecoveryCompletes(rows: map<int, Row>, events: seq<Event>, batch: nat)
    requires LegacyOnly(rows) && Repair(rows, events, BatchLimit(batch))
    requires BatchLimit(batch) * FreeCalls(rows, events) >= |Recoverables(rows)|
    ensures forall id :: id in Recovered(rows, events) ==>
      Sound(Recovered(rows, events)[id]) && !Recoverable(Recovered(rows, events)[id])
  {
    EventsShrink(rows, events, BatchLimit(batch));
    var left := Recoverables(Recovered(rows, events));
    assert left == {};
    forall id | id in Recovered(rows, events) ensures !Recoverable(Recovered(rows, events)[id]) {
      assert id !in left;
    }
  }
}
