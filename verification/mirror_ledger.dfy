/** Mirror columns of the interaction ledger and the worker that replays rows
    (`src/llm_ledger.rs`, `src/mirror_worker.rs`). */
module MirrorLedger {
  import opened Common

  const I32_MAX: int := 0x7fff_ffff

  /** The columns mirroring reads and writes; timers are in seconds. */
  datatype Row = Row(
    prompt: string,
    response: Option<string>,
    attempts: int,
    status: Option<string>,
    nextMirrorAt: Option<int>,
    mirroredAt: Option<int>,
    nextValidationAt: Option<int>)

  predicate ValidMax(max: int) {
    1 <= max <= 1000
  }

  function NewRow(prompt: string, response: Option<string>): Row {
    Row(prompt, response, 0, None, None, None, None)
  }

  // ---- one UPDATE each ----

  /** `mark_mirror_success` with status `mirrored`; an attempt counter at its limit fails the statement. */
  function MarkSuccess(row: Row, now: int): Row {
    if row.attempts >= I32_MAX then row
    else row.(attempts := row.attempts + 1, status := Some("mirrored"), nextMirrorAt := None, mirroredAt := Some(now))
  }

  function MarkRetry(row: Row, now: int, max: int, backoff: int): Row {
    if row.attempts >= I32_MAX then row
    else
      var exhausted := row.attempts + 1 >= max;
      row.(attempts := row.attempts + 1,
           status := Some(if exhausted then "failed" else "retry"),
           nextMirrorAt := if exhausted then None else Some(now + backoff),
           mirroredAt := if exhausted then Some(now) else None)
  }

  function MarkValidation(row: Row, now: int, interval: int): Row {
    row.(nextValidationAt := Some(now + interval))
  }

  predicate HasResponse(row: Row) {
    row.response.Some? && row.response.value != ""
  }

  function ScheduleValidation(row: Row, now: int): Row {
    if HasResponse(row) then row.(nextValidationAt := Some(now)) else row
  }

  /** The upsert of a record rewrites the content of a row and leaves its schedules alone. */
  function Upsert(rows: map<int, Row>, id: int, prompt: string, response: Option<string>): map<int, Row> {
    rows[id := if id in rows then rows[id].(prompt := prompt, response := response) else NewRow(prompt, response)]
  }

  /** Rows the worker picks up: open ones whose retry is due, and any whose validation is due. */
  predicate Pending(row: Row, now: int) {
    || (row.mirroredAt.None? && (row.nextMirrorAt.None? || row.nextMirrorAt.value <= now))
    || (HasResponse(row) && (row.nextValidationAt.None? || row.nextValidationAt.value <= now))
  }

  function PendingIds(rows: map<int, Row>, now: int): set<int> {
    set id | id in rows && Pending(rows[id], now)
  }

  /** No validation calls for the row at `later`. */
  predicate NoValidationDue(row: Row, later: int) {
    row.response.None? || row.response.value == "" || (row.nextValidationAt.Some? && row.nextValidationAt.value > later)
  }

  /** When a marked row is picked up next: after a retry once its back-off has passed, after a success or the last
      attempt not at all, and in any case when its validation falls due, an interval after the last one. */
  lemma PickedUpNext(row: Row, now: int, max: int, backoff: int, interval: int, later: int)
    requires row.attempts < I32_MAX
    ensures NoValidationDue(row, later) ==>
      && !Pending(MarkSuccess(row, now), later)
      && (Pending(MarkRetry(row, now, max, backoff), later) <==> row.attempts + 1 < max && later >= now + backoff)
    ensures !NoValidationDue(row, later) ==> Pending(MarkSuccess(row, now), later) && Pending(MarkRetry(row, now, max, backoff), later)
    ensures row.mirroredAt.Some? ==>
      (Pending(MarkValidation(row, now, interval), later) <==>
         row.response.Some? && row.response.value != "" && later >= now + interval)
  {
  }

  class Ledger {
    var rows: map<int, Row>

    constructor ()
      ensures rows == map[]
    {
      rows := map[];
    }

    method MarkMirrorSuccess(id: int, now: int)
      modifies this
      ensures rows == Updated(old(rows), id, Success(now))
    {
      if id in rows && rows[id].attempts < I32_MAX {
        var row := rows[id];
        rows := rows[id := row.(attempts := row.attempts + 1, status := Some("mirrored"),
                                nextMirrorAt := None, mirroredAt := Some(now))];
      }
      assert id in old(rows) && rows == old(rows) ==> rows == old(rows)[id := rows[id]];
    }

    method MarkMirrorRetry(id: int, now: int, max: int, backoff: int)
      modifies this
      ensures rows == Updated(old(rows), id, Retry(now, max, backoff))
    {
      if id in rows && rows[id].attempts < I32_MAX {
        var row := rows[id].(attempts := rows[id].attempts + 1);
        if row.attempts >= max {
          row := row.(status := Some("failed"), nextMirrorAt := None, mirroredAt := Some(now));
        } else {
          row := row.(status := Some("retry"), nextMirrorAt := Some(now + backoff), mirroredAt := None);
        }
        rows := rows[id := row];
      }
      assert id in old(rows) && rows == old(rows) ==> rows == old(rows)[id := rows[id]];
    }

    method FetchPendingMirror(limit: nat, now: int) returns (ids: seq<int>)
      ensures IsFirst(PendingIds(rows, now), limit, ids)
    {
      ids := First(PendingIds(rows, now), limit);
    }

    /** Sets the row's next validation, if the statement goes through. */
    method ValidateAndRecord(entry: Visit, bridge: Bridge)
      modifies this
      ensures rows == AfterValidation(old(rows), entry, bridge)
    {
      var interval := bridge.interval;
      if !bridge.validates {
        interval := if interval < 60 then 60 else interval;
      } else if entry.read.response.None? || Blank(entry.read.response.value) {
        return;
      }
      if entry.validatedAt.Some? && entry.id in rows {
        rows := rows[entry.id := rows[entry.id].(nextValidationAt := Some(entry.validatedAt.value + Min(interval, I32_MAX)))];
      }
    }

    /** One pass of the worker over a fetched batch; entries are the rows as they were read. */
    method RunBatch(entries: seq<Visit>, bridge: Bridge, max: int, backoff: int)
      modifies this
      ensures rows == AfterVisits(old(rows), entries, bridge, max, backoff)
    {
      for k := 0 to |entries|
        invariant rows == AfterVisits(old(rows), entries[..k], bridge, max, backoff)
      {
        var entry := entries[k];
        var errors: seq<string> := [];
        var mirrorPending := !(entry.read.status == Some("mirrored") || entry.read.status == Some("failed"));
        if mirrorPending && bridge.mirrorsInput && !Blank(entry.read.prompt) {
          var error := SemanticError(entry.inputTrace, false);
          if error.Some? {
            errors := errors + ["input mirror: " + error.value];
          }
        }
        if bridge.mirrorsOutput && entry.read.response.Some? && !Blank(entry.read.response.value) {
          var error := SemanticError(entry.outputTrace, true);
          if mirrorPending && error.Some? {
            errors := errors + ["output mirror: " + error.value];
          }
        }
        assert entries[..k + 1][..k] == entries[..k];
        ValidateAndRecord(entry, bridge);
        if entry.reachable {
          if errors == [] {
            MarkMirrorSuccess(entry.id, entry.now);
          } else {
            MarkMirrorRetry(entry.id, entry.now, max, backoff);
          }
        }
      }
      assert entries[..|entries|] == entries;
    }
  }

  datatype Update = Success(now: int) | Retry(now: int, max: int, backoff: int)

  function Updated(rows: map<int, Row>, id: int, update: Update): map<int, Row> {
    if id !in rows then rows
    else match update
      case Success(now) => rows[id := MarkSuccess(rows[id], now)]
      case Retry(now, max, backoff) => rows[id := MarkRetry(rows[id], now, max, backoff)]
  }

  // ---- replays ----

  /** What the bridge reports of one replayed exchange. */
  datatype Trace = Trace(accepted: bool, error: Option<string>, candidate: Option<Candidate>)

  /** What the worker is configured to replay and to validate, and how often. */
  datatype Bridge = Bridge(mirrorsInput: bool, mirrorsOutput: bool, validates: bool, interval: int)

  /** Why a replay does not count, even if the transport took it. */
  function SemanticError(trace: Trace, output: bool): Option<string> {
    if trace.error.Some? then trace.error
    else if !trace.accepted then Some("AARNN transport response was not accepted")
    else if !output then None
    else if trace.candidate.None? then Some("output candidate missing after accepted transport")
    else
      var c := trace.candidate.value;
      if !c.usable then
        Some("output candidate unusable: " + if c.source.Some? then c.source.value else "network_output_unavailable")
      else if c.reply.None? || Blank(c.reply.value) then Some("output candidate has no reply text")
      else None
  }

  /** A replay succeeds only with an accepted exchange and, for outputs, a usable non-blank reply. */
  lemma SemanticSuccess(trace: Trace, output: bool)
    ensures SemanticError(trace, output).None? <==>
      && trace.error.None? && trace.accepted
      && (output ==> trace.candidate.Some? && trace.candidate.value.usable
                     && trace.candidate.value.reply.Some? && !Blank(trace.candidate.value.reply.value))
  {
  }

  /** A row as the worker read it, what its replays came to, when its validation was recorded, if it could be,
      and whether the ledger could be reached after that. */
  datatype Visit = Visit(
    id: int, read: Row, inputTrace: Trace, outputTrace: Trace, validatedAt: Option<int>, now: int, reachable: bool)

  predicate Closed(row: Row) {
    row.mirroredAt.Some?
  }

  predicate MarkedClosed(row: Row) {
    row.status == Some("mirrored") || row.status == Some("failed")
  }

  predicate InputRequired(row: Row, bridge: Bridge) {
    bridge.mirrorsInput && !Blank(row.prompt)
  }

  predicate OutputRequired(row: Row, bridge: Bridge) {
    bridge.mirrorsOutput && row.response.Some? && !Blank(row.response.value)
  }

  /** Every replay the row calls for came back without a semantic error. */
  predicate ReplaysPassed(v: Visit, bridge: Bridge) {
    && (InputRequired(v.read, bridge) ==> SemanticError(v.inputTrace, false).None?)
    && (OutputRequired(v.read, bridge) ==> SemanticError(v.outputTrace, true).None?)
  }

  /** Errors count only while the row is read as open. */
  predicate VisitSucceeds(v: Visit, bridge: Bridge) {
    MarkedClosed(v.read) || ReplaysPassed(v, bridge)
  }

  /** A visit sets the next validation, unless validation is on and there is no response to validate. */
  predicate Validates(v: Visit, bridge: Bridge) {
    !bridge.validates || (v.read.response.Some? && !Blank(v.read.response.value))
  }

  function Interval(bridge: Bridge): int {
    Min(if bridge.validates || bridge.interval >= 60 then bridge.interval else 60, I32_MAX)
  }

  function AfterValidation(rows: map<int, Row>, v: Visit, bridge: Bridge): map<int, Row> {
    if Validates(v, bridge) && v.validatedAt.Some? && v.id in rows
    then rows[v.id := MarkValidation(rows[v.id], v.validatedAt.value, Interval(bridge))] else rows
  }

  function AfterVisit(rows: map<int, Row>, v: Visit, bridge: Bridge, max: int, backoff: int): map<int, Row> {
    var validated := AfterValidation(rows, v, bridge);
    if !v.reachable then validated
    else Updated(validated, v.id, if VisitSucceeds(v, bridge) then Success(v.now) else Retry(v.now, max, backoff))
  }

  function AfterVisits(rows: map<int, Row>, vs: seq<Visit>, bridge: Bridge, max: int, backoff: int): map<int, Row> {
    if vs == [] then rows
    else AfterVisit(AfterVisits(rows, vs[..|vs| - 1], bridge, max, backoff), vs[|vs| - 1], bridge, max, backoff)
  }

  // ---- any interleaving, with stale reads ----

  datatype Step =
    | Record(id: int, prompt: string, response: Option<string>)
    | Mark(id: int, update: Update)
    | Validated(id: int, now: int, interval: int)
    | ValidateAll(now: int)

  function Apply(rows: map<int, Row>, step: Step): map<int, Row> {
    match step
    case Record(id, prompt, response) => Upsert(rows, id, prompt, response)
    case Mark(id, update) => Updated(rows, id, update)
    case Validated(id, now, interval) =>
      if id in rows then rows[id := MarkValidation(rows[id], now, interval)] else rows
    case ValidateAll(now) => map id | id in rows :: ScheduleValidation(rows[id], now)
  }

  function After(steps: seq<Step>): map<int, Row> {
    if steps == [] then map[] else Apply(After(steps[..|steps| - 1]), steps[|steps| - 1])
  }

  /** Scheduling all validations makes every row with a response due from then on and changes nothing else of it;
      recording a row again changes its content only. */
  lemma OtherSteps(rows: map<int, Row>, id: int, now: int, later: int, prompt: string, response: Option<string>)
    requires id in rows
    ensures var row := Apply(rows, ValidateAll(now))[id];
            && row.(nextValidationAt := None) == rows[id].(nextValidationAt := None)
            && (row.response.Some? && row.response.value != "" && later >= now ==> Pending(row, later))
    ensures var row := Apply(rows, Record(id, prompt, response))[id];
            && row.prompt == prompt && row.response == response
            && row.(prompt := "", response := None) == rows[id].(prompt := "", response := None)
  {
  }

  /** Any worker may mark any row at any time, whatever it read, but all use one attempt bound. */
  predicate OneBound(steps: seq<Step>, max: int) {
    forall i :: 0 <= i < |steps| && steps[i].Mark? && steps[i].update.Retry? ==> steps[i].update.max == max
  }

  predicate Consistent(row: Row, max: int) {
    && (Closed(row) <==> MarkedClosed(row))
    && (row.status == Some("retry") ==> row.attempts < max && row.nextMirrorAt.Some?)
    && (row.status.None? || row.status == Some("retry") || MarkedClosed(row))
  }

  /** Whatever the interleaving, a row is closed exactly when its status says mirrored or failed, and
      a retry has attempts left and a timer. */
  lemma {:induction false} RowsConsistent(steps: seq<Step>, max: int, id: int)
    requires ValidMax(max) && OneBound(steps, max)
    requires id in After(steps)
    ensures Consistent(After(steps)[id], max)
    decreases |steps|
  {
    if steps == [] {
    } else {
      var before := After(steps[..|steps| - 1]);
      if id in before {
        RowsConsistent(steps[..|steps| - 1], max, id);
      }
    }
  }

  /** So an open row is always picked up again once its timer is due. */
  lemma OpenRowsComeBack(steps: seq<Step>, max: int, id: int, now: int)
    requires ValidMax(max) && OneBound(steps, max)
    requires id in After(steps) && !MarkedClosed(After(steps)[id])
    requires var row := After(steps)[id]; row.nextMirrorAt.Some? ==> row.nextMirrorAt.value <= now
    ensures Pending(After(steps)[id], now)
  {
    RowsConsistent(steps, max, id);
  }

  // ---- a single worker ----

  /** The steps of a ledger with one worker: what it reads of the mirror columns is current. */
  datatype WorkerStep = Visits(v: Visit) | Other(step: Step)

  /** The ledger and, per row, the failing replays recorded so far. */
  datatype Worker = Worker(rows: map<int, Row>, failures: map<int, nat>)

  predicate Taken(w: Worker, step: WorkerStep) {
    match step
    case Visits(v) => v.id in w.rows && v.read.status == w.rows[v.id].status
    case Other(s) => !s.Mark?
  }

  predicate RecordedFailure(w: Worker, step: WorkerStep, bridge: Bridge, id: int) {
    step.Visits? && step.v.id == id && step.v.reachable && !VisitSucceeds(step.v, bridge)
  }

  function Work(w: Worker, step: WorkerStep, bridge: Bridge, max: int, backoff: int): Worker {
    var rows := match step
      case Visits(v) => AfterVisit(w.rows, v, bridge, max, backoff)
      case Other(s) => Apply(w.rows, s);
    Worker(rows, map id | id in rows ::
      (if id in w.failures then w.failures[id] else 0) + if RecordedFailure(w, step, bridge, id) then 1 else 0)
  }

  function Run(steps: seq<WorkerStep>, bridge: Bridge, max: int, backoff: int): Worker {
    if steps == [] then Worker(map[], map[])
    else
      var before, step := Run(steps[..|steps| - 1], bridge, max, backoff), steps[|steps| - 1];
      if Taken(before, step) then Work(before, step, bridge, max, backoff) else before
  }

  ghost predicate RowInvariant(w: Worker, max: int, id: int) {
    if id !in w.rows then id !in w.failures
    else
      && id in w.failures && Consistent(w.rows[id], max) && w.failures[id] <= max && w.rows[id].attempts >= 0
      && (!Closed(w.rows[id]) ==> w.rows[id].attempts == w.failures[id] < max)
      && (w.rows[id].status == Some("failed") ==> w.failures[id] == max)
  }

  ghost predicate WorkerInvariant(w: Worker, max: int) {
    forall id :: RowInvariant(w, max, id)
  }

  lemma WorkKeepsRow(w: Worker, step: WorkerStep, bridge: Bridge, max: int, backoff: int, id: int)
    requires ValidMax(max) && RowInvariant(w, max, id) && Taken(w, step)
    ensures RowInvariant(Work(w, step, bridge, max, backoff), max, id)
  {
  }

  lemma WorkKeepsInvariant(w: Worker, step: WorkerStep, bridge: Bridge, max: int, backoff: int)
    requires ValidMax(max) && WorkerInvariant(w, max) && Taken(w, step)
    ensures WorkerInvariant(Work(w, step, bridge, max, backoff), max)
  {
    var after := Work(w, step, bridge, max, backoff);
    forall id ensures RowInvariant(after, max, id) {
      WorkKeepsRow(w, step, bridge, max, backoff, id);
    }
  }

  lemma {:induction false} RunKeepsInvariant(steps: seq<WorkerStep>, bridge: Bridge, max: int, backoff: int)
    requires ValidMax(max)
    ensures WorkerInvariant(Run(steps, bridge, max, backoff), max)
  {
    if steps == [] {
    } else {
      var before, step := Run(steps[..|steps| - 1], bridge, max, backoff), steps[|steps| - 1];
      RunKeepsInvariant(steps[..|steps| - 1], bridge, max, backoff);
      if Taken(before, step) {
        WorkKeepsInvariant(before, step, bridge, max, backoff);
      }
    }
  }

  /** With one worker, a row takes at most `max` recorded failing replays, is closed by then, and is given up no
      earlier. */
  lemma FailuresBounded(steps: seq<WorkerStep>, bridge: Bridge, max: int, backoff: int, id: int)
    requires ValidMax(max) && id in Run(steps, bridge, max, backoff).rows
    ensures var w := Run(steps, bridge, max, backoff);
            && id in w.failures && w.failures[id] <= max
            && (w.failures[id] == max ==> Closed(w.rows[id]))
            && (w.rows[id].status == Some("failed") ==> w.failures[id] == max)
  {
    RunKeepsInvariant(steps, bridge, max, backoff);
    assert RowInvariant(Run(steps, bridge, max, backoff), max, id);
  }

  /** With one worker, a closed row never reopens. */
  lemma ClosedStaysClosed(steps: seq<WorkerStep>, step: WorkerStep, bridge: Bridge, max: int, backoff: int, id: int)
    requires ValidMax(max)
    requires var w := Run(steps, bridge, max, backoff); id in w.rows && Closed(w.rows[id])
    ensures var w := Run(steps + [step], bridge, max, backoff); id in w.rows && Closed(w.rows[id])
  {
    RunKeepsInvariant(steps, bridge, max, backoff);
    assert RowInvariant(Run(steps, bridge, max, backoff), max, id);
    assert (steps + [step])[..|steps + [step]| - 1] == steps;
  }

  /** When a visit turns a row into a mirrored one: an open row exactly when every replay it called for
      passed, a row that had failed on any recorded visit, whatever its replays came to. */
  lemma BecomesMirrored(w: Worker, v: Visit, bridge: Bridge, max: int, backoff: int)
    requires ValidMax(max) && WorkerInvariant(w, max) && Taken(w, Visits(v)) && v.reachable
    requires w.rows[v.id].attempts < I32_MAX && w.rows[v.id].status != Some("mirrored")
    ensures Work(w, Visits(v), bridge, max, backoff).rows[v.id].status == Some("mirrored")
      <==> w.rows[v.id].status == Some("failed") || ReplaysPassed(v, bridge)
  {
  }

  /** A row given up after one failing replay, revisited for validation with the same failing replay. */
  lemma FailedRowRecordedAsMirrored() returns (steps: seq<WorkerStep>, bridge: Bridge)
    ensures |steps| == 3 && forall i :: 1 <= i < 3 ==> steps[i].Visits? && !ReplaysPassed(steps[i].v, bridge)
    ensures 1 in Run(steps[..2], bridge, 1, 60).rows && Run(steps[..2], bridge, 1, 60).rows[1].status == Some("failed")
    ensures 1 in Run(steps, bridge, 1, 60).rows && Run(steps, bridge, 1, 60).rows[1].status == Some("mirrored")
  {
    bridge := Bridge(true, true, true, 600);
    var refused := Trace(false, None, None);
    var row := NewRow("q", Some("a"));
    var first := Visits(Visit(1, row, refused, refused, Some(0), 0, true));
    var again := Visits(Visit(1, row.(status := Some("failed")), refused, refused, Some(1000), 1000, true));
    steps := [Other(Record(1, "q", Some("a"))), first, again];
    assert steps[..2][..1] == steps[..1] && steps[..1][..0] == [];
    assert Run(steps[..1][..0], bridge, 1, 60) == Worker(map[], map[]);
    var recorded := Run(steps[..1], bridge, 1, 60);
    assert recorded.rows == map[1 := row];
    assert Taken(recorded, first);
    assert !Blank("q") by { assert !IsWhitespace("q"[0]); }
    var failed := Run(steps[..2], bridge, 1, 60);
    assert failed.rows[1].status == Some("failed");
    assert Taken(failed, again);
  }
}
