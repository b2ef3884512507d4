/** The two checks around every governed exchange (`src/governance.rs`). */
module Governance {
  import opened Common

  datatype Mode = Disabled | Monitor | Enforce

  datatype Config = Config(mode: Mode, failOpen: bool, maxInFlight: nat)

  datatype Action = Allow | Alert | Block

  datatype Verdict = Verdict(protocolVersion: u32, requestId: nat, phase: string, action: Action)

  const REQUEST: string := "request"
  const RESPONSE: string := "response"

  /** The reply of the evaluator that `evaluate` accepts; anything else counts as unavailable. */
  predicate Matches(reply: Option<Verdict>, id: nat, phase: string) {
    reply.Some? && reply.value.protocolVersion == 1 && reply.value.requestId == id && reply.value.phase == phase
  }

  predicate Strict(config: Config) {
    config.mode == Enforce && !config.failOpen
  }

  /** What one completed check says. */
  datatype Outcome = Passed(status: string) | Refused(code: string)

  function CheckOutcome(config: Config, id: nat, phase: string, reply: Option<Verdict>): Outcome {
    if Matches(reply, id, phase) then
      if reply.value.action == Block && config.mode == Enforce then Refused("governance_blocked")
      else Passed(if reply.value.action == Block then "would_block" else "checked")
    else if Strict(config) then Refused("governance_unavailable")
    else Passed("unavailable")
  }

  /** `AtomicU64` counters wrap around. */
  function Increment(n: u64): u64 {
    (n + 1) % U64_LIMIT
  }

  datatype Counters = Counters(observed: u64, failures: u64, blocked: u64)

  function Counted(c: Counters, config: Config, id: nat, phase: string, reply: Option<Verdict>): Counters {
    if !Matches(reply, id, phase) then c.(failures := Increment(c.failures))
    else
      var seen := c.(observed := Increment(c.observed));
      if CheckOutcome(config, id, phase, reply).Refused? then seen.(blocked := Increment(seen.blocked)) else seen
  }

  /** `scope_for_path`: which routes are governed. */
  function ScopeForPath(path: string): Option<string> {
    if path in {"/v1/chat/completions", "/v1/responses", "/v1/llm/complete", "/v1/llm/direct-complete",
                "/v1/llm/transcribe", "/v1/audio/transcriptions"} then Some("llm")
    else if path in {"/v1/neuromorphic/analyze", "/v1/neuromorphic/predict"} then Some("neuromorphic")
    else if path in {"/v1/aer/encode", "/v1/aer/decode"} then Some("aer")
    else if path in {"/v1/trading/evaluate", "/dashboard/trading/api/pause", "/dashboard/trading/api/resume",
                     "/dashboard/trading/api/evaluate"} then Some("trading")
    else None
  }

  /** Everything outside the guard that decides how one request goes: the route, its credentials, whether
      the bodies could be read, the two replies of the evaluator. */
  datatype Exchange = Exchange(
    path: string, assessor: bool, authorised: bool, id: nat,
    bodyRead: bool, requestReply: Option<Verdict>,
    responseRead: bool, responseReply: Option<Verdict>)

  datatype Answer =
    | Error(code: string)
    | Ungoverned
    | Governed(status: string)

  function Status(first: string, second: string): string {
    if first == "unavailable" || second == "unavailable" then "unavailable"
    else if first == "would_block" || second == "would_block" then "would_block"
    else "checked"
  }

  predicate Allowed(config: Config, id: nat, phase: string, reply: Option<Verdict>) {
    CheckOutcome(config, id, phase, reply).Passed?
  }

  /** What a reply is to a check: a verdict of protocol 1 on its own exchange and phase, blocking or not, or none. */
  predicate IsVerdict(reply: Option<Verdict>, id: nat, phase: string, blocks: bool) {
    && reply.Some? && reply.value.protocolVersion == 1 && reply.value.requestId == id && reply.value.phase == phase
    && (reply.value.action == Block <==> blocks)
  }

  predicate IsNoVerdict(reply: Option<Verdict>, id: nat, phase: string) {
    !IsVerdict(reply, id, phase, true) && !IsVerdict(reply, id, phase, false)
  }

  /** Whether a check passes: outside enforcement always, under it for a verdict that does not block, and without
      a verdict only when failing open. */
  predicate Opens(config: Config, id: nat, phase: string, reply: Option<Verdict>) {
    config.mode == Enforce && !IsVerdict(reply, id, phase, false) ==> IsNoVerdict(reply, id, phase) && config.failOpen
  }

  /** Every configuration and every reply: which of the five outcomes it has. */
  lemma OutcomeExactly(config: Config, id: nat, phase: string, reply: Option<Verdict>)
    ensures Allowed(config, id, phase, reply) <==> Opens(config, id, phase, reply)
    ensures var outcome := CheckOutcome(config, id, phase, reply);
            && (outcome == Refused("governance_blocked") <==> config.mode == Enforce && IsVerdict(reply, id, phase, true))
            && (outcome == Refused("governance_unavailable") <==>
                  config.mode == Enforce && !config.failOpen && IsNoVerdict(reply, id, phase))
            && (outcome == Passed("would_block") <==> config.mode != Enforce && IsVerdict(reply, id, phase, true))
            && (outcome == Passed("checked") <==> IsVerdict(reply, id, phase, false))
            && (outcome == Passed("unavailable") <==>
                  (config.mode != Enforce || config.failOpen) && IsNoVerdict(reply, id, phase))
  {
  }

  /** A check raises one of observed and failures by one, and blocked with observed just when it refuses a block. */
  lemma CountsExactly(c: Counters, config: Config, id: nat, phase: string, reply: Option<Verdict>)
    ensures var after := Counted(c, config, id, phase, reply);
            && after.observed == (if IsNoVerdict(reply, id, phase) then c.observed else (c.observed + 1) % U64_LIMIT)
            && after.failures == (if IsNoVerdict(reply, id, phase) then (c.failures + 1) % U64_LIMIT else c.failures)
            && after.blocked == if config.mode == Enforce && IsVerdict(reply, id, phase, true)
                                then (c.blocked + 1) % U64_LIMIT else c.blocked
  {
  }

  /** How far an exchange is from having been checked both times. */
  function Concern(status: string): nat {
    if status == "checked" then 0 else if status == "would_block" then 1 else 2
  }

  /** The status told is the worse of the two. */
  lemma StatusIsWorse(first: Option<Verdict>, second: Option<Verdict>, config: Config, id: nat)
    requires Allowed(config, id, REQUEST, first) && Allowed(config, id, RESPONSE, second)
    ensures var one, two := CheckOutcome(config, id, REQUEST, first).status, CheckOutcome(config, id, RESPONSE, second).status;
            var told := Status(one, two);
            (told == one || told == two) && Concern(told) >= Concern(one) && Concern(told) >= Concern(two)
  {
  }

  class Gate {
    const config: Config
    var free: nat
    var counters: Counters

    constructor (config: Config)
      ensures this.config == config && free == config.maxInFlight && counters == Counters(0, 0, 0)
    {
      this.config := config;
      free, counters := config.maxInFlight, Counters(0, 0, 0);
    }

    method Failure() returns (refusal: Option<string>)
      modifies this`counters
      ensures counters == old(counters).(failures := Increment(old(counters).failures))
      ensures refusal == if Strict(config) then Some("governance_unavailable") else None
    {
      counters := counters.(failures := Increment(counters.failures));
      refusal := if config.mode == Enforce && !config.failOpen then Some("governance_unavailable") else None;
    }

    method Check(id: nat, phase: string, reply: Option<Verdict>) returns (outcome: Outcome)
      modifies this`counters
      ensures outcome == CheckOutcome(config, id, phase, reply)
      ensures counters == Counted(old(counters), config, id, phase, reply)
    {
      if reply.Some? && reply.value.protocolVersion == 1 && reply.value.requestId == id && reply.value.phase == phase {
        counters := counters.(observed := Increment(counters.observed));
        if reply.value.action == Block && config.mode == Enforce {
          counters := counters.(blocked := Increment(counters.blocked));
          return Refused("governance_blocked");
        }
        outcome := Passed(if reply.value.action == Block then "would_block" else "checked");
      } else {
        var refusal := Failure();
        outcome := if refusal.Some? then Refused(refusal.value) else Passed("unavailable");
      }
    }

    /** One guarded request, run alone: `ran` says whether its handler ran. */
    method Guard(x: Exchange) returns (answer: Answer, ran: bool)
      modifies this`free, this`counters
      ensures free == old(free)
      ensures ran <==> answer.Ungoverned? || (Admitted(config, old(free), x) && RequestAllowed(config, x))
      ensures answer.Governed? <==> Admitted(config, old(free), x) && RequestAllowed(config, x) && ResponseAllowed(config, x)
      ensures answer.Governed? ==>
        answer.status == Status(CheckOutcome(config, x.id, REQUEST, x.requestReply).status,
                                CheckOutcome(config, x.id, RESPONSE, x.responseReply).status)
      ensures answer.Ungoverned? <==> !NeedsAssessor(x) && (ScopeForPath(x.path).None? || config.mode == Disabled)
      ensures counters == CountersAfter(config, old(free), old(counters), x)
    {
      ran := false;
      if x.path == "/v1/internal/aria/assess" && !x.assessor {
        return Error("assessment_authentication_required"), false;
      }
      var scope := ScopeForPath(x.path);
      if scope.None? || config.mode == Disabled {
        return Ungoverned, true;
      }
      if !x.authorised {
        return Error("unauthorised"), false;
      }
      if free == 0 {
        return Error("governance_capacity_exhausted"), false;
      }
      free := free - 1;
      answer, ran := GuardHeld(x);
      free := free + 1;
    }

    /** One completion, run alone: whether the operation ran, and whether its result came back. */
    method Complete(x: Operation) returns (ran: bool, delivered: bool)
      modifies this`free, this`counters
      ensures free == old(free)
      ensures ran <==> !ChecksCompletion(config, x) || (old(free) > 0 && Allowed(config, x.id, REQUEST, x.requestReply))
      ensures delivered <==>
        ran && x.succeeds && (ChecksCompletion(config, x) ==> Allowed(config, x.id, RESPONSE, x.responseReply))
      ensures counters == if ChecksCompletion(config, x) && old(free) > 0
        then CompletionCounters(config, old(counters), x) else old(counters)
    {
      if config.mode == Disabled || x.assessment || x.httpGoverned {
        return true, x.succeeds;
      }
      if free == 0 {
        return false, false;
      }
      free := free - 1;
      var first := Check(x.id, REQUEST, x.requestReply);
      ran, delivered := first.Passed?, false;
      if ran && x.succeeds {
        var second := Check(x.id, RESPONSE, x.responseReply);
        delivered := second.Passed?;
      }
      free := free + 1;
    }

    /** The part of the guard that holds a permit. */
    method GuardHeld(x: Exchange) returns (answer: Answer, ran: bool)
      modifies this`counters
      ensures ran <==> RequestAllowed(config, x)
      ensures !answer.Ungoverned? && (answer.Governed? <==> RequestAllowed(config, x) && ResponseAllowed(config, x))
      ensures answer.Governed? ==>
        answer.status == Status(CheckOutcome(config, x.id, REQUEST, x.requestReply).status,
                                CheckOutcome(config, x.id, RESPONSE, x.responseReply).status)
      ensures counters == CountersHeld(config, old(counters), x)
    {
      if !x.bodyRead {
        return Error("governance_body_limit"), false;
      }
      var first := Check(x.id, REQUEST, x.requestReply);
      if first.Refused? {
        return Error(first.code), false;
      }
      ran := true;
      if !x.responseRead {
        return Error("governance_response_limit"), true;
      }
      var second := Check(x.id, RESPONSE, x.responseReply);
      if second.Refused? {
        return Error(second.code), true;
      }
      answer := Governed(
        if first.status == "unavailable" || second.status == "unavailable" then "unavailable"
        else if first.status == "would_block" || second.status == "would_block" then "would_block"
        else "checked");
    }
  }

  /** One in-process completion: where it runs, and what happens around it. */
  datatype Operation = Operation(
    assessment: bool, httpGoverned: bool, id: nat,
    requestReply: Option<Verdict>, succeeds: bool, responseReply: Option<Verdict>)

  predicate ChecksCompletion(config: Config, x: Operation) {
    config.mode != Disabled && !x.assessment && !x.httpGoverned
  }

  function CompletionCounters(config: Config, c: Counters, x: Operation): Counters {
    var once := Counted(c, config, x.id, REQUEST, x.requestReply);
    if Allowed(config, x.id, REQUEST, x.requestReply) && x.succeeds
    then Counted(once, config, x.id, RESPONSE, x.responseReply) else once
  }

  predicate NeedsAssessor(x: Exchange) {
    x.path == "/v1/internal/aria/assess" && !x.assessor
  }

  /** The request is one the guard takes on, and there is room for it. */
  predicate Admitted(config: Config, free: nat, x: Exchange) {
    !NeedsAssessor(x) && ScopeForPath(x.path).Some? && config.mode != Disabled && x.authorised && free > 0
  }

  predicate RequestAllowed(config: Config, x: Exchange) {
    x.bodyRead && Allowed(config, x.id, REQUEST, x.requestReply)
  }

  predicate ResponseAllowed(config: Config, x: Exchange) {
    x.responseRead && Allowed(config, x.id, RESPONSE, x.responseReply)
  }

  function CountersHeld(config: Config, c: Counters, x: Exchange): Counters {
    if !x.bodyRead then c
    else
      var once := Counted(c, config, x.id, REQUEST, x.requestReply);
      if RequestAllowed(config, x) && x.responseRead then Counted(once, config, x.id, RESPONSE, x.responseReply) else once
  }

  function CountersAfter(config: Config, free: nat, c: Counters, x: Exchange): Counters {
    if Admitted(config, free, x) then CountersHeld(config, c, x) else c
  }

  // ---- any number of exchanges at once ----

  datatype Kind = Http | Completion

  /** How a check was passed. */
  datatype Pass = ByVerdict(v: Verdict) | Unavailable

  datatype Stage =
    | Reading
    | Checking(phase: string)
    | Judged(phase: string, v: Verdict)
    | Failing(phase: string)
    | Running
    | Collecting
    | Finished(end: End)

  datatype End = Sent(status: string) | Rejected(code: string) | Failed | Cancelled

  /** What the evaluator replied to a check, if it was asked. */
  datatype Heard = Nothing | Answered(reply: Option<Verdict>)

  /** One exchange, with the replies to its checks, the checks it passed, and whether its handler ever ran. */
  datatype Flight = Flight(
    kind: Kind, stage: Stage, requestHeard: Heard, responseHeard: Heard,
    request: Option<Pass>, response: Option<Pass>, ran: bool)

  /** Shared state; the tallies are the unbounded counts behind the wrapping counters. */
  datatype World = World(
    free: nat, flights: map<nat, Flight>, counters: Counters,
    observed: nat, failures: nat, blocked: nat, replies: nat)

  /** Atomic steps: between any two steps of one exchange, those of others may come. */
  datatype Step =
    | Arrive(id: nat, kind: Kind)
    | ReadBody(id: nat, ok: bool)
    | Reply(id: nat, reply: Option<Verdict>)
    | Decide(id: nat)
    | HandlerDone(id: nat, ok: bool)
    | ReadResponse(id: nat, ok: bool)
    | Cancel(id: nat)

  predicate Open(x: Flight) {
    !x.stage.Finished?
  }

  predicate Enabled(w: World, step: Step) {
    match step
    case Arrive(id, _) => id !in w.flights
    case ReadBody(id, _) => id in w.flights && w.flights[id].stage.Reading?
    case Reply(id, _) => id in w.flights && w.flights[id].stage.Checking?
    case Decide(id) => id in w.flights && (w.flights[id].stage.Judged? || w.flights[id].stage.Failing?)
    case HandlerDone(id, _) => id in w.flights && w.flights[id].stage.Running?
    case ReadResponse(id, _) => id in w.flights && w.flights[id].stage.Collecting?
    case Cancel(id) => id in w.flights && Open(w.flights[id])
  }

  /** A finished exchange gives its permit back, however it ended. */
  function Put(w: World, id: nat, x: Flight): World {
    w.(flights := w.flights[id := x], free := w.free + if x.stage.Finished? then 1 else 0)
  }

  function Move(w: World, id: nat, stage: Stage): World
    requires id in w.flights
  {
    Put(w, id, w.flights[id].(stage := stage))
  }

  function ArriveStep(w: World, id: nat, kind: Kind): World {
    if w.free == 0 then
      w.(flights := w.flights[id := Flight(kind, Finished(Rejected("governance_capacity_exhausted")), Nothing, Nothing, None, None, false)])
    else
      w.(free := w.free - 1,
         flights := w.flights[id := Flight(kind, if kind == Http then Reading else Checking(REQUEST), Nothing, Nothing, None, None, false)])
  }

  function Hear(x: Flight, phase: string, reply: Option<Verdict>): Flight {
    if phase == REQUEST then x.(requestHeard := Answered(reply)) else x.(responseHeard := Answered(reply))
  }

  function HeardIn(x: Flight, phase: string): Heard {
    if phase == REQUEST then x.requestHeard else x.responseHeard
  }

  function ReplyStep(w: World, id: nat, reply: Option<Verdict>): World
    requires id in w.flights && w.flights[id].stage.Checking?
  {
    var phase := w.flights[id].stage.phase;
    var x := Hear(w.flights[id], phase, reply);
    if Matches(reply, id, phase) then
      w.(flights := w.flights[id := x.(stage := Judged(phase, reply.value))],
         counters := w.counters.(observed := Increment(w.counters.observed)),
         observed := w.observed + 1, replies := w.replies + 1)
    else
      w.(flights := w.flights[id := x.(stage := Failing(phase))],
         counters := w.counters.(failures := Increment(w.counters.failures)),
         failures := w.failures + 1, replies := w.replies + 1)
  }

  function StatusOf(pass: Pass): string {
    if pass.Unavailable? then "unavailable" else if pass.v.action == Block then "would_block" else "checked"
  }

  /** A passed request starts the handler, a passed response sends the bytes. */
  function Advance(x: Flight, phase: string, pass: Pass): Flight {
    if phase == REQUEST then x.(stage := Running, request := Some(pass), ran := true)
    else x.(stage := Finished(Sent(Status(if x.request.Some? then StatusOf(x.request.value) else "unavailable", StatusOf(pass)))),
            response := Some(pass))
  }

  function DecideStep(w: World, config: Config, id: nat): World
    requires id in w.flights && (w.flights[id].stage.Judged? || w.flights[id].stage.Failing?)
  {
    var x := w.flights[id];
    if x.stage.Failing? then
      Put(w, id, if Strict(config) then x.(stage := Finished(Rejected("governance_unavailable")))
                 else Advance(x, x.stage.phase, Unavailable))
    else if x.stage.v.action == Block && config.mode == Enforce then
      Put(w, id, x.(stage := Finished(Rejected("governance_blocked"))))
        .(counters := w.counters.(blocked := Increment(w.counters.blocked)), blocked := w.blocked + 1)
    else Put(w, id, Advance(x, x.stage.phase, ByVerdict(x.stage.v)))
  }

  /** A completion hands its result straight to the second check; a response over HTTP is read first. */
  function HandlerStage(kind: Kind, ok: bool): Stage {
    if kind == Http then Collecting else if ok then Checking(RESPONSE) else Finished(Failed)
  }

  function Next(w: World, config: Config, step: Step): World
    requires Enabled(w, step)
  {
    match step
    case Arrive(id, kind) => ArriveStep(w, id, kind)
    case ReadBody(id, ok) => Move(w, id, if ok then Checking(REQUEST) else Finished(Rejected("governance_body_limit")))
    case Reply(id, reply) => ReplyStep(w, id, reply)
    case Decide(id) => DecideStep(w, config, id)
    case HandlerDone(id, ok) => Move(w, id, HandlerStage(w.flights[id].kind, ok))
    case ReadResponse(id, ok) => Move(w, id, if ok then Checking(RESPONSE) else Finished(Rejected("governance_response_limit")))
    case Cancel(id) => Move(w, id, Finished(Cancelled))
  }

  function Start(config: Config): World {
    World(config.maxInFlight, map[], Counters(0, 0, 0), 0, 0, 0, 0)
  }

  function After(config: Config, steps: seq<Step>): World {
    if steps == [] then Start(config)
    else
      var before, step := After(config, steps[..|steps| - 1]), steps[|steps| - 1];
      if Enabled(before, step) then Next(before, config, step) else before
  }

  // ---- permits ----

  function InFlight(w: World): set<nat> {
    set id | id in w.flights && Open(w.flights[id])
  }

  lemma PutMoves(w: World, id: nat, x: Flight)
    requires id in w.flights && Open(w.flights[id])
    ensures Put(w, id, x).free + |InFlight(Put(w, id, x))| == w.free + |InFlight(w)|
  {
    assert InFlight(Put(w, id, x)) == if Open(x) then InFlight(w) else InFlight(w) - {id};
    assert id in InFlight(w);
  }

  function Permits(w: World): nat {
    w.free + |InFlight(w)|
  }

  lemma MoveKeepsPermits(w: World, id: nat, stage: Stage)
    requires id in w.flights && Open(w.flights[id])
    ensures Permits(Move(w, id, stage)) == Permits(w)
  {
    PutMoves(w, id, w.flights[id].(stage := stage));
  }

  lemma ArriveKeepsPermits(w: World, id: nat, kind: Kind)
    requires id !in w.flights
    ensures Permits(ArriveStep(w, id, kind)) == Permits(w)
  {
    assert InFlight(ArriveStep(w, id, kind)) == if w.free == 0 then InFlight(w) else InFlight(w) + {id};
  }

  lemma NextKeepsPermits(w: World, config: Config, step: Step)
    requires Enabled(w, step)
    ensures Permits(Next(w, config, step)) == Permits(w)
  {
    match step
    case Arrive(id, kind) => ArriveKeepsPermits(w, id, kind);
    case Reply(id, reply) => assert InFlight(ReplyStep(w, id, reply)) == InFlight(w);
    case Decide(id) => DecideMoves(w, config, id);
    case ReadBody(id, ok) =>
      MoveKeepsPermits(w, id, if ok then Checking(REQUEST) else Finished(Rejected("governance_body_limit")));
    case HandlerDone(id, ok) => MoveKeepsPermits(w, id, HandlerStage(w.flights[id].kind, ok));
    case ReadResponse(id, ok) =>
      MoveKeepsPermits(w, id, if ok then Checking(RESPONSE) else Finished(Rejected("governance_response_limit")));
    case Cancel(id) => MoveKeepsPermits(w, id, Finished(Cancelled));
  }

  lemma DecideMoves(w: World, config: Config, id: nat)
    requires id in w.flights && (w.flights[id].stage.Judged? || w.flights[id].stage.Failing?)
    ensures Permits(DecideStep(w, config, id)) == Permits(w)
  {
    var after := DecideStep(w, config, id);
    PutMoves(w, id, after.flights[id]);
    assert InFlight(after) == InFlight(Put(w, id, after.flights[id]));
  }

  /** Permits in use and free permits together always make up the bound, so every way out returns its permit. */
  lemma {:induction false} PermitsConserved(config: Config, steps: seq<Step>)
    ensures Permits(After(config, steps)) == config.maxInFlight
  {
    if steps != [] {
      var before, step := After(config, steps[..|steps| - 1]), steps[|steps| - 1];
      PermitsConserved(config, steps[..|steps| - 1]);
      if Enabled(before, step) {
        NextKeepsPermits(before, config, step);
      }
    } else {
      assert InFlight(After(config, steps)) == {};
    }
  }

  // ---- checks ----

  predicate Legitimate(config: Config, id: nat, phase: string, pass: Pass) {
    if pass.Unavailable? then !Strict(config)
    else Matches(Some(pass.v), id, phase) && (pass.v.action == Block ==> config.mode != Enforce)
  }

  predicate PastRequest(x: Flight) {
    || x.stage.Running? || x.stage.Collecting?
    || ((x.stage.Checking? || x.stage.Judged? || x.stage.Failing?) && x.stage.phase == RESPONSE)
  }

  predicate BeforeRequest(x: Flight) {
    || x.stage.Reading?
    || ((x.stage.Checking? || x.stage.Judged? || x.stage.Failing?) && x.stage.phase == REQUEST)
  }

  /** The check was answered, and by a reply that lets it pass. */
  predicate Passes(config: Config, id: nat, phase: string, heard: Heard) {
    heard.Answered? && Opens(config, id, phase, heard.reply)
  }

  predicate SentSoundly(config: Config, id: nat, x: Flight, status: string) {
    && x.request.Some? && x.response.Some? && Passes(config, id, RESPONSE, x.responseHeard)
    && Legitimate(config, id, RESPONSE, x.response.value)
    && status == Status(StatusOf(x.request.value), StatusOf(x.response.value))
  }

  /** One of the checks was answered by a verdict that blocks. */
  predicate BlockHeard(id: nat, x: Flight) {
    || (x.requestHeard.Answered? && IsVerdict(x.requestHeard.reply, id, REQUEST, true))
    || (x.responseHeard.Answered? && IsVerdict(x.responseHeard.reply, id, RESPONSE, true))
  }

  /** One of the checks was answered by something else than a verdict. */
  predicate FailureHeard(id: nat, x: Flight) {
    || (x.requestHeard.Answered? && IsNoVerdict(x.requestHeard.reply, id, REQUEST))
    || (x.responseHeard.Answered? && IsNoVerdict(x.responseHeard.reply, id, RESPONSE))
  }

  predicate Sound(config: Config, id: nat, x: Flight) {
    && (x.stage.Checking? || x.stage.Failing? || x.stage.Judged? ==> x.stage.phase == REQUEST || x.stage.phase == RESPONSE)
    && (x.stage.Judged? ==> Matches(Some(x.stage.v), id, x.stage.phase) && HeardIn(x, x.stage.phase) == Answered(Some(x.stage.v)))
    && (x.stage.Failing? ==> HeardIn(x, x.stage.phase).Answered? && IsNoVerdict(HeardIn(x, x.stage.phase).reply, id, x.stage.phase))
    && (PastRequest(x) ==> x.request.Some?)
    && (BeforeRequest(x) ==> x.request.None?)
    && (x.ran <==> x.request.Some?)
    && (x.request.Some? ==> Legitimate(config, id, REQUEST, x.request.value) && Passes(config, id, REQUEST, x.requestHeard))
    && (x.stage.Finished? && x.stage.end.Sent? ==> SentSoundly(config, id, x, x.stage.end.status))
    && (x.stage == Finished(Rejected("governance_blocked")) ==> config.mode == Enforce && BlockHeard(id, x))
    && (x.stage == Finished(Rejected("governance_unavailable")) ==> Strict(config) && FailureHeard(id, x))
  }

  lemma DecideSound(w: World, config: Config, id: nat)
    requires id in w.flights && Sound(config, id, w.flights[id])
    requires w.flights[id].stage.Judged? || w.flights[id].stage.Failing?
    ensures Sound(config, id, DecideStep(w, config, id).flights[id])
  {
  }

  lemma ReplySound(w: World, config: Config, id: nat, reply: Option<Verdict>)
    requires id in w.flights && Sound(config, id, w.flights[id]) && w.flights[id].stage.Checking?
    ensures Sound(config, id, ReplyStep(w, id, reply).flights[id])
  {
  }

  lemma NextSound(w: World, config: Config, step: Step)
    requires Enabled(w, step) && (step.id in w.flights ==> Sound(config, step.id, w.flights[step.id]))
    ensures step.id in Next(w, config, step).flights && Sound(config, step.id, Next(w, config, step).flights[step.id])
    ensures forall id :: id != step.id ==>
      (id in Next(w, config, step).flights <==> id in w.flights)
      && (id in w.flights ==> Next(w, config, step).flights[id] == w.flights[id])
  {
    if step.Decide? {
      DecideSound(w, config, step.id);
    } else if step.Reply? {
      ReplySound(w, config, step.id, step.reply);
    }
  }

  lemma {:induction false} FlightsSound(config: Config, steps: seq<Step>, id: nat)
    requires id in After(config, steps).flights
    ensures Sound(config, id, After(config, steps).flights[id])
    decreases |steps|
  {
    var before, step := After(config, steps[..|steps| - 1]), steps[|steps| - 1];
    if id in before.flights {
      FlightsSound(config, steps[..|steps| - 1], id);
    }
    if Enabled(before, step) {
      if step.id in before.flights {
        FlightsSound(config, steps[..|steps| - 1], step.id);
      }
      NextSound(before, config, step);
    }
  }

  /** Passed by a verdict of the right protocol on this exchange and phase that does not block. */
  predicate Cleared(pass: Option<Pass>, id: nat, phase: string) {
    && pass.Some? && pass.value.ByVerdict?
    && Matches(Some(pass.value.v), id, phase) && pass.value.v.action != Block
  }

  /** Enforcing without fail-open, a handler runs only after a verdict on its own request that does not
      block, and bytes leave only after a second one on its response. */
  lemma EnforcedTwice(config: Config, steps: seq<Step>, id: nat)
    requires Strict(config) && id in After(config, steps).flights
    ensures var x := After(config, steps).flights[id];
            && (x.ran ==> Cleared(x.request, id, REQUEST))
            && (x.stage.Finished? && x.stage.end.Sent? ==> x.ran && Cleared(x.response, id, RESPONSE))
  {
    FlightsSound(config, steps, id);
  }

  /** Enforcing, failing open or not: no handler runs and no bytes leave after a verdict that blocks, and without a
      verdict only when failing open; a refusal as blocked follows a verdict that blocks, one as unavailable the
      lack of one. */
  lemma EnforcedAlways(config: Config, steps: seq<Step>, id: nat)
    requires config.mode == Enforce && id in After(config, steps).flights
    ensures var x := After(config, steps).flights[id];
            && (x.ran ==> Passes(config, id, REQUEST, x.requestHeard))
            && (x.stage.Finished? && x.stage.end.Sent? ==> x.ran && Passes(config, id, RESPONSE, x.responseHeard))
            && (x.stage == Finished(Rejected("governance_blocked")) ==> BlockHeard(id, x))
            && (x.stage == Finished(Rejected("governance_unavailable")) ==> !config.failOpen && FailureHeard(id, x))
  {
    FlightsSound(config, steps, id);
  }

  predicate ReplyAmong(steps: seq<Step>, id: nat, heard: Heard) {
    heard.Answered? ==> exists i :: 0 <= i < |steps| && steps[i] == Reply(id, heard.reply)
  }

  lemma ReplyStays(steps: seq<Step>, step: Step, id: nat, heard: Heard)
    requires ReplyAmong(steps, id, heard)
    ensures ReplyAmong(steps + [step], id, heard)
  {
    if heard.Answered? {
      var i :| 0 <= i < |steps| && steps[i] == Reply(id, heard.reply);
      assert (steps + [step])[i] == Reply(id, heard.reply);
    }
  }

  lemma NextHeard(w: World, config: Config, step: Step, id: nat)
    requires Enabled(w, step) && id in Next(w, config, step).flights
    ensures var after := Next(w, config, step).flights[id];
            && (after.requestHeard == Nothing || (id in w.flights && after.requestHeard == w.flights[id].requestHeard)
                || (step.Reply? && step.id == id && after.requestHeard == Answered(step.reply)))
            && (after.responseHeard == Nothing || (id in w.flights && after.responseHeard == w.flights[id].responseHeard)
                || (step.Reply? && step.id == id && after.responseHeard == Answered(step.reply)))
  {
  }

  /** What an exchange heard is what the evaluator replied in the run. */
  lemma {:induction false} HeardInRun(config: Config, steps: seq<Step>, id: nat)
    requires id in After(config, steps).flights
    ensures ReplyAmong(steps, id, After(config, steps).flights[id].requestHeard)
    ensures ReplyAmong(steps, id, After(config, steps).flights[id].responseHeard)
    decreases |steps|
  {
    var n := |steps| - 1;
    var before, step := After(config, steps[..n]), steps[n];
    assert steps == steps[..n] + [step];
    if id in before.flights {
      HeardInRun(config, steps[..n], id);
      ReplyStays(steps[..n], step, id, before.flights[id].requestHeard);
      ReplyStays(steps[..n], step, id, before.flights[id].responseHeard);
    }
    if Enabled(before, step) {
      NextHeard(before, config, step, id);
      assert steps[n] == step;
    }
  }

  /** In a run, a reply and the decision on it come to one check: the same outcome and the same counts. */
  lemma ReplyThenDecide(w: World, config: Config, id: nat, reply: Option<Verdict>)
    requires id in w.flights && w.flights[id].stage.Checking?
    ensures var phase, after := w.flights[id].stage.phase, DecideStep(ReplyStep(w, id, reply), config, id);
            var outcome := CheckOutcome(config, id, phase, reply);
            && after.counters == Counted(w.counters, config, id, phase, reply)
            && (outcome.Refused? ==> after.flights[id].stage == Finished(Rejected(outcome.code)))
            && (outcome.Passed? && phase == REQUEST ==> after.flights[id].stage == Running && after.flights[id].ran)
            && (outcome.Passed? && phase != REQUEST ==> after.flights[id].stage.Finished? && after.flights[id].stage.end.Sent?)
  {
  }

  /** Outside enforcement the gate refuses nothing for what the evaluator says, or does not say. */
  lemma MonitorOnlyWatches(config: Config, steps: seq<Step>, id: nat)
    requires config.mode != Enforce && id in After(config, steps).flights
    ensures After(config, steps).flights[id].stage != Finished(Rejected("governance_blocked"))
    ensures After(config, steps).flights[id].stage != Finished(Rejected("governance_unavailable"))
  {
  }

  // ---- counters ----

  lemma IncrementCounts(n: nat)
    ensures Increment(n % U64_LIMIT) == (n + 1) % U64_LIMIT
  {
  }

  predicate Judging(x: Flight) {
    x.stage.Judged?
  }

  function JudgedIds(w: World): set<nat> {
    set id | id in w.flights && Judging(w.flights[id])
  }

  ghost predicate Tallied(w: World) {
    && w.counters.observed == w.observed % U64_LIMIT
    && w.counters.failures == w.failures % U64_LIMIT
    && w.counters.blocked == w.blocked % U64_LIMIT
    && w.observed + w.failures == w.replies
    && w.blocked + |JudgedIds(w)| <= w.observed
  }

  lemma TallyFew(w: World, id: nat, x: Flight)
    requires Tallied(w) && !Judging(x)
    ensures Tallied(w.(flights := w.flights[id := x]))
  {
    var after := w.(flights := w.flights[id := x]);
    assert JudgedIds(after) == JudgedIds(w) - {id};
  }

  lemma PutTallied(w: World, id: nat, x: Flight)
    requires Tallied(w) && !Judging(x)
    ensures Tallied(Put(w, id, x))
  {
    TallyFew(w, id, x);
    assert JudgedIds(Put(w, id, x)) == JudgedIds(w.(flights := w.flights[id := x]));
  }

  lemma ReplyTallied(w: World, id: nat, reply: Option<Verdict>)
    requires Tallied(w) && id in w.flights && w.flights[id].stage.Checking?
    ensures Tallied(ReplyStep(w, id, reply))
  {
    var after := ReplyStep(w, id, reply);
    IncrementCounts(w.observed);
    IncrementCounts(w.failures);
    assert JudgedIds(after) == if Matches(reply, id, w.flights[id].stage.phase) then JudgedIds(w) + {id} else JudgedIds(w);
  }

  lemma DecideTallied(w: World, config: Config, id: nat)
    requires Tallied(w) && id in w.flights && (w.flights[id].stage.Judged? || w.flights[id].stage.Failing?)
    ensures Tallied(DecideStep(w, config, id))
  {
    var after := DecideStep(w, config, id);
    IncrementCounts(w.blocked);
    assert JudgedIds(after) == JudgedIds(w) - {id};
    if w.flights[id].stage.Judged? {
      assert id in JudgedIds(w);
    }
  }

  lemma NextTallied(w: World, config: Config, step: Step)
    requires Tallied(w) && Enabled(w, step)
    ensures Tallied(Next(w, config, step))
  {
    match step
    case Arrive(id, kind) =>
      assert JudgedIds(ArriveStep(w, id, kind)) == JudgedIds(w);
    case Reply(id, reply) => ReplyTallied(w, id, reply);
    case Decide(id) => DecideTallied(w, config, id);
    case _ => PutTallied(w, step.id, Next(w, config, step).flights[step.id]);
  }

  /** Each reply to a check counts once, as observed or as failed; a block counts among the observed. */
  lemma {:induction false} ChecksCountedOnce(config: Config, steps: seq<Step>)
    ensures Tallied(After(config, steps))
  {
    if steps != [] {
      var before, step := After(config, steps[..|steps| - 1]), steps[|steps| - 1];
      ChecksCountedOnce(config, steps[..|steps| - 1]);
      if Enabled(before, step) {
        NextTallied(before, config, step);
      }
    } else {
      assert JudgedIds(After(config, steps)) == {};
    }
  }

  /** So until a counter wraps, the exported counts satisfy blocked <= observed. */
  lemma BlockedAtMostObserved(config: Config, steps: seq<Step>)
    requires After(config, steps).replies < U64_LIMIT
    ensures var w := After(config, steps);
            && w.counters.blocked <= w.counters.observed
            && w.counters.observed + w.counters.failures == w.replies
  {
    ChecksCountedOnce(config, steps);
    UnwrappedCounts(After(config, steps));
  }

  lemma UnwrappedCounts(w: World)
    requires Tallied(w) && w.replies < U64_LIMIT
    ensures w.counters.blocked <= w.counters.observed && w.counters.observed + w.counters.failures == w.replies
  {
  }
}
