/** The peripheral-session slot of one AARNN network, shared by concurrent mirrors (`src/aarnn_bridge.rs`). */
module Sessions {
  import opened Common

  /** Seconds. */
  const SESSION_TTL: nat := 900
  const REFRESH_MARGIN: nat := 60
  const UNSUPPORTED_TTL: nat := 60
  const FAILURE_TTL: nat := 5

  datatype Slot =
    | Empty
    | Active(id: string, expiresAt: int)
    | Unsupported(until: int)
    | Failed(until: int)

  /** What the remote end made of a creation request. */
  datatype Reply = Created(id: string, expiresAtUnix: Option<nat>) | Refused | TransientFailure

  /** Lifetime of a fresh session: to its absolute expiry when given, and never beyond the cap. */
  function SessionLifetime(expiresAtUnix: Option<nat>, requestedUnix: nat): (seconds: nat)
    ensures seconds <= SESSION_TTL
    ensures expiresAtUnix.Some? && requestedUnix <= expiresAtUnix.value ==>
      requestedUnix + seconds <= expiresAtUnix.value && (seconds < SESSION_TTL ==> requestedUnix + seconds == expiresAtUnix.value)
    ensures expiresAtUnix.Some? && expiresAtUnix.value < requestedUnix ==> seconds == 0
    ensures expiresAtUnix.None? ==> seconds == SESSION_TTL
  {
    if expiresAtUnix.None? then SESSION_TTL
    else if expiresAtUnix.value <= requestedUnix then 0
    else Min(expiresAtUnix.value - requestedUnix, SESSION_TTL)
  }

  /** What is cached once the reply is in. */
  function Stored(reply: Reply, requestedUnix: nat, now: int): Slot {
    match reply
    case Created(id, expiry) => Active(id, now + SessionLifetime(expiry, requestedUnix))
    case Refused => Unsupported(now + UNSUPPORTED_TTL)
    case TransientFailure => Failed(now + FAILURE_TTL)
  }

  /** The cached outcome no longer answers a caller at `now`. */
  predicate NeedsCreation(slot: Slot, now: int) {
    match slot
    case Empty => true
    case Active(_, expiresAt) => expiresAt - now <= REFRESH_MARGIN
    case Unsupported(until) => until <= now
    case Failed(until) => until <= now
  }

  /** How long an outcome answers later callers: a session until a minute before it is believed to expire, a refusal
      for a minute, a failure for five seconds. */
  lemma OutcomeAnswersFor(reply: Reply, requestedUnix: nat, now: int, later: int)
    ensures NeedsCreation(Stored(reply, requestedUnix, now), later) <==>
      match reply
      case Created(_, None) => later >= now + 840
      case Created(_, Some(expiry)) =>
        later >= now + (if expiry < requestedUnix then 0 else Min(expiry - requestedUnix, 900)) - 60
      case Refused => later >= now + 60
      case TransientFailure => later >= now + 5
  {
  }

  function SessionId(slot: Slot): Option<string> {
    if slot.Active? then Some(slot.id) else None
  }

  /** Whether a rejection of `stale` clears what is cached. */
  predicate Clears(slot: Slot, stale: Option<string>) {
    match slot
    case Active(id, _) => stale == Some(id)
    case Unsupported(_) => false
    case Failed(_) => true
    case Empty => true
  }

  // ---- one mirror ----

  /** Outcome of one POST of the mirror request. */
  datatype Attempt = Accepted | Rejected(retryable: bool, sessionError: bool)

  function MaxAttempts(configured: nat): nat {
    if configured < 1 then 1 else configured
  }

  /** The attempt loop is over once a POST is accepted, is final, or was the last one allowed. */
  predicate Final(a: Attempt, attempt: nat, maxAttempts: nat) {
    a.Accepted? || !a.retryable || attempt >= maxAttempts
  }

  class SessionSlot {
    var slot: Slot

    constructor ()
      ensures slot == Empty
    {
      slot := Empty;
    }

    /** Held under the slot's lock: reuses the cached outcome or creates and caches a new one. */
    method PeripheralSession(now: int, reply: Reply, requestedUnix: nat, storedAt: int)
      returns (id: Option<string>, created: bool)
      modifies this
      ensures created <==> NeedsCreation(old(slot), now)
      ensures slot == if created then Stored(reply, requestedUnix, storedAt) else old(slot)
      ensures id == SessionId(slot)
    {
      match slot {
        case Active(cached, expiresAt) =>
          if expiresAt - now > REFRESH_MARGIN { return Some(cached), false; }
        case Unsupported(until) =>
          if until > now { return None, false; }
        case Failed(until) =>
          if until > now { return None, false; }
        case Empty =>
      }
      slot := Stored(reply, requestedUnix, storedAt);
      return if reply.Created? then Some(reply.id) else None, true;
    }

    /** Drops what is cached, but an active session only if it is the rejected one. */
    method Invalidate(stale: Option<string>)
      modifies this
      ensures slot == if Clears(old(slot), stale) then Empty else old(slot)
    {
      var clear := match slot
        case Active(id, _) => stale.Some? && id == stale.value
        case Unsupported(_) => false
        case _ => true;
      if clear {
        slot := Empty;
      }
    }
  }

  /** Posts until an outcome is final; `outcomes(k)` is what the (k+1)-th POST meets. */
  method MirrorWithRetries(configured: nat, outcomes: nat -> Attempt) returns (result: Attempt, posts: nat)
    ensures 1 <= posts && (posts == 1 || posts <= configured)
    ensures result == outcomes(posts - 1)
    ensures result.Accepted? || !result.retryable || posts >= configured
    ensures forall k :: 0 <= k < posts - 1 ==> outcomes(k).Rejected? && outcomes(k).retryable
  {
    var maxAttempts := MaxAttempts(configured);
    posts := 0;
    while true
      invariant 0 <= posts < maxAttempts
      invariant forall k :: 0 <= k < posts ==> !Final(outcomes(k), k + 1, maxAttempts)
      decreases maxAttempts - posts
    {
      result := outcomes(posts);
      posts := posts + 1;
      if Final(result, posts, maxAttempts) {
        return;
      }
    }
  }

  /** Back-off before retry `index`, in milliseconds. */
  function RetryDelay(base: nat, max: nat, index: nat): (delay: nat)
  {
    var expanded := base * Doubling(if index < 8 then index else 8);
    if expanded > max then max else expanded
  }

  function Doubling(n: nat): (p: nat)
    ensures p >= 1
  {
    if n == 0 then 1 else 2 * Doubling(n - 1)
  }

  /** Delays start at the base, double with each of the first eight retries up to the cap, and then stay. */
  lemma RetryDelayDoubles(base: nat, max: nat, index: nat)
    requires base <= max
    ensures RetryDelay(base, max, 0) == base
    ensures RetryDelay(base, max, index + 1) ==
      if index < 8 then Min(2 * RetryDelay(base, max, index), max) else RetryDelay(base, max, index)
    ensures base <= RetryDelay(base, max, index) <= RetryDelay(base, max, index + 1) <= max
  {
    var p := Doubling(if index < 8 then index else 8);
    Twice(base, p);
    AtLeastOnce(base, p);
  }

  lemma Twice(base: nat, p: nat)
    ensures base * (2 * p) == 2 * (base * p)
  {
  }

  lemma AtLeastOnce(base: nat, p: nat)
    requires p >= 1
    ensures base <= base * p
  {
  }

  // ---- any number of mirrors ----

  /** Where a mirror stands; `round` is 1 before and 2 after a rejected session. */
  datatype Stage =
    | WaitsForSlot(round: int)
    | Creating(round: int)
    | Posting(round: int, session: Option<string>, attempt: nat)
    | Invalidating(session: Option<string>)
    | Done

  datatype Mirror = Mirror(stage: Stage, creations: nat, posts: nat)

  /** A post of mirror `m`, sent under `session`, that came back as a session error. */
  datatype Rejection = Rejection(m: nat, session: Option<string>)

  /** What happened to the slot, in order; a clearing comes with the mirror that asked for it and the number of
      rejections there were by then. */
  datatype Event =
    | CreationStarted(now: int, found: Slot)
    | OutcomeStored(slot: Slot)
    | SlotCleared(found: Slot, stale: Option<string>, asker: nat, rejected: nat)

  /** The slot's lock is held across a creation; `mirrors` are those on this network. */
  datatype Network = Network(
    slot: Slot, holder: Option<nat>, mirrors: map<nat, Mirror>, log: seq<Event>, rejections: seq<Rejection>)

  datatype Step =
    | Start(m: nat)
    | TakeSlot(m: nat, now: int)
    | FinishCreation(m: nat, reply: Reply, requestedUnix: nat, now: int)
    | Post(m: nat, outcome: Attempt)
    | Invalidate(m: nat)
    | Abandon(m: nat)

  /** After the slot answered: post, or give up where a second round got no session. */
  function AfterSlot(round: int, session: Option<string>): Stage {
    if round == 2 && session.None? then Done else Posting(round, session, 0)
  }

  function AfterPost(stage: Stage, outcome: Attempt, maxAttempts: nat): Stage
    requires stage.Posting?
  {
    if !Final(outcome, stage.attempt + 1, maxAttempts) then stage.(attempt := stage.attempt + 1)
    else if outcome.Rejected? && outcome.sessionError && stage.round == 1 then Invalidating(stage.session)
    else Done
  }

  /** A step that can be taken in `n`. */
  predicate Enabled(n: Network, step: Step) {
    if step.Start? then step.m !in n.mirrors
    else
      && step.m in n.mirrors
      && var stage := n.mirrors[step.m].stage;
         match step
         case TakeSlot(_, _) => stage.WaitsForSlot? && n.holder.None?
         case FinishCreation(_, _, _, _) => stage.Creating?
         case Post(_, _) => stage.Posting?
         case Invalidate(_) => stage.Invalidating? && n.holder.None?
         case Abandon(_) => true
  }

  function NextMirror(n: Network, step: Step, maxAttempts: nat): Mirror
    requires Enabled(n, step)
  {
    if step.Start? then Mirror(WaitsForSlot(1), 0, 0)
    else
      var m := n.mirrors[step.m];
      match step
      case TakeSlot(_, now) =>
        if NeedsCreation(n.slot, now) then m.(stage := Creating(m.stage.round), creations := m.creations + 1)
        else m.(stage := AfterSlot(m.stage.round, SessionId(n.slot)))
      case FinishCreation(_, reply, requestedUnix, now) =>
        m.(stage := AfterSlot(m.stage.round, SessionId(Stored(reply, requestedUnix, now))))
      case Post(_, outcome) => m.(stage := AfterPost(m.stage, outcome, maxAttempts), posts := m.posts + 1)
      case Invalidate(_) => m.(stage := WaitsForSlot(2))
      case Abandon(_) => m.(stage := Done)
  }

  function NextSlot(n: Network, step: Step): Slot
    requires Enabled(n, step)
  {
    match step
    case FinishCreation(_, reply, requestedUnix, now) => Stored(reply, requestedUnix, now)
    case Invalidate(i) => if Clears(n.slot, n.mirrors[i].stage.session) then Empty else n.slot
    case _ => n.slot
  }

  function NextHolder(n: Network, step: Step): Option<nat>
    requires Enabled(n, step)
  {
    match step
    case TakeSlot(i, now) => if NeedsCreation(n.slot, now) then Some(i) else None
    case FinishCreation(_, _, _, _) => None
    case Abandon(i) => if n.holder == Some(i) then None else n.holder
    case _ => n.holder
  }

  function NextEvents(n: Network, step: Step): seq<Event>
    requires Enabled(n, step)
  {
    match step
    case TakeSlot(_, now) => if NeedsCreation(n.slot, now) then [CreationStarted(now, n.slot)] else []
    case FinishCreation(_, _, _, _) => [OutcomeStored(NextSlot(n, step))]
    case Invalidate(i) =>
      var stale := n.mirrors[i].stage.session;
      if Clears(n.slot, stale) then [SlotCleared(n.slot, stale, i, |n.rejections|)] else []
    case _ => []
  }

  function NextRejections(n: Network, step: Step): seq<Rejection>
    requires Enabled(n, step)
  {
    if step.Post? && step.outcome.Rejected? && step.outcome.sessionError
    then [Rejection(step.m, n.mirrors[step.m].stage.session)] else []
  }

  function Apply(n: Network, step: Step, maxAttempts: nat): Network
    requires Enabled(n, step)
  {
    Network(NextSlot(n, step), NextHolder(n, step), n.mirrors[step.m := NextMirror(n, step, maxAttempts)],
            n.log + NextEvents(n, step), n.rejections + NextRejections(n, step))
  }

  /** The network after a run: a step that cannot be taken where it stands does not happen. */
  function After(steps: seq<Step>, maxAttempts: nat): Network {
    if steps == [] then Network(Empty, None, map[], [], [])
    else
      var before, step := After(steps[..|steps| - 1], maxAttempts), steps[|steps| - 1];
      if Enabled(before, step) then Apply(before, step, maxAttempts) else before
  }

  /** A post that is rejected for now is sent again under the same session while attempts are left; a session error
      that stays clears that session, and the mirror starts over with the one created in its place. */
  lemma RejectedSessionReplaced(n: Network, m: nat, max: nat, id: string, reply: Reply, requestedUnix: nat, now: int, later: int)
    requires m in n.mirrors && n.holder.None? && n.slot.Active? && n.slot.id == id && reply.Created?
    requires n.mirrors[m].stage.Posting? && n.mirrors[m].stage.round == 1 && n.mirrors[m].stage.session == Some(id)
    ensures var stage, again := n.mirrors[m].stage, Post(m, Rejected(true, true));
            stage.attempt + 1 < max ==> Apply(n, again, max).mirrors[m].stage == stage.(attempt := stage.attempt + 1)
    ensures var rejected := Apply(n, Post(m, Rejected(false, true)), max);
            && Enabled(rejected, Invalidate(m))
            && var cleared := Apply(rejected, Invalidate(m), max);
               && cleared.slot == Empty && Enabled(cleared, TakeSlot(m, now))
               && var creating := Apply(cleared, TakeSlot(m, now), max);
                  && Enabled(creating, FinishCreation(m, reply, requestedUnix, later))
                  && var ready := Apply(creating, FinishCreation(m, reply, requestedUnix, later), max);
                     ready.mirrors[m].stage == Posting(2, Some(reply.id), 0) && SessionId(ready.slot) == Some(reply.id)
  {
  }

  // ---- what every run keeps ----

  function SlotAfter(log: seq<Event>): Slot {
    if log == [] then Empty
    else match log[|log| - 1]
      case CreationStarted(_, _) => SlotAfter(log[..|log| - 1])
      case OutcomeStored(slot) => slot
      case SlotCleared(_, _, _, _) => Empty
  }

  /** Every creation found an outcome that called for one, every clearing one that the rejection named. */
  predicate LogSound(log: seq<Event>) {
    log == [] || (
      && LogSound(log[..|log| - 1])
      && var found := SlotAfter(log[..|log| - 1]);
         match log[|log| - 1]
         case CreationStarted(now, f) => f == found && NeedsCreation(f, now)
         case OutcomeStored(slot) => slot != Empty
         case SlotCleared(f, stale, _, _) => f == found && Clears(f, stale))
  }

  /** Creations and posts of one mirror, by stage. */
  predicate WithinBudget(m: Mirror, max: nat) {
    var earlier := if m.stage.Done? || m.stage.Invalidating? || m.stage.round == 1 then 0 else max;
    match m.stage
    case WaitsForSlot(round) => 1 <= round <= 2 && m.creations <= round - 1 && m.posts <= earlier
    case Creating(round) => 1 <= round <= 2 && m.creations <= round && m.posts <= earlier
    case Posting(round, _, attempt) =>
      1 <= round <= 2 && m.creations <= round && attempt < max && m.posts <= attempt + earlier
    case Invalidating(_) => m.creations <= 1 && m.posts <= max
    case Done => m.creations <= 2 && m.posts <= 2 * max
  }

  lemma BudgetKept(n: Network, step: Step, max: nat)
    requires max >= 1 && Enabled(n, step)
    requires step.Start? || WithinBudget(n.mirrors[step.m], max)
    ensures WithinBudget(NextMirror(n, step, max), max)
  {
  }

  lemma LogKept(n: Network, step: Step)
    requires n.slot == SlotAfter(n.log) && LogSound(n.log) && Enabled(n, step)
    ensures NextSlot(n, step) == SlotAfter(n.log + NextEvents(n, step))
    ensures LogSound(n.log + NextEvents(n, step))
  {
    var events := NextEvents(n, step);
    if events == [] {
      assert n.log + events == n.log;
    } else {
      assert (n.log + events)[..|n.log + events| - 1] == n.log;
    }
  }

  ghost predicate Invariant(n: Network, max: nat) {
    && n.slot == SlotAfter(n.log) && LogSound(n.log)
    && (forall i :: i in n.mirrors ==> WithinBudget(n.mirrors[i], max))
    && (forall i :: i in n.mirrors && n.mirrors[i].stage.Creating? ==> n.holder == Some(i))
    && (n.holder.Some? ==> CreationUnderWay(n))
  }

  /** While the lock is held nothing touches the slot: the last event is the holder's finding. */
  predicate CreationUnderWay(n: Network) {
    && n.log != []
    && var last := n.log[|n.log| - 1];
       last.CreationStarted? && last.found == n.slot && NeedsCreation(n.slot, last.now)
  }

  lemma ApplyKeeps(n: Network, step: Step, max: nat)
    requires max >= 1 && Invariant(n, max) && Enabled(n, step)
    ensures Invariant(Apply(n, step, max), max)
  {
    var after := Apply(n, step, max);
    LogKept(n, step);
    HolderKept(n, step, max);
    forall i | i in after.mirrors ensures WithinBudget(after.mirrors[i], max) {
      if i == step.m {
        BudgetKept(n, step, max);
      }
    }
  }

  lemma HolderKept(n: Network, step: Step, max: nat)
    requires Enabled(n, step)
    requires forall i :: i in n.mirrors && n.mirrors[i].stage.Creating? ==> n.holder == Some(i)
    requires n.holder.Some? ==> CreationUnderWay(n)
    ensures var after := Apply(n, step, max);
            && (forall i :: i in after.mirrors && after.mirrors[i].stage.Creating? ==> after.holder == Some(i))
            && (after.holder.Some? ==> CreationUnderWay(after))
  {
  }

  lemma {:induction false} InvariantHolds(steps: seq<Step>, max: nat)
    requires max >= 1
    ensures Invariant(After(steps, max), max)
  {
    if steps == [] {
    } else {
      var before, step := After(steps[..|steps| - 1], max), steps[|steps| - 1];
      InvariantHolds(steps[..|steps| - 1], max);
      if Enabled(before, step) {
        ApplyKeeps(before, step, max);
      }
    }
  }

  /** In every run a mirror makes at most two creations and two rounds of posts, and no two mirrors
      create at the same time. */
  lemma MirrorBudget(steps: seq<Step>, configured: nat, i: nat, j: nat)
    requires var n := After(steps, MaxAttempts(configured)); i in n.mirrors && j in n.mirrors
    ensures var n := After(steps, MaxAttempts(configured));
            && n.mirrors[i].creations <= 2 && n.mirrors[i].posts <= 2 * MaxAttempts(configured)
            && (n.mirrors[i].stage.Creating? && n.mirrors[j].stage.Creating? ==> i == j)
  {
    InvariantHolds(steps, MaxAttempts(configured));
  }

  // ---- why a creation happened ----

  /** Index of the latest outcome stored in a log, or -1. */
  function LatestOutcome(log: seq<Event>): (k: int)
    ensures -1 <= k < |log|
    ensures k >= 0 ==> log[k].OutcomeStored?
  {
    if log == [] then -1
    else if log[|log| - 1].OutcomeStored? then |log| - 1
    else LatestOutcome(log[..|log| - 1])
  }

  /** A rejection that may clear an outcome: of the very session, or any while a failure is backing off. */
  predicate ClearedBy(outcome: Slot, stale: Option<string>) {
    (outcome.Active? && stale == Some(outcome.id)) || outcome.Failed?
  }

  /** Since it was stored, the outcome at `k` has been cleared. */
  ghost predicate Cleared(log: seq<Event>, k: nat, outcome: Slot) {
    exists j :: k < j < |log| && log[j].SlotCleared? && log[j].found == outcome && ClearedBy(outcome, log[j].stale)
  }

  /** The slot holds the latest outcome until a rejection clears it. */
  lemma {:induction false} SlotIsLatestOutcome(log: seq<Event>)
    requires LogSound(log)
    ensures var k := LatestOutcome(log);
            if k < 0 then SlotAfter(log) == Empty
            else SlotAfter(log) == log[k].slot || (SlotAfter(log) == Empty && Cleared(log, k, log[k].slot))
    decreases |log|
  {
    if log != [] && !log[|log| - 1].OutcomeStored? {
      var last := |log| - 1;
      var earlier := log[..last];
      SlotIsLatestOutcome(earlier);
      var k := LatestOutcome(log);
      if k >= 0 && SlotAfter(log) == Empty {
        if SlotAfter(earlier) == earlier[k].slot {
          StoredNotEmpty(log, k);
          assert log[last].found == log[k].slot && ClearedBy(log[k].slot, log[last].stale);
        } else {
          var j :| k < j < |earlier| && earlier[j].SlotCleared? && earlier[j].found == earlier[k].slot
            && ClearedBy(earlier[k].slot, earlier[j].stale);
          assert log[j] == earlier[j];
        }
      }
    }
  }

  lemma {:induction false} StoredNotEmpty(log: seq<Event>, k: nat)
    requires LogSound(log) && k < |log| && log[k].OutcomeStored?
    ensures log[k].slot != Empty
    decreases |log|
  {
    if k < |log| - 1 {
      StoredNotEmpty(log[..|log| - 1], k);
    }
  }

  lemma {:induction false} LogPrefixSound(log: seq<Event>, k: nat)
    requires LogSound(log) && k <= |log|
    ensures LogSound(log[..k])
    decreases |log|
  {
    if k < |log| {
      LogPrefixSound(log[..|log| - 1], k);
      assert log[..|log| - 1][..k] == log[..k];
    } else {
      assert log[..k] == log;
    }
  }

  // ---- what clears an outcome ----

  /** Among the first `limit` rejections is one of a post of mirror `m` under `session`. */
  ghost predicate WasRejected(rejections: seq<Rejection>, limit: nat, m: nat, session: Option<string>) {
    exists k :: 0 <= k < limit && k < |rejections| && rejections[k] == Rejection(m, session)
  }

  ghost predicate ClearingFollows(e: Event, rejections: seq<Rejection>) {
    e.SlotCleared? ==> e.rejected <= |rejections| && WasRejected(rejections, e.rejected, e.asker, e.stale)
  }

  /** A mirror about to invalidate had a post rejected under the very id it names, and every clearing followed
      such a rejection. */
  ghost predicate RejectionsBehind(n: Network) {
    && (forall i :: i in n.mirrors && n.mirrors[i].stage.Invalidating? ==>
          WasRejected(n.rejections, |n.rejections|, i, n.mirrors[i].stage.session))
    && (forall j :: 0 <= j < |n.log| ==> ClearingFollows(n.log[j], n.rejections))
  }

  lemma WasRejectedStays(rejections: seq<Rejection>, more: seq<Rejection>, limit: nat, m: nat, session: Option<string>)
    requires WasRejected(rejections, limit, m, session)
    ensures WasRejected(rejections + more, limit, m, session)
    ensures WasRejected(rejections + more, |rejections + more|, m, session)
  {
    var k :| 0 <= k < limit && k < |rejections| && rejections[k] == Rejection(m, session);
    assert (rejections + more)[k] == Rejection(m, session);
  }

  lemma MirrorFollows(n: Network, step: Step, max: nat, i: nat)
    requires RejectionsBehind(n) && Enabled(n, step)
    requires i in Apply(n, step, max).mirrors && Apply(n, step, max).mirrors[i].stage.Invalidating?
    ensures var after := Apply(n, step, max);
            WasRejected(after.rejections, |after.rejections|, i, after.mirrors[i].stage.session)
  {
    var after := Apply(n, step, max);
    if i == step.m && step.Post? {
      assert after.rejections[|n.rejections|] == Rejection(i, after.mirrors[i].stage.session);
    } else {
      WasRejectedStays(n.rejections, NextRejections(n, step), |n.rejections|, i, after.mirrors[i].stage.session);
    }
  }

  lemma ClearingsFollow(n: Network, step: Step, max: nat, j: nat)
    requires RejectionsBehind(n) && Enabled(n, step) && j < |Apply(n, step, max).log|
    ensures ClearingFollows(Apply(n, step, max).log[j], Apply(n, step, max).rejections)
  {
    var e := Apply(n, step, max).log[j];
    if e.SlotCleared? {
      if j < |n.log| {
        assert ClearingFollows(n.log[j], n.rejections);
      }
      WasRejectedStays(n.rejections, NextRejections(n, step), e.rejected, e.asker, e.stale);
    }
  }

  lemma {:induction false} RejectionsAlwaysBehind(steps: seq<Step>, max: nat)
    ensures RejectionsBehind(After(steps, max))
  {
    if steps == [] {
    } else {
      var before, step := After(steps[..|steps| - 1], max), steps[|steps| - 1];
      RejectionsAlwaysBehind(steps[..|steps| - 1], max);
      if Enabled(before, step) {
        var after := Apply(before, step, max);
        forall i | i in after.mirrors && after.mirrors[i].stage.Invalidating?
          ensures WasRejected(after.rejections, |after.rejections|, i, after.mirrors[i].stage.session)
        {
          MirrorFollows(before, step, max, i);
        }
        forall j | 0 <= j < |after.log| ensures ClearingFollows(after.log[j], after.rejections) {
          ClearingsFollow(before, step, max, j);
        }
      }
    }
  }

  /** Between the outcome at `k` and event `i` it was cleared, on behalf of a mirror whose post had been rejected
      before that under the session it named. */
  ghost predicate ClearedOnRejection(n: Network, k: nat, i: nat, outcome: Slot) {
    exists j :: k < j < i && j < |n.log| && n.log[j].SlotCleared? && n.log[j].found == outcome
      && ClearedBy(outcome, n.log[j].stale) && ClearingFollows(n.log[j], n.rejections)
  }

  /** In every run, a creation happens only when there is no earlier outcome, when the latest one is a
      session within 60 s of expiry or a back-off that has elapsed, or when the latest one was cleared
      after it was stored, following a rejected post: a session by one sent under its own id, a failure's
      back-off by any. */
  lemma CreationsJustified(steps: seq<Step>, configured: nat, i: nat)
    requires var log := After(steps, MaxAttempts(configured)).log; i < |log| && log[i].CreationStarted?
    ensures var n := After(steps, MaxAttempts(configured));
            var k := LatestOutcome(n.log[..i]);
            k >= 0 ==>
              var outcome := n.log[k].slot;
              || (outcome.Active? && outcome.expiresAt - n.log[i].now <= REFRESH_MARGIN)
              || ((outcome.Unsupported? || outcome.Failed?) && outcome.until <= n.log[i].now)
              || ClearedOnRejection(n, k, i, outcome)
  {
    InvariantHolds(steps, MaxAttempts(configured));
    var n := After(steps, MaxAttempts(configured));
    var log := n.log;
    LogPrefixSound(log, i + 1);
    assert log[..i + 1][..i] == log[..i] && log[..i + 1][i] == log[i];
    SlotIsLatestOutcome(log[..i]);
    var k := LatestOutcome(log[..i]);
    if k >= 0 {
      StoredNotEmpty(log, k);
      RejectionsAlwaysBehind(steps, MaxAttempts(configured));
      ClearedFollowsRejection(n, i, k);
    }
  }

  lemma ClearedFollowsRejection(n: Network, i: nat, k: nat)
    requires RejectionsBehind(n) && k < i < |n.log| && n.log[k].OutcomeStored?
    ensures Cleared(n.log[..i], k, n.log[k].slot) ==> ClearedOnRejection(n, k, i, n.log[k].slot)
  {
    var outcome, log := n.log[k].slot, n.log[..i];
    if Cleared(log, k, outcome) {
      var j :| k < j < |log| && log[j].SlotCleared? && log[j].found == outcome && ClearedBy(outcome, log[j].stale);
      assert n.log[j] == log[j] && ClearingFollows(n.log[j], n.rejections);
    }
  }

  /** An active session leaves the slot only through a rejection of that very session or a creation
      begun within 60 s of its expiry: one that replaced a rejected session in the meantime stays. */
  lemma NewerSessionKept(steps: seq<Step>, configured: nat, step: Step)
    requires var n := After(steps, MaxAttempts(configured)); Enabled(n, step) && n.slot.Active?
    ensures var n := After(steps, MaxAttempts(configured));
            NextSlot(n, step) != n.slot ==>
              || (step.Invalidate? && n.mirrors[step.m].stage.session == Some(n.slot.id))
              || (step.FinishCreation? && CreationUnderWay(n))
  {
    InvariantHolds(steps, MaxAttempts(configured));
  }
}
