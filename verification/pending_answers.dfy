/** Answers that were not ready in time and wait for the user to say yes (`src/alexa.rs`). */
module PendingAnswers {
  import opened Common

  const MAX_PENDING_ANSWERS: nat := 64
  const MAX_HISTORY_TURNS: nat := 3
  const MAX_HISTORY_CHARS: nat := 400

  /** How long a stored answer may be asked for, in milliseconds. */
  const PENDING_ANSWER_TTL: int := 120_000

  datatype Turn = Turn(q: string, a: string)

  /** A running completion, with the question and the history it was asked with. */
  datatype Entry = Entry(handle: nat, query: string, history: seq<Turn>, created: int)

  /** The pending map and the completions aborted so far. */
  datatype Store = Store(pending: map<string, Entry>, aborted: set<nat>)

  predicate Live(entry: Entry, now: int) {
    now - entry.created < PENDING_ANSWER_TTL
  }

  function Handles(pending: map<string, Entry>): set<nat> {
    set k | k in pending :: pending[k].handle
  }

  function Expire(s: Store, now: int): Store {
    Store(map k | k in s.pending && Live(s.pending[k], now) :: s.pending[k],
          s.aborted + set k | k in s.pending && !Live(s.pending[k], now) :: s.pending[k].handle)
  }

  function CreatedAt(entry: Entry): int {
    entry.created
  }

  /** A full map gives up one of its oldest entries; which, when ages tie, is left open. */
  function MakeRoom(s: Store, victim: string): Store
    requires victim in s.pending || |s.pending| < MAX_PENDING_ANSWERS
  {
    if |s.pending| < MAX_PENDING_ANSWERS then s
    else Store(s.pending - {victim}, s.aborted + {s.pending[victim].handle})
  }

  function Insert(s: Store, session: string, entry: Entry): Store {
    Store(s.pending[session := entry],
          s.aborted + if session in s.pending then {s.pending[session].handle} else {})
  }

  predicate MayEvict(s: Store, now: int, victim: string) {
    |Expire(s, now).pending| < MAX_PENDING_ANSWERS || Oldest(Expire(s, now).pending, CreatedAt, victim)
  }

  function Stored(s: Store, session: string, entry: Entry, now: int, victim: string): Store
    requires MayEvict(s, now, victim)
  {
    Insert(MakeRoom(Expire(s, now), victim), session, entry)
  }

  /** `take_pending`: the entry leaves the map, and is handed out only while it is live. */
  function Taken(s: Store, session: Option<string>, now: int): Option<Entry> {
    if session.Some? && session.value in s.pending && Live(s.pending[session.value], now)
    then Some(s.pending[session.value]) else None
  }

  function Remaining(s: Store, session: Option<string>): Store {
    if session.None? then s else s.(pending := s.pending - {session.value})
  }

  function Cleared(s: Store, session: Option<string>, now: int): Store {
    var taken, rest := Taken(s, session, now), Remaining(s, session);
    if taken.Some? then rest.(aborted := rest.aborted + {taken.value.handle}) else rest
  }

  class Runtime {
    var pending: map<string, Entry>
    var aborted: set<nat>

    constructor ()
      ensures State() == Store(map[], {})
    {
      pending, aborted := map[], {};
    }

    function State(): Store
      reads this
    {
      Store(pending, aborted)
    }

    method Retain(now: int)
      modifies this
      ensures State() == Expire(old(State()), now)
    {
      var unseen := pending.Keys;
      var before := pending;
      while unseen != {}
        invariant unseen <= before.Keys
        invariant pending == map k | k in before && (k in unseen || Live(before[k], now)) :: before[k]
        invariant aborted == old(aborted) + set k | k in before && k !in unseen && !Live(before[k], now) :: before[k].handle
        decreases unseen
      {
        var k :| k in unseen;
        unseen := unseen - {k};
        if !Live(before[k], now) {
          aborted := aborted + {before[k].handle};
          pending := pending - {k};
        }
      }
    }

    method StorePending(session: string, entry: Entry, now: int) returns (ghost victim: string)
      modifies this
      ensures MayEvict(old(State()), now, victim)
      ensures State() == Stored(old(State()), session, entry, now, victim)
    {
      Retain(now);
      victim := session;
      if |pending| >= MAX_PENDING_ANSWERS {
        ghost var some := OldestExists(pending, CreatedAt);
        var oldest :| oldest in pending && Oldest(pending, CreatedAt, oldest);
        victim := oldest;
        aborted := aborted + {pending[oldest].handle};
        pending := pending - {oldest};
      }
      if session in pending {
        aborted := aborted + {pending[session].handle};
      }
      pending := pending[session := entry];
    }

    method TakePending(session: Option<string>, now: int) returns (entry: Option<Entry>)
      modifies this
      ensures entry == Taken(old(State()), session, now)
      ensures State() == Remaining(old(State()), session)
    {
      if session.None? {
        return None;
      }
      entry := None;
      if session.value in pending && Live(pending[session.value], now) {
        entry := Some(pending[session.value]);
      }
      pending := pending - {session.value};
    }

    method ClearPending(session: Option<string>, now: int)
      modifies this
      ensures State() == Cleared(old(State()), session, now)
    {
      var entry := TakePending(session, now);
      if entry.Some? {
        aborted := aborted + {entry.value.handle};
      }
    }
  }

  // ---- one operation ----

  /** Every entry has its own completion, and none of them was aborted. */
  ghost predicate Separate(s: Store) {
    && (forall j, k :: j in s.pending && k in s.pending && s.pending[j].handle == s.pending[k].handle ==> j == k)
    && (forall k :: k in s.pending ==> s.pending[k].handle !in s.aborted)
  }

  /** The completions the store answers for. */
  function Held(s: Store): set<nat> {
    Handles(s.pending) + s.aborted
  }

  lemma ExpireKeeps(s: Store, now: int)
    requires Separate(s)
    ensures Separate(Expire(s, now)) && Held(Expire(s, now)) == Held(s)
  {
    var after := Expire(s, now);
    forall h | h in Held(s) ensures h in Held(after) {
      if h in Handles(s.pending) {
        var k :| k in s.pending && s.pending[k].handle == h;
        assert Live(s.pending[k], now) ==> k in after.pending;
      }
    }
  }

  lemma RemoveKeeps(s: Store, k: string)
    requires Separate(s) && k in s.pending
    ensures var after := Store(s.pending - {k}, s.aborted + {s.pending[k].handle});
            Separate(after) && Held(after) == Held(s)
  {
    var after := Store(s.pending - {k}, s.aborted + {s.pending[k].handle});
    forall h | h in Held(s) ensures h in Held(after) {
      if h in Handles(s.pending) {
        var j :| j in s.pending && s.pending[j].handle == h;
        assert j == k || j in after.pending;
      }
    }
  }

  lemma InsertFreshKeeps(s: Store, k: string, entry: Entry)
    requires Separate(s) && k !in s.pending && entry.handle !in Held(s)
    ensures var after := Store(s.pending[k := entry], s.aborted);
            Separate(after) && Held(after) == Held(s) + {entry.handle}
  {
    var after := Store(s.pending[k := entry], s.aborted);
    forall j | j in s.pending ensures s.pending[j].handle in Handles(s.pending) {
    }
    forall h | h in Handles(s.pending) ensures h in Handles(after.pending) {
      var j :| j in s.pending && s.pending[j].handle == h;
      assert after.pending[j] == s.pending[j];
    }
    assert after.pending[k] == entry;
  }

  lemma InsertKeeps(s: Store, session: string, entry: Entry)
    requires Separate(s) && entry.handle !in Held(s)
    ensures Separate(Insert(s, session, entry)) && Held(Insert(s, session, entry)) == Held(s) + {entry.handle}
  {
    if session in s.pending {
      RemoveKeeps(s, session);
      var without := Store(s.pending - {session}, s.aborted + {s.pending[session].handle});
      InsertFreshKeeps(without, session, entry);
      assert without.pending[session := entry] == s.pending[session := entry];
    } else {
      InsertFreshKeeps(s, session, entry);
    }
  }

  /** Storing an answer neither loses a completion nor aborts one that another entry holds. */
  lemma StoredKeeps(s: Store, session: string, entry: Entry, now: int, victim: string)
    requires Separate(s) && entry.handle !in Held(s) && MayEvict(s, now, victim)
    ensures var after := Stored(s, session, entry, now, victim);
            Separate(after) && Held(after) == Held(s) + {entry.handle}
  {
    var live := Expire(s, now);
    ExpireKeeps(s, now);
    if |live.pending| >= MAX_PENDING_ANSWERS {
      RemoveKeeps(live, victim);
    }
    InsertKeeps(MakeRoom(live, victim), session, entry);
  }

  lemma StoredFits(s: Store, session: string, entry: Entry, now: int, victim: string)
    requires MayEvict(s, now, victim) && |s.pending| <= MAX_PENDING_ANSWERS
    ensures |Stored(s, session, entry, now, victim).pending| <= MAX_PENDING_ANSWERS
  {
    var live := Expire(s, now).pending;
    SubsetSize(live.Keys, s.pending.Keys);
    if |live| >= MAX_PENDING_ANSWERS {
      assert (live - {victim}).Keys == live.Keys - {victim};
    }
    InsertSize(MakeRoom(Expire(s, now), victim).pending, session, entry);
  }

  /** Storing holds the answer, and gives up of the other live entries at most one, which was an oldest. */
  lemma StoredContents(s: Store, session: string, entry: Entry, now: int, victim: string, k: string)
    requires MayEvict(s, now, victim)
    ensures var after := Stored(s, session, entry, now, victim).pending;
            && session in after && after[session] == entry
            && (k in after && k != session ==> k in s.pending && after[k] == s.pending[k] && Live(after[k], now))
            && (k in s.pending && Live(s.pending[k], now) && k !in after ==>
                  k == victim && forall j :: j in after && j != session ==> s.pending[k].created <= after[j].created)
  {
  }

  lemma InsertSize(m: map<string, Entry>, k: string, entry: Entry)
    ensures |m[k := entry]| <= |m| + 1
  {
  }

  lemma TakenKeeps(s: Store, session: Option<string>, now: int)
    requires Separate(s)
    ensures var taken, rest := Taken(s, session, now), Remaining(s, session);
            && Separate(rest)
            && (taken.Some? ==> taken.value.handle in Handles(s.pending))
            && Held(rest) == Held(s) - Lost(s, session)
  {
    var rest := Remaining(s, session);
    forall h | h in Held(s) - Lost(s, session) ensures h in Held(rest) {
      if h in Handles(s.pending) {
        var k :| k in s.pending && s.pending[k].handle == h;
        assert session == Some(k) || k in rest.pending;
      }
    }
    if session.Some? && session.value in s.pending {
      assert s.pending[session.value].handle in Handles(s.pending);
    }
  }

  /** The completion that taking a session's entry releases. */
  function Lost(s: Store, session: Option<string>): set<nat> {
    if session.Some? && session.value in s.pending then {s.pending[session.value].handle} else {}
  }

  // ---- history ----

  function Truncated(turn: Turn): Turn {
    Turn(TruncateChars(turn.q, MAX_HISTORY_CHARS), TruncateChars(turn.a, MAX_HISTORY_CHARS))
  }

  function TruncatedAll(turns: seq<Turn>): seq<Turn> {
    seq(|turns|, i requires 0 <= i < |turns| => Truncated(turns[i]))
  }

  /** `history_from`: what is made of the turns a session carries. */
  function HistoryFrom(turns: seq<Turn>): seq<Turn> {
    TruncatedAll(LastN(turns, MAX_HISTORY_TURNS))
  }

  /** That is the last three of them at most, each question and answer cut to its first 400 characters. */
  lemma HistoryIs(turns: seq<Turn>, i: nat)
    requires i < Min(|turns|, 3)
    ensures |HistoryFrom(turns)| == Min(|turns|, 3)
    ensures var kept, turn := HistoryFrom(turns)[|HistoryFrom(turns)| - 1 - i], turns[|turns| - 1 - i];
            && kept.q <= turn.q && |kept.q| == Min(|turn.q|, 400)
            && kept.a <= turn.a && |kept.a| == Min(|turn.a|, 400)
  {
  }

  /** The answered question joins the history the session carries back. */
  method Remember(history: seq<Turn>, query: string, spoken: string) returns (next: seq<Turn>)
    ensures next == LastN(history + [Truncated(Turn(query, spoken))], MAX_HISTORY_TURNS)
  {
    next := history;
    next := next + [Turn(TruncateChars(query, MAX_HISTORY_CHARS), TruncateChars(spoken, MAX_HISTORY_CHARS))];
    var excess := if |next| > MAX_HISTORY_TURNS then |next| - MAX_HISTORY_TURNS else 0;
    next := next[excess..];
  }

  /** The session attributes after a conversation: each request reads them, answers, and sends them back. */
  function Conversation(first: seq<Turn>, answered: seq<Turn>): seq<Turn> {
    if answered == [] then first
    else
      var n := |answered| - 1;
      LastN(HistoryFrom(Conversation(first, answered[..n])) + [Truncated(answered[n])], MAX_HISTORY_TURNS)
  }

  /** However long it was, what the next request reads is the last three of all its turns, cut to length. */
  lemma {:induction false} ConversationKeepsLast(first: seq<Turn>, answered: seq<Turn>)
    ensures HistoryFrom(Conversation(first, answered)) == HistoryFrom(first + answered)
  {
    if answered == [] {
      assert first + answered == first;
    } else {
      var n := |answered| - 1;
      var before := Conversation(first, answered[..n]);
      ConversationKeepsLast(first, answered[..n]);
      var all := first + answered[..n];
      assert first + answered == all + [answered[n]];
      AppendTruncated(all, answered[n]);
    }
  }

  lemma AppendTruncated(turns: seq<Turn>, turn: Turn)
    ensures HistoryFrom(LastN(HistoryFrom(turns) + [Truncated(turn)], MAX_HISTORY_TURNS)) == HistoryFrom(turns + [turn])
  {
  }

  // ---- every run ----

  /** What a completion was asked, and in which session. */
  datatype Origin = Origin(session: Option<string>, query: string, history: seq<Turn>)

  /** When a stored answer was last stored and when a yes took it out. */
  datatype Resumption = Resumption(stored: int, taken: int)

  datatype Waiting = Waiting(session: Option<string>, query: string, history: seq<Turn>, resumed: Option<Resumption>)

  datatype Delivery = Delivery(handle: nat, session: Option<string>, query: string, history: seq<Turn>, resumed: Option<Resumption>)

  /** The store, the clock, and where the other completions are. `origins` lists what each spawned
      completion was asked; `lastStored` is when it last went into the map. */
  datatype World = World(
    store: Store,
    now: int,
    origins: seq<Origin>,
    awaiting: map<nat, Waiting>,
    delivered: seq<Delivery>,
    detached: set<nat>,
    lastStored: map<nat, int>)

  /** Requests of any number of sessions, cut into the pieces that may interleave. A question is a `Clear`
      and then an `Ask`; no, stop, cancel and the end of a session are a `Clear`. A client may `Leave` while its
      answer is awaited: its request is dropped, and the completion runs on by itself. */
  datatype Step =
    | Clear(session: Option<string>)
    | Ask(session: Option<string>, query: string, turns: seq<Turn>)
    | Yes(session: Option<string>)
    | Finish(handle: nat)
    | Timeout(handle: nat, victim: string)
    | Leave(handle: nat)
    | Tick(elapsed: nat)

  function Consumed(w: World): set<nat> {
    set i | 0 <= i < |w.delivered| :: w.delivered[i].handle
  }

  predicate Enabled(w: World, step: Step) {
    match step
    case Finish(h) => h in w.awaiting
    case Leave(h) => h in w.awaiting
    case Timeout(h, victim) => h in w.awaiting && MayEvict(w.store, w.now, victim)
    case _ => true
  }

  function ClearStep(w: World, session: Option<string>): World {
    w.(store := Cleared(w.store, session, w.now),
       detached := w.detached + if Taken(w.store, session, w.now).None? then Lost(w.store, session) else {})
  }

  function AskStep(w: World, session: Option<string>, query: string, turns: seq<Turn>): World {
    w.(origins := w.origins + [Origin(session, query, HistoryFrom(turns))],
       awaiting := w.awaiting[|w.origins| := Waiting(session, query, HistoryFrom(turns), None)])
  }

  function YesStep(w: World, session: Option<string>): World {
    var taken, rest := Taken(w.store, session, w.now), Remaining(w.store, session);
    if taken.Some? then
      var entry := taken.value;
      w.(store := rest,
         awaiting := w.awaiting[entry.handle :=
           Waiting(session, entry.query, entry.history, Some(Resumption(entry.created, w.now)))])
    else w.(store := rest, detached := w.detached + Lost(w.store, session))
  }

  function FinishStep(w: World, h: nat): World
    requires h in w.awaiting
  {
    var waiting := w.awaiting[h];
    w.(awaiting := w.awaiting - {h},
       delivered := w.delivered + [Delivery(h, waiting.session, waiting.query, waiting.history, waiting.resumed)])
  }

  function TimeoutStep(w: World, h: nat, victim: string): World
    requires h in w.awaiting && MayEvict(w.store, w.now, victim)
  {
    var waiting := w.awaiting[h];
    if waiting.session.None? then
      w.(awaiting := w.awaiting - {h}, store := w.store.(aborted := w.store.aborted + {h}))
    else
      w.(awaiting := w.awaiting - {h},
         store := Stored(w.store, waiting.session.value, Entry(h, waiting.query, waiting.history, w.now), w.now, victim),
         lastStored := w.lastStored[h := w.now])
  }

  function LeaveStep(w: World, h: nat): World
    requires h in w.awaiting
  {
    w.(awaiting := w.awaiting - {h}, detached := w.detached + {h})
  }

  function TickStep(w: World, elapsed: nat): World {
    w.(now := w.now + elapsed)
  }

  function Next(w: World, step: Step): World
    requires Enabled(w, step)
  {
    match step
    case Clear(session) => ClearStep(w, session)
    case Ask(session, query, turns) => AskStep(w, session, query, turns)
    case Yes(session) => YesStep(w, session)
    case Finish(h) => FinishStep(w, h)
    case Timeout(h, victim) => TimeoutStep(w, h, victim)
    case Leave(h) => LeaveStep(w, h)
    case Tick(elapsed) => TickStep(w, elapsed)
  }

  const START: World := World(Store(map[], {}), 0, [], map[], [], {}, map[])

  function After(steps: seq<Step>): World {
    if steps == [] then START
    else
      var before, step := After(steps[..|steps| - 1]), steps[|steps| - 1];
      if Enabled(before, step) then Next(before, step) else before
  }

  /** The completions the store answers for, and those being awaited, consumed and detached. */
  datatype Parts = Parts(held: set<nat>, awaited: set<nat>, consumed: set<nat>, detached: set<nat>)

  function PartsOf(w: World): Parts {
    Parts(Held(w.store), w.awaiting.Keys, Consumed(w), w.detached)
  }

  ghost predicate Partition(p: Parts, n: nat) {
    && p.held !! p.awaited !! p.consumed !! p.detached
    && forall h: nat :: h in p.held || h in p.awaited || h in p.consumed || h in p.detached <==> h < n
  }

  /** Each spawned completion is in exactly one place. */
  ghost predicate Accounted(w: World) {
    Separate(w.store) && Partition(PartsOf(w), |w.origins|)
  }

  predicate AskedAs(origins: seq<Origin>, h: nat, session: Option<string>, query: string, history: seq<Turn>) {
    h < |origins| && origins[h] == Origin(session, query, history)
  }

  predicate InTime(lastStored: map<nat, int>, h: nat, resumed: Option<Resumption>) {
    resumed.Some? ==>
      && h in lastStored && resumed.value.stored == lastStored[h]
      && resumed.value.stored <= resumed.value.taken < resumed.value.stored + PENDING_ANSWER_TTL
  }

  predicate EntryOk(w: World, session: string, entry: Entry) {
    && AskedAs(w.origins, entry.handle, Some(session), entry.query, entry.history)
    && entry.handle in w.lastStored && w.lastStored[entry.handle] == entry.created <= w.now
  }

  predicate WaitingOk(w: World, h: nat, waiting: Waiting) {
    AskedAs(w.origins, h, waiting.session, waiting.query, waiting.history) && InTime(w.lastStored, h, waiting.resumed)
  }

  predicate DeliveryOk(w: World, d: Delivery) {
    AskedAs(w.origins, d.handle, d.session, d.query, d.history) && InTime(w.lastStored, d.handle, d.resumed)
  }

  /** Sessions, questions, histories and storing times travel with their completion. */
  ghost predicate OriginsKept(w: World) {
    && (forall k :: k in w.store.pending ==> EntryOk(w, k, w.store.pending[k]))
    && (forall h :: h in w.awaiting ==> WaitingOk(w, h, w.awaiting[h]))
    && (forall i :: 0 <= i < |w.delivered| ==> DeliveryOk(w, w.delivered[i]))
  }

  /** A result is handed to one request only. */
  ghost predicate DeliveredOnce(w: World) {
    forall i, j :: 0 <= i < j < |w.delivered| ==> w.delivered[i].handle != w.delivered[j].handle
  }

  ghost predicate Invariant(w: World) {
    && Accounted(w) && OriginsKept(w) && DeliveredOnce(w) && |w.store.pending| <= MAX_PENDING_ANSWERS
  }

  // ---- places ----

  lemma ClearAccounted(w: World, session: Option<string>)
    requires Accounted(w)
    ensures Accounted(ClearStep(w, session))
  {
    var after, lost := ClearStep(w, session), Lost(w.store, session);
    TakenKeeps(w.store, session, w.now);
    assert lost <= Held(w.store);
    if Taken(w.store, session, w.now).Some? {
      assert Held(after.store) == Held(Remaining(w.store, session)) + lost;
      assert PartsOf(after) == PartsOf(w);
    } else {
      assert PartsOf(after) == PartsOf(w).(held := Held(w.store) - lost, detached := w.detached + lost);
    }
  }

  lemma AskAccounted(w: World, session: Option<string>, query: string, turns: seq<Turn>)
    requires Accounted(w)
    ensures Accounted(AskStep(w, session, query, turns))
  {
  }

  lemma YesAccounted(w: World, session: Option<string>)
    requires Accounted(w)
    ensures Accounted(YesStep(w, session))
  {
    var after, lost := YesStep(w, session), Lost(w.store, session);
    TakenKeeps(w.store, session, w.now);
    assert lost <= Held(w.store);
    if Taken(w.store, session, w.now).Some? {
      assert PartsOf(after) == PartsOf(w).(held := Held(w.store) - lost, awaited := w.awaiting.Keys + lost);
    } else {
      assert PartsOf(after) == PartsOf(w).(held := Held(w.store) - lost, detached := w.detached + lost);
    }
  }

  lemma ConsumedGrows(w: World, h: nat)
    requires h in w.awaiting
    ensures Consumed(FinishStep(w, h)) == Consumed(w) + {h}
  {
    var after := FinishStep(w, h);
    forall x | x in Consumed(w) ensures x in Consumed(after) {
      var i :| 0 <= i < |w.delivered| && w.delivered[i].handle == x;
      assert after.delivered[i] == w.delivered[i];
    }
    assert after.delivered[|w.delivered|].handle == h;
  }

  lemma FinishAccounted(w: World, h: nat)
    requires Accounted(w) && h in w.awaiting
    ensures Accounted(FinishStep(w, h))
  {
    ConsumedGrows(w, h);
    var p := PartsOf(w);
    assert PartsOf(FinishStep(w, h)) == p.(awaited := p.awaited - {h}, consumed := p.consumed + {h});
  }

  lemma TimeoutAccounted(w: World, h: nat, victim: string)
    requires Accounted(w) && h in w.awaiting && MayEvict(w.store, w.now, victim)
    ensures Accounted(TimeoutStep(w, h, victim))
  {
    var after, waiting, p := TimeoutStep(w, h, victim), w.awaiting[h], PartsOf(w);
    assert h in p.awaited && h !in p.held;
    TimeoutHeld(w, h, victim);
    assert Consumed(after) == Consumed(w);
    assert PartsOf(after) == p.(awaited := p.awaited - {h}, held := p.held + {h});
    PartitionMoves(p, h, |w.origins|);
  }

  lemma PartitionMoves(p: Parts, h: nat, n: nat)
    requires Partition(p, n) && h in p.awaited
    ensures Partition(p.(awaited := p.awaited - {h}, held := p.held + {h}), n)
  {
  }

  lemma TimeoutHeld(w: World, h: nat, victim: string)
    requires Separate(w.store) && h in w.awaiting && h !in Held(w.store) && MayEvict(w.store, w.now, victim)
    ensures var after := TimeoutStep(w, h, victim).store;
            Separate(after) && Held(after) == Held(w.store) + {h}
  {
    var waiting := w.awaiting[h];
    if waiting.session.Some? {
      StoredKeeps(w.store, waiting.session.value, Entry(h, waiting.query, waiting.history, w.now), w.now, victim);
    } else {
      forall k | k in w.store.pending ensures w.store.pending[k].handle != h {
        assert w.store.pending[k].handle in Handles(w.store.pending);
      }
    }
  }

  // ---- origins ----

  lemma TakingKeepsOrigins(w: World, session: Option<string>)
    requires OriginsKept(w)
    ensures OriginsKept(ClearStep(w, session)) && OriginsKept(YesStep(w, session))
  {
  }

  lemma AskOrigins(w: World, session: Option<string>, query: string, turns: seq<Turn>)
    requires OriginsKept(w)
    ensures OriginsKept(AskStep(w, session, query, turns))
  {
  }

  lemma FinishOrigins(w: World, h: nat)
    requires OriginsKept(w) && h in w.awaiting
    ensures OriginsKept(FinishStep(w, h))
  {
  }

  /** The newly stored completion was neither stored nor delivered before, so the other times stand. */
  lemma TimeoutOrigins(w: World, h: nat, victim: string)
    requires OriginsKept(w) && h in w.awaiting && MayEvict(w.store, w.now, victim)
    requires h !in Handles(w.store.pending) && h !in Consumed(w)
    ensures OriginsKept(TimeoutStep(w, h, victim))
  {
    var after := TimeoutStep(w, h, victim);
    forall k | k in after.store.pending ensures EntryOk(after, k, after.store.pending[k]) {
      TimeoutEntry(w, h, victim, k);
    }
    forall j | j in after.awaiting ensures WaitingOk(after, j, after.awaiting[j]) {
      assert WaitingOk(w, j, w.awaiting[j]);
    }
    forall i | 0 <= i < |w.delivered| ensures DeliveryOk(after, w.delivered[i]) {
      assert DeliveryOk(w, w.delivered[i]);
      assert w.delivered[i].handle in Consumed(w);
    }
  }

  lemma TimeoutEntry(w: World, h: nat, victim: string, k: string)
    requires OriginsKept(w) && h in w.awaiting && MayEvict(w.store, w.now, victim)
    requires h !in Handles(w.store.pending) && k in TimeoutStep(w, h, victim).store.pending
    ensures EntryOk(TimeoutStep(w, h, victim), k, TimeoutStep(w, h, victim).store.pending[k])
  {
    var waiting := w.awaiting[h];
    assert WaitingOk(w, h, waiting);
    if waiting.session.Some? {
      StoredContents(w.store, waiting.session.value, Entry(h, waiting.query, waiting.history, w.now), w.now, victim, k);
    }
    if waiting.session != Some(k) {
      assert EntryOk(w, k, w.store.pending[k]);
      assert w.store.pending[k].handle in Handles(w.store.pending);
    }
  }

  lemma TickOrigins(w: World, elapsed: nat)
    requires OriginsKept(w)
    ensures OriginsKept(TickStep(w, elapsed))
  {
  }

  // ---- every run ----

  lemma AwaitedIsElsewhere(w: World, h: nat)
    requires Accounted(w) && h in w.awaiting
    ensures h !in Held(w.store) && h !in Handles(w.store.pending) && h !in Consumed(w)
  {
  }

  lemma TakingFits(w: World, session: Option<string>)
    ensures |Remaining(w.store, session).pending| <= |w.store.pending|
  {
  }

  lemma TimeoutFits(w: World, h: nat, victim: string)
    requires h in w.awaiting && MayEvict(w.store, w.now, victim) && |w.store.pending| <= MAX_PENDING_ANSWERS
    ensures |TimeoutStep(w, h, victim).store.pending| <= MAX_PENDING_ANSWERS
  {
    var waiting := w.awaiting[h];
    if waiting.session.Some? {
      StoredFits(w.store, waiting.session.value, Entry(h, waiting.query, waiting.history, w.now), w.now, victim);
    }
  }

  lemma FinishDelivers(w: World, h: nat)
    requires DeliveredOnce(w) && h in w.awaiting && h !in Consumed(w)
    ensures DeliveredOnce(FinishStep(w, h))
  {
  }

  lemma ClearKeeps(w: World, session: Option<string>)
    requires Invariant(w)
    ensures Invariant(ClearStep(w, session))
  {
    ClearAccounted(w, session);
    TakingKeepsOrigins(w, session);
    TakingFits(w, session);
  }

  lemma AskKeeps(w: World, session: Option<string>, query: string, turns: seq<Turn>)
    requires Invariant(w)
    ensures Invariant(AskStep(w, session, query, turns))
  {
    AskAccounted(w, session, query, turns);
    AskOrigins(w, session, query, turns);
  }

  lemma YesKeeps(w: World, session: Option<string>)
    requires Invariant(w)
    ensures Invariant(YesStep(w, session))
  {
    YesAccounted(w, session);
    TakingKeepsOrigins(w, session);
    TakingFits(w, session);
  }

  lemma FinishKeeps(w: World, h: nat)
    requires Invariant(w) && h in w.awaiting
    ensures Invariant(FinishStep(w, h))
  {
    AwaitedIsElsewhere(w, h);
    FinishAccounted(w, h);
    FinishOrigins(w, h);
    FinishDelivers(w, h);
  }

  lemma TimeoutKeeps(w: World, h: nat, victim: string)
    requires Invariant(w) && h in w.awaiting && MayEvict(w.store, w.now, victim)
    ensures Invariant(TimeoutStep(w, h, victim))
  {
    AwaitedIsElsewhere(w, h);
    TimeoutAccounted(w, h, victim);
    TimeoutOrigins(w, h, victim);
    TimeoutFits(w, h, victim);
  }

  lemma LeaveAccounted(w: World, h: nat)
    requires Accounted(w) && h in w.awaiting
    ensures Accounted(LeaveStep(w, h))
  {
    var p := PartsOf(w);
    assert Consumed(LeaveStep(w, h)) == Consumed(w);
    assert PartsOf(LeaveStep(w, h)) == p.(awaited := p.awaited - {h}, detached := p.detached + {h});
  }

  lemma LeaveOrigins(w: World, h: nat)
    requires OriginsKept(w) && h in w.awaiting
    ensures OriginsKept(LeaveStep(w, h))
  {
  }

  lemma LeaveKeeps(w: World, h: nat)
    requires Invariant(w) && h in w.awaiting
    ensures Invariant(LeaveStep(w, h))
  {
    LeaveAccounted(w, h);
    LeaveOrigins(w, h);
  }

  lemma TickKeeps(w: World, elapsed: nat)
    requires Invariant(w)
    ensures Invariant(TickStep(w, elapsed))
  {
    TickOrigins(w, elapsed);
    assert PartsOf(TickStep(w, elapsed)) == PartsOf(w);
  }

  lemma NextKeeps(w: World, step: Step)
    requires Invariant(w) && Enabled(w, step)
    ensures Invariant(Next(w, step))
  {
    match step
    case Clear(session) => ClearKeeps(w, session);
    case Ask(session, query, turns) => AskKeeps(w, session, query, turns);
    case Yes(session) => YesKeeps(w, session);
    case Finish(h) => FinishKeeps(w, h);
    case Timeout(h, victim) => TimeoutKeeps(w, h, victim);
    case Leave(h) => LeaveKeeps(w, h);
    case Tick(elapsed) => TickKeeps(w, elapsed);
  }

  lemma {:induction false} InvariantHolds(steps: seq<Step>)
    ensures Invariant(After(steps))
  {
    if steps == [] {
    } else {
      var before, step := After(steps[..|steps| - 1]), steps[|steps| - 1];
      InvariantHolds(steps[..|steps| - 1]);
      if Enabled(before, step) {
        NextKeeps(before, step);
      }
    }
  }

  // ---- what follows ----

  datatype Place = Pending | Awaited | Finished | Aborted | Detached

  predicate IsAt(w: World, h: nat, place: Place) {
    match place
    case Pending => h in Handles(w.store.pending)
    case Awaited => h in w.awaiting
    case Finished => h in Consumed(w)
    case Aborted => h in w.store.aborted
    case Detached => h in w.detached
  }

  /** At any time each spawned completion is in one place and one only. */
  lemma OnePlaceEach(steps: seq<Step>, h: nat)
    requires h < |After(steps).origins|
    ensures exists place :: IsAt(After(steps), h, place)
    ensures forall p, q :: IsAt(After(steps), h, p) && IsAt(After(steps), h, q) ==> p == q
  {
    InvariantHolds(steps);
    PlaceOf(After(steps), h);
  }

  lemma PlaceOf(w: World, h: nat)
    requires Accounted(w) && h < |w.origins|
    ensures exists place :: IsAt(w, h, place)
    ensures forall p, q :: IsAt(w, h, p) && IsAt(w, h, q) ==> p == q
  {
    var parts := PartsOf(w);
    assert h in parts.held || h in parts.awaited || h in parts.consumed || h in parts.detached;
    assert h in Handles(w.store.pending) ==> h !in w.store.aborted;
    assert IsAt(w, h,
      if h in Handles(w.store.pending) then Pending
      else if h in w.awaiting then Awaited
      else if h in Consumed(w) then Finished
      else if h in w.store.aborted then Aborted
      else Detached);
  }

  /** The map holds at most 64 answers, each one under the session, and with the question and history, it was asked
      with. */
  lemma PendingBounded(steps: seq<Step>, k: string)
    ensures |After(steps).store.pending| <= MAX_PENDING_ANSWERS
    ensures k in After(steps).store.pending ==>
      var entry := After(steps).store.pending[k];
      AskedAs(After(steps).origins, entry.handle, Some(k), entry.query, entry.history)
  {
    InvariantHolds(steps);
    assert k in After(steps).store.pending ==> EntryOk(After(steps), k, After(steps).store.pending[k]);
  }

  /** Every result that reaches a speaker does so once, in the session and under the question and history it was
      asked with, and if a yes fetched it, that came within 120 seconds of its last store. */
  lemma DeliveredOnceAsAsked(steps: seq<Step>, i: nat)
    requires i < |After(steps).delivered|
    ensures var w := After(steps); var d := w.delivered[i];
            && AskedAs(w.origins, d.handle, d.session, d.query, d.history) && InTime(w.lastStored, d.handle, d.resumed)
            && forall j :: 0 <= j < |w.delivered| && w.delivered[j].handle == d.handle ==> j == i
  {
    InvariantHolds(steps);
    assert DeliveryOk(After(steps), After(steps).delivered[i]);
  }

  /** What a yes does: a live answer is awaited again, an expired one is let go without being aborted. */
  lemma YesFetches(steps: seq<Step>, session: string)
    requires session in After(steps).store.pending
    ensures var w, next := After(steps), After(steps + [Yes(Some(session))]);
            var h := w.store.pending[session].handle;
            && session !in next.store.pending && h in w.lastStored
            && (h in next.awaiting <==> w.now < w.lastStored[h] + PENDING_ANSWER_TTL)
            && (h in next.detached <==> w.now >= w.lastStored[h] + PENDING_ANSWER_TTL)
            && h !in next.store.aborted
  {
    InvariantHolds(steps);
    assert (steps + [Yes(Some(session))])[..|steps|] == steps;
    YesOutcome(After(steps), session);
  }

  lemma YesOutcome(w: World, session: string)
    requires Accounted(w) && OriginsKept(w) && session in w.store.pending
    ensures var next, h := YesStep(w, Some(session)), w.store.pending[session].handle;
            && session !in next.store.pending && h in w.lastStored
            && (h in next.awaiting <==> w.now < w.lastStored[h] + PENDING_ANSWER_TTL)
            && (h in next.detached <==> w.now >= w.lastStored[h] + PENDING_ANSWER_TTL)
            && h !in next.store.aborted
  {
  }

  /** The questions of a run, in order. */
  function AsksOf(steps: seq<Step>): seq<Origin> {
    if steps == [] then []
    else
      var step := steps[|steps| - 1];
      AsksOf(steps[..|steps| - 1]) + if step.Ask? then [Origin(step.session, step.query, HistoryFrom(step.turns))] else []
  }

  /** The completions are those questions, one each. */
  lemma {:induction false} OriginsAreAsks(steps: seq<Step>)
    ensures After(steps).origins == AsksOf(steps)
  {
    if steps == [] {
    } else {
      OriginsAreAsks(steps[..|steps| - 1]);
    }
  }

  lemma AfterOneMore(steps: seq<Step>, step: Step)
    requires Enabled(After(steps), step)
    ensures After(steps + [step]) == Next(After(steps), step)
  {
    assert (steps + [step])[..|steps|] == steps;
  }

  /** An answer that comes in time is delivered at once, as asked. */
  lemma DeliveredAtOnce(steps: seq<Step>, session: Option<string>, query: string, turns: seq<Turn>)
    ensures var h := |After(steps).origins|;
            After(steps + [Ask(session, query, turns)] + [Finish(h)]).delivered
              == After(steps).delivered + [Delivery(h, session, query, HistoryFrom(turns), None)]
  {
    AfterOneMore(steps, Ask(session, query, turns));
    AfterOneMore(steps + [Ask(session, query, turns)], Finish(|After(steps).origins|));
  }

  /** One that does not is kept for its session, and a yes within 120 seconds has it awaited again. */
  lemma HeldUntilYes(steps: seq<Step>, h: nat, session: string, victim: string, elapsed: nat)
    requires Enabled(After(steps), Timeout(h, victim)) && After(steps).awaiting[h].session == Some(session)
    ensures var held := steps + [Timeout(h, victim)];
            && session in After(held).store.pending && After(held).store.pending[session].handle == h
            && (h in After(held + [Tick(elapsed)] + [Yes(Some(session))]).awaiting <==> elapsed < 120_000)
  {
    var held := steps + [Timeout(h, victim)];
    AfterOneMore(steps, Timeout(h, victim));
    AfterOneMore(held, Tick(elapsed));
    YesFetches(held + [Tick(elapsed)], session);
  }

  /** A completion is let go in two ways only: its client leaves, or its entry is taken out of the map too late. */
  lemma DetachesWhen(w: World, step: Step, h: nat)
    requires Enabled(w, step) && h !in w.detached
    ensures h in Next(w, step).detached <==>
      || step == Leave(h)
      || ((step.Clear? || step.Yes?) && h in Lost(w.store, step.session) && Taken(w.store, step.session, w.now).None?)
  {
  }

  /** Every request history is bounded. */
  lemma {:induction false} HistoriesBounded(steps: seq<Step>, h: nat)
    requires h < |After(steps).origins|
    ensures var history := After(steps).origins[h].history;
            |history| <= MAX_HISTORY_TURNS
            && forall i :: 0 <= i < |history| ==> |history[i].q| <= MAX_HISTORY_CHARS && |history[i].a| <= MAX_HISTORY_CHARS
  {
    var before, step := After(steps[..|steps| - 1]), steps[|steps| - 1];
    if h < |before.origins| {
      HistoriesBounded(steps[..|steps| - 1], h);
    }
  }
}
