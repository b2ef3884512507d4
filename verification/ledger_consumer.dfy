/** The consumer that writes queued ledger records to the file and to Postgres (`src/llm_ledger.rs`). */
module LedgerConsumer {
  import opened Common
  import opened Bits

  const TOO_MANY_CLIENTS_BACKOFF_SECONDS: real := 30.0
  const FAILURE_BASE_BACKOFF_SECONDS: real := 5.0
  const FAILURE_MAX_BACKOFF_SECONDS: real := 180.0

  datatype Failure = TooManyClients | OtherFailure

  /** `postgres_backoff_seconds` */
  function BackoffSeconds(failure: Failure, streak: u32): real {
    if failure.TooManyClients? then TOO_MANY_CLIENTS_BACKOFF_SECONDS
    else
      var exponent: nat := Min(if streak > 0 then streak - 1 else 0, 8);
      var seconds := FAILURE_BASE_BACKOFF_SECONDS * (Pow2(exponent) as real);
      if seconds <= FAILURE_MAX_BACKOFF_SECONDS then seconds else FAILURE_MAX_BACKOFF_SECONDS
  }

  /** It doubles from five seconds with each further failure, up to three minutes; when Postgres has too many clients
      it is half a minute. */
  lemma BackoffDoubles(streak: u32)
    requires 1 <= streak < U32_LIMIT - 1
    ensures BackoffSeconds(TooManyClients, streak) == 30.0 && BackoffSeconds(OtherFailure, 1) == 5.0
    ensures BackoffSeconds(OtherFailure, streak + 1) ==
      if streak <= 5 then 2.0 * BackoffSeconds(OtherFailure, streak) else 180.0
  {
  }

  /** What a record meets: the clock, and how connecting and writing would go, should it come to that. */
  datatype Arrival<R> = Arrival(record: R, now: real, connect: Option<Failure>, write: Option<Failure>)

  /** An attempt on Postgres, with the streak it left behind. */
  datatype Attempt = Attempt(index: nat, writes: bool, at: real, failure: Option<Failure>, streak: u32)

  /** The loop variables, and what was offered to the file and tried on Postgres. */
  datatype Consumer<R> = Consumer(connected: bool, streak: u32, cooldownUntil: real, offered: seq<R>, attempts: seq<Attempt>)

  function Raised(streak: u32): u32 {
    if streak < U32_LIMIT - 1 then streak + 1 else streak
  }

  function Fail<R>(c: Consumer<R>, index: nat, writes: bool, now: real, failure: Failure): Consumer<R> {
    var streak := Raised(c.streak);
    c.(connected := false, streak := streak, cooldownUntil := now + BackoffSeconds(failure, streak),
       attempts := c.attempts + [Attempt(index, writes, now, Some(failure), streak)])
  }

  function Connect<R>(c: Consumer<R>, index: nat, now: real): Consumer<R> {
    if c.connected then c
    else c.(connected := true, attempts := c.attempts + [Attempt(index, false, now, None, c.streak)])
  }

  function Write<R>(c: Consumer<R>, index: nat, now: real): Consumer<R> {
    c.(streak := 0, cooldownUntil := 0.0, attempts := c.attempts + [Attempt(index, true, now, None, 0)])
  }

  function TryPostgres<R>(c: Consumer<R>, index: nat, a: Arrival<R>): Consumer<R> {
    if a.now < c.cooldownUntil then c
    else if !c.connected && a.connect.Some? then Fail(c, index, false, a.now, a.connect.value)
    else
      var ready := Connect(c, index, a.now);
      if a.write.Some? then Fail(ready, index, true, a.now, a.write.value) else Write(ready, index, a.now)
  }

  function Offer<R>(c: Consumer<R>, record: R): Consumer<R> {
    c.(offered := c.offered + [record])
  }

  function Consume<R>(c: Consumer<R>, index: nat, a: Arrival<R>, postgres: bool): Consumer<R> {
    if postgres then TryPostgres(Offer(c, a.record), index, a) else Offer(c, a.record)
  }

  function After<R>(arrivals: seq<Arrival<R>>, postgres: bool): Consumer<R> {
    if arrivals == [] then Consumer(false, 0, 0.0, [], [])
    else
      var n := |arrivals| - 1;
      Consume(After(arrivals[..n], postgres), n, arrivals[n], postgres)
  }

  method Run<R>(arrivals: seq<Arrival<R>>, postgres: bool) returns (offered: seq<R>, attempts: seq<Attempt>)
    ensures offered == After(arrivals, postgres).offered && attempts == After(arrivals, postgres).attempts
  {
    var connected := false;
    var streak: u32 := 0;
    var cooldownUntil := 0.0;
    offered, attempts := [], [];
    for i := 0 to |arrivals|
      invariant Consumer(connected, streak, cooldownUntil, offered, attempts) == After(arrivals[..i], postgres)
    {
      var a := arrivals[i];
      assert arrivals[..i + 1][..i] == arrivals[..i];
      offered := offered + [a.record];
      if postgres {
        if a.now < cooldownUntil {
          continue;
        }
        if !connected {
          if a.connect.Some? {
            streak := if streak < U32_LIMIT - 1 then streak + 1 else streak;
            cooldownUntil := a.now + BackoffSeconds(a.connect.value, streak);
            attempts := attempts + [Attempt(i, false, a.now, a.connect, streak)];
            continue;
          }
          connected := true;
          attempts := attempts + [Attempt(i, false, a.now, None, streak)];
        }
        if a.write.Some? {
          connected := false;
          streak := if streak < U32_LIMIT - 1 then streak + 1 else streak;
          cooldownUntil := a.now + BackoffSeconds(a.write.value, streak);
          attempts := attempts + [Attempt(i, true, a.now, a.write, streak)];
        } else {
          streak, cooldownUntil := 0, 0.0;
          attempts := attempts + [Attempt(i, true, a.now, None, 0)];
        }
      }
    }
    assert arrivals[..|arrivals|] == arrivals;
  }

  // ---- the file ----

  /** Every record is offered to the file once, in the order received, whatever Postgres does. */
  lemma {:induction false} FileGetsAll<R>(arrivals: seq<Arrival<R>>, postgres: bool)
    ensures |After(arrivals, postgres).offered| == |arrivals|
    ensures forall i :: 0 <= i < |arrivals| ==> After(arrivals, postgres).offered[i] == arrivals[i].record
  {
    if arrivals == [] {
    } else {
      FileGetsAll(arrivals[..|arrivals| - 1], postgres);
    }
  }

  // ---- Postgres ----

  predicate InOrder(attempts: seq<Attempt>, n: nat) {
    && (forall k :: 0 <= k < |attempts| ==> attempts[k].index < n)
    && (forall j, k :: 0 <= j < k < |attempts| ==>
          attempts[j].index < attempts[k].index || (attempts[j].index == attempts[k].index && !attempts[j].writes && attempts[k].writes))
  }

  lemma TryInOrder<R>(c: Consumer<R>, index: nat, a: Arrival<R>)
    requires InOrder(c.attempts, index)
    ensures InOrder(TryPostgres(c, index, a).attempts, index + 1)
  {
  }

  /** Writes follow the order of the records, and each record is written at most once: what Postgres gets is
      a subsequence of what the file gets. */
  lemma {:induction false} WritesInOrder<R>(arrivals: seq<Arrival<R>>, postgres: bool)
    ensures InOrder(After(arrivals, postgres).attempts, |arrivals|)
  {
    if arrivals == [] {
    } else {
      var n := |arrivals| - 1;
      WritesInOrder(arrivals[..n], postgres);
      TryInOrder(Offer(After(arrivals[..n], postgres), arrivals[n].record), n, arrivals[n]);
    }
  }

  /** An attempt happens when its record arrives, and goes as that arrival says. */
  predicate Faithful<R>(a: Attempt, arrivals: seq<Arrival<R>>) {
    && a.index < |arrivals| && a.at == arrivals[a.index].now
    && a.failure == if a.writes then arrivals[a.index].write else arrivals[a.index].connect
  }

  lemma {:induction false} AttemptsFaithful<R>(arrivals: seq<Arrival<R>>, postgres: bool)
    ensures forall k :: 0 <= k < |After(arrivals, postgres).attempts| ==> Faithful(After(arrivals, postgres).attempts[k], arrivals)
  {
    if arrivals == [] {
    } else {
      var n := |arrivals| - 1;
      AttemptsFaithful(arrivals[..n], postgres);
      var before := After(arrivals[..n], postgres);
      forall k | 0 <= k < |before.attempts| ensures Faithful(before.attempts[k], arrivals) {
        assert Faithful(before.attempts[k], arrivals[..n]);
      }
    }
  }

  predicate Nondecreasing<R>(arrivals: seq<Arrival<R>>) {
    forall i, j :: 0 <= i < j < |arrivals| ==> arrivals[i].now <= arrivals[j].now
  }

  function PauseOf(a: Attempt): real
    requires a.failure.Some?
  {
    BackoffSeconds(a.failure.value, a.streak)
  }

  /** Any pause a failure called for is over by `cooldown` or by `now`. */
  predicate PausesEnd(attempts: seq<Attempt>, cooldown: real, now: real) {
    forall j :: 0 <= j < |attempts| && attempts[j].failure.Some? ==>
      attempts[j].at + PauseOf(attempts[j]) <= cooldown || attempts[j].at + PauseOf(attempts[j]) <= now
  }

  /** No attempt falls into the pause of a failure before it. */
  predicate PausesKept(attempts: seq<Attempt>) {
    forall j, k :: 0 <= j < k < |attempts| && attempts[j].failure.Some? ==> attempts[j].at + PauseOf(attempts[j]) <= attempts[k].at
  }

  ghost predicate Patient<R>(c: Consumer<R>, now: real) {
    PausesKept(c.attempts) && PausesEnd(c.attempts, c.cooldownUntil, now)
  }

  lemma TryIsPatient<R>(c: Consumer<R>, index: nat, a: Arrival<R>, now: real)
    requires Patient(c, now) && now <= a.now
    ensures Patient(TryPostgres(c, index, a), a.now)
  {
  }

  /** With a clock that does not go back, Postgres is left alone after every failure for as long as the
      failure and the streak it ended call for. */
  lemma {:induction false} CooldownKept<R>(arrivals: seq<Arrival<R>>, postgres: bool)
    requires Nondecreasing(arrivals)
    ensures PausesKept(After(arrivals, postgres).attempts)
    ensures arrivals != [] ==> Patient(After(arrivals, postgres), arrivals[|arrivals| - 1].now)
  {
    if arrivals == [] {
    } else {
      var n := |arrivals| - 1;
      CooldownKept(arrivals[..n], postgres);
      var before := After(arrivals[..n], postgres);
      var now := if n == 0 then arrivals[n].now else arrivals[n - 1].now;
      if postgres {
        TryIsPatient(Offer(before, arrivals[n].record), n, arrivals[n], now);
      }
    }
  }

  /** Failures since the last write that went through. */
  function FailuresInARow(attempts: seq<Attempt>): nat {
    if attempts == [] then 0
    else
      var last, before := attempts[|attempts| - 1], FailuresInARow(attempts[..|attempts| - 1]);
      if last.failure.Some? then before + 1 else if last.writes then 0 else before
  }

  /** As far as a 32-bit counter can count. */
  function Streak(attempts: seq<Attempt>): int {
    Min(FailuresInARow(attempts), U32_LIMIT - 1)
  }

  /** The streak behind each pause is just that, and a write that goes through starts it over. */
  lemma {:induction false} StreakCountsFailures<R>(arrivals: seq<Arrival<R>>, postgres: bool)
    ensures After(arrivals, postgres).streak == Streak(After(arrivals, postgres).attempts)
    ensures forall k :: 0 <= k < |After(arrivals, postgres).attempts| ==>
      After(arrivals, postgres).attempts[k].streak == Streak(After(arrivals, postgres).attempts[..k + 1])
  {
    if arrivals == [] {
    } else {
      var n := |arrivals| - 1;
      StreakCountsFailures(arrivals[..n], postgres);
      if postgres {
        TryCounts(Offer(After(arrivals[..n], postgres), arrivals[n].record), n, arrivals[n]);
      }
    }
  }

  ghost predicate Counting<R>(c: Consumer<R>) {
    && c.streak == Streak(c.attempts)
    && forall k :: 0 <= k < |c.attempts| ==> c.attempts[k].streak == Streak(c.attempts[..k + 1])
  }

  lemma AttemptCounts(attempts: seq<Attempt>, next: Attempt)
    requires forall k :: 0 <= k < |attempts| ==> attempts[k].streak == Streak(attempts[..k + 1])
    requires next.streak == if next.failure.Some? then Min(Streak(attempts) + 1, U32_LIMIT - 1) else if next.writes then 0 else Streak(attempts)
    ensures var longer := attempts + [next];
            && Streak(longer) == next.streak
            && forall k :: 0 <= k < |longer| ==> longer[k].streak == Streak(longer[..k + 1])
  {
    var longer := attempts + [next];
    assert longer[..|attempts|] == attempts && longer[..|longer|] == longer;
    forall k | 0 <= k < |attempts| ensures longer[k].streak == Streak(longer[..k + 1]) {
      assert longer[..k + 1] == attempts[..k + 1];
    }
  }

  lemma TryCounts<R>(c: Consumer<R>, index: nat, a: Arrival<R>)
    requires Counting(c)
    ensures Counting(TryPostgres(c, index, a))
  {
    if a.now >= c.cooldownUntil {
      if !c.connected && a.connect.Some? {
        AttemptCounts(c.attempts, Attempt(index, false, a.now, a.connect, Raised(c.streak)));
      } else {
        if !c.connected {
          AttemptCounts(c.attempts, Attempt(index, false, a.now, None, c.streak));
        }
        var ready := Connect(c, index, a.now);
        AttemptCounts(ready.attempts, Attempt(index, true, a.now, a.write, if a.write.Some? then Raised(ready.streak) else 0));
      }
    }
  }

  // ---- what is tried ----

  /** The loop variables between two records: connected exactly after a write that went through, and cooling
      down exactly after a failure. */
  ghost predicate Settled<R>(c: Consumer<R>) {
    if c.attempts == [] then !c.connected && c.cooldownUntil == 0.0
    else
      var last := c.attempts[|c.attempts| - 1];
      if last.failure.Some? then !c.connected && c.cooldownUntil == last.at + PauseOf(last)
      else last.writes && c.connected && c.cooldownUntil == 0.0
  }

  lemma {:induction false} AlwaysSettled<R>(arrivals: seq<Arrival<R>>, postgres: bool)
    ensures Settled(After(arrivals, postgres))
  {
    if arrivals == [] {
    } else {
      AlwaysSettled(arrivals[..|arrivals| - 1], postgres);
    }
  }

  predicate Tried(attempts: seq<Attempt>, index: nat, writes: bool) {
    exists k :: 0 <= k < |attempts| && attempts[k].index == index && attempts[k].writes == writes
  }

  /** The last attempt went through, or there was none. */
  predicate LastWentThrough(attempts: seq<Attempt>) {
    attempts == [] || attempts[|attempts| - 1].failure.None?
  }

  predicate PauseOver(attempts: seq<Attempt>, now: real)
    requires !LastWentThrough(attempts)
  {
    attempts[|attempts| - 1].at + PauseOf(attempts[|attempts| - 1]) <= now
  }

  lemma TriedOfLonger(attempts: seq<Attempt>, more: seq<Attempt>, n: nat, writes: bool)
    requires InOrder(attempts, n)
    ensures Tried(attempts + more, n, writes) <==> Tried(more, n, writes)
  {
    var longer := attempts + more;
    if Tried(more, n, writes) {
      var k :| 0 <= k < |more| && more[k].index == n && more[k].writes == writes;
      assert longer[|attempts| + k] == more[k];
    }
    if Tried(longer, n, writes) {
      var k :| 0 <= k < |longer| && longer[k].index == n && longer[k].writes == writes;
      assert longer[k] == more[k - |attempts|];
    }
  }

  /** What one arrival adds to the attempts: nothing in a pause, a connection unless there is one, and a write
      unless that failed. */
  function Added<R>(c: Consumer<R>, n: nat, a: Arrival<R>): seq<Attempt> {
    if a.now < c.cooldownUntil then []
    else if !c.connected && a.connect.Some? then [Attempt(n, false, a.now, a.connect, Raised(c.streak))]
    else
      (if c.connected then [] else [Attempt(n, false, a.now, None, c.streak)])
      + [Attempt(n, true, a.now, a.write, if a.write.Some? then Raised(c.streak) else 0)]
  }

  lemma TryAdds<R>(c: Consumer<R>, n: nat, a: Arrival<R>)
    ensures TryPostgres(c, n, a).attempts == c.attempts + Added(c, n, a)
  {
  }

  lemma AddedTries<R>(c: Consumer<R>, n: nat, a: Arrival<R>)
    ensures Tried(Added(c, n, a), n, false) <==> a.now >= c.cooldownUntil && !c.connected
    ensures Tried(Added(c, n, a), n, true) <==> a.now >= c.cooldownUntil && (c.connected || a.connect.None?)
  {
    var added := Added(c, n, a);
    if added != [] {
      assert added[0].index == n && added[|added| - 1].index == n;
    }
  }

  /** With Postgres configured and a clock that starts at its epoch, a record is tried exactly when the last
      attempt before it went through or the pause that attempt called for is over: by a connection if the last
      attempt failed, and then by a write if there is a connection. */
  lemma TriedUnlessPausing<R>(arrivals: seq<Arrival<R>>, n: nat)
    requires n < |arrivals| && arrivals[n].now >= 0.0
    ensures var before, after := After(arrivals[..n], true).attempts, After(arrivals[..n + 1], true).attempts;
            var ready := LastWentThrough(before) || PauseOver(before, arrivals[n].now);
            var connected := before != [] && LastWentThrough(before);
            && (Tried(after, n, false) <==> ready && !connected)
            && (Tried(after, n, true) <==> ready && (connected || arrivals[n].connect.None?))
  {
    var c, a := After(arrivals[..n], true), arrivals[n];
    AlwaysSettled(arrivals[..n], true);
    WritesInOrder(arrivals[..n], true);
    assert arrivals[..n + 1][..n] == arrivals[..n];
    TryAdds(Offer(c, a.record), n, a);
    TriedOfLonger(c.attempts, Added(Offer(c, a.record), n, a), n, false);
    TriedOfLonger(c.attempts, Added(Offer(c, a.record), n, a), n, true);
    AddedTries(Offer(c, a.record), n, a);
  }
}
