/** Failures of remote interfaces and their recoveries (`src/api_issues.rs`). */
module ApiIssues {
  import opened Common

  const MAX_ACTIONS_PER_ISSUE: nat := 30
  const MAX_RECENT_EVENTS: nat := 120

  // ---- issue ids ----

  predicate Kept(c: char) {
    'a' <= c <= 'z' || 'A' <= c <= 'Z' || '0' <= c <= '9' || c == '-' || c == '_' || c == '/' || c == '.'
  }

  function Cleaned(s: string): string {
    seq(|s|, i requires 0 <= i < |s| => if Kept(s[i]) then s[i] else '_')
  }

  function Normalize(value: string): (r: string)
    ensures r != "" && ':' !in r
  {
    var cleaned := LowerAscii(Trim(value));
    if cleaned == "" then "unknown" else Cleaned(cleaned)
  }

  /** Character `k` of a text under normalisation: letters in lower case, digits and `-_/.` as they are, anything
      else an underscore. */
  predicate NormalizedChar(before: char, after: char) {
    if 'A' <= before <= 'Z' then after as int == before as int + 32
    else if 'a' <= before <= 'z' || '0' <= before <= '9' || before == '-' || before == '_' || before == '/' || before == '.'
    then after == before
    else after == '_'
  }

  /** A blank part is unknown; of any other, what stands between the whitespace at its ends is normalised character
      by character. */
  lemma NormalizeIs(value: string)
    ensures Trim(value) == "" ==> Normalize(value) == "unknown"
    ensures Trim(value) != "" ==>
      && |Normalize(value)| == |Trim(value)|
      && forall k :: 0 <= k < |Trim(value)| ==> NormalizedChar(Trim(value)[k], Normalize(value)[k])
  {
  }

  function ProviderPart(provider: Option<string>): (r: string)
    ensures r != "" && ':' !in r
  {
    if provider.Some? then Normalize(provider.value) else "none"
  }

  function IssueId(api: string, provider: Option<string>, endpoint: string, category: string): string {
    Normalize(api) + ":" + (ProviderPart(provider) + ":" + (Normalize(endpoint) + ":" + Normalize(category)))
  }

  predicate FirstColon(s: string, n: nat) {
    n < |s| && s[n] == ':' && forall i :: 0 <= i < n ==> s[i] != ':'
  }

  lemma FirstColonUnique(s: string, n: nat, m: nat)
    requires FirstColon(s, n) && FirstColon(s, m)
    ensures n == m
  {
  }

  lemma ColonAfter(a: string, rest: string)
    requires ':' !in a
    ensures FirstColon(a + ":" + rest, |a|)
    ensures (a + ":" + rest)[..|a|] == a && (a + ":" + rest)[|a| + 1..] == rest
  {
  }

  /** Text before the first colon is told apart from the text after it. */
  lemma ColonSplits(a: string, b: string, restA: string, restB: string)
    requires ':' !in a && ':' !in b
    ensures a + ":" + restA == b + ":" + restB <==> a == b && restA == restB
  {
    ColonAfter(a, restA);
    ColonAfter(b, restB);
    if a + ":" + restA == b + ":" + restB {
      FirstColonUnique(a + ":" + restA, |a|, |b|);
    }
  }

  /** Two failures are the same issue exactly when all four parts normalise alike; a provider that is absent
      is the same as one called `none`. */
  lemma SameIssueIff(api: string, provider: Option<string>, endpoint: string, category: string,
                     api': string, provider': Option<string>, endpoint': string, category': string)
    ensures IssueId(api, provider, endpoint, category) == IssueId(api', provider', endpoint', category') <==>
      && Normalize(api) == Normalize(api') && ProviderPart(provider) == ProviderPart(provider')
      && Normalize(endpoint) == Normalize(endpoint') && Normalize(category) == Normalize(category')
  {
    var tail, tail' := Normalize(endpoint) + ":" + Normalize(category), Normalize(endpoint') + ":" + Normalize(category');
    ColonSplits(Normalize(api), Normalize(api'), ProviderPart(provider) + ":" + tail, ProviderPart(provider') + ":" + tail');
    ColonSplits(ProviderPart(provider), ProviderPart(provider'), tail, tail');
    ColonSplits(Normalize(endpoint), Normalize(endpoint'), Normalize(category), Normalize(category'));
  }

  // ---- records ----

  datatype Action = Action(ts: real, issueId: string, kind: string, summary: string)

  datatype Issue = Issue(
    id: string, api: string, provider: Option<string>, endpoint: string, category: string,
    severity: string, status: string, summary: string, latestError: Option<string>, occurrences: u64,
    firstSeenAt: Option<real>, lastSeenAt: Option<real>, resolvedAt: Option<real>, nextRetryAt: Option<real>,
    active: bool, mitigation: Option<string>, actions: seq<Action>)

  /** One failure; `mitigation` is the text chosen for its category. */
  datatype Observation = Observation(
    api: string, provider: Option<string>, endpoint: string, category: string, severity: string,
    summary: string, error: string, retryTtl: Option<real>, mitigation: string)

  datatype Recovery = Recovery(api: string, provider: Option<string>, endpoint: string, summary: string)

  datatype Summary = Summary(active: nat, mitigated: nat, resolved: nat, critical: nat, warning: nat)

  datatype Registry = Registry(
    version: u64, updatedAt: Option<real>, summary: Summary, issues: map<string, Issue>, events: seq<Action>)

  function IdOf(o: Observation): string {
    IssueId(o.api, o.provider, o.endpoint, o.category)
  }

  function FailureAction(o: Observation, now: real): Action {
    Action(now, IdOf(o), "mitigation_applied", o.mitigation)
  }

  function RecoveryAction(id: string, r: Recovery, now: real): Action {
    Action(now, id, "recovered", r.summary)
  }

  function RetryAt(ttl: Option<real>, now: real): Option<real> {
    if ttl.Some? && ttl.value > 0.0 then Some(now + ttl.value) else None
  }

  function NewIssue(o: Observation, now: real): Issue {
    Issue(IdOf(o), o.api, o.provider, o.endpoint, o.category, o.severity, "active", o.summary, None, 0,
          Some(now), None, None, None, true, None, [])
  }

  function Failed(issue: Issue, o: Observation, now: real): Issue {
    issue.(api := o.api, provider := o.provider, endpoint := o.endpoint, category := o.category, severity := o.severity,
           status := "mitigating", summary := o.summary, latestError := Some(TruncateChars(o.error, 900)),
           occurrences := SaturatingAdd(issue.occurrences, 1), lastSeenAt := Some(now), resolvedAt := None,
           nextRetryAt := RetryAt(o.retryTtl, now), active := true, mitigation := Some(o.mitigation),
           actions := LastN(issue.actions + [FailureAction(o, now)], MAX_ACTIONS_PER_ISSUE))
  }

  function Resolved(issue: Issue, r: Recovery, now: real): Issue {
    issue.(active := false, status := "resolved", resolvedAt := Some(now), nextRetryAt := None,
           actions := LastN(issue.actions + [RecoveryAction(issue.id, r, now)], MAX_ACTIONS_PER_ISSUE))
  }

  predicate SameIgnoringCase(a: string, b: string) {
    LowerAscii(a) == LowerAscii(b)
  }

  /** A recovery concerns an interface, an exact endpoint, and one provider if it names one. */
  predicate Concerns(r: Recovery, api: string, provider: Option<string>, endpoint: string) {
    && SameIgnoringCase(api, r.api) && endpoint == r.endpoint
    && (r.provider.Some? ==> provider.Some? && SameIgnoringCase(provider.value, r.provider.value))
  }

  predicate Recovers(issue: Issue, r: Recovery) {
    issue.active && Concerns(r, issue.api, issue.provider, issue.endpoint)
  }

  // ---- the cached summary ----

  predicate IsActive(i: Issue) { i.active }
  predicate IsMitigating(i: Issue) { i.status == "mitigating" }
  predicate IsResolved(i: Issue) { !i.active && i.status == "resolved" }
  predicate IsCritical(i: Issue) { i.severity == "critical" }
  predicate IsWarning(i: Issue) { i.severity == "warning" }

  function Among(issues: map<string, Issue>, ids: set<string>, p: Issue -> bool): set<string> {
    set id | id in ids && id in issues && p(issues[id])
  }

  function RecountAmong(issues: map<string, Issue>, ids: set<string>): Summary {
    Summary(|Among(issues, ids, IsActive)|, |Among(issues, ids, IsMitigating)|, |Among(issues, ids, IsResolved)|,
            |Among(issues, ids, IsCritical)|, |Among(issues, ids, IsWarning)|)
  }

  function Recount(issues: map<string, Issue>): Summary {
    RecountAmong(issues, issues.Keys)
  }

  lemma AmongOneMore(issues: map<string, Issue>, ids: set<string>, id: string, p: Issue -> bool)
    requires id in issues && id !in ids
    ensures |Among(issues, ids + {id}, p)| == |Among(issues, ids, p)| + if p(issues[id]) then 1 else 0
  {
    assert Among(issues, ids + {id}, p) == if p(issues[id]) then Among(issues, ids, p) + {id} else Among(issues, ids, p);
  }

  function CountIn(s: Summary, i: Issue): Summary {
    Summary(s.active + if IsActive(i) then 1 else 0, s.mitigated + if IsMitigating(i) then 1 else 0,
            s.resolved + if IsResolved(i) then 1 else 0, s.critical + if IsCritical(i) then 1 else 0,
            s.warning + if IsWarning(i) then 1 else 0)
  }

  lemma RecountOneMore(issues: map<string, Issue>, ids: set<string>, id: string)
    requires id in issues && id !in ids
    ensures RecountAmong(issues, ids + {id}) == CountIn(RecountAmong(issues, ids), issues[id])
  {
    AmongOneMore(issues, ids, id, IsActive);
    AmongOneMore(issues, ids, id, IsMitigating);
    AmongOneMore(issues, ids, id, IsResolved);
    AmongOneMore(issues, ids, id, IsCritical);
    AmongOneMore(issues, ids, id, IsWarning);
  }

  // ---- one operation ----

  function Bumped(reg: Registry, now: real): Registry {
    reg.(version := SaturatingAdd(reg.version, 1), updatedAt := Some(now), summary := Recount(reg.issues))
  }

  function Logged(events: seq<Action>, more: seq<Action>): seq<Action> {
    LastN(events + more, MAX_RECENT_EVENTS)
  }

  function FailedIssues(issues: map<string, Issue>, o: Observation, now: real): map<string, Issue> {
    issues[IdOf(o) := Failed(if IdOf(o) in issues then issues[IdOf(o)] else NewIssue(o, now), o, now)]
  }

  function AfterFailure(reg: Registry, o: Observation, now: real): Registry {
    Bumped(reg.(issues := FailedIssues(reg.issues, o, now), events := Logged(reg.events, [FailureAction(o, now)])), now)
  }

  /** The issues concerned are resolved, but for those still to be seen. */
  function ResolvedBut(issues: map<string, Issue>, unseen: set<string>, r: Recovery, now: real): map<string, Issue> {
    map id | id in issues ::
      if id !in unseen && Recovers(issues[id], r) then Resolved(issues[id], r, now) else issues[id]
  }

  function ResolvedIssues(issues: map<string, Issue>, r: Recovery, now: real): map<string, Issue> {
    ResolvedBut(issues, {}, r, now)
  }

  /** `order` names each issue the recovery resolves once, but for those still to be seen; the map's
      iteration order is left open. */
  ghost predicate IsOrderBut(issues: map<string, Issue>, unseen: set<string>, r: Recovery, order: seq<string>) {
    && (forall i, j :: 0 <= i < j < |order| ==> order[i] != order[j])
    && (forall id :: id in order <==> id in issues && id !in unseen && Recovers(issues[id], r))
  }

  ghost predicate IsOrder(issues: map<string, Issue>, r: Recovery, order: seq<string>) {
    IsOrderBut(issues, {}, r, order)
  }

  lemma OrderOneMore(issues: map<string, Issue>, unseen: set<string>, r: Recovery, order: seq<string>, id: string)
    requires IsOrderBut(issues, unseen, r, order) && id in unseen && id in issues
    ensures IsOrderBut(issues, unseen - {id}, r, if Recovers(issues[id], r) then order + [id] else order)
  {
  }

  lemma ResolvedOneMore(issues: map<string, Issue>, unseen: set<string>, r: Recovery, now: real, id: string)
    requires id in unseen && id in issues
    ensures var before := ResolvedBut(issues, unseen, r, now);
            && before[id] == issues[id]
            && ResolvedBut(issues, unseen - {id}, r, now)
                 == if Recovers(issues[id], r) then before[id := Resolved(issues[id], r, now)] else before
  {
  }

  function RecoveryActions(issues: map<string, Issue>, order: seq<string>, r: Recovery, now: real): seq<Action>
    requires forall id :: id in order ==> id in issues
  {
    seq(|order|, i requires 0 <= i < |order| => RecoveryAction(issues[order[i]].id, r, now))
  }

  function AfterRecovery(reg: Registry, r: Recovery, order: seq<string>, now: real): Registry
    requires IsOrder(reg.issues, r, order)
  {
    if order == [] then reg
    else
      Bumped(reg.(issues := ResolvedIssues(reg.issues, r, now),
                  events := Logged(reg.events, RecoveryActions(reg.issues, order, r, now))), now)
  }

  const EMPTY: Registry := Registry(0, None, Summary(0, 0, 0, 0, 0), map[], [])

  class Issues {
    var version: u64
    var updatedAt: Option<real>
    var summary: Summary
    var issues: map<string, Issue>
    var events: seq<Action>

    constructor ()
      ensures Value() == EMPTY
    {
      version, updatedAt, summary, issues, events := 0, None, Summary(0, 0, 0, 0, 0), map[], [];
    }

    function Value(): Registry
      reads this
    {
      Registry(version, updatedAt, summary, issues, events)
    }

    method RefreshSummary()
      modifies this`summary
      ensures summary == Recount(issues)
    {
      var counted := Summary(0, 0, 0, 0, 0);
      var unseen := issues.Keys;
      assert issues.Keys - unseen == {};
      while unseen != {}
        invariant unseen <= issues.Keys
        invariant counted == RecountAmong(issues, issues.Keys - unseen)
        decreases unseen
      {
        var id :| id in unseen;
        RecountOneMore(issues, issues.Keys - unseen, id);
        assert issues.Keys - (unseen - {id}) == issues.Keys - unseen + {id};
        var issue := issues[id];
        if issue.active {
          counted := counted.(active := counted.active + 1);
        } else if issue.status == "resolved" {
          counted := counted.(resolved := counted.resolved + 1);
        }
        if issue.status == "mitigating" {
          counted := counted.(mitigated := counted.mitigated + 1);
        }
        if issue.severity == "critical" {
          counted := counted.(critical := counted.critical + 1);
        } else if issue.severity == "warning" {
          counted := counted.(warning := counted.warning + 1);
        }
        unseen := unseen - {id};
      }
      assert issues.Keys - unseen == issues.Keys;
      summary := counted;
    }

    method RecordEvent(event: Action)
      modifies this`events
      ensures events == Logged(old(events), [event])
    {
      events := events + [event];
      if |events| > MAX_RECENT_EVENTS {
        events := events[|events| - MAX_RECENT_EVENTS..];
      }
    }

    method Bump(now: real)
      modifies this`version, this`updatedAt, this`summary
      ensures Value() == Bumped(old(Value()), now)
    {
      version := if version < U64_LIMIT - 1 then version + 1 else version;
      updatedAt := Some(now);
      RefreshSummary();
    }

    method ObserveFailure(o: Observation, now: real)
      modifies this
      ensures Value() == AfterFailure(old(Value()), o, now)
    {
      var issue := if IdOf(o) in issues then issues[IdOf(o)] else NewIssue(o, now);
      issues := issues[IdOf(o) := Failed(issue, o, now)];
      RecordEvent(FailureAction(o, now));
      Bump(now);
    }

    /** Resolves every issue concerned, one after the other. */
    method ResolveAll(r: Recovery, now: real) returns (recovered: seq<Action>, ghost order: seq<string>)
      modifies this`issues
      ensures IsOrder(old(issues), r, order)
      ensures recovered == RecoveryActions(old(issues), order, r, now)
      ensures issues == ResolvedIssues(old(issues), r, now)
    {
      var unseen := issues.Keys;
      recovered, order := [], [];
      while unseen != {}
        invariant unseen <= old(issues).Keys && issues == ResolvedBut(old(issues), unseen, r, now)
        invariant IsOrderBut(old(issues), unseen, r, order)
        invariant recovered == RecoveryActions(old(issues), order, r, now)
        decreases unseen
      {
        var id :| id in unseen;
        var issue := issues[id];
        OrderOneMore(old(issues), unseen, r, order, id);
        ResolvedOneMore(old(issues), unseen, r, now, id);
        if Recovers(issue, r) {
          issues := issues[id := Resolved(issue, r, now)];
          recovered := recovered + [RecoveryAction(issue.id, r, now)];
          order := order + [id];
        }
        unseen := unseen - {id};
      }
    }

    method ObserveRecovery(r: Recovery, now: real) returns (any: bool, ghost order: seq<string>)
      modifies this
      ensures IsOrder(old(issues), r, order) && Value() == AfterRecovery(old(Value()), r, order, now)
      ensures any <==> exists id :: id in old(issues) && Recovers(old(issues)[id], r)
    {
      var recovered;
      recovered, order := ResolveAll(r, now);
      any := recovered != [];
      assert any ==> order[0] in order;
      if any {
        RecordAll(recovered);
        Bump(now);
      } else {
        NothingResolved(old(issues), r, order, now);
      }
    }

    method RecordAll(recovered: seq<Action>)
      requires recovered != []
      modifies this`events
      ensures events == Logged(old(events), recovered)
    {
      for i := 0 to |recovered|
        invariant events == if i == 0 then old(events) else Logged(old(events), recovered[..i])
      {
        LastNLeft(old(events) + recovered[..i], [recovered[i]], MAX_RECENT_EVENTS);
        assert old(events) + recovered[..i] + [recovered[i]] == old(events) + recovered[..i + 1];
        assert i == 0 ==> old(events) + recovered[..i] == old(events);
        RecordEvent(recovered[i]);
      }
      assert recovered[..|recovered|] == recovered;
    }
  }

  lemma NothingResolved(issues: map<string, Issue>, r: Recovery, order: seq<string>, now: real)
    requires IsOrder(issues, r, order) && order == []
    ensures ResolvedIssues(issues, r, now) == issues
  {
  }

  // ---- every history ----

  /** Failures and recoveries; a recovery comes with the order in which it met its issues. */
  datatype Step = Fail(o: Observation, now: real) | Recover(r: Recovery, order: seq<string>, now: real)

  ghost predicate Happens(reg: Registry, step: Step) {
    step.Recover? ==> IsOrder(reg.issues, step.r, step.order)
  }

  ghost function Next(reg: Registry, step: Step): Registry
    requires Happens(reg, step)
  {
    match step
    case Fail(o, now) => AfterFailure(reg, o, now)
    case Recover(r, order, now) => AfterRecovery(reg, r, order, now)
  }

  ghost function After(steps: seq<Step>): Registry {
    if steps == [] then EMPTY
    else
      var before, step := After(steps[..|steps| - 1]), steps[|steps| - 1];
      if Happens(before, step) then Next(before, step) else before
  }

  /** The cached summary is always what counting again would give. */
  lemma {:induction false} SummaryIsRecount(steps: seq<Step>)
    ensures After(steps).summary == Recount(After(steps).issues)
  {
    if steps == [] {
      NothingAmong();
    } else {
      var before, step := After(steps[..|steps| - 1]), steps[|steps| - 1];
      SummaryIsRecount(steps[..|steps| - 1]);
    }
  }

  lemma NothingAmong()
    ensures Recount(map[]) == Summary(0, 0, 0, 0, 0)
  {
  }

  /** An issue is filed under its own id, made of its own fields, and its status says whether it is active. */
  predicate WellFiled(id: string, i: Issue) {
    && i.id == id == IssueId(i.api, i.provider, i.endpoint, i.category)
    && i.status == if i.active then "mitigating" else "resolved"
  }

  lemma FailedWellFiled(issues: map<string, Issue>, o: Observation, now: real, id: string)
    requires forall k :: k in issues ==> WellFiled(k, issues[k])
    requires id in FailedIssues(issues, o, now)
    ensures WellFiled(id, FailedIssues(issues, o, now)[id])
  {
  }

  lemma ResolvedWellFiled(issues: map<string, Issue>, r: Recovery, now: real, id: string)
    requires id in issues && WellFiled(id, issues[id])
    ensures WellFiled(id, ResolvedIssues(issues, r, now)[id])
  {
  }

  lemma NextWellFiled(reg: Registry, step: Step, id: string)
    requires Happens(reg, step) && id in Next(reg, step).issues
    requires forall k :: k in reg.issues ==> WellFiled(k, reg.issues[k])
    ensures WellFiled(id, Next(reg, step).issues[id])
  {
    match step
    case Fail(o, now) => FailedWellFiled(reg.issues, o, now, id);
    case Recover(r, _, now) =>
      if id in reg.issues {
        ResolvedWellFiled(reg.issues, r, now, id);
      }
  }

  lemma {:induction false} IssuesWellFiled(steps: seq<Step>)
    ensures forall id :: id in After(steps).issues ==> WellFiled(id, After(steps).issues[id])
  {
    if steps == [] {
    } else {
      var before, step := After(steps[..|steps| - 1]), steps[|steps| - 1];
      IssuesWellFiled(steps[..|steps| - 1]);
      if Happens(before, step) {
        forall id | id in Next(before, step).issues ensures WellFiled(id, Next(before, step).issues[id]) {
          NextWellFiled(before, step, id);
        }
      }
    }
  }

  /** So the summary counts every issue once, as active or as resolved, and every active one as mitigated. */
  lemma SummaryCountsAll(steps: seq<Step>)
    ensures var reg := After(steps);
            && reg.summary.mitigated == reg.summary.active == |Among(reg.issues, reg.issues.Keys, IsActive)|
            && reg.summary.active + reg.summary.resolved == |reg.issues|
  {
    SummaryIsRecount(steps);
    IssuesWellFiled(steps);
    CountsAgree(After(steps).issues);
  }

  lemma CountsAgree(issues: map<string, Issue>)
    requires forall id :: id in issues ==> WellFiled(id, issues[id])
    ensures Recount(issues).mitigated == Recount(issues).active
    ensures Recount(issues).active + Recount(issues).resolved == |issues|
  {
    forall id | id in issues ensures IsActive(issues[id]) == IsMitigating(issues[id]) == !IsResolved(issues[id]) {
      assert WellFiled(id, issues[id]);
    }
    AmongSame(issues, IsActive, IsMitigating);
    AmongOpposites(issues, IsActive, IsResolved);
  }

  lemma AmongSame(issues: map<string, Issue>, p: Issue -> bool, q: Issue -> bool)
    requires forall id :: id in issues ==> p(issues[id]) == q(issues[id])
    ensures Among(issues, issues.Keys, p) == Among(issues, issues.Keys, q)
  {
  }

  lemma AmongOpposites(issues: map<string, Issue>, p: Issue -> bool, q: Issue -> bool)
    requires forall id :: id in issues ==> p(issues[id]) == !q(issues[id])
    ensures |Among(issues, issues.Keys, p)| + |Among(issues, issues.Keys, q)| == |issues|
  {
    assert Among(issues, issues.Keys, p) + Among(issues, issues.Keys, q) == issues.Keys;
    assert Among(issues, issues.Keys, p) !! Among(issues, issues.Keys, q);
  }

  // ---- activity ----

  /** A failure and when it was reported. */
  datatype Report = Report(o: Observation, at: real)

  /** The last failure reported under an id. */
  function LastFailure(steps: seq<Step>, id: string): Option<Report> {
    if steps == [] then None
    else
      var step := steps[|steps| - 1];
      if step.Fail? && IdOf(step.o) == id then Some(Report(step.o, step.now)) else LastFailure(steps[..|steps| - 1], id)
  }

  /** All failures reported under an id, in order. */
  function FailuresOf(steps: seq<Step>, id: string): seq<Report> {
    if steps == [] then []
    else
      var step := steps[|steps| - 1];
      FailuresOf(steps[..|steps| - 1], id)
      + if step.Fail? && IdOf(step.o) == id then [Report(step.o, step.now)] else []
  }

  /** A recovery reaches a failure of the same interface, ignoring case, and the same endpoint; if it names a
      provider, only a failure of that one, ignoring case. */
  predicate Reaches(r: Recovery, o: Observation) {
    && EqualIgnoringCase(r.api, o.api) && r.endpoint == o.endpoint
    && match r.provider
       case None => true
       case Some(name) => o.provider.Some? && EqualIgnoringCase(name, o.provider.value)
  }

  lemma ReachesConcerned(r: Recovery, o: Observation)
    ensures Reaches(r, o) <==> Concerns(r, o.api, o.provider, o.endpoint)
  {
    LowerAsciiFolds(r.api, o.api);
    if r.provider.Some? && o.provider.Some? {
      LowerAsciiFolds(r.provider.value, o.provider.value);
    }
  }

  /** No recovery that reaches the last failure has come since. */
  ghost predicate Unrecovered(steps: seq<Step>, id: string) {
    steps != [] &&
    var n, step := |steps| - 1, steps[|steps| - 1];
    if step.Fail? && IdOf(step.o) == id then true
    else
      && Unrecovered(steps[..n], id)
      && (step.Recover? && Happens(After(steps[..n]), step) ==>
            var report := LastFailure(steps[..n], id);
            report.Some? ==> !Reaches(step.r, report.value.o))
  }

  /** An issue tells of a failure: all its report says, the error cut to 900 characters, and while it is active
      when to try again. */
  predicate Describes(i: Issue, report: Report) {
    var o := report.o;
    && i.api == o.api && i.provider == o.provider && i.endpoint == o.endpoint && i.category == o.category
    && i.severity == o.severity && i.summary == o.summary && i.mitigation == Some(o.mitigation)
    && i.lastSeenAt == Some(report.at)
    && i.latestError.Some? && i.latestError.value <= o.error && |i.latestError.value| == Min(|o.error|, 900)
    && (i.active ==> i.resolvedAt.None?)
    && i.nextRetryAt == match o.retryTtl
                        case Some(ttl) => if i.active && ttl > 0.0 then Some(report.at + ttl) else None
                        case None => None
  }

  lemma FailDescribes(reg: Registry, o: Observation, now: real)
    ensures var issues := AfterFailure(reg, o, now).issues;
            && IdOf(o) in issues && Describes(issues[IdOf(o)], Report(o, now)) && issues[IdOf(o)].active
            && forall id :: id != IdOf(o) ==> Known(issues, id) == Known(reg.issues, id)
  {
  }

  function Known(issues: map<string, Issue>, id: string): Option<Issue> {
    if id in issues then Some(issues[id]) else None
  }

  lemma RecoverDescribes(reg: Registry, r: Recovery, order: seq<string>, now: real, id: string)
    requires IsOrder(reg.issues, r, order)
    ensures id in AfterRecovery(reg, r, order, now).issues <==> id in reg.issues
    ensures id in reg.issues ==>
      AfterRecovery(reg, r, order, now).issues[id] ==
        if Recovers(reg.issues[id], r) then Resolved(reg.issues[id], r, now) else reg.issues[id]
  {
  }

  lemma ResolvedDescribes(issue: Issue, r: Recovery, now: real, report: Report)
    requires Describes(issue, report)
    ensures Describes(Resolved(issue, r, now), report) && !Resolved(issue, r, now).active
    ensures Recovers(issue, r) <==> issue.active && Reaches(r, report.o)
  {
    ReachesConcerned(r, report.o);
  }

  /** What is known of an issue fits what was reported. */
  ghost predicate Tracks(issue: Option<Issue>, steps: seq<Step>, id: string) {
    var report := LastFailure(steps, id);
    && (issue.Some? <==> report.Some?)
    && (issue.Some? ==> Describes(issue.value, report.value) && (issue.value.active <==> Unrecovered(steps, id)))
  }

  /** An issue exists once it was reported, carries its last report, and is active exactly when no recovery that
      reaches that report has come since. */
  lemma {:induction false} ActiveIffUnrecovered(steps: seq<Step>, id: string)
    ensures Tracks(Known(After(steps).issues, id), steps, id)
  {
    if steps == [] {
    } else {
      var n := |steps| - 1;
      var before, step := After(steps[..n]), steps[n];
      ActiveIffUnrecovered(steps[..n], id);
      match step
      case Fail(o, now) => FailDescribes(before, o, now);
      case Recover(r, order, now) =>
        if Happens(before, step) {
          RecoverDescribes(before, r, order, now, id);
          if id in before.issues {
            ResolvedDescribes(before.issues[id], r, now, LastFailure(steps[..n], id).value);
          }
        }
    }
  }

  /** Every report of an issue is counted, up to 2^64 - 1, and its first one dates it. */
  lemma {:induction false} OccurrencesCounted(steps: seq<Step>, id: string)
    ensures var issues, failures := After(steps).issues, FailuresOf(steps, id);
            && (id in issues <==> failures != [])
            && (id in issues ==>
                  && issues[id].occurrences == Min(|failures|, U64_LIMIT - 1)
                  && issues[id].firstSeenAt == Some(failures[0].at))
  {
    if steps == [] {
    } else {
      OccurrencesCounted(steps[..|steps| - 1], id);
    }
  }

  /** Failures, and recoveries that resolved something. */
  ghost function Changes(steps: seq<Step>): nat {
    if steps == [] then 0
    else
      var n := |steps| - 1;
      Changes(steps[..n]) + if steps[n].Fail? || (Happens(After(steps[..n]), steps[n]) && steps[n].order != []) then 1 else 0
  }

  /** The version counts them, up to 2^64 - 1. */
  lemma {:induction false} VersionCountsChanges(steps: seq<Step>)
    ensures After(steps).version == Min(Changes(steps), U64_LIMIT - 1)
  {
    if steps == [] {
    } else {
      VersionCountsChanges(steps[..|steps| - 1]);
    }
  }

  // ---- logs ----

  /** Everything a step logs. */
  ghost function EventsOf(reg: Registry, step: Step): seq<Action>
    requires Happens(reg, step)
  {
    match step
    case Fail(o, now) => [FailureAction(o, now)]
    case Recover(r, order, now) => RecoveryActions(reg.issues, order, r, now)
  }

  ghost function AllEvents(steps: seq<Step>): seq<Action> {
    if steps == [] then []
    else
      var before, step := After(steps[..|steps| - 1]), steps[|steps| - 1];
      AllEvents(steps[..|steps| - 1]) + if Happens(before, step) then EventsOf(before, step) else []
  }

  /** The recent events are the last 120 of all. */
  lemma {:induction false} EventsAreLast(steps: seq<Step>)
    ensures After(steps).events == LastN(AllEvents(steps), MAX_RECENT_EVENTS)
  {
    if steps == [] {
    } else {
      var n := |steps| - 1;
      var before, step := After(steps[..n]), steps[n];
      EventsAreLast(steps[..n]);
      if Happens(before, step) {
        LastNLeft(AllEvents(steps[..n]), EventsOf(before, step), MAX_RECENT_EVENTS);
      }
    }
  }

  function Naming(id: string): Action -> seq<Action> {
    (a: Action) => if a.issueId == id then [a] else []
  }

  function Of(events: seq<Action>, id: string): seq<Action> {
    FlatMap(events, Naming(id))
  }

  lemma OfAppend(a: seq<Action>, b: seq<Action>, id: string)
    ensures Of(a + b, id) == Of(a, id) + Of(b, id)
  {
    FlatMapAppend(a, b, Naming(id));
  }

  lemma OfOne(a: Action, id: string)
    ensures Of([a], id) == if a.issueId == id then [a] else []
  {
    assert [a][..|[a]| - 1] == [];
    assert Of([a], id) == Of([], id) + Naming(id)(a);
  }

  function ActionsFor(order: seq<string>, r: Recovery, now: real): seq<Action> {
    seq(|order|, i requires 0 <= i < |order| => RecoveryAction(order[i], r, now))
  }

  lemma {:induction false} OfOrder(order: seq<string>, r: Recovery, now: real, id: string)
    requires forall i, j :: 0 <= i < j < |order| ==> order[i] != order[j]
    ensures Of(ActionsFor(order, r, now), id) == if id in order then [RecoveryAction(id, r, now)] else []
  {
    if order == [] {
    } else {
      var n := |order| - 1;
      OfOrder(order[..n], r, now, id);
      assert ActionsFor(order, r, now)[..n] == ActionsFor(order[..n], r, now);
    }
  }

  /** What a step adds to the log of one issue. */
  lemma EventsOfIssue(reg: Registry, step: Step, id: string)
    requires Happens(reg, step) && forall k :: k in reg.issues ==> WellFiled(k, reg.issues[k])
    ensures Of(EventsOf(reg, step), id) ==
      match step
      case Fail(o, now) => if IdOf(o) == id then [FailureAction(o, now)] else []
      case Recover(r, order, now) => if id in order then [RecoveryAction(id, r, now)] else []
  {
    match step
    case Fail(o, now) => OfOne(FailureAction(o, now), id);
    case Recover(r, order, now) =>
      assert RecoveryActions(reg.issues, order, r, now) == ActionsFor(order, r, now);
      OfOrder(order, r, now, id);
  }

  function ActionsAt(reg: Registry, id: string): seq<Action> {
    if id in reg.issues then reg.issues[id].actions else []
  }

  lemma NextActions(reg: Registry, step: Step, id: string)
    requires Happens(reg, step) && forall k :: k in reg.issues ==> WellFiled(k, reg.issues[k])
    requires |ActionsAt(reg, id)| <= MAX_ACTIONS_PER_ISSUE
    ensures ActionsAt(Next(reg, step), id) == LastN(ActionsAt(reg, id) + Of(EventsOf(reg, step), id), MAX_ACTIONS_PER_ISSUE)
  {
    EventsOfIssue(reg, step, id);
    assert ActionsAt(reg, id) + [] == ActionsAt(reg, id);
  }

  /** The actions of an issue are the last 30 of the events that name it. */
  lemma {:induction false} ActionsAreLast(steps: seq<Step>, id: string)
    ensures ActionsAt(After(steps), id) == LastN(Of(AllEvents(steps), id), MAX_ACTIONS_PER_ISSUE)
  {
    if steps == [] {
    } else {
      var n := |steps| - 1;
      var before, step := After(steps[..n]), steps[n];
      ActionsAreLast(steps[..n], id);
      if Happens(before, step) {
        IssuesWellFiled(steps[..n]);
        NextActions(before, step, id);
        OfAppend(AllEvents(steps[..n]), EventsOf(before, step), id);
        LastNLeft(Of(AllEvents(steps[..n]), id), Of(EventsOf(before, step), id), MAX_ACTIONS_PER_ISSUE);
      } else {
        assert AllEvents(steps) == AllEvents(steps[..n]);
      }
    }
  }
}
