/** Merging what was learned about remote interfaces (`src/adaptive_schema.rs`). */
module AdaptiveMerge {
  import opened Common

  const MAX_RECENT_ADJUSTMENTS: nat := 100
  const SATURATED_COUNTER: u64 := 0xffff_ffff_ffff_ffff

  /** What the last observation of an endpoint said. */
  datatype Shape = Shape(
    verb: string, pathTemplate: string, caption: string,
    lastSuccessAt: Option<real>, lastFailureAt: Option<real>, lastStatus: Option<u16>, lastError: Option<string>,
    responseKind: Option<string>, responseKeys: seq<string>, degraded: bool, skipUntil: Option<real>)

  datatype Endpoint = Endpoint(successes: u64, failures: u64, lastObservedAt: Option<real>, shape: Shape)

  datatype Hint = Hint(
    key: string, summary: string, evidence: string, count: u64, firstSeenAt: Option<real>, lastSeenAt: Option<real>)

  datatype Adjustment = Adjustment(ts: real, api: Option<string>, kind: string, summary: string, evidence: string)

  /** A schema without its version and update time, which count operations rather than observations. */
  datatype Content = Content(
    endpoints: map<string, Endpoint>,
    hints: map<string, Hint>,
    numeric: map<string, real>,
    adjustments: seq<Adjustment>)

  const EMPTY: Content := Content(map[], map[], map[], [])

  /** `>` on optional times: any time comes after none. */
  predicate After(a: Option<real>, b: Option<real>) {
    a.Some? && (b.None? || a.value > b.value)
  }

  function JoinEndpoints(mine: Endpoint, other: Endpoint): Endpoint {
    var latest := if After(other.lastObservedAt, mine.lastObservedAt) then other else mine;
    latest.(successes := SaturatingAdd(mine.successes, other.successes),
            failures := SaturatingAdd(mine.failures, other.failures))
  }

  function JoinHints(mine: Hint, other: Hint): Hint {
    var counted := mine.(count := SaturatingAdd(mine.count, other.count));
    if After(other.lastSeenAt, mine.lastSeenAt)
    then counted.(summary := other.summary, evidence := other.evidence, lastSeenAt := other.lastSeenAt)
    else counted
  }

  function JoinNumbers(mine: real, other: real): real {
    if other > mine then other else mine
  }

  // ---- maps joined key by key ----

  function MergeMaps<V>(a: map<string, V>, b: map<string, V>, join: (V, V) -> V): map<string, V> {
    map k | k in a.Keys + b.Keys ::
      if k in a && k in b then join(a[k], b[k]) else if k in a then a[k] else b[k]
  }

  ghost predicate Associative<V(!new)>(join: (V, V) -> V) {
    forall x, y, z :: join(join(x, y), z) == join(x, join(y, z))
  }

  lemma MergeMapsAssociative<V(!new)>(a: map<string, V>, b: map<string, V>, c: map<string, V>, join: (V, V) -> V)
    requires Associative(join)
    ensures MergeMaps(MergeMaps(a, b, join), c, join) == MergeMaps(a, MergeMaps(b, c, join), join)
  {
  }

  lemma JoinsAssociative()
    ensures Associative(JoinEndpoints) && Associative(JoinHints) && Associative(JoinNumbers)
  {
  }

  // ---- schemas ----

  function Merge(a: Content, b: Content): Content {
    Content(
      MergeMaps(a.endpoints, b.endpoints, JoinEndpoints),
      MergeMaps(a.hints, b.hints, JoinHints),
      MergeMaps(a.numeric, b.numeric, JoinNumbers),
      LastN(a.adjustments + b.adjustments, MAX_RECENT_ADJUSTMENTS))
  }

  /** How merges are grouped does not matter. */
  lemma MergeAssociative(a: Content, b: Content, c: Content)
    ensures Merge(Merge(a, b), c) == Merge(a, Merge(b, c))
  {
    JoinsAssociative();
    MergeMapsAssociative(a.endpoints, b.endpoints, c.endpoints, JoinEndpoints);
    MergeMapsAssociative(a.hints, b.hints, c.hints, JoinHints);
    MergeMapsAssociative(a.numeric, b.numeric, c.numeric, JoinNumbers);
    AdjustmentsAssociative(a.adjustments, b.adjustments, c.adjustments);
  }

  lemma AdjustmentsAssociative<T>(a: seq<T>, b: seq<T>, c: seq<T>)
    ensures LastN(LastN(a + b, MAX_RECENT_ADJUSTMENTS) + c, MAX_RECENT_ADJUSTMENTS)
         == LastN(a + LastN(b + c, MAX_RECENT_ADJUSTMENTS), MAX_RECENT_ADJUSTMENTS)
  {
  }

  /** The empty schema is the identity, exactly for schemas whose log is within its bound. */
  lemma EmptyIsIdentity(s: Content)
    ensures Merge(s, EMPTY) == s <==> |s.adjustments| <= MAX_RECENT_ADJUSTMENTS
    ensures Merge(EMPTY, s) == s <==> |s.adjustments| <= MAX_RECENT_ADJUSTMENTS
  {
  }

  /** A log of 101 entries loses its first to a merge with the empty schema, on either side. */
  lemma LongLogTrimmed(note: Adjustment) returns (s: Content)
    ensures |s.adjustments| == 101 && |Merge(s, EMPTY).adjustments| == |Merge(EMPTY, s).adjustments| == 100
    ensures Merge(s, EMPTY) != s && Merge(EMPTY, s) != s
  {
    s := EMPTY.(adjustments := seq(101, _ => note));
  }

  // ---- any number of schemas ----

  function MergeAll(list: seq<Content>): Content {
    if list == [] then EMPTY else Merge(MergeAll(list[..|list| - 1]), list[|list| - 1])
  }

  function SumOf<T>(s: seq<T>, f: T -> u64): nat {
    if s == [] then 0 else SumOf(s[..|s| - 1], f) + f(s[|s| - 1])
  }

  /** No later than: a report without a time is no later than any. */
  predicate NoLater(a: Option<real>, b: Option<real>) {
    match a
    case None => true
    case Some(time) => b.Some? && time <= b.value
  }

  /** The `i`-th report is the latest; of those that tie, the first. */
  ghost predicate IsLatest<T>(reports: seq<T>, at: T -> Option<real>, i: nat) {
    && i < |reports|
    && (forall j :: 0 <= j < |reports| ==> NoLater(at(reports[j]), at(reports[i])))
    && (forall j :: 0 <= j < i ==> !NoLater(at(reports[i]), at(reports[j])))
  }

  /** One more report becomes the latest exactly when it comes after the latest before it. */
  lemma LatestGrows<T>(reports: seq<T>, at: T -> Option<real>, i: nat, next: T)
    requires IsLatest(reports, at, i)
    ensures IsLatest(reports + [next], at, if After(at(next), at(reports[i])) then |reports| else i)
  {
  }

  /** What the schemas of a list report under one key, in order. */
  function Reports<V>(maps: seq<map<string, V>>, k: string): seq<V> {
    if maps == [] then []
    else
      var last := maps[|maps| - 1];
      Reports(maps[..|maps| - 1], k) + if k in last then [last[k]] else []
  }

  function Join<V>(reports: seq<V>, join: (V, V) -> V): V
    requires reports != []
  {
    if |reports| == 1 then reports[0] else join(Join(reports[..|reports| - 1], join), reports[|reports| - 1])
  }

  lemma JoinAppend<V>(reports: seq<V>, next: V, join: (V, V) -> V)
    ensures Join(reports + [next], join) == if reports == [] then next else join(Join(reports, join), next)
  {
  }

  function MergeMapsAll<V>(maps: seq<map<string, V>>, join: (V, V) -> V): map<string, V> {
    if maps == [] then map[] else MergeMaps(MergeMapsAll(maps[..|maps| - 1], join), maps[|maps| - 1], join)
  }

  /** Key by key, merging maps joins the reports. */
  lemma {:induction false} MergedAt<V>(maps: seq<map<string, V>>, join: (V, V) -> V, k: string)
    ensures k in MergeMapsAll(maps, join) <==> Reports(maps, k) != []
    ensures Reports(maps, k) != [] ==> MergeMapsAll(maps, join)[k] == Join(Reports(maps, k), join)
  {
    if maps == [] {
    } else {
      var n := |maps| - 1;
      MergedAt(maps[..n], join, k);
      if k in maps[n] {
        JoinAppend(Reports(maps[..n], k), maps[n][k], join);
      } else {
        assert Reports(maps, k) == Reports(maps[..n], k);
      }
    }
  }

  lemma {:induction false} MergeAllEndpoints(list: seq<Content>)
    ensures MergeAll(list).endpoints == MergeMapsAll(EndpointMaps(list), JoinEndpoints)
  {
    if list == [] {
    } else {
      MergeAllEndpoints(list[..|list| - 1]);
      assert EndpointMaps(list)[..|list| - 1] == EndpointMaps(list[..|list| - 1]);
    }
  }

  lemma {:induction false} MergeAllHints(list: seq<Content>)
    ensures MergeAll(list).hints == MergeMapsAll(HintMaps(list), JoinHints)
  {
    if list == [] {
    } else {
      MergeAllHints(list[..|list| - 1]);
      assert HintMaps(list)[..|list| - 1] == HintMaps(list[..|list| - 1]);
    }
  }

  function EndpointMaps(list: seq<Content>): seq<map<string, Endpoint>> {
    seq(|list|, i requires 0 <= i < |list| => list[i].endpoints)
  }

  function HintMaps(list: seq<Content>): seq<map<string, Hint>> {
    seq(|list|, i requires 0 <= i < |list| => list[i].hints)
  }

  function NumberMaps(list: seq<Content>): seq<map<string, real>> {
    seq(|list|, i requires 0 <= i < |list| => list[i].numeric)
  }

  function Capped(n: nat): u64 {
    if n < U64_LIMIT then n else SATURATED_COUNTER
  }

  lemma CappedAdds(n: nat, c: u64)
    ensures SaturatingAdd(Capped(n), c) == Capped(n + c)
  {
  }

  function ObservedAt(e: Endpoint): Option<real> {
    e.lastObservedAt
  }

  function SeenAt(h: Hint): Option<real> {
    h.lastSeenAt
  }

  function SuccessesOf(e: Endpoint): u64 {
    e.successes
  }

  function FailuresOf(e: Endpoint): u64 {
    e.failures
  }

  function CountOf(h: Hint): u64 {
    h.count
  }

  /** An endpoint counts every report, up to saturation. */
  predicate Counts(e: Endpoint, reports: seq<Endpoint>) {
    && e.successes == Capped(SumOf(reports, SuccessesOf))
    && e.failures == Capped(SumOf(reports, FailuresOf))
  }

  /** An endpoint has the shape and the time of the latest report. */
  ghost predicate LooksLikeLatest(e: Endpoint, reports: seq<Endpoint>) {
    exists i: nat :: IsLatest(reports, ObservedAt, i) && e.shape == reports[i].shape && e.lastObservedAt == reports[i].lastObservedAt
  }

  lemma SumOfAppend<T>(s: seq<T>, x: T, f: T -> u64)
    ensures SumOf(s + [x], f) == SumOf(s, f) + f(x)
  {
  }

  lemma CountsNext(e: Endpoint, reports: seq<Endpoint>, next: Endpoint)
    requires Counts(e, reports)
    ensures Counts(JoinEndpoints(e, next), reports + [next])
  {
  }

  lemma LatestNext(e: Endpoint, reports: seq<Endpoint>, next: Endpoint)
    requires LooksLikeLatest(e, reports)
    ensures LooksLikeLatest(JoinEndpoints(e, next), reports + [next])
  {
    var i: nat :| IsLatest(reports, ObservedAt, i) && e.shape == reports[i].shape && e.lastObservedAt == reports[i].lastObservedAt;
    LatestGrows(reports, ObservedAt, i, next);
    assert ObservedAt(reports[i]) == e.lastObservedAt;
  }

  /** Counters of joined endpoints are the capped sums, the shape is that of the latest report. */
  lemma {:induction false} EndpointsJoined(reports: seq<Endpoint>)
    requires reports != []
    ensures Counts(Join(reports, JoinEndpoints), reports)
    ensures LooksLikeLatest(Join(reports, JoinEndpoints), reports)
  {
    var n := |reports| - 1;
    assert reports == reports[..n] + [reports[n]];
    if n == 0 {
      SumOfAppend([], reports[0], SuccessesOf);
      SumOfAppend([], reports[0], FailuresOf);
      assert IsLatest(reports, ObservedAt, 0);
    } else {
      EndpointsJoined(reports[..n]);
      CountsNext(Join(reports[..n], JoinEndpoints), reports[..n], reports[n]);
      LatestNext(Join(reports[..n], JoinEndpoints), reports[..n], reports[n]);
    }
  }

  /** A hint keeps the key and first time of the first report, counts all, and tells the latest. */
  predicate CountsHints(h: Hint, reports: seq<Hint>)
    requires reports != []
  {
    h.key == reports[0].key && h.firstSeenAt == reports[0].firstSeenAt && h.count == Capped(SumOf(reports, CountOf))
  }

  ghost predicate TellsLatest(h: Hint, reports: seq<Hint>) {
    exists i: nat :: IsLatest(reports, SeenAt, i) && h.lastSeenAt == reports[i].lastSeenAt
      && h.summary == reports[i].summary && h.evidence == reports[i].evidence
  }

  lemma TellsNext(h: Hint, reports: seq<Hint>, next: Hint)
    requires TellsLatest(h, reports)
    ensures TellsLatest(JoinHints(h, next), reports + [next])
  {
    var i: nat :| IsLatest(reports, SeenAt, i) && h.lastSeenAt == reports[i].lastSeenAt
      && h.summary == reports[i].summary && h.evidence == reports[i].evidence;
    LatestGrows(reports, SeenAt, i, next);
    assert SeenAt(reports[i]) == h.lastSeenAt;
  }

  lemma {:induction false} HintsJoined(reports: seq<Hint>)
    requires reports != []
    ensures CountsHints(Join(reports, JoinHints), reports)
    ensures TellsLatest(Join(reports, JoinHints), reports)
  {
    var n := |reports| - 1;
    assert reports == reports[..n] + [reports[n]];
    SumOfAppend(reports[..n], reports[n], CountOf);
    if n == 0 {
      assert IsLatest(reports, SeenAt, 0);
    } else {
      HintsJoined(reports[..n]);
      CappedAdds(SumOf(reports[..n], CountOf), reports[n].count);
      TellsNext(Join(reports[..n], JoinHints), reports[..n], reports[n]);
    }
  }

  /** What a merge of any number of schemas says of an endpoint or a hint: all reports are counted, up to
      saturation, and the text is that of the latest report, the first of those that tie. */
  lemma MergedReports(list: seq<Content>, k: string)
    ensures var reports := Reports(EndpointMaps(list), k);
            && (k in MergeAll(list).endpoints <==> reports != [])
            && (reports != [] ==> Counts(MergeAll(list).endpoints[k], reports) && LooksLikeLatest(MergeAll(list).endpoints[k], reports))
    ensures var reports := Reports(HintMaps(list), k);
            && (k in MergeAll(list).hints <==> reports != [])
            && (reports != [] ==> CountsHints(MergeAll(list).hints[k], reports) && TellsLatest(MergeAll(list).hints[k], reports))
  {
    MergeAllEndpoints(list);
    MergeAllHints(list);
    MergedAt(EndpointMaps(list), JoinEndpoints, k);
    MergedAt(HintMaps(list), JoinHints, k);
    if Reports(EndpointMaps(list), k) != [] {
      EndpointsJoined(Reports(EndpointMaps(list), k));
    }
    if Reports(HintMaps(list), k) != [] {
      HintsJoined(Reports(HintMaps(list), k));
    }
  }

  /** A merged numeric hint is the largest reported. */
  lemma {:induction false} NumbersMerged(list: seq<Content>, k: string)
    ensures var reports, merged := Reports(NumberMaps(list), k), MergeAll(list).numeric;
            && (k in merged <==> reports != [])
            && (k in merged ==> merged[k] in reports && forall r :: r in reports ==> r <= merged[k])
  {
    if list == [] {
    } else {
      var n := |list| - 1;
      NumbersMerged(list[..n], k);
      assert NumberMaps(list)[..n] == NumberMaps(list[..n]);
    }
  }

  /** The merged log is the end of all logs, one after the other. */
  lemma {:induction false} AdjustmentsMerged(list: seq<Content>)
    ensures MergeAll(list).adjustments == LastN(FlatMap(list, (c: Content) => c.adjustments), MAX_RECENT_ADJUSTMENTS)
  {
    if list == [] {
    } else {
      var n := |list| - 1;
      AdjustmentsMerged(list[..n]);
      LastNLeft(FlatMap(list[..n], (c: Content) => c.adjustments), list[n].adjustments, MAX_RECENT_ADJUSTMENTS);
    }
  }

  // ---- registries ----

  datatype Registry = Registry(apis: map<string, Content>, adjustments: seq<Adjustment>)

  function Lookup<V>(m: map<string, V>, k: string): Option<V> {
    if k in m then Some(m[k]) else None
  }

  /** Each entry of `b` is put onto what `a` has under its key. */
  function PutAll<V>(a: map<string, V>, b: map<string, V>, put: (Option<V>, V) -> V): map<string, V> {
    map k | k in a.Keys + b.Keys :: if k in b then put(Lookup(a, k), b[k]) else a[k]
  }

  ghost predicate PutsCompose<V(!new)>(put: (Option<V>, V) -> V) {
    && (forall x, y, z :: put(Some(put(x, y)), z) == put(x, put(Some(y), z)))
    && (forall x, z :: put(x, put(None, z)) == put(x, z))
  }

  lemma PutAllAssociative<V(!new)>(a: map<string, V>, b: map<string, V>, c: map<string, V>, put: (Option<V>, V) -> V)
    requires PutsCompose(put)
    ensures PutAll(PutAll(a, b, put), c, put) == PutAll(a, PutAll(b, c, put), put)
  {
  }

  lemma PutOneMore<V>(a: map<string, V>, b: map<string, V>, unseen: set<string>, k: string, put: (Option<V>, V) -> V)
    requires k in unseen && unseen <= b.Keys
    ensures var before := PutAll(a, b - unseen, put);
            before[k := put(Lookup(before, k), b[k])] == PutAll(a, b - (unseen - {k}), put)
  {
  }

  /** `entry(api).or_default().merge(schema)` */
  function MergeEntry(known: Option<Content>, schema: Content): Content {
    Merge(if known.Some? then known.value else EMPTY, schema)
  }

  function MergeRegistries(a: Registry, b: Registry): Registry {
    Registry(PutAll(a.apis, b.apis, MergeEntry), LastN(a.adjustments + b.adjustments, MAX_RECENT_ADJUSTMENTS))
  }

  lemma EntriesCompose()
    ensures PutsCompose(MergeEntry)
  {
    forall x: Option<Content>, y, z
      ensures MergeEntry(Some(MergeEntry(x, y)), z) == MergeEntry(x, MergeEntry(Some(y), z))
    {
      MergeAssociative(if x.Some? then x.value else EMPTY, y, z);
    }
    forall x: Option<Content>, z ensures MergeEntry(x, MergeEntry(None, z)) == MergeEntry(x, z) {
      EmptyAbsorbed(if x.Some? then x.value else EMPTY, z);
    }
  }

  /** A schema that was first merged into an empty one merges as it would have itself. */
  lemma EmptyAbsorbed(a: Content, c: Content)
    ensures Merge(a, Merge(EMPTY, c)) == Merge(a, c)
  {
    MergeAssociative(a, EMPTY, c);
    MapsKept(a);
    LastNLeft(a.adjustments, c.adjustments, MAX_RECENT_ADJUSTMENTS);
  }

  lemma MapsKept(a: Content)
    ensures Merge(a, EMPTY) == a.(adjustments := LastN(a.adjustments, MAX_RECENT_ADJUSTMENTS))
  {
  }

  /** What a merged registry holds of each interface: both schemas merged where both know it, what one knows
      otherwise, the other's first cut to the bound of its log. */
  lemma RegistryMergedAt(a: Registry, b: Registry, api: string)
    ensures var merged := MergeRegistries(a, b).apis;
            && (api in merged <==> api in a.apis || api in b.apis)
            && (api in a.apis && api in b.apis ==> merged[api] == Merge(a.apis[api], b.apis[api]))
            && (api in a.apis && api !in b.apis ==> merged[api] == a.apis[api])
            && (api !in a.apis && api in b.apis ==>
                  merged[api] == b.apis[api].(adjustments := LastN(b.apis[api].adjustments, MAX_RECENT_ADJUSTMENTS)))
    ensures MergeRegistries(a, b).adjustments == LastN(a.adjustments + b.adjustments, 100)
  {
    if api !in a.apis && api in b.apis {
      MapsKeptRight(b.apis[api]);
    }
  }

  lemma MapsKeptRight(b: Content)
    ensures Merge(EMPTY, b) == b.(adjustments := LastN(b.adjustments, MAX_RECENT_ADJUSTMENTS))
  {
    assert [] + b.adjustments == b.adjustments;
  }

  /** Whole registries merge associatively too, although an unknown interface starts from an empty schema. */
  lemma RegistriesAssociative(a: Registry, b: Registry, c: Registry)
    ensures MergeRegistries(MergeRegistries(a, b), c) == MergeRegistries(a, MergeRegistries(b, c))
  {
    EntriesCompose();
    PutAllAssociative(a.apis, b.apis, c.apis, MergeEntry);
    AdjustmentsAssociative(a.adjustments, b.adjustments, c.adjustments);
  }

  // ---- saturation repair ----

  function Reset(count: u64): u64 {
    if count == SATURATED_COUNTER then 0 else count
  }

  function RepairedEndpoint(e: Endpoint): Endpoint {
    e.(successes := Reset(e.successes), failures := Reset(e.failures))
  }

  function RepairedHint(h: Hint): Hint {
    h.(count := Reset(h.count))
  }

  function Repaired(c: Content): Content {
    c.(endpoints := map k | k in c.endpoints :: RepairedEndpoint(c.endpoints[k]),
       hints := map k | k in c.hints :: RepairedHint(c.hints[k]))
  }

  predicate SaturatedEndpoint(e: Endpoint) {
    e.successes == SATURATED_COUNTER || e.failures == SATURATED_COUNTER
  }

  ghost predicate Saturated(c: Content) {
    || (exists k :: k in c.endpoints && SaturatedEndpoint(c.endpoints[k]))
    || (exists k :: k in c.hints && c.hints[k].count == SATURATED_COUNTER)
  }

  /** Repair touches a schema exactly when a counter is saturated, and leaves none that is. */
  lemma RepairRemovesSaturation(c: Content)
    ensures Repaired(c) == c <==> !Saturated(c)
    ensures !Saturated(Repaired(c)) && Repaired(Repaired(c)) == Repaired(c)
  {
  }

  /** A counter at its limit becomes 0, every other one and everything else stays. */
  lemma RepairResets(c: Content, k: string)
    ensures Repaired(c).endpoints.Keys == c.endpoints.Keys && Repaired(c).hints.Keys == c.hints.Keys
    ensures Repaired(c).numeric == c.numeric && Repaired(c).adjustments == c.adjustments
    ensures k in c.endpoints ==>
      var e, r := c.endpoints[k], Repaired(c).endpoints[k];
      && r.successes == (if e.successes == U64_LIMIT - 1 then 0 else e.successes)
      && r.failures == (if e.failures == U64_LIMIT - 1 then 0 else e.failures)
      && r.(successes := 0, failures := 0) == e.(successes := 0, failures := 0)
    ensures k in c.hints ==>
      var h, r := c.hints[k], Repaired(c).hints[k];
      r.count == (if h.count == U64_LIMIT - 1 then 0 else h.count) && r.(count := 0) == h.(count := 0)
  {
  }

  // ---- numeric observations ----

  function RaisedTo(numeric: map<string, real>, key: string, value: real): map<string, real> {
    if key in numeric && numeric[key] >= value then numeric else numeric[key := value]
  }

  /** The value is finite and above what is known. */
  predicate Rises(numeric: map<string, real>, key: string, value: Option<real>) {
    value.Some? && !(key in numeric && numeric[key] >= value.value)
  }

  /** `observe_numeric_hint`; a value that is not finite is absent. */
  function NumberObserved(c: Content, key: string, value: Option<real>, note: Adjustment): Content {
    if !Rises(c.numeric, key, value) then c
    else c.(numeric := RaisedTo(c.numeric, key, value.value),
            adjustments := LastN(c.adjustments + [note], MAX_RECENT_ADJUSTMENTS))
  }

  datatype Observation = Observation(key: string, value: Option<real>, note: Adjustment)

  function Observed(c: Content, obs: seq<Observation>): Content {
    if obs == [] then c
    else
      var last := obs[|obs| - 1];
      NumberObserved(Observed(c, obs[..|obs| - 1]), last.key, last.value, last.note)
  }

  /** The largest finite value observed under a key, starting from what was known. */
  function Peak(known: Option<real>, obs: seq<Observation>, key: string): Option<real> {
    if obs == [] then known
    else
      var last, before := obs[|obs| - 1], Peak(known, obs[..|obs| - 1], key);
      if last.key != key || last.value.None? then before
      else if before.None? || before.value < last.value.value then last.value
      else before
  }

  /** Hints only rise, to the largest finite value observed. */
  lemma {:induction false} HintIsPeak(c: Content, obs: seq<Observation>, key: string)
    ensures Lookup(Observed(c, obs).numeric, key) == Peak(Lookup(c.numeric, key), obs, key)
  {
    if obs == [] {
    } else {
      HintIsPeak(c, obs[..|obs| - 1], key);
    }
  }

  lemma {:induction false} PeakIsLargest(known: Option<real>, obs: seq<Observation>, key: string, i: nat)
    requires i < |obs| && obs[i].key == key && obs[i].value.Some?
    ensures Peak(known, obs, key).Some? && Peak(known, obs, key).value >= obs[i].value.value
  {
    if i < |obs| - 1 {
      PeakIsLargest(known, obs[..|obs| - 1], key, i);
    }
  }

  /** The notes of the observations that rose above all before them. */
  function RiseNotes(c: Content, obs: seq<Observation>): seq<Adjustment> {
    if obs == [] then []
    else
      var last, before := obs[|obs| - 1], obs[..|obs| - 1];
      var peak := Peak(Lookup(c.numeric, last.key), before, last.key);
      RiseNotes(c, before)
      + if last.value.Some? && (peak.None? || peak.value < last.value.value) then [last.note] else []
  }

  /** Just those are logged. */
  lemma {:induction false} RisesLogged(c: Content, obs: seq<Observation>)
    requires |c.adjustments| <= MAX_RECENT_ADJUSTMENTS
    ensures Observed(c, obs).adjustments == LastN(c.adjustments + RiseNotes(c, obs), MAX_RECENT_ADJUSTMENTS)
  {
    if obs == [] {
      assert c.adjustments + [] == c.adjustments;
    } else {
      var n := |obs| - 1;
      RisesLogged(c, obs[..n]);
      HintIsPeak(c, obs[..n], obs[n].key);
      LastNLeft(c.adjustments + RiseNotes(c, obs[..n]), [obs[n].note], MAX_RECENT_ADJUSTMENTS);
      assert c.adjustments + RiseNotes(c, obs[..n]) + [obs[n].note] == c.adjustments + (RiseNotes(c, obs[..n]) + [obs[n].note]);
    }
  }

  /** Whether observed before or after a merge, a value counts the same. */
  lemma ObserveThenMerge(a: map<string, real>, b: map<string, real>, key: string, value: real)
    ensures MergeMaps(a, RaisedTo(b, key, value), JoinNumbers) == RaisedTo(MergeMaps(a, b, JoinNumbers), key, value)
  {
  }

  // ---- the mutable schema ----

  class Schema {
    var version: u64
    var updatedAt: Option<real>
    var endpoints: map<string, Endpoint>
    var hints: map<string, Hint>
    var numeric: map<string, real>
    var adjustments: seq<Adjustment>

    constructor ()
      ensures Value() == EMPTY && version == 0 && updatedAt.None?
    {
      version, updatedAt := 0, None;
      endpoints, hints, numeric, adjustments := map[], map[], map[], [];
    }

    function Value(): Content
      reads this
    {
      Content(endpoints, hints, numeric, adjustments)
    }

    method Bump(now: real)
      modifies this`version, this`updatedAt
      ensures version == SaturatingAdd(old(version), 1) && updatedAt == Some(now)
    {
      version := if version < SATURATED_COUNTER then version + 1 else version;
      updatedAt := Some(now);
    }

    method TrimAdjustments()
      modifies this`adjustments
      ensures adjustments == LastN(old(adjustments), MAX_RECENT_ADJUSTMENTS)
    {
      if |adjustments| > MAX_RECENT_ADJUSTMENTS {
        var remove := |adjustments| - MAX_RECENT_ADJUSTMENTS;
        adjustments := adjustments[remove..];
      }
    }

    method MergeEndpoints(other: map<string, Endpoint>)
      modifies this`endpoints
      ensures endpoints == MergeMaps(old(endpoints), other, JoinEndpoints)
    {
      var unseen := other.Keys;
      while unseen != {}
        invariant unseen <= other.Keys
        invariant endpoints == MergeMaps(old(endpoints), other - unseen, JoinEndpoints)
        decreases unseen
      {
        var k :| k in unseen;
        var next := other[k];
        if k in endpoints {
          var existing := endpoints[k];
          var successes, failures := SaturatingAdd(existing.successes, next.successes), SaturatingAdd(existing.failures, next.failures);
          if After(next.lastObservedAt, existing.lastObservedAt) {
            existing := next;
          }
          next := existing.(successes := successes, failures := failures);
        }
        endpoints := endpoints[k := next];
        unseen := unseen - {k};
      }
      assert other - unseen == other;
    }

    method MergeHints(other: map<string, Hint>)
      modifies this`hints
      ensures hints == MergeMaps(old(hints), other, JoinHints)
    {
      var unseen := other.Keys;
      while unseen != {}
        invariant unseen <= other.Keys
        invariant hints == MergeMaps(old(hints), other - unseen, JoinHints)
        decreases unseen
      {
        var k :| k in unseen;
        var next := other[k];
        if k in hints {
          var existing := hints[k];
          existing := existing.(count := SaturatingAdd(existing.count, next.count));
          if After(next.lastSeenAt, existing.lastSeenAt) {
            existing := existing.(summary := next.summary, evidence := next.evidence, lastSeenAt := next.lastSeenAt);
          }
          next := existing;
        }
        hints := hints[k := next];
        unseen := unseen - {k};
      }
      assert other - unseen == other;
    }

    method MergeNumbers(other: map<string, real>)
      modifies this`numeric
      ensures numeric == MergeMaps(old(numeric), other, JoinNumbers)
    {
      var unseen := other.Keys;
      while unseen != {}
        invariant unseen <= other.Keys
        invariant numeric == MergeMaps(old(numeric), other - unseen, JoinNumbers)
        decreases unseen
      {
        var k :| k in unseen;
        numeric := numeric[k := if k in numeric && numeric[k] >= other[k] then numeric[k] else other[k]];
        unseen := unseen - {k};
      }
      assert other - unseen == other;
    }

    method MergeWith(other: Content, now: real)
      modifies this
      ensures Value() == Merge(old(Value()), other)
      ensures version == SaturatingAdd(old(version), 1) && updatedAt == Some(now)
    {
      MergeEndpoints(other.endpoints);
      MergeHints(other.hints);
      MergeNumbers(other.numeric);
      adjustments := adjustments + other.adjustments;
      TrimAdjustments();
      Bump(now);
    }

    method ObserveNumericHint(key: string, value: Option<real>, note: Adjustment, now: real)
      modifies this
      ensures Value() == NumberObserved(old(Value()), key, value, note)
      ensures if Rises(old(numeric), key, value) then version == SaturatingAdd(old(version), 1) && updatedAt == Some(now)
              else version == old(version) && updatedAt == old(updatedAt)
    {
      if value.None? || (key in numeric && numeric[key] >= value.value) {
        return;
      }
      numeric := numeric[key := value.value];
      adjustments := adjustments + [note];
      TrimAdjustments();
      Bump(now);
    }

    method RepairEndpoints() returns (repaired: bool)
      modifies this`endpoints
      ensures endpoints == map k | k in old(endpoints) :: RepairedEndpoint(old(endpoints)[k])
      ensures repaired <==> exists k :: k in old(endpoints) && SaturatedEndpoint(old(endpoints)[k])
    {
      var unseen := endpoints.Keys;
      repaired := false;
      while unseen != {}
        invariant unseen <= endpoints.Keys == old(endpoints).Keys
        invariant forall k :: k in endpoints ==>
          endpoints[k] == if k in unseen then old(endpoints)[k] else RepairedEndpoint(old(endpoints)[k])
        invariant repaired <==> exists k :: k in old(endpoints) && k !in unseen && SaturatedEndpoint(old(endpoints)[k])
        decreases unseen
      {
        var k :| k in unseen;
        var e := endpoints[k];
        if e.successes == SATURATED_COUNTER {
          e := e.(successes := 0);
          repaired := true;
        }
        if e.failures == SATURATED_COUNTER {
          e := e.(failures := 0);
          repaired := true;
        }
        endpoints := endpoints[k := e];
        unseen := unseen - {k};
      }
    }

    method RepairHints() returns (repaired: bool)
      modifies this`hints
      ensures hints == map k | k in old(hints) :: RepairedHint(old(hints)[k])
      ensures repaired <==> exists k :: k in old(hints) && old(hints)[k].count == SATURATED_COUNTER
    {
      var unseen := hints.Keys;
      repaired := false;
      while unseen != {}
        invariant unseen <= hints.Keys == old(hints).Keys
        invariant forall k :: k in hints ==>
          hints[k] == if k in unseen then old(hints)[k] else RepairedHint(old(hints)[k])
        invariant repaired <==> exists k :: k in old(hints) && k !in unseen && old(hints)[k].count == SATURATED_COUNTER
        decreases unseen
      {
        var k :| k in unseen;
        if hints[k].count == SATURATED_COUNTER {
          hints := hints[k := hints[k].(count := 0)];
          repaired := true;
        }
        unseen := unseen - {k};
      }
    }

    method RepairSaturatedCounters() returns (repaired: bool)
      modifies this
      ensures Value() == Repaired(old(Value()))
      ensures repaired <==> Saturated(old(Value()))
    {
      var inEndpoints := RepairEndpoints();
      var inHints := RepairHints();
      repaired := inEndpoints || inHints;
    }
  }

  /** The registry of all interfaces; its schemas are held as values. */
  class ApiRegistry {
    var version: u64
    var updatedAt: Option<real>
    var apis: map<string, Content>
    var adjustments: seq<Adjustment>

    function Value(): Registry
      reads this
    {
      Registry(apis, adjustments)
    }

    method MergeWith(other: Registry, now: real)
      modifies this
      ensures Value() == MergeRegistries(old(Value()), other)
      ensures version == SaturatingAdd(old(version), 1) && updatedAt == Some(now)
    {
      var unseen := other.apis.Keys;
      assert PutAll(apis, other.apis - unseen, MergeEntry) == apis;
      while unseen != {}
        invariant unseen <= other.apis.Keys
        invariant apis == PutAll(old(apis), other.apis - unseen, MergeEntry)
        invariant adjustments == old(adjustments) && version == old(version)
        decreases unseen
      {
        var api :| api in unseen;
        PutOneMore(old(apis), other.apis, unseen, api, MergeEntry);
        apis := apis[api := Merge(if api in apis then apis[api] else EMPTY, other.apis[api])];
        unseen := unseen - {api};
      }
      assert other.apis - unseen == other.apis;
      adjustments := LastN(adjustments + other.adjustments, MAX_RECENT_ADJUSTMENTS);
      version := if version < SATURATED_COUNTER then version + 1 else version;
      updatedAt := Some(now);
    }
  }
}
