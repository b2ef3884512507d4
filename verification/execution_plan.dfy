/** Execution plans put together from a request when no provider answers, and their cache (`src/app.rs`). */
module ExecutionPlan {
  import opened Common
  import opened JsonPointer
  import opened SchemaFallback

  /** Names, channels and relations as they were extracted from the request text. */
  datatype Context = Context(names: seq<string>, channels: seq<string>, sources: seq<string>, targets: seq<string>)

  /** The fields of a step that vary; its instructions are empty, it is not skipped, and it has no debate. */
  datatype Step = Step(agent: string, waitFor: seq<string>)

  function Key(s: string): string {
    LowerAscii(Trim(s))
  }

  function Keys(names: seq<string>): set<string> {
    set i | 0 <= i < |names| :: LowerAscii(names[i])
  }

  /** The agents of the first `n` names: trimmed, non-blank, and new ignoring case. */
  function Agents(names: seq<string>, n: nat): seq<string>
    requires n <= |names|
  {
    if n == 0 then []
    else
      var before, name := Agents(names, n - 1), Trim(names[n - 1]);
      if name == "" || LowerAscii(name) in Keys(before) then before else before + [name]
  }

  function ChannelMap(names: seq<string>, channels: seq<string>, n: nat): map<string, string>
    requires n <= |names|
  {
    if n == 0 then map[]
    else
      var before, name := ChannelMap(names, channels, n - 1), Trim(names[n - 1]);
      if name != "" && n <= |channels| && Trim(channels[n - 1]) != ""
      then before[Key(channels[n - 1]) := name] else before
  }

  function WaitsOf(deps: map<string, seq<string>>, agent: string): seq<string> {
    if agent in deps then deps[agent] else []
  }

  /** The first `n` relations whose channels are both known, as the agents each agent waits for. */
  function Dependencies(byChannel: map<string, string>, sources: seq<string>, targets: seq<string>, n: nat): map<string, seq<string>>
    requires n <= |sources| && n <= |targets|
  {
    if n == 0 then map[]
    else
      var deps := Dependencies(byChannel, sources, targets, n - 1);
      if Key(sources[n - 1]) in byChannel && Key(targets[n - 1]) in byChannel then
        var source, target := byChannel[Key(sources[n - 1])], byChannel[Key(targets[n - 1])];
        var waits := WaitsOf(deps, target);
        deps[target := if source in waits then waits else waits + [source]]
      else deps
  }

  function WaitFor(deps: map<string, seq<string>>, agents: seq<string>, i: nat): seq<string>
    requires i < |agents|
  {
    var waits := WaitsOf(deps, agents[i]);
    if waits == [] && i > 0 then [agents[i - 1]] else waits
  }

  function AgentsOf(c: Context): seq<string> {
    Agents(c.names, |c.names|)
  }

  function ByChannel(c: Context): map<string, string> {
    ChannelMap(c.names, c.channels, |c.names|)
  }

  /** Relations come in pairs; a source or target without its partner is dropped. */
  function Relations(c: Context): nat {
    if |c.sources| <= |c.targets| then |c.sources| else |c.targets|
  }

  function DependenciesOf(c: Context): map<string, seq<string>> {
    Dependencies(ByChannel(c), c.sources, c.targets, Relations(c))
  }

  function PlanSteps(deps: map<string, seq<string>>, agents: seq<string>): seq<Step> {
    seq(|agents|, i requires 0 <= i < |agents| => Step(agents[i], WaitFor(deps, agents, i)))
  }

  function StepsOf(c: Context): seq<Step> {
    PlanSteps(DependenciesOf(c), AgentsOf(c))
  }

  // ---- the loops ----

  /** Adds a name that is not blank, unless it is there already ignoring case. */
  method AddAgent(agents: seq<string>, seen: set<string>, trimmed: string) returns (more: seq<string>, keys: set<string>)
    requires seen == Keys(agents) && trimmed != ""
    ensures more == (if LowerAscii(trimmed) in Keys(agents) then agents else agents + [trimmed]) && keys == Keys(more)
  {
    more, keys := agents, seen;
    var dedupe := LowerAscii(trimmed);
    if dedupe !in seen {
      KeysAppend(agents, trimmed);
      keys := seen + {dedupe};
      more := agents + [trimmed];
    }
  }

  method CollectAgents(c: Context) returns (agents: seq<string>, byChannel: map<string, string>)
    ensures agents == AgentsOf(c) && byChannel == ByChannel(c)
  {
    agents, byChannel := [], map[];
    var seen: set<string> := {};
    for index := 0 to |c.names|
      invariant agents == Agents(c.names, index) && byChannel == ChannelMap(c.names, c.channels, index)
      invariant seen == Keys(agents)
    {
      var trimmed := Trim(c.names[index]);
      if trimmed != "" {
        agents, seen := AddAgent(agents, seen, trimmed);
        if index < |c.channels| {
          var channel := Trim(c.channels[index]);
          if channel != "" {
            byChannel := byChannel[LowerAscii(channel) := trimmed];
          }
        }
      }
    }
  }

  lemma KeysAppend(agents: seq<string>, name: string)
    ensures Keys(agents + [name]) == Keys(agents) + {LowerAscii(name)}
  {
    var longer := agents + [name];
    forall key | key in Keys(agents) + {LowerAscii(name)} ensures key in Keys(longer) {
      if key in Keys(agents) {
        var i :| 0 <= i < |agents| && LowerAscii(agents[i]) == key;
        assert longer[i] == agents[i];
      } else {
        assert longer[|agents|] == name;
      }
    }
  }

  method CollectDependencies(c: Context, byChannel: map<string, string>) returns (deps: map<string, seq<string>>)
    ensures deps == Dependencies(byChannel, c.sources, c.targets, Relations(c))
  {
    deps := map[];
    for index := 0 to Relations(c)
      invariant deps == Dependencies(byChannel, c.sources, c.targets, index)
    {
      var sourceKey, targetKey := LowerAscii(Trim(c.sources[index])), LowerAscii(Trim(c.targets[index]));
      if sourceKey in byChannel && targetKey in byChannel {
        var source, target := byChannel[sourceKey], byChannel[targetKey];
        if target !in deps {
          deps := deps[target := []];
        }
        if source !in deps[target] {
          deps := deps[target := deps[target] + [source]];
        }
      }
    }
  }

  /** What the agents from `i` on wait for is still recorded. */
  predicate Recorded(left: map<string, seq<string>>, deps: map<string, seq<string>>, agents: seq<string>, i: nat) {
    forall k :: i <= k < |agents| ==> WaitsOf(left, agents[k]) == WaitsOf(deps, agents[k])
  }

  lemma RemovedKeepsRest(left: map<string, seq<string>>, deps: map<string, seq<string>>, agents: seq<string>, i: nat)
    requires i < |agents| && NoDuplicates(agents) && Recorded(left, deps, agents, i)
    ensures Recorded(left - {agents[i]}, deps, agents, i + 1)
    ensures WaitsOf(left, agents[i]) == WaitsOf(deps, agents[i])
  {
  }

  method OrderSteps(agents: seq<string>, deps: map<string, seq<string>>) returns (steps: seq<Step>)
    requires NoDuplicates(agents)
    ensures steps == PlanSteps(deps, agents)
  {
    var left := deps;
    steps := [];
    for i := 0 to |agents|
      invariant steps == PlanSteps(deps, agents)[..i]
      invariant Recorded(left, deps, agents, i)
    {
      RemovedKeepsRest(left, deps, agents, i);
      var agent := agents[i];
      var waitFor := if agent in left then left[agent] else [];
      left := left - {agent};
      if waitFor == [] && i > 0 {
        waitFor := waitFor + [agents[i - 1]];
      }
      assert PlanSteps(deps, agents)[i] == Step(agent, waitFor);
      steps := steps + [Step(agent, waitFor)];
    }
  }

  method SynthesiseSteps(c: Context) returns (steps: Option<seq<Step>>)
    ensures steps == if AgentsOf(c) == [] then None else Some(StepsOf(c))
  {
    var agents, byChannel := CollectAgents(c);
    if agents == [] {
      return None;
    }
    var deps := CollectDependencies(c, byChannel);
    AgentsDistinct(c.names, |c.names|);
    var ordered := OrderSteps(agents, deps);
    return Some(ordered);
  }

  // ---- agents ----

  predicate DistinctIgnoringCase(agents: seq<string>) {
    forall i, j :: 0 <= i < j < |agents| ==> LowerAscii(agents[i]) != LowerAscii(agents[j])
  }

  lemma AppendDistinct(agents: seq<string>, name: string)
    requires DistinctIgnoringCase(agents) && LowerAscii(name) !in Keys(agents)
    ensures DistinctIgnoringCase(agents + [name])
  {
  }

  lemma {:induction false} AgentsDistinct(names: seq<string>, n: nat)
    requires n <= |names|
    ensures DistinctIgnoringCase(Agents(names, n)) && NoDuplicates(Agents(names, n))
  {
    if n == 0 {
    } else {
      AgentsDistinct(names, n - 1);
      var before, name := Agents(names, n - 1), Trim(names[n - 1]);
      if !(name == "" || LowerAscii(name) in Keys(before)) {
        AppendDistinct(before, name);
      }
    }
  }

  /** The name at `p` is not blank, and none before it is the same ignoring case. */
  predicate FirstOccurrence(names: seq<string>, p: nat)
    requires p < |names|
  {
    Trim(names[p]) != "" && forall q :: 0 <= q < p ==> Key(names[q]) != Key(names[p])
  }

  function FirstOccurrences(names: seq<string>, n: nat): seq<string>
    requires n <= |names|
  {
    if n == 0 then []
    else FirstOccurrences(names, n - 1) + if FirstOccurrence(names, n - 1) then [Trim(names[n - 1])] else []
  }

  lemma {:induction false} AgentKeys(names: seq<string>, n: nat, key: string)
    requires n <= |names| && key != ""
    ensures key in Keys(Agents(names, n)) <==> exists q :: 0 <= q < n && Key(names[q]) == key
  {
    if n == 0 {
    } else {
      var before, name := Agents(names, n - 1), Trim(names[n - 1]);
      AgentKeys(names, n - 1, key);
      KeysAppend(before, name);
      assert name == "" ==> Key(names[n - 1]) == "";
    }
  }

  /** The agents are the first occurrences of the names, each once, in the order they were listed. */
  lemma {:induction false} AgentsAreFirstOccurrences(names: seq<string>, n: nat)
    requires n <= |names|
    ensures Agents(names, n) == FirstOccurrences(names, n)
  {
    if n == 0 {
    } else {
      AgentsAreFirstOccurrences(names, n - 1);
      var name := Trim(names[n - 1]);
      if name != "" {
        AgentKeys(names, n - 1, LowerAscii(name));
      }
    }
  }

  // ---- relations ----

  /** Relation `r` links two known channels. */
  predicate Resolved(c: Context, r: nat) {
    r < Relations(c) && Key(c.sources[r]) in ByChannel(c) && Key(c.targets[r]) in ByChannel(c)
  }

  function SourceAgent(c: Context, r: nat): string
    requires Resolved(c, r)
  {
    ByChannel(c)[Key(c.sources[r])]
  }

  function TargetAgent(c: Context, r: nat): string
    requires Resolved(c, r)
  {
    ByChannel(c)[Key(c.targets[r])]
  }

  predicate Links(byChannel: map<string, string>, sources: seq<string>, targets: seq<string>, r: nat, target: string, source: string)
    requires r < |sources| && r < |targets|
  {
    && Key(sources[r]) in byChannel && Key(targets[r]) in byChannel
    && byChannel[Key(sources[r])] == source && byChannel[Key(targets[r])] == target
  }

  predicate NoDuplicates(s: seq<string>) {
    forall i, j :: 0 <= i < j < |s| ==> s[i] != s[j]
  }

  /** An agent waits exactly for the sources of the relations that end at it, each once. */
  lemma {:induction false} DependenciesAre(byChannel: map<string, string>, sources: seq<string>, targets: seq<string>, n: nat,
                                           target: string, source: string)
    requires n <= |sources| && n <= |targets|
    ensures var waits := WaitsOf(Dependencies(byChannel, sources, targets, n), target);
            NoDuplicates(waits) && (source in waits <==> exists r: nat :: r < n && Links(byChannel, sources, targets, r, target, source))
  {
    if n == 0 {
    } else {
      DependenciesAre(byChannel, sources, targets, n - 1, target, source);
      if Key(sources[n - 1]) in byChannel && Key(targets[n - 1]) in byChannel {
        assert Links(byChannel, sources, targets, n - 1, byChannel[Key(targets[n - 1])], byChannel[Key(sources[n - 1])]);
      }
      LinksSplit(byChannel, sources, targets, n, target, source);
    }
  }

  lemma LinksSplit(byChannel: map<string, string>, sources: seq<string>, targets: seq<string>, n: nat, target: string, source: string)
    requires 0 < n <= |sources| && n <= |targets|
    ensures (exists r: nat :: r < n && Links(byChannel, sources, targets, r, target, source))
      <==> (Links(byChannel, sources, targets, n - 1, target, source)
            || exists r: nat :: r < n - 1 && Links(byChannel, sources, targets, r, target, source))
  {
  }

  /** Sources are waited for in the order of the relations: a later one joins at the end. */
  lemma {:induction false} WaitsGrow(byChannel: map<string, string>, sources: seq<string>, targets: seq<string>, m: nat, n: nat, target: string)
    requires m <= n <= |sources| && n <= |targets|
    ensures WaitsOf(Dependencies(byChannel, sources, targets, m), target) <= WaitsOf(Dependencies(byChannel, sources, targets, n), target)
  {
    if m == n {
    } else {
      WaitsGrow(byChannel, sources, targets, m, n - 1, target);
    }
  }

  /** Name `i` is the last of the first `n` to bring a channel with this key. */
  predicate LastWithChannel(names: seq<string>, channels: seq<string>, n: nat, key: string, i: nat) {
    && i < n <= |names| && BringsChannel(names, channels, i, key)
    && forall j: nat :: i < j < n ==> !BringsChannel(names, channels, j, key)
  }

  /** Name `i` is not blank and comes with a channel that is not, of this key. */
  predicate BringsChannel(names: seq<string>, channels: seq<string>, i: nat, key: string)
    requires i < |names|
  {
    Trim(names[i]) != "" && i < |channels| && Trim(channels[i]) != "" && Key(channels[i]) == key
  }

  /** A channel stands for the last name that brought it. */
  lemma {:induction false} ChannelOfLast(names: seq<string>, channels: seq<string>, n: nat, key: string, i: nat)
    requires LastWithChannel(names, channels, n, key, i)
    ensures key in ChannelMap(names, channels, n) && ChannelMap(names, channels, n)[key] == Trim(names[i])
    decreases n
  {
    if i == n - 1 {
    } else {
      assert !BringsChannel(names, channels, n - 1, key);
      ChannelOfLast(names, channels, n - 1, key, i);
    }
  }

  /** And one that no name brought is not known. */
  lemma {:induction false} ChannelOfNone(names: seq<string>, channels: seq<string>, n: nat, key: string)
    requires n <= |names| && forall i: nat :: i < n ==> !BringsChannel(names, channels, i, key)
    ensures key !in ChannelMap(names, channels, n)
  {
    if n == 0 {
    } else {
      assert !BringsChannel(names, channels, n - 1, key);
      ChannelOfNone(names, channels, n - 1, key);
    }
  }

  /** Whatever the context, no step waits twice for the same agent. */
  lemma WaitForDistinct(c: Context, i: nat)
    requires i < |AgentsOf(c)|
    ensures NoDuplicates(StepsOf(c)[i].waitFor)
  {
    DependenciesAre(ByChannel(c), c.sources, c.targets, Relations(c), AgentsOf(c)[i], "");
  }

  /** Relation `r` ends at agent `i` and starts at one that is not planned before it. */
  predicate Backward(c: Context, r: nat, i: nat) {
    && Resolved(c, r) && i < |AgentsOf(c)| && TargetAgent(c, r) == AgentsOf(c)[i]
    && SourceAgent(c, r) !in AgentsOf(c)[..i]
  }

  ghost predicate Forward(c: Context) {
    forall r: nat, i: nat :: !Backward(c, r, i)
  }

  predicate WaitsForEarlier(c: Context, i: nat)
    requires i < |AgentsOf(c)|
  {
    forall x :: x in StepsOf(c)[i].waitFor ==> x in AgentsOf(c)[..i]
  }

  lemma WaitedForIsRelated(c: Context, i: nat, x: string) returns (r: nat)
    requires i < |AgentsOf(c)| && x in WaitsOf(DependenciesOf(c), AgentsOf(c)[i])
    ensures Resolved(c, r) && SourceAgent(c, r) == x && TargetAgent(c, r) == AgentsOf(c)[i]
  {
    var agent := AgentsOf(c)[i];
    DependenciesAre(ByChannel(c), c.sources, c.targets, Relations(c), agent, x);
    r :| r < Relations(c) && Links(ByChannel(c), c.sources, c.targets, r, agent, x);
  }

  lemma RelatedIsWaitedFor(c: Context, r: nat, i: nat)
    requires Resolved(c, r) && i < |AgentsOf(c)| && TargetAgent(c, r) == AgentsOf(c)[i]
    ensures SourceAgent(c, r) in WaitsOf(DependenciesOf(c), AgentsOf(c)[i])
  {
    var agent, source := AgentsOf(c)[i], SourceAgent(c, r);
    DependenciesAre(ByChannel(c), c.sources, c.targets, Relations(c), agent, source);
    assert Links(ByChannel(c), c.sources, c.targets, r, agent, source);
  }

  lemma ForwardWaitsForEarlier(c: Context, i: nat)
    requires Forward(c) && i < |AgentsOf(c)|
    ensures WaitsForEarlier(c, i)
  {
    var agents := AgentsOf(c);
    forall x | x in StepsOf(c)[i].waitFor ensures x in agents[..i] {
      if WaitsOf(DependenciesOf(c), agents[i]) == [] {
        assert agents[..i][i - 1] == agents[i - 1];
      } else {
        var r := WaitedForIsRelated(c, i, x);
        assert !Backward(c, r, i);
      }
    }
  }

  /** Steps wait for earlier steps only, exactly when the relations go forward. */
  lemma EarlierIffForward(c: Context)
    ensures Forward(c) <==> forall i: nat :: i < |AgentsOf(c)| ==> WaitsForEarlier(c, i)
  {
    if Forward(c) {
      forall i: nat | i < |AgentsOf(c)| ensures WaitsForEarlier(c, i) {
        ForwardWaitsForEarlier(c, i);
      }
    } else {
      var r: nat, i: nat :| Backward(c, r, i);
      RelatedIsWaitedFor(c, r, i);
      assert !WaitsForEarlier(c, i);
    }
  }

  // ---- running a plan ----

  /** A step may run once everything it waits for has finished. */
  predicate Ready(steps: seq<Step>, finished: set<string>, i: nat)
    requires i < |steps|
  {
    steps[i].agent !in finished && forall x :: x in steps[i].waitFor ==> x in finished
  }

  /** Agents finished after a run; a step that is not ready is passed over. */
  function Finished(steps: seq<Step>, run: seq<nat>): set<string> {
    if run == [] then {}
    else
      var before, i := Finished(steps, run[..|run| - 1]), run[|run| - 1];
      if i < |steps| && Ready(steps, before, i) then before + {steps[i].agent} else before
  }

  predicate Complete(steps: seq<Step>, finished: set<string>) {
    forall i :: 0 <= i < |steps| ==> steps[i].agent in finished
  }

  lemma {:induction false} FirstUnfinished(steps: seq<Step>, finished: set<string>, n: nat) returns (i: nat)
    requires n <= |steps| && exists k :: 0 <= k < n && steps[k].agent !in finished
    ensures i < n && steps[i].agent !in finished && forall k :: 0 <= k < i ==> steps[k].agent in finished
  {
    if exists k :: 0 <= k < n - 1 && steps[k].agent !in finished {
      i := FirstUnfinished(steps, finished, n - 1);
    } else {
      i := n - 1;
    }
  }

  /** When relations go forward, an unfinished plan has a step that is ready, in whatever order the steps
      before it ran; so running what is ready always completes it. */
  lemma ForwardNeverStuck(c: Context, finished: set<string>)
    requires Forward(c) && !Complete(StepsOf(c), finished)
    ensures exists i: nat :: i < |StepsOf(c)| && Ready(StepsOf(c), finished, i)
  {
    var steps := StepsOf(c);
    var i := FirstUnfinished(steps, finished, |steps|);
    ForwardWaitsForEarlier(c, i);
    forall x | x in steps[i].waitFor ensures x in finished {
      var k :| 0 <= k < i && AgentsOf(c)[..i][k] == x;
      assert steps[k].agent == x;
    }
    assert Ready(steps, finished, i);
  }

  /** The first `n` steps in the order listed. */
  function Listed(n: nat): seq<nat> {
    if n == 0 then [] else Listed(n - 1) + [n - 1]
  }

  function Prefix(agents: seq<string>, n: nat): set<string>
    requires n <= |agents|
  {
    set x | x in agents[..n]
  }

  lemma ReadyInTurn(c: Context, n: nat)
    requires Forward(c) && n < |StepsOf(c)|
    ensures Ready(StepsOf(c), Prefix(AgentsOf(c), n), n)
    ensures Prefix(AgentsOf(c), n + 1) == Prefix(AgentsOf(c), n) + {StepsOf(c)[n].agent}
  {
    ForwardWaitsForEarlier(c, n);
    AgentsDistinct(c.names, |c.names|);
    assert AgentsOf(c)[..n + 1] == AgentsOf(c)[..n] + [AgentsOf(c)[n]];
  }

  /** Listed order is such an order: it finishes every agent, one after the other. */
  lemma {:induction false} ListedOrderCompletes(c: Context, n: nat)
    requires Forward(c) && n <= |StepsOf(c)|
    ensures Finished(StepsOf(c), Listed(n)) == Prefix(AgentsOf(c), n)
  {
    if n == 0 {
    } else {
      ListedOrderCompletes(c, n - 1);
      ListedLength(n - 1);
      assert Listed(n)[..|Listed(n)| - 1] == Listed(n - 1);
      ReadyInTurn(c, n - 1);
    }
  }

  lemma {:induction false} ListedLength(n: nat)
    ensures |Listed(n)| == n && (n > 0 ==> Listed(n)[n - 1] == n - 1)
  {
    if n == 0 {
    } else {
      ListedLength(n - 1);
    }
  }

  /** A run can start exactly when nothing is related to the first agent; otherwise no run finishes any. */
  lemma StartsIffFirstIsFree(c: Context)
    requires AgentsOf(c) != []
    ensures (exists i: nat :: i < |StepsOf(c)| && Ready(StepsOf(c), {}, i))
      <==> forall r: nat :: Resolved(c, r) ==> TargetAgent(c, r) != AgentsOf(c)[0]
  {
    var steps := StepsOf(c);
    forall i: nat | 0 < i < |steps| ensures !Ready(steps, {}, i) {
      assert steps[i].waitFor != [] && steps[i].waitFor[0] in steps[i].waitFor;
    }
    if r: nat :| Resolved(c, r) && TargetAgent(c, r) == AgentsOf(c)[0] {
      RelatedIsWaitedFor(c, r, 0);
      assert SourceAgent(c, r) in steps[0].waitFor;
    } else {
      if steps[0].waitFor != [] {
        var r := WaitedForIsRelated(c, 0, steps[0].waitFor[0]);
      }
      assert Ready(steps, {}, 0);
    }
  }

  lemma {:induction false} StuckForever(steps: seq<Step>, run: seq<nat>)
    requires forall i: nat :: i < |steps| ==> !Ready(steps, {}, i)
    ensures Finished(steps, run) == {}
  {
    if run == [] {
    } else {
      StuckForever(steps, run[..|run| - 1]);
    }
  }

  // ---- which plans complete ----

  /** No two steps are for one agent. */
  predicate AgentsDiffer(steps: seq<Step>) {
    forall i, j :: 0 <= i < j < |steps| ==> steps[i].agent != steps[j].agent
  }

  /** A step for agent `x` has a lower rank than step `i`. */
  predicate RankedBefore(steps: seq<Step>, rank: seq<nat>, x: string, i: nat)
    requires |rank| == |steps| && i < |steps|
  {
    exists j :: 0 <= j < |steps| && steps[j].agent == x && rank[j] < rank[i]
  }

  /** Steps can be ranked so that each waits for planned agents of lower rank only: waiting has no cycle. */
  predicate Acyclic(steps: seq<Step>, rank: seq<nat>) {
    && |rank| == |steps|
    && forall i, x :: 0 <= i < |steps| && x in steps[i].waitFor ==> RankedBefore(steps, rank, x, i)
  }

  lemma {:induction false} LowestUnfinished(steps: seq<Step>, rank: seq<nat>, finished: set<string>, n: nat) returns (i: nat)
    requires |rank| == |steps| && n <= |steps| && exists k :: 0 <= k < n && steps[k].agent !in finished
    ensures i < n && steps[i].agent !in finished
    ensures forall k :: 0 <= k < n && steps[k].agent !in finished ==> rank[i] <= rank[k]
  {
    i := n - 1;
    if exists k :: 0 <= k < n - 1 && steps[k].agent !in finished {
      var j := LowestUnfinished(steps, rank, finished, n - 1);
      if steps[n - 1].agent in finished || rank[j] <= rank[n - 1] {
        i := j;
      }
    }
  }

  /** Without a cycle, an unfinished plan always has a step that is ready. */
  lemma AcyclicNeverStuck(steps: seq<Step>, rank: seq<nat>, finished: set<string>) returns (i: nat)
    requires Acyclic(steps, rank) && !Complete(steps, finished)
    ensures i < |steps| && Ready(steps, finished, i)
  {
    i := LowestUnfinished(steps, rank, finished, |steps|);
    forall x | x in steps[i].waitFor ensures x in finished {
      assert RankedBefore(steps, rank, x, i);
    }
  }

  function Unfinished(steps: seq<Step>, finished: set<string>): set<string> {
    set i | 0 <= i < |steps| && steps[i].agent !in finished :: steps[i].agent
  }

  /** So any run, however it began, can be carried on to completion. */
  lemma {:induction false} RunCompletes(steps: seq<Step>, rank: seq<nat>, run: seq<nat>) returns (longer: seq<nat>)
    requires Acyclic(steps, rank)
    ensures run <= longer && Complete(steps, Finished(steps, longer))
    decreases |Unfinished(steps, Finished(steps, run))|
  {
    longer := run;
    var finished := Finished(steps, run);
    if !Complete(steps, finished) {
      var i := AcyclicNeverStuck(steps, rank, finished);
      assert (run + [i])[..|run|] == run;
      assert Unfinished(steps, finished + {steps[i].agent}) == Unfinished(steps, finished) - {steps[i].agent};
      longer := RunCompletes(steps, rank, run + [i]);
    }
  }

  /** How long a run was when it finished an agent. */
  function FinishTime(steps: seq<Step>, run: seq<nat>, agent: string): nat {
    if run == [] || agent !in Finished(steps, run[..|run| - 1]) then |run|
    else FinishTime(steps, run[..|run| - 1], agent)
  }

  lemma {:induction false} FinishTimeAtMost(steps: seq<Step>, run: seq<nat>, agent: string)
    ensures FinishTime(steps, run, agent) <= |run|
  {
    if run != [] && agent in Finished(steps, run[..|run| - 1]) {
      FinishTimeAtMost(steps, run[..|run| - 1], agent);
    }
  }

  /** A finished agent waited for agents that had finished before it. */
  lemma {:induction false} WaitsFinishedEarlier(steps: seq<Step>, run: seq<nat>, i: nat, x: string)
    requires AgentsDiffer(steps) && i < |steps| && steps[i].agent in Finished(steps, run) && x in steps[i].waitFor
    ensures x in Finished(steps, run) && FinishTime(steps, run, x) < FinishTime(steps, run, steps[i].agent)
  {
    var init := run[..|run| - 1];
    if steps[i].agent in Finished(steps, init) {
      WaitsFinishedEarlier(steps, init, i, x);
    } else {
      FinishTimeAtMost(steps, init, x);
    }
  }

  lemma {:induction false} FinishedArePlanned(steps: seq<Step>, run: seq<nat>, x: string) returns (j: nat)
    requires x in Finished(steps, run)
    ensures j < |steps| && steps[j].agent == x
  {
    if x in Finished(steps, run[..|run| - 1]) {
      j := FinishedArePlanned(steps, run[..|run| - 1], x);
    } else {
      j := run[|run| - 1];
    }
  }

  lemma CompletedIsAcyclic(steps: seq<Step>, run: seq<nat>) returns (rank: seq<nat>)
    requires AgentsDiffer(steps) && Complete(steps, Finished(steps, run))
    ensures Acyclic(steps, rank)
  {
    rank := seq(|steps|, i requires 0 <= i < |steps| => FinishTime(steps, run, steps[i].agent));
    forall i, x | 0 <= i < |steps| && x in steps[i].waitFor ensures RankedBefore(steps, rank, x, i) {
      WaitsFinishedEarlier(steps, run, i, x);
      var j := FinishedArePlanned(steps, run, x);
      assert rank[j] == FinishTime(steps, run, x);
    }
  }

  ghost predicate CanComplete(steps: seq<Step>) {
    exists run: seq<nat> :: Completes(steps, run)
  }

  predicate Completes(steps: seq<Step>, run: seq<nat>) {
    Complete(steps, Finished(steps, run))
  }

  /** Agent `x` is planned with a lower rank than agent `i`. */
  predicate PlannedBefore(c: Context, rank: seq<nat>, x: string, i: nat)
    requires |rank| == |AgentsOf(c)| && i < |rank|
  {
    exists j :: 0 <= j < |rank| && AgentsOf(c)[j] == x && rank[j] < rank[i]
  }

  /** Some relation ends at agent `i`. */
  ghost predicate Awaits(c: Context, i: nat)
    requires i < |AgentsOf(c)|
  {
    exists r: nat :: EndsAt(c, r, i)
  }

  predicate EndsAt(c: Context, r: nat, i: nat)
    requires i < |AgentsOf(c)|
  {
    Resolved(c, r) && TargetAgent(c, r) == AgentsOf(c)[i]
  }

  /** The agents can be ranked so that every relation that ends at one starts at a planned agent of lower rank,
      and one at which none ends ranks above the agent listed before it. */
  ghost predicate Orders(c: Context, rank: seq<nat>) {
    && |rank| == |AgentsOf(c)|
    && (forall r: nat, i: nat :: i < |rank| && EndsAt(c, r, i) ==> PlannedBefore(c, rank, SourceAgent(c, r), i))
    && (forall i: nat :: 0 < i < |rank| && !Awaits(c, i) ==> rank[i - 1] < rank[i])
  }

  lemma RankedSame(c: Context, rank: seq<nat>, x: string, i: nat)
    requires |rank| == |AgentsOf(c)| && i < |rank|
    ensures RankedBefore(StepsOf(c), rank, x, i) <==> PlannedBefore(c, rank, x, i)
  {
    assert forall j :: 0 <= j < |rank| ==> StepsOf(c)[j].agent == AgentsOf(c)[j];
  }

  /** Who has a relation ending at it waits for its relations' sources, everyone else for the one before. */
  lemma WaitsFromContext(c: Context, i: nat, x: string)
    requires i < |AgentsOf(c)|
    ensures x in StepsOf(c)[i].waitFor <==>
      (exists r: nat :: EndsAt(c, r, i) && SourceAgent(c, r) == x) || (!Awaits(c, i) && i > 0 && x == AgentsOf(c)[i - 1])
  {
    var waits := WaitsOf(DependenciesOf(c), AgentsOf(c)[i]);
    if waits != [] {
      var r := WaitedForIsRelated(c, i, waits[0]);
      assert EndsAt(c, r, i);
    }
    if Awaits(c, i) {
      var r: nat :| EndsAt(c, r, i);
      RelatedIsWaitedFor(c, r, i);
    }
    if x in waits {
      var r := WaitedForIsRelated(c, i, x);
      assert EndsAt(c, r, i);
    }
    if r: nat :| EndsAt(c, r, i) && SourceAgent(c, r) == x {
      RelatedIsWaitedFor(c, r, i);
    }
  }

  lemma AcyclicIffOrders(c: Context, rank: seq<nat>)
    ensures Acyclic(StepsOf(c), rank) <==> Orders(c, rank)
  {
    if Acyclic(StepsOf(c), rank) {
      AcyclicOrders(c, rank);
    }
    if Orders(c, rank) {
      forall i, x | 0 <= i < |rank| && x in StepsOf(c)[i].waitFor ensures RankedBefore(StepsOf(c), rank, x, i) {
        WaitsFromContext(c, i, x);
        RankedSame(c, rank, x, i);
        if !Awaits(c, i) {
          assert AgentsOf(c)[i - 1] == x && rank[i - 1] < rank[i];
        }
      }
    }
  }

  lemma AcyclicOrders(c: Context, rank: seq<nat>)
    requires Acyclic(StepsOf(c), rank)
    ensures Orders(c, rank)
  {
    forall r: nat, i: nat | i < |rank| && EndsAt(c, r, i) ensures PlannedBefore(c, rank, SourceAgent(c, r), i) {
      WaitsFromContext(c, i, SourceAgent(c, r));
      RankedSame(c, rank, SourceAgent(c, r), i);
    }
    forall i: nat | 0 < i < |rank| && !Awaits(c, i) ensures rank[i - 1] < rank[i] {
      WaitsFromContext(c, i, AgentsOf(c)[i - 1]);
      RankedSame(c, rank, AgentsOf(c)[i - 1], i);
      AgentsDistinct(c.names, |c.names|);
    }
  }

  /** A synthesised plan can be completed exactly when its context orders the agents. */
  lemma CompletesIffOrdered(c: Context)
    ensures CanComplete(StepsOf(c)) <==> exists rank: seq<nat> :: Orders(c, rank)
  {
    var steps := StepsOf(c);
    AgentsDistinct(c.names, |c.names|);
    forall i, j | 0 <= i < j < |steps| ensures steps[i].agent != steps[j].agent {
      assert AgentsOf(c)[i] != AgentsOf(c)[j];
    }
    if CanComplete(steps) {
      var run: seq<nat> :| Completes(steps, run);
      var rank := CompletedIsAcyclic(steps, run);
      AcyclicIffOrders(c, rank);
    }
    if rank: seq<nat> :| Orders(c, rank) {
      AcyclicIffOrders(c, rank);
      var run := RunCompletes(steps, rank, []);
      assert Completes(steps, run);
    }
  }

  // ---- distinct names and channels ----

  /** Names are non-blank and distinct ignoring case, and so are the channels; each has its own. */
  predicate Distinct(c: Context) {
    && (forall i :: 0 <= i < |c.names| ==> FirstOccurrence(c.names, i))
    && |c.channels| == |c.names|
    && (forall i :: 0 <= i < |c.channels| ==> FirstOccurrence(c.channels, i))
  }

  lemma {:induction false} DistinctNamesListed(c: Context, n: nat)
    requires n <= |c.names| && Distinct(c)
    ensures FirstOccurrences(c.names, n) == TrimmedNames(c.names)[..n]
  {
    if n == 0 {
    } else {
      DistinctNamesListed(c, n - 1);
      assert FirstOccurrence(c.names, n - 1);
    }
  }

  function TrimmedNames(names: seq<string>): seq<string> {
    seq(|names|, i requires 0 <= i < |names| => Trim(names[i]))
  }

  lemma {:induction false} DistinctChannelsKnown(c: Context, n: nat, key: string)
    requires n <= |c.names| && Distinct(c)
    ensures key in ChannelMap(c.names, c.channels, n) <==> exists i :: 0 <= i < n && Key(c.channels[i]) == key
    ensures forall i :: 0 <= i < n && Key(c.channels[i]) == key ==>
      key in ChannelMap(c.names, c.channels, n) && ChannelMap(c.names, c.channels, n)[key] == Trim(c.names[i])
  {
    if n == 0 {
    } else {
      DistinctChannelsKnown(c, n - 1, key);
      assert FirstOccurrence(c.names, n - 1) && FirstOccurrence(c.channels, n - 1);
    }
  }

  /** With distinct names and channels, the plan lists each name once in order, and goes forward exactly
      when every relation between listed channels leads from an earlier agent to a later one. */
  lemma DistinctForward(c: Context)
    requires Distinct(c)
    ensures |AgentsOf(c)| == |c.names| && forall i :: 0 <= i < |c.names| ==> AgentsOf(c)[i] == Trim(c.names[i])
    ensures Forward(c) <==> forall r: nat, i: nat, j: nat :: Relates(c, r, i, j) ==> i < j
  {
    DistinctNamesListed(c, |c.names|);
    AgentsAreFirstOccurrences(c.names, |c.names|);
    if r: nat, i: nat, j: nat :| Relates(c, r, i, j) && i >= j {
      RelatesResolved(c, r, i, j);
      AgentsDistinct(c.names, |c.names|);
      assert AgentsOf(c)[i] !in AgentsOf(c)[..j];
      assert Backward(c, r, j);
    } else {
      forall r: nat, j: nat ensures !Backward(c, r, j) {
        if Backward(c, r, j) {
          ResolvedRelates(c, r, j);
        }
      }
    }
  }

  /** If a relation ends at the first agent, no run finishes any. */
  lemma FirstAwaitsStuck(c: Context)
    requires AgentsOf(c) != [] && Awaits(c, 0)
    ensures forall run: seq<nat> :: Finished(StepsOf(c), run) == {}
    ensures !CanComplete(StepsOf(c))
  {
    StartsIffFirstIsFree(c);
    forall run: seq<nat> ensures Finished(StepsOf(c), run) == {} && !Completes(StepsOf(c), run) {
      StuckForever(StepsOf(c), run);
      assert StepsOf(c)[0].agent !in Finished(StepsOf(c), run);
    }
  }

  /** Two agents, and a relation from the second back to the first. */
  function TwoAgents(): Context {
    Context(["A", "B"], ["a", "b"], ["b"], ["a"])
  }

  lemma TwoAgentsDistinct()
    ensures Distinct(TwoAgents()) && Relations(TwoAgents()) == 1 && Relates(TwoAgents(), 0, 1, 0)
  {
    var c := TwoAgents();
    assert LowerAscii("A")[0] == 'a' && LowerAscii("B")[0] == 'b' && LowerAscii("a")[0] == 'a' && LowerAscii("b")[0] == 'b';
    assert FirstOccurrence(c.names, 0) && FirstOccurrence(c.names, 1);
    assert FirstOccurrence(c.channels, 0) && FirstOccurrence(c.channels, 1);
  }

  /** Its one relation leads backwards and ends at the first agent, so each waits for the other. */
  lemma BackwardRelationStuck()
    ensures !Forward(TwoAgents()) && !CanComplete(StepsOf(TwoAgents()))
    ensures forall run: seq<nat> :: Finished(StepsOf(TwoAgents()), run) == {}
  {
    var c := TwoAgents();
    TwoAgentsDistinct();
    DistinctForward(c);
    RelatesResolved(c, 0, 1, 0);
    assert EndsAt(c, 0, 0);
    FirstAwaitsStuck(c);
  }

  /** Relation `r` leads from the channel of name `i` to that of name `j`. */
  predicate Relates(c: Context, r: nat, i: nat, j: nat)
    requires |c.channels| == |c.names|
  {
    r < Relations(c) && i < |c.names| && j < |c.names| && Key(c.channels[i]) == Key(c.sources[r]) && Key(c.channels[j]) == Key(c.targets[r])
  }

  lemma RelatesResolved(c: Context, r: nat, i: nat, j: nat)
    requires Distinct(c) && Relates(c, r, i, j)
    ensures Resolved(c, r) && SourceAgent(c, r) == Trim(c.names[i]) && TargetAgent(c, r) == Trim(c.names[j])
  {
    DistinctChannelsKnown(c, |c.names|, Key(c.sources[r]));
    DistinctChannelsKnown(c, |c.names|, Key(c.targets[r]));
  }

  lemma InPrefix(s: seq<string>, i: nat, j: nat)
    requires i < |s| && j <= |s|
    ensures i < j ==> s[i] in s[..j]
  {
  }

  lemma ResolvedRelates(c: Context, r: nat, j: nat)
    requires Distinct(c) && Backward(c, r, j) && |AgentsOf(c)| == |c.names|
    requires forall i :: 0 <= i < |c.names| ==> AgentsOf(c)[i] == Trim(c.names[i])
    ensures exists i: nat, k: nat :: Relates(c, r, i, k) && i >= k
  {
    DistinctChannelsKnown(c, |c.names|, Key(c.sources[r]));
    DistinctChannelsKnown(c, |c.names|, Key(c.targets[r]));
    var i: nat :| i < |c.names| && Key(c.channels[i]) == Key(c.sources[r]);
    var k: nat :| k < |c.names| && Key(c.channels[k]) == Key(c.targets[r]);
    AgentsDistinct(c.names, |c.names|);
    assert AgentsOf(c)[k] == AgentsOf(c)[j];
    InPrefix(AgentsOf(c), i, j);
    assert Relates(c, r, i, k);
  }

  // ---- the cache ----

  const EXECUTION_PLAN_CACHE_MAX_ENTRIES: nat := 64

  predicate HasSteps(plan: Json) {
    plan.Object? && "steps" in plan.fields && plan.fields["steps"].Array? && plan.fields["steps"].items != []
  }

  /** Storing into a full cache gives up some entry of another key. */
  predicate MayEvict(cache: map<string, Json>, key: string, victim: Option<string>) {
    if |cache| >= EXECUTION_PLAN_CACHE_MAX_ENTRIES && key !in cache then victim.Some? && victim.value in cache else victim.None?
  }

  function Stored(cache: map<string, Json>, key: string, plan: Json, victim: Option<string>): map<string, Json> {
    (if victim.Some? then cache - {victim.value} else cache)[key := plan]
  }

  function Loaded(cache: map<string, Json>, key: string, schema: Json): Option<Json> {
    if key in cache && HasSteps(cache[key]) && MatchesRequirements(schema, cache[key]) then Some(cache[key]) else None
  }

  class PlanCache {
    var cache: map<string, Json>

    constructor ()
      ensures cache == map[]
    {
      cache := map[];
    }

    method Load(key: string, schema: Json) returns (plan: Option<Json>)
      ensures plan == Loaded(cache, key, schema)
    {
      if key !in cache {
        return None;
      }
      var cached := cache[key];
      if !HasSteps(cached) {
        return None;
      }
      if !MatchesRequirements(schema, cached) {
        return None;
      }
      return Some(cached);
    }

    method Store(key: string, plan: Json) returns (ghost victim: Option<string>)
      modifies this
      ensures MayEvict(old(cache), key, victim) && cache == Stored(old(cache), key, plan, victim)
    {
      victim := None;
      if |cache| >= EXECUTION_PLAN_CACHE_MAX_ENTRIES && key !in cache && |cache| > 0 {
        var evicted :| evicted in cache;
        victim := Some(evicted);
        cache := cache - {evicted};
      }
      cache := cache[key := plan];
    }
  }

  /** A store is served back exactly when the plan has a step and meets the requirements of the schema
      asked for; other keys answer as before, but for one that gave way. */
  lemma LoadAfterStore(cache: map<string, Json>, key: string, plan: Json, victim: Option<string>, other: string, schema: Json)
    requires MayEvict(cache, key, victim)
    ensures Loaded(Stored(cache, key, plan, victim), key, schema)
         == if HasSteps(plan) && MatchesRequirements(schema, plan) then Some(plan) else None
    ensures other != key && Some(other) != victim ==>
      Loaded(Stored(cache, key, plan, victim), other, schema) == Loaded(cache, other, schema)
  {
  }

  /** Nothing gives way while there is room, or for a key that is known. */
  lemma StoreKeepsOthers(cache: map<string, Json>, key: string, plan: Json, victim: Option<string>)
    requires MayEvict(cache, key, victim) && (|cache| < EXECUTION_PLAN_CACHE_MAX_ENTRIES || key in cache)
    ensures Stored(cache, key, plan, victim) == cache[key := plan]
  {
  }

  lemma StoreBounded(cache: map<string, Json>, key: string, plan: Json, victim: Option<string>)
    requires MayEvict(cache, key, victim) && |cache| <= EXECUTION_PLAN_CACHE_MAX_ENTRIES
    ensures |Stored(cache, key, plan, victim)| <= EXECUTION_PLAN_CACHE_MAX_ENTRIES
  {
  }

  datatype Store = Store(key: string, plan: Json, victim: Option<string>)

  function After(stores: seq<Store>): map<string, Json> {
    if stores == [] then map[]
    else
      var before, s := After(stores[..|stores| - 1]), stores[|stores| - 1];
      if MayEvict(before, s.key, s.victim) then Stored(before, s.key, s.plan, s.victim) else before
  }

  /** The cache never holds more than 64 plans. */
  lemma {:induction false} CacheBounded(stores: seq<Store>)
    ensures |After(stores)| <= EXECUTION_PLAN_CACHE_MAX_ENTRIES
  {
    if stores == [] {
    } else {
      var before, s := After(stores[..|stores| - 1]), stores[|stores| - 1];
      CacheBounded(stores[..|stores| - 1]);
      if MayEvict(before, s.key, s.victim) {
        StoreBounded(before, s.key, s.plan, s.victim);
      }
    }
  }

  // ---- the fallback answer ----

  predicate Blank(plan: Json) {
    plan.Object? && "steps" in plan.fields && plan.fields["steps"] == Array([])
  }

  /** The schema branch of `degraded_chat_completion_for_upstream_error`; `plan` says whether the request
      wants a plan. */
  function FallbackAnswer(schema: Json, plan: bool, cached: Option<Json>, steps: Option<seq<Json>>): Json {
    var minimal := MinimalJson(schema).value;
    var value := if plan && Blank(minimal) && cached.Some? then cached.value else minimal;
    if plan && Blank(value) && steps.Some? then Object(value.fields["steps" := Array(steps.value)]) else value
  }

  /** A value with an empty list of steps. */
  predicate LacksSteps(value: Json) {
    Get(value, "steps") == Some(Array([]))
  }

  /** Every fallback answer is the minimal value, unless a plan is wanted and that lacks steps: then it is a usable
      cached plan, or else the minimal value with the steps of the named agents, if there are any. */
  lemma FallbackIs(cache: map<string, Json>, key: string, schema: Json, plan: bool, steps: Option<seq<Json>>)
    ensures var minimal, cached := MinimalJson(schema).value, Loaded(cache, key, schema);
            FallbackAnswer(schema, plan, cached, steps) ==
              if !plan || !LacksSteps(minimal) then minimal
              else if cached.Some? then cached.value
              else if steps.None? then minimal
              else Object(minimal.fields["steps" := Array(steps.value)])
  {
  }

  /** It meets the requirements exactly when a usable cached plan takes the place of a blank one or the minimal
      value does. A plan has steps exactly when its minimal value, a usable cached plan or the agents of the
      context supply them. */
  lemma FallbackMatches(cache: map<string, Json>, key: string, schema: Json, plan: bool, steps: Option<seq<Json>>)
    ensures var minimal, cached := MinimalJson(schema).value, Loaded(cache, key, schema);
            var answer := FallbackAnswer(schema, plan, cached, steps);
            && (MatchesRequirements(schema, answer) <==>
                  (plan && LacksSteps(minimal) && cached.Some?) || MatchesRequirements(schema, minimal))
            && (HasSteps(answer) <==>
                  HasSteps(minimal) || (plan && LacksSteps(minimal) && (cached.Some? || (steps.Some? && steps.value != []))))
  {
    FallbackIs(cache, key, schema, plan, steps);
  }
}
