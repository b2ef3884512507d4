/** When a network's reply may replace the model's (`src/aarnn_bridge.rs`). Scores are reals. */
module PromotionGate {
  import opened Common

  const WINDOW: nat := 32
  const RECENT: nat := 10
  const MIN_SAMPLES: nat := 20

  datatype Config = Config(preferAarnn: bool, threshold: real, minReplyChars: nat)

  /** One reply to judge: its task, the candidate, its token overlap with the model's text and with the
      prompt, its text once trimmed, and whether that differs from the model's text. */
  datatype Sample = Sample(
    task: string, candidate: Option<Candidate>, agreement: real, relevance: real, trimmed: string, distinct: bool)

  datatype Evaluation = Evaluation(quality: real, samples: nat, eligible: bool)

  // ---- token overlap ----

  /** `token_overlap`, on the sets of lower-case tokens. */
  function TokenOverlap(left: set<string>, right: set<string>): (score: real)
    ensures 0.0 <= score <= 1.0
    ensures score == 1.0 <==> left == right != {}
    ensures score == 0.0 <==> left * right == {}
  {
    if left == {} || right == {} then 0.0
    else
      assert left + right != {} by { assert left <= left + right; }
      OverlapSizes(left, right);
      RatioRange(|left * right|, |left + right|);
      (|left * right| as real) / (|left + right| as real)
  }

  lemma OverlapSizes(left: set<string>, right: set<string>)
    ensures |left * right| <= |left + right|
    ensures |left * right| == |left + right| <==> left == right
    ensures |left * right| == 0 <==> left * right == {}
  {
    SubsetSize(left * right, left + right);
    if left * right == left + right {
      assert left <= left * right && right <= left * right;
    }
    if left == right {
      assert left * right == left + right;
    }
  }

  lemma RatioRange(n: nat, m: nat)
    requires n <= m && m > 0
    ensures 0.0 <= (n as real) / (m as real) <= 1.0
    ensures (n as real) / (m as real) == 1.0 <==> n == m
    ensures (n as real) / (m as real) == 0.0 <==> n == 0
  {
    var ratio, all := (n as real) / (m as real), m as real;
    assert ratio * all == n as real && (1.0 - ratio) * all == (m - n) as real;
    SignOfProduct(ratio, all);
    SignOfProduct(1.0 - ratio, all);
  }

  lemma SignOfProduct(x: real, y: real)
    requires y > 0.0
    ensures (x * y >= 0.0 <==> x >= 0.0) && (x * y == 0.0 <==> x == 0.0)
  {
  }

  // ---- scores ----

  function Clamp(x: real): (y: real)
    ensures 0.0 <= y <= 1.0
  {
    if x < 0.0 then 0.0 else if x > 1.0 then 1.0 else x
  }

  function Confidence(s: Sample): real {
    if s.candidate.Some? && s.candidate.value.confidence.Some? then s.candidate.value.confidence.value else 0.0
  }

  predicate Decoded(c: Option<Candidate>) {
    c.Some? && c.value.usable && c.value.source == Some("network_output_decoder")
  }

  function ReplyText(c: Option<Candidate>): string {
    if c.Some? && c.value.reply.Some? then c.value.reply.value else ""
  }

  function Quality(config: Config, s: Sample): (q: real)
    ensures 0.0 <= q <= 1.0
  {
    if Decoded(s.candidate) && |ReplyText(s.candidate)| >= config.minReplyChars
    then Clamp(s.agreement * 0.45 + s.relevance * 0.25 + Confidence(s) * 0.30) else 0.0
  }

  /** A decoded reply that is long enough is scored 0.45 for agreement, 0.25 for relevance and 0.30 for confidence,
      each between 0 and 1; any other reply scores 0. */
  lemma QualityIs(config: Config, s: Sample)
    requires 0.0 <= s.agreement <= 1.0 && 0.0 <= s.relevance <= 1.0 && 0.0 <= Confidence(s) <= 1.0
    ensures Decoded(s.candidate) && |ReplyText(s.candidate)| >= config.minReplyChars ==>
      1.0 - Quality(config, s) == 0.45 * (1.0 - s.agreement) + 0.25 * (1.0 - s.relevance) + 0.30 * (1.0 - Confidence(s))
    ensures !(Decoded(s.candidate) && |ReplyText(s.candidate)| >= config.minReplyChars) ==> Quality(config, s) == 0.0
  {
  }

  function Sum(scores: seq<real>): real {
    if scores == [] then 0.0 else Sum(scores[..|scores| - 1]) + scores[|scores| - 1]
  }

  /** Whether the mean of `scores` is at least `bound`; the source divides. */
  predicate MeanAtLeast(scores: seq<real>, bound: real) {
    Sum(scores) >= bound * (|scores| as real)
  }

  predicate Eligible(config: Config, window: seq<real>, confidence: real) {
    && |window| >= MIN_SAMPLES
    && MeanAtLeast(window, 0.80) && MeanAtLeast(LastN(window, RECENT), 0.75)
    && confidence >= config.threshold
  }

  function WindowOf(history: map<string, seq<real>>, task: string): seq<real> {
    if task in history then history[task] else []
  }

  function Recorded(history: map<string, seq<real>>, config: Config, s: Sample): map<string, seq<real>> {
    history[s.task := LastN(WindowOf(history, s.task) + [Quality(config, s)], WINDOW)]
  }

  predicate Promotes(config: Config, window: seq<real>, s: Sample) {
    && config.preferAarnn && Eligible(config, window, Confidence(s))
    && Decoded(s.candidate) && s.candidate.value.reply.Some?
    && s.trimmed != "" && |s.trimmed| >= config.minReplyChars && s.distinct
  }

  class Gate {
    const config: Config
    var history: map<string, seq<real>>

    constructor (config: Config)
      ensures this.config == config && history == map[]
    {
      this.config := config;
      history := map[];
    }

    /** A new score enters the task's window; the oldest leave while it is too long. */
    method Push(task: string, score: real) returns (samples: seq<real>)
      modifies this`history
      ensures samples == LastN(WindowOf(old(history), task) + [score], WINDOW)
      ensures history == old(history)[task := samples]
    {
      samples := if task in history then history[task] else [];
      samples := samples + [score];
      ghost var all := samples;
      while |samples| > WINDOW
        invariant LastN(samples, WINDOW) == LastN(all, WINDOW) && history == old(history)
      {
        DropOldest(samples);
        samples := samples[1..];
      }
      history := history[task := samples];
    }

    method EvaluateCandidate(s: Sample) returns (e: Evaluation)
      modifies this`history
      ensures history == Recorded(old(history), config, s)
      ensures e.quality == Quality(config, s) && e.samples == |history[s.task]|
      ensures e.eligible <==> Eligible(config, history[s.task], Confidence(s))
    {
      var quality := Quality(config, s);
      var samples := Push(s.task, quality);
      var sustained := Sustained(samples);
      e := Evaluation(quality, |samples|, sustained && Confidence(s) >= config.threshold);
    }

    method ShouldPromote(s: Sample) returns (promoted: bool)
      modifies this`history
      ensures history == Recorded(old(history), config, s)
      ensures promoted <==> Promotes(config, history[s.task], s)
    {
      var e := EvaluateCandidate(s);
      if !config.preferAarnn || !e.eligible {
        return false;
      }
      if s.candidate.None? || !s.candidate.value.usable || s.candidate.value.source != Some("network_output_decoder") {
        return false;
      }
      if s.candidate.value.reply.None? || s.trimmed == "" || |s.trimmed| < config.minReplyChars {
        return false;
      }
      return s.distinct;
    }
  }

  lemma DropOldest(samples: seq<real>)
    requires |samples| > WINDOW
    ensures LastN(samples[1..], WINDOW) == LastN(samples, WINDOW)
  {
  }

  method Sustained(samples: seq<real>) returns (sustained: bool)
    requires samples != []
    ensures sustained <==>
      |samples| >= MIN_SAMPLES && MeanAtLeast(samples, 0.80) && MeanAtLeast(LastN(samples, RECENT), 0.75)
  {
    var n := |samples|;
    var average := Sum(samples) / (n as real);
    var latest := samples[n - (if n < RECENT then n else RECENT)..];
    var recent := Sum(latest) / (|latest| as real);
    assert latest == LastN(samples, RECENT);
    MeanByDivision(samples, 0.80);
    MeanByDivision(latest, 0.75);
    sustained := n >= MIN_SAMPLES && average >= 0.80 && recent >= 0.75;
  }

  lemma MeanByDivision(scores: seq<real>, bound: real)
    requires scores != []
    ensures Sum(scores) / (|scores| as real) >= bound <==> MeanAtLeast(scores, bound)
  {
  }

  // ---- every history ----

  function After(config: Config, seen: seq<Sample>): map<string, seq<real>> {
    if seen == [] then map[] else Recorded(After(config, seen[..|seen| - 1]), config, seen[|seen| - 1])
  }

  /** All quality scores of one task, in order. */
  function ScoresOf(config: Config, seen: seq<Sample>, task: string): seq<real> {
    FlatMap(seen, (s: Sample) => if s.task == task then [Quality(config, s)] else [])
  }

  /** A task's window is the last 32 of all its scores, whatever other tasks were judged in between. */
  lemma {:induction false} WindowIsLast(config: Config, seen: seq<Sample>, task: string)
    ensures WindowOf(After(config, seen), task) == LastN(ScoresOf(config, seen, task), WINDOW)
  {
    if seen == [] {
    } else {
      var n := |seen| - 1;
      WindowIsLast(config, seen[..n], task);
      if seen[n].task == task {
        LastNLeft(ScoresOf(config, seen[..n], task), [Quality(config, seen[n])], WINDOW);
      } else {
        assert ScoresOf(config, seen, task) == ScoresOf(config, seen[..n], task);
      }
    }
  }

  predicate Unit(scores: seq<real>) {
    forall i :: 0 <= i < |scores| ==> 0.0 <= scores[i] <= 1.0
  }

  lemma {:induction false} ScoresUnit(config: Config, seen: seq<Sample>, task: string)
    ensures Unit(ScoresOf(config, seen, task))
  {
    if seen == [] {
    } else {
      ScoresUnit(config, seen[..|seen| - 1], task);
    }
  }

  function Zeros(scores: seq<real>): nat {
    if scores == [] then 0 else Zeros(scores[..|scores| - 1]) + if scores[|scores| - 1] == 0.0 then 1 else 0
  }

  /** Each zero takes a whole point off the highest sum possible. */
  lemma {:induction false} ZerosCost(scores: seq<real>)
    requires Unit(scores)
    ensures Sum(scores) <= (|scores| as real) - (Zeros(scores) as real)
  {
    if scores == [] {
    } else {
      ZerosCost(scores[..|scores| - 1]);
    }
  }

  /** Recent samples of a window are recent samples of the whole. */
  lemma RecentOfWindow(scores: seq<real>)
    ensures LastN(LastN(scores, WINDOW), RECENT) == LastN(scores, RECENT)
  {
  }

  /** A reply is promoted only after twenty evaluations of its task, of which at most six of the last 32 and
      at most two of the last ten scored zero, and only if it was decoded and long enough. */
  lemma PromotionNeedsHistory(config: Config, seen: seq<Sample>, s: Sample)
    requires Promotes(config, WindowOf(After(config, seen + [s]), s.task), s)
    ensures var scores := ScoresOf(config, seen + [s], s.task);
            && |scores| >= MIN_SAMPLES
            && Zeros(LastN(scores, WINDOW)) <= 6
            && Zeros(LastN(scores, RECENT)) <= 2
    ensures config.preferAarnn && Decoded(s.candidate) && s.trimmed != "" && |s.trimmed| >= config.minReplyChars
    ensures s.distinct && Confidence(s) >= config.threshold
  {
    var scores := ScoresOf(config, seen + [s], s.task);
    WindowIsLast(config, seen + [s], s.task);
    ScoresUnit(config, seen + [s], s.task);
    RecentOfWindow(scores);
    ZerosCost(LastN(scores, WINDOW));
    ZerosCost(LastN(scores, RECENT));
  }

  lemma {:induction false} SumAtLeast(scores: seq<real>, bound: real)
    requires forall i :: 0 <= i < |scores| ==> scores[i] >= bound
    ensures Sum(scores) >= bound * (|scores| as real)
  {
    if scores == [] {
    } else {
      SumAtLeast(scores[..|scores| - 1], bound);
    }
  }

  lemma SteadyIsEligible(config: Config, window: seq<real>, confidence: real)
    requires |window| >= 20 && confidence >= config.threshold
    requires forall i :: 0 <= i < |window| ==> window[i] >= 0.80
    ensures Eligible(config, window, confidence)
  {
    SumAtLeast(window, 0.80);
    var recent := LastN(window, RECENT);
    assert forall i :: 0 <= i < |recent| ==> recent[i] == window[|window| - RECENT + i];
    SumAtLeast(recent, 0.75);
  }

  /** And a task that has kept scoring well is promoted: twenty evaluations, none of the last 32 below 0.8. */
  lemma SteadyPromotes(config: Config, seen: seq<Sample>, s: Sample)
    requires var scores := ScoresOf(config, seen + [s], s.task);
             |scores| >= 20 && forall i :: 0 <= i < |LastN(scores, 32)| ==> LastN(scores, 32)[i] >= 0.80
    requires config.preferAarnn && Confidence(s) >= config.threshold && Decoded(s.candidate) && s.candidate.value.reply.Some?
    requires s.trimmed != "" && |s.trimmed| >= config.minReplyChars && s.distinct
    ensures Promotes(config, WindowOf(After(config, seen + [s]), s.task), s)
  {
    WindowIsLast(config, seen + [s], s.task);
    SteadyIsEligible(config, WindowOf(After(config, seen + [s]), s.task), Confidence(s));
  }

  /** The bounds are the best possible: a full window of ones but for six zeros, two of them recent, passes. */
  lemma BoundsReached(config: Config, window: seq<real>, confidence: real)
    requires |window| == WINDOW && Unit(window) && confidence >= config.threshold
    requires forall i :: 0 <= i < WINDOW ==> window[i] == 0.0 || window[i] == 1.0
    ensures Eligible(config, window, confidence) <==> Zeros(window) <= 6 && Zeros(LastN(window, RECENT)) <= 2
  {
    ZeroOneSum(window);
    ZeroOneSum(LastN(window, RECENT));
  }

  lemma {:induction false} ZeroOneSum(scores: seq<real>)
    requires forall i :: 0 <= i < |scores| ==> scores[i] == 0.0 || scores[i] == 1.0
    ensures Sum(scores) == (|scores| as real) - (Zeros(scores) as real)
  {
    if scores == [] {
    } else {
      ZeroOneSum(scores[..|scores| - 1]);
    }
  }
}
