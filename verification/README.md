# Gail: verified models of its codecs, state machines and registries

Gail is an AI gateway. It sends requests to language-model providers, mirrors exchanges to AARNN
networks, keeps a ledger of interactions that workers replay and train on, answers Alexa requests,
and tracks the health and shape of the remote interfaces it uses. Most of it is HTTP plumbing; this
project models the parts that are algorithms or protocols, and proves what they are there for.

Each file is one module:

| file | part of Gail |
|---|---|
| `calendar.dfy`, `timestamps.dfy` | civil-date arithmetic and the RFC 3339 (section 5.6) parser of Alexa requests |
| `speech_ssml.dfy` | bounded SSML output that never cuts an entity |
| `pending_answers.dfy`, `chain_cache.dfy` | answers waiting for a yes, and the cache of signing chains |
| `aer_codec.dfy`, `aer_spikes.dfy` | the AER1 wire format, spike vectors and speech frames |
| `spike_sketch.dfy` | the bottom-k projection of a text onto a sensory layer |
| `sessions.dfy` | the peripheral-session slot shared by concurrent mirrors, and bounded retries |
| `promotion_gate.dfy` | when a network's reply may replace the model's |
| `mirror_ledger.dfy`, `training_ledger.dfy` | rows of the interaction ledger under retries, validation and recovery |
| `ledger_consumer.dfy` | the consumer that writes ledger records to the file and to Postgres |
| `json_pointer.dfy`, `schema_fallback.dfy`, `execution_plan.dfy` | pointers in JSON, fallback instances of JSON schemas, synthesised plans and their cache |
| `adaptive_merge.dfy`, `api_issues.dfy` | mergeable interface schemas and the issue registry |
| `governance.dfy`, `inspection.dfy` | the two checks around every governed exchange, and what the evaluator is shown |
| `common.dfy`, `bits.dfy` | shared types, trimmed logs, word arithmetic |

How the models are built:

- State that the program updates in place is a class whose methods say what they leave behind as a
  function of what they found; loops are loops, with invariants. What the program promises is then
  proved of those functions.
- Concurrency is a step relation. A run is any sequence of steps; `After` plays it, passing over a
  step that cannot be taken where the run stands, so that a theorem about `After` is a theorem about
  every interleaving.
- Clocks, replies of remote ends, parse results and the choices of hash maps are parameters. Where
  the program picks among equals (a tie in age, a map's iteration order), the model leaves the choice
  open.
- Machine words wrap, saturate or are cut exactly where the program's do.

Where the code and its comments or obvious intentions differ, the model follows the code and the
difference is stated as a theorem:

- The timestamp parser takes day 31 in every month and second 60; such a day runs on into the next
  month (`Calendar.OverlongDaySlides`). It takes a sign in front of the hours or the minutes of a zone
  too, so `+-9:+5` is a zone (`Timestamps.AcceptedExactly`, `Timestamps.SignedZoneAccepted`).
- The comment at `src/mirror_worker.rs:477-480` wants no row closed for a replay that only the transport
  accepted. A row that was given up as `failed` is recorded as mirrored by its next validation visit,
  whatever that visit's replays come to (`MirrorLedger.FailedRowRecordedAsMirrored`, `MirrorLedger.BecomesMirrored`).
- A spike vector survives the wire only while no active spike's address runs past 32 bits
  (`AerSpikes.SpikesRoundTrip`, `AerSpikes.AutoRoundTrip`); one past them lands on another index
  (`AerSpikes.WrappedSpikeMoves`).
- The events of an utterance keep their frame order on the wire only while no wrap of the 64-bit clock
  parts its spikes (`AerSpikes.SpeechRoundTrip`).
- A plan synthesised from relations that lead backwards may wait for a later step, and one that makes
  the first agent wait never starts (`ExecutionPlan.EarlierIffForward`, `ExecutionPlan.StartsIffFirstIsFree`,
  `ExecutionPlan.BackwardRelationStuck`). Which contexts give a plan that completes is
  `ExecutionPlan.CompletesIffOrdered`.
- An alternative, a const, an enumeration or a default of a schema hides the type beside it
  (`SchemaFallback.AlternativesHideType`, `SchemaFallback.LiteralsHideType`), and a required key that is
  not declared is left out. When the fallback value conforms all the same is `SchemaFallback.MinimalConforms`.
- An expired pending answer is let go, not aborted (`PendingAnswers.YesFetches`, `PendingAnswers.DetachesWhen`).
- The empty schema is the identity of a merge only for logs within their bound
  (`AdaptiveMerge.EmptyIsIdentity`); a longer one is cut (`AdaptiveMerge.LongLogTrimmed`).

`dafny verify dfyconfig.toml` checks the whole project.

## Model

| member | source | states |
|---|---|---|
| Common.TrimIs | src/api_issues.rs:898-914 | a trimmed text starts and ends with other characters than whitespace, and only whitespace went |
| Common.LowerAsciiFolds | src/api_issues.rs:898-914 | lower-case forms agree exactly for texts that differ in the case of ASCII letters only |
| Common.LastNIs | src/api_issues.rs:284-290 | a trimmed log is its last entries, as many as the bound or all |
| Bits.BitsOfXor | src/aarnn_bridge.rs:1554-1561 | the exclusive or has each bit set that is set in one of the two words only |
| Bits.BitsOfOr | src/aer.rs:31-48 | the or has each bit set that is set in either word |
| Calendar.NextDayIsOneMore | src/alexa.rs:414-422 | for every real Gregorian date of any integer year, the calendar's next day has the next day number, across month ends, leap days, the century and 400-year rules and year ends |
| Calendar.EpochIsZero | src/alexa.rs:413-422 | 1970-01-01 is day 0 |
| Calendar.DaysStrictlyMonotone | src/alexa.rs:414-422 | a real date comes before another exactly when its day number is smaller |
| Calendar.DaysOfCivil | src/alexa_tests.rs:57-81 | the civil date computed from any day number is a real date, and its day number is the one given |
| Calendar.CivilOfDays | src/alexa_tests.rs:57-81 | the civil date computed from a real date's day number is that date, so the two formulas are inverse both ways |
| Calendar.OverlongDaySlides | src/alexa.rs:379-388 | a day the parser lets through beyond the month's end gets the number of the day as many days into the next month; the date comes back as written exactly when it is real |
| Timestamps.FieldsPrinted | src/alexa.rs:364-411 | every field combination within the accepted ranges, with any of the separators, any fraction and any accepted zone, is read back field by field |
| Timestamps.AcceptedExactly | src/alexa.rs:364-411 | no other text is accepted: the accepted ones are exactly the printed forms, zones with a sign of their own in hours or minutes included |
| Timestamps.SignedZoneAccepted | src/alexa.rs:391-411 | after any accepted date and time the zone `+-9:+5` is read as 32100 seconds west |
| Timestamps.FourDigitYear | src/alexa_tests.rs:57-81 | the days whose printed year has four digits are exactly those of the years 0 to 9999 |
| Timestamps.ParseFormatInstant | src/alexa.rs:364-411 | the parser inverts the printer on every second, with any separator, fraction and accepted zone, whose local day is in the years 0 to 9999: the zone is subtracted |
| Timestamps.EastIsEarlier | src/alexa.rs:395-410 | one o'clock on 2024-01-01 in the zone `+01:00` is midnight in UTC, second 1704067200 |
| SpeechSsml.EscapeSsml | src/alexa.rs:596-615 | the escaping loop appends, character by character, the entity, space, nothing or character each one calls for |
| SpeechSsml.UnescapeEscape | src/alexa.rs:596-615 | reading the escaped text back, entity by entity, gives the text with line breaks and tabs as spaces and other controls removed, and nothing else changed |
| SpeechSsml.CleanIsPrintable | src/alexa.rs:596-615 | what is heard has no control characters, and a text without any is heard as it is |
| SpeechSsml.CleanControl | src/alexa.rs:596-615 | a line break or tab is heard as a space, any other control character as nothing |
| SpeechSsml.ToSsml | src/alexa.rs:619-649 | text whose escape fits in 8000 characters with the tags is wrapped whole; of any other the longest prefix that fits with an ellipsis is taken, and its escape kept up to its last space, if that is not its start, without the whitespace before that; never more than 8000 characters, never an entity cut |
| SpeechSsml.WordCutIsPrefix | src/alexa.rs:639-648 | cutting at the last space and trimming leaves the escape of a prefix of the text: no entity is split |
| SpeechSsml.SsmlDocument | src/alexa.rs:617-649 | any result of those two forms is within the bound, ends in an ellipsis only when cut, loses nothing when the escape fits, and its prefix can be read back |
| SpeechSsml.LongestUnique | src/alexa.rs:632-644 | how many characters are kept is determined by the text |
| SpeechSsml.KeepsUnique | src/alexa.rs:645-648 | so is how much of their escape is kept |
| PendingAnswers.Runtime.StorePending | src/alexa.rs:1102-1123 | expired entries leave the map and their completions are aborted; a map still full gives up an oldest entry; the entry replaced in its own session is aborted |
| PendingAnswers.Runtime.TakePending | src/alexa.rs:1125-1130 | the session's entry leaves the map in any case, and is handed out only within its time to live |
| PendingAnswers.Runtime.ClearPending | src/alexa.rs:1132-1136 | the session's entry leaves the map, and its completion is aborted only within its time to live |
| PendingAnswers.StoredKeeps | src/alexa.rs:1102-1123 | storing loses no completion: each one it answered for is still pending or aborted, and entries keep separate completions |
| PendingAnswers.StoredContents | src/alexa.rs:1102-1123 | the stored answer is in the map, every other entry is an unexpired old one, and of the unexpired ones at most one is missing, no younger than which stays |
| PendingAnswers.Remember | src/alexa.rs:1017-1022 | the answered question, cut to 400 characters, joins the history, of which the last three turns stay |
| PendingAnswers.HistoryIs | src/alexa.rs:813-828 | a history is the last three turns at most, each question and answer cut to its first 400 characters |
| PendingAnswers.ConversationKeepsLast | src/alexa.rs:813-828 | after any number of answered requests, the history the next one reads is the last three of all turns, cut to length, however it went back and forth as session attributes |
| PendingAnswers.InvariantHolds | src/alexa.rs:944-1067 | after every run of intents, timeouts, clients that leave and clock advances: at most 64 entries, each completion accounted for once, sessions, questions, histories and storing times kept with their completion, no result delivered twice |
| PendingAnswers.OnePlaceEach | src/alexa.rs:944-1136 | every spawned completion is in exactly one of five places: pending, awaited, finished, aborted, or detached |
| PendingAnswers.DetachesWhen | src/alexa.rs:944-1136 | a step detaches a completion exactly when its client leaves while it is awaited or its entry is taken after its time to live |
| PendingAnswers.PendingBounded | src/alexa.rs:1102-1123 | the map never holds more than 64 entries, each under the session, and with the question and history, its completion was asked with |
| PendingAnswers.DeliveredOnceAsAsked | src/alexa.rs:962-1067 | every delivered result is delivered once, in the session and under the question and history it was asked with, and one fetched by a yes within 120 seconds of its last store |
| PendingAnswers.OriginsAreAsks | src/alexa.rs:944-962 | the completions of a run are its questions, in order, each with its session and the history made of the turns it carried |
| PendingAnswers.DeliveredAtOnce | src/alexa.rs:944-1035 | after any run, a question whose answer comes in time is delivered as asked |
| PendingAnswers.HeldUntilYes | src/alexa.rs:962-1067 | after any run, one whose answer does not is kept for its session, and a yes has it awaited again exactly within 120 seconds |
| PendingAnswers.YesFetches | src/alexa.rs:962-968 | a yes empties the session's entry: within 120 seconds of the last store its completion is awaited again, later it is detached, and it is not aborted |
| PendingAnswers.HistoriesBounded | src/alexa.rs:813-828 | every completion is asked with at most three turns of at most 400 characters each way |
| ChainCache.Verifier.Store | src/alexa.rs:495-516 | a full cache makes room for a new key only, first by dropping stale chains, then one of the oldest |
| ChainCache.Verifier.Cached | src/alexa.rs:518-526 | a chain is served exactly while it is fresh |
| ChainCache.CacheBounded | src/alexa.rs:495-516 | after any number of fetches the cache holds at most 16 chains |
| ChainCache.StoreKeepsFresh | src/alexa.rs:495-516 | a fresh chain is given up only by a cache full of fresh chains for a new key, and then no older one stays |
| ChainCache.StoreLeaves | src/alexa.rs:495-516 | a store leaves the new chain, all others while there is room or the address is known, and of a full cache no stale one |
| ChainCache.CachedIsLatest | src/alexa.rs:495-526 | a chain in the cache is the one last fetched for that very address |
| AerCodec.WriteVarint | src/aer.rs:22-29 | the loop writes the unsigned LEB128 bytes of the value (section 7.6 of DWARF 5) |
| AerCodec.ReadVarint | src/aer.rs:31-48 | the loop reads the number the bytes spell, cut to 64 bits, with the errors for truncated and overlong input and the place where the varint ends |
| AerCodec.OrShifted | src/aer.rs:31-48 | or-ing a shifted group into the word adds the group at its weight modulo 2^64, up to the shift by 63 |
| AerCodec.VarintRoundTrip | src/aer.rs:22-48 | a varint is read back from in front of any other bytes, which are left alone |
| AerCodec.U64VarintLength | src/aer.rs:22-29 | a 64-bit value takes at most ten bytes |
| AerCodec.VarintShape | src/aer.rs:22-29 | all bytes of a varint but the last say that more is to come, and none is spent on leading zeros |
| AerCodec.VarintExamples | src/aer.rs:22-29 | the encodings of 128 and 12857 given in section 7.6 of DWARF 5 |
| AerCodec.StableSortSorts | src/aer.rs:50-53 | the sort orders by time and keeps the events of every instant in their order |
| AerCodec.StableOrderUnique | src/aer.rs:50-53 | a time-ordered sequence is determined by its events of each instant, so there is one stable sort |
| AerCodec.LittleEndianRoundTrip | src/aer.rs:50-69 | little-endian words of any width read back as written |
| AerCodec.EncodeEvents | src/aer.rs:50-69 | the encoding loop writes the magic, the base time and the delta of each event in stable time order |
| AerCodec.DecodeEvents | src/aer.rs:71-100 | the decoding loop returns the events of the payload, or the first error met |
| AerCodec.DecodeEncode | src/aer.rs:50-100 | decoding an encoding gives the events in stable time order, for every event list over the full field widths |
| AerCodec.DecodeEncodeDecode | src/aer.rs:50-100 | for every accepted byte string, overlong varints included, the events come in time order and one more round through the codec changes nothing |
| AerCodec.WireExample | src/aer.rs:50-69 | two events byte by byte: magic, base time, then each event's delay, address and value, whichever is given first |
| AerCodec.RefusedHeaders | src/aer.rs:71-84 | an empty payload has no events, one shorter than a header is truncated, and one with another magic is refused |
| AerCodec.AnyPayloadRead | src/aer.rs:71-100 | any writer's payload of 64-bit numbers is read as events at the running sum of the delays, up to 2^64-1, with the low 32 bits of the address and the low 8 of the value; cut off anywhere behind the header it gives the events complete before the cut, or the truncation error |
| AerSpikes.ApplyEventsToSpikes | src/aer.rs:124-141 | an entry of the buffer becomes 1 exactly when a non-zero event hits it and is kept otherwise; the count is that of the non-zero events with room, addresses below the base landing on index 0 |
| AerSpikes.DecodeSpikes | src/aer.rs:143-149 | the dense vector of the given length within the dense limit, or the error |
| AerSpikes.DecodeSpikesAuto | src/aer.rs:151-163 | the dense vector up to the largest index hit, or the error |
| AerSpikes.SpikesRoundTrip | src/aer.rs:102-149 | a vector comes back with every non-zero entry as 1 exactly when it is within the dense limit and no active address runs past 32 bits |
| AerSpikes.MaxIndexIsMax | src/aer.rs:151-163 | the length is taken from the largest index of any event |
| AerSpikes.AutoRoundTrip | src/aer.rs:120-163 | without a length, the vector comes back cut after its last active entry, or as a single 0, exactly when that much of it is within the dense limit and no active address runs past 32 bits |
| AerSpikes.WrappedSpikeMoves | src/aer.rs:102-149 | a spike one past the last 32-bit address wraps and comes back on index 0 |
| AerSpikes.LowAddressOnZero | src/aer.rs:124-141 | an event below the base address sets index 0 |
| AerSpikes.ToAer | src/aarnn_bridge.rs:109-125 | from any start time, the loops emit each frame's events at the frame's time on the 64-bit clock and count each band up to 255 |
| AerSpikes.EventsPerBand | src/aarnn_bridge.rs:109-125 | a band has as many events as it occurs in the frames, so its activity is the smaller of 255 and its event count |
| AerSpikes.SpeechInOrder | src/aarnn_bridge.rs:109-125 | the events of an utterance come in time order exactly when no wrap of the clock parts its spikes |
| AerSpikes.SpeechRoundTrip | src/aarnn_bridge.rs:76-125 | the events of an utterance survive encoding and decoding in frame order under exactly that condition |
| AerSpikes.FittingInStep | src/aarnn_bridge.rs:109-125 | a clock that does not overflow within the utterance meets the condition |
| AerSpikes.FramesApart | src/aarnn_bridge.rs:109-125 | frames come their length in milliseconds apart on the clock of microseconds, from the start time on |
| AerSpikes.SpeechExample | src/aarnn_bridge.rs:109-125 | the events of two frames of 20 milliseconds, with their times and addresses |
| SpikeSketch.RankedSorts | src/aarnn_bridge.rs:1562-1566 | the windows are ranked by hash and none is lost |
| SpikeSketch.PrefixIsBottomK | src/aarnn_bridge.rs:1567-1577 | marking neurons in rank order until the target is met gives the bottom-k set |
| SpikeSketch.MarkSmallest | src/aarnn_bridge.rs:1562-1577 | the loop activates as many neurons as the target or the distinct ones hit, and no active neuron's smallest hash exceeds that of one left idle |
| SpikeSketch.TextToSpikes | src/aarnn_bridge.rs:1541-1577 | for every text and layer, of 8 neurons at least, the vector is the bottom-k sketch of the text's windows; at most 64 neurons and at most a quarter of the layer fire, and unless all that are hit do, 64 do or one more would be over the quarter |
| SpikeSketch.Density | src/aarnn_bridge.rs:1541-1577 | the same of every bottom-k vector at the clamped target |
| SpikeSketch.HashWindow | src/aarnn_bridge.rs:1554-1561 | the loop computes the FNV-1a hash of the window's bytes, mixed with its position, on 64-bit words |
| SpikeSketch.WindowOfFive | src/aarnn_bridge.rs:1554-1561 | changing one byte changes a window's hash exactly when the byte is among the five from its position on |
| SpikeSketch.PositionCounts | src/aarnn_bridge.rs:1561 | the same bytes at two positions hash differently |
| SpikeSketch.HashOfLetterA | src/aarnn_bridge.rs:1554-1561 | the published 64-bit FNV-1a hash of the letter a |
| SpikeSketch.SketchUnique | src/aarnn_bridge.rs:1541-1577 | the bottom-k property determines the vector: two of them for one text and layer size are equal |
| Sessions.SessionSlot.PeripheralSession | src/aarnn_bridge.rs:1112-1136 | a usable session or a back-off still running answers the caller; only otherwise is a session created and its outcome cached |
| Sessions.SessionSlot.Invalidate | src/aarnn_bridge.rs:1141-1153 | a cached session goes only when it is the rejected one, a failure's back-off goes on any rejection, an unsupported one stays |
| Sessions.SessionLifetime | src/aarnn_bridge.rs:1444-1457 | a session is believed to last until the expiry the remote end gave it, measured from the request, and never longer than the 900 second cap; without one, for the cap |
| Sessions.OutcomeAnswersFor | src/aarnn_bridge.rs:1112-1136 | a cached session answers until a minute before its believed expiry, a refusal for 60 seconds, a failure for 5 |
| Sessions.MirrorWithRetries | src/aarnn_bridge.rs:1071-1106 | posts stop at the first one accepted or rejected for good, or with the last attempt configured, of which there is one at least; every earlier one was rejected for now |
| Sessions.RetryDelayDoubles | src/aarnn_bridge.rs:1471-1476 | delays start at the base, double with each of the first eight retries up to the cap, and then stay |
| Sessions.MirrorBudget | src/aarnn_bridge.rs:1029-1153 | in every interleaving a mirror makes at most two creations and two rounds of posts, and no two mirrors of one network create at the same time |
| Sessions.CreationsJustified | src/aarnn_bridge.rs:1029-1153 | in every interleaving a creation happens only when the latest outcome is within 60 seconds of expiry, is a back-off that elapsed, or was cleared after it was stored, on behalf of a mirror whose post had been rejected under the session it named: a session by a rejection of its own id, a failure's back-off by any |
| Sessions.RejectionsAlwaysBehind | src/aarnn_bridge.rs:1029-1153 | in every interleaving whatever asks to clear the slot, and every clearing on record, follows a session-error reply to a post of that mirror sent under the very id it names |
| Sessions.NewerSessionKept | src/aarnn_bridge.rs:1138-1153 | an active session leaves the slot only by a rejection of that very id or a creation begun near its expiry, so a newer one is never lost to an older rejection |
| Sessions.RejectedSessionReplaced | src/aarnn_bridge.rs:1029-1106 | a post rejected for now is sent again under the same session; a lasting session error clears that session, and the mirror starts over with the one created in its place |
| Sessions.SlotIsLatestOutcome | src/aarnn_bridge.rs:1112-1153 | the slot holds the latest outcome until a rejection that may clear it comes |
| PromotionGate.TokenOverlap | src/aarnn_bridge.rs:1607-1626 | the overlap lies between 0 and 1, is 1 exactly for equal non-empty token sets and 0 exactly for sets without a common token |
| PromotionGate.QualityIs | src/aarnn_bridge.rs:480-515 | a decoded reply that is long enough is scored 0.45 for agreement, 0.25 for relevance and 0.30 for confidence; any other scores 0 |
| PromotionGate.Gate.EvaluateCandidate | src/aarnn_bridge.rs:473-544 | the score joins the task's window of 32, and the verdict is on the window's mean, the mean of its last ten, its size and the current confidence |
| PromotionGate.Gate.ShouldPromote | src/aarnn_bridge.rs:399-445 | a reply is promoted exactly when promotion is preferred, the window is eligible and the reply is decoded, usable, long enough and different |
| PromotionGate.WindowIsLast | src/aarnn_bridge.rs:516-521 | after any history over any tasks, a task's window is the last 32 of all its scores |
| PromotionGate.PromotionNeedsHistory | src/aarnn_bridge.rs:399-544 | a promoted reply has at least 20 evaluations of its task behind it, with at most 6 zero scores in the window and at most 2 in the latest ten, and meets every other condition |
| PromotionGate.SteadyPromotes | src/aarnn_bridge.rs:399-544 | a task with 20 evaluations and no score below 0.8 in the window is promoted, if it is preferred and the reply meets the other conditions |
| PromotionGate.BoundsReached | src/aarnn_bridge.rs:532-537 | for full windows of zeros and ones these bounds are exactly the gate |
| MirrorLedger.Ledger.MarkMirrorSuccess | src/llm_ledger.rs:429-452 | the row is closed as mirrored, its attempt counted and its timer cleared; an attempt counter at its limit fails the statement |
| MirrorLedger.Ledger.MarkMirrorRetry | src/llm_ledger.rs:454-494 | the attempt is counted and the row gets a timer, or is closed as failed once its attempts are used up |
| MirrorLedger.Ledger.FetchPendingMirror | src/llm_ledger.rs:346-427 | the lowest ids, up to the limit, of the rows due for replay or validation, in order |
| MirrorLedger.PickedUpNext | src/llm_ledger.rs:346-526 | a row is picked up again once the back-off of its retry has passed, not at all after a success or its last attempt, and in any case once its validation interval has |
| MirrorLedger.OtherSteps | src/llm_ledger.rs:530-935 | scheduling validations makes every row with a response due and changes nothing else, recording a row again changes its content only |
| MirrorLedger.Ledger.RunBatch | src/mirror_worker.rs:95-197 | a pass over a batch of rows as they were read records each one's validation and marks it by the semantic errors of its replays, entry by entry |
| MirrorLedger.Ledger.ValidateAndRecord | src/mirror_worker.rs:202-256 | a visit sets the row's next validation, unless validation is on and there is no response to validate; off, the interval is at least a minute |
| MirrorLedger.SemanticSuccess | src/mirror_worker.rs:481-510 | a replay counts as successful exactly when the exchange was accepted without error and, for outputs, a usable reply that is not blank came back |
| MirrorLedger.RowsConsistent | src/llm_ledger.rs:429-542 | over any interleaving with stale reads, `mirrored_at` is set exactly when the status is mirrored or failed, and a retry has attempts left and a timer |
| MirrorLedger.OpenRowsComeBack | src/llm_ledger.rs:346-427 | an open row is always picked up again once its timer is due |
| MirrorLedger.FailuresBounded | src/mirror_worker.rs:95-197 | with one worker a row takes at most the maximum of failing replays, is closed by then, and is given up no earlier |
| MirrorLedger.ClosedStaysClosed | src/mirror_worker.rs:95-197 | with one worker a closed row never reopens |
| MirrorLedger.BecomesMirrored | src/mirror_worker.rs:95-197 | a visit makes an open row mirrored exactly when every replay it called for passed, and a failed row in any case |
| MirrorLedger.FailedRowRecordedAsMirrored | src/mirror_worker.rs:163-173 | a row given up after a failing replay is recorded as mirrored by a validation visit with the same failing replay |
| TrainingLedger.Ledger.MarkTrainingSuccess | src/llm_ledger.rs:644-682 | the loop over the rows comes to one statement: all are finished by a final status or put back at once by any other, and a counter at its limit leaves every one of them as it was |
| TrainingLedger.Ledger.MarkTrainingRetry | src/llm_ledger.rs:720-755 | the branches come to one statement: the attempt is counted and the row gets a timer, or fails for good, unless its counter is at its limit |
| TrainingLedger.StepKeepsSound | src/llm_ledger.rs:644-811 | no training step leaves a row finished without its time or timed without being finished unless it found it so, and only a success with the pending status makes a row one of the legacy kinds |
| TrainingLedger.SelectedNext | src/llm_ledger.rs:544-755 | an eligible row is selected at once after a status that is not final, once the back-off has passed after a retry, and not at all after a final status or the last attempt |
| TrainingLedger.PutBackSelected | src/llm_ledger.rs:683-811 | a row put back by recovery, or revived after it failed, is selected at once |
| TrainingLedger.Ledger.RecoverIncompleteRegistrations | src/llm_ledger.rs:683-718 | one call puts back the first rows of the two legacy kinds that nobody else holds, as many as the batch allows |
| TrainingLedger.Ledger.FetchPendingTraining | src/llm_ledger.rs:544-628 | retries come first, then the rest, each by id and within the limit |
| TrainingLedger.TrainedOnlyWhenFinal | src/llm_ledger.rs:644-811 | from an empty ledger, over any interleaving of training steps, `trained_at` is set exactly on rows with a final status |
| TrainingLedger.UnfinishedSelectable | src/llm_ledger.rs:577-589 | so every unfinished row that did not fail, with an eligible status and a response, is selectable once its timer is due |
| TrainingLedger.LegacyOnlyKept | src/llm_ledger.rs:644-811 | a ledger whose only bad rows are of the two legacy kinds gets no others |
| TrainingLedger.RecoveryShrinks | src/llm_ledger.rs:686-718 | each recovery call repairs as many bad rows as its limit and the locks of other sessions allow, and breaks none |
| TrainingLedger.LegacyRepaired | src/llm_ledger.rs:686-718 | a row finalised while its registration was pending, or while it was to be retried, is retried by a call with room for all |
| TrainingLedger.RecoveryCompletes | src/llm_ledger.rs:686-718 | whatever workers do in between and whatever rows other sessions hold, every row is sound once as many calls as cover the bad rows found none of them locked |
| LedgerConsumer.Run | src/llm_ledger.rs:149-207 | the consumer loop offers records to the file and tries Postgres as the specification says, arrival by arrival |
| LedgerConsumer.FileGetsAll | src/llm_ledger.rs:152-160 | every record is offered to the file exactly once, in the order received, whatever Postgres does |
| LedgerConsumer.WritesInOrder | src/llm_ledger.rs:161-205 | records are written to Postgres in order and at most once each, so Postgres gets a subsequence of what the file gets |
| LedgerConsumer.AttemptsFaithful | src/llm_ledger.rs:161-205 | every attempt belongs to an arrived record, at its time and with its outcome |
| LedgerConsumer.CooldownKept | src/llm_ledger.rs:161-205 | with a clock that does not go back, no connection or write is tried after a failure before the pause it called for is over |
| LedgerConsumer.TriedUnlessPausing | src/llm_ledger.rs:161-205 | with Postgres configured a record is tried exactly when the last attempt before it went through or its pause is over: by a connection if that attempt failed or there was none, and by a write if there then is a connection |
| LedgerConsumer.StreakCountsFailures | src/llm_ledger.rs:172-203 | the streak that sets the pause is the number of failures since the last successful write, as far as 32 bits count |
| LedgerConsumer.BackoffDoubles | src/llm_ledger.rs:951-959 | the pause starts at five seconds, doubles with each further failure and stays at three minutes; with too many clients it is half a minute |
| SchemaFallback.MinimalJson | src/app.rs:3840-3842 | every schema gets a value |
| SchemaFallback.CycleEndsInNull | src/app.rs:3844-3847 | a schema that refers to itself ends in null at the depth bound |
| JsonPointer.PointerReaches | src/app.rs:3849-3854 | for every value and keys, printed with `~` as `~0` and `/` as `~1` (section 3 of RFC 6901), the pointer gives what the keys reach one by one, into members and, in decimal without leading zeros, items, and nothing where one is missing |
| SchemaFallback.ReferenceReaches | src/app.rs:3849-3854 | a local reference leads to what its keys reach in the root, and nowhere else |
| SchemaFallback.ReferredMember | src/app.rs:3849-3939 | a required member declared by a reference gets the value of what the reference reaches |
| SchemaFallback.NameIsEmpty | src/app.rs:3840-3939 | an object with a required name that refers to a string gets an empty name and nothing else |
| SchemaFallback.FirstKeywordDecides | src/app.rs:3856-3884 | const, the first of an enum, default, and the first of anyOf, oneOf and allOf decide in this order |
| SchemaFallback.EmptyOfKind | src/app.rs:3885-3939 | a type alone gives the empty value of its kind, of a list the first type other than null |
| SchemaFallback.GenerateConforms | src/app.rs:3844-3939 | where local references resolve, oneOf and allOf are absent, no level combines two sources of a value, a first alternative fits and the nesting is within the bound, the value satisfies type, enum, const and required (sections 6.1 and 6.5.3 of JSON Schema Validation 2020-12) through references, properties and anyOf (sections 8.2.3.1, 10.3.2.1 and 10.2.1.2 of JSON Schema Core 2020-12) if at every level the type admits the kind of the value the routes lead to, a literal is one of those admitted, and required keys are declared with schemas that fit or spell `steps`; and if not, it fails within as many levels as the bound leaves |
| SchemaFallback.MinimalConforms | src/app.rs:3840-3842 | so the fallback value of such a schema is an instance of it exactly when the schema meets that condition |
| SchemaFallback.PlainFits | src/app.rs:3844-3939 | a schema whose levels are each a reference, const, enum, anyOf or a shape of known type, with every required key declared, meets it |
| SchemaFallback.AlternativesHideType | src/app.rs:3876-3880 | a satisfiable schema with a type beside its alternatives gets a value that breaks it |
| SchemaFallback.LiteralsHideType | src/app.rs:3862-3875 | satisfiable schemas with a type beside an enumeration or a default get values that break it |
| SchemaFallback.GeneratedMatches | src/app.rs:4102-4129 | a built object passes the check on cached plans exactly when every required key is declared or spells `steps`, is declared where no others are allowed, and a declared `steps` comes out as an array |
| SchemaFallback.MatchesExactly | src/app.rs:4102-4129 | a value passes that check exactly when every required key is there, none is undeclared where additional ones are ruled out, and `steps` is an array |
| ExecutionPlan.CollectAgents | src/app.rs:4032-4050 | the loop collects the new agent names and the agent of each channel |
| ExecutionPlan.CollectDependencies | src/app.rs:4056-4076 | the loop collects, for each agent, the agents its relations make it wait for |
| ExecutionPlan.SynthesiseSteps | src/app.rs:4023-4100 | no plan without agents, otherwise one step per agent in order, waiting for its relations or else for the step before |
| ExecutionPlan.AgentsAreFirstOccurrences | src/app.rs:4032-4043 | the agents are the first occurrences of the names, ignoring case, in the order listed |
| ExecutionPlan.DependenciesAre | src/app.rs:4056-4076 | an agent waits for exactly the sources of the relations that end at it, each once |
| ExecutionPlan.WaitsGrow | src/app.rs:4056-4076 | sources are waited for in the order of the relations |
| ExecutionPlan.ChannelOfLast | src/app.rs:4044-4050 | a channel stands for the last name that brought it |
| ExecutionPlan.ChannelOfNone | src/app.rs:4044-4050 | and for none if no name brought it |
| ExecutionPlan.WaitsFromContext | src/app.rs:4056-4097 | a step waits for exactly the sources of the relations that end at its agent, or for the agent before it when none does |
| ExecutionPlan.WaitForDistinct | src/app.rs:4078-4097 | no step waits twice for the same agent |
| ExecutionPlan.EarlierIffForward | src/app.rs:4023-4100 | every step waits for earlier steps only, exactly when no relation leads backwards |
| ExecutionPlan.DistinctForward | src/app.rs:4023-4100 | with distinct names and channels the plan lists every name once in order, and goes forward exactly when each relation leads from an earlier-listed agent to a later one |
| ExecutionPlan.ForwardNeverStuck | src/app.rs:4078-4097 | such a plan, unless complete, always has a step that is ready, in whatever order it ran so far |
| ExecutionPlan.ListedOrderCompletes | src/app.rs:4078-4097 | running it in listed order finishes every agent |
| ExecutionPlan.StartsIffFirstIsFree | src/app.rs:4078-4097 | a plan can start exactly when no relation ends at its first agent |
| ExecutionPlan.CompletesIffOrdered | src/app.rs:4023-4100 | a synthesised plan can be completed exactly when the agents of the context can be ranked so that every relation ending at one starts at a planned agent of lower rank, and one at which none ends ranks above the agent listed before it |
| ExecutionPlan.AcyclicIffOrders | src/app.rs:4023-4100 | a ranking orders the context in that way exactly when every step of the plan waits for planned agents of lower rank only |
| ExecutionPlan.FirstAwaitsStuck | src/app.rs:4078-4097 | a relation that ends at the first agent keeps every run from finishing any agent |
| ExecutionPlan.BackwardRelationStuck | src/app.rs:4056-4097 | two agents with a relation from the second to the first give a plan that waits backwards and never starts |
| ExecutionPlan.AcyclicNeverStuck | src/app.rs:4078-4097 | such a plan, unless complete, has a step that is ready whatever has finished |
| ExecutionPlan.RunCompletes | src/app.rs:4078-4097 | so any run of it, however it began, can be carried on to completion |
| ExecutionPlan.StuckForever | src/app.rs:4078-4097 | a plan that cannot start never finishes any agent |
| ExecutionPlan.PlanCache.Load | src/app.rs:4260-4272 | only a cached plan with steps that meets the schema's requirements is served |
| ExecutionPlan.PlanCache.Store | src/app.rs:4274-4285 | a full cache gives up some other plan for a new key |
| ExecutionPlan.LoadAfterStore | src/app.rs:4260-4285 | a stored plan is served back exactly when it has steps and meets the requirements, and the other keys answer as before but for one that gave way |
| ExecutionPlan.StoreKeepsOthers | src/app.rs:4274-4285 | nothing gives way while there is room or for a key that is known |
| ExecutionPlan.CacheBounded | src/app.rs:4274-4285 | the cache never holds more than 64 plans |
| ExecutionPlan.FallbackMatches | src/app.rs:3505-3530 | the fallback answer meets the requirements exactly when a usable cached plan takes the place of a blank one or the minimal value meets them, and has steps exactly when that value, a usable cached plan or named agents supply them |
| ExecutionPlan.FallbackIs | src/app.rs:3505-3530 | the answer is the minimal value, unless a plan is wanted and it has an empty list of steps: then a usable cached plan, or else the minimal value with the steps of the named agents |
| AdaptiveMerge.Schema.MergeWith | src/adaptive_schema.rs:326-367 | the loops join endpoints, hints and numbers key by key and append the log |
| AdaptiveMerge.MergeAssociative | src/adaptive_schema.rs:326-367 | how merges are grouped does not matter, version and update time aside |
| AdaptiveMerge.EmptyIsIdentity | src/adaptive_schema.rs:326-367 | the empty schema changes nothing on either side, exactly for schemas whose log is within its bound |
| AdaptiveMerge.LongLogTrimmed | src/adaptive_schema.rs:362-363 | a log of 101 entries loses its first to a merge with the empty schema on either side |
| AdaptiveMerge.MergedReports | src/adaptive_schema.rs:326-355 | after any number of merges every report of an endpoint or hint is counted, up to 2^64-1, and the text is that of the latest observation, the leftmost of those that tie |
| AdaptiveMerge.NumbersMerged | src/adaptive_schema.rs:356-361 | a merged numeric hint is the largest reported |
| AdaptiveMerge.AdjustmentsMerged | src/adaptive_schema.rs:362-363 | the merged log is the last 100 of all logs, one after the other |
| AdaptiveMerge.ApiRegistry.MergeWith | src/adaptive_schema.rs:175-182 | each interface of the other registry is merged onto what is known of it, or onto an empty schema |
| AdaptiveMerge.RegistriesAssociative | src/adaptive_schema.rs:175-182 | whole registries merge associatively too |
| AdaptiveMerge.RegistryMergedAt | src/adaptive_schema.rs:175-182 | an interface both registries know is merged, one of a single registry kept, and the logs are joined and cut to 100 |
| AdaptiveMerge.Schema.RepairSaturatedCounters | src/adaptive_schema.rs:519-538 | saturated counters become 0, nothing else changes, and the answer says whether there were any |
| AdaptiveMerge.RepairRemovesSaturation | src/adaptive_schema.rs:519-538 | repair changes a schema exactly when a counter is saturated, leaves none that is, and repeating it changes nothing |
| AdaptiveMerge.RepairResets | src/adaptive_schema.rs:519-538 | a counter at 2^64-1 becomes 0, every other one and everything else stays |
| AdaptiveMerge.Schema.ObserveNumericHint | src/adaptive_schema.rs:307-324 | a finite value above the known one replaces it, is logged and raises version and update time; anything else leaves all of the schema alone |
| AdaptiveMerge.HintIsPeak | src/adaptive_schema.rs:307-324 | after any observations a hint is the largest finite value observed or known before |
| AdaptiveMerge.RisesLogged | src/adaptive_schema.rs:307-324 | the log gets the notes of just the observations that rose above all before them |
| AdaptiveMerge.ObserveThenMerge | src/adaptive_schema.rs:307-361 | a value counts the same whether it is observed before or after a merge |
| ApiIssues.SameIssueIff | src/api_issues.rs:829-839 | two failures are one issue exactly when their four parts normalise alike, an absent provider counting as one called none |
| ApiIssues.NormalizeIs | src/api_issues.rs:898-914 | a blank part is unknown; any other is trimmed and taken character by character, letters in lower case, digits and `-_/.` as they are, the rest as underscores |
| ApiIssues.Issues.RefreshSummary | src/api_issues.rs:298-317 | the counting loop gives the size of each class of issues |
| ApiIssues.Issues.ObserveFailure | src/api_issues.rs:159-225 | the issue of the failure is made or reopened, carries the report, and one action is logged with it and globally |
| ApiIssues.Issues.ObserveRecovery | src/api_issues.rs:227-282 | every active issue concerned is resolved and logged once, and nothing changes when there is none |
| ApiIssues.SummaryIsRecount | src/api_issues.rs:292-317 | after every history the cached summary is what counting again would give |
| ApiIssues.SummaryCountsAll | src/api_issues.rs:298-317 | mitigated equals active, and active and resolved make up all issues |
| ApiIssues.IssuesWellFiled | src/api_issues.rs:159-282 | every issue is filed under its own id, made of its own fields, with a status that says whether it is active |
| ApiIssues.ActiveIffUnrecovered | src/api_issues.rs:159-282 | an issue exists once it was reported, carries all of its last report, and is active exactly when no recovery has come since of that interface, ignoring case, that endpoint and, if it names one, that provider |
| ApiIssues.OccurrencesCounted | src/api_issues.rs:159-225 | every report of an issue is counted, up to 2^64-1, and its first one dates it |
| ApiIssues.VersionCountsChanges | src/api_issues.rs:159-297 | the version counts the failures and the recoveries that resolved something |
| ApiIssues.EventsAreLast | src/api_issues.rs:284-290 | the recent events are the last 120 of everything logged |
| ApiIssues.ActionsAreLast | src/api_issues.rs:891-896 | the actions of an issue are the last 30 of the events that name it |
| Governance.OutcomeExactly | src/governance.rs:194-266 | for every configuration and reply, which of the five outcomes a check has: a verdict on this exchange, phase and protocol that blocks is refused under enforcement, failing open or not; no verdict only under enforcement without fail-open |
| Governance.CountsExactly | src/governance.rs:194-266 | a check counts as observed or failed, and as blocked just when it refuses a verdict that blocks |
| Governance.StatusIsWorse | src/governance.rs:360-384 | the status told is the worse of the two checks |
| Governance.Gate.Check | src/governance.rs:194-266 | one check counts once, as observed or failed, and lets through what mode and verdict allow |
| Governance.Gate.Guard | src/governance.rs:286-384 | alone, a guarded request returns its permit, runs its handler exactly when it is ungoverned or its first check passed, and answers exactly when both passed, with the worse of the two statuses |
| Governance.Gate.Complete | src/governance.rs:102-139 | alone, an in-process completion returns its permit, runs after its first check and delivers after its second |
| Governance.PermitsConserved | src/governance.rs:286-384 | with any number of exchanges at once, cancelled ones included, permits in use and free permits make up the bound |
| Governance.EnforcedTwice | src/governance.rs:286-384 | enforcing without fail-open, a handler runs only after a verdict on its own request that does not block, and bytes leave only after a second on its response |
| Governance.EnforcedAlways | src/governance.rs:194-384 | enforcing, failing open or not, no handler runs and no bytes leave after a verdict that blocks, nor without a verdict unless failing open; and a refusal follows such a reply |
| Governance.HeardInRun | src/governance.rs:194-384 | these replies are the evaluator's replies in the run to that exchange |
| Governance.ReplyThenDecide | src/governance.rs:228-266 | in a run, a reply and the decision on it have the outcome and the counts of one check |
| Governance.MonitorOnlyWatches | src/governance.rs:228-266 | outside enforcement no exchange is refused for what the evaluator says or fails to say |
| Governance.ChecksCountedOnce | src/governance.rs:194-266 | each completed check adds one to observed or to failures, a block is among the observed, and the counters are these tallies modulo 2^64 |
| Governance.BlockedAtMostObserved | src/governance.rs:194-266 | until a counter wraps, blocked is at most observed |
| Inspection.Sanitise | src/governance.rs:405-426 | content is reported complete exactly when no object at any depth carries media the evaluator cannot read |
| Inspection.SemanticText | src/governance.rs:487-517 | the appending recursion writes the lines of the value in order |
| Inspection.NothingHidden | src/governance.rs:487-517 | every string, number, truth value and key at any depth is a line of the text |
| Inspection.NothingAdded | src/governance.rs:487-517 | every line of the text is such a piece |
| Inspection.RedactionKeepsTheRest | src/governance.rs:427-449 | withholding the transport credentials of a request hides nothing else |
| Inspection.RedactedLines | src/governance.rs:427-449 | the evaluator sees the lines of the members that are no credentials and no more |
| Inspection.TransportIff | src/governance.rs:427-449 | credentials are known by seven names, in any case |

## Left out

- Extraction of names, channels, relations, labels and JSON from free text, regular expressions, token
  splitting and `compact_text`: the models start from what was extracted.
- HTTP clients and servers, tokio tasks and channels, Postgres and its SQL: outcomes are parameters,
  statements are their effect on a map of rows.
- Certificate chains, signatures, base64 and URL parsing, and with them `normalize_path_template`.
- Timestamps with characters outside ASCII, on which the parser's byte slices may not fall between
  characters.
- Sanitising of event streams and of binary media in `inspectable_content`, and the assessment
  endpoint.
- Promotion and decoder metrics of `evaluate_candidate`, the admitted-candidate variant, and numbers
  that are not finite.
- Mirrors without a network id, which use no session.
- Counters of mirror reconciliation, which may count one id as output twice.
- `observe_success`, `observe_failure` and the semantic hints of the adaptive schema, which only add
  one to a counter and overwrite the latest shape.
- Context values and details attached to issues, the texts chosen as mitigation, and persistence of
  the registries.
- The identifier, source and text checks of a speech pair, which its timing does not depend on.
- Floating-point rounding: scores, times and pauses are reals.
- The spelling of zero in fallback values, `0` for integers and `0.0` for numbers: both are one number.
- SchemaFallback.GenerateConforms: speaks of no schema with `oneOf` or `allOf`, of no literal beside `properties`,
  `required` or `anyOf`, of no reference or alternatives beside these or a literal, and of no `anyOf`
  whose first alternative does not fit; `SchemaFallback.MinimalJson` still gives them a value.
- AerSpikes.ToAer: wraps a clock that runs past 64-bit microseconds, as a release build does; a debug
  build panics there.
- MirrorLedger.RowsConsistent: requires that all workers use one attempt limit, as one configuration
  gives them.
- LedgerConsumer.CooldownKept: requires a clock that does not go back; the program uses the wall clock.
- LedgerConsumer.TriedUnlessPausing: requires a clock not before its epoch, as `now_ts` gives it.
- TrainingLedger.RecoveryCompletes: requires that workers in between leave no registration pending, as
  those older workers did.
- Governance.Gate.Guard: takes the table of governed routes over as it is.
- Governance.BlockedAtMostObserved: requires fewer than 2^64 checks, since the counters wrap.
