/** Dense spike vectors and speech frames as AER events (`src/aer.rs`, `src/aarnn_bridge.rs`). */
module AerSpikes {
  import opened Common
  import opened AerCodec

  const MAX_DENSE_SPIKES: nat := 16 * 1024 * 1024

  /** The event of the spike at index `k`; addresses are 32-bit words and wrap. */
  function SpikeEvent(ts: u64, base: u32, k: nat): AerEvent {
    AerEvent(ts, (base + k) % U32_LIMIT, 1)
  }

  /** Events for the non-zero spikes from index `i` on. */
  function SpikesToEvents(ts: u64, base: u32, spikes: seq<u8>, i: nat := 0): seq<AerEvent>
    requires i <= |spikes|
    decreases |spikes| - i
  {
    if i == |spikes| then []
    else (if spikes[i] == 0 then [] else [SpikeEvent(ts, base, i)])
         + SpikesToEvents(ts, base, spikes, i + 1)
  }

  function EncodeSpikes(ts: u64, base: u32, spikes: seq<u8>): seq<u8> {
    Encode(SpikesToEvents(ts, base, spikes))
  }

  /** Index of an event's address above the base; an address below it lands on index 0. */
  function IndexOf(e: AerEvent, base: u32): nat {
    if e.addr >= base then e.addr - base else 0
  }

  predicate Hits(e: AerEvent, base: u32, i: nat) {
    e.value != 0 && IndexOf(e, base) == i
  }

  /** The dense vector in which exactly the hit indices are set. */
  function Dense(events: seq<AerEvent>, base: u32, length: nat): (spikes: seq<u8>)
    ensures |spikes| == length
  {
    seq(length, i requires 0 <= i < length => if exists e :: e in events && Hits(e, base, i) then 1 else 0)
  }

  /** Sets the hit entries of `destination` and counts the events that had room. */
  method ApplyEventsToSpikes(events: seq<AerEvent>, base: u32, destination: array<u8>) returns (count: nat)
    modifies destination
    ensures forall i :: 0 <= i < destination.Length ==>
      destination[i] == if exists e :: e in events && Hits(e, base, i) then 1 else old(destination[i])
    ensures count == Count(events, (e: AerEvent) => e.value != 0 && IndexOf(e, base) < destination.Length)
  {
    count := 0;
    ghost var lands := (e: AerEvent) => e.value != 0 && IndexOf(e, base) < destination.Length;
    for n := 0 to |events|
      invariant count == Count(events[..n], lands)
      invariant forall i :: 0 <= i < destination.Length ==>
        destination[i] == if exists e :: e in events[..n] && Hits(e, base, i) then 1 else old(destination[i])
    {
      var event := events[n];
      assert events[..n + 1] == events[..n] + [event];
      CountAppend(events[..n], [event], lands);
      if event.value != 0 {
        var index := IndexOf(event, base);
        if index < destination.Length {
          destination[index] := 1;
          count := count + 1;
          assert Hits(event, base, index);
        }
      }
    }
    assert events[..|events|] == events;
  }

  /** The dense vector of `length` entries, within the dense limit. */
  method DecodeSpikes(payload: seq<u8>, base: u32, length: nat) returns (r: Result<seq<u8>, AerError>)
    ensures r == DenseDecode(payload, base, length)
  {
    if length > MAX_DENSE_SPIKES {
      return Err(DenseLimit);
    }
    var events := DecodeEvents(payload);
    if events.Err? {
      return Err(events.error);
    }
    var spikes := new u8[length](_ => 0);
    var _ := ApplyEventsToSpikes(events.value, base, spikes);
    assert spikes[..] == Dense(events.value, base, length);
    return Ok(spikes[..]);
  }

  function DenseDecode(payload: seq<u8>, base: u32, length: nat): Result<seq<u8>, AerError> {
    if length > MAX_DENSE_SPIKES then Err(DenseLimit)
    else
      var events := Decode(payload);
      if events.Err? then Err(events.error) else Ok(Dense(events.value, base, length))
  }

  function MaxIndex(events: seq<AerEvent>, base: u32): nat {
    if events == [] then 0
    else
      var others := MaxIndex(events[1..], base);
      if IndexOf(events[0], base) > others then IndexOf(events[0], base) else others
  }

  method DecodeSpikesAuto(payload: seq<u8>, base: u32) returns (r: Result<seq<u8>, AerError>)
    ensures r == AutoDecode(payload, base)
  {
    var events := DecodeEvents(payload);
    if events.Err? {
      return Err(events.error);
    }
    var length := MaxIndex(events.value, base) + 1;
    r := DecodeSpikes(payload, base, length);
  }

  function AutoDecode(payload: seq<u8>, base: u32): Result<seq<u8>, AerError> {
    var events := Decode(payload);
    if events.Err? then Err(events.error)
    else DenseDecode(payload, base, MaxIndex(events.value, base) + 1)
  }

  // ---- round trips ----

  /** Every active spike keeps an address of its own. */
  predicate AddressesFit(base: u32, spikes: seq<u8>) {
    forall i :: 0 <= i < |spikes| && spikes[i] != 0 ==> base + i < U32_LIMIT
  }

  function Binary(spikes: seq<u8>): seq<u8> {
    seq(|spikes|, i requires 0 <= i < |spikes| => if spikes[i] == 0 then 0 else 1)
  }

  predicate IsSpike(ts: u64, base: u32, spikes: seq<u8>, k: nat, e: AerEvent) {
    k < |spikes| && spikes[k] != 0 && e == SpikeEvent(ts, base, k)
  }

  lemma FirstOrLater(ts: u64, base: u32, spikes: seq<u8>, i: nat, e: AerEvent)
    requires i < |spikes|
    ensures e in SpikesToEvents(ts, base, spikes, i) <==>
      IsSpike(ts, base, spikes, i, e) || e in SpikesToEvents(ts, base, spikes, i + 1)
  {
  }

  /** The events are those of the active spikes, all at one instant. */
  lemma {:induction false} EventsOfSpikes(ts: u64, base: u32, spikes: seq<u8>, i: nat, e: AerEvent)
    requires i <= |spikes|
    ensures e in SpikesToEvents(ts, base, spikes, i) <==> exists k: nat :: i <= k && IsSpike(ts, base, spikes, k, e)
    decreases |spikes| - i
  {
    if i == |spikes| {
    } else {
      FirstOrLater(ts, base, spikes, i, e);
      EventsOfSpikes(ts, base, spikes, i + 1, e);
      if k: nat :| i <= k && IsSpike(ts, base, spikes, k, e) {
        assert k == i || i + 1 <= k;
      }
    }
  }

  lemma {:induction false} OneInstant(ts: u64, base: u32, spikes: seq<u8>, i: nat)
    requires i <= |spikes|
    ensures forall e :: e in SpikesToEvents(ts, base, spikes, i) ==> e.ts == ts
    decreases |spikes| - i
  {
    if i == |spikes| {
    } else {
      OneInstant(ts, base, spikes, i + 1);
    }
  }

  lemma DecodedSpikeEvents(ts: u64, base: u32, spikes: seq<u8>)
    ensures Decode(EncodeSpikes(ts, base, spikes)) == Ok(SpikesToEvents(ts, base, spikes))
  {
    var events := SpikesToEvents(ts, base, spikes);
    OneInstant(ts, base, spikes, 0);
    assert SortedByTime(events);
    SortedIsStable(events);
    DecodeEncode(events);
  }

  /** Where the events of an active spike land: on the spike, or on index 0 once its address wraps. */
  lemma LandsWhere(ts: u64, base: u32, k: nat, i: nat)
    requires k < U32_LIMIT
    ensures Hits(SpikeEvent(ts, base, k), base, i) <==> i == if base + k < U32_LIMIT then k else 0
  {
  }

  /** Which entries of the dense vector the events of a spike vector set. */
  lemma SpikeHits(ts: u64, base: u32, spikes: seq<u8>, i: nat)
    requires forall k :: 0 <= k < |spikes| && spikes[k] != 0 ==> k < U32_LIMIT
    ensures (exists e :: e in SpikesToEvents(ts, base, spikes) && Hits(e, base, i)) <==>
      exists k :: 0 <= k < |spikes| && spikes[k] != 0 && i == if base + k < U32_LIMIT then k else 0
  {
    if e :| e in SpikesToEvents(ts, base, spikes) && Hits(e, base, i) {
      EventsOfSpikes(ts, base, spikes, 0, e);
      var k: nat :| IsSpike(ts, base, spikes, k, e);
      LandsWhere(ts, base, k, i);
    }
    if k :| 0 <= k < |spikes| && spikes[k] != 0 && i == if base + k < U32_LIMIT then k else 0 {
      var e := SpikeEvent(ts, base, k);
      assert IsSpike(ts, base, spikes, k, e);
      EventsOfSpikes(ts, base, spikes, 0, e);
      LandsWhere(ts, base, k, i);
    }
  }

  /** A dense vector survives the wire, any non-zero spike becoming 1, exactly when it is within the
      dense limit and no active spike's address runs past 32 bits. */
  lemma SpikesRoundTrip(ts: u64, base: u32, spikes: seq<u8>)
    ensures DenseDecode(EncodeSpikes(ts, base, spikes), base, |spikes|) == Ok(Binary(spikes))
      <==> |spikes| <= MAX_DENSE_SPIKES && AddressesFit(base, spikes)
  {
    if |spikes| <= MAX_DENSE_SPIKES {
      DecodedSpikeEvents(ts, base, spikes);
      var events := SpikesToEvents(ts, base, spikes);
      var dense := Dense(events, base, |spikes|);
      forall i | 0 <= i < |spikes|
        ensures dense[i] == 1 <==>
          exists k :: 0 <= k < |spikes| && spikes[k] != 0 && i == if base + k < U32_LIMIT then k else 0
      {
        SpikeHits(ts, base, spikes, i);
      }
      if AddressesFit(base, spikes) {
        assert dense == Binary(spikes);
      } else {
        var i :| 0 <= i < |spikes| && spikes[i] != 0 && base + i >= U32_LIMIT;
        assert dense[i] != 1;
        assert Binary(spikes)[i] == 1;
      }
    }
  }

  lemma FittingHits(ts: u64, base: u32, spikes: seq<u8>, i: nat)
    requires AddressesFit(base, spikes)
    ensures (exists e :: e in SpikesToEvents(ts, base, spikes) && Hits(e, base, i))
      <==> i < |spikes| && spikes[i] != 0
  {
    SpikeHits(ts, base, spikes, i);
  }

  /** Index after the last active spike, or 1 when there is none. */
  function ActiveLength(spikes: seq<u8>): (n: nat)
    ensures n >= 1
    ensures spikes != [] ==> n <= |spikes|
    ensures forall i :: n <= i < |spikes| ==> spikes[i] == 0
    ensures n > 1 ==> n <= |spikes| && spikes[n - 1] != 0
  {
    if |spikes| <= 1 then 1
    else if spikes[|spikes| - 1] != 0 then |spikes|
    else ActiveLength(spikes[..|spikes| - 1])
  }

  lemma {:induction false} MaxIndexIsMax(events: seq<AerEvent>, base: u32)
    ensures forall e :: e in events ==> IndexOf(e, base) <= MaxIndex(events, base)
    ensures events == [] ==> MaxIndex(events, base) == 0
    ensures events != [] ==> exists e :: e in events && IndexOf(e, base) == MaxIndex(events, base)
  {
    if events == [] {
    } else {
      MaxIndexIsMax(events[1..], base);
    }
  }

  lemma LastActiveIsMax(ts: u64, base: u32, spikes: seq<u8>)
    requires AddressesFit(base, spikes)
    ensures MaxIndex(SpikesToEvents(ts, base, spikes), base) + 1 == ActiveLength(spikes)
  {
    var events := SpikesToEvents(ts, base, spikes);
    var m, n := MaxIndex(events, base), ActiveLength(spikes);
    MaxIndexIsMax(events, base);
    if e :| e in events && IndexOf(e, base) == m {
      AllActive(ts, base, spikes, 0, e);
      assert Hits(e, base, m);
      FittingHits(ts, base, spikes, m);
    }
    if n > 1 {
      FittingHits(ts, base, spikes, n - 1);
    }
  }

  lemma {:induction false} AllActive(ts: u64, base: u32, spikes: seq<u8>, i: nat, e: AerEvent)
    requires i <= |spikes| && e in SpikesToEvents(ts, base, spikes, i)
    ensures e.value == 1
    decreases |spikes| - i
  {
    if i < |spikes| && e in SpikesToEvents(ts, base, spikes, i + 1) {
      AllActive(ts, base, spikes, i + 1, e);
    }
  }

  lemma FittingDense(ts: u64, base: u32, spikes: seq<u8>, n: nat)
    requires AddressesFit(base, spikes) && n <= |spikes|
    ensures Dense(SpikesToEvents(ts, base, spikes), base, n) == Binary(spikes)[..n]
  {
    forall i | 0 <= i < n
      ensures Dense(SpikesToEvents(ts, base, spikes), base, n)[i] == Binary(spikes)[i]
    {
      FittingHits(ts, base, spikes, i);
    }
  }

  lemma AutoOfEvents(payload: seq<u8>, base: u32, events: seq<AerEvent>)
    requires Decode(payload) == Ok(events)
    ensures AutoDecode(payload, base) ==
      var n := MaxIndex(events, base) + 1;
      if n > MAX_DENSE_SPIKES then Err(DenseLimit) else Ok(Dense(events, base, n))
  {
  }

  /** The vector cut after its last active spike, or a single 0. */
  function Cut(spikes: seq<u8>): seq<u8> {
    if spikes == [] then [0] else Binary(spikes)[..ActiveLength(spikes)]
  }

  lemma CutDense(ts: u64, base: u32, spikes: seq<u8>)
    requires AddressesFit(base, spikes)
    ensures Dense(SpikesToEvents(ts, base, spikes), base, ActiveLength(spikes)) == Cut(spikes)
  {
    if spikes == [] {
      FittingHits(ts, base, spikes, 0);
    } else {
      FittingDense(ts, base, spikes, ActiveLength(spikes));
    }
  }

  lemma AutoFits(ts: u64, base: u32, spikes: seq<u8>)
    requires ActiveLength(spikes) <= MAX_DENSE_SPIKES && AddressesFit(base, spikes)
    ensures AutoDecode(EncodeSpikes(ts, base, spikes), base) == Ok(Cut(spikes))
  {
    DecodedSpikeEvents(ts, base, spikes);
    AutoOfEvents(EncodeSpikes(ts, base, spikes), base, SpikesToEvents(ts, base, spikes));
    LastActiveIsMax(ts, base, spikes);
    CutDense(ts, base, spikes);
  }

  /** No event reaches past the last 32-bit address. */
  lemma MaxIndexWithin(events: seq<AerEvent>, base: u32)
    ensures MaxIndex(events, base) < U32_LIMIT - base
  {
    MaxIndexIsMax(events, base);
  }

  lemma CutLength(spikes: seq<u8>)
    ensures |Cut(spikes)| == ActiveLength(spikes)
    ensures forall k :: 0 <= k < |spikes| && spikes[k] != 0 ==> k < ActiveLength(spikes)
  {
  }

  /** Without a length, the vector comes back cut after its last active spike, exactly when that much of it is
      within the dense limit and no active spike's address runs past 32 bits. */
  lemma AutoRoundTrip(ts: u64, base: u32, spikes: seq<u8>)
    ensures AutoDecode(EncodeSpikes(ts, base, spikes), base) == Ok(Cut(spikes)) <==>
      ActiveLength(spikes) <= MAX_DENSE_SPIKES && AddressesFit(base, spikes)
  {
    var events := SpikesToEvents(ts, base, spikes);
    DecodedSpikeEvents(ts, base, spikes);
    AutoOfEvents(EncodeSpikes(ts, base, spikes), base, events);
    CutLength(spikes);
    MaxIndexWithin(events, base);
    if ActiveLength(spikes) <= MAX_DENSE_SPIKES && AddressesFit(base, spikes) {
      AutoFits(ts, base, spikes);
    }
  }

  /** A spike one past the last address: it wraps to address 0 and comes back on index 0. */
  lemma WrappedSpikeMoves(ts: u64)
    ensures var base, spikes := U32_LIMIT - 1, [0, 7];
            && DenseDecode(EncodeSpikes(ts, base, spikes), base, 2) == Ok([1, 0])
            && Binary(spikes) == [0, 1]
  {
    var base: u32, spikes: seq<u8> := U32_LIMIT - 1, [0, 7];
    DecodedSpikeEvents(ts, base, spikes);
    var dense := Dense(SpikesToEvents(ts, base, spikes), base, 2);
    SpikeHits(ts, base, spikes, 0);
    SpikeHits(ts, base, spikes, 1);
    assert spikes[1] != 0;
    assert dense == [1, 0];
  }

  /** An event below the base address sets index 0. */
  lemma LowAddressOnZero(e: AerEvent, base: u32, length: nat, i: nat)
    requires e.addr < base && e.value != 0 && i < length
    ensures Dense([e], base, length)[i] == if i == 0 then 1 else 0
  {
    assert Hits(e, base, 0);
  }

  // ---- speech ----

  const SPEECH_AER_BASE: u32 := 8192
  const SPEECH_MAX_BANDS: nat := 256
  const SPEECH_MAX_FRAMES: nat := 6000
  const SPEECH_MAX_EVENTS: nat := 60_000

  /** The timing part of a speech pair: the bands that spiked in each frame. */
  datatype Speech = Speech(frameMs: u32, bands: u32, frames: seq<seq<u16>>)

  function EventCount(frames: seq<seq<u16>>): nat {
    if frames == [] then 0 else |frames[0]| + EventCount(frames[1..])
  }

  predicate ValidSpeech(s: Speech) {
    && 1 <= s.frameMs <= 100 && 1 <= s.bands <= SPEECH_MAX_BANDS
    && |s.frames| <= SPEECH_MAX_FRAMES
    && 1 <= EventCount(s.frames) <= SPEECH_MAX_EVENTS
    && forall i, j :: 0 <= i < |s.frames| && 0 <= j < |s.frames[i]| ==> s.frames[i][j] < s.bands
  }

  /** All bands of all frames, frame by frame. */
  function Bands(frames: seq<seq<u16>>): seq<u16> {
    if frames == [] then [] else Bands(frames[..|frames| - 1]) + frames[|frames| - 1]
  }

  function FrameEvents(ts: u64, bands: seq<u16>): seq<AerEvent> {
    seq(|bands|, j requires 0 <= j < |bands| => AerEvent(ts, SPEECH_AER_BASE + bands[j], 1))
  }

  function FrameTime(s: Speech, t0: u64, i: nat): nat {
    t0 + i * s.frameMs * 1000
  }

  /** The clock is a 64-bit word and wraps. */
  function WireTime(s: Speech, t0: u64, i: nat): u64 {
    FrameTime(s, t0, i) % U64_LIMIT
  }

  /** Frames come `frameMs` milliseconds apart on a clock of microseconds. */
  lemma FramesApart(s: Speech, t0: u64, i: nat)
    ensures WireTime(s, t0, 0) == t0 && WireTime(s, t0, i + 1) == (WireTime(s, t0, i) + s.frameMs * 1000) % U64_LIMIT
  {
    var step, before := s.frameMs * 1000, FrameTime(s, t0, i);
    assert FrameTime(s, t0, i + 1) == before + step;
    WrapLater(before, step);
  }

  lemma WrapLater(a: nat, b: nat)
    ensures (a + b) % U64_LIMIT == (a % U64_LIMIT + b) % U64_LIMIT
  {
    var q := a / U64_LIMIT;
    WrapTurns(a % U64_LIMIT + b, q);
  }

  lemma {:induction false} WrapTurns(a: nat, turns: nat)
    ensures (a + turns * U64_LIMIT) % U64_LIMIT == a % U64_LIMIT
  {
    if turns == 0 {
    } else {
      WrapTurns(a, turns - 1);
      var b := a + (turns - 1) * U64_LIMIT;
      assert (b + U64_LIMIT) % U64_LIMIT == b % U64_LIMIT;
    }
  }

  /** The events of the first `n` frames, in frame order. */
  function SpeechEvents(s: Speech, t0: u64, n: nat): seq<AerEvent>
    requires n <= |s.frames|
  {
    if n == 0 then [] else SpeechEvents(s, t0, n - 1) + FrameEvents(WireTime(s, t0, n - 1), s.frames[n - 1])
  }

  /** Two frames of 20 milliseconds: the second band, then both. */
  lemma SpeechExample(s: Speech)
    requires s == Speech(20, 2, [[1], [0, 1]])
    ensures SpeechEvents(s, 5, 2) == [AerEvent(5, 8193, 1), AerEvent(20_005, 8192, 1), AerEvent(20_005, 8193, 1)]
  {
    assert SpeechEvents(s, 5, 1) == SpeechEvents(s, 5, 0) + FrameEvents(5, s.frames[0]);
    assert SpeechEvents(s, 5, 2) == SpeechEvents(s, 5, 1) + FrameEvents(20_005, s.frames[1]);
  }

  function Occurrences(bands: seq<u16>, b: int): nat {
    Count(bands, x => x == b)
  }

  /** Each band's activity is its number of events, capped at 255. */
  ghost predicate Tracks(activity: array<u8>, bands: seq<u16>)
    reads activity
  {
    forall b :: 0 <= b < activity.Length ==> activity[b] == Min(255, Occurrences(bands, b))
  }

  lemma CountOneMore(bands: seq<u16>, band: u16, b: int)
    ensures Occurrences(bands + [band], b) == Occurrences(bands, b) + if b == band then 1 else 0
  {
    CountAppend(bands, [band], x => x == b);
  }

  /** Adds one frame's events and counts its bands. */
  method AddFrame(frame: seq<u16>, ts: u64, events: seq<AerEvent>, activity: array<u8>, ghost seen: seq<u16>)
    returns (out: seq<AerEvent>)
    requires Tracks(activity, seen) && forall j :: 0 <= j < |frame| ==> frame[j] < activity.Length
    modifies activity
    ensures out == events + FrameEvents(ts, frame)
    ensures Tracks(activity, seen + frame)
  {
    out := events;
    assert seen + frame[..0] == seen;
    for j := 0 to |frame|
      invariant out == events + FrameEvents(ts, frame)[..j]
      invariant Tracks(activity, seen + frame[..j])
    {
      var band := frame[j];
      out := out + [AerEvent(ts, SPEECH_AER_BASE + band, 1)];
      ghost var bands := seen + frame[..j];
      assert seen + frame[..j + 1] == bands + [band];
      forall b | 0 <= b < activity.Length
        ensures Occurrences(bands + [band], b) == Occurrences(bands, b) + if b == band then 1 else 0
      {
        CountOneMore(bands, band, b);
      }
      activity[band] := if activity[band] < 255 then activity[band] + 1 else 255;
    }
    assert frame[..|frame|] == frame;
  }

  /** Timed events and saturating per-band spike counts of a validated utterance. */
  method ToAer(s: Speech, t0: u64) returns (events: seq<AerEvent>, activity: array<u8>)
    requires ValidSpeech(s)
    ensures events == SpeechEvents(s, t0, |s.frames|)
    ensures fresh(activity) && activity.Length == s.bands && Tracks(activity, Bands(s.frames))
  {
    events := [];
    activity := new u8[s.bands](_ => 0);
    for i := 0 to |s.frames|
      invariant events == SpeechEvents(s, t0, i)
      invariant Tracks(activity, Bands(s.frames[..i]))
    {
      events := AddFrame(s.frames[i], WireTime(s, t0, i), events, activity, Bands(s.frames[..i]));
      assert s.frames[..i + 1][..i] == s.frames[..i];
    }
    assert s.frames[..|s.frames|] == s.frames;
  }

  function EventsAt(events: seq<AerEvent>, addr: int): nat {
    Count(events, (e: AerEvent) => e.addr == addr)
  }

  lemma {:induction false} FrameEventsPerBand(ts: u64, bands: seq<u16>, b: int)
    ensures EventsAt(FrameEvents(ts, bands), SPEECH_AER_BASE + b) == Occurrences(bands, b)
  {
    if bands == [] {
    } else {
      assert FrameEvents(ts, bands)[1..] == FrameEvents(ts, bands[1..]);
      FrameEventsPerBand(ts, bands[1..], b);
    }
  }

  /** The activity vector counts what is sent: a band has as many events as occurrences. */
  lemma {:induction false} EventsPerBand(s: Speech, t0: u64, n: nat, b: int)
    requires n <= |s.frames|
    ensures EventsAt(SpeechEvents(s, t0, n), SPEECH_AER_BASE + b) == Occurrences(Bands(s.frames[..n]), b)
  {
    if n == 0 {
    } else {
      EventsPerBand(s, t0, n - 1, b);
      var ts := WireTime(s, t0, n - 1);
      FrameEventsPerBand(ts, s.frames[n - 1], b);
      CountAppend(SpeechEvents(s, t0, n - 1), FrameEvents(ts, s.frames[n - 1]), (e: AerEvent) => e.addr == SPEECH_AER_BASE + b);
      assert s.frames[..n][..n - 1] == s.frames[..n - 1];
      CountAppend(Bands(s.frames[..n - 1]), s.frames[n - 1], x => x == b);
    }
  }

  /** No frame with spikes before the clock wraps is followed by one with spikes after it. */
  predicate InStep(s: Speech, t0: u64) {
    forall i, j :: 0 <= i < j < |s.frames| && s.frames[i] != [] && s.frames[j] != [] ==> SameTurn(s, t0, i, j)
  }

  predicate SameTurn(s: Speech, t0: u64, i: nat, j: nat) {
    FrameTime(s, t0, j) < U64_LIMIT || FrameTime(s, t0, i) >= U64_LIMIT
  }

  lemma FrameTimesOrdered(s: Speech, t0: u64, i: nat, j: nat)
    requires ValidSpeech(s) && i < j < |s.frames|
    ensures t0 <= FrameTime(s, t0, i) <= FrameTime(s, t0, j) < t0 + U64_LIMIT
  {
    Product(i, s.frameMs, j);
    Product(j, s.frameMs, SPEECH_MAX_FRAMES);
  }

  lemma Product(i: nat, step: nat, j: nat)
    requires i <= j
    ensures i * step <= j * step
  {
  }

  /** Within one turn of the clock later frames have later times; a wrap in between puts them before. */
  lemma TurnOrders(s: Speech, t0: u64, i: nat, j: nat)
    requires ValidSpeech(s) && i < j < |s.frames|
    ensures WireTime(s, t0, i) <= WireTime(s, t0, j) <==> SameTurn(s, t0, i, j)
  {
    FrameTimesOrdered(s, t0, i, j);
    Wrapped(FrameTime(s, t0, i));
    Wrapped(FrameTime(s, t0, j));
  }

  lemma Wrapped(n: nat)
    requires n < 2 * U64_LIMIT
    ensures n % U64_LIMIT == if n < U64_LIMIT then n else n - U64_LIMIT
  {
  }

  lemma {:induction false} SpeechEventOf(s: Speech, t0: u64, n: nat, i: nat)
    requires i < n <= |s.frames| && s.frames[i] != []
    ensures AerEvent(WireTime(s, t0, i), SPEECH_AER_BASE + s.frames[i][0], 1) in SpeechEvents(s, t0, n)
  {
    if i == n - 1 {
      assert FrameEvents(WireTime(s, t0, i), s.frames[i])[0] == AerEvent(WireTime(s, t0, i), SPEECH_AER_BASE + s.frames[i][0], 1);
    } else {
      SpeechEventOf(s, t0, n - 1, i);
    }
  }

  lemma {:induction false} FrameOfEvent(s: Speech, t0: u64, n: nat, e: AerEvent) returns (i: nat)
    requires n <= |s.frames| && e in SpeechEvents(s, t0, n)
    ensures i < n && s.frames[i] != [] && e.ts == WireTime(s, t0, i)
  {
    if e in SpeechEvents(s, t0, n - 1) {
      i := FrameOfEvent(s, t0, n - 1, e);
    } else {
      i := n - 1;
    }
  }

  lemma AppendSorted(a: seq<AerEvent>, b: seq<AerEvent>, t: u64)
    requires SortedByTime(a) && forall e :: e in b ==> e.ts == t
    requires b != [] ==> forall e :: e in a ==> e.ts <= t
    ensures SortedByTime(a + b)
  {
  }

  /** In step, the events come in time order. */
  lemma {:induction false} InStepSorted(s: Speech, t0: u64, n: nat)
    requires ValidSpeech(s) && n <= |s.frames| && InStep(s, t0)
    ensures SortedByTime(SpeechEvents(s, t0, n))
  {
    if n == 0 {
    } else {
      InStepSorted(s, t0, n - 1);
      var before, last := SpeechEvents(s, t0, n - 1), FrameEvents(WireTime(s, t0, n - 1), s.frames[n - 1]);
      if last != [] {
        forall e | e in before ensures e.ts <= WireTime(s, t0, n - 1) {
          var i := FrameOfEvent(s, t0, n - 1, e);
          TurnOrders(s, t0, i, n - 1);
        }
      }
      AppendSorted(before, last, WireTime(s, t0, n - 1));
    }
  }

  /** A frame's events come after those of earlier frames. */
  lemma {:induction false} SortedInStep(s: Speech, t0: u64, n: nat, i: nat, j: nat)
    requires ValidSpeech(s) && i < j < n <= |s.frames| && s.frames[i] != [] && s.frames[j] != []
    requires SortedByTime(SpeechEvents(s, t0, n))
    ensures SameTurn(s, t0, i, j)
    decreases n
  {
    var before, last := SpeechEvents(s, t0, n - 1), FrameEvents(WireTime(s, t0, n - 1), s.frames[n - 1]);
    SortedParts(before, last);
    if j == n - 1 {
      SpeechEventOf(s, t0, n - 1, i);
      assert last[0].ts == WireTime(s, t0, j);
      TurnOrders(s, t0, i, j);
    } else {
      SortedInStep(s, t0, n - 1, i, j);
    }
  }

  lemma SortedParts(a: seq<AerEvent>, b: seq<AerEvent>)
    requires SortedByTime(a + b)
    ensures SortedByTime(a) && forall d, e :: d in a && e in b ==> d.ts <= e.ts
  {
    forall i, j | 0 <= i < j < |a| ensures a[i].ts <= a[j].ts {
      assert (a + b)[i] == a[i] && (a + b)[j] == a[j];
    }
    forall d, e | d in a && e in b ensures d.ts <= e.ts {
      var i :| 0 <= i < |a| && a[i] == d;
      var j :| 0 <= j < |b| && b[j] == e;
      assert (a + b)[i] == d && (a + b)[|a| + j] == e;
    }
  }

  /** The events of an utterance come in time order exactly when no wrap of the clock parts its spikes. */
  lemma SpeechInOrder(s: Speech, t0: u64)
    requires ValidSpeech(s)
    ensures SortedByTime(SpeechEvents(s, t0, |s.frames|)) <==> InStep(s, t0)
  {
    if InStep(s, t0) {
      InStepSorted(s, t0, |s.frames|);
    }
    if SortedByTime(SpeechEvents(s, t0, |s.frames|)) {
      forall i, j | 0 <= i < j < |s.frames| && s.frames[i] != [] && s.frames[j] != [] ensures SameTurn(s, t0, i, j) {
        SortedInStep(s, t0, |s.frames|, i, j);
      }
    }
  }

  /** A clock that does not overflow within the utterance keeps its spikes in step. */
  lemma FittingInStep(s: Speech, t0: u64)
    requires ValidSpeech(s) && FrameTime(s, t0, |s.frames| - 1) < U64_LIMIT
    ensures InStep(s, t0)
  {
    forall i, j | 0 <= i < j < |s.frames| ensures SameTurn(s, t0, i, j) {
      Product(j, s.frameMs, |s.frames| - 1);
    }
  }

  lemma EncodedInPlace(events: seq<AerEvent>)
    ensures Decode(Encode(events)) == Ok(events) <==> SortedByTime(events)
  {
    DecodeEncode(events);
    StableSortSorts(events, 0);
    if SortedByTime(events) {
      SortedIsStable(events);
    }
  }

  /** The events of an utterance survive the wire in frame order exactly when no wrap of the clock parts its
      spikes. */
  lemma SpeechRoundTrip(s: Speech, t0: u64)
    requires ValidSpeech(s)
    ensures var events := SpeechEvents(s, t0, |s.frames|); Decode(Encode(events)) == Ok(events) <==> InStep(s, t0)
  {
    EncodedInPlace(SpeechEvents(s, t0, |s.frames|));
    SpeechInOrder(s, t0);
  }
}
