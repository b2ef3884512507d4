/** The AER1 wire format (`src/aer.rs`): sorted events as delta timestamps in 7-bit varints. */
module AerCodec {
  import opened Common
  import opened Bits

  datatype AerEvent = AerEvent(ts: u64, addr: u32, value: u8)

  datatype AerError = Truncated | BadMagic | VarintOverflow | DenseLimit

  /** "AER1" */
  const AER_MAGIC: seq<u8> := [0x41, 0x45, 0x52, 0x31]

  /** 64 bits in groups of seven. */
  const MAX_VARINT: nat := 10

  // ---- varints ----

  /** Unsigned LEB128 (section 7.6 of DWARF 5): seven bits a byte, low group first, 0x80 meaning more. */
  function VarintBytes(v: nat): (bytes: seq<u8>)
    ensures |bytes| >= 1
  {
    if v >= 0x80 then [v % 0x80 + 0x80] + VarintBytes(v / 0x80) else [v]
  }

  datatype Varint = Varint(value: nat, rest: seq<u8>)

  /** The number that starts `p` in at most `room` bytes, before truncation to 64 bits. */
  function Leb128(p: seq<u8>, room: nat): (r: Result<Varint, AerError>)
    requires room > 0
    ensures r.Ok? ==> |r.value.rest| < |p|
    decreases |p|
  {
    if p == [] then Err(Truncated)
    else if p[0] < 0x80 then Ok(Varint(p[0], p[1..]))
    else if room == 1 then Err(VarintOverflow)
    else
      var tail := Leb128(p[1..], room - 1);
      if tail.Err? then tail
      else Ok(Varint(p[0] - 0x80 + 0x80 * tail.value.value, tail.value.rest))
  }

  lemma {:induction false} RestIsSuffix(p: seq<u8>, room: nat)
    requires room > 0 && Leb128(p, room).Ok?
    ensures var rest := Leb128(p, room).value.rest; rest == p[|p| - |rest|..]
    decreases room
  {
    if p[0] >= 0x80 {
      RestIsSuffix(p[1..], room - 1);
    }
  }

  method WriteVarint(value: u64, output: seq<u8>) returns (out: seq<u8>)
    ensures out == output + VarintBytes(value)
  {
    out := output;
    var current: nat := value;
    while current >= 0x80
      invariant out + VarintBytes(current) == output + VarintBytes(value)
    {
      ghost var before := out;
      out := out + [current % 0x100 % 0x80 + 0x80];
      assert current % 0x100 % 0x80 == current % 0x80;
      assert out + VarintBytes(current / 0x80) == before + VarintBytes(current);
      current := current / 0x80;
    }
    out := out + [current];
  }

  /** Seven-bit groups, lowest first, below the number `high`. */
  function GroupsValue(groups: seq<nat>, high: nat): nat {
    if groups == [] then high else groups[0] + 0x80 * GroupsValue(groups[1..], high)
  }

  predicate SevenBit(groups: seq<nat>) {
    forall i :: 0 <= i < |groups| ==> groups[i] < 0x80
  }

  lemma {:induction false} NextGroup(groups: seq<nat>, group: nat, high: nat)
    ensures GroupsValue(groups + [group], high) == GroupsValue(groups, group + 0x80 * high)
  {
    if groups == [] {
      assert (groups + [group])[1..] == [];
    } else {
      assert (groups + [group])[1..] == groups[1..] + [group];
      NextGroup(groups[1..], group, high);
    }
  }

  /** The number above the groups counts once per unit of their range. */
  lemma {:induction false} GroupsScale(groups: seq<nat>, high: nat)
    requires SevenBit(groups)
    ensures GroupsValue(groups, high) == GroupsValue(groups, 0) + high * Pow2(7 * |groups|)
    ensures GroupsValue(groups, 0) < Pow2(7 * |groups|)
  {
    if groups == [] {
    } else {
      var n := 7 * (|groups| - 1);
      GroupsScale(groups[1..], high);
      Pow2Add(7, n);
      assert Pow2(7) == 0x80;
      assert 0x80 * (high * Pow2(n)) == high * (0x80 * Pow2(n));
    }
  }

  lemma SmallWord(w: nat)
    requires w < Pow2(63)
    ensures w % U64_LIMIT == w
  {
    Pow2Constants();
  }

  /** The tenth group: all but its lowest bit fall off the end of the word. */
  lemma LastGroup(acc: nat, group: nat)
    requires acc < Pow2(63)
    ensures group * Pow2(63) % U64_LIMIT == group % 2 * Pow2(63)
    ensures (acc + group * Pow2(63)) % U64_LIMIT == acc + group % 2 * Pow2(63)
  {
    Pow2Constants();
    assert group == 2 * (group / 2) + group % 2;
  }

  /** Bits of a group that stay within the word when it is shifted in above `acc`. */
  lemma KeptBits(acc: nat, group: nat, groups: nat) returns (kept: nat)
    requires groups <= 9 && acc < Pow2(7 * groups) && (groups < 9 ==> acc + group * Pow2(7 * groups) < Pow2(63))
    ensures group * Pow2(7 * groups) % U64_LIMIT == kept * Pow2(7 * groups)
    ensures (acc + group * Pow2(7 * groups)) % U64_LIMIT == acc + kept * Pow2(7 * groups)
  {
    if groups < 9 {
      kept := group;
      SmallWord(group * Pow2(7 * groups));
      SmallWord(acc + group * Pow2(7 * groups));
    } else {
      kept := group % 2;
      LastGroup(acc, group);
    }
  }

  /** `result |= group << shift` on 64-bit words. */
  method OrShifted(acc: nat, group: nat, shift: nat, ghost groups: seq<nat>) returns (r: nat)
    requires SevenBit(groups) && acc == GroupsValue(groups, 0) && group < 0x80
    requires shift == 7 * |groups| && |groups| < MAX_VARINT
    ensures r == GroupsValue(groups + [group], 0) % U64_LIMIT
    ensures |groups| < 9 ==> r == GroupsValue(groups + [group], 0)
  {
    ghost var value := GroupsValue(groups + [group], 0);
    assert value == acc + group * Pow2(shift) && acc < Pow2(shift) by {
      NextGroup(groups, group, 0);
      GroupsScale(groups, group);
    }
    assert |groups| < 9 ==> value < Pow2(63) by {
      GroupsScale(groups + [group], 0);
      if |groups| < 9 { Pow2Monotone(7 * |groups + [group]|, 63); }
    }
    if |groups| < 9 {
      SmallWord(value);
    }
    ghost var kept := KeptBits(acc, group, |groups|);
    OrOfShifted(acc, kept, shift);
    r := Or(acc, group * Pow2(shift) % U64_LIMIT);
  }

  /** What a reading of the rest of the bytes means for the whole varint. */
  ghost predicate Continues(whole: Result<Varint, AerError>, tail: Result<Varint, AerError>, groups: seq<nat>) {
    if tail.Err? then whole == tail
    else whole == Ok(Varint(GroupsValue(groups, tail.value.value), tail.value.rest))
  }

  lemma ContinueOneByte(whole: Result<Varint, AerError>, p: seq<u8>, room: nat, groups: seq<nat>)
    returns (tail: Result<Varint, AerError>)
    requires p != [] && room > 0 && Continues(whole, Leb128(p, room), groups)
    ensures p[0] < 0x80 ==> whole == Ok(Varint(GroupsValue(groups + [p[0]], 0), p[1..]))
    ensures p[0] >= 0x80 && room == 1 ==> whole == Err(VarintOverflow)
    ensures p[0] >= 0x80 && room > 1 ==>
      tail == Leb128(p[1..], room - 1) && Continues(whole, tail, groups + [p[0] % 0x80])
  {
    tail := Err(Truncated);
    if p[0] < 0x80 {
      NextGroup(groups, p[0], 0);
    } else if room > 1 {
      tail := Leb128(p[1..], room - 1);
      if tail.Ok? {
        NextGroup(groups, p[0] - 0x80, tail.value.value);
      }
    }
  }

  method ReadVarint(payload: seq<u8>, start: nat) returns (r: Result<(u64, nat), AerError>)
    requires start <= |payload|
    ensures var varint := Leb128(payload[start..], MAX_VARINT);
            r == if varint.Err? then Err(varint.error)
                 else Ok((varint.value.value % U64_LIMIT, |payload| - |varint.value.rest|))
  {
    ghost var whole := Leb128(payload[start..], MAX_VARINT);
    ghost var tail, groups: seq<nat> := whole, [];
    var result: nat := 0;
    var shift: nat := 0;
    var index := start;
    while index < |payload|
      invariant start <= index <= |payload|
      invariant |groups| == index - start < MAX_VARINT && shift == 7 * |groups|
      invariant SevenBit(groups) && result == GroupsValue(groups, 0)
      invariant tail == Leb128(payload[index..], MAX_VARINT - |groups|)
      invariant Continues(whole, tail, groups)
    {
      var byte := payload[index];
      ghost var p := payload[index..];
      assert p[0] == byte && p[1..] == payload[index + 1..];
      tail := ContinueOneByte(whole, p, MAX_VARINT - |groups|, groups);
      result := OrShifted(result, byte % 0x80, shift, groups);
      groups := groups + [byte % 0x80];
      index := index + 1;
      if byte < 0x80 {
        return Ok((result, index));
      }
      shift := shift + 7;
      if shift >= 64 {
        return Err(VarintOverflow);
      }
    }
    return Err(Truncated);
  }

  /** Varints are self-delimiting: what follows one is left alone. */
  lemma {:induction false} VarintRoundTrip(v: nat, rest: seq<u8>, room: nat)
    requires |VarintBytes(v)| <= room
    ensures Leb128(VarintBytes(v) + rest, room) == Ok(Varint(v, rest))
    decreases v
  {
    var p := VarintBytes(v) + rest;
    if v >= 0x80 {
      assert p[1..] == VarintBytes(v / 0x80) + rest;
      VarintRoundTrip(v / 0x80, rest, room - 1);
    } else {
      assert p[1..] == rest;
    }
  }

  lemma {:induction false} VarintLength(v: nat, n: nat)
    requires n > 0 && v < Pow2(7 * n)
    ensures |VarintBytes(v)| <= n
    decreases n
  {
    if v >= 0x80 {
      Pow2Constants();
      assert n > 1;
      Pow2Add(7, 7 * (n - 1));
      VarintLength(v / 0x80, n - 1);
    }
  }

  lemma U64VarintLength(v: u64)
    ensures |VarintBytes(v)| <= MAX_VARINT
  {
    Pow2Constants();
    Pow2Monotone(64, 70);
    VarintLength(v, MAX_VARINT);
  }

  // ---- stable order ----

  function Insert(e: AerEvent, s: seq<AerEvent>): seq<AerEvent> {
    if s == [] || e.ts <= s[0].ts then [e] + s else [s[0]] + Insert(e, s[1..])
  }

  /** `sort_by_key(|event| event.ts_us)`. */
  function StableSort(es: seq<AerEvent>): (s: seq<AerEvent>) {
    if es == [] then [] else Insert(es[0], StableSort(es[1..]))
  }

  predicate SortedByTime(s: seq<AerEvent>) {
    forall i, j :: 0 <= i < j < |s| ==> s[i].ts <= s[j].ts
  }

  /** The events of one instant, in their order of appearance. */
  function AtTime(s: seq<AerEvent>, t: u64): seq<AerEvent> {
    if s == [] then [] else (if s[0].ts == t then [s[0]] else []) + AtTime(s[1..], t)
  }

  lemma {:induction false} InsertSorted(e: AerEvent, s: seq<AerEvent>)
    requires SortedByTime(s)
    ensures SortedByTime(Insert(e, s)) && |Insert(e, s)| == |s| + 1
    ensures Insert(e, s)[0].ts == if s == [] || e.ts <= s[0].ts then e.ts else s[0].ts
  {
    if s != [] && s[0].ts < e.ts {
      InsertSorted(e, s[1..]);
    }
  }

  /** A new event goes before the events of its own instant and moves no other event. */
  lemma {:induction false} InsertAtTime(e: AerEvent, s: seq<AerEvent>, t: u64)
    requires SortedByTime(s)
    ensures AtTime(Insert(e, s), t) == (if e.ts == t then [e] else []) + AtTime(s, t)
  {
    var r := Insert(e, s);
    if s == [] || e.ts <= s[0].ts {
      assert r[1..] == s;
    } else {
      assert r[0] == s[0] && r[1..] == Insert(e, s[1..]);
      InsertAtTime(e, s[1..], t);
      if s[0].ts == t {
        assert AtTime(r, t) == [s[0]] + AtTime(r[1..], t);
      } else {
        assert AtTime(r, t) == AtTime(r[1..], t) && AtTime(s, t) == AtTime(s[1..], t);
      }
    }
  }

  /** The sort orders by time and keeps the events of each instant in their given order. */
  lemma {:induction false} StableSortSorts(es: seq<AerEvent>, t: u64)
    ensures SortedByTime(StableSort(es))
    ensures |StableSort(es)| == |es|
    ensures AtTime(StableSort(es), t) == AtTime(es, t)
  {
    if es == [] {
    } else {
      StableSortSorts(es[1..], t);
      InsertSorted(es[0], StableSort(es[1..]));
      InsertAtTime(es[0], StableSort(es[1..]), t);
    }
  }

  lemma {:induction false} NothingBelow(s: seq<AerEvent>, t: u64)
    requires SortedByTime(s) && (s != [] ==> t < s[0].ts)
    ensures AtTime(s, t) == []
  {
    if s == [] {
    } else {
      NothingBelow(s[1..], t);
    }
  }

  lemma SameTail(a: seq<AerEvent>, b: seq<AerEvent>, t: u64)
    requires a != [] && b != [] && a[0] == b[0] && AtTime(a, t) == AtTime(b, t)
    ensures AtTime(a[1..], t) == AtTime(b[1..], t)
  {
    if a[0].ts == t {
      assert AtTime(a, t)[1..] == AtTime(a[1..], t);
      assert AtTime(b, t)[1..] == AtTime(b[1..], t);
    } else {
      assert AtTime(a, t) == AtTime(a[1..], t);
      assert AtTime(b, t) == AtTime(b[1..], t);
    }
  }

  lemma StartsSomewhere(a: seq<AerEvent>, b: seq<AerEvent>)
    requires b == [] && forall t: u64 :: AtTime(a, t) == AtTime(b, t)
    ensures a == []
  {
    if a != [] {
      var t: u64 := a[0].ts;
      var here, there := AtTime(a, t), AtTime(b, t);
    }
  }

  /** Only one sequence is in time order with given events at every instant. */
  lemma {:induction false} StableOrderUnique(a: seq<AerEvent>, b: seq<AerEvent>)
    requires SortedByTime(a) && SortedByTime(b)
    requires forall t: u64 :: AtTime(a, t) == AtTime(b, t)
    ensures a == b
  {
    if a == [] {
      StartsSomewhere(b, a);
    } else if b == [] {
      StartsSomewhere(a, b);
    } else {
      var x, y := a[0].ts, b[0].ts;
      assert AtTime(a, x)[0] == a[0] && AtTime(b, y)[0] == b[0];
      if x < y {
        NothingBelow(b, x);
      } else if y < x {
        NothingBelow(a, y);
      }
      forall t: u64 ensures AtTime(a[1..], t) == AtTime(b[1..], t) {
        SameTail(a, b, t);
      }
      StableOrderUnique(a[1..], b[1..]);
      assert a == [a[0]] + a[1..] && b == [b[0]] + b[1..];
    }
  }

  lemma SortedIsStable(es: seq<AerEvent>)
    requires SortedByTime(es)
    ensures StableSort(es) == es
  {
  }

  // ---- events ----

  function ToLittleEndian(v: nat, n: nat): (bytes: seq<u8>)
    ensures |bytes| == n
    decreases n
  {
    if n == 0 then [] else [v % 0x100] + ToLittleEndian(v / 0x100, n - 1)
  }

  function FromLittleEndian(bytes: seq<u8>): (v: nat) {
    if bytes == [] then 0 else bytes[0] + 0x100 * FromLittleEndian(bytes[1..])
  }

  lemma {:induction false} LittleEndianRoundTrip(v: nat, n: nat)
    requires v < Pow2(8 * n)
    ensures FromLittleEndian(ToLittleEndian(v, n)) == v
    decreases n
  {
    if n == 0 {
    } else {
      Pow2Add(8, 8 * (n - 1));
      assert Pow2(8) == 0x100 by { Pow2Constants(); }
      LittleEndianRoundTrip(v / 0x100, n - 1);
    }
  }

  lemma {:induction false} LittleEndianBound(bytes: seq<u8>)
    ensures FromLittleEndian(bytes) < Pow2(8 * |bytes|)
  {
    if bytes == [] {
    } else {
      Pow2Add(8, 8 * (|bytes| - 1));
      assert Pow2(8) == 0x100 by { Pow2Constants(); }
      LittleEndianBound(bytes[1..]);
    }
  }

  function BaseTimestamp(header: seq<u8>): u64
    requires |header| == 8
  {
    LittleEndianBound(header);
    Pow2Constants();
    FromLittleEndian(header)
  }

  function SaturatingSub(a: u64, b: u64): u64 {
    if a >= b then a - b else 0
  }

  function EventBytes(e: AerEvent, previous: u64): seq<u8> {
    VarintBytes(SaturatingSub(e.ts, previous)) + VarintBytes(e.addr) + VarintBytes(e.value)
  }

  function BodyBytes(es: seq<AerEvent>, previous: u64): seq<u8> {
    if es == [] then [] else EventBytes(es[0], previous) + BodyBytes(es[1..], es[0].ts)
  }

  function Encode(es: seq<AerEvent>): seq<u8> {
    if es == [] then []
    else
      StableSortSorts(es, 0);
      var ordered := StableSort(es);
      AER_MAGIC + ToLittleEndian(ordered[0].ts, 8) + BodyBytes(ordered, ordered[0].ts)
  }

  datatype Number = Number(value: u64, rest: seq<u8>)

  /** A varint as the 64-bit word it is read into. */
  function ReadU64(p: seq<u8>): (r: Result<Number, AerError>)
    ensures r.Ok? ==> |r.value.rest| < |p|
  {
    var number := Leb128(p, MAX_VARINT);
    if number.Err? then Err(number.error)
    else Ok(Number(number.value.value % U64_LIMIT, number.value.rest))
  }

  datatype Reading = Reading(event: AerEvent, rest: seq<u8>)

  /** The next event: three varints, cut to the widths of the event's fields. */
  function DecodeEvent(p: seq<u8>, previous: u64): (r: Result<Reading, AerError>)
    ensures r.Ok? ==> |r.value.rest| < |p| && previous <= r.value.event.ts
  {
    var delta := ReadU64(p);
    if delta.Err? then Err(delta.error)
    else
      var addr := ReadU64(delta.value.rest);
      if addr.Err? then Err(addr.error)
      else
        var value := ReadU64(addr.value.rest);
        if value.Err? then Err(value.error)
        else
          var ts := SaturatingAdd(previous, delta.value.value);
          Ok(Reading(AerEvent(ts, addr.value.value % U32_LIMIT, value.value.value % 0x100), value.value.rest))
  }

  function DecodeBody(p: seq<u8>, previous: u64): Result<seq<AerEvent>, AerError>
    decreases |p|
  {
    if p == [] then Ok([])
    else
      var first := DecodeEvent(p, previous);
      if first.Err? then Err(first.error)
      else
        var others := DecodeBody(first.value.rest, first.value.event.ts);
        if others.Err? then others else Ok([first.value.event] + others.value)
  }

  function Decode(payload: seq<u8>): Result<seq<AerEvent>, AerError> {
    if payload == [] then Ok([])
    else if |payload| < 12 then Err(Truncated)
    else if payload[..4] != AER_MAGIC then Err(BadMagic)
    else DecodeBody(payload[12..], BaseTimestamp(payload[4..12]))
  }

  lemma BodyStep(es: seq<AerEvent>, i: nat, previous: u64, payload: seq<u8>)
    requires i < |es|
    ensures payload + BodyBytes(es[i..], previous)
         == payload + VarintBytes(SaturatingSub(es[i].ts, previous)) + VarintBytes(es[i].addr)
            + VarintBytes(es[i].value) + BodyBytes(es[i + 1..], es[i].ts)
  {
  }

  method EncodeEvents(events: seq<AerEvent>) returns (payload: seq<u8>)
    ensures payload == Encode(events)
  {
    if events == [] {
      return [];
    }
    var ordered := StableSort(events);
    StableSortSorts(events, 0);
    var baseTs := ordered[0].ts;
    payload := AER_MAGIC + ToLittleEndian(baseTs, 8);
    var previousTs := baseTs;
    for i := 0 to |ordered|
      invariant payload + BodyBytes(ordered[i..], previousTs) == Encode(events)
    {
      var event := ordered[i];
      BodyStep(ordered, i, previousTs, payload);
      var delta := SaturatingSub(event.ts, previousTs);
      previousTs := event.ts;
      payload := WriteVarint(delta, payload);
      payload := WriteVarint(event.addr, payload);
      payload := WriteVarint(event.value, payload);
    }
    assert payload + [] == payload;
  }

  /** The result once `events` have been read and `others` is what the rest of the payload gives. */
  function Prefixed(events: seq<AerEvent>, others: Result<seq<AerEvent>, AerError>): Result<seq<AerEvent>, AerError> {
    if others.Err? then others else Ok(events + others.value)
  }

  lemma DecodeStep(p: seq<u8>, previous: u64, events: seq<AerEvent>)
    requires p != []
    ensures var first := DecodeEvent(p, previous);
            Prefixed(events, DecodeBody(p, previous)) ==
              if first.Err? then Err(first.error)
              else Prefixed(events + [first.value.event], DecodeBody(first.value.rest, first.value.event.ts))
  {
    var first := DecodeEvent(p, previous);
    if first.Ok? {
      var others := DecodeBody(first.value.rest, first.value.event.ts);
      if others.Ok? {
        assert events + ([first.value.event] + others.value) == events + [first.value.event] + others.value;
      }
    }
  }

  /** One varint of a payload, with the bytes after it. */
  method ReadNumber(payload: seq<u8>, index: nat) returns (r: Result<(u64, nat), AerError>)
    requires index <= |payload|
    ensures var number := ReadU64(payload[index..]);
            if number.Err? then r == Err(number.error)
            else r.Ok? && r.value.0 == number.value.value
                 && r.value.1 <= |payload| && payload[r.value.1..] == number.value.rest
  {
    r := ReadVarint(payload, index);
    if r.Ok? {
      RestIsSuffix(payload[index..], MAX_VARINT);
    }
  }

  method ReadEvent(payload: seq<u8>, index: nat, previousTs: u64) returns (r: Result<(AerEvent, nat), AerError>)
    requires index <= |payload|
    ensures var first := DecodeEvent(payload[index..], previousTs);
            if first.Err? then r == Err(first.error)
            else r.Ok? && r.value.0 == first.value.event
                 && r.value.1 <= |payload| && payload[r.value.1..] == first.value.rest
  {
    var delta := ReadNumber(payload, index);
    if delta.Err? { return Err(delta.error); }
    var addr := ReadNumber(payload, delta.value.1);
    if addr.Err? { return Err(addr.error); }
    var value := ReadNumber(payload, addr.value.1);
    if value.Err? { return Err(value.error); }
    var ts := SaturatingAdd(previousTs, delta.value.0);
    return Ok((AerEvent(ts, addr.value.0 % U32_LIMIT, value.value.0 % 0x100), value.value.1));
  }

  method DecodeEvents(payload: seq<u8>) returns (r: Result<seq<AerEvent>, AerError>)
    ensures r == Decode(payload)
  {
    if |payload| == 0 {
      return Ok([]);
    }
    if |payload| < 12 {
      return Err(Truncated);
    }
    if payload[..4] != AER_MAGIC {
      return Err(BadMagic);
    }
    var previousTs := BaseTimestamp(payload[4..12]);
    var index := 12;
    var events: seq<AerEvent> := [];
    ghost var whole := DecodeBody(payload[12..], previousTs);
    assert whole.Ok? ==> [] + whole.value == whole.value;
    while index < |payload|
      invariant 12 <= index <= |payload|
      invariant whole == Prefixed(events, DecodeBody(payload[index..], previousTs))
    {
      DecodeStep(payload[index..], previousTs, events);
      var next := ReadEvent(payload, index, previousTs);
      if next.Err? {
        return Err(next.error);
      }
      previousTs := next.value.0.ts;
      events := events + [next.value.0];
      index := next.value.1;
    }
    assert events + [] == events;
    return Ok(events);
  }

  // ---- the round trips ----

  lemma NumberRoundTrip(v: u64, rest: seq<u8>)
    ensures ReadU64(VarintBytes(v) + rest) == Ok(Number(v, rest))
  {
    U64VarintLength(v);
    VarintRoundTrip(v, rest, MAX_VARINT);
  }

  lemma EventRoundTrip(e: AerEvent, previous: u64, rest: seq<u8>)
    requires previous <= e.ts
    ensures DecodeEvent(EventBytes(e, previous) + rest, previous) == Ok(Reading(e, rest))
  {
    var delta := e.ts - previous;
    var afterAddr := VarintBytes(e.value) + rest;
    var afterDelta := VarintBytes(e.addr) + afterAddr;
    assert EventBytes(e, previous) + rest == VarintBytes(delta) + afterDelta;
    NumberRoundTrip(delta, afterDelta);
    NumberRoundTrip(e.addr, afterAddr);
    NumberRoundTrip(e.value, rest);
  }

  lemma {:induction false} BodyRoundTrip(es: seq<AerEvent>, previous: u64)
    requires SortedByTime(es) && (es != [] ==> previous <= es[0].ts)
    ensures DecodeBody(BodyBytes(es, previous), previous) == Ok(es)
  {
    if es == [] {
    } else {
      var rest := BodyBytes(es[1..], es[0].ts);
      EventRoundTrip(es[0], previous, rest);
      BodyRoundTrip(es[1..], es[0].ts);
      assert [es[0]] + es[1..] == es;
    }
  }

  /** Decoding an encoding gives back the events in stable time order, over the full field ranges. */
  lemma DecodeEncode(es: seq<AerEvent>)
    ensures Decode(Encode(es)) == Ok(StableSort(es))
  {
    if es != [] {
      StableSortSorts(es, 0);
      var ordered := StableSort(es);
      var base := ordered[0].ts;
      var header := ToLittleEndian(base, 8);
      var payload := Encode(es);
      assert payload[..4] == AER_MAGIC && payload[4..12] == header;
      assert payload[12..] == BodyBytes(ordered, base);
      Pow2Constants();
      LittleEndianRoundTrip(base, 8);
      BodyRoundTrip(ordered, base);
    }
  }

  lemma {:induction false} DecodedInOrder(p: seq<u8>, previous: u64)
    requires DecodeBody(p, previous).Ok?
    ensures var es := DecodeBody(p, previous).value;
            SortedByTime(es) && forall i :: 0 <= i < |es| ==> previous <= es[i].ts
    decreases |p|
  {
    if p == [] {
    } else {
      var first := DecodeEvent(p, previous).value;
      DecodedInOrder(first.rest, first.event.ts);
    }
  }

  /** Whatever bytes are accepted, overlong varints included: the events come in time order, and
      encoding and decoding them once more changes nothing. */
  lemma DecodeEncodeDecode(payload: seq<u8>)
    requires Decode(payload).Ok?
    ensures SortedByTime(Decode(payload).value)
    ensures Decode(Encode(Decode(payload).value)) == Decode(payload)
  {
    var es := Decode(payload).value;
    if payload != [] {
      DecodedInOrder(payload[12..], BaseTimestamp(payload[4..12]));
    }
    SortedIsStable(es);
    DecodeEncode(es);
  }

  // ---- the wire ----

  /** The bytes of a varint: all but the last say more is to come, and none is spent on leading zeros. */
  lemma {:induction false} VarintShape(v: nat)
    ensures var bytes := VarintBytes(v); var last := |bytes| - 1;
            && (forall i :: 0 <= i < last ==> bytes[i] >= 0x80)
            && bytes[last] < 0x80 && (last > 0 ==> bytes[last] != 0)
    decreases v
  {
    if v < 0x80 {
    } else {
      VarintShape(v / 0x80);
      assert VarintBytes(v) == [v % 0x80 + 0x80] + VarintBytes(v / 0x80);
    }
  }

  /** Among the examples of section 7.6 of DWARF 5. */
  lemma VarintExamples(v: nat, w: nat)
    requires v == 128 && w == 12_857
    ensures VarintBytes(v) == [0x80, 1] && VarintBytes(w) == [57 + 0x80, 100]
  {
    assert VarintBytes(1) == [1] && VarintBytes(100) == [100];
  }

  lemma ExampleNumbers(a: nat, b: nat)
    requires a == 4096 && b == 4099
    ensures VarintBytes(a) == [0x80, 0x20] && VarintBytes(b) == [0x83, 0x20]
  {
    assert VarintBytes(32) == [0x20];
  }

  lemma ExampleBase(base: u64)
    requires base == 100
    ensures ToLittleEndian(base, 8) == [100, 0, 0, 0, 0, 0, 0, 0]
  {
    assert ToLittleEndian(0, 1) == [0];
    assert ToLittleEndian(0, 3) == [0, 0] + ToLittleEndian(0, 1);
    assert ToLittleEndian(0, 5) == [0, 0] + ToLittleEndian(0, 3);
    assert ToLittleEndian(0, 7) == [0, 0] + ToLittleEndian(0, 5);
  }

  lemma ExampleBody(early: AerEvent, late: AerEvent)
    requires early == AerEvent(100, 4096, 1) && late == AerEvent(130, 4099, 1)
    ensures BodyBytes([early, late], 100) == [0, 0x80, 0x20, 1, 30, 0x83, 0x20, 1]
  {
    ExampleNumbers(early.addr, late.addr);
    assert [early, late][1..] == [late] && [late][1..] == [];
    assert EventBytes(early, 100) == [0, 0x80, 0x20, 1];
    assert EventBytes(late, 100) == [30, 0x83, 0x20, 1];
    assert BodyBytes([late], 100) == EventBytes(late, 100) + BodyBytes([], 130);
  }

  /** Two events on the wire, whichever comes first: magic, base time, and then each event's delay since the one
      before, address and value. */
  lemma WireExample(early: AerEvent, late: AerEvent)
    requires early == AerEvent(100, 4096, 1) && late == AerEvent(130, 4099, 1)
    ensures Encode([late, early]) == Encode([early, late]) ==
      [0x41, 0x45, 0x52, 0x31] + [100, 0, 0, 0, 0, 0, 0, 0] + [0, 0x80, 0x20, 1, 30, 0x83, 0x20, 1]
  {
    ExampleSorted(early, late);
    ExampleBase(early.ts);
    ExampleBody(early, late);
  }

  lemma InsertAfter(late: AerEvent, early: AerEvent)
    requires early.ts < late.ts
    ensures Insert(late, [early]) == [early, late]
  {
    assert [early][1..] == [];
    assert Insert(late, []) == [late];
  }

  lemma ExampleSorted(early: AerEvent, late: AerEvent)
    requires early.ts < late.ts
    ensures StableSort([late, early]) == StableSort([early, late]) == [early, late]
  {
    SortedIsStable([early, late]);
    SortedIsStable([early]);
    assert [late, early][1..] == [early];
    assert StableSort([late, early]) == Insert(late, [early]);
    InsertAfter(late, early);
  }

  /** What is refused before any event is read. */
  lemma RefusedHeaders(payload: seq<u8>)
    ensures Decode([]) == Ok([])
    ensures 0 < |payload| < 12 ==> Decode(payload) == Err(Truncated)
    ensures |payload| >= 12 && payload[..4] != [0x41, 0x45, 0x52, 0x31] ==> Decode(payload) == Err(BadMagic)
  {
  }

  /** The numbers of one event as any writer may put them: each takes up to 64 bits. */
  datatype Triple = Triple(delta: u64, addr: u64, value: u64)

  function TripleBytes(t: Triple): seq<u8> {
    VarintBytes(t.delta) + VarintBytes(t.addr) + VarintBytes(t.value)
  }

  function RunBytes(ts: seq<Triple>): seq<u8> {
    if ts == [] then [] else TripleBytes(ts[0]) + RunBytes(ts[1..])
  }

  function DeltaSum(ts: seq<Triple>): nat {
    if ts == [] then 0 else DeltaSum(ts[..|ts| - 1]) + ts[|ts| - 1].delta
  }

  /** They stand for an event at the sum of the delays so far, as far as 64 bits go, with the low 32 bits of the
      address and the low 8 of the value. */
  function RunEvents(ts: seq<Triple>, base: u64): seq<AerEvent> {
    seq(|ts|, k requires 0 <= k < |ts| =>
      AerEvent(Min(base + DeltaSum(ts[..k + 1]), U64_LIMIT - 1), ts[k].addr % U32_LIMIT, ts[k].value % 0x100))
  }

  lemma {:induction false} DeltaSumFirst(ts: seq<Triple>)
    requires ts != []
    ensures DeltaSum(ts) == ts[0].delta + DeltaSum(ts[1..])
  {
    if |ts| == 1 {
      assert ts[..0] == [];
    } else {
      var n := |ts| - 1;
      DeltaSumFirst(ts[..n]);
      assert ts[..n][1..] == ts[1..][..n - 1];
    }
  }

  lemma RunEventsFirst(ts: seq<Triple>, base: u64)
    requires ts != []
    ensures var first := AerEvent(SaturatingAdd(base, ts[0].delta), ts[0].addr % U32_LIMIT, ts[0].value % 0x100);
            RunEvents(ts, base) == [first] + RunEvents(ts[1..], first.ts)
  {
    var first := AerEvent(SaturatingAdd(base, ts[0].delta), ts[0].addr % U32_LIMIT, ts[0].value % 0x100);
    forall k | 0 <= k < |ts| ensures RunEvents(ts, base)[k] == ([first] + RunEvents(ts[1..], first.ts))[k] {
      DeltaSumFirst(ts[..k + 1]);
      assert ts[..k + 1][1..] == ts[1..][..k];
      if k == 0 {
        assert ts[1..][..k] == [];
      }
    }
  }

  lemma TripleRead(t: Triple, previous: u64, rest: seq<u8>)
    ensures DecodeEvent(TripleBytes(t) + rest, previous) ==
      Ok(Reading(AerEvent(SaturatingAdd(previous, t.delta), t.addr % U32_LIMIT, t.value % 0x100), rest))
  {
    var afterAddr := VarintBytes(t.value) + rest;
    var afterDelta := VarintBytes(t.addr) + afterAddr;
    assert TripleBytes(t) + rest == VarintBytes(t.delta) + afterDelta;
    NumberRoundTrip(t.delta, afterDelta);
    NumberRoundTrip(t.addr, afterAddr);
    NumberRoundTrip(t.value, rest);
  }

  lemma {:induction false} CutVarint(v: nat, n: nat, room: nat)
    requires n < |VarintBytes(v)| <= room
    ensures Leb128(VarintBytes(v)[..n], room) == Err(Truncated)
    decreases v
  {
    if n == 0 {
    } else {
      assert v >= 0x80;
      assert VarintBytes(v)[..n][1..] == VarintBytes(v / 0x80)[..n - 1];
      CutVarint(v / 0x80, n - 1, room - 1);
    }
  }

  lemma CutNumber(v: u64, n: nat)
    requires n < |VarintBytes(v)|
    ensures ReadU64(VarintBytes(v)[..n]) == Err(Truncated)
  {
    U64VarintLength(v);
    CutVarint(v, n, MAX_VARINT);
  }

  lemma CutTriple(t: Triple, n: nat, previous: u64)
    requires n < |TripleBytes(t)|
    ensures DecodeEvent(TripleBytes(t)[..n], previous) == Err(Truncated)
  {
    var d, a, v := VarintBytes(t.delta), VarintBytes(t.addr), VarintBytes(t.value);
    var p := TripleBytes(t)[..n];
    if n < |d| {
      assert p == d[..n];
      CutNumber(t.delta, n);
    } else if n < |d| + |a| {
      assert p == d + a[..n - |d|];
      NumberRoundTrip(t.delta, a[..n - |d|]);
      CutNumber(t.addr, n - |d|);
    } else {
      var k := n - |d| - |a|;
      assert p == d + (a + v[..k]);
      NumberRoundTrip(t.delta, a + v[..k]);
      NumberRoundTrip(t.addr, v[..k]);
      CutNumber(t.value, k);
    }
  }

  /** The first `n` bytes hold the first `k` events and nothing more. */
  predicate EndsAfter(ts: seq<Triple>, n: nat, k: nat) {
    k <= |ts| && n == |RunBytes(ts[..k])|
  }

  lemma {:induction false} CutBody(ts: seq<Triple>, n: nat, base: u64)
    requires n <= |RunBytes(ts)|
    ensures var read := DecodeBody(RunBytes(ts)[..n], base);
            read == Err(Truncated) || exists k: nat :: EndsAfter(ts, n, k) && read == Ok(RunEvents(ts[..k], base))
    decreases |ts|
  {
    if n == 0 {
      assert ts[..0] == [] && RunBytes(ts)[..0] == [];
      assert EndsAfter(ts, 0, 0) && RunEvents(ts[..0], base) == [];
    } else if n < |TripleBytes(ts[0])| {
      assert RunBytes(ts)[..n] == TripleBytes(ts[0])[..n];
      CutTriple(ts[0], n, base);
    } else {
      var m := n - |TripleBytes(ts[0])|;
      var next := SaturatingAdd(base, ts[0].delta);
      assert RunBytes(ts)[..n] == TripleBytes(ts[0]) + RunBytes(ts[1..])[..m];
      TripleRead(ts[0], base, RunBytes(ts[1..])[..m]);
      assert TripleBytes(ts[0]) != [];
      CutBody(ts[1..], m, next);
      var read := DecodeBody(RunBytes(ts[1..])[..m], next);
      if read.Ok? {
        var k: nat :| EndsAfter(ts[1..], m, k) && read == Ok(RunEvents(ts[1..][..k], next));
        OneMoreEvent(ts, m, k, base);
      }
    }
  }

  lemma OneMoreEvent(ts: seq<Triple>, m: nat, k: nat, base: u64)
    requires ts != [] && EndsAfter(ts[1..], m, k)
    ensures EndsAfter(ts, |TripleBytes(ts[0])| + m, k + 1)
    ensures var first := AerEvent(SaturatingAdd(base, ts[0].delta), ts[0].addr % U32_LIMIT, ts[0].value % 0x100);
            RunEvents(ts[..k + 1], base) == [first] + RunEvents(ts[1..][..k], first.ts)
  {
    assert ts[..k + 1][1..] == ts[1..][..k];
    RunEventsFirst(ts[..k + 1], base);
  }

  lemma {:induction false} WholeBody(ts: seq<Triple>, base: u64)
    ensures DecodeBody(RunBytes(ts), base) == Ok(RunEvents(ts, base))
    decreases |ts|
  {
    if ts == [] {
      assert RunEvents(ts, base) == [];
    } else {
      TripleRead(ts[0], base, RunBytes(ts[1..]));
      WholeBody(ts[1..], SaturatingAdd(base, ts[0].delta));
      RunEventsFirst(ts, base);
      assert TripleBytes(ts[0]) != [];
    }
  }

  function Payload(base: u64, ts: seq<Triple>): seq<u8> {
    [0x41, 0x45, 0x52, 0x31] + ToLittleEndian(base, 8) + RunBytes(ts)
  }

  lemma HeaderRead(base: u64, body: seq<u8>)
    ensures Decode([0x41, 0x45, 0x52, 0x31] + ToLittleEndian(base, 8) + body) == DecodeBody(body, base)
  {
    var payload := [0x41, 0x45, 0x52, 0x31] + ToLittleEndian(base, 8) + body;
    assert payload[..4] == AER_MAGIC && payload[4..12] == ToLittleEndian(base, 8) && payload[12..] == body;
    Pow2Constants();
    LittleEndianRoundTrip(base, 8);
  }

  /** Any writer's payload is read as the events its numbers stand for; cut off behind the header, it gives the
      events complete before the cut if that falls between two of them, and the error otherwise. */
  lemma AnyPayloadRead(base: u64, ts: seq<Triple>, n: nat)
    requires n <= |RunBytes(ts)|
    ensures Decode(Payload(base, ts)) == Ok(RunEvents(ts, base))
    ensures var read := Decode(Payload(base, ts)[..12 + n]);
            read == Err(Truncated) || exists k: nat :: EndsAfter(ts, n, k) && read == Ok(RunEvents(ts[..k], base))
  {
    HeaderRead(base, RunBytes(ts));
    WholeBody(ts, base);
    assert Payload(base, ts)[..12 + n] == [0x41, 0x45, 0x52, 0x31] + ToLittleEndian(base, 8) + RunBytes(ts)[..n];
    HeaderRead(base, RunBytes(ts)[..n]);
    CutBody(ts, n, base);
  }
}
