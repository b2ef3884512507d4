/** The bottom-k projection of a text onto the sensory layer (`src/aarnn_bridge.rs`). */
module SpikeSketch {
  import opened Common
  import opened Bits

  const FNV_OFFSET: u64 := 0xcbf2_9ce4_8422_2325
  const FNV_PRIME: u64 := 0x100_0000_01b3
  const POSITION_MIX: u64 := 0x9e37_79b9_7f4a_7c15
  const WINDOW: nat := 5

  function Xor64(a: u64, b: u64): u64 {
    Pow2Constants();
    XorStaysInWord(a, b, 64);
    Xor(a, b)
  }

  /** FNV-1a over a run of bytes. */
  function HashBytes(hash: u64, bytes: seq<u8>): u64
    decreases |bytes|
  {
    if bytes == [] then hash else HashBytes(Xor64(hash, bytes[0]) * FNV_PRIME % U64_LIMIT, bytes[1..])
  }

  /** Hash of the window of up to five bytes at `index`, mixed with its position. */
  function WindowHash(bytes: seq<u8>, index: nat): u64
    requires index < |bytes|
  {
    var end := Min(index + WINDOW, |bytes|);
    Xor64(HashBytes(FNV_OFFSET, bytes[index..end]), index * POSITION_MIX % U64_LIMIT)
  }

  // ---- what the hash tells apart ----

  /** Multiplication by an odd constant loses nothing of a word. */
  lemma FactorCancels(a: u64, b: u64, factor: nat, inverse: nat, turns: nat)
    requires factor * inverse == 1 + turns * U64_LIMIT
    requires a * factor % U64_LIMIT == b * factor % U64_LIMIT
    ensures a == b
  {
    var x, y := a * factor / U64_LIMIT, b * factor / U64_LIMIT;
    var d := a - b;
    assert d * factor == (x - y) * U64_LIMIT by { Distribute(a, b, factor); }
    calc {
      d + d * turns * U64_LIMIT;
      { ThreeFactors(d, factor, inverse, turns); }
      (d * factor) * inverse;
      (x - y) * U64_LIMIT * inverse;
      { Reorder(x - y, inverse); }
      (x - y) * inverse * U64_LIMIT;
    }
    NoMultiple(d, (x - y) * inverse - d * turns);
  }

  lemma Distribute(a: int, b: int, c: int)
    ensures (a - b) * c == a * c - b * c
  {
  }

  lemma ThreeFactors(d: int, factor: int, inverse: int, turns: int)
    requires factor * inverse == 1 + turns * U64_LIMIT
    ensures (d * factor) * inverse == d + d * turns * U64_LIMIT
  {
    assert (d * factor) * inverse == d * (factor * inverse);
    assert d * (1 + turns * U64_LIMIT) == d + d * turns * U64_LIMIT;
  }

  lemma Reorder(a: int, b: int)
    ensures a * U64_LIMIT * b == a * b * U64_LIMIT
  {
  }

  lemma NoMultiple(d: int, n: int)
    requires -U64_LIMIT < d < U64_LIMIT && d == n * U64_LIMIT
    ensures d == 0
  {
  }

  lemma PrimeCancels(a: u64, b: u64)
    requires a * FNV_PRIME % U64_LIMIT == b * FNV_PRIME % U64_LIMIT
    ensures a == b
  {
    FactorCancels(a, b, FNV_PRIME, 0xce96_5057_aff6_957b, 887_285_111_055);
  }

  lemma MixCancels(a: u64, b: u64)
    requires a * POSITION_MIX % U64_LIMIT == b * POSITION_MIX % U64_LIMIT
    ensures a == b
  {
    FactorCancels(a, b, POSITION_MIX, 0xf1de_83e1_9937_733d, 10_771_413_168_148_108_919);
  }

  lemma {:induction false} HashAppend(hash: u64, a: seq<u8>, b: seq<u8>)
    ensures HashBytes(hash, a + b) == HashBytes(HashBytes(hash, a), b)
    decreases |a|
  {
    if a == [] {
      assert a + b == b;
    } else {
      assert (a + b)[1..] == a[1..] + b;
      HashAppend(Xor64(hash, a[0]) * FNV_PRIME % U64_LIMIT, a[1..], b);
    }
  }

  /** Hashes that differ stay different over the same bytes. */
  lemma {:induction false} HashesStayApart(g: u64, h: u64, bytes: seq<u8>)
    requires g != h
    ensures HashBytes(g, bytes) != HashBytes(h, bytes)
    decreases |bytes|
  {
    if bytes == [] {
    } else {
      var x: u64, y: u64 := Xor64(g, bytes[0]), Xor64(h, bytes[0]);
      XorTells(g, bytes[0], h);
      if x * FNV_PRIME % U64_LIMIT == y * FNV_PRIME % U64_LIMIT {
        PrimeCancels(x, y);
      }
      HashesStayApart(x * FNV_PRIME % U64_LIMIT, y * FNV_PRIME % U64_LIMIT, bytes[1..]);
    }
  }

  /** One byte changed anywhere changes the hash. */
  lemma OneByteChanges(hash: u64, bytes: seq<u8>, k: nat, byte: u8)
    requires k < |bytes| && bytes[k] != byte
    ensures HashBytes(hash, bytes[k := byte]) != HashBytes(hash, bytes)
  {
    var h: u64 := HashBytes(hash, bytes[..k]);
    var x: u64, y: u64 := Xor64(h, bytes[k]), Xor64(h, byte);
    XorTells(bytes[k], h, byte);
    if x * FNV_PRIME % U64_LIMIT == y * FNV_PRIME % U64_LIMIT {
      PrimeCancels(x, y);
    }
    assert bytes == bytes[..k] + bytes[k..] && bytes[k := byte] == bytes[..k] + bytes[k := byte][k..];
    HashAppend(hash, bytes[..k], bytes[k..]);
    HashAppend(hash, bytes[..k], bytes[k := byte][k..]);
    assert bytes[k..][1..] == bytes[k + 1..] == bytes[k := byte][k..][1..];
    HashesStayApart(x * FNV_PRIME % U64_LIMIT, y * FNV_PRIME % U64_LIMIT, bytes[k + 1..]);
  }

  /** A window's hash depends on each of the up to five bytes from its position on, and on no other. */
  lemma WindowOfFive(bytes: seq<u8>, index: nat, k: nat, byte: u8)
    requires index < |bytes| && k < |bytes| && bytes[k] != byte
    ensures WindowHash(bytes[k := byte], index) != WindowHash(bytes, index) <==> index <= k < index + 5
  {
    var end := Min(index + 5, |bytes|);
    var window, changed := bytes[index..end], bytes[k := byte][index..end];
    if index <= k < end {
      assert changed == window[k - index := byte];
      OneByteChanges(FNV_OFFSET, window, k - index, byte);
      XorTells(HashBytes(FNV_OFFSET, window), index * POSITION_MIX % U64_LIMIT, HashBytes(FNV_OFFSET, changed));
    } else {
      assert changed == window;
    }
  }

  /** The same bytes at another position hash differently. */
  lemma PositionCounts(bytes: seq<u8>, i: nat, j: nat)
    requires i < j < |bytes| <= U64_LIMIT
    requires bytes[i..Min(i + 5, |bytes|)] == bytes[j..Min(j + 5, |bytes|)]
    ensures WindowHash(bytes, i) != WindowHash(bytes, j)
  {
    if i * POSITION_MIX % U64_LIMIT == j * POSITION_MIX % U64_LIMIT {
      MixCancels(i, j);
    }
    var hash := HashBytes(FNV_OFFSET, bytes[i..Min(i + 5, |bytes|)]);
    XorTells(i * POSITION_MIX % U64_LIMIT, hash, j * POSITION_MIX % U64_LIMIT);
  }

  lemma HashOfOne(hash: u64, bytes: seq<u8>)
    requires |bytes| == 1
    ensures HashBytes(hash, bytes) == Xor64(hash, bytes[0]) * FNV_PRIME % U64_LIMIT
  {
    assert bytes[1..] == [];
  }

  lemma WindowOfOne(bytes: seq<u8>)
    requires |bytes| == 1
    ensures WindowHash(bytes, 0) == HashBytes(FNV_OFFSET, bytes)
  {
    assert bytes[0..1] == bytes;
    XorWithZero(HashBytes(FNV_OFFSET, bytes));
  }

  lemma LowBytesXor()
    ensures Xor(0x25, 0x61) == 0x44
  {
    assert Xor(2, 6) == 4;
    assert Xor(9, 24) == 17;
  }

  lemma OffsetXorLetterA(high: nat, offset: u64, letter: u8)
    requires offset == high * 0x100 + 0x25 && letter == 0x61
    ensures Xor64(offset, letter) == high * 0x100 + 0x44
  {
    XorLowByte(high, 0x25, letter);
    LowBytesXor();
  }

  lemma OffsetTimesPrime(word: u64)
    requires word == 0xcbf2_9ce4_8422_2344
    ensures word * FNV_PRIME % U64_LIMIT == 0xaf63_dc4c_8601_ec8c
  {
  }

  lemma HashFromOffset(offset: u64, bytes: seq<u8>)
    requires offset == 0xcbf2_9ce4_8422_2325 && bytes == [0x61]
    ensures HashBytes(offset, bytes) == 0xaf63_dc4c_8601_ec8c
  {
    HashOfOne(offset, bytes);
    OffsetXorLetterA(0xcb_f29c_e484_2223, offset, bytes[0]);
    OffsetTimesPrime(Xor64(offset, bytes[0]));
  }

  /** The published 64-bit FNV-1a hash of the letter a. */
  lemma HashOfLetterA(bytes: seq<u8>)
    requires bytes == [0x61]
    ensures WindowHash(bytes, 0) == 0xaf63_dc4c_8601_ec8c
  {
    WindowOfOne(bytes);
    HashFromOffset(FNV_OFFSET, bytes);
  }

  lemma XorLowByte(high: nat, a: u8, b: u8)
    ensures Xor(high * 0x100 + a, b) == high * 0x100 + Xor(a, b)
  {
    XorLowBits(high, a, b, 8);
  }

  lemma {:induction false} XorWithZero(a: nat)
    ensures Xor(a, 0) == a
  {
    if a == 0 {
    } else {
      XorWithZero(a / 2);
    }
  }

  lemma {:induction false} XorLowBits(high: nat, a: nat, b: nat, n: nat)
    requires a < Pow2(n) && b < Pow2(n)
    ensures Xor(high * Pow2(n) + a, b) == high * Pow2(n) + Xor(a, b)
    decreases n
  {
    if n == 0 {
      XorWithZero(high);
    } else {
      var p := Pow2(n - 1);
      assert high * Pow2(n) == 2 * (high * p);
      XorLowBits(high, a / 2, b / 2, n - 1);
      assert (high * Pow2(n) + a) / 2 == high * p + a / 2;
    }
  }

  datatype Window = Window(hash: u64, neuron: nat)

  function Windows(bytes: seq<u8>, size: nat): seq<Window>
    requires size > 0
  {
    seq(|bytes|, i requires 0 <= i < |bytes| => Window(WindowHash(bytes, i), WindowHash(bytes, i) % size))
  }

  // ---- sorting ----

  predicate Below(a: Window, b: Window) {
    a.hash < b.hash || (a.hash == b.hash && a.neuron <= b.neuron)
  }

  function Insert(w: Window, ws: seq<Window>): seq<Window> {
    if ws == [] || Below(w, ws[0]) then [w] + ws else [ws[0]] + Insert(w, ws[1..])
  }

  /** `sort_unstable` on (hash, neuron) pairs. */
  function Ranked(ws: seq<Window>): seq<Window> {
    if ws == [] then [] else Insert(ws[0], Ranked(ws[1..]))
  }

  predicate ByHash(ws: seq<Window>) {
    forall i, j :: 0 <= i < j < |ws| ==> ws[i].hash <= ws[j].hash
  }

  lemma {:induction false} InsertContents(w: Window, ws: seq<Window>)
    ensures multiset(Insert(w, ws)) == multiset(ws) + multiset{w}
  {
    if ws != [] && !Below(w, ws[0]) {
      InsertContents(w, ws[1..]);
      assert ws == [ws[0]] + ws[1..];
    }
  }

  lemma {:induction false} InsertByHash(w: Window, ws: seq<Window>)
    requires ByHash(ws)
    ensures ByHash(Insert(w, ws))
    ensures Insert(w, ws)[0].hash == if ws == [] || w.hash <= ws[0].hash then w.hash else ws[0].hash
  {
    if ws != [] && !Below(w, ws[0]) {
      InsertByHash(w, ws[1..]);
    }
  }

  lemma {:induction false} RankedSorts(ws: seq<Window>)
    ensures ByHash(Ranked(ws)) && multiset(Ranked(ws)) == multiset(ws)
  {
    if ws == [] {
    } else {
      RankedSorts(ws[1..]);
      InsertContents(ws[0], Ranked(ws[1..]));
      InsertByHash(ws[0], Ranked(ws[1..]));
      assert ws == [ws[0]] + ws[1..];
    }
  }

  lemma RankedSameWindows(ws: seq<Window>)
    ensures ByHash(Ranked(ws)) && forall w :: w in Ranked(ws) <==> w in ws
  {
    RankedSorts(ws);
    forall w ensures w in Ranked(ws) <==> w in ws {
      assert w in multiset(Ranked(ws)) <==> w in multiset(ws);
    }
  }

  // ---- the sketch ----

  /** Neurons hit by at least one window. */
  function Hit(ws: seq<Window>): set<nat> {
    set w | w in ws :: w.neuron
  }

  /** `h` is the smallest hash among the windows on `neuron`. */
  ghost predicate IsMinHash(ws: seq<Window>, neuron: nat, h: u64) {
    (exists w :: w in ws && w.neuron == neuron && w.hash == h)
    && forall w :: w in ws && w.neuron == neuron ==> h <= w.hash
  }

  function Active(spikes: seq<u8>): set<nat> {
    set n: nat | n < |spikes| && spikes[n] == 1
  }

  /** The active neurons are the `target` hit neurons of smallest hash, or all of them if fewer. */
  ghost predicate IsBottomK(ws: seq<Window>, target: nat, spikes: seq<u8>) {
    && Binary(spikes)
    && Active(spikes) <= Hit(ws)
    && |Active(spikes)| == Min(target, |Hit(ws)|)
    && forall a, b, ha, hb ::
         a in Active(spikes) && b in Hit(ws) - Active(spikes) && IsMinHash(ws, a, ha) && IsMinHash(ws, b, hb)
         ==> ha <= hb
  }

  function Target(size: nat): nat {
    Min(if size / 4 < 2 then 2 else if size / 4 > 64 then 64 else size / 4, size)
  }

  function LayerSize(requested: nat): nat {
    if requested < 8 then 8 else requested
  }

  lemma HitPrefix(ws: seq<Window>, i: nat)
    requires i < |ws|
    ensures Hit(ws[..i + 1]) == Hit(ws[..i]) + {ws[i].neuron}
    ensures Hit(ws[..i]) <= Hit(ws)
  {
  }

  /** Marking neurons in hash order until the target is met yields the bottom-k set. */
  lemma PrefixIsBottomK(ws: seq<Window>, i: nat, target: nat, spikes: seq<u8>)
    requires i <= |Ranked(ws)| && Active(spikes) == Hit(Ranked(ws)[..i])
    requires Binary(spikes)
    requires |Active(spikes)| == target || (i == |Ranked(ws)| && |Active(spikes)| <= target)
    ensures IsBottomK(ws, target, spikes)
  {
    var ranked := Ranked(ws);
    RankedSameWindows(ws);
    assert Hit(ranked) == Hit(ws);
    assert ranked[..|ranked|] == ranked;
    assert Hit(ranked[..i]) <= Hit(ranked);
    SubsetSize(Active(spikes), Hit(ws));
    forall a, b, ha, hb |
      a in Active(spikes) && b in Hit(ws) - Active(spikes) && IsMinHash(ws, a, ha) && IsMinHash(ws, b, hb)
      ensures ha <= hb
    {
      var wa :| wa in ranked[..i] && wa.neuron == a;
      var wb :| wb in ws && wb.neuron == b && wb.hash == hb;
      EarlierBelow(ranked, i, wa, wb);
    }
  }

  lemma EarlierBelow(ranked: seq<Window>, i: nat, a: Window, b: Window)
    requires ByHash(ranked) && i <= |ranked| && a in ranked[..i] && b in ranked && b !in ranked[..i]
    ensures a.hash <= b.hash && a in ranked
  {
  }

  predicate Binary(spikes: seq<u8>) {
    forall n :: 0 <= n < |spikes| ==> spikes[n] <= 1
  }

  lemma MarkedNeuron(before: seq<u8>, neuron: nat)
    requires neuron < |before| && Binary(before)
    ensures Binary(before[neuron := 1])
    ensures Active(before[neuron := 1]) == Active(before) + {neuron}
    ensures |Active(before[neuron := 1])| == |Active(before)| + if before[neuron] == 0 then 1 else 0
  {
  }

  /** Activates one neuron and tells whether it was idle. */
  method Mark(spikes: array<u8>, neuron: nat) returns (idle: bool)
    requires neuron < spikes.Length && Binary(spikes[..])
    modifies spikes
    ensures Binary(spikes[..]) && Active(spikes[..]) == old(Active(spikes[..])) + {neuron}
    ensures |Active(spikes[..])| == old(|Active(spikes[..])|) + if idle then 1 else 0
  {
    MarkedNeuron(spikes[..], neuron);
    ghost var marked := spikes[..][neuron := 1];
    idle := spikes[neuron] == 0;
    if idle {
      spikes[neuron] := 1;
    }
    assert spikes[..] == marked;
  }

  /** Marks neurons in hash order until `target` of them are active. */
  method MarkSmallest(ws: seq<Window>, size: nat, target: nat) returns (spikes: array<u8>)
    requires target > 0 && forall w :: w in ws ==> w.neuron < size
    ensures fresh(spikes) && spikes.Length == size && IsBottomK(ws, target, spikes[..])
  {
    spikes := new u8[size](_ => 0);
    var ranked := Ranked(ws);
    RankedSameWindows(ws);
    var active := 0;
    for i := 0 to |ranked|
      invariant Binary(spikes[..])
      invariant Active(spikes[..]) == Hit(ranked[..i])
      invariant active == |Active(spikes[..])| < target
    {
      assert ranked[i] in ws;
      HitPrefix(ranked, i);
      var idle := Mark(spikes, ranked[i].neuron);
      if idle {
        active := active + 1;
      }
      if active >= target {
        PrefixIsBottomK(ws, i + 1, target, spikes[..]);
        return;
      }
    }
    PrefixIsBottomK(ws, |ranked|, target, spikes[..]);
  }

  /** The hashing loop of one window. */
  method HashWindow(bytes: seq<u8>, index: nat) returns (hash: u64)
    requires index < |bytes|
    ensures hash == WindowHash(bytes, index)
  {
    var end := Min(index + WINDOW, |bytes|);
    hash := FNV_OFFSET;
    for i := index to end
      invariant HashBytes(hash, bytes[i..end]) == HashBytes(FNV_OFFSET, bytes[index..end])
    {
      assert bytes[i..end][1..] == bytes[i + 1..end];
      hash := Xor64(hash, bytes[i]) * FNV_PRIME % U64_LIMIT;
    }
    hash := Xor64(hash, index * POSITION_MIX % U64_LIMIT);
  }

  method CollectWindows(bytes: seq<u8>, size: nat) returns (ws: seq<Window>)
    requires size > 0
    ensures ws == Windows(bytes, size)
  {
    ws := [];
    for index := 0 to |bytes|
      invariant ws == Windows(bytes, size)[..index]
    {
      var hash := HashWindow(bytes, index);
      ws := ws + [Window(hash, hash % size)];
    }
  }

  /** `text_to_spikes` on the bytes of the compacted, lower-cased text. */
  method TextToSpikes(bytes: seq<u8>, requested: nat) returns (spikes: array<u8>)
    ensures spikes.Length == LayerSize(requested) == if requested < 8 then 8 else requested
    ensures IsBottomK(Windows(bytes, LayerSize(requested)), Target(LayerSize(requested)), spikes[..])
    ensures Sparse(spikes[..]) && AsDenseAsAllowed(Windows(bytes, LayerSize(requested)), spikes[..])
  {
    var size := LayerSize(requested);
    var ws := CollectWindows(bytes, size);
    spikes := MarkSmallest(ws, size, Target(size));
    Density(ws, requested, spikes[..]);
  }

  /** At most 64 neurons, and at most a quarter of the layer. */
  predicate Sparse(spikes: seq<u8>) {
    |Active(spikes)| <= 64 && 4 * |Active(spikes)| <= |spikes|
  }

  /** Every neuron hit is active, or no more may be: 64 are, or one more would be over a quarter of the layer. */
  predicate AsDenseAsAllowed(ws: seq<Window>, spikes: seq<u8>) {
    Active(spikes) == Hit(ws) || |Active(spikes)| == 64 || 4 * (|Active(spikes)| + 1) > |spikes|
  }

  /** Which neurons fire is determined by the text: a neuron is its window's hash modulo the layer size, so
      ties between hashes decide nothing. */
  lemma SketchUnique(bytes: seq<u8>, requested: nat, s: seq<u8>, t: seq<u8>)
    requires |s| == |t|
    requires IsBottomK(Windows(bytes, LayerSize(requested)), Target(LayerSize(requested)), s)
    requires IsBottomK(Windows(bytes, LayerSize(requested)), Target(LayerSize(requested)), t)
    ensures s == t
  {
    var size := LayerSize(requested);
    var ws := Windows(bytes, size);
    NeuronOfHash(bytes, size);
    forall v, w | v in ws && w in ws && v.hash == w.hash ensures v.neuron == w.neuron {
      assert v.neuron == v.hash % size;
    }
    BottomKUnique(ws, Target(size), s, t);
  }

  lemma NeuronOfHash(bytes: seq<u8>, size: nat)
    requires size > 0
    ensures forall w :: w in Windows(bytes, size) ==> w.neuron == w.hash % size
  {
  }

  /** No text saturates the layer, and none that has more to say leaves it emptier than it must. */
  lemma Density(ws: seq<Window>, requested: nat, spikes: seq<u8>)
    requires |spikes| == LayerSize(requested) && IsBottomK(ws, Target(LayerSize(requested)), spikes)
    ensures Sparse(spikes) && AsDenseAsAllowed(ws, spikes)
  {
    SubsetSize(Active(spikes), Hit(ws));
  }

  /** The sketch is determined by its windows: two bottom-k vectors of one text are equal. */
  lemma BottomKUnique(ws: seq<Window>, target: nat, s: seq<u8>, t: seq<u8>)
    requires IsBottomK(ws, target, s) && IsBottomK(ws, target, t) && |s| == |t|
    requires forall v, w :: v in ws && w in ws && v.hash == w.hash ==> v.neuron == w.neuron
    ensures s == t
  {
    ActiveSubset(ws, target, s, t);
    ActiveSubset(ws, target, t, s);
    forall n | 0 <= n < |s| ensures s[n] == t[n] {
      assert n in Active(s) <==> n in Active(t);
    }
  }

  lemma ActiveSubset(ws: seq<Window>, target: nat, s: seq<u8>, t: seq<u8>)
    requires IsBottomK(ws, target, s) && IsBottomK(ws, target, t)
    requires forall v, w :: v in ws && w in ws && v.hash == w.hash ==> v.neuron == w.neuron
    ensures Active(s) <= Active(t)
  {
    if a :| a in Active(s) && a !in Active(t) {
      if Active(t) <= Active(s) {
        SubsetSize(Active(t) + {a}, Active(s));
      }
      var b :| b in Active(t) && b !in Active(s);
      var ha := MinHashOf(ws, a);
      var hb := MinHashOf(ws, b);
    }
  }

  lemma {:induction false} MinHashOf(ws: seq<Window>, neuron: nat) returns (h: u64)
    requires neuron in Hit(ws)
    ensures IsMinHash(ws, neuron, h)
    decreases |ws|
  {
    if ws[0].neuron == neuron && neuron !in Hit(ws[1..]) {
      h := ws[0].hash;
    } else {
      h := MinHashOf(ws[1..], neuron);
      if ws[0].neuron == neuron && ws[0].hash < h {
        h := ws[0].hash;
      }
    }
    assert forall w :: w in ws <==> w == ws[0] || w in ws[1..];
  }
}
