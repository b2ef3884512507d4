/** Types and small sequence facts shared by the component models. */
module Common {

  datatype Option<+T> = None | Some(value: T)

  datatype Result<+T, +E> = Ok(value: T) | Err(error: E)

  /** The reply a network offers for an exchange. */
  datatype Candidate = Candidate(usable: bool, source: Option<string>, reply: Option<string>, confidence: Option<real>)

  const U32_LIMIT: int := 0x1_0000_0000
  const U64_LIMIT: int := 0x1_0000_0000_0000_0000

  type u8 = x: int | 0 <= x < 0x100
  type u16 = x: int | 0 <= x < 0x1_0000
  type u32 = x: int | 0 <= x < 0x1_0000_0000
  type u64 = x: int | 0 <= x < 0x1_0000_0000_0000_0000

  function Min(a: int, b: int): int {
    if a <= b then a else b
  }

  /** `u64::saturating_add`. */
  function SaturatingAdd(a: u64, b: u64): u64 {
    if a + b < U64_LIMIT then a + b else U64_LIMIT - 1
  }

  /** What is left of a log after its oldest entries are drained down to `n`. */
  function LastN<T>(s: seq<T>, n: nat): seq<T> {
    if |s| <= n then s else s[|s| - n..]
  }

  lemma LastNIs<T>(s: seq<T>, n: nat)
    ensures |LastN(s, n)| == Min(|s|, n) && LastN(s, n) == s[|s| - |LastN(s, n)|..]
  {
  }

  /** Trimming a log before or after appending to it leaves the same log. */
  lemma LastNLeft<T>(a: seq<T>, b: seq<T>, n: nat)
    ensures LastN(LastN(a, n) + b, n) == LastN(a + b, n)
  {
  }

  /** Number of elements of `s` that satisfy `p`. */
  function Count<T>(s: seq<T>, p: T -> bool): nat {
    if s == [] then 0 else (if p(s[0]) then 1 else 0) + Count(s[1..], p)
  }

  lemma {:induction false} CountAppend<T>(a: seq<T>, b: seq<T>, p: T -> bool)
    ensures Count(a + b, p) == Count(a, p) + Count(b, p)
  {
    if a == [] {
      assert a + b == b;
    } else {
      assert (a + b)[1..] == a[1..] + b;
      CountAppend(a[1..], b, p);
    }
  }

  /** The pieces that the elements of `s` contribute, in order. */
  function FlatMap<S, T>(s: seq<S>, f: S -> seq<T>): seq<T> {
    if s == [] then [] else FlatMap(s[..|s| - 1], f) + f(s[|s| - 1])
  }

  lemma {:induction false} FlatMapAppend<S, T>(a: seq<S>, b: seq<S>, f: S -> seq<T>)
    ensures FlatMap(a + b, f) == FlatMap(a, f) + FlatMap(b, f)
  {
    if b == [] {
      assert a + b == a;
    } else {
      var n := |b| - 1;
      assert (a + b)[..|a| + n] == a + b[..n];
      FlatMapAppend(a, b[..n], f);
    }
  }

  /** `char::is_whitespace`. */
  predicate IsWhitespace(c: char) {
    var n := c as int;
    || 0x9 <= n <= 0xd || n == 0x20 || n == 0x85 || n == 0xa0 || n == 0x1680 || 0x2000 <= n <= 0x200a
    || n == 0x2028 || n == 0x2029 || n == 0x202f || n == 0x205f || n == 0x3000
  }

  /** `s.trim().is_empty()` */
  predicate Blank(s: string) {
    forall i :: 0 <= i < |s| ==> IsWhitespace(s[i])
  }

  /** `str::trim` */
  function Trim(s: string): string {
    if s == "" then ""
    else if IsWhitespace(s[0]) then Trim(s[1..])
    else if IsWhitespace(s[|s| - 1]) then Trim(s[..|s| - 1])
    else s
  }

  /** `s[i..j]` starts and ends with other characters than whitespace, and only whitespace stands around it. */
  predicate IsTrimmed(s: string, i: nat, j: nat) {
    && i <= j <= |s|
    && (forall k :: 0 <= k < |s| && !(i <= k < j) ==> IsWhitespace(s[k]))
    && (i < j ==> !IsWhitespace(s[i]) && !IsWhitespace(s[j - 1]))
  }

  lemma {:induction false} TrimWithin(s: string, a: nat, b: nat) returns (i: nat, j: nat)
    requires a <= b <= |s| && forall k :: 0 <= k < |s| && !(a <= k < b) ==> IsWhitespace(s[k])
    ensures IsTrimmed(s, i, j) && Trim(s[a..b]) == s[i..j]
    decreases b - a
  {
    var inner := s[a..b];
    if a == b {
      i, j := a, b;
    } else if IsWhitespace(s[a]) {
      assert inner[1..] == s[a + 1..b];
      i, j := TrimWithin(s, a + 1, b);
    } else if IsWhitespace(s[b - 1]) {
      assert inner[..|inner| - 1] == s[a..b - 1];
      i, j := TrimWithin(s, a, b - 1);
    } else {
      i, j := a, b;
    }
  }

  lemma TrimIs(s: string) returns (i: nat, j: nat)
    ensures IsTrimmed(s, i, j) && Trim(s) == s[i..j]
  {
    i, j := TrimWithin(s, 0, |s|);
    assert s[0..|s|] == s;
  }

  /** `str::to_ascii_lowercase` */
  function LowerAscii(s: string): string {
    seq(|s|, i requires 0 <= i < |s| => if 'A' <= s[i] <= 'Z' then (s[i] as int + 32) as char else s[i])
  }

  /** The same letter in two cases, or the same character. */
  predicate SameLetter(a: char, b: char) {
    || a == b
    || ('a' <= a <= 'z' && a as int == b as int + 32)
    || ('a' <= b <= 'z' && b as int == a as int + 32)
  }

  predicate EqualIgnoringCase(a: string, b: string) {
    |a| == |b| && forall i :: 0 <= i < |a| ==> SameLetter(a[i], b[i])
  }

  /** Lower-case forms agree exactly for texts that differ in the case of ASCII letters only. */
  lemma LowerAsciiFolds(a: string, b: string)
    ensures LowerAscii(a) == LowerAscii(b) <==> EqualIgnoringCase(a, b)
    ensures EqualIgnoringCase(LowerAscii(a), a) && forall c :: c in LowerAscii(a) ==> !('A' <= c <= 'Z')
  {
    var x, y := LowerAscii(a), LowerAscii(b);
    if EqualIgnoringCase(a, b) {
      assert forall i :: 0 <= i < |a| ==> x[i] == y[i];
    } else if |a| == |b| {
      var i :| 0 <= i < |a| && !SameLetter(a[i], b[i]);
      assert x[i] != y[i];
    }
  }

  /** The first `n` characters of a text. */
  function TruncateChars(s: string, n: nat): (kept: string)
    ensures kept <= s && |kept| == Min(|s|, n)
  {
    if |s| <= n then s else s[..n]
  }

  lemma SubsetSize<T>(a: set<T>, b: set<T>)
    requires a <= b
    ensures |a| <= |b| && (|a| == |b| ==> a == b)
  {
    assert b == a + (b - a);
  }

  lemma MemberOf<T>(s: set<T>) returns (x: T)
    requires s != {}
    ensures x in s
  {
    x :| x in s;
  }

  /** No entry of `m` is older than that of `k`. */
  predicate Oldest<T>(m: map<string, T>, age: T -> int, k: string) {
    k in m && forall other :: other in m ==> age(m[k]) <= age(m[other])
  }

  lemma {:induction false} OldestExists<T>(m: map<string, T>, age: T -> int) returns (k: string)
    requires m != map[]
    ensures Oldest(m, age, k)
    decreases |m|
  {
    k := MemberOf(m.Keys);
    var others := m - {k};
    assert forall other :: other in m ==> other == k || other in others;
    if others != map[] {
      var next := OldestExists(others, age);
      k := if age(m[next]) < age(m[k]) then next else k;
    }
  }

  lemma {:induction false} LeastExists(s: set<int>) returns (least: int)
    requires s != {}
    ensures least in s && forall x :: x in s ==> least <= x
    decreases |s|
  {
    least := MemberOf(s);
    var others := s - {least};
    if others != {} {
      var next := LeastExists(others);
      assert forall x :: x in s ==> x in others || x == least;
      least := Min(least, next);
    } else {
      assert forall x :: x in s ==> x in others || x == least;
    }
  }

  /** `ids` are the `limit` smallest members of `s`, in ascending order. */
  ghost predicate IsFirst(s: set<int>, limit: nat, ids: seq<int>) {
    && (forall i, j :: 0 <= i < j < |ids| ==> ids[i] < ids[j])
    && (forall id :: id in ids ==> id in s)
    && |ids| <= limit
    && forall id :: id in s && id !in ids ==> |ids| == limit && forall j :: 0 <= j < |ids| ==> ids[j] < id
  }

  /** `ORDER BY id ASC LIMIT limit`. */
  method First(s: set<int>, limit: nat) returns (ids: seq<int>)
    ensures IsFirst(s, limit, ids)
  {
    var remaining := s;
    ids := [];
    while |ids| < limit && remaining != {}
      invariant |ids| <= limit && remaining <= s
      invariant forall i, j :: 0 <= i < j < |ids| ==> ids[i] < ids[j]
      invariant forall id :: id in s <==> id in ids || id in remaining
      invariant forall id, j :: id in remaining && 0 <= j < |ids| ==> ids[j] < id
      decreases remaining
    {
      ghost var least := LeastExists(remaining);
      var next :| next in remaining && forall id :: id in remaining ==> next <= id;
      ids := ids + [next];
      remaining := remaining - {next};
    }
  }

  /** How many members that leaves. */
  lemma {:induction false} FirstSize(s: set<int>, limit: nat, ids: seq<int>)
    requires IsFirst(s, limit, ids)
    ensures |set id | id in ids| == |ids|
    ensures |s - set id | id in ids| == |s| - |ids|
    ensures |ids| == Min(limit, |s|)
  {
    DistinctSize(ids);
    var chosen := set id | id in ids;
    assert chosen <= s;
    assert s == chosen + (s - chosen);
    if |ids| < limit {
      assert s - chosen == {} by {
        if s - chosen != {} {
          var x := MemberOf(s - chosen);
        }
      }
    }
  }

  lemma {:induction false} DistinctSize(ids: seq<int>)
    requires forall i, j :: 0 <= i < j < |ids| ==> ids[i] < ids[j]
    ensures |set id | id in ids| == |ids|
  {
    if ids == [] {
    } else {
      var n := |ids| - 1;
      DistinctSize(ids[..n]);
      assert (set id | id in ids) == (set id | id in ids[..n]) + {ids[n]};
    }
  }
}
