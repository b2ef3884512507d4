/** JSON values and the pointers (RFC 6901) that local schema references follow (`src/app.rs`). */
module JsonPointer {
  import opened Common

  datatype Json =
    | Null
    | Bool(b: bool)
    | Number(n: real)
    | String(s: string)
    | Array(items: seq<Json>)
    | Object(fields: map<string, Json>)

  function Get(value: Json, key: string): Option<Json> {
    if value.Object? && key in value.fields then Some(value.fields[key]) else None
  }

  predicate Has(value: Json, key: string) {
    Get(value, key).Some?
  }

  // ---- following a pointer ----

  /** The parts of `s` between occurrences of `c`. */
  function Split(s: string, c: char): (parts: seq<string>)
    ensures |parts| >= 1
  {
    if s == "" then [""]
    else
      var rest := Split(s[1..], c);
      if s[0] == c then [""] + rest else [[s[0]] + rest[0]] + rest[1..]
  }

  /** `str::replace` of a two-character pattern. */
  function Replace(s: string, a: char, b: char, c: char): string {
    if |s| < 2 then s
    else if s[0] == a && s[1] == b then [c] + Replace(s[2..], a, b, c)
    else [s[0]] + Replace(s[1..], a, b, c)
  }

  function ArrayIndex(token: string): Option<nat> {
    if token == "" || (token[0] == '0' && |token| != 1) then None else Digits(token, 0)
  }

  function Digits(token: string, value: nat): Option<nat> {
    if token == "" then Some(value)
    else if '0' <= token[0] <= '9' then Digits(token[1..], 10 * value + (token[0] as int - '0' as int))
    else None
  }

  function Walk(value: Json, tokens: seq<string>): Option<Json> {
    if tokens == [] then Some(value)
    else
      var token := Replace(Replace(tokens[0], '~', '1', '/'), '~', '0', '~');
      match value
      case Object(fields) => if token in fields then Walk(fields[token], tokens[1..]) else None
      case Array(items) =>
        var index := ArrayIndex(token);
        if index.Some? && index.value < |items| then Walk(items[index.value], tokens[1..]) else None
      case _ => None
  }

  /** `Value::pointer` on a path that starts with a slash. */
  function Pointer(root: Json, path: string): Option<Json> {
    Walk(root, Split(path, '/')[1..])
  }

  // ---- what a pointer leads to ----

  /** A key as it is written in a pointer: `~` as `~0` and `/` as `~1` (section 3 of RFC 6901). */
  function Quoted(key: string): string {
    if key == "" then ""
    else (if key[0] == '~' then "~0" else if key[0] == '/' then "~1" else [key[0]]) + Quoted(key[1..])
  }

  function Printed(keys: seq<string>): string {
    if keys == [] then "" else "/" + Quoted(keys[0]) + Printed(keys[1..])
  }

  function DigitChar(n: nat): char
    requires n < 10
  {
    (n + '0' as int) as char
  }

  /** A number without leading zeros. */
  function DecimalText(n: nat): string {
    if n < 10 then [DigitChar(n)] else DecimalText(n / 10) + [DigitChar(n % 10)]
  }

  /** Following the keys one by one, into members of objects and, by their position, items of arrays, leads from
      `value` to `target`. */
  ghost predicate Reaches(value: Json, keys: seq<string>, target: Json)
    decreases |keys|
  {
    if keys == [] then value == target
    else match value
      case Object(fields) => keys[0] in fields && Reaches(fields[keys[0]], keys[1..], target)
      case Array(items) => exists n: nat :: n < |items| && keys[0] == DecimalText(n) && Reaches(items[n], keys[1..], target)
      case _ => false
  }

  // quoting

  /** `Quoted` halfway back: slashes are read, tildes are not. */
  function HalfQuoted(key: string): string {
    if key == "" then "" else (if key[0] == '~' then "~0" else [key[0]]) + HalfQuoted(key[1..])
  }

  lemma ReplaceNext(s: string, a: char, b: char, c: char)
    requires s != ""
    ensures |s| >= 2 && s[0] == a && s[1] == b ==> Replace(s, a, b, c) == [c] + Replace(s[2..], a, b, c)
    ensures !(|s| >= 2 && s[0] == a && s[1] == b) ==> Replace(s, a, b, c) == [s[0]] + Replace(s[1..], a, b, c)
  {
  }

  lemma SlashRead(c: char, rest: string)
    ensures Replace((if c == '~' then "~0" else if c == '/' then "~1" else [c]) + rest, '~', '1', '/')
         == (if c == '~' then "~0" else [c]) + Replace(rest, '~', '1', '/')
  {
    var s := (if c == '~' then "~0" else if c == '/' then "~1" else [c]) + rest;
    ReplaceNext(s, '~', '1', '/');
    if c == '~' {
      assert s[1..] == "0" + rest && s[1..][1..] == rest;
      ReplaceNext(s[1..], '~', '1', '/');
    } else if c == '/' {
      assert s[2..] == rest;
    } else {
      assert s[1..] == rest;
    }
  }

  lemma {:induction false} SlashesRead(key: string)
    ensures Replace(Quoted(key), '~', '1', '/') == HalfQuoted(key)
  {
    if key == "" {
    } else {
      SlashesRead(key[1..]);
      SlashRead(key[0], Quoted(key[1..]));
    }
  }

  lemma {:induction false} TildesRead(key: string)
    ensures Replace(HalfQuoted(key), '~', '0', '~') == key
  {
    if key == "" {
    } else {
      var s, rest := HalfQuoted(key), HalfQuoted(key[1..]);
      TildesRead(key[1..]);
      ReplaceNext(s, '~', '0', '~');
      assert if key[0] == '~' then s[2..] == rest else s[1..] == rest;
      assert key == [key[0]] + key[1..];
    }
  }

  lemma {:induction false} NoSlashQuoted(key: string)
    ensures '/' !in Quoted(key)
  {
    if key == "" {
    } else {
      NoSlashQuoted(key[1..]);
    }
  }

  // splitting

  lemma {:induction false} SplitToken(token: string, rest: string)
    requires '/' !in token && (rest == "" || rest[0] == '/')
    ensures Split(token + rest, '/') == [token] + Split(rest, '/')[1..]
  {
    if token == "" {
      assert token + rest == rest;
      assert rest != "" ==> Split(rest, '/') == [""] + Split(rest[1..], '/');
    } else {
      assert (token + rest)[1..] == token[1..] + rest;
      SplitToken(token[1..], rest);
      assert [token[0]] + token[1..] == token;
    }
  }

  function QuotedAll(keys: seq<string>): seq<string> {
    if keys == [] then [] else [Quoted(keys[0])] + QuotedAll(keys[1..])
  }

  lemma {:induction false} SplitPrinted(keys: seq<string>)
    ensures Split(Printed(keys), '/')[1..] == QuotedAll(keys)
  {
    if keys == [] {
    } else {
      var path, rest := Printed(keys), Printed(keys[1..]);
      assert path[1..] == Quoted(keys[0]) + rest;
      NoSlashQuoted(keys[0]);
      SplitToken(Quoted(keys[0]), rest);
      SplitPrinted(keys[1..]);
    }
  }

  // positions

  lemma {:induction false} DigitsAppend(token: string, last: char, value: nat)
    ensures Digits(token + [last], value) ==
      var before := Digits(token, value);
      if before.None? || !('0' <= last <= '9') then None else Some(10 * before.value + (last as int - '0' as int))
  {
    if token == "" {
      assert token + [last] == [last] && [last][1..] == "";
    } else {
      assert (token + [last])[1..] == token[1..] + [last];
      if '0' <= token[0] <= '9' {
        DigitsAppend(token[1..], last, 10 * value + (token[0] as int - '0' as int));
      }
    }
  }

  lemma {:induction false} DecimalRead(n: nat)
    ensures var text := DecimalText(n);
            text != "" && Digits(text, 0) == Some(n) && (text[0] == '0' ==> n == 0)
  {
    if n < 10 {
      assert [DigitChar(n)][1..] == "";
    } else {
      DecimalRead(n / 10);
      DigitsAppend(DecimalText(n / 10), DigitChar(n % 10), 0);
    }
  }

  /** Only the decimal text of a position is read as that position. */
  lemma {:induction false} DecimalBack(token: string)
    requires token != "" && Digits(token, 0).Some? && (token[0] == '0' ==> |token| == 1)
    ensures token == DecimalText(Digits(token, 0).value)
  {
    var k := |token| - 1;
    var last := token[k];
    assert token == token[..k] + [last];
    DigitsAppend(token[..k], last, 0);
    if k == 0 {
      assert token[..k] == "";
    } else {
      DecimalBack(token[..k]);
      DecimalRead(Digits(token[..k], 0).value);
    }
  }

  lemma IndexIsDecimal(token: string, n: nat)
    ensures ArrayIndex(token) == Some(n) <==> token == DecimalText(n)
  {
    DecimalRead(n);
    if ArrayIndex(token) == Some(n) {
      DecimalBack(token);
    }
    if token == DecimalText(n) && n >= 10 {
      DecimalRead(n / 10);
    }
  }

  // the whole walk

  lemma TokenRead(key: string)
    ensures Replace(Replace(Quoted(key), '~', '1', '/'), '~', '0', '~') == key
  {
    SlashesRead(key);
    TildesRead(key);
  }

  lemma {:induction false} WalkReaches(value: Json, keys: seq<string>, target: Json)
    ensures Walk(value, QuotedAll(keys)) == Some(target) <==> Reaches(value, keys, target)
    decreases |keys|
  {
    if keys == [] {
    } else {
      TokenRead(keys[0]);
      match value
      case Object(fields) =>
        if keys[0] in fields {
          WalkReaches(fields[keys[0]], keys[1..], target);
        }
      case Array(items) =>
        forall n: nat ensures ArrayIndex(keys[0]) == Some(n) <==> keys[0] == DecimalText(n) {
          IndexIsDecimal(keys[0], n);
        }
        var index := ArrayIndex(keys[0]);
        if index.Some? && index.value < |items| {
          WalkReaches(items[index.value], keys[1..], target);
        }
      case _ =>
    }
  }

  /** A printed pointer gives what its keys reach one by one, and nothing where one of them is missing. */
  lemma PointerReaches(root: Json, keys: seq<string>, target: Json)
    ensures Pointer(root, Printed(keys)) == Some(target) <==> Reaches(root, keys, target)
  {
    SplitPrinted(keys);
    WalkReaches(root, keys, target);
  }
}
