/** Speech output as SSML: escaping and truncation to Alexa's limit (`src/alexa.rs`). */
module SpeechSsml {
  import opened Common

  const MAX_SSML_CHARS: nat := 8000
  const OPEN: string := "<speak>"
  const CLOSE: string := "</speak>"
  const ELLIPSIS: string := "..."
  const BUDGET: nat := MAX_SSML_CHARS - |OPEN| - |CLOSE|
  const LIMIT: nat := BUDGET - |ELLIPSIS|

  // ---- escaping ----

  /** General category Cc. */
  predicate IsControl(c: char) {
    c as int < 0x20 || 0x7f <= c as int < 0xa0
  }

  predicate BecomesSpace(c: char) {
    c == '\n' || c == '\r' || c == '\t'
  }

  /** What one character contributes: a predefined entity (section 4.6 of XML 1.0), a space, nothing, itself. */
  function Piece(c: char): string {
    if c == '&' then "&amp;"
    else if c == '<' then "&lt;"
    else if c == '>' then "&gt;"
    else if c == '"' then "&quot;"
    else if c == '\'' then "&apos;"
    else if BecomesSpace(c) then " "
    else if IsControl(c) then ""
    else [c]
  }

  function Escape(text: string): string {
    FlatMap(text, Piece)
  }

  method EscapeSsml(text: string) returns (out: string)
    ensures out == Escape(text)
  {
    out := "";
    for i := 0 to |text|
      invariant out == Escape(text[..i])
    {
      EscapeStep(text, i);
      out := out + Piece(text[i]);
    }
    assert text[..|text|] == text;
  }

  /** The text a listener is meant to hear: line breaks and tabs as spaces, other controls gone. */
  function Clean(text: string): string {
    if text == "" then ""
    else
      var c := text[0];
      (if BecomesSpace(c) then " " else if IsControl(c) then "" else [c]) + Clean(text[1..])
  }

  /** No control characters: nothing below a space, and nothing from 0x7f to 0x9f. */
  predicate Printable(s: string) {
    forall i :: 0 <= i < |s| ==> s[i] as int >= 0x20 && !(0x7f <= s[i] as int <= 0x9f)
  }

  lemma {:induction false} CleanAppend(a: string, b: string)
    ensures Clean(a + b) == Clean(a) + Clean(b)
  {
    if a == "" {
      assert a + b == b;
    } else {
      assert (a + b)[1..] == a[1..] + b;
      CleanAppend(a[1..], b);
    }
  }

  /** What is heard has no controls, and all of a text that has none. */
  lemma {:induction false} CleanIsPrintable(text: string)
    ensures Printable(Clean(text)) && (Printable(text) ==> Clean(text) == text)
  {
    if text == "" {
    } else {
      CleanIsPrintable(text[1..]);
      assert text == [text[0]] + text[1..];
    }
  }

  /** A line break or tab is heard as a space, any other control as nothing. */
  lemma CleanControl(a: string, c: char, b: string)
    requires c as int < 0x20 || 0x7f <= c as int <= 0x9f
    ensures Clean(a + [c] + b) == Clean(a) + (if c == '\n' || c == '\r' || c == '\t' then " " else "") + Clean(b)
  {
    CleanAppend(a + [c], b);
    CleanAppend(a, [c]);
  }

  predicate IsMarkup(c: char) {
    c == '&' || c == '<' || c == '>' || c == '"' || c == '\''
  }

  /** The entity that starts `s`: the character it stands for and its length. */
  function Entity(s: string): Option<(char, nat)> {
    if "&amp;" <= s then Some(('&', 5))
    else if "&lt;" <= s then Some(('<', 4))
    else if "&gt;" <= s then Some(('>', 4))
    else if "&quot;" <= s then Some(('"', 6))
    else if "&apos;" <= s then Some(('\'', 6))
    else None
  }

  /** Reads character data back; nothing if an entity is cut short or markup stands unescaped. */
  function Unescape(s: string): Option<string>
    decreases |s|
  {
    if s == "" then Some("")
    else if IsMarkup(s[0]) then
      var entity := Entity(s);
      if entity.None? then None
      else
        var rest := Unescape(s[entity.value.1..]);
        if rest.None? then None else Some([entity.value.0] + rest.value)
    else
      var rest := Unescape(s[1..]);
      if rest.None? then None else Some([s[0]] + rest.value)
  }

  lemma EscapeAppend(a: string, b: string)
    ensures Escape(a + b) == Escape(a) + Escape(b)
  {
    FlatMapAppend(a, b, Piece);
  }

  lemma EscapeOne(c: char)
    ensures Escape([c]) == Piece(c)
  {
    assert [c][..0] == "";
    assert FlatMap([c], Piece) == FlatMap("", Piece) + Piece(c);
  }

  /** One more character adds one more piece. */
  lemma EscapeStep(text: string, k: nat)
    requires k < |text|
    ensures Escape(text[..k + 1]) == Escape(text[..k]) + Piece(text[k])
  {
    assert text[..k + 1] == text[..k] + [text[k]];
    EscapeAppend(text[..k], [text[k]]);
    EscapeOne(text[k]);
  }

  lemma EntityOfPiece(c: char, rest: string)
    requires IsMarkup(c)
    ensures Piece(c)[0] == '&' && Entity(Piece(c) + rest) == Some((c, |Piece(c)|))
    ensures (Piece(c) + rest)[|Piece(c)|..] == rest
  {
    var s := Piece(c) + rest;
    assert s[1] == Piece(c)[1] && s[2] == Piece(c)[2];
  }

  lemma UnescapePiece(c: char, rest: string)
    ensures Unescape(Piece(c) + rest) ==
      var tail := Unescape(rest);
      if tail.None? then None
      else Some((if BecomesSpace(c) then " " else if IsControl(c) then "" else [c]) + tail.value)
  {
    var s := Piece(c) + rest;
    if IsMarkup(c) {
      EntityOfPiece(c, rest);
    } else if |Piece(c)| == 1 {
      assert s[1..] == rest;
    } else {
      assert s == rest;
      var tail := Unescape(rest);
      assert tail.Some? ==> "" + tail.value == tail.value;
    }
  }

  /** Reading the escaped text back gives the cleaned text: nothing else is lost or invented. */
  lemma {:induction false} UnescapeEscape(text: string)
    ensures Unescape(Escape(text)) == Some(Clean(text))
    decreases |text|
  {
    if text == "" {
    } else {
      assert text == [text[0]] + text[1..];
      EscapeAppend([text[0]], text[1..]);
      EscapeOne(text[0]);
      UnescapeEscape(text[1..]);
      UnescapePiece(text[0], Escape(text[1..]));
    }
  }

  // ---- truncation ----

  function TrimEnd(s: string): (t: string)
    ensures t <= s && (t == s || IsWhitespace(s[|t|]))
  {
    if s != "" && IsWhitespace(s[|s| - 1]) then TrimEnd(s[..|s| - 1]) else s
  }

  /** Offset of the last space, or 0. */
  function LastSpace(s: string): (n: nat)
    ensures n <= |s| && (n > 0 ==> n < |s| && s[n] == ' ')
    ensures forall i :: n < i < |s| ==> s[i] != ' '
  {
    if s == "" then 0
    else if s[|s| - 1] == ' ' then |s| - 1
    else LastSpace(s[..|s| - 1])
  }

  /** The body cut at its last word boundary, if it has one. */
  function WordCut(body: string): string {
    var n := LastSpace(body);
    TrimEnd(if n > 0 then body[..n] else body)
  }

  /** A document with this content and ending is within the bound. */
  predicate Fits(content: string, ending: string) {
    |OPEN| + |content| + |ending| + |CLOSE| <= MAX_SSML_CHARS
  }

  /** `k` characters of the text are as many as fit with an ellipsis. */
  predicate Longest(text: string, k: nat) {
    k <= |text| && Fits(Escape(text[..k]), ELLIPSIS) && (k < |text| ==> !Fits(Escape(text[..k + 1]), ELLIPSIS))
  }

  /** The last space of `b` behind its start is at `m`, or there is none and `m` is the end. */
  predicate LastWordEnds(b: string, m: nat) {
    && m <= |b|
    && (m < |b| ==> m > 0 && b[m] == ' ')
    && forall i :: 0 < i < |b| && (i > m || m == |b|) ==> b[i] != ' '
  }

  /** Of `b`, `n` characters stay: up to its last word boundary, without the whitespace before that. */
  predicate Keeps(b: string, n: nat, m: nat) {
    && n <= m && LastWordEnds(b, m)
    && (n == 0 || !IsWhitespace(b[n - 1]))
    && forall i :: n <= i < m ==> IsWhitespace(b[i])
  }

  lemma {:induction false} TrimEndKeeps(s: string)
    ensures var n := |TrimEnd(s)|;
            && TrimEnd(s) == s[..n] && (n == 0 || !IsWhitespace(s[n - 1]))
            && forall i :: n <= i < |s| ==> IsWhitespace(s[i])
  {
    if s == "" || !IsWhitespace(s[|s| - 1]) {
      assert s[..|s|] == s;
    } else {
      TrimEndKeeps(s[..|s| - 1]);
    }
  }

  lemma WordCutKeeps(b: string) returns (n: nat, m: nat)
    ensures Keeps(b, n, m) && WordCut(b) == b[..n]
  {
    m := if LastSpace(b) > 0 then LastSpace(b) else |b|;
    assert b[..|b|] == b;
    TrimEndKeeps(b[..m]);
    n := |TrimEnd(b[..m])|;
    assert forall i :: 0 <= i < m ==> b[..m][i] == b[i];
  }

  /** What stays is determined. */
  lemma KeepsUnique(b: string, n: nat, m: nat, n': nat, m': nat)
    requires Keeps(b, n, m) && Keeps(b, n', m')
    ensures n == n' && m == m'
  {
  }

  lemma NoSpaceInside(c: char, i: nat)
    requires i < |Piece(c)| && (i > 0 || IsMarkup(c))
    ensures !IsWhitespace(Piece(c)[i])
  {
  }

  lemma {:induction false} LastSpaceOver(a: string, b: string)
    requires forall i :: 0 <= i < |b| ==> b[i] != ' '
    ensures LastSpace(a + b) == LastSpace(a)
  {
    if b == "" {
      assert a + b == a;
    } else {
      assert (a + b)[..|a + b| - 1] == a + b[..|b| - 1];
      LastSpaceOver(a, b[..|b| - 1]);
    }
  }

  lemma NoSpaceInPiece(c: char)
    requires Piece(c) != " "
    ensures forall i :: 0 <= i < |Piece(c)| ==> Piece(c)[i] != ' '
  {
    forall i | 0 <= i < |Piece(c)| ensures Piece(c)[i] != ' ' {
      if i > 0 || IsMarkup(c) {
        NoSpaceInside(c, i);
      }
    }
  }

  /** Tracking pieces equal to a space is tracking the spaces of the body. */
  lemma LastSpaceAfter(body: string, c: char)
    ensures LastSpace(body + Piece(c)) == if Piece(c) == " " then |body| else LastSpace(body)
  {
    var piece := Piece(c);
    if piece != " " {
      NoSpaceInPiece(c);
      LastSpaceOver(body, piece);
    }
  }

  /** A cut at the end or before whitespace falls between characters of the text, never inside an entity. */
  lemma {:induction false} CutBetweenCharacters(text: string, p: nat) returns (j: nat)
    requires p <= |Escape(text)| && (p == |Escape(text)| || IsWhitespace(Escape(text)[p]))
    ensures j <= |text| && Escape(text[..j]) == Escape(text)[..p]
  {
    if p == |Escape(text)| {
      j := |text|;
      assert text[..j] == text;
    } else {
      var n := |text| - 1;
      var front := Escape(text[..n]);
      j := 0;
      if p <= |front| {
        j := CutBetweenCharacters(text[..n], p);
        assert text[..n][..j] == text[..j];
      } else {
        NoSpaceInside(text[n], p - |front|);
      }
    }
  }

  lemma WordCutIsPrefix(text: string) returns (j: nat)
    ensures j <= |text| && WordCut(Escape(text)) == Escape(text[..j])
  {
    var body := Escape(text);
    var n := LastSpace(body);
    var cut := if n > 0 then body[..n] else body;
    var t := TrimEnd(cut);
    assert t == body[..|t|];
    j := CutBetweenCharacters(text, |t|);
  }

  /** A document made for a text: tags around the escape of a prefix, with the ellipsis only if the whole does
      not fit. */
  predicate IsDocument(r: string, text: string, j: nat) {
    j <= |text| && r == OPEN + Escape(text[..j]) + (if Fits(Escape(text), "") then "" else ELLIPSIS) + CLOSE
  }

  /** Whatever the text, the document stays within 8000 characters and is the escape of a prefix of
      the text; it is the whole text exactly when that fits, and reads back as the cleaned prefix. */
  lemma SsmlDocument(text: string, k: nat, r: string) returns (j: nat)
    requires Fits(Escape(text), "") ==> r == OPEN + Escape(text) + CLOSE
    requires !Fits(Escape(text), "") ==>
      Longest(text, k) && r == OPEN + WordCut(Escape(text[..k])) + ELLIPSIS + CLOSE
    ensures |r| <= MAX_SSML_CHARS
    ensures IsDocument(r, text, j)
    ensures Fits(Escape(text), "") ==> j == |text|
    ensures !Fits(Escape(text), "") ==> j <= k
    ensures Unescape(Escape(text[..j])) == Some(Clean(text[..j]))
  {
    if Fits(Escape(text), "") {
      j := |text|;
      assert text[..j] == text;
      assert OPEN + Escape(text) + "" + CLOSE == r;
    } else {
      j := WordCutIsPrefix(text[..k]);
      assert text[..k][..j] == text[..j];
    }
    UnescapeEscape(text[..j]);
  }

  /** A document cut short: of the longest prefix that fits, the escape is kept up to its last word boundary. */
  predicate IsCutShort(r: string, text: string, k: nat, n: nat, m: nat) {
    && Longest(text, k) && Keeps(Escape(text[..k]), n, m)
    && r == OPEN + Escape(text[..k])[..n] + ELLIPSIS + CLOSE
  }

  method ToSsml(text: string) returns (r: string)
    ensures Fits(Escape(text), "") ==> r == OPEN + Escape(text) + CLOSE
    ensures !Fits(Escape(text), "") ==> exists k: nat, n: nat, m: nat :: IsCutShort(r, text, k, n, m)
    ensures |r| <= MAX_SSML_CHARS
    ensures exists j: nat :: IsDocument(r, text, j)
  {
    var escaped := EscapeSsml(text);
    if |escaped| <= BUDGET {
      r := OPEN + escaped + CLOSE;
      ghost var all := SsmlDocument(text, 0, r);
      return;
    }
    var body := "";
    var count, lastSpace, k := 0, 0, 0;
    while k < |text|
      invariant 0 <= k <= |text|
      invariant body == Escape(text[..k]) && count == |body| <= LIMIT
      invariant lastSpace == LastSpace(body)
    {
      var piece := Piece(text[k]);
      EscapeStep(text, k);
      if count + |piece| > LIMIT {
        break;
      }
      LastSpaceAfter(body, text[k]);
      if piece == " " {
        lastSpace := |body|;
      }
      body := body + piece;
      count := count + |piece|;
      k := k + 1;
    }
    if lastSpace > 0 {
      body := body[..lastSpace];
    }
    assert Longest(text, k);
    r := OPEN + TrimEnd(body) + ELLIPSIS + CLOSE;
    ghost var kept := SsmlDocument(text, k, r);
    ghost var n, m := WordCutKeeps(Escape(text[..k]));
    assert IsCutShort(r, text, k, n, m);
  }

  lemma EscapeGrows(text: string, a: nat, b: nat)
    requires a <= b <= |text|
    ensures Escape(text[..a]) <= Escape(text[..b])
  {
    assert text[..b] == text[..a] + text[a..b];
    EscapeAppend(text[..a], text[a..b]);
  }

  /** How many characters are kept is determined by the text. */
  lemma LongestUnique(text: string, k: nat, m: nat)
    requires Longest(text, k) && Longest(text, m)
    ensures k == m
  {
    if k < m {
      EscapeGrows(text, k + 1, m);
    } else if m < k {
      EscapeGrows(text, m + 1, k);
    }
  }
}
