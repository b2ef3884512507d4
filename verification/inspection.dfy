/** What the evaluator gets to see of a JSON body (`src/governance.rs`). */
module Inspection {
  import opened Common

  /** A JSON value as it is stored: members in order, numbers as they print. */
  datatype Value =
    | Null
    | Bool(b: bool)
    | Number(text: string)
    | String(s: string)
    | Array(items: seq<Value>)
    | Object(members: seq<(string, Value)>)

  function Children(v: Value): seq<Value> {
    match v
    case Array(items) => items
    case Object(members) => seq(|members|, i requires 0 <= i < |members| => members[i].1)
    case _ => []
  }

  /** Whether `node` is `v` or lies within it. */
  ghost predicate Occurs(node: Value, v: Value) {
    || node == v
    || (v.Array? && exists i :: 0 <= i < |v.items| && Occurs(node, v.items[i]))
    || (v.Object? && exists i :: 0 <= i < |v.members| && Occurs(node, v.members[i].1))
  }

  predicate HasMember(v: Value, key: string) {
    v.Object? && exists i :: 0 <= i < |v.members| && v.members[i].0 == key
  }

  /** An object that carries media the evaluator cannot read. */
  predicate Opaque(v: Value) {
    HasMember(v, "image_url") || HasMember(v, "input_audio") || HasMember(v, "file_data")
  }

  // ---- completeness ----

  method Sanitise(v: Value) returns (complete: bool)
    ensures complete <==> forall node :: Occurs(node, v) ==> !Opaque(node)
    decreases v
  {
    match v
    case Object(members) =>
      complete := !Opaque(v);
      for i := 0 to |members|
        invariant complete <==> !Opaque(v) && forall node, k :: 0 <= k < i && Occurs(node, members[k].1) ==> !Opaque(node)
      {
        var child := Sanitise(members[i].1);
        complete := child && complete;
      }
      assert Occurs(v, v);
    case Array(items) =>
      complete := true;
      for i := 0 to |items|
        invariant complete <==> forall node, k :: 0 <= k < i && Occurs(node, items[k]) ==> !Opaque(node)
      {
        var child := Sanitise(items[i]);
        complete := child && complete;
      }
    case _ => complete := true;
  }

  // ---- text ----

  /** The lines of a value: its text, and for objects every key before what it holds. */
  function Lines(v: Value): seq<string>
    decreases v
  {
    match v
    case String(s) => [s]
    case Number(text) => [text]
    case Bool(b) => [if b then "true" else "false"]
    case Array(_) => LinesOf(v, |v.items|)
    case Object(_) => LinesOf(v, |v.members|)
    case Null => []
  }

  function LinesOf(v: Value, n: nat): seq<string>
    requires n <= |Children(v)|
    decreases v, n
  {
    if n == 0 then []
    else if v.Array? then LinesOf(v, n - 1) + Lines(v.items[n - 1])
    else if v.Object? then LinesOf(v, n - 1) + [v.members[n - 1].0] + Lines(v.members[n - 1].1)
    else []
  }

  function Joined(lines: seq<string>): string {
    if lines == [] then "" else Joined(lines[..|lines| - 1]) + lines[|lines| - 1] + "\n"
  }

  lemma {:induction false} JoinedAppend(a: seq<string>, b: seq<string>)
    ensures Joined(a + b) == Joined(a) + Joined(b)
  {
    if b == [] {
      assert a + b == a;
    } else {
      var n := |b| - 1;
      assert (a + b)[..|a + b| - 1] == a + b[..n];
      JoinedAppend(a, b[..n]);
    }
  }

  lemma JoinedOne(line: string)
    ensures Joined([line]) == line + "\n"
  {
  }

  lemma ItemJoined(v: Value, i: nat)
    requires v.Array? && i < |v.items|
    ensures Joined(LinesOf(v, i + 1)) == Joined(LinesOf(v, i)) + Joined(Lines(v.items[i]))
  {
    JoinedAppend(LinesOf(v, i), Lines(v.items[i]));
  }

  lemma MemberJoined(v: Value, i: nat)
    requires v.Object? && i < |v.members|
    ensures Joined(LinesOf(v, i + 1)) == Joined(LinesOf(v, i)) + v.members[i].0 + "\n" + Joined(Lines(v.members[i].1))
  {
    JoinedOne(v.members[i].0);
    JoinedAppend(LinesOf(v, i), [v.members[i].0]);
    JoinedAppend(LinesOf(v, i) + [v.members[i].0], Lines(v.members[i].1));
  }

  lemma LeafJoined(v: Value)
    ensures v.String? ==> Joined(Lines(v)) == v.s + "\n"
    ensures v.Number? ==> Joined(Lines(v)) == v.text + "\n"
    ensures v.Bool? ==> Joined(Lines(v)) == (if v.b then "true" else "false") + "\n"
  {
  }

  method Append(v: Value, before: string) returns (output: string)
    ensures output == before + Joined(Lines(v))
    decreases v, 1
  {
    LeafJoined(v);
    match v
    case String(s) => output := before + (s + "\n");
    case Number(text) => output := before + (text + "\n");
    case Bool(b) => output := before + ((if b then "true" else "false") + "\n");
    case Array(_) => output := AppendItems(v, before);
    case Object(_) => output := AppendMembers(v, before);
    case Null => output := before;
  }

  /** `output` is `before` and then the text of the first `i` children. */
  predicate Extends(output: string, before: string, v: Value, i: nat) {
    i <= |Children(v)| && output == before + Joined(LinesOf(v, i))
  }

  lemma ExtendsItem(output: string, before: string, v: Value, i: nat)
    requires v.Array? && i < |v.items| && Extends(output, before, v, i)
    ensures Extends(output + Joined(Lines(v.items[i])), before, v, i + 1)
  {
    ItemJoined(v, i);
    Regroup(before, Joined(LinesOf(v, i)), Joined(Lines(v.items[i])));
  }

  lemma ExtendsMember(output: string, before: string, v: Value, i: nat)
    requires v.Object? && i < |v.members| && Extends(output, before, v, i)
    ensures Extends(output + (v.members[i].0 + "\n") + Joined(Lines(v.members[i].1)), before, v, i + 1)
  {
    MemberJoined(v, i);
    var key, rest := v.members[i].0 + "\n", Joined(Lines(v.members[i].1));
    Regroup(before, Joined(LinesOf(v, i)), key);
    Regroup(before, Joined(LinesOf(v, i)) + key, rest);
    assert Joined(LinesOf(v, i)) + v.members[i].0 + "\n" == Joined(LinesOf(v, i)) + key;
  }

  lemma Regroup(a: string, b: string, c: string)
    ensures a + b + c == a + (b + c)
  {
  }

  method AppendItems(v: Value, before: string) returns (output: string)
    requires v.Array?
    ensures output == before + Joined(LinesOf(v, |v.items|))
    decreases v, 0
  {
    output := before;
    for i := 0 to |v.items|
      invariant Extends(output, before, v, i)
    {
      ExtendsItem(output, before, v, i);
      output := Append(v.items[i], output);
    }
  }

  method AppendMembers(v: Value, before: string) returns (output: string)
    requires v.Object?
    ensures output == before + Joined(LinesOf(v, |v.members|))
    decreases v, 0
  {
    output := before;
    for i := 0 to |v.members|
      invariant Extends(output, before, v, i)
    {
      ExtendsMember(output, before, v, i);
      output := output + (v.members[i].0 + "\n");
      output := Append(v.members[i].1, output);
    }
  }

  method SemanticText(v: Value) returns (output: string)
    ensures output == Joined(Lines(v))
  {
    output := Append(v, "");
  }

  /** Text that stands somewhere in a value: strings, numbers, truth values, and the keys of objects. */
  ghost predicate Says(v: Value, text: string) {
    || (v.String? && v.s == text)
    || (v.Number? && v.text == text)
    || (v.Bool? && text == if v.b then "true" else "false")
    || HasMember(v, text)
  }

  lemma {:induction false} LinesOfChild(v: Value, n: nat, i: nat)
    requires i < n <= |Children(v)|
    ensures forall line :: line in Lines(Children(v)[i]) ==> line in LinesOf(v, n)
    ensures v.Object? ==> v.members[i].0 in LinesOf(v, n)
    decreases n
  {
    if i < n - 1 {
      LinesOfChild(v, n - 1, i);
    }
  }

  /** Nothing that a value says, at any depth, is kept from the evaluator: each piece is a line of the text. */
  lemma {:induction false} NothingHidden(v: Value, node: Value, text: string)
    requires Occurs(node, v) && Says(node, text)
    ensures text in Lines(v)
    decreases v
  {
    if node == v {
      if HasMember(v, text) {
        var i :| 0 <= i < |v.members| && v.members[i].0 == text;
        LinesOfChild(v, |v.members|, i);
      }
    } else if v.Array? {
      var i :| 0 <= i < |v.items| && Occurs(node, v.items[i]);
      NothingHidden(v.items[i], node, text);
      LinesOfChild(v, |v.items|, i);
    } else {
      var i :| 0 <= i < |v.members| && Occurs(node, v.members[i].1);
      NothingHidden(v.members[i].1, node, text);
      LinesOfChild(v, |v.members|, i);
    }
  }

  lemma {:induction false} LineOfChild(v: Value, n: nat, line: string) returns (i: nat)
    requires n <= |Children(v)| && line in LinesOf(v, n)
    ensures i < n && (line in Lines(Children(v)[i]) || (v.Object? && line == v.members[i].0))
    decreases n
  {
    if line in LinesOf(v, n - 1) {
      i := LineOfChild(v, n - 1, line);
    } else {
      i := n - 1;
    }
  }

  /** And nothing else is: each line is a piece of text of the value. */
  lemma {:induction false} NothingAdded(v: Value, line: string) returns (node: Value)
    requires line in Lines(v)
    ensures Occurs(node, v) && Says(node, line)
    decreases v
  {
    node := v;
    if v.Array? || v.Object? {
      var i := LineOfChild(v, |Children(v)|, line);
      if line in Lines(Children(v)[i]) {
        node := NothingAdded(Children(v)[i], line);
      }
    }
  }

  // ---- transport fields ----

  predicate IsCredential(name: string) {
    || name == "api_key" || name == "access_token" || name == "preferred_api_key" || name == "preferred_access_token"
    || name == "fallback_api_key" || name == "fallback_access_token" || name == "authorization"
  }

  predicate Transport(key: string) {
    IsCredential(LowerAscii(key))
  }

  function RetainedMembers(members: seq<(string, Value)>): seq<(string, Value)> {
    if members == [] then []
    else
      var last := members[|members| - 1];
      RetainedMembers(members[..|members| - 1]) + if Transport(last.0) then [] else [last]
  }

  /** Credentials at the top of a request are withheld. */
  function Redacted(v: Value): Value {
    if v.Object? then Object(RetainedMembers(v.members)) else v
  }

  lemma {:induction false} RetainedAre(members: seq<(string, Value)>, m: (string, Value))
    ensures m in RetainedMembers(members) <==> m in members && !Transport(m.0)
  {
    if members == [] {
    } else {
      var n := |members| - 1;
      RetainedAre(members[..n], m);
      assert members == members[..n] + [members[n]];
    }
  }

  /** All a request says is inspected, but for the credentials at its top. */
  lemma RedactionKeepsTheRest(members: seq<(string, Value)>, i: nat, node: Value, text: string)
    requires i < |members| && Occurs(node, members[i].1) && Says(node, text) && !Transport(members[i].0)
    ensures text in Lines(Redacted(Object(members))) && members[i].0 in Lines(Redacted(Object(members)))
  {
    var v := Redacted(Object(members));
    RetainedAre(members, members[i]);
    var k :| 0 <= k < |v.members| && v.members[k] == members[i];
    assert Occurs(node, v.members[k].1);
    NothingHidden(v, node, text);
    LinesOfChild(v, |v.members|, k);
  }

  /** Member `i` is no credential, and the line is its key or stands in what it holds. */
  predicate LineOfMember(members: seq<(string, Value)>, i: nat, line: string) {
    i < |members| && !Transport(members[i].0) && (line == members[i].0 || line in Lines(members[i].1))
  }

  /** Credentials are withheld: the evaluator sees the lines of the other members and no more. */
  lemma RedactedLines(members: seq<(string, Value)>, line: string)
    ensures line in Lines(Redacted(Object(members))) <==> exists i: nat :: LineOfMember(members, i, line)
  {
    var v := Redacted(Object(members));
    if line in Lines(v) {
      var k := LineOfChild(v, |v.members|, line);
      RetainedAre(members, v.members[k]);
      var i: nat :| i < |members| && members[i] == v.members[k];
      assert LineOfMember(members, i, line);
    }
    if i: nat :| LineOfMember(members, i, line) {
      RetainedAre(members, members[i]);
      var k :| 0 <= k < |v.members| && v.members[k] == members[i];
      LinesOfChild(v, |v.members|, k);
    }
  }

  lemma LowerName(name: string)
    requires forall i :: 0 <= i < |name| ==> !('A' <= name[i] <= 'Z')
    ensures LowerAscii(name) == name
  {
  }

  lemma CredentialIsLower(name: string)
    requires IsCredential(name)
    ensures forall i :: 0 <= i < |name| ==> !('A' <= name[i] <= 'Z')
  {
  }

  /** Credentials are known by their names in any case. */
  lemma TransportIff(key: string)
    ensures Transport(key) <==> exists name :: IsCredential(name) && EqualIgnoringCase(key, name)
  {
    LowerAsciiFolds(key, key);
    if Transport(key) {
      assert IsCredential(LowerAscii(key)) && EqualIgnoringCase(key, LowerAscii(key));
    }
    if name :| IsCredential(name) && EqualIgnoringCase(key, name) {
      LowerAsciiFolds(key, name);
      CredentialIsLower(name);
      LowerName(name);
    }
  }
}
