/** Minimal instances of a JSON schema, used when no provider answers (`src/app.rs`). */
module SchemaFallback {
  import opened Common
  import opened JsonPointer

  // ---- generation ----

  const DEPTH_BOUND: nat := 24

  /** Target of a local `$ref`, where the schema has one that resolves. */
  function RefTarget(root: Json, schema: Json): Option<Json> {
    var reference := Get(schema, "$ref");
    if reference.Some? && reference.value.String? && "#/" <= reference.value.s
    then Pointer(root, reference.value.s[1..]) else None
  }

  /** First element of an array-valued keyword. */
  function FirstOf(schema: Json, keyword: string): Option<Json> {
    var value := Get(schema, keyword);
    if value.Some? && value.value.Array? && value.value.items != [] then Some(value.value.items[0]) else None
  }

  /** First name in a type list that is not `null`. */
  function FirstKind(types: seq<Json>): Option<string> {
    if types == [] then None
    else if types[0].String? && types[0].s != "null" then Some(types[0].s)
    else FirstKind(types[1..])
  }

  function SelectedType(schema: Json): string {
    var kind := Get(schema, "type");
    if kind.Some? && kind.value.String? then kind.value.s
    else
      var first := if kind.Some? && kind.value.Array? then FirstKind(kind.value.items) else None;
      if first.Some? then first.value else "object"
  }

  function Properties(schema: Json): map<string, Json> {
    var properties := Get(schema, "properties");
    if properties.Some? && properties.value.Object? then properties.value.fields else map[]
  }

  function Required(schema: Json): seq<Json> {
    var required := Get(schema, "required");
    if required.Some? && required.value.Array? then required.value.items else []
  }

  /** Simplest value a schema calls for; the recursion stops at the depth bound, so that cyclic
      references end too. */
  function Generate(root: Json, schema: Json, depth: nat): (value: Option<Json>)
    requires depth <= DEPTH_BOUND + 1
    ensures value.Some?
    decreases DEPTH_BOUND + 1 - depth, 0
  {
    if depth > DEPTH_BOUND then Some(Null)
    else if RefTarget(root, schema).Some? then Generate(root, RefTarget(root, schema).value, depth + 1)
    else if Has(schema, "const") then Get(schema, "const")
    else if FirstOf(schema, "enum").Some? then FirstOf(schema, "enum")
    else if Has(schema, "default") then Get(schema, "default")
    else if FirstOf(schema, "anyOf").Some? then Generate(root, FirstOf(schema, "anyOf").value, depth + 1)
    else if FirstOf(schema, "oneOf").Some? then Generate(root, FirstOf(schema, "oneOf").value, depth + 1)
    else if FirstOf(schema, "allOf").Some? then Generate(root, FirstOf(schema, "allOf").value, depth + 1)
    else
      var kind := SelectedType(schema);
      if kind == "object" then Some(Object(RequiredFields(root, Properties(schema), Required(schema), depth)))
      else if kind == "array" then Some(Array([]))
      else if kind == "boolean" then Some(Bool(false))
      else if kind == "integer" || kind == "number" then Some(Number(0.0))
      else if kind == "string" then Some(String(""))
      else Some(Null)
  }

  /** A value for every required key that is declared, and an empty `steps` where that is not. */
  function RequiredFields(root: Json, properties: map<string, Json>, required: seq<Json>, depth: nat): map<string, Json>
    requires depth <= DEPTH_BOUND
    decreases DEPTH_BOUND - depth, 1 + |required|
  {
    if required == [] then map[]
    else
      var last := required[|required| - 1];
      var fields := RequiredFields(root, properties, required[..|required| - 1], depth);
      if !last.String? then fields
      else if last.s in properties then fields[last.s := Generate(root, properties[last.s], depth + 1).value]
      else if LowerAscii(last.s) == "steps" then fields[last.s := Array([])]
      else fields
  }

  function MinimalJson(schema: Json): (value: Option<Json>)
    ensures value.Some?
  {
    Generate(schema, schema, 0)
  }

  // ---- where the value comes from ----

  /** What the generator does with a schema: goes on to another one, takes a value as it stands, or builds
      one of a kind. */
  datatype Route = Follow(schema: Json) | Literal(value: Json) | Build(kind: string)

  function RouteOf(root: Json, schema: Json): Route {
    if RefTarget(root, schema).Some? then Follow(RefTarget(root, schema).value)
    else if Has(schema, "const") then Literal(Get(schema, "const").value)
    else if FirstOf(schema, "enum").Some? then Literal(FirstOf(schema, "enum").value)
    else if Has(schema, "default") then Literal(Get(schema, "default").value)
    else if FirstOf(schema, "anyOf").Some? then Follow(FirstOf(schema, "anyOf").value)
    else if FirstOf(schema, "oneOf").Some? then Follow(FirstOf(schema, "oneOf").value)
    else if FirstOf(schema, "allOf").Some? then Follow(FirstOf(schema, "allOf").value)
    else Build(SelectedType(schema))
  }

  /** A bare value of a kind. */
  function Sample(kind: string): Json {
    if kind == "object" then Object(map[])
    else if kind == "array" then Array([])
    else if kind == "boolean" then Bool(false)
    else if kind == "integer" || kind == "number" then Number(0.0)
    else if kind == "string" then String("")
    else Null
  }

  /** The literal, or the bare value of the kind, that the routes lead to. */
  function Leaf(root: Json, schema: Json, depth: nat): Json
    requires depth <= DEPTH_BOUND + 1
    decreases DEPTH_BOUND + 1 - depth
  {
    if depth > DEPTH_BOUND then Null
    else match RouteOf(root, schema)
      case Follow(next) => Leaf(root, next, depth + 1)
      case Literal(value) => value
      case Build(kind) => Sample(kind)
  }

  lemma GeneratedByRoute(root: Json, schema: Json, depth: nat)
    requires depth <= DEPTH_BOUND
    ensures var v := Generate(root, schema, depth).value;
            match RouteOf(root, schema)
            case Follow(next) => v == Generate(root, next, depth + 1).value
            case Literal(value) => v == value
            case Build(kind) =>
              v == if kind == "object" then Object(RequiredFields(root, Properties(schema), Required(schema), depth))
                   else Sample(kind)
  {
  }

  /** A local reference leads to what the keys printed in it reach in the root, and nowhere else. */
  lemma ReferenceReaches(root: Json, schema: Json, keys: seq<string>, target: Json)
    requires keys != [] && Get(schema, "$ref") == Some(String("#" + Printed(keys)))
    ensures RefTarget(root, schema) == Some(target) <==> Reaches(root, keys, target)
  {
    PointerReaches(root, keys, target);
    var text := Get(schema, "$ref").value.s;
    assert text[0] == '#' && text[1] == '/' && text[1..] == Printed(keys);
  }

  /** A schema that refers to itself ends at the depth bound. */
  lemma {:induction false} CycleEndsInNull(root: Json, schema: Json, depth: nat)
    requires depth <= DEPTH_BOUND + 1 && RefTarget(root, schema) == Some(schema)
    ensures Generate(root, schema, depth) == Some(Null)
    decreases DEPTH_BOUND + 1 - depth
  {
    if depth > DEPTH_BOUND {
    } else {
      CycleEndsInNull(root, schema, depth + 1);
    }
  }

  /** A list that starts with `first`. */
  predicate Starts(list: Json, first: Json) {
    list.Array? && list.items != [] && list.items[0] == first
  }

  /** Of several keywords the first in this order decides: const, enum, default, anyOf, oneOf, allOf. */
  lemma FirstKeywordDecides(root: Json, fields: map<string, Json>, depth: nat, first: Json)
    requires depth <= DEPTH_BOUND && "$ref" !in fields
    ensures var value := Generate(root, Object(fields), depth);
            if "const" in fields then value == Some(fields["const"])
            else if "enum" in fields && Starts(fields["enum"], first) then value == Some(first)
            else "enum" !in fields ==>
              if "default" in fields then value == Some(fields["default"])
              else if "anyOf" in fields && Starts(fields["anyOf"], first) then value == Generate(root, first, depth + 1)
              else "anyOf" !in fields ==>
                if "oneOf" in fields && Starts(fields["oneOf"], first) then value == Generate(root, first, depth + 1)
                else "oneOf" !in fields && "allOf" in fields && Starts(fields["allOf"], first) ==>
                  value == Generate(root, first, depth + 1)
  {
  }

  /** A schema with a type only. */
  predicate OnlyType(schema: Json, kind: Json) {
    schema == Object(map["type" := kind])
  }

  /** It gets the empty value of its kind. */
  lemma EmptyOfKind(root: Json, schema: Json, depth: nat, kind: string)
    requires depth <= DEPTH_BOUND && (OnlyType(schema, String(kind)) || OnlyType(schema, Array([String("null"), String(kind)])))
    requires kind != "null"
    ensures var value := Generate(root, schema, depth);
            && (kind == "object" ==> value == Some(Object(map[])))
            && (kind == "array" ==> value == Some(Array([])))
            && (kind == "boolean" ==> value == Some(Bool(false)))
            && (kind == "integer" || kind == "number" ==> value == Some(Number(0.0)))
            && (kind == "string" ==> value == Some(String("")))
  {
    TypeSelected(schema, kind);
    assert Required(schema) == [];
    assert RouteOf(root, schema) == Build(kind);
    GeneratedByRoute(root, schema, depth);
  }

  /** Of a list the first type other than null counts. */
  lemma TypeSelected(schema: Json, kind: string)
    requires OnlyType(schema, String(kind)) || OnlyType(schema, Array([String("null"), String(kind)]))
    requires kind != "null"
    ensures SelectedType(schema) == kind
  {
    var types := [String("null"), String(kind)];
    assert types[1..] == [String(kind)];
    assert FirstKind([String(kind)]) == Some(kind);
  }

  /** A required member that is declared by a reference gets the value of what the reference reaches. */
  lemma ReferredMember(root: Json, schema: Json, key: string, keys: seq<string>, target: Json, depth: nat)
    requires depth < DEPTH_BOUND && RouteOf(root, schema) == Build("object")
    requires Required(schema) == [String(key)] && key in Properties(schema)
    requires keys != [] && Get(Properties(schema)[key], "$ref") == Some(String("#" + Printed(keys)))
    requires Reaches(root, keys, target)
    ensures Generate(root, schema, depth) == Some(Object(map[key := Generate(root, target, depth + 2).value]))
  {
    GeneratedByRoute(root, schema, depth);
    ReferenceReaches(root, Properties(schema)[key], keys, target);
    var required := Required(schema);
    assert required[..0] == [];
    assert RequiredFields(root, Properties(schema), required[..0], depth) == map[];
  }

  /** None of the keywords that decide before the type. */
  predicate TypeDecides(schema: Json) {
    && !Has(schema, "$ref") && !Has(schema, "const") && !Has(schema, "enum") && !Has(schema, "default")
    && !Has(schema, "anyOf") && !Has(schema, "oneOf") && !Has(schema, "allOf")
  }

  /** An object with a name that is required and declared by a reference to a string. */
  predicate NamedByReference(schema: Json, reference: Json, name: Json, keys: seq<string>) {
    && keys == ["$defs", "Name"] && OnlyType(name, String("string"))
    && reference == Object(map["$ref" := String("#" + Printed(keys))])
    && TypeDecides(schema) && Get(schema, "type") == Some(String("object"))
    && Get(schema, "required") == Some(Array([String("name")]))
    && Has(schema, "properties") && Get(Get(schema, "properties").value, "name") == Some(reference)
    && Get(schema, "$defs") == Some(Object(map["Name" := name]))
  }

  /** It gets an empty name and nothing else. */
  lemma NameIsEmpty(schema: Json, reference: Json, name: Json, keys: seq<string>)
    requires NamedByReference(schema, reference, name, keys)
    ensures MinimalJson(schema) == Some(Object(map["name" := String("")]))
  {
    NameGenerated(schema, reference, name, keys, 0);
  }

  lemma NameGenerated(schema: Json, reference: Json, name: Json, keys: seq<string>, depth: nat)
    requires NamedByReference(schema, reference, name, keys) && depth + 2 <= DEPTH_BOUND
    ensures Generate(schema, schema, depth) == Some(Object(map["name" := String("")]))
  {
    NameReached(schema, reference, name, keys);
    NameRequired(schema, reference, name, keys);
    ReferredMember(schema, schema, "name", keys, name, depth);
    EmptyOfKind(schema, name, depth + 2, "string");
  }

  lemma NameRequired(schema: Json, reference: Json, name: Json, keys: seq<string>)
    requires NamedByReference(schema, reference, name, keys)
    ensures RouteOf(schema, schema) == Build("object") && Required(schema) == [String("name")]
    ensures "name" in Properties(schema) && Properties(schema)["name"] == reference
  {
  }

  lemma NameReached(schema: Json, reference: Json, name: Json, keys: seq<string>)
    requires NamedByReference(schema, reference, name, keys)
    ensures Reaches(schema, keys, name)
  {
    var defs := Get(schema, "$defs").value;
    assert keys[1..][1..] == [] && keys[1..][0] == "Name";
    assert Reaches(name, keys[1..][1..], name);
    assert Reaches(defs, keys[1..], name);
  }

  // ---- what the value is for ----

  /** `type` (section 6.1.1 of JSON Schema Validation 2020-12). */
  predicate OfKind(kind: string, v: Json) {
    match v
    case Null => kind == "null"
    case Bool(_) => kind == "boolean"
    case Number(n) => kind == "number" || (kind == "integer" && n.Floor as real == n)
    case String(_) => kind == "string"
    case Array(_) => kind == "array"
    case Object(_) => kind == "object"
  }

  predicate TypeHolds(schema: Json, v: Json) {
    var kind := Get(schema, "type");
    kind.Some? ==>
      && (kind.value.String? ==> OfKind(kind.value.s, v))
      && (kind.value.Array? ==> exists k :: k in kind.value.items && k.String? && OfKind(k.s, v))
  }

  /** `const` and `enum` (sections 6.1.2 and 6.1.3). */
  predicate ConstHolds(schema: Json, v: Json) {
    && (Has(schema, "const") ==> v == Get(schema, "const").value)
    && (Has(schema, "enum") && Get(schema, "enum").value.Array? ==> v in Get(schema, "enum").value.items)
  }

  /** `required` (section 6.5.3). */
  predicate RequiredHolds(schema: Json, v: Json) {
    v.Object? ==> forall k :: k in Required(schema) && k.String? ==> k.s in v.fields
  }

  /** Whether a value satisfies the assertions above, through `$ref`, `properties` and `anyOf` (sections
      8.2.3.1, 10.3.2.1 and 10.2.1.2 of JSON Schema Core 2020-12), looking `levels` levels down. */
  predicate ConformsTo(root: Json, schema: Json, v: Json, levels: nat)
    decreases levels, 0
  {
    levels > 0 ==>
      && schema != Bool(false)
      && (schema.Object? ==>
            && TypeHolds(schema, v) && ConstHolds(schema, v) && RequiredHolds(schema, v)
            && (RefTarget(root, schema).Some? ==> ConformsTo(root, RefTarget(root, schema).value, v, levels - 1))
            && MembersConform(root, schema, v, levels - 1)
            && (Has(schema, "anyOf") && Get(schema, "anyOf").value.Array? ==>
                  SomeConforms(root, Get(schema, "anyOf").value.items, v, levels - 1)))
  }

  predicate MembersConform(root: Json, schema: Json, v: Json, levels: nat)
    decreases levels, 1
  {
    v.Object? ==> forall k :: k in Properties(schema) && k in v.fields ==>
      ConformsTo(root, Properties(schema)[k], v.fields[k], levels)
  }

  predicate SomeConforms(root: Json, schemas: seq<Json>, v: Json, levels: nat)
    decreases levels, 1
  {
    exists i :: 0 <= i < |schemas| && ConformsTo(root, schemas[i], v, levels)
  }

  /** A value conforms when it does however far one looks. */
  ghost predicate Conforms(root: Json, schema: Json, v: Json) {
    forall levels: nat :: ConformsTo(root, schema, v, levels)
  }

  // ---- what kind it is ----

  /** Generated values differ from their leaves only in the members of objects. */
  lemma {:induction false} LeafKind(root: Json, schema: Json, depth: nat)
    requires depth <= DEPTH_BOUND + 1
    ensures var v, leaf := Generate(root, schema, depth).value, Leaf(root, schema, depth);
            v == leaf || (v.Object? && leaf.Object?)
    decreases DEPTH_BOUND + 1 - depth
  {
    if depth <= DEPTH_BOUND {
      GeneratedByRoute(root, schema, depth);
      var route := RouteOf(root, schema);
      if route.Follow? {
        LeafKind(root, route.schema, depth + 1);
      }
    }
  }

  lemma TypeByLeaf(root: Json, schema: Json, depth: nat)
    requires depth <= DEPTH_BOUND
    ensures TypeHolds(schema, Generate(root, schema, depth).value) <==> TypeHolds(schema, Leaf(root, schema, depth))
  {
    LeafKind(root, schema, depth);
    KindOnly(schema, Generate(root, schema, depth).value, Leaf(root, schema, depth));
  }

  lemma KindOnly(schema: Json, v: Json, w: Json)
    requires v == w || (v.Object? && w.Object?)
    ensures TypeHolds(schema, v) <==> TypeHolds(schema, w)
  {
    assert forall kind :: OfKind(kind, v) <==> OfKind(kind, w);
  }

  // ---- when the value conforms ----

  predicate NoFixed(schema: Json) {
    !Has(schema, "const") && !Has(schema, "enum")
  }

  predicate NoMembers(schema: Json) {
    !Has(schema, "properties") && !Has(schema, "required")
  }

  /** The schemas spoken of: references resolve, nesting stays within the bound counting references, and no
      level combines two sources of a value. A type may stand anywhere, a default beside anything that is
      used before it, and the first of several alternatives has to fit itself. */
  predicate Readable(root: Json, schema: Json, depth: nat)
    requires depth <= DEPTH_BOUND
    decreases DEPTH_BOUND - depth
  {
    schema.Object? ==>
      && !Has(schema, "oneOf") && !Has(schema, "allOf")
      && (Has(schema, "$ref") ==> RefTarget(root, schema).Some?)
      && match RouteOf(root, schema)
         case Follow(next) =>
           && NoFixed(schema) && NoMembers(schema)
           && depth < DEPTH_BOUND && Readable(root, next, depth + 1)
           && (if Has(schema, "$ref") then !Has(schema, "anyOf") else Fits(root, next, depth + 1))
         case Literal(_) => !Has(schema, "anyOf") && NoMembers(schema)
         case Build(kind) =>
           && !Has(schema, "enum") && !Has(schema, "anyOf")
           && (kind == "object" ==> forall k :: k in Required(schema) && k.String? && k.s in Properties(schema) ==>
                 depth < DEPTH_BOUND && Readable(root, Properties(schema)[k.s], depth + 1))
  }

  /** The exact condition: at every level the type admits the kind of the leaf and a literal is among those
      admitted; and every required key is declared with a schema that fits, or is a `steps`. */
  predicate Fits(root: Json, schema: Json, depth: nat)
    requires depth <= DEPTH_BOUND
    decreases DEPTH_BOUND - depth
  {
    && schema != Bool(false)
    && (schema.Object? ==>
          && TypeHolds(schema, Leaf(root, schema, depth))
          && match RouteOf(root, schema)
             case Follow(next) => depth < DEPTH_BOUND && Fits(root, next, depth + 1)
             case Literal(value) => ConstHolds(schema, value)
             case Build(kind) => kind == "object" ==> MembersFit(root, schema, depth))
  }

  predicate MembersFit(root: Json, schema: Json, depth: nat)
    requires depth <= DEPTH_BOUND
    decreases DEPTH_BOUND - depth, 0
  {
    forall k :: k in Required(schema) && k.String? ==>
      if k.s in Properties(schema) then depth < DEPTH_BOUND && Fits(root, Properties(schema)[k.s], depth + 1)
      else LowerAscii(k.s) == "steps"
  }

  /** The keys of a generated object: those required that are declared, or spell `steps`. */
  lemma {:induction false} RequiredFieldsAre(root: Json, properties: map<string, Json>, required: seq<Json>, depth: nat, key: string)
    requires depth <= DEPTH_BOUND
    ensures var fields := RequiredFields(root, properties, required, depth);
            && (key in fields <==> String(key) in required && (key in properties || LowerAscii(key) == "steps"))
            && (key in fields ==>
                  fields[key] == if key in properties then Generate(root, properties[key], depth + 1).value else Array([]))
    decreases |required|
  {
    if required == [] {
    } else {
      var n := |required| - 1;
      RequiredFieldsAre(root, properties, required[..n], depth, key);
      assert required == required[..n] + [required[n]];
    }
  }

  /** A level that refers elsewhere conforms when its type holds and its target does. */
  lemma ReferenceLevel(root: Json, schema: Json, v: Json, levels: nat)
    requires levels > 0 && schema.Object? && RefTarget(root, schema).Some?
    requires NoFixed(schema) && NoMembers(schema) && !Has(schema, "anyOf")
    ensures ConformsTo(root, schema, v, levels) <==>
      TypeHolds(schema, v) && ConformsTo(root, RefTarget(root, schema).value, v, levels - 1)
  {
  }

  /** A level with alternatives, of which the first conforms, conforms when its type holds. */
  lemma AlternativesLevel(root: Json, schema: Json, v: Json, levels: nat)
    requires levels > 0 && schema.Object? && RefTarget(root, schema).None? && FirstOf(schema, "anyOf").Some?
    requires NoFixed(schema) && NoMembers(schema)
    requires ConformsTo(root, FirstOf(schema, "anyOf").value, v, levels - 1)
    ensures ConformsTo(root, schema, v, levels) <==> TypeHolds(schema, v)
  {
    assert ConformsTo(root, Get(schema, "anyOf").value.items[0], v, levels - 1);
  }

  lemma LiteralLevel(root: Json, schema: Json, v: Json, levels: nat)
    requires levels > 0 && schema.Object? && RefTarget(root, schema).None?
    requires !Has(schema, "anyOf") && NoMembers(schema)
    ensures ConformsTo(root, schema, v, levels) <==> TypeHolds(schema, v) && ConstHolds(schema, v)
  {
  }

  lemma ShapeLevel(root: Json, schema: Json, v: Json, levels: nat)
    requires levels > 0 && schema.Object? && RefTarget(root, schema).None?
    requires NoFixed(schema) && !Has(schema, "anyOf")
    ensures ConformsTo(root, schema, v, levels) <==>
      TypeHolds(schema, v) && RequiredHolds(schema, v) && MembersConform(root, schema, v, levels - 1)
  {
  }

  /** Whether the generated value conforms is decided by `Fits`: it does to any number of levels if so, and
      fails within as many as the bound leaves if not. */
  lemma {:induction false} GenerateConforms(root: Json, schema: Json, depth: nat, levels: nat)
    requires depth <= DEPTH_BOUND && Readable(root, schema, depth)
    ensures Decided(root, schema, depth, levels)
    decreases levels, 2
  {
    if levels > 0 && schema.Object? {
      match RouteOf(root, schema)
      case Follow(_) =>
        if Has(schema, "$ref") {
          ReadableReference(root, schema, depth);
          GenerateConforms(root, RefTarget(root, schema).value, depth + 1, levels - 1);
          ReferenceDecided(root, schema, RefTarget(root, schema).value, depth, levels);
        } else {
          AlternativesConform(root, schema, depth, levels);
        }
      case Literal(_) => LiteralConforms(root, schema, depth, levels);
      case Build(_) => BuiltConforms(root, schema, depth, levels);
    }
  }

  ghost predicate Decided(root: Json, schema: Json, depth: nat, levels: nat)
    requires depth <= DEPTH_BOUND
  {
    var v := Generate(root, schema, depth).value;
    && (Fits(root, schema, depth) ==> ConformsTo(root, schema, v, levels))
    && (levels > DEPTH_BOUND - depth && ConformsTo(root, schema, v, levels) ==> Fits(root, schema, depth))
  }

  lemma ReadableReference(root: Json, schema: Json, depth: nat)
    requires depth <= DEPTH_BOUND && Readable(root, schema, depth) && schema.Object? && Has(schema, "$ref")
    ensures RefTarget(root, schema).Some? && depth < DEPTH_BOUND
    ensures Readable(root, RefTarget(root, schema).value, depth + 1)
    ensures NoFixed(schema) && NoMembers(schema) && !Has(schema, "anyOf")
    ensures Fits(root, schema, depth) <==>
      TypeHolds(schema, Leaf(root, schema, depth)) && Fits(root, RefTarget(root, schema).value, depth + 1)
  {
  }

  lemma ReferenceDecided(root: Json, schema: Json, next: Json, depth: nat, levels: nat)
    requires depth < DEPTH_BOUND && levels > 0 && schema.Object? && RefTarget(root, schema) == Some(next)
    requires NoFixed(schema) && NoMembers(schema) && !Has(schema, "anyOf")
    requires Fits(root, schema, depth) <==> TypeHolds(schema, Leaf(root, schema, depth)) && Fits(root, next, depth + 1)
    requires Decided(root, next, depth + 1, levels - 1)
    ensures Decided(root, schema, depth, levels)
  {
    GeneratedByRoute(root, schema, depth);
    TypeByLeaf(root, schema, depth);
    ReferenceLevel(root, schema, Generate(root, next, depth + 1).value, levels);
  }

  lemma {:induction false} AlternativesConform(root: Json, schema: Json, depth: nat, levels: nat)
    requires depth <= DEPTH_BOUND && Readable(root, schema, depth)
    requires levels > 0 && schema.Object? && !Has(schema, "$ref") && RouteOf(root, schema).Follow?
    ensures Decided(root, schema, depth, levels)
    decreases levels, 1
  {
    OnlyAlternatives(root, schema);
    var next := FirstOf(schema, "anyOf").value;
    GeneratedByRoute(root, schema, depth);
    TypeByLeaf(root, schema, depth);
    GenerateConforms(root, next, depth + 1, levels - 1);
    AlternativesLevel(root, schema, Generate(root, next, depth + 1).value, levels);
  }

  lemma OnlyAlternatives(root: Json, schema: Json)
    requires !Has(schema, "$ref") && RouteOf(root, schema).Follow? && !Has(schema, "oneOf") && !Has(schema, "allOf")
    ensures RefTarget(root, schema).None? && FirstOf(schema, "anyOf") == Some(RouteOf(root, schema).schema)
  {
  }

  lemma LiteralConforms(root: Json, schema: Json, depth: nat, levels: nat)
    requires depth <= DEPTH_BOUND && Readable(root, schema, depth)
    requires levels > 0 && schema.Object? && RouteOf(root, schema).Literal?
    ensures Decided(root, schema, depth, levels)
  {
    GeneratedByRoute(root, schema, depth);
    LiteralLevel(root, schema, Generate(root, schema, depth).value, levels);
  }

  lemma {:induction false} BuiltConforms(root: Json, schema: Json, depth: nat, levels: nat)
    requires depth <= DEPTH_BOUND && Readable(root, schema, depth)
    requires levels > 0 && schema.Object? && RouteOf(root, schema).Build?
    ensures Decided(root, schema, depth, levels)
    decreases levels, 1
  {
    GeneratedByRoute(root, schema, depth);
    TypeByLeaf(root, schema, depth);
    ShapeLevel(root, schema, Generate(root, schema, depth).value, levels);
    if SelectedType(schema) == "object" {
      BuiltMembers(root, schema, depth, levels);
    }
  }

  /** Required keys that are declared or spell `steps` are just those that end up in the object. */
  lemma RequiredByKeys(root: Json, schema: Json, depth: nat)
    requires depth <= DEPTH_BOUND
    ensures RequiredHolds(schema, Object(RequiredFields(root, Properties(schema), Required(schema), depth))) <==>
      forall k :: k in Required(schema) && k.String? ==> k.s in Properties(schema) || LowerAscii(k.s) == "steps"
  {
    forall k | k in Required(schema) && k.String?
      ensures k.s in RequiredFields(root, Properties(schema), Required(schema), depth)
        <==> (k.s in Properties(schema) || LowerAscii(k.s) == "steps")
    {
      RequiredFieldsAre(root, Properties(schema), Required(schema), depth, k.s);
    }
  }

  ghost predicate MembersDecided(root: Json, schema: Json, depth: nat, levels: nat)
    requires depth <= DEPTH_BOUND && levels > 0
  {
    var v := Object(RequiredFields(root, Properties(schema), Required(schema), depth));
    var holds := RequiredHolds(schema, v) && MembersConform(root, schema, v, levels - 1);
    (MembersFit(root, schema, depth) ==> holds) && (levels > DEPTH_BOUND - depth && holds ==> MembersFit(root, schema, depth))
  }

  lemma {:induction false} BuiltMembers(root: Json, schema: Json, depth: nat, levels: nat)
    requires depth <= DEPTH_BOUND && Readable(root, schema, depth) && levels > 0
    requires schema.Object? && RouteOf(root, schema) == Build("object")
    ensures MembersDecided(root, schema, depth, levels)
    decreases levels, 0
  {
    RequiredByKeys(root, schema, depth);
    forall k: string | String(k) in Required(schema) && k in Properties(schema)
      ensures MemberDecided(root, schema, depth, k, levels - 1)
    {
      var key := String(k);
      assert key in Required(schema) && key.String? && key.s in Properties(schema);
      GenerateConforms(root, Properties(schema)[k], depth + 1, levels - 1);
    }
    MembersDecide(root, schema, depth, levels);
  }

  ghost predicate MemberDecided(root: Json, schema: Json, depth: nat, k: string, levels: nat)
    requires k in Properties(schema)
  {
    depth < DEPTH_BOUND && Decided(root, Properties(schema)[k], depth + 1, levels)
  }

  lemma MembersDecide(root: Json, schema: Json, depth: nat, levels: nat)
    requires depth <= DEPTH_BOUND && levels > 0
    requires forall k: string :: String(k) in Required(schema) && k in Properties(schema) ==>
      MemberDecided(root, schema, depth, k, levels - 1)
    ensures MembersDecided(root, schema, depth, levels)
  {
    var fields := RequiredFields(root, Properties(schema), Required(schema), depth);
    RequiredByKeys(root, schema, depth);
    if MembersFit(root, schema, depth) {
      FittingMembersConform(root, schema, depth, levels);
    }
    if levels > DEPTH_BOUND - depth && MembersConform(root, schema, Object(fields), levels - 1) {
      forall k | k in Required(schema) && k.String? && k.s in Properties(schema)
        ensures depth < DEPTH_BOUND && Fits(root, Properties(schema)[k.s], depth + 1)
      {
        MemberMustFit(root, schema, depth, k.s, levels);
      }
    }
  }

  lemma FittingMembersConform(root: Json, schema: Json, depth: nat, levels: nat)
    requires depth <= DEPTH_BOUND && levels > 0 && MembersFit(root, schema, depth)
    requires forall k: string :: String(k) in Required(schema) && k in Properties(schema) ==>
      MemberDecided(root, schema, depth, k, levels - 1)
    ensures MembersConform(root, schema, Object(RequiredFields(root, Properties(schema), Required(schema), depth)), levels - 1)
  {
    var fields := RequiredFields(root, Properties(schema), Required(schema), depth);
    forall k | k in Properties(schema) && k in fields ensures ConformsTo(root, Properties(schema)[k], fields[k], levels - 1) {
      RequiredFieldsAre(root, Properties(schema), Required(schema), depth, k);
      assert MemberDecided(root, schema, depth, k, levels - 1);
      MemberFits(root, schema, depth, k);
    }
  }

  lemma MemberFits(root: Json, schema: Json, depth: nat, k: string)
    requires depth <= DEPTH_BOUND && MembersFit(root, schema, depth)
    requires String(k) in Required(schema) && k in Properties(schema)
    ensures depth < DEPTH_BOUND && Fits(root, Properties(schema)[k], depth + 1)
  {
    var key := String(k);
    assert key in Required(schema) && key.String? && key.s in Properties(schema);
  }

  lemma MemberMustFit(root: Json, schema: Json, depth: nat, k: string, levels: nat)
    requires depth <= DEPTH_BOUND && levels > DEPTH_BOUND - depth
    requires String(k) in Required(schema) && k in Properties(schema) && MemberDecided(root, schema, depth, k, levels - 1)
    requires MembersConform(root, schema, Object(RequiredFields(root, Properties(schema), Required(schema), depth)), levels - 1)
    ensures depth < DEPTH_BOUND && Fits(root, Properties(schema)[k], depth + 1)
  {
    RequiredFieldsAre(root, Properties(schema), Required(schema), depth, k);
  }

  /** The fallback value of a schema is an instance of it exactly when the schema fits. */
  lemma MinimalConforms(schema: Json)
    requires Readable(schema, schema, 0)
    ensures Conforms(schema, schema, MinimalJson(schema).value) <==> Fits(schema, schema, 0)
  {
    forall levels: nat ensures Decided(schema, schema, 0, levels) {
      GenerateConforms(schema, schema, 0, levels);
    }
    var v := MinimalJson(schema).value;
    if Conforms(schema, schema, v) {
      assert ConformsTo(schema, schema, v, DEPTH_BOUND + 1);
      assert Decided(schema, schema, 0, DEPTH_BOUND + 1);
    }
    if Fits(schema, schema, 0) {
      forall levels: nat ensures ConformsTo(schema, schema, v, levels) {
        assert Decided(schema, schema, 0, levels);
      }
    }
  }

  /** A type that names a kind other than null. */
  predicate TypeKnown(schema: Json) {
    var kind := Get(schema, "type");
    kind.Some? ==>
      && (kind.value.String? || (kind.value.Array? && FirstKind(kind.value.items).Some?))
      && OfKind(SelectedType(schema), Sample(SelectedType(schema)))
  }

  /** Schemas that keep to one source of a value per level: a reference, one of const, enum and anyOf, or a
      known type, with every required key declared. */
  predicate Plain(root: Json, schema: Json, depth: nat)
    requires depth <= DEPTH_BOUND
    decreases DEPTH_BOUND - depth
  {
    && schema.Object? && !Has(schema, "oneOf") && !Has(schema, "allOf") && !Has(schema, "default")
    && (Has(schema, "$ref") ==> RefTarget(root, schema).Some? && !Has(schema, "anyOf"))
    && match RouteOf(root, schema)
       case Follow(next) =>
         NoFixed(schema) && NoMembers(schema) && !Has(schema, "type") && depth < DEPTH_BOUND && Plain(root, next, depth + 1)
       case Literal(_) =>
         && !(Has(schema, "const") && Has(schema, "enum"))
         && !Has(schema, "anyOf") && NoMembers(schema) && !Has(schema, "type")
       case Build(kind) =>
         && NoFixed(schema) && !Has(schema, "anyOf") && TypeKnown(schema)
         && (kind == "object" ==> forall k :: k in Required(schema) && k.String? ==>
               k.s in Properties(schema) && depth < DEPTH_BOUND && Plain(root, Properties(schema)[k.s], depth + 1))
  }

  /** All of them fit. */
  lemma {:induction false} PlainFits(root: Json, schema: Json, depth: nat)
    requires depth <= DEPTH_BOUND && Plain(root, schema, depth)
    ensures Readable(root, schema, depth) && Fits(root, schema, depth)
    decreases DEPTH_BOUND - depth
  {
    match RouteOf(root, schema)
    case Follow(next) => PlainFits(root, next, depth + 1);
    case Literal(_) =>
    case Build(kind) =>
      KnownTypeHolds(schema);
      if kind == "object" {
        forall k | k in Required(schema) && k.String?
          ensures Readable(root, Properties(schema)[k.s], depth + 1) && Fits(root, Properties(schema)[k.s], depth + 1)
        {
          PlainFits(root, Properties(schema)[k.s], depth + 1);
        }
      }
  }

  lemma KnownTypeHolds(schema: Json)
    requires TypeKnown(schema)
    ensures TypeHolds(schema, Sample(SelectedType(schema)))
  {
    var kind := Get(schema, "type");
    if kind.Some? && kind.value.Array? {
      FirstKindIsListed(kind.value.items);
      assert String(SelectedType(schema)) in kind.value.items;
    }
  }

  lemma FirstKindIsListed(types: seq<Json>)
    ensures FirstKind(types).Some? ==> String(FirstKind(types).value) in types
  {
  }

  // ---- the check on plans ----

  /** Undeclared keys are ruled out. */
  predicate Closed(schema: Json) {
    && Get(schema, "additionalProperties") == Some(Bool(false))
    && Has(schema, "properties") && Get(schema, "properties").value.Object?
  }

  /** `json_matches_object_schema_requirements` */
  predicate MatchesRequirements(schema: Json, value: Json) {
    && value.Object?
    && (forall k :: k in Required(schema) && k.String? ==> k.s in value.fields)
    && (Closed(schema) ==> forall k :: k in value.fields ==> k in Properties(schema))
    && ("steps" in value.fields ==> value.fields["steps"].Array?)
  }

  /** What the check asks of a value, in terms of the schema's keywords: every required key is there, no key is
      undeclared where `additionalProperties` is false beside `properties`, and `steps` is an array. */
  lemma MatchesExactly(schema: Json, fields: map<string, Json>)
    ensures MatchesRequirements(schema, Object(fields)) <==>
      && (Has(schema, "required") && Get(schema, "required").value.Array? ==>
            forall k: string :: String(k) in Get(schema, "required").value.items ==> k in fields)
      && (Get(schema, "additionalProperties") == Some(Bool(false)) && Has(schema, "properties")
          && Get(schema, "properties").value.Object?
          ==> fields.Keys <= Get(schema, "properties").value.fields.Keys)
      && ("steps" in fields ==> fields["steps"].Array?)
  {
    forall k | k in Required(schema) && k.String? ensures String(k.s) in Required(schema) {
    }
    forall k: string | String(k) in Required(schema) ensures String(k).String? && String(k).s == k {
    }
  }

  /** An object that the generator builds passes the check that guards cached plans exactly when every
      required key is declared or spells `steps`, is declared where no others are allowed, and a declared
      `steps` comes out as an array. */
  lemma GeneratedMatches(root: Json, schema: Json, depth: nat)
    requires depth <= DEPTH_BOUND && RouteOf(root, schema) == Build("object")
    ensures MatchesRequirements(schema, Generate(root, schema, depth).value) <==>
      && (forall k :: k in Required(schema) && k.String? ==> k.s in Properties(schema) || LowerAscii(k.s) == "steps")
      && (Closed(schema) ==> StepsDeclared(schema))
      && (String("steps") in Required(schema) && "steps" in Properties(schema) ==>
            Leaf(root, Properties(schema)["steps"], depth + 1).Array?)
  {
    GeneratedByRoute(root, schema, depth);
    RequiredByKeys(root, schema, depth);
    ClosedByKeys(root, schema, depth);
    StepsByLeaf(root, schema, depth);
  }

  /** Every spelling of `steps` that is required is declared. */
  predicate StepsDeclared(schema: Json) {
    forall k :: k in Required(schema) && k.String? && LowerAscii(k.s) == "steps" ==> k.s in Properties(schema)
  }

  lemma ClosedByKeys(root: Json, schema: Json, depth: nat)
    requires depth <= DEPTH_BOUND
    ensures var fields := RequiredFields(root, Properties(schema), Required(schema), depth);
            (forall k :: k in fields ==> k in Properties(schema)) <==> StepsDeclared(schema)
  {
    var fields := RequiredFields(root, Properties(schema), Required(schema), depth);
    forall k: string
      ensures k in fields <==> String(k) in Required(schema) && (k in Properties(schema) || LowerAscii(k) == "steps")
    {
      RequiredFieldsAre(root, Properties(schema), Required(schema), depth, k);
    }
  }

  lemma StepsByLeaf(root: Json, schema: Json, depth: nat)
    requires depth <= DEPTH_BOUND
    ensures var fields := RequiredFields(root, Properties(schema), Required(schema), depth);
            ("steps" in fields ==> fields["steps"].Array?) <==>
              (String("steps") in Required(schema) && "steps" in Properties(schema) ==>
                 Leaf(root, Properties(schema)["steps"], depth + 1).Array?)
  {
    RequiredFieldsAre(root, Properties(schema), Required(schema), depth, "steps");
    assert LowerAscii("steps") == "steps";
    if "steps" in Properties(schema) {
      LeafKind(root, Properties(schema)["steps"], depth + 1);
    }
  }

  lemma AnythingConforms(root: Json, v: Json, levels: nat)
    ensures ConformsTo(root, Object(map[]), v, levels)
  {
    var anything := Object(map[]);
    assert Get(anything, "type").None? && Required(anything) == [] && Properties(anything) == map[];
    assert RefTarget(root, anything).None?;
  }

  /** Alternatives hide a type beside them: the value then has the shape of the first alternative. */
  lemma AlternativesHideType() returns (schema: Json)
    ensures MinimalJson(schema) == Some(Object(map[]))
    ensures !Conforms(schema, schema, Object(map[])) && Conforms(schema, schema, String(""))
  {
    var anything := Object(map[]);
    schema := Object(map["anyOf" := Array([anything]), "type" := String("string")]);
    assert Get(schema, "type") == Some(String("string"));
    assert !ConformsTo(schema, schema, Object(map[]), 1);
    forall levels: nat ensures ConformsTo(schema, schema, String(""), levels) {
      if levels > 0 {
        AnythingConforms(schema, String(""), levels - 1);
        assert Get(schema, "anyOf").value.items[0] == anything;
      }
    }
    assert FirstOf(schema, "anyOf") == Some(anything);
    assert Get(anything, "type").None? && Required(anything) == [];
    assert Generate(schema, anything, 1) == Some(Object(map[]));
  }

  /** So do literals: an enumeration's first value and a default are taken whatever the type beside them. */
  lemma LiteralsHideType() returns (listed: Json, defaulted: Json)
    ensures MinimalJson(listed) == Some(Number(0.0)) == MinimalJson(defaulted)
    ensures !Conforms(listed, listed, Number(0.0)) && Conforms(listed, listed, String(""))
    ensures !Conforms(defaulted, defaulted, Number(0.0)) && Conforms(defaulted, defaulted, String(""))
  {
    listed := Object(map["enum" := Array([Number(0.0), String("")]), "type" := String("string")]);
    defaulted := Object(map["default" := Number(0.0), "type" := String("string")]);
    TypedLiteral(listed);
    TypedLiteral(defaulted);
  }

  lemma TypedLiteral(schema: Json)
    requires schema.Object? && Get(schema, "type") == Some(String("string"))
    requires !Has(schema, "$ref") && !Has(schema, "const") && !Has(schema, "anyOf") && NoMembers(schema)
    requires Has(schema, "enum") ==> Get(schema, "enum") == Some(Array([Number(0.0), String("")]))
    ensures !Conforms(schema, schema, Number(0.0)) && Conforms(schema, schema, String(""))
  {
    assert !ConformsTo(schema, schema, Number(0.0), 1);
    forall levels: nat ensures ConformsTo(schema, schema, String(""), levels) {
      if levels > 0 {
        LiteralLevel(schema, schema, String(""), levels);
      }
    }
  }
}
