/**
 Synthetic example responses from the schemas of an API document. References may form cycles; each path of
 references is followed only until it would repeat.
 */
module ExampleGenerator {
  import opened Wrappers
  import opened Json

  const SYNTHETIC_UUID := "018f0000-0000-7000-8000-000000000001"
  const SYNTHETIC_TIME := "2026-09-19T09:00:00Z"

  /** An example, or any exception. */
  datatype Result = Ok(value: Json) | Raised

  // ---- References ----

  function RemovePrefix(s: string, prefix: string): string {
    if prefix <= s then s[|prefix|..] else s
  }

  /** `s.split("/")` */
  function Split(s: string): (parts: seq<string>)
    ensures parts != []
  {
    if s == "" then [""]
    else if s[0] == '/' then [""] + Split(s[1..])
    else var rest := Split(s[1..]); [[s[0]] + rest[0]] + rest[1..]
  }

  function Walk(node: Json, parts: seq<string>): Option<Json>
    decreases |parts|
  {
    if parts == [] then Some(node)
    else if !node.Obj? || parts[0] !in node.fields then None
    else Walk(node.fields[parts[0]], parts[1..])
  }

  /** The node a reference names; None when a lookup on the way raises. */
  function Resolve(ref: string, document: Json): Option<Json> {
    Walk(document, Split(RemovePrefix(ref, "#/")))
  }

  function RefOf(fields: map<string, Json>): Option<string> {
    if "$ref" in fields && fields["$ref"].Str? then Some(fields["$ref"].s) else None
  }

  /** Every reference anywhere inside a document. */
  ghost function Refs(j: Json): set<string> {
    match j
    case Arr(items) => set i, r | 0 <= i < |items| && r in Refs(items[i]) :: r
    case Obj(fields) =>
      (if RefOf(fields).Some? then {RefOf(fields).value} else {}) + set k, r | k in fields && r in Refs(fields[k]) :: r
    case _ => {}
  }

  lemma {:induction false} WalkStaysInside(node: Json, parts: seq<string>)
    requires Walk(node, parts).Some?
    ensures Refs(Walk(node, parts).value) <= Refs(node)
    decreases |parts|
  {
    if parts != [] {
      WalkStaysInside(node.fields[parts[0]], parts[1..]);
    }
  }

  /** Following one more reference leaves fewer to follow. */
  lemma OneFewerLeft(refs: set<string>, seen: set<string>, r: string)
    requires r in refs && r !in seen
    ensures |refs - (seen + {r})| < |refs - seen|
  {
    assert refs - (seen + {r}) == (refs - seen) - {r};
  }

  // ---- Parts of a schema are smaller and have no further references ----

  lemma FieldInside(schema: Json, key: string)
    requires schema.Obj? && key in schema.fields
    ensures Refs(schema.fields[key]) <= Refs(schema) && schema.fields[key] < schema
  {
  }

  lemma PartInside(schema: Json, key: string, i: nat)
    requires schema.Obj? && key in schema.fields && schema.fields[key].Arr? && i < |schema.fields[key].items|
    ensures Refs(schema.fields[key].items[i]) <= Refs(schema) && schema.fields[key].items[i] < schema
  {
    var list := schema.fields[key];
    assert Refs(list.items[i]) <= Refs(list);
    FieldInside(schema, key);
  }

  lemma PropertyInside(schema: Json, key: string, name: string)
    requires schema.Obj? && key in schema.fields && schema.fields[key].Obj? && name in schema.fields[key].fields
    ensures Refs(schema.fields[key].fields[name]) <= Refs(schema) && schema.fields[key].fields[name] < schema
  {
    FieldInside(schema.fields[key], name);
    FieldInside(schema, key);
  }

  // ---- The generator ----

  /** Values the schema itself supplies: the first example, the example, the constant, the first of the enumeration. */
  function Direct(fields: map<string, Json>): Option<Json> {
    if "examples" in fields && fields["examples"].Arr? && fields["examples"].items != []
    then Some(fields["examples"].items[0])
    else if "example" in fields then Some(fields["example"])
    else if "const" in fields then Some(fields["const"])
    else if "enum" in fields && fields["enum"].Arr? && fields["enum"].items != [] then Some(fields["enum"].items[0])
    else None
  }

  /** The list of alternatives, `oneOf` before `anyOf`. */
  function Alternatives(fields: map<string, Json>): Option<seq<Json>> {
    if "oneOf" in fields && fields["oneOf"].Arr? then Some(fields["oneOf"].items)
    else if "anyOf" in fields && fields["anyOf"].Arr? then Some(fields["anyOf"].items)
    else None
  }

  lemma ChoiceInside(schema: Json, choice: Json)
    requires schema.Obj? && Alternatives(schema.fields).Some? && choice in Alternatives(schema.fields).value
    ensures Refs(choice) <= Refs(schema) && choice < schema
  {
    var choices := Alternatives(schema.fields).value;
    var i: nat :| i < |choices| && choices[i] == choice;
    PartInside(schema, if "oneOf" in schema.fields && schema.fields["oneOf"].Arr? then "oneOf" else "anyOf", i);
  }

  /** The first alternative that is not just null, or else the first; None when there is none or one is no object. */
  function Choose(choices: seq<Json>): (choice: Option<Json>)
    ensures choice.Some? ==> choice.value in choices
  {
    if choices == [] then None else FirstNotNull(choices, choices[0])
  }

  function FirstNotNull(choices: seq<Json>, otherwise: Json): (choice: Option<Json>)
    ensures choice.Some? ==> choice.value in choices + [otherwise]
  {
    if choices == [] then Some(otherwise)
    else if !choices[0].Obj? then None
    else if Get(choices[0].fields, "type") != Some(Str("null")) then Some(choices[0])
    else FirstNotNull(choices[1..], otherwise)
  }

  /** `int(v)` for numbers and booleans. */
  function ToInt(v: Json): Option<int> {
    match v
    case Num(n) => Some(Trunc(n))
    case Bool(b) => Some(if b then 1 else 0)
    case _ => None
  }

  /** `float(v)` for numbers and booleans. */
  function ToFloat(v: Json): Option<real> {
    match v
    case Num(n) => Some(n)
    case Bool(b) => Some(if b then 1.0 else 0.0)
    case _ => None
  }

  function GetOr(fields: map<string, Json>, key: string, otherwise: Json): Json {
    if key in fields then fields[key] else otherwise
  }

  function StringExample(fields: map<string, Json>): Result {
    if "default" in fields then Ok(fields["default"])
    else
      match GetOr(fields, "format", Null)
      case Str(s) =>
        Ok(Str(if s == "date" then "2026-09-19" else if s == "date-time" then SYNTHETIC_TIME
               else if s == "uuid" then SYNTHETIC_UUID
               else if s == "uri" then "https://synthetic.example/resource" else "synthetic-example"))
      case Arr(_) => Raised
      case Obj(_) => Raised
      case _ => Ok(Str("synthetic-example"))
  }

  predicate WantsObject(fields: map<string, Json>) {
    Get(fields, "type") == Some(Str("object")) || "properties" in fields
  }

  function Properties(fields: map<string, Json>): Json {
    GetOr(fields, "properties", Obj(map[]))
  }

  /** The properties that the example gets: the required ones that are declared, or all when nothing is said. */
  function Wanted(fields: map<string, Json>): (wanted: Option<set<string>>)
    requires Properties(fields).Obj?
    ensures wanted.Some? ==> wanted.value <= Properties(fields).fields.Keys
  {
    var properties := Properties(fields).fields;
    if "required" !in fields then Some(properties.Keys)
    else if !fields["required"].Arr? then None
    else
      var names := fields["required"].items;
      if forall i :: 0 <= i < |names| ==> Hashable(names[i])
      then Some(set k | k in properties && Str(k) in names) else None
  }

  function Scalar(fields: map<string, Json>): Result {
    match GetOr(fields, "type", Null)
    case Str(t) =>
      if t == "boolean" then Ok(Bool(Truthy(GetOr(fields, "default", Bool(false)))))
      else if t == "integer" then
        match ToInt(GetOr(fields, "minimum", Num(0.0))) case Some(n) => Ok(Num(n as real)) case None => Raised
      else if t == "number" then
        match ToFloat(GetOr(fields, "minimum", Num(0.0))) case Some(n) => Ok(Num(n)) case None => Raised
      else if t == "string" then StringExample(fields)
      else Ok(Null)
    case _ => Ok(Null)
  }

  /**
   `_example`. It terminates on every finite document, cyclic or not: each step goes to a smaller schema, or
   follows a reference not yet seen, of which a document has only so many.
   */
  function Example(schema: Json, document: Json, seen: set<string>, ghost refs: set<string>): Result
    requires Refs(schema) <= refs && Refs(document) <= refs
    decreases |refs - seen|, schema, 2, 0
  {
    if !schema.Obj? then Raised
    else if RefOf(schema.fields).Some? then
      var r := RefOf(schema.fields).value;
      if r in seen then Ok(Null)
      else
        match Resolve(r, document)
        case None => Raised
        case Some(target) =>
          WalkStaysInside(document, Split(RemovePrefix(r, "#/")));
          OneFewerLeft(refs, seen, r);
          Example(target, document, seen + {r}, refs)
    else if Direct(schema.fields).Some? then Ok(Direct(schema.fields).value)
    else if Alternatives(schema.fields).Some? then
      match Choose(Alternatives(schema.fields).value)
      case None => Raised
      case Some(choice) => ChoiceInside(schema, choice); Example(choice, document, seen, refs)
    else if "allOf" in schema.fields && schema.fields["allOf"].Arr? then Merge(schema, 0, map[], document, seen, refs)
    else Typed(schema, document, seen, refs)
  }

  /** The parts of an `allOf` from the i-th on, merged over what came before. */
  function Merge(schema: Json, i: nat, merged: map<string, Json>, document: Json, seen: set<string>,
                 ghost refs: set<string>): Result
    requires Refs(schema) <= refs && Refs(document) <= refs
    requires schema.Obj? && "allOf" in schema.fields && schema.fields["allOf"].Arr?
    requires i <= |schema.fields["allOf"].items|
    decreases |refs - seen|, schema, 1, |schema.fields["allOf"].items| - i
  {
    var parts := schema.fields["allOf"].items;
    if i == |parts| then Ok(Obj(merged))
    else
      PartInside(schema, "allOf", i);
      match Example(parts[i], document, seen, refs)
      case Raised => Raised
      case Ok(value) => Merge(schema, i + 1, if value.Obj? then merged + value.fields else merged, document, seen, refs)
  }

  function Typed(schema: Json, document: Json, seen: set<string>, ghost refs: set<string>): Result
    requires Refs(schema) <= refs && Refs(document) <= refs && schema.Obj?
    decreases |refs - seen|, schema, 1, 0
  {
    var fields := schema.fields;
    if WantsObject(fields) then
      if !Properties(fields).Obj? then Raised
      else
        match Wanted(fields)
        case None => Raised
        case Some(wanted) =>
          if forall k :: k in wanted ==> Property(schema, k, document, seen, refs).Ok?
          then Ok(Obj(map k | k in wanted :: Property(schema, k, document, seen, refs).value))
          else Raised
    else if Get(fields, "type") == Some(Str("array")) then
      match ToInt(GetOr(fields, "minItems", Num(0.0)))
      case None => Raised
      case Some(count) =>
        if count <= 0 then Ok(Arr([]))
        else if "items" !in fields then Ok(Arr(seq(count, _ => Null)))
        else
          FieldInside(schema, "items");
          match Example(fields["items"], document, seen, refs)
          case Raised => Raised
          case Ok(value) => Ok(Arr(seq(count, _ => value)))
    else Scalar(fields)
  }

  function Property(schema: Json, k: string, document: Json, seen: set<string>, ghost refs: set<string>): Result
    requires Refs(schema) <= refs && Refs(document) <= refs
    requires schema.Obj? && Properties(schema.fields).Obj? && k in Properties(schema.fields).fields
    decreases |refs - seen|, schema, 0, 0
  {
    PropertyInside(schema, "properties", k);
    Example(Properties(schema.fields).fields[k], document, seen, refs)
  }

  function ExampleOf(schema: Json, document: Json): Result {
    Example(schema, document, {}, Refs(schema) + Refs(document))
  }
}
