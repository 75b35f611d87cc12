/**
 When the generated examples satisfy their schemas. Validity follows JSON Schema Validation 2020-12 for the
 keywords type (6.1.1), enum (6.1.2), const (6.1.3), minimum (6.2.4), minItems (6.4.2) and required (6.5.3), with
 properties, items, anyOf and $ref.
 */
module ExampleConformance {
  import opened Wrappers
  import opened Json
  import opened ExampleGenerator

  type Ranks = map<string, nat>

  // ---- Documents without reference cycles ----

  /** Every reference in the schema has a rank under the bound. */
  ghost predicate Below(s: Json, rank: Ranks, bound: nat) {
    forall r :: r in Refs(s) ==> r in rank && rank[r] < bound
  }

  /** The ranks witness that references form no cycle: each resolves, to a schema whose references rank lower. */
  ghost predicate Acyclic(document: Json, rank: Ranks) {
    forall r :: r in rank ==> Resolve(r, document).Some? && Below(Resolve(r, document).value, rank, rank[r])
  }

  lemma FieldBelow(s: Json, key: string, rank: Ranks, bound: nat)
    requires s.Obj? && key in s.fields && Below(s, rank, bound)
    ensures Below(s.fields[key], rank, bound) && s.fields[key] < s
  {
    FieldInside(s, key);
  }

  lemma PartBelow(s: Json, key: string, i: nat, rank: Ranks, bound: nat)
    requires s.Obj? && key in s.fields && s.fields[key].Arr? && i < |s.fields[key].items| && Below(s, rank, bound)
    ensures Below(s.fields[key].items[i], rank, bound) && s.fields[key].items[i] < s
  {
    PartInside(s, key, i);
  }

  lemma PropertyBelow(s: Json, key: string, name: string, rank: Ranks, bound: nat)
    requires s.Obj? && key in s.fields && s.fields[key].Obj? && name in s.fields[key].fields && Below(s, rank, bound)
    ensures Below(s.fields[key].fields[name], rank, bound) && s.fields[key].fields[name] < s
  {
    PropertyInside(s, key, name);
  }

  // ---- Validity ----

  predicate HasType(v: Json, t: string) {
    || (t == "null" && v.Null?) || (t == "boolean" && v.Bool?) || (t == "object" && v.Obj?) || (t == "array" && v.Arr?)
    || (t == "string" && v.Str?) || (t == "number" && v.Num?) || (t == "integer" && v.Num? && Integral(v.n))
  }

  predicate TypeHolds(v: Json, fields: map<string, Json>) {
    "type" in fields ==>
      match fields["type"]
      case Str(t) => HasType(v, t)
      case Arr(types) => exists i :: 0 <= i < |types| && types[i].Str? && HasType(v, types[i].s)
      case _ => false
  }

  /** The keywords that speak about the value alone. */
  predicate AssertionsHold(v: Json, fields: map<string, Json>) {
    && TypeHolds(v, fields)
    && ("const" in fields ==> v == fields["const"])
    && ("enum" in fields && fields["enum"].Arr? ==> v in fields["enum"].items)
    && ("minimum" in fields && fields["minimum"].Num? && v.Num? ==> v.n >= fields["minimum"].n)
    && ("minItems" in fields && fields["minItems"].Num? && v.Arr? ==> |v.items| as real >= fields["minItems"].n)
    && ("required" in fields && fields["required"].Arr? && v.Obj? ==>
          forall i :: 0 <= i < |fields["required"].items| && fields["required"].items[i].Str? ==>
                        fields["required"].items[i].s in v.fields)
  }

  ghost predicate Valid(v: Json, s: Json, document: Json, rank: Ranks, bound: nat)
    requires Acyclic(document, rank) && Below(s, rank, bound)
    decreases bound, s
  {
    match s
    case Bool(b) => b
    case Obj(fields) =>
      && AssertionsHold(v, fields)
      && (RefOf(fields).Some? ==>
            var r := RefOf(fields).value;
            Valid(v, Resolve(r, document).value, document, rank, rank[r]))
      && ("properties" in fields && fields["properties"].Obj? && v.Obj? ==>
            forall k :: k in v.fields && k in fields["properties"].fields ==>
                          (PropertyBelow(s, "properties", k, rank, bound);
                           Valid(v.fields[k], fields["properties"].fields[k], document, rank, bound)))
      && ("items" in fields && v.Arr? ==>
            forall i :: 0 <= i < |v.items| ==>
                          (FieldBelow(s, "items", rank, bound);
                           Valid(v.items[i], fields["items"], document, rank, bound)))
      && ("anyOf" in fields && fields["anyOf"].Arr? ==>
            exists i :: 0 <= i < |fields["anyOf"].items| &&
                        (PartBelow(s, "anyOf", i, rank, bound);
                         Valid(v, fields["anyOf"].items[i], document, rank, bound)))
    case _ => false
  }

  ghost predicate ValidForPart(v: Json, s: Json, i: nat, document: Json, rank: Ranks, bound: nat)
    requires Acyclic(document, rank) && Below(s, rank, bound)
    requires s.Obj? && "anyOf" in s.fields && s.fields["anyOf"].Arr? && i < |s.fields["anyOf"].items|
  {
    PartBelow(s, "anyOf", i, rank, bound);
    Valid(v, s.fields["anyOf"].items[i], document, rank, bound)
  }

  // ---- The modelled schemas ----

  const UNCHECKED := {"examples", "example", "oneOf", "allOf"}
  const KEYWORDS := {
    "$ref", "const", "enum", "anyOf", "type", "properties", "required", "items", "minItems", "minimum"}

  predicate Only(fields: map<string, Json>, allowed: set<string>) {
    forall k :: k in fields ==> k !in UNCHECKED && (k in KEYWORDS ==> k in allowed)
  }

  function TypeOf(fields: map<string, Json>): string {
    if "type" in fields && fields["type"].Str? then fields["type"].s else ""
  }

  datatype Shape = Reference | Fixed | Union | Object | Array | Numeric | Other

  /** What kind of schema this is, in the order in which the generator looks. */
  function ShapeOf(fields: map<string, Json>): Shape {
    if "$ref" in fields then Reference
    else if "const" in fields || "enum" in fields then Fixed
    else if "anyOf" in fields then Union
    else if WantsObject(fields) then Object
    else if TypeOf(fields) == "array" then Array
    else if TypeOf(fields) in {"integer", "number"} then Numeric
    else Other
  }

  /** One shape's keywords at a time, each with a value of the kind it should have; annotations are free. */
  predicate PlainFields(fields: map<string, Json>) {
    match ShapeOf(fields)
    case Reference => Only(fields, {"$ref"}) && fields["$ref"].Str?
    case Fixed => Only(fields, {"const", "enum", "type"})
        && ("enum" in fields ==> fields["enum"].Arr? && fields["enum"].items != [])
    case Union => Only(fields, {"anyOf"}) && fields["anyOf"].Arr? && fields["anyOf"].items != []
    case Object =>
      && Only(fields, {"type", "properties", "required"}) && ("type" in fields ==> fields["type"] == Str("object"))
      && Properties(fields).Obj?
      && ("required" in fields ==> fields["required"].Arr? && forall i :: 0 <= i < |fields["required"].items| ==>
          fields["required"].items[i].Str?)
    case Array => Only(fields, {"type", "items", "minItems"}) && ("minItems" in fields ==> fields["minItems"].Num?)
    case Numeric => Only(fields, {"type", "minimum"}) && ("minimum" in fields ==> fields["minimum"].Num?)
    case Other =>
      && Only(fields, {"type"})
      && (TypeOf(fields) == "string" ==> StringExample(fields).Ok?)
  }

  /** A schema in the modelled fragment, at every depth. */
  predicate Plain(s: Json) {
    && s.Obj? && PlainFields(s.fields)
    && match ShapeOf(s.fields)
       case Union => forall i :: 0 <= i < |s.fields["anyOf"].items| ==> Plain(s.fields["anyOf"].items[i])
       case Object => "properties" in s.fields ==> forall k :: k in s.fields["properties"].fields ==>
           Plain(s.fields["properties"].fields[k])
       case Array => "items" in s.fields ==> Plain(s.fields["items"])
       case _ => true
  }

  ghost predicate PlainDocument(document: Json, rank: Ranks) {
    forall r :: r in rank ==> Resolve(r, document).Some? && Plain(Resolve(r, document).value)
  }

  // ---- The exact condition ----

  /** What must hold at one schema, read off it without generating anything. */
  predicate LocallySound(fields: map<string, Json>) {
    match ShapeOf(fields)
    case Fixed =>
      && ("const" in fields && "enum" in fields && fields["enum"].Arr? ==> fields["const"] in fields["enum"].items)
      && (Direct(fields).Some? ==> TypeHolds(Direct(fields).value, fields))
    case Object =>
      // Only declared properties are ever generated, so a required name must be declared.
      "required" in fields && fields["required"].Arr? && Properties(fields).Obj? ==>
        forall i :: 0 <= i < |fields["required"].items| && fields["required"].items[i].Str? ==>
                      fields["required"].items[i].s in Properties(fields).fields
    case Array =>
      "minItems" in fields && fields["minItems"].Num? ==> fields["minItems"].n <= 0.0 || Integral(fields["minItems"].n)
    case Numeric =>
      // int() truncates, so for integers a positive minimum must be whole.
      TypeOf(fields) == "integer" && "minimum" in fields && fields["minimum"].Num? ==>
        fields["minimum"].n <= 0.0 || Integral(fields["minimum"].n)
    case Other =>
      "type" in fields ==> OtherTypeSound(fields)
    case _ => true
  }

  predicate OtherTypeSound(fields: map<string, Json>)
    requires "type" in fields
  {
    match fields["type"]
    case Str(t) => t in {"boolean", "null"} || (t == "string" && ("default" in fields ==> fields["default"].Str?))
    case Arr(types) => Str("null") in types
    case _ => false
  }

  /** The same for every part of the schema that the example is made from. */
  ghost predicate Sound(s: Json, document: Json, rank: Ranks, bound: nat)
    requires Acyclic(document, rank) && Below(s, rank, bound)
    decreases bound, s
  {
    && s.Obj? && PlainFields(s.fields) && LocallySound(s.fields)
    && match ShapeOf(s.fields)
       case Reference =>
         var r := s.fields["$ref"].s;
         Sound(Resolve(r, document).value, document, rank, rank[r])
       case Union =>
         Choose(s.fields["anyOf"].items).Some? &&
         (ChosenBelow(s, rank, bound); Sound(Choose(s.fields["anyOf"].items).value, document, rank, bound))
       case Object =>
         Wanted(s.fields).Some? &&
         forall k :: k in Wanted(s.fields).value ==>
                       (PropertyBelow(s, "properties", k, rank, bound);
                        Sound(Properties(s.fields).fields[k], document, rank, bound))
       case Array =>
         "items" in s.fields && "minItems" in s.fields && s.fields["minItems"].n >= 1.0 ==>
           (FieldBelow(s, "items", rank, bound); Sound(s.fields["items"], document, rank, bound))
       case _ => true
  }

  lemma ChosenBelow(s: Json, rank: Ranks, bound: nat)
    requires s.Obj? && "anyOf" in s.fields && s.fields["anyOf"].Arr? && Choose(s.fields["anyOf"].items).Some?
    requires Below(s, rank, bound)
    ensures var c := Choose(s.fields["anyOf"].items).value; Below(c, rank, bound) && c < s
  {
    var c := Choose(s.fields["anyOf"].items).value;
    var i: nat :| i < |s.fields["anyOf"].items| && s.fields["anyOf"].items[i] == c;
    PartBelow(s, "anyOf", i, rank, bound);
  }

  // ---- What is generated for plain schemas, cyclic or not ----

  predicate IsLeaf(fields: map<string, Json>) {
    ShapeOf(fields) in {Fixed, Numeric, Other}
  }

  lemma LeafExample(s: Json, document: Json, seen: set<string>, refs: set<string>)
    requires Plain(s) && IsLeaf(s.fields) && Refs(s) <= refs && Refs(document) <= refs
    ensures var r := Example(s, document, seen, refs);
            r.Ok? && r == if ShapeOf(s.fields) == Fixed then Ok(Direct(s.fields).value) else Scalar(s.fields)
  {
  }

  lemma {:induction false} PlainChoice(choices: seq<Json>, otherwise: Json)
    requires forall i :: 0 <= i < |choices| ==> choices[i].Obj?
    ensures FirstNotNull(choices, otherwise).Some?
    decreases |choices|
  {
    if choices != [] && Get(choices[0].fields, "type") == Some(Str("null")) {
      PlainChoice(choices[1..], otherwise);
    }
  }

  lemma UnionExample(s: Json, document: Json, seen: set<string>, refs: set<string>) returns (c: Json, i: nat)
    requires Plain(s) && ShapeOf(s.fields) == Union && Refs(s) <= refs && Refs(document) <= refs
    ensures Choose(s.fields["anyOf"].items) == Some(c) && Plain(c) && c < s && Refs(c) <= Refs(s)
    ensures i < |s.fields["anyOf"].items| && s.fields["anyOf"].items[i] == c
    ensures Example(s, document, seen, refs) == Example(c, document, seen, refs)
  {
    var choices := s.fields["anyOf"].items;
    PlainChoice(choices, choices[0]);
    c := Choose(choices).value;
    i :| i < |choices| && choices[i] == c;
    assert Alternatives(s.fields) == Some(choices);
    ChoiceInside(s, c);
  }

  /** A reference not seen before gives its target's example. */
  lemma ReferenceExample(s: Json, r: string, document: Json, seen: set<string>, refs: set<string>)
    requires Plain(s) && ShapeOf(s.fields) == Reference && s.fields["$ref"] == Str(r)
    requires Refs(s) <= refs && Refs(document) <= refs && Resolve(r, document).Some?
    ensures Refs(Resolve(r, document).value) <= refs && r in Refs(s)
    ensures Example(s, document, seen, refs)
            == if r in seen then Ok(Null) else Example(Resolve(r, document).value, document, seen + {r}, refs)
  {
    WalkStaysInside(document, Split(RemovePrefix(r, "#/")));
    assert RefOf(s.fields) == Some(r);
    if r !in seen {
      OneFewerLeft(refs, seen, r);
    }
  }

  /** A set of references that all resolve, to plain schemas with references in the set only. */
  ghost predicate PlainRefs(document: Json, known: set<string>) {
    forall r :: r in known ==> PlainTarget(r, document, known)
  }

  ghost predicate PlainTarget(r: string, document: Json, known: set<string>) {
    && Resolve(r, document).Some?
    && var target := Resolve(r, document).value;
    Plain(target) && Refs(target) <= known
  }

  lemma KnownTarget(r: string, document: Json, known: set<string>)
    requires PlainRefs(document, known) && r in known
    ensures PlainTarget(r, document, known)
  {
  }

  lemma {:induction false} ReferenceIsOk(s: Json, r: string, document: Json, known: set<string>, seen: set<string>,
                                         refs: set<string>)
    requires Plain(s) && ShapeOf(s.fields) == Reference && s.fields["$ref"] == Str(r) && r in known && r !in seen
    requires PlainRefs(document, known) && Refs(s) <= refs && Refs(document) <= refs
    ensures Example(s, document, seen, refs).Ok?
    decreases |known - seen|, s, 0
  {
    KnownTarget(r, document, known);
    ReferenceExample(s, r, document, seen, refs);
    OneFewerLeft(known, seen, r);
    PlainIsOk(Resolve(r, document).value, document, known, seen + {r}, refs);
  }

  lemma SeenIsOk(s: Json, r: string, document: Json, known: set<string>, seen: set<string>, refs: set<string>)
    requires Plain(s) && ShapeOf(s.fields) == Reference && s.fields["$ref"] == Str(r) && r in seen
    requires Refs(s) <= refs && Refs(document) <= refs
    ensures Example(s, document, seen, refs) == Ok(Null)
  {
    assert RefOf(s.fields) == Some(r);
  }

  lemma {:induction false} ObjectIsOk(s: Json, document: Json, known: set<string>, seen: set<string>, refs: set<string>)
    requires Plain(s) && ShapeOf(s.fields) == Object && Refs(s) <= known && PlainRefs(document, known)
    requires Refs(s) <= refs && Refs(document) <= refs
    ensures Wanted(s.fields).Some? && forall k :: k in Wanted(s.fields).value ==>
        Property(s, k, document, seen, refs).Ok?
    ensures Example(s, document, seen, refs).Ok?
    decreases |known - seen|, s, 0
  {
    WantedOfPlain(s);
    forall k | k in Wanted(s.fields).value ensures Property(s, k, document, seen, refs).Ok? {
      PropertyInside(s, "properties", k);
      PlainIsOk(Properties(s.fields).fields[k], document, known, seen, refs);
    }
    ObjectExample(s, document, seen, refs);
  }

  lemma {:induction false} ArrayIsOk(s: Json, document: Json, known: set<string>, seen: set<string>, refs: set<string>)
    requires Plain(s) && ShapeOf(s.fields) == Array && Refs(s) <= known && PlainRefs(document, known)
    requires Refs(s) <= refs && Refs(document) <= refs
    ensures Example(s, document, seen, refs).Ok?
    decreases |known - seen|, s, 0
  {
    ArrayExample(s, document, seen, refs);
    if Count(s.fields) > 0 && "items" in s.fields {
      FieldInside(s, "items");
      PlainIsOk(s.fields["items"], document, known, seen, refs);
    }
  }

  /** However its references are linked, in cycles or not, a plain schema gets an example and nothing raises. */
  lemma {:induction false} PlainIsOk(s: Json, document: Json, known: set<string>, seen: set<string>, refs: set<string>)
    requires Plain(s) && Refs(s) <= known && PlainRefs(document, known)
    requires Refs(s) <= refs && Refs(document) <= refs
    ensures Example(s, document, seen, refs).Ok?
    decreases |known - seen|, s, 1
  {
    match ShapeOf(s.fields) {
      case Reference =>
        var r := s.fields["$ref"].s;
        assert RefOf(s.fields) == Some(r);
        if r in seen {
          SeenIsOk(s, r, document, known, seen, refs);
        } else {
          ReferenceIsOk(s, r, document, known, seen, refs);
        }
      case Union =>
        var c, i := UnionExample(s, document, seen, refs);
        PlainIsOk(c, document, known, seen, refs);
      case Object => ObjectIsOk(s, document, known, seen, refs);
      case Array => ArrayIsOk(s, document, known, seen, refs);
      case _ => LeafExample(s, document, seen, refs);
    }
  }

  /** The same for whole documents: if every reference resolves to a plain schema, no plain schema raises. */
  lemma CyclesStillGiveExamples(s: Json, document: Json)
    requires Plain(s) && PlainRefs(document, Refs(s) + Refs(document))
    ensures ExampleOf(s, document).Ok?
  {
    var refs := Refs(s) + Refs(document);
    PlainIsOk(s, document, refs, {}, refs);
  }

  function RefTo(r: string): Json {
    Obj(map["$ref" := Str(r)])
  }

  function First(ring: seq<string>, n: nat): set<string>
    requires n <= |ring|
  {
    set i | 0 <= i < n :: ring[i]
  }

  /** Each reference of the ring names a schema that is just the next reference. */
  predicate IsRing(ring: seq<string>, document: Json) {
    && ring != []
    && (forall i, j :: 0 <= i < j < |ring| ==> ring[i] != ring[j])
    && forall i :: 0 <= i < |ring| ==> NamesNext(ring, i, document)
  }

  predicate NamesNext(ring: seq<string>, i: nat, document: Json)
    requires i < |ring|
  {
    Resolve(ring[i], document) == Some(RefTo(ring[if i + 1 < |ring| then i + 1 else 0]))
  }

  lemma RefToIsPlain(r: string)
    ensures Plain(RefTo(r)) && ShapeOf(RefTo(r).fields) == Reference && Refs(RefTo(r)) == {r}
  {
    assert forall k :: k in RefTo(r).fields ==> Refs(RefTo(r).fields[k]) == {};
  }

  lemma {:induction false} RingFrom(ring: seq<string>, i: nat, document: Json, refs: set<string>)
    requires IsRing(ring, document) && i <= |ring| && (forall r :: r in ring ==> r in refs) && Refs(document) <= refs
    ensures var s := RefTo(ring[if i < |ring| then i else 0]);
            Refs(s) <= refs && Example(s, document, First(ring, i), refs) == Ok(Null)
    decreases |ring| - i
  {
    var at := if i < |ring| then i else 0;
    var r := ring[at];
    assert NamesNext(ring, at, document);
    RefToIsPlain(r);
    ReferenceExample(RefTo(r), r, document, First(ring, i), refs);
    if i < |ring| {
      RingFrom(ring, i + 1, document, refs);
      assert First(ring, i + 1) == First(ring, i) + {ring[i]};
    }
  }

  /** References that only name each other in a ring, of any length and entered anywhere, come to null. */
  lemma RingsGiveNull(ring: seq<string>, document: Json)
    requires IsRing(ring, document)
    ensures ExampleOf(RefTo(ring[0]), document) == Ok(Null)
  {
    forall r | r in ring ensures r in Refs(document) {
      var i :| 0 <= i < |ring| && ring[i] == r;
      var before := if i > 0 then i - 1 else |ring| - 1;
      assert NamesNext(ring, before, document);
      RefToIsPlain(r);
      WalkStaysInside(document, Split(RemovePrefix(ring[before], "#/")));
    }
    RefToIsPlain(ring[0]);
    RingFrom(ring, 0, document, Refs(RefTo(ring[0])) + Refs(document));
    assert First(ring, 0) == {};
  }

  // ---- Each shape: what is generated, and when it is valid ----

  lemma ReferenceShape(s: Json, document: Json, rank: Ranks, bound: nat)
    requires Acyclic(document, rank) && Below(s, rank, bound) && Plain(s) && ShapeOf(s.fields) == Reference
    ensures var r := s.fields["$ref"].s;
            && r in Refs(s) && r in rank && rank[r] < bound
            && forall v :: Valid(v, s, document, rank, bound)
                <==> Valid(v, Resolve(r, document).value, document, rank, rank[r])
  {
  }

  lemma FixedShape(s: Json, document: Json, seen: set<string>, rank: Ranks, bound: nat, refs: set<string>)
    requires Acyclic(document, rank) && Below(s, rank, bound) && Plain(s) && ShapeOf(s.fields) == Fixed
    requires Refs(s) <= refs && Refs(document) <= refs
    ensures var r := Example(s, document, seen, refs);
            && r.Ok? && Direct(s.fields) == Some(r.value)
            && (Valid(r.value, s, document, rank, bound) <==> LocallySound(s.fields))
  {
  }

  lemma NumericShape(s: Json, document: Json, seen: set<string>, rank: Ranks, bound: nat, refs: set<string>)
    requires Acyclic(document, rank) && Below(s, rank, bound) && Plain(s) && ShapeOf(s.fields) == Numeric
    requires Refs(s) <= refs && Refs(document) <= refs
    ensures var r := Example(s, document, seen, refs);
            r.Ok? && (Valid(r.value, s, document, rank, bound) <==> LocallySound(s.fields))
  {
    if "minimum" in s.fields {
      TruncReaches(s.fields["minimum"].n);
    }
  }

  lemma OtherShape(s: Json, document: Json, seen: set<string>, rank: Ranks, bound: nat, refs: set<string>)
    requires Acyclic(document, rank) && Below(s, rank, bound) && Plain(s) && ShapeOf(s.fields) == Other
    requires Refs(s) <= refs && Refs(document) <= refs
    ensures var r := Example(s, document, seen, refs);
            r.Ok? && (Valid(r.value, s, document, rank, bound) <==> LocallySound(s.fields))
  {
  }

  /** What satisfies some alternative, such as the chosen one, satisfies the union, and nothing else does. */
  lemma UnionShape(s: Json, document: Json, rank: Ranks, bound: nat)
    requires Acyclic(document, rank) && Below(s, rank, bound) && Plain(s) && ShapeOf(s.fields) == Union
    ensures forall v :: Valid(v, s, document, rank, bound) <==>
              exists i: nat :: i < |s.fields["anyOf"].items| && ValidForPart(v, s, i, document, rank, bound)
  {
    forall v
      ensures Valid(v, s, document, rank, bound) <==>
                exists i: nat :: i < |s.fields["anyOf"].items| && ValidForPart(v, s, i, document, rank, bound)
    {
      assert AssertionsHold(v, s.fields) && RefOf(s.fields).None?;
      assert "properties" !in s.fields && "items" !in s.fields;
      forall i: nat | i < |s.fields["anyOf"].items| ensures Below(s.fields["anyOf"].items[i], rank, bound) {
        PartBelow(s, "anyOf", i, rank, bound);
      }
      if i: nat :| i < |s.fields["anyOf"].items| && Valid(v, s.fields["anyOf"].items[i], document, rank, bound) {
        assert ValidForPart(v, s, i, document, rank, bound);
      }
    }
  }

  function Count(fields: map<string, Json>): int {
    if "minItems" in fields && fields["minItems"].Num? then Trunc(fields["minItems"].n) else 0
  }

  /** An array that holds n copies of a value is valid when there are enough of them and the value is a valid item. */
  lemma ValidCopies(s: Json, document: Json, rank: Ranks, bound: nat, n: nat, value: Json)
    requires Acyclic(document, rank) && Below(s, rank, bound) && Plain(s) && ShapeOf(s.fields) == Array
    ensures var v := Arr(seq(n, _ => value));
            Valid(v, s, document, rank, bound) <==>
              && ("minItems" in s.fields ==> n as real >= s.fields["minItems"].n)
              && (n > 0 && "items" in s.fields ==>
                    (FieldBelow(s, "items", rank, bound); Valid(value, s.fields["items"], document, rank, bound)))
  {
    var v := Arr(seq(n, _ => value));
    if n > 0 {
      assert v.items[0] == value;
    }
  }

  lemma ArrayExample(s: Json, document: Json, seen: set<string>, refs: set<string>)
    requires Plain(s) && ShapeOf(s.fields) == Array && Refs(s) <= refs && Refs(document) <= refs
    ensures Count(s.fields) <= 0 ==> Example(s, document, seen, refs) == Ok(Arr(seq(0, _ => Null)))
    ensures Count(s.fields) > 0 && "items" !in s.fields ==>
        Example(s, document, seen, refs) == Ok(Arr(seq(Count(s.fields), _ => Null)))
    ensures Count(s.fields) > 0 && "items" in s.fields ==>
              (FieldInside(s, "items");
               var item := Example(s.fields["items"], document, seen, refs);
               Example(s, document, seen, refs)
               == if item.Ok? then Ok(Arr(seq(Count(s.fields), _ => item.value))) else Raised)
  {
    var none: seq<Json> := seq(0, _ => Null);
    assert none == [];
  }

  /** Enough items, exactly when the minimum is not a positive fraction. */
  lemma CountReaches(fields: map<string, Json>)
    requires "minItems" in fields && fields["minItems"].Num?
    ensures var m := fields["minItems"].n;
            && ((if Count(fields) > 0 then Count(fields) else 0) as real >= m <==> m <= 0.0 || Integral(m))
            && (Count(fields) > 0 <==> m >= 1.0)
  {
    TruncReaches(fields["minItems"].n);
  }

  lemma ArrayShape(s: Json, document: Json, seen: set<string>, rank: Ranks, bound: nat, refs: set<string>)
    requires Acyclic(document, rank) && Below(s, rank, bound) && Plain(s) && ShapeOf(s.fields) == Array
    requires Refs(s) <= refs && Refs(document) <= refs
    requires Count(s.fields) > 0 && "items" in s.fields ==>
               (FieldInside(s, "items"); FieldBelow(s, "items", rank, bound);
                Conforming(s.fields["items"], document, seen, rank, bound, refs))
    ensures Conforming(s, document, seen, rank, bound, refs)
  {
    var n: nat := if Count(s.fields) > 0 then Count(s.fields) else 0;
    ArrayExample(s, document, seen, refs);
    var value := Null;
    if n > 0 && "items" in s.fields {
      FieldInside(s, "items");
      value := Example(s.fields["items"], document, seen, refs).value;
    }
    ValidCopies(s, document, rank, bound, n, value);
    if "minItems" in s.fields {
      CountReaches(s.fields);
    }
  }

  /**
   What makes the example valid, exactly. It differs from soundness at a union: there the example of the
   chosen alternative must satisfy some alternative, be it another one.
   */
  ghost predicate Suits(s: Json, document: Json, rank: Ranks, bound: nat)
    requires Acyclic(document, rank) && Below(s, rank, bound)
    decreases bound, s
  {
    && s.Obj? && PlainFields(s.fields) && LocallySound(s.fields)
    && match ShapeOf(s.fields)
       case Reference =>
         var r := s.fields["$ref"].s;
         Suits(Resolve(r, document).value, document, rank, rank[r])
       case Union => SomeAlternativeHolds(s, document, rank, bound)
       case Object =>
         Wanted(s.fields).Some? &&
         forall k :: k in Wanted(s.fields).value ==>
                       (PropertyBelow(s, "properties", k, rank, bound);
                        Suits(Properties(s.fields).fields[k], document, rank, bound))
       case Array =>
         "items" in s.fields && "minItems" in s.fields && s.fields["minItems"].n >= 1.0 ==>
           (FieldBelow(s, "items", rank, bound); Suits(s.fields["items"], document, rank, bound))
       case _ => true
  }

  ghost predicate SomeAlternativeHolds(s: Json, document: Json, rank: Ranks, bound: nat)
    requires Acyclic(document, rank) && Below(s, rank, bound) && s.Obj? && "anyOf" in s.fields && s.fields["anyOf"].Arr?
  {
    && Choose(s.fields["anyOf"].items).Some?
    && var r := ExampleOf(Choose(s.fields["anyOf"].items).value, document);
    r.Ok? && exists i: nat :: i < |s.fields["anyOf"].items| && ValidForPart(r.value, s, i, document, rank, bound)
  }

  /** The example exists, and it is valid if and only if it suits. */
  ghost predicate Conforming(s: Json, document: Json, seen: set<string>, rank: Ranks, bound: nat, refs: set<string>)
    requires Acyclic(document, rank) && Below(s, rank, bound) && Refs(s) <= refs && Refs(document) <= refs
  {
    var r := Example(s, document, seen, refs);
    r.Ok? && (Valid(r.value, s, document, rank, bound) <==> Suits(s, document, rank, bound))
  }

  /** No union anywhere in the schema or in what it refers to. */
  ghost predicate Unionless(s: Json, document: Json, rank: Ranks, bound: nat)
    requires Acyclic(document, rank) && Below(s, rank, bound)
    decreases bound, s
  {
    && s.Obj? && ShapeOf(s.fields) != Union
    && ("$ref" in s.fields && s.fields["$ref"].Str? ==>
          var r := s.fields["$ref"].s;
          Unionless(Resolve(r, document).value, document, rank, rank[r]))
    && ("items" in s.fields ==>
        (FieldBelow(s, "items", rank, bound); Unionless(s.fields["items"], document, rank, bound)))
    && ("properties" in s.fields && s.fields["properties"].Obj? ==>
          forall k :: k in s.fields["properties"].fields ==>
                        (PropertyBelow(s, "properties", k, rank, bound);
                         Unionless(s.fields["properties"].fields[k], document, rank, bound)))
  }

  lemma WantedOfPlain(s: Json)
    requires Plain(s) && ShapeOf(s.fields) == Object
    ensures Wanted(s.fields).Some?
    ensures forall k :: k in Wanted(s.fields).value <==>
              k in Properties(s.fields).fields && ("required" in s.fields ==> Str(k) in s.fields["required"].items)
  {
  }

  lemma ObjectIsTyped(s: Json, document: Json, seen: set<string>, refs: set<string>)
    requires Plain(s) && ShapeOf(s.fields) == Object && Refs(s) <= refs && Refs(document) <= refs
    ensures Example(s, document, seen, refs) == Typed(s, document, seen, refs)
  {
    assert RefOf(s.fields).None? && Direct(s.fields).None? && Alternatives(s.fields).None? && "allOf" !in s.fields;
  }

  lemma ObjectExample(s: Json, document: Json, seen: set<string>, refs: set<string>)
    requires Plain(s) && ShapeOf(s.fields) == Object && Refs(s) <= refs && Refs(document) <= refs
    requires Wanted(s.fields).Some?
    requires forall k :: k in Wanted(s.fields).value ==> Property(s, k, document, seen, refs).Ok?
    ensures var r := Example(s, document, seen, refs);
            && r.Ok? && r.value.Obj? && r.value.fields.Keys == Wanted(s.fields).value
            && forall k :: k in r.value.fields ==> r.value.fields[k] == Property(s, k, document, seen, refs).value
  {
    ObjectIsTyped(s, document, seen, refs);
  }

  lemma ValidObject(v: Json, s: Json, document: Json, rank: Ranks, bound: nat)
    requires Acyclic(document, rank) && Below(s, rank, bound) && Plain(s) && ShapeOf(s.fields) == Object && v.Obj?
    ensures Valid(v, s, document, rank, bound) <==>
              && ("required" in s.fields ==>
                    forall i :: 0 <= i < |s.fields["required"].items| ==> s.fields["required"].items[i].s in v.fields)
              && forall k :: k in v.fields && k in Properties(s.fields).fields ==>
                               (PropertyBelow(s, "properties", k, rank, bound);
                                Valid(v.fields[k], Properties(s.fields).fields[k], document, rank, bound))
  {
  }

  /** Everything required is declared, exactly when everything required is in the example. */
  lemma RequiredIsWanted(fields: map<string, Json>)
    requires PlainFields(fields) && ShapeOf(fields) == Object && Wanted(fields).Some? && "required" in fields
    ensures LocallySound(fields) <==>
              forall i :: 0 <= i < |fields["required"].items| ==> fields["required"].items[i].s in Wanted(fields).value
  {
    var names := fields["required"].items;
    forall i | 0 <= i < |names|
      ensures names[i].s in Wanted(fields).value <==> names[i].s in Properties(fields).fields
    {
      assert Str(names[i].s) == names[i];
    }
  }

  lemma ObjectShape(s: Json, document: Json, seen: set<string>, rank: Ranks, bound: nat, refs: set<string>)
    requires Acyclic(document, rank) && Below(s, rank, bound) && Plain(s) && ShapeOf(s.fields) == Object
    requires Refs(s) <= refs && Refs(document) <= refs
    requires forall k :: k in Properties(s.fields).fields ==>
               (PropertyInside(s, "properties", k); PropertyBelow(s, "properties", k, rank, bound);
                Conforming(Properties(s.fields).fields[k], document, seen, rank, bound, refs))
    ensures Conforming(s, document, seen, rank, bound, refs)
  {
    WantedOfPlain(s);
    ObjectExample(s, document, seen, refs);
    var v := Example(s, document, seen, refs).value;
    ValidObject(v, s, document, rank, bound);
    if "required" in s.fields {
      RequiredIsWanted(s.fields);
    }
  }

  // ---- All depths ----

  lemma AcyclicIsKnown(s: Json, document: Json, rank: Ranks, bound: nat)
    requires Acyclic(document, rank) && PlainDocument(document, rank) && Below(s, rank, bound)
    ensures PlainRefs(document, rank.Keys) && Refs(s) <= rank.Keys
  {
    forall r | r in rank ensures PlainTarget(r, document, rank.Keys) {
      assert Below(Resolve(r, document).value, rank, rank[r]);
    }
  }

  lemma {:induction false} SameReference(s: Json, document: Json, rank: Ranks, bound: nat, seen: set<string>,
                                         refs: set<string>, seen': set<string>, refs': set<string>)
    requires Acyclic(document, rank) && PlainDocument(document, rank) && Plain(s) && Below(s, rank, bound)
    requires Refs(s) <= refs && Refs(document) <= refs && Refs(s) <= refs' && Refs(document) <= refs'
    requires forall q :: (q in seen || q in seen') && q in rank ==> rank[q] >= bound
    requires ShapeOf(s.fields) == Reference
    ensures Example(s, document, seen, refs) == Example(s, document, seen', refs')
    decreases bound, s, 0
  {
    var r := s.fields["$ref"].s;
    ReferenceShape(s, document, rank, bound);
    ReferenceExample(s, r, document, seen, refs);
    ReferenceExample(s, r, document, seen', refs');
    SameExample(Resolve(r, document).value, document, rank, rank[r], seen + {r}, refs, seen' + {r}, refs');
  }

  lemma {:induction false} SameObject(s: Json, document: Json, rank: Ranks, bound: nat, seen: set<string>,
                                      refs: set<string>, seen': set<string>, refs': set<string>)
    requires Acyclic(document, rank) && PlainDocument(document, rank) && Plain(s) && Below(s, rank, bound)
    requires Refs(s) <= refs && Refs(document) <= refs && Refs(s) <= refs' && Refs(document) <= refs'
    requires forall q :: (q in seen || q in seen') && q in rank ==> rank[q] >= bound
    requires ShapeOf(s.fields) == Object
    ensures Example(s, document, seen, refs) == Example(s, document, seen', refs')
    decreases bound, s, 0
  {
    AcyclicIsKnown(s, document, rank, bound);
    ObjectIsOk(s, document, rank.Keys, seen, refs);
    ObjectIsOk(s, document, rank.Keys, seen', refs');
    forall k | k in Wanted(s.fields).value
      ensures Property(s, k, document, seen, refs) == Property(s, k, document, seen', refs')
    {
      PropertyInside(s, "properties", k);
      PropertyBelow(s, "properties", k, rank, bound);
      SameExample(Properties(s.fields).fields[k], document, rank, bound, seen, refs, seen', refs');
    }
    ObjectExample(s, document, seen, refs);
    ObjectExample(s, document, seen', refs');
    assert Example(s, document, seen, refs).value.fields == Example(s, document, seen', refs').value.fields;
  }

  lemma {:induction false} SameArray(s: Json, document: Json, rank: Ranks, bound: nat, seen: set<string>,
                                     refs: set<string>, seen': set<string>, refs': set<string>)
    requires Acyclic(document, rank) && PlainDocument(document, rank) && Plain(s) && Below(s, rank, bound)
    requires Refs(s) <= refs && Refs(document) <= refs && Refs(s) <= refs' && Refs(document) <= refs'
    requires forall q :: (q in seen || q in seen') && q in rank ==> rank[q] >= bound
    requires ShapeOf(s.fields) == Array
    ensures Example(s, document, seen, refs) == Example(s, document, seen', refs')
    decreases bound, s, 0
  {
    ArrayExample(s, document, seen, refs);
    ArrayExample(s, document, seen', refs');
    if Count(s.fields) > 0 && "items" in s.fields {
      FieldInside(s, "items");
      FieldBelow(s, "items", rank, bound);
      SameExample(s.fields["items"], document, rank, bound, seen, refs, seen', refs');
    }
  }

  /** Without cycles the references followed on the way do not matter: a schema has one example wherever it stands. */
  lemma {:induction false} SameExample(s: Json, document: Json, rank: Ranks, bound: nat, seen: set<string>,
                                       refs: set<string>, seen': set<string>, refs': set<string>)
    requires Acyclic(document, rank) && PlainDocument(document, rank) && Plain(s) && Below(s, rank, bound)
    requires Refs(s) <= refs && Refs(document) <= refs && Refs(s) <= refs' && Refs(document) <= refs'
    requires forall q :: (q in seen || q in seen') && q in rank ==> rank[q] >= bound
    ensures Example(s, document, seen, refs) == Example(s, document, seen', refs')
    decreases bound, s, 1
  {
    match ShapeOf(s.fields) {
      case Reference => SameReference(s, document, rank, bound, seen, refs, seen', refs');
      case Union =>
        var c, i := UnionExample(s, document, seen, refs);
        var c', i' := UnionExample(s, document, seen', refs');
        PartBelow(s, "anyOf", i, rank, bound);
        SameExample(c, document, rank, bound, seen, refs, seen', refs');
      case Object => SameObject(s, document, rank, bound, seen, refs, seen', refs');
      case Array => SameArray(s, document, rank, bound, seen, refs, seen', refs');
      case _ =>
        LeafExample(s, document, seen, refs);
        LeafExample(s, document, seen', refs');
    }
  }

  lemma ReferenceSuits(s: Json, r: string, document: Json, rank: Ranks, bound: nat)
    requires Acyclic(document, rank) && Below(s, rank, bound) && Plain(s)
    requires ShapeOf(s.fields) == Reference && s.fields["$ref"] == Str(r)
    ensures r in rank && rank[r] < bound
    ensures Suits(s, document, rank, bound) <==> Suits(Resolve(r, document).value, document, rank, rank[r])
  {
    ReferenceShape(s, document, rank, bound);
  }

  lemma {:induction false} ReferenceConforms(s: Json, document: Json, seen: set<string>, rank: Ranks, bound: nat,
                                             refs: set<string>)
    requires Acyclic(document, rank) && PlainDocument(document, rank) && Plain(s) && Below(s, rank, bound)
    requires Refs(s) <= refs && Refs(document) <= refs
    requires forall q :: q in seen && q in rank ==> rank[q] >= bound
    requires ShapeOf(s.fields) == Reference
    ensures Conforming(s, document, seen, rank, bound, refs)
    decreases bound, s, 0
  {
    var r := s.fields["$ref"].s;
    ReferenceShape(s, document, rank, bound);
    ReferenceSuits(s, r, document, rank, bound);
    ReferenceExample(s, r, document, seen, refs);
    AllConform(Resolve(r, document).value, document, seen + {r}, rank, rank[r], refs);
  }

  lemma {:induction false} UnionConforms(s: Json, document: Json, seen: set<string>, rank: Ranks, bound: nat,
                                         refs: set<string>)
    requires Acyclic(document, rank) && PlainDocument(document, rank) && Plain(s) && Below(s, rank, bound)
    requires Refs(s) <= refs && Refs(document) <= refs
    requires forall q :: q in seen && q in rank ==> rank[q] >= bound
    requires ShapeOf(s.fields) == Union
    ensures Conforming(s, document, seen, rank, bound, refs)
    decreases bound, s, 0
  {
    var c, i := UnionExample(s, document, seen, refs);
    PartBelow(s, "anyOf", i, rank, bound);
    AcyclicIsKnown(c, document, rank, bound);
    PlainIsOk(c, document, rank.Keys, seen, refs);
    SameExample(c, document, rank, bound, seen, refs, {}, Refs(c) + Refs(document));
    assert Example(s, document, seen, refs) == ExampleOf(c, document);
    UnionShape(s, document, rank, bound);
  }

  lemma {:induction false} ObjectConforms(s: Json, document: Json, seen: set<string>, rank: Ranks, bound: nat,
                                          refs: set<string>)
    requires Acyclic(document, rank) && PlainDocument(document, rank) && Plain(s) && Below(s, rank, bound)
    requires Refs(s) <= refs && Refs(document) <= refs
    requires forall q :: q in seen && q in rank ==> rank[q] >= bound
    requires ShapeOf(s.fields) == Object
    ensures Conforming(s, document, seen, rank, bound, refs)
    decreases bound, s, 0
  {
    forall k | k in Properties(s.fields).fields
      ensures Below(Properties(s.fields).fields[k], rank, bound) && Refs(Properties(s.fields).fields[k]) <= refs
      ensures Conforming(Properties(s.fields).fields[k], document, seen, rank, bound, refs)
    {
      PropertyInside(s, "properties", k);
      PropertyBelow(s, "properties", k, rank, bound);
      AllConform(Properties(s.fields).fields[k], document, seen, rank, bound, refs);
    }
    ObjectShape(s, document, seen, rank, bound, refs);
  }

  lemma {:induction false} ArrayConforms(s: Json, document: Json, seen: set<string>, rank: Ranks, bound: nat,
                                         refs: set<string>)
    requires Acyclic(document, rank) && PlainDocument(document, rank) && Plain(s) && Below(s, rank, bound)
    requires Refs(s) <= refs && Refs(document) <= refs
    requires forall q :: q in seen && q in rank ==> rank[q] >= bound
    requires ShapeOf(s.fields) == Array
    ensures Conforming(s, document, seen, rank, bound, refs)
    decreases bound, s, 0
  {
    if Count(s.fields) > 0 && "items" in s.fields {
      FieldInside(s, "items");
      FieldBelow(s, "items", rank, bound);
      AllConform(s.fields["items"], document, seen, rank, bound, refs);
    }
    ArrayShape(s, document, seen, rank, bound, refs);
  }

  lemma {:induction false} LeafConforms(s: Json, document: Json, seen: set<string>, rank: Ranks, bound: nat,
                                        refs: set<string>)
    requires Acyclic(document, rank) && PlainDocument(document, rank) && Plain(s) && Below(s, rank, bound)
    requires Refs(s) <= refs && Refs(document) <= refs
    requires forall q :: q in seen && q in rank ==> rank[q] >= bound
    requires IsLeaf(s.fields)
    ensures Conforming(s, document, seen, rank, bound, refs)
  {
    if ShapeOf(s.fields) == Fixed {
      FixedShape(s, document, seen, rank, bound, refs);
    } else if ShapeOf(s.fields) == Numeric {
      NumericShape(s, document, seen, rank, bound, refs);
    } else {
      OtherShape(s, document, seen, rank, bound, refs);
    }
  }

  lemma {:induction false} AllConform(s: Json, document: Json, seen: set<string>, rank: Ranks, bound: nat,
                                      refs: set<string>)
    requires Acyclic(document, rank) && PlainDocument(document, rank) && Plain(s) && Below(s, rank, bound)
    requires Refs(s) <= refs && Refs(document) <= refs
    requires forall q :: q in seen && q in rank ==> rank[q] >= bound
    ensures Conforming(s, document, seen, rank, bound, refs)
    decreases bound, s, 1
  {
    match ShapeOf(s.fields) {
      case Reference => ReferenceConforms(s, document, seen, rank, bound, refs);
      case Union => UnionConforms(s, document, seen, rank, bound, refs);
      case Object => ObjectConforms(s, document, seen, rank, bound, refs);
      case Array => ArrayConforms(s, document, seen, rank, bound, refs);
      case _ => LeafConforms(s, document, seen, rank, bound, refs);
    }
  }

  // ---- Soundness, which needs no example, and the exact condition ----

  lemma ChoiceHolds(s: Json, c: Json, i: nat, document: Json, rank: Ranks, bound: nat)
    requires Acyclic(document, rank) && Below(s, rank, bound) && s.Obj? && "anyOf" in s.fields && s.fields["anyOf"].Arr?
    requires Choose(s.fields["anyOf"].items) == Some(c) && i < |s.fields["anyOf"].items|
    requires s.fields["anyOf"].items[i] == c
    requires Below(c, rank, bound) && ExampleOf(c, document).Ok?
    requires Valid(ExampleOf(c, document).value, c, document, rank, bound)
    ensures SomeAlternativeHolds(s, document, rank, bound)
  {
    assert ValidForPart(ExampleOf(c, document).value, s, i, document, rank, bound);
  }

  lemma SoundUnion(s: Json, c: Json, document: Json, rank: Ranks, bound: nat)
    requires Acyclic(document, rank) && Below(s, rank, bound) && Below(c, rank, bound)
    requires Sound(s, document, rank, bound) && ShapeOf(s.fields) == Union && Choose(s.fields["anyOf"].items) == Some(c)
    ensures Sound(c, document, rank, bound)
  {
  }

  lemma {:induction false} SoundIsValid(s: Json, document: Json, rank: Ranks, bound: nat)
    requires Acyclic(document, rank) && PlainDocument(document, rank) && Plain(s) && Below(s, rank, bound)
    requires Sound(s, document, rank, bound)
    ensures ExampleOf(s, document).Ok? && Valid(ExampleOf(s, document).value, s, document, rank, bound)
    decreases bound, s, 2
  {
    SoundSuits(s, document, rank, bound);
    AllConform(s, document, {}, rank, bound, Refs(s) + Refs(document));
  }

  lemma {:induction false} UnionSuits(s: Json, document: Json, rank: Ranks, bound: nat)
    requires Acyclic(document, rank) && PlainDocument(document, rank) && Plain(s) && Below(s, rank, bound)
    requires ShapeOf(s.fields) == Union && Sound(s, document, rank, bound)
    ensures SomeAlternativeHolds(s, document, rank, bound)
    decreases bound, s, 0
  {
    var c, i := UnionExample(s, document, {}, Refs(s) + Refs(document));
    PartBelow(s, "anyOf", i, rank, bound);
    SoundUnion(s, c, document, rank, bound);
    SoundIsValid(c, document, rank, bound);
    ChoiceHolds(s, c, i, document, rank, bound);
  }

  lemma {:induction false} ReferenceSound(s: Json, document: Json, rank: Ranks, bound: nat)
    requires Acyclic(document, rank) && PlainDocument(document, rank) && Plain(s) && Below(s, rank, bound)
    requires ShapeOf(s.fields) == Reference
    ensures Sound(s, document, rank, bound) ==> Suits(s, document, rank, bound)
    ensures Unionless(s, document, rank, bound) && Suits(s, document, rank, bound) ==> Sound(s, document, rank, bound)
    decreases bound, s, 0
  {
    var r := s.fields["$ref"].s;
    ReferenceShape(s, document, rank, bound);
    SoundSuits(Resolve(r, document).value, document, rank, rank[r]);
  }

  lemma {:induction false} ObjectSound(s: Json, document: Json, rank: Ranks, bound: nat)
    requires Acyclic(document, rank) && PlainDocument(document, rank) && Plain(s) && Below(s, rank, bound)
    requires ShapeOf(s.fields) == Object
    ensures Sound(s, document, rank, bound) ==> Suits(s, document, rank, bound)
    ensures Unionless(s, document, rank, bound) && Suits(s, document, rank, bound) ==> Sound(s, document, rank, bound)
    decreases bound, s, 0
  {
    WantedOfPlain(s);
    forall k | k in Wanted(s.fields).value
      ensures Below(Properties(s.fields).fields[k], rank, bound)
      ensures Sound(Properties(s.fields).fields[k], document, rank, bound) ==>
          Suits(Properties(s.fields).fields[k], document, rank, bound)
      ensures Unionless(Properties(s.fields).fields[k], document, rank, bound)
              && Suits(Properties(s.fields).fields[k], document, rank, bound) ==>
                Sound(Properties(s.fields).fields[k], document, rank, bound)
    {
      PropertyBelow(s, "properties", k, rank, bound);
      SoundSuits(Properties(s.fields).fields[k], document, rank, bound);
    }
  }

  lemma {:induction false} SoundSuits(s: Json, document: Json, rank: Ranks, bound: nat)
    requires Acyclic(document, rank) && PlainDocument(document, rank) && Plain(s) && Below(s, rank, bound)
    ensures Sound(s, document, rank, bound) ==> Suits(s, document, rank, bound)
    ensures Unionless(s, document, rank, bound) && Suits(s, document, rank, bound) ==> Sound(s, document, rank, bound)
    decreases bound, s, 1
  {
    match ShapeOf(s.fields) {
      case Reference => ReferenceSound(s, document, rank, bound);
      case Union =>
        if Sound(s, document, rank, bound) {
          UnionSuits(s, document, rank, bound);
        }
      case Object => ObjectSound(s, document, rank, bound);
      case Array =>
        if "items" in s.fields {
          FieldBelow(s, "items", rank, bound);
          SoundSuits(s.fields["items"], document, rank, bound);
        }
      case _ =>
    }
  }

  /**
   For every plain schema of a plain document without reference cycles there is an example, and it is valid if
   the schema is sound: fixed values agree with their type, required names are declared, and no positive
   minimum of an integer or of an item count has a fraction.
   */
  lemma SoundSchemasGiveValidExamples(s: Json, document: Json, rank: Ranks, bound: nat)
    requires Acyclic(document, rank) && PlainDocument(document, rank) && Plain(s) && Below(s, rank, bound)
    ensures ExampleOf(s, document).Ok?
    ensures Sound(s, document, rank, bound) ==> Valid(ExampleOf(s, document).value, s, document, rank, bound)
  {
    AllConform(s, document, {}, rank, bound, Refs(s) + Refs(document));
    SoundSuits(s, document, rank, bound);
  }

  /** The exact condition, for every plain schema without reference cycles, unions included. */
  lemma ValidIffSuits(s: Json, document: Json, rank: Ranks, bound: nat)
    requires Acyclic(document, rank) && PlainDocument(document, rank) && Plain(s) && Below(s, rank, bound)
    ensures ExampleOf(s, document).Ok?
    ensures Valid(ExampleOf(s, document).value, s, document, rank, bound) <==> Suits(s, document, rank, bound)
  {
    AllConform(s, document, {}, rank, bound, Refs(s) + Refs(document));
  }

  /** Without unions soundness itself is exact. */
  lemma ValidIffSound(s: Json, document: Json, rank: Ranks, bound: nat)
    requires Acyclic(document, rank) && PlainDocument(document, rank) && Plain(s) && Below(s, rank, bound)
    requires Unionless(s, document, rank, bound)
    ensures ExampleOf(s, document).Ok?
    ensures Valid(ExampleOf(s, document).value, s, document, rank, bound) <==> Sound(s, document, rank, bound)
  {
    AllConform(s, document, {}, rank, bound, Refs(s) + Refs(document));
    SoundSuits(s, document, rank, bound);
  }

  /** An integer with a fractional positive minimum, whatever it is, gets an example that is too small. */
  lemma FractionalMinimumFails(m: real, document: Json)
    requires m > 0.0 && !Integral(m)
    ensures var s := Obj(map["type" := Str("integer"), "minimum" := Num(m)]);
            ExampleOf(s, document) == Ok(Num(m.Floor as real)) && !AssertionsHold(Num(m.Floor as real), s.fields)
  {
    var s := Obj(map["type" := Str("integer"), "minimum" := Num(m)]);
    var refs := Refs(s) + Refs(document);
    assert Refs(s) <= refs && Refs(document) <= refs;
    assert RefOf(s.fields).None? && Direct(s.fields).None? && Alternatives(s.fields).None? && "allOf" !in s.fields;
    assert ExampleOf(s, document) == Example(s, document, {}, refs) == Typed(s, document, {}, refs) == Scalar(s.fields);
  }

  /** A required name that is not declared is left out of the example, which is then invalid. */
  lemma UndeclaredRequiredFails(document: Json, name: string)
    ensures var s := Obj(map["type" := Str("object"), "required" := Arr([Str(name)])]);
            ExampleOf(s, document) == Ok(Obj(map[])) && !AssertionsHold(Obj(map[]), s.fields)
  {
    var s := Obj(map["type" := Str("object"), "required" := Arr([Str(name)])]);
    var refs := Refs(s) + Refs(document);
    assert Refs(s) <= refs && Refs(document) <= refs;
    assert RefOf(s.fields).None? && Direct(s.fields).None? && Alternatives(s.fields).None? && "allOf" !in s.fields;
    assert Properties(s.fields) == Obj(map[]);
    assert Hashable(s.fields["required"].items[0]);
    assert Wanted(s.fields).Some? && Wanted(s.fields).value == {};
    assert ExampleOf(s, document) == Example(s, document, {}, refs) == Typed(s, document, {}, refs);
    assert s.fields["required"].items[0].s == name;
  }
}
