/**
 The examples of schemas, keyword by keyword, for every schema in every document: what is supplied, what is
 chosen, what is merged and what is made up.
 */
module ExampleLaws {
  import opened Wrappers
  import opened Json
  import opened ExampleGenerator

  /** An object schema that is no reference. */
  predicate Open(s: Json) {
    s.Obj? && ("$ref" in s.fields ==> !s.fields["$ref"].Str?)
  }

  // ---- References ----

  function Slashed(parts: seq<string>): string
    requires parts != []
  {
    if |parts| == 1 then parts[0] else parts[0] + "/" + Slashed(parts[1..])
  }

  lemma {:induction false} SplitsBack(part: string, rest: string)
    requires '/' !in part
    ensures Split(part) == [part] && Split(part + "/" + rest) == [part] + Split(rest)
  {
    if part == "" {
      assert (part + "/" + rest)[1..] == rest;
    } else {
      assert (part + "/" + rest)[1..] == part[1..] + "/" + rest;
      assert part == [part[0]] + part[1..];
      SplitsBack(part[1..], rest);
      assert ([part[1..]] + Split(rest))[1..] == Split(rest);
    }
  }

  lemma {:induction false} SlashedSplits(parts: seq<string>)
    requires parts != [] && forall i :: 0 <= i < |parts| ==> '/' !in parts[i]
    ensures Split(Slashed(parts)) == parts
    decreases |parts|
  {
    if |parts| == 1 {
      SplitsBack(parts[0], "");
    } else {
      SlashedSplits(parts[1..]);
      SplitsBack(parts[0], Slashed(parts[1..]));
    }
  }

  /** Each node on the way is an object that has the next name. */
  ghost predicate Leads(document: Json, parts: seq<string>, nodes: seq<Json>) {
    && |nodes| == |parts| + 1 && nodes[0] == document
    && forall i :: 0 <= i < |parts| ==>
                     nodes[i].Obj? && parts[i] in nodes[i].fields && nodes[i + 1] == nodes[i].fields[parts[i]]
  }

  lemma {:induction false} WalkLeads(node: Json, parts: seq<string>, nodes: seq<Json>)
    requires Leads(node, parts, nodes)
    ensures Walk(node, parts) == Some(nodes[|parts|])
    decreases |parts|
  {
    if parts != [] {
      WalkLeads(nodes[1], parts[1..], nodes[1..]);
    }
  }

  lemma {:induction false} WalkIsLed(node: Json, parts: seq<string>) returns (nodes: seq<Json>)
    requires Walk(node, parts).Some?
    ensures Leads(node, parts, nodes)
    decreases |parts|
  {
    if parts == [] {
      nodes := [node];
    } else {
      nodes := WalkIsLed(node.fields[parts[0]], parts[1..]);
      nodes := [node] + nodes;
    }
  }

  /** A reference of names between slashes resolves if and only if the names lead somewhere, and to that. */
  lemma ReferencesLead(document: Json, parts: seq<string>, target: Json)
    requires parts != [] && forall i :: 0 <= i < |parts| ==> '/' !in parts[i]
    ensures Resolve("#/" + Slashed(parts), document) == Some(target)
            <==> exists nodes :: Leads(document, parts, nodes) && nodes[|parts|] == target
  {
    var ref := "#/" + Slashed(parts);
    assert ref[2..] == Slashed(parts);
    SlashedSplits(parts);
    if Walk(document, parts).Some? {
      var nodes := WalkIsLed(document, parts);
      WalkLeads(document, parts, nodes);
    }
    forall nodes | Leads(document, parts, nodes) ensures Walk(document, parts) == Some(nodes[|parts|]) {
      WalkLeads(document, parts, nodes);
    }
  }

  /**
   A reference comes to null where it was followed already, raises where it leads nowhere, and else is its
   target's.
   */
  lemma ReferenceIsFollowed(s: Json, r: string, document: Json, seen: set<string>, refs: set<string>)
    requires Refs(s) <= refs && Refs(document) <= refs && s.Obj? && Get(s.fields, "$ref") == Some(Str(r))
    ensures Resolve(r, document).Some? ==> Refs(Resolve(r, document).value) <= refs
    ensures Example(s, document, seen, refs)
            == if r in seen then Ok(Null) else if Resolve(r, document).None? then Raised
               else Example(Resolve(r, document).value, document, seen + {r}, refs)
  {
    if Resolve(r, document).Some? {
      WalkStaysInside(document, Split(RemovePrefix(r, "#/")));
    }
    if r !in seen && Resolve(r, document).Some? {
      OneFewerLeft(refs, seen, r);
    }
  }

  // ---- Supplied values ----

  /** The first example, before the example, before the constant, before the first of the enumeration. */
  lemma SuppliedIsGiven(s: Json, document: Json, seen: set<string>, refs: set<string>)
    requires Refs(s) <= refs && Refs(document) <= refs && Open(s)
    ensures var listed := "examples" in s.fields && s.fields["examples"].Arr? && |s.fields["examples"].items| > 0;
            && (listed ==> Example(s, document, seen, refs) == Ok(s.fields["examples"].items[0]))
            && (!listed && "example" in s.fields ==> Example(s, document, seen, refs) == Ok(s.fields["example"]))
            && (!listed && "example" !in s.fields && "const" in s.fields ==>
                  Example(s, document, seen, refs) == Ok(s.fields["const"]))
            && (!listed && "example" !in s.fields && "const" !in s.fields && HasList(s, "enum") ==>
                  s.fields["enum"].items != [] ==> Example(s, document, seen, refs) == Ok(s.fields["enum"].items[0]))
  {
  }

  /** Nothing supplies a value. */
  predicate Unsupplied(s: Json) {
    && Open(s) && "example" !in s.fields && "const" !in s.fields
    && ("examples" in s.fields && s.fields["examples"].Arr? ==> s.fields["examples"].items == [])
    && ("enum" in s.fields && s.fields["enum"].Arr? ==> s.fields["enum"].items == [])
  }

  // ---- Alternatives ----

  predicate SaysNull(choice: Json) {
    choice.Obj? && "type" in choice.fields && choice.fields["type"] == Str("null")
  }

  lemma {:induction false} FirstNotNullIs(choices: seq<Json>, otherwise: Json, i: nat)
    requires i < |choices| && !SaysNull(choices[i]) && forall j :: 0 <= j < i ==> SaysNull(choices[j])
    ensures FirstNotNull(choices, otherwise) == if choices[i].Obj? then Some(choices[i]) else None
    decreases |choices|
  {
    if i > 0 {
      assert SaysNull(choices[0]);
      FirstNotNullIs(choices[1..], otherwise, i - 1);
    }
  }

  lemma {:induction false} AllSayNull(choices: seq<Json>, otherwise: Json)
    requires forall j :: 0 <= j < |choices| ==> SaysNull(choices[j])
    ensures FirstNotNull(choices, otherwise) == Some(otherwise)
    decreases |choices|
  {
    if choices != [] {
      assert SaysNull(choices[0]);
      AllSayNull(choices[1..], otherwise);
    }
  }

  predicate HasList(s: Json, key: string) {
    s.Obj? && key in s.fields && s.fields[key].Arr?
  }

  /** The alternatives of `oneOf`, or else of `anyOf`: the example of the first that is not just null. */
  lemma FirstAlternativeIsTaken(s: Json, key: string, i: nat, document: Json, seen: set<string>, refs: set<string>)
    requires Refs(s) <= refs && Refs(document) <= refs && Unsupplied(s) && HasList(s, key)
    requires key == "oneOf" || (key == "anyOf" && !HasList(s, "oneOf"))
    requires i < |s.fields[key].items| && !SaysNull(s.fields[key].items[i])
    requires forall j :: 0 <= j < i ==> SaysNull(s.fields[key].items[j])
    ensures Refs(s.fields[key].items[i]) <= refs
    ensures Example(s, document, seen, refs) == Example(s.fields[key].items[i], document, seen, refs)
  {
    PartInside(s, key, i);
    FirstNotNullIs(s.fields[key].items, s.fields[key].items[0], i);
    assert Alternatives(s.fields) == Some(s.fields[key].items);
  }

  /** Of alternatives that are all just null the first is taken; where there is none, it raises. */
  lemma NullAlternatives(s: Json, key: string, document: Json, seen: set<string>, refs: set<string>)
    requires Refs(s) <= refs && Refs(document) <= refs && Unsupplied(s) && HasList(s, key)
    requires key == "oneOf" || (key == "anyOf" && !HasList(s, "oneOf"))
    requires forall j :: 0 <= j < |s.fields[key].items| ==> SaysNull(s.fields[key].items[j])
    ensures s.fields[key].items == [] ==> Example(s, document, seen, refs) == Raised
    ensures s.fields[key].items != [] ==>
              && Refs(s.fields[key].items[0]) <= refs
              && Example(s, document, seen, refs) == Example(s.fields[key].items[0], document, seen, refs)
  {
    assert Alternatives(s.fields) == Some(s.fields[key].items);
    if s.fields[key].items != [] {
      PartInside(s, key, 0);
      AllSayNull(s.fields[key].items, s.fields[key].items[0]);
    }
  }

  // ---- Merged parts ----

  /** The example of one part of an `allOf`. */
  ghost function Part(s: Json, i: nat, document: Json, seen: set<string>, refs: set<string>): Result
    requires Refs(s) <= refs && Refs(document) <= refs && HasList(s, "allOf") && i < |s.fields["allOf"].items|
  {
    PartInside(s, "allOf", i);
    Example(s.fields["allOf"].items[i], document, seen, refs)
  }

  ghost predicate PartHas(s: Json, i: nat, k: string, document: Json, seen: set<string>, refs: set<string>)
    requires Refs(s) <= refs && Refs(document) <= refs && HasList(s, "allOf") && i < |s.fields["allOf"].items|
  {
    var part := Part(s, i, document, seen, refs);
    part.Ok? && part.value.Obj? && k in part.value.fields
  }

  /** No later part has the member. */
  ghost predicate LastWith(s: Json, i: nat, k: string, document: Json, seen: set<string>, refs: set<string>)
    requires Refs(s) <= refs && Refs(document) <= refs && HasList(s, "allOf") && i < |s.fields["allOf"].items|
  {
    && PartHas(s, i, k, document, seen, refs)
    && forall j: nat :: i < j < |s.fields["allOf"].items| ==> !PartHas(s, j, k, document, seen, refs)
  }

  ghost predicate NoneHas(s: Json, i: nat, k: string, document: Json, seen: set<string>, refs: set<string>)
    requires Refs(s) <= refs && Refs(document) <= refs && HasList(s, "allOf")
  {
    forall j: nat :: i <= j < |s.fields["allOf"].items| ==> !PartHas(s, j, k, document, seen, refs)
  }

  lemma {:induction false} MergeIs(s: Json, i: nat, merged: map<string, Json>, document: Json, seen: set<string>,
                                   refs: set<string>, k: string)
    requires Refs(s) <= refs && Refs(document) <= refs && HasList(s, "allOf") && i <= |s.fields["allOf"].items|
    ensures var r := Merge(s, i, merged, document, seen, refs);
            && (r.Ok? <==> forall j: nat :: i <= j < |s.fields["allOf"].items| ==> Part(s, j, document, seen, refs).Ok?)
            && (r.Ok? ==> r.value.Obj?)
            && (r.Ok? ==>
                  forall j: nat :: i <= j < |s.fields["allOf"].items| && LastWith(s, j, k, document, seen, refs) ==>
                                     && k in r.value.fields
                                     && r.value.fields[k] == Part(s, j, document, seen, refs).value.fields[k])
            && (r.Ok? && NoneHas(s, i, k, document, seen, refs) ==>
                  (k in r.value.fields <==> k in merged) && (k in merged ==> r.value.fields[k] == merged[k]))
    decreases |s.fields["allOf"].items| - i
  {
    if i < |s.fields["allOf"].items| {
      PartInside(s, "allOf", i);
      var part := Part(s, i, document, seen, refs);
      if part.Ok? {
        var next := if part.value.Obj? then merged + part.value.fields else merged;
        MergeIs(s, i + 1, next, document, seen, refs, k);
        assert PartHas(s, i, k, document, seen, refs) ==> k in next && next[k] == part.value.fields[k];
        assert !PartHas(s, i, k, document, seen, refs) ==>
                 (k in next <==> k in merged) && (k in merged ==> next[k] == merged[k]);
      }
    }
  }

  lemma {:induction false} SomeLast(s: Json, i: nat, k: string, document: Json, seen: set<string>, refs: set<string>)
    returns (last: nat)
    requires Refs(s) <= refs && Refs(document) <= refs && HasList(s, "allOf") && i < |s.fields["allOf"].items|
    requires PartHas(s, i, k, document, seen, refs)
    ensures i <= last < |s.fields["allOf"].items| && LastWith(s, last, k, document, seen, refs)
    decreases |s.fields["allOf"].items| - i
  {
    if j: nat :| i < j < |s.fields["allOf"].items| && PartHas(s, j, k, document, seen, refs) {
      last := SomeLast(s, j, k, document, seen, refs);
    } else {
      last := i;
    }
  }

  /**
   The parts of an `allOf` are merged: it raises if and only if a part does, and otherwise has exactly the members
   that the parts' objects have, each as the last part that has it.
   */
  lemma MergeTakesTheLast(s: Json, document: Json, seen: set<string>, refs: set<string>, k: string)
    requires Refs(s) <= refs && Refs(document) <= refs && Unsupplied(s) && HasList(s, "allOf")
    requires !HasList(s, "oneOf") && !HasList(s, "anyOf")
    ensures var r, n := Example(s, document, seen, refs), |s.fields["allOf"].items|;
            && (r == Raised <==> exists j: nat :: j < n && Part(s, j, document, seen, refs) == Raised)
            && (r.Ok? ==>
                  && r.value.Obj?
                  && (k in r.value.fields <==> exists j: nat :: j < n && PartHas(s, j, k, document, seen, refs))
                  && forall j: nat :: j < n && LastWith(s, j, k, document, seen, refs) ==>
                                        r.value.fields[k] == Part(s, j, document, seen, refs).value.fields[k])
  {
    assert Example(s, document, seen, refs) == Merge(s, 0, map[], document, seen, refs);
    MergeIs(s, 0, map[], document, seen, refs, k);
    if j: nat :| j < |s.fields["allOf"].items| && PartHas(s, j, k, document, seen, refs) {
      var last := SomeLast(s, j, k, document, seen, refs);
    }
  }

  // ---- Made-up values ----

  /** No keyword but those of the types decides. */
  predicate Typical(s: Json) {
    Unsupplied(s) && !HasList(s, "oneOf") && !HasList(s, "anyOf") && !HasList(s, "allOf")
  }

  lemma TypicalIsTyped(s: Json, document: Json, seen: set<string>, refs: set<string>)
    requires Refs(s) <= refs && Refs(document) <= refs && Typical(s)
    ensures Example(s, document, seen, refs) == Typed(s, document, seen, refs)
  {
  }

  predicate IsType(s: Json, t: string) {
    Typical(s) && "type" in s.fields && s.fields["type"] == Str(t)
  }

  ghost function Declared(s: Json, k: string, document: Json, seen: set<string>, refs: set<string>): Result
    requires Refs(s) <= refs && Refs(document) <= refs
    requires s.Obj? && "properties" in s.fields && s.fields["properties"].Obj?
    requires k in s.fields["properties"].fields
  {
    PropertyInside(s, "properties", k);
    Example(s.fields["properties"].fields[k], document, seen, refs)
  }

  predicate Asked(s: Json, k: string)
    requires s.Obj?
  {
    "required" in s.fields && s.fields["required"].Arr? ==> Str(k) in s.fields["required"].items
  }

  /**
   An object with properties gets exactly the required ones that are declared, or all where nothing is required, each
   with its own example; it raises if and only if one of those does.
   */
  lemma ObjectGetsWhatIsRequired(s: Json, document: Json, seen: set<string>, refs: set<string>)
    requires Refs(s) <= refs && Refs(document) <= refs && Typical(s)
    requires "properties" in s.fields && s.fields["properties"].Obj?
    requires "required" in s.fields ==>
               s.fields["required"].Arr? && forall i :: 0 <= i < |s.fields["required"].items| ==>
                                                         s.fields["required"].items[i].Str?
    ensures var r, properties := Example(s, document, seen, refs), s.fields["properties"].fields;
            && (r == Raised
                <==> exists k :: k in properties && Asked(s, k) && Declared(s, k, document, seen, refs) == Raised)
            && (r.Ok? ==>
                  && r.value.Obj?
                  && forall k :: k in r.value.fields <==> k in properties && Asked(s, k))
            && (r.Ok? ==> forall k :: k in properties && Asked(s, k) ==>
                                        Ok(r.value.fields[k]) == Declared(s, k, document, seen, refs))
  {
    TypicalIsTyped(s, document, seen, refs);
    var properties := s.fields["properties"].fields;
    assert Wanted(s.fields).Some? && forall k :: k in Wanted(s.fields).value <==> k in properties && Asked(s, k);
    forall k | k in properties
      ensures Declared(s, k, document, seen, refs) == Property(s, k, document, seen, refs)
    {
      PropertyInside(s, "properties", k);
    }
  }

  /** An object without properties is empty. */
  lemma BareObjectIsEmpty(s: Json, document: Json, seen: set<string>, refs: set<string>)
    requires Refs(s) <= refs && Refs(document) <= refs && IsType(s, "object") && "properties" !in s.fields
    requires "required" in s.fields ==>
               s.fields["required"].Arr? && forall i :: 0 <= i < |s.fields["required"].items| ==>
                                                         s.fields["required"].items[i].Str?
    ensures Example(s, document, seen, refs) == Ok(Obj(map[]))
  {
    TypicalIsTyped(s, document, seen, refs);
    assert Properties(s.fields) == Obj(map[]);
    assert Wanted(s.fields).Some? && Wanted(s.fields).value == {};
  }

  /** An array has as many items as the whole part of its minimum, or none, each the example of its items. */
  lemma ArrayRepeatsItsItem(s: Json, m: real, document: Json, seen: set<string>, refs: set<string>)
    requires Refs(s) <= refs && Refs(document) <= refs && IsType(s, "array") && "properties" !in s.fields
    requires if "minItems" in s.fields then s.fields["minItems"] == Num(m) else m == 0.0
    ensures "items" in s.fields ==> Refs(s.fields["items"]) <= refs
    ensures var r := Example(s, document, seen, refs);
            if m < 1.0 then r == Ok(Arr([]))
            else if "items" !in s.fields then
              r.Ok? && r.value.Arr? && |r.value.items| == m.Floor
              && forall i :: 0 <= i < m.Floor ==> r.value.items[i] == Null
            else
              var item := Example(s.fields["items"], document, seen, refs);
              && (r == Raised <==> item == Raised)
              && (r.Ok? ==> r.value.Arr? && |r.value.items| == m.Floor
                            && forall i :: 0 <= i < m.Floor ==> Ok(r.value.items[i]) == item)
  {
    TypicalIsTyped(s, document, seen, refs);
    if "items" in s.fields {
      FieldInside(s, "items");
    }
  }

  /** Text: the default, or the made-up text of its format. */
  lemma TextIs(s: Json, document: Json, seen: set<string>, refs: set<string>)
    requires Refs(s) <= refs && Refs(document) <= refs && IsType(s, "string") && "properties" !in s.fields
    requires "format" in s.fields ==> s.fields["format"].Str?
    ensures var format := if "format" in s.fields then s.fields["format"].s else "";
            Example(s, document, seen, refs)
            == if "default" in s.fields then Ok(s.fields["default"]) else
               match format
               case "date" => Ok(Str("2026-09-19"))
               case "date-time" => Ok(Str("2026-09-19T09:00:00Z"))
               case "uuid" => Ok(Str("018f0000-0000-7000-8000-000000000001"))
               case "uri" => Ok(Str("https://synthetic.example/resource"))
               case _ => Ok(Str("synthetic-example"))
  {
    TypicalIsTyped(s, document, seen, refs);
  }

  /**
   Numbers are their minimum or zero, integers without its fraction; a boolean is false unless its default is
   true.
   */
  lemma NumbersAre(s: Json, document: Json, seen: set<string>, refs: set<string>)
    requires Refs(s) <= refs && Refs(document) <= refs && Typical(s) && "properties" !in s.fields
    ensures IsType(s, "number") && "minimum" !in s.fields ==> Example(s, document, seen, refs) == Ok(Num(0.0))
    ensures IsType(s, "integer") && "minimum" !in s.fields ==> Example(s, document, seen, refs) == Ok(Num(0.0))
    ensures IsType(s, "number") && "minimum" in s.fields && s.fields["minimum"].Num? ==>
              Example(s, document, seen, refs) == Ok(s.fields["minimum"])
    ensures IsType(s, "integer") && "minimum" in s.fields && s.fields["minimum"].Num? ==>
              var r, m := Example(s, document, seen, refs), s.fields["minimum"].n;
              r.Ok? && r.value.Num? && Integral(r.value.n)
              && if m >= 0.0 then r.value.n <= m < r.value.n + 1.0 else r.value.n - 1.0 < m <= r.value.n
    ensures IsType(s, "boolean") && "default" !in s.fields ==> Example(s, document, seen, refs) == Ok(Bool(false))
    ensures IsType(s, "boolean") && "default" in s.fields && s.fields["default"].Bool? ==>
              Example(s, document, seen, refs) == Ok(s.fields["default"])
    ensures "type" !in s.fields || s.fields["type"] == Str("null") || !s.fields["type"].Str? ==>
              Example(s, document, seen, refs) == Ok(Null)
  {
    TypicalIsTyped(s, document, seen, refs);
  }
}
