/**
 Contracts as their authors mean them, written out as documents: which of them the validator accepts.
 */
module ContractLaws {
  import opened Wrappers
  import opened Json
  import P = CachePolicyLaws
  import V = ContractValidator

  datatype Item = Item(value: string, meaning: string)

  datatype Vocabulary =
    | Classification(policy: string, items: seq<Item>)
    | States(policy: string, items: seq<Item>, initial: string, terminal: seq<string>, quiescent: Option<seq<string>>)

  datatype Transition = Transition(
    was: string, command: string, actors: seq<string>, next: string, audit: string, visibility: string)

  datatype Machine = Machine(failureCode: string, transitions: seq<Transition>)

  datatype Contract = Contract(
    actors: seq<string>, vocabularies: map<string, Vocabulary>, machines: map<string, Machine>)

  // ---- As documents ----

  function Strings(names: seq<string>): Json {
    Arr(seq(|names|, i requires 0 <= i < |names| => Str(names[i])))
  }

  function ItemDoc(item: Item): Json {
    Obj(map["value" := Str(item.value), "meaning" := Str(item.meaning)])
  }

  function ItemDocs(items: seq<Item>): seq<Json> {
    seq(|items|, i requires 0 <= i < |items| => ItemDoc(items[i]))
  }

  function VocabularyDoc(v: Vocabulary): Json {
    match v
    case Classification(policy, items) =>
      Obj(map["kind" := Str("classification"), "change_policy" := Str(policy), "values" := Arr(ItemDocs(items))])
    case States(policy, items, initial, terminal, quiescent) =>
      var fields := map[
        "kind" := Str("state"), "change_policy" := Str(policy), "values" := Arr(ItemDocs(items)),
        "initial_state" := Str(initial), "terminal_states" := Strings(terminal)];
      Obj(if quiescent.Some? then fields["quiescent_states" := Strings(quiescent.value)] else fields)
  }

  function TransitionDoc(t: Transition): Json {
    Obj(map["from" := Str(t.was), "command" := Str(t.command), "actors" := Strings(t.actors), "to" := Str(t.next),
            "audit_event" := Str(t.audit), "public_visibility" := Str(t.visibility)])
  }

  function TransitionDocs(ts: seq<Transition>): seq<Json> {
    seq(|ts|, i requires 0 <= i < |ts| => TransitionDoc(ts[i]))
  }

  function MachineDoc(m: Machine): Json {
    Obj(map["failure_code" := Str(m.failureCode), "transitions" := Arr(TransitionDocs(m.transitions))])
  }

  function VocabularyDocs(vocabularies: map<string, Vocabulary>): map<string, Json> {
    map n | n in vocabularies :: VocabularyDoc(vocabularies[n])
  }

  function MachineDocs(machines: map<string, Machine>): map<string, Json> {
    map n | n in machines :: MachineDoc(machines[n])
  }

  function Document(c: Contract): V.Fields {
    map["schema_version" := Num(1.0), "contract_id" := Str("shaidago-controlled-vocabulary"),
        "machine_value_pattern" := Str("^[a-z][a-z0-9]*(?:_[a-z0-9]+)*$"), "actors" := Strings(c.actors),
        "vocabularies" := Obj(VocabularyDocs(c.vocabularies)), "state_machines" := Obj(MachineDocs(c.machines))]
  }

  // ---- As their authors mean them ----

  predicate Word(s: string) {
    s != "" && forall c :: c in s ==> c in P.LOWER || c in "0123456789"
  }

  /** Words joined by single underscores, of which the first begins with a letter. */
  ghost predicate MachineName(s: string) {
    exists words: seq<string> :: NameOf(s, words)
  }

  ghost predicate NameOf(s: string, words: seq<string>) {
    && words != [] && (forall i :: 0 <= i < |words| ==> Word(words[i])) && words[0][0] in P.LOWER
    && s == Underscored(words)
  }

  function Underscored(words: seq<string>): string
    requires words != []
  {
    if |words| == 1 then words[0] else words[0] + "_" + Underscored(words[1..])
  }

  predicate SpaceChar(c: char) {
    c in {'\t', '\n', '\U{0B}', '\U{0C}', '\r', '\U{1C}', '\U{1D}', '\U{1E}', '\U{1F}', ' ', '\U{85}', '\U{A0}',
          '\U{1680}', '\U{2000}', '\U{2001}', '\U{2002}', '\U{2003}', '\U{2004}', '\U{2005}', '\U{2006}', '\U{2007}',
          '\U{2008}', '\U{2009}', '\U{200A}', '\U{2028}', '\U{2029}', '\U{202F}', '\U{205F}', '\U{3000}'}
  }

  predicate Says(meaning: string) {
    exists i :: 0 <= i < |meaning| && !SpaceChar(meaning[i])
  }

  predicate Different(names: seq<string>) {
    forall i, j :: 0 <= i < j < |names| ==> names[i] != names[j]
  }

  ghost predicate ItemFine(item: Item) {
    MachineName(item.value) && Says(item.meaning)
  }

  predicate HasValue(items: seq<Item>, name: string) {
    exists i :: 0 <= i < |items| && items[i].value == name
  }

  ghost predicate VocabularyFine(v: Vocabulary) {
    && v.policy != "" && v.items != []
    && (forall i :: 0 <= i < |v.items| ==> ItemFine(v.items[i]))
    && (forall i, j :: 0 <= i < j < |v.items| ==>
          v.items[i].value != v.items[j].value && v.items[i].meaning != v.items[j].meaning)
    && (v.States? ==>
          && HasValue(v.items, v.initial) && (forall i :: 0 <= i < |v.terminal| ==> HasValue(v.items, v.terminal[i]))
          && (v.quiescent.Some? ==>
                forall i :: 0 <= i < |v.quiescent.value| ==> HasValue(v.items, v.quiescent.value[i])))
  }

  ghost predicate TransitionFine(t: Transition, v: Vocabulary, actors: seq<string>)
    requires v.States?
  {
    && MachineName(t.was) && MachineName(t.command) && MachineName(t.next) && MachineName(t.audit)
    && MachineName(t.visibility)
    && HasValue(v.items, t.was) && HasValue(v.items, t.next) && t.was != t.next && t.was !in v.terminal
    && t.actors != [] && Different(t.actors) && forall i :: 0 <= i < |t.actors| ==> t.actors[i] in actors
  }

  predicate TakesPart(ts: seq<Transition>, state: string) {
    exists i :: 0 <= i < |ts| && (ts[i].was == state || ts[i].next == state)
  }

  ghost predicate MachineFine(m: Machine, v: Vocabulary, actors: seq<string>) {
    && v.States? && MachineName(m.failureCode) && m.transitions != []
    && (forall i :: 0 <= i < |m.transitions| ==> TransitionFine(m.transitions[i], v, actors))
    && (forall i, j :: 0 <= i < j < |m.transitions| ==>
          !(m.transitions[i].was == m.transitions[j].was && m.transitions[i].command == m.transitions[j].command))
    && forall i :: 0 <= i < |v.items| ==> TakesPart(m.transitions, v.items[i].value)
  }

  predicate CodesDiffer(machines: map<string, Machine>) {
    forall m, n :: m in machines && n in machines && m != n ==> machines[m].failureCode != machines[n].failureCode
  }

  ghost predicate ActorsFine(actors: seq<string>) {
    actors != [] && (forall i :: 0 <= i < |actors| ==> MachineName(actors[i])) && Different(actors)
  }

  ghost predicate VocabulariesFine(vocabularies: map<string, Vocabulary>) {
    forall n :: n in vocabularies ==> MachineName(n) && VocabularyFine(vocabularies[n])
  }

  ghost predicate MachinesFine(c: Contract) {
    && (forall n :: n in c.machines ==> n in c.vocabularies && MachineFine(c.machines[n], c.vocabularies[n], c.actors))
    && CodesDiffer(c.machines)
  }

  predicate Complete(c: Contract) {
    && c.vocabularies.Keys == {
      "project_category", "project_public_status", "information_class", "source_type", "source_review_state",
      "source_availability", "verification_state", "report_concern_category", "report_risk_level", "report_status",
      "evidence_sanitation_state", "malware_scan_state", "discovery_status", "discovered_source_disposition",
      "translation_status"}
    && c.machines.Keys == {
      "project_public_status", "source_review_state", "source_availability", "verification_state", "report_risk_level",
      "report_status", "evidence_sanitation_state", "malware_scan_state", "discovery_status",
      "discovered_source_disposition", "translation_status"}
  }

  /** The contract names its actors, has the fifteen vocabularies and the eleven machines, and each is in order. */
  ghost predicate ContractFine(c: Contract) {
    ActorsFine(c.actors) && Complete(c) && VocabulariesFine(c.vocabularies) && MachinesFine(c)
  }

  // ---- Names ----

  lemma LetterChar(c: char)
    ensures 'a' <= c <= 'z' <==> c in P.LOWER
    ensures V.Alphanumeric(c) <==> c in P.LOWER || c in "0123456789"
  {
    P.SlugChars(c);
    if 'a' <= c <= 'z' {
      P.Letter(c as int - 'a' as int);
    }
  }

  lemma WordChars(s: string)
    ensures Word(s) <==> s != "" && forall i :: 0 <= i < |s| ==> V.Alphanumeric(s[i])
  {
    forall i | 0 <= i < |s| ensures V.Alphanumeric(s[i]) <==> s[i] in P.LOWER || s[i] in "0123456789" {
      LetterChar(s[i]);
    }
    if Word(s) {
      forall i | 0 <= i < |s| ensures V.Alphanumeric(s[i]) {
        assert s[i] in s;
      }
    }
  }

  /** All but the first letter of the conditions on a name. */
  predicate Tail(s: string) {
    && s != "" && V.Alphanumeric(s[0]) && s[|s| - 1] != '_'
    && (forall i :: 0 <= i < |s| ==> V.Alphanumeric(s[i]) || s[i] == '_')
    && forall i :: 0 < i < |s| && s[i] == '_' ==> s[i - 1] != '_'
  }

  lemma {:induction false} JoinedIsTail(words: seq<string>)
    requires words != [] && forall i :: 0 <= i < |words| ==> Word(words[i])
    ensures Tail(Underscored(words)) && Underscored(words)[0] == words[0][0]
    decreases |words|
  {
    WordChars(words[0]);
    if |words| > 1 {
      JoinedIsTail(words[1..]);
      var rest, s := Underscored(words[1..]), Underscored(words);
      assert s == words[0] + "_" + rest;
      forall i | 0 <= i < |s| ensures V.Alphanumeric(s[i]) || s[i] == '_' {
        assert i > |words[0]| ==> s[i] == rest[i - |words[0]| - 1];
      }
      forall i | 0 < i < |s| && s[i] == '_' ensures s[i - 1] != '_' {
        if i > |words[0]| + 1 {
          assert s[i] == rest[i - |words[0]| - 1] && s[i - 1] == rest[i - |words[0]| - 2];
        }
      }
      assert s[|s| - 1] == rest[|rest| - 1];
    }
  }

  lemma {:induction false} FirstUnderscore(s: string, n: nat) returns (k: nat)
    requires n <= |s| && forall i :: 0 <= i < n ==> s[i] != '_'
    ensures n <= k <= |s| && (forall i :: 0 <= i < k ==> s[i] != '_') && (k < |s| ==> s[k] == '_')
    decreases |s| - n
  {
    if n < |s| && s[n] != '_' {
      k := FirstUnderscore(s, n + 1);
    } else {
      k := n;
    }
  }

  lemma {:induction false} TailIsJoined(s: string) returns (words: seq<string>)
    requires Tail(s)
    ensures words != [] && (forall i :: 0 <= i < |words| ==> Word(words[i])) && s == Underscored(words)
    decreases |s|
  {
    var k := FirstUnderscore(s, 0);
    var first := s[..k];
    WordChars(first);
    if k == |s| {
      words := [first];
    } else {
      var rest := s[k + 1..];
      assert k + 1 < |s| && s[k + 1] != '_';
      assert Tail(rest) by {
        assert rest[|rest| - 1] == s[|s| - 1];
      }
      var others := TailIsJoined(rest);
      words := [first] + others;
      assert words[1..] == others;
      assert s == first + "_" + rest;
    }
  }

  lemma NameIff(s: string)
    ensures V.IsMachineName(s) <==> MachineName(s)
  {
    if V.IsMachineName(s) {
      var words := TailIsJoined(s);
      JoinedIsTail(words);
      LetterChar(s[0]);
      assert NameOf(s, words);
    }
    forall words | NameOf(s, words) ensures V.IsMachineName(s) {
      JoinedIsTail(words);
      LetterChar(s[0]);
    }
  }

  lemma SaysIff(s: string)
    ensures V.NonBlank(Some(Str(s))) <==> Says(s)
  {
    forall c ensures V.IsSpace(c) <==> SpaceChar(c) {
    }
  }

  // ---- Vocabularies ----

  lemma StringsAre(names: seq<string>, known: set<string>)
    ensures V.NamesOnly(Strings(names), known) <==> forall i :: 0 <= i < |names| ==> names[i] in known
    ensures V.Distinct(Strings(names).items) <==> Different(names)
    ensures forall n :: n in V.Names(Strings(names).items) <==> n in names
    ensures Strings(names).items == [] <==> names == []
  {
    var items := Strings(names).items;
    assert |items| == |names| && forall i :: 0 <= i < |names| ==> items[i] == Str(names[i]);
    if V.Distinct(items) {
      forall i, j | 0 <= i < j < |names| ensures names[i] != names[j] {
        assert items[i] != items[j];
      }
    }
    forall n | n in names ensures n in V.Names(items) {
      var i :| 0 <= i < |names| && names[i] == n;
      assert items[i].Str? && items[i].s == n;
    }
    if V.NamesOnly(Strings(names), known) {
      forall i | 0 <= i < |names| ensures names[i] in known {
        assert items[i].s in known;
      }
    }
  }

  lemma ItemIff(item: Item)
    ensures V.ItemOk(ItemDoc(item)) <==> ItemFine(item)
    ensures V.ItemOk(ItemDoc(item)) ==>
              V.ValueOf(ItemDoc(item)) == item.value && V.MeaningOf(ItemDoc(item)) == item.meaning
  {
    NameIff(item.value);
    SaysIff(item.meaning);
  }

  ghost predicate ItemsFine(items: seq<Item>) {
    && (forall i :: 0 <= i < |items| ==> ItemFine(items[i]))
    && forall i, j :: 0 <= i < j < |items| ==> items[i].value != items[j].value && items[i].meaning != items[j].meaning
  }

  lemma ItemsIff(items: seq<Item>)
    ensures V.ItemsOk(ItemDocs(items)) <==> ItemsFine(items)
    ensures ItemsFine(items) ==> forall n :: n in V.Values(ItemDocs(items)) <==> HasValue(items, n)
  {
    var docs := ItemDocs(items);
    forall i | 0 <= i < |items|
      ensures docs[i] == ItemDoc(items[i]) && (V.ItemOk(docs[i]) <==> ItemFine(items[i]))
      ensures V.ItemOk(docs[i]) ==> V.ValueOf(docs[i]) == items[i].value && V.MeaningOf(docs[i]) == items[i].meaning
    {
      ItemIff(items[i]);
    }
    if V.ItemsOk(docs) {
      forall i, j | 0 <= i < j < |items|
        ensures items[i].value != items[j].value && items[i].meaning != items[j].meaning
      {
        assert V.ValueOf(docs[i]) != V.ValueOf(docs[j]) && V.MeaningOf(docs[i]) != V.MeaningOf(docs[j]);
      }
    }
    if ItemsFine(items) {
      forall n | HasValue(items, n) ensures n in V.Values(docs) {
        var i :| 0 <= i < |items| && items[i].value == n;
        assert V.ItemOk(docs[i]) && V.ValueOf(docs[i]) == n;
      }
    }
  }

  lemma VocabularyFields(v: Vocabulary)
    ensures var fields := VocabularyDoc(v).fields;
            && "kind" in fields && fields["kind"] == Str(if v.States? then "state" else "classification")
            && "change_policy" in fields && fields["change_policy"] == Str(v.policy)
            && "values" in fields && fields["values"] == Arr(ItemDocs(v.items))
            && ("initial_state" in fields <==> v.States?) && ("terminal_states" in fields <==> v.States?)
            && (v.States? ==> fields["initial_state"] == Str(v.initial))
            && (v.States? ==> fields["terminal_states"] == Strings(v.terminal))
            && ("quiescent_states" in fields <==> v.States? && v.quiescent.Some?)
            && (v.States? && v.quiescent.Some? ==> fields["quiescent_states"] == Strings(v.quiescent.value))
    ensures ItemDocs(v.items) == [] <==> v.items == []
  {
  }

  predicate StatesFine(v: Vocabulary, states: set<string>) {
    v.States? ==>
      && v.initial in states && (forall i :: 0 <= i < |v.terminal| ==> v.terminal[i] in states)
      && (v.quiescent.Some? ==> forall i :: 0 <= i < |v.quiescent.value| ==> v.quiescent.value[i] in states)
  }

  lemma StatesIff(v: Vocabulary, states: set<string>)
    ensures V.StatesOk(VocabularyDoc(v).fields, states) <==> StatesFine(v, states)
  {
    VocabularyFields(v);
    if v.States? {
      StringsAre(v.terminal, states);
      if v.quiescent.Some? {
        StringsAre(v.quiescent.value, states);
      }
    }
  }

  lemma VocabularyIff(name: string, v: Vocabulary)
    requires MachineName(name)
    ensures V.VocabularyOk(name, VocabularyDoc(v)) <==> VocabularyFine(v)
    ensures VocabularyFine(v) ==> forall n :: n in V.DeclaredStates(VocabularyDoc(v)) <==> HasValue(v.items, n)
    ensures V.IsState(VocabularyDoc(v)) <==> v.States?
    ensures v.States? ==> forall n :: n in V.TerminalStates(VocabularyDoc(v)) <==> n in v.terminal
  {
    assert V.IsMachineName(name) by {
      NameIff(name);
    }
    VocabularyFields(v);
    ItemsIff(v.items);
    var doc := VocabularyDoc(v);
    StatesIff(v, V.DeclaredStates(doc));
    assert V.DeclaredStates(doc) == V.Values(ItemDocs(v.items));
    VocabularyFineIff(v, V.DeclaredStates(doc));
    if v.States? {
      StringsAre(v.terminal, {});
    }
  }

  lemma VocabularyFineIff(v: Vocabulary, states: set<string>)
    requires ItemsFine(v.items) ==> forall n :: n in states <==> HasValue(v.items, n)
    ensures VocabularyFine(v) <==> v.policy != "" && v.items != [] && ItemsFine(v.items) && StatesFine(v, states)
  {
  }

  // ---- Machines ----

  lemma TransitionIff(t: Transition, v: Vocabulary, states: set<string>, terminal: set<string>, actors: seq<string>,
                      known: set<string>)
    requires v.States? && (forall n :: n in states <==> HasValue(v.items, n))
    requires forall n :: n in terminal <==> n in v.terminal
    requires forall n :: n in known <==> n in actors
    ensures V.TransitionOk(TransitionDoc(t), states, terminal, known) <==> TransitionFine(t, v, actors)
    ensures V.HasEnds(TransitionDoc(t)) && V.KeyOf(TransitionDoc(t)) == (t.was, t.command)
    ensures TransitionDoc(t).fields["from"].s == t.was && TransitionDoc(t).fields["to"].s == t.next
  {
    TransitionNames(t);
    StringsAre(t.actors, known);
    TransitionFields(t);
  }

  lemma TransitionFields(t: Transition)
    ensures var fields := TransitionDoc(t).fields;
            && fields.Keys == {"from", "command", "actors", "to", "audit_event", "public_visibility"}
            && fields["from"] == Str(t.was) && fields["command"] == Str(t.command) && fields["to"] == Str(t.next)
            && fields["audit_event"] == Str(t.audit) && fields["public_visibility"] == Str(t.visibility)
            && fields["actors"] == Strings(t.actors)
  {
  }

  lemma TransitionNames(t: Transition)
    ensures var fields := TransitionDoc(t).fields;
            (forall k :: k in fields && k != "actors" ==> V.MachineValue(Some(fields[k])))
            <==> MachineName(t.was) && MachineName(t.command) && MachineName(t.next) && MachineName(t.audit)
                 && MachineName(t.visibility)
  {
    TransitionFields(t);
    NameIff(t.was);
    NameIff(t.command);
    NameIff(t.next);
    NameIff(t.audit);
    NameIff(t.visibility);
  }

  ghost predicate TransitionsFine(ts: seq<Transition>, v: Vocabulary, actors: seq<string>)
    requires v.States?
  {
    && (forall i :: 0 <= i < |ts| ==> TransitionFine(ts[i], v, actors))
    && forall i, j :: 0 <= i < j < |ts| ==> !(ts[i].was == ts[j].was && ts[i].command == ts[j].command)
  }

  lemma TransitionsIff(ts: seq<Transition>, v: Vocabulary, states: set<string>, terminal: set<string>,
                       actors: seq<string>, known: set<string>)
    requires v.States? && (forall n :: n in states <==> HasValue(v.items, n))
    requires forall n :: n in terminal <==> n in v.terminal
    requires forall n :: n in known <==> n in actors
    ensures V.TransitionsOk(TransitionDocs(ts), states, terminal, known) <==> TransitionsFine(ts, v, actors)
  {
    var docs := TransitionDocs(ts);
    forall i | 0 <= i < |ts|
      ensures docs[i] == TransitionDoc(ts[i])
      ensures V.TransitionOk(docs[i], states, terminal, known) <==> TransitionFine(ts[i], v, actors)
      ensures V.HasEnds(docs[i]) && V.KeyOf(docs[i]) == (ts[i].was, ts[i].command)
    {
      TransitionIff(ts[i], v, states, terminal, actors, known);
    }
    if V.TransitionsOk(docs, states, terminal, known) {
      forall i, j | 0 <= i < j < |ts| ensures !(ts[i].was == ts[j].was && ts[i].command == ts[j].command) {
        assert V.KeyOf(docs[i]) != V.KeyOf(docs[j]);
      }
    }
  }

  lemma ReferencedAre(ts: seq<Transition>)
    ensures forall n :: n in V.Referenced(TransitionDocs(ts)) <==> TakesPart(ts, n)
  {
    var docs := TransitionDocs(ts);
    forall i | 0 <= i < |ts|
      ensures docs[i] == TransitionDoc(ts[i]) && V.HasEnds(docs[i])
      ensures docs[i].fields["from"].s == ts[i].was && docs[i].fields["to"].s == ts[i].next
    {
      TransitionFields(ts[i]);
    }
    forall n | TakesPart(ts, n) ensures n in V.Referenced(docs) {
      var i :| 0 <= i < |ts| && (ts[i].was == n || ts[i].next == n);
      assert V.HasEnds(docs[i]) && (docs[i].fields["from"].s == n || docs[i].fields["to"].s == n);
    }
  }

  lemma MachineOkIs(m: Machine, definition: Json, known: set<string>)
    ensures var docs := TransitionDocs(m.transitions);
            V.MachineOk(MachineDoc(m), definition, known)
            <==> && MachineName(m.failureCode) && m.transitions != []
                 && V.TransitionsOk(docs, V.DeclaredStates(definition), V.TerminalStates(definition), known)
                 && V.Referenced(docs) == V.DeclaredStates(definition)
    ensures V.CodeOf(MachineDoc(m)) == Some(Str(m.failureCode))
  {
    NameIff(m.failureCode);
    assert MachineDoc(m).fields["transitions"] == Arr(TransitionDocs(m.transitions));
    assert TransitionDocs(m.transitions) == [] <==> m.transitions == [];
  }

  lemma StatesAre(v: Vocabulary)
    requires VocabularyFine(v) && v.States?
    ensures forall n :: n in V.DeclaredStates(VocabularyDoc(v)) <==> HasValue(v.items, n)
    ensures forall n :: n in V.TerminalStates(VocabularyDoc(v)) <==> n in v.terminal
  {
    NameIff("x");
    VocabularyIff("x", v);
  }

  lemma MachineIff(m: Machine, v: Vocabulary, actors: seq<string>, known: set<string>)
    requires VocabularyFine(v) && v.States? && forall n :: n in known <==> n in actors
    ensures V.MachineOk(MachineDoc(m), VocabularyDoc(v), known) <==> MachineFine(m, v, actors)
  {
    var states, terminal := V.DeclaredStates(VocabularyDoc(v)), V.TerminalStates(VocabularyDoc(v));
    StatesAre(v);
    TransitionsIff(m.transitions, v, states, terminal, actors, known);
    ReferencedAre(m.transitions);
    MachineOkIs(m, VocabularyDoc(v), known);
    if TransitionsFine(m.transitions, v, actors) {
      ReferencedIff(m, v, states, terminal, actors, known);
    }
    MachineFineIs(m, v, actors);
  }

  lemma MachineFineIs(m: Machine, v: Vocabulary, actors: seq<string>)
    requires v.States?
    ensures MachineFine(m, v, actors)
            <==> && MachineName(m.failureCode) && m.transitions != [] && TransitionsFine(m.transitions, v, actors)
                 && forall i :: 0 <= i < |v.items| ==> TakesPart(m.transitions, v.items[i].value)
  {
  }

  lemma ReferencedIff(m: Machine, v: Vocabulary, states: set<string>, terminal: set<string>, actors: seq<string>,
                      known: set<string>)
    requires v.States? && (forall n :: n in states <==> HasValue(v.items, n))
    requires forall n :: n in V.Referenced(TransitionDocs(m.transitions)) <==> TakesPart(m.transitions, n)
    requires TransitionsFine(m.transitions, v, actors)
    ensures V.Referenced(TransitionDocs(m.transitions)) == states
            <==> forall i :: 0 <= i < |v.items| ==> TakesPart(m.transitions, v.items[i].value)
  {
  }

  // ---- Whole contracts ----

  lemma ActorsIff(actors: seq<string>)
    ensures V.ActorsOk(Some(Strings(actors))) <==> ActorsFine(actors)
  {
    StringsAre(actors, {});
    var items := Strings(actors).items;
    forall i | 0 <= i < |actors| ensures V.MachineValue(Some(items[i])) <==> MachineName(actors[i]) {
      NameIff(actors[i]);
    }
  }

  lemma AllVocabulariesIff(vocabularies: map<string, Vocabulary>)
    ensures V.AllVocabulariesOk(VocabularyDocs(vocabularies)) <==> VocabulariesFine(vocabularies)
  {
    var docs := VocabularyDocs(vocabularies);
    forall n | n in vocabularies
      ensures docs[n] == VocabularyDoc(vocabularies[n])
      ensures V.VocabularyOk(n, docs[n]) <==> MachineName(n) && VocabularyFine(vocabularies[n])
    {
      NameIff(n);
      if MachineName(n) {
        VocabularyIff(n, vocabularies[n]);
      }
    }
  }

  lemma OneMachineIff(c: Contract, n: string, known: set<string>)
    requires n in c.machines && VocabulariesFine(c.vocabularies) && forall a :: a in known <==> a in c.actors
    ensures V.MachineFine(MachineDocs(c.machines), n, VocabularyDocs(c.vocabularies), known)
            <==> n in c.vocabularies && MachineFine(c.machines[n], c.vocabularies[n], c.actors)
  {
    MachineOkIs(c.machines[n], Null, known);
    if n in c.vocabularies {
      var v := c.vocabularies[n];
      VocabularyFields(v);
      if v.States? {
        MachineIff(c.machines[n], v, c.actors, known);
      }
    }
  }

  lemma CodesIff(machines: map<string, Machine>)
    ensures V.CodesDiffer(MachineDocs(machines), MachineDocs(machines).Keys) <==> CodesDiffer(machines)
  {
    var docs := MachineDocs(machines);
    assert docs.Keys == machines.Keys;
    forall n | n in machines ensures V.CodeOf(docs[n]) == Some(Str(machines[n].failureCode)) {
      MachineOkIs(machines[n], Null, {});
    }
  }

  lemma AllMachinesIff(c: Contract, known: set<string>)
    requires VocabulariesFine(c.vocabularies) && forall a :: a in known <==> a in c.actors
    ensures V.MachinesOk(MachineDocs(c.machines), VocabularyDocs(c.vocabularies), known) <==> MachinesFine(c)
  {
    var docs := MachineDocs(c.machines);
    assert docs.Keys == c.machines.Keys;
    CodesIff(c.machines);
    forall n | n in c.machines
      ensures V.MachineFine(docs, n, VocabularyDocs(c.vocabularies), known)
              <==> n in c.vocabularies && MachineFine(c.machines[n], c.vocabularies[n], c.actors)
    {
      OneMachineIff(c, n, known);
    }
  }

  lemma HeaderIff(c: Contract)
    ensures V.HeaderOk(Document(c)) <==> ActorsFine(c.actors)
  {
    ActorsIff(c.actors);
  }

  lemma SectionsIff(c: Contract)
    ensures var doc := Document(c);
            && "vocabularies" in doc && doc["vocabularies"] == Obj(VocabularyDocs(c.vocabularies))
            && "state_machines" in doc && doc["state_machines"] == Obj(MachineDocs(c.machines))
            && "actors" in doc && doc["actors"] == Strings(c.actors)
            && (Complete(c) <==> V.Section(doc, "vocabularies", V.REQUIRED_VOCABULARIES)
                                 && V.Section(doc, "state_machines", V.REQUIRED_STATE_MACHINES))
  {
    assert VocabularyDocs(c.vocabularies).Keys == c.vocabularies.Keys;
    assert MachineDocs(c.machines).Keys == c.machines.Keys;
  }

  lemma KnownActors(actors: seq<string>)
    ensures forall a :: a in V.Names(Strings(actors).items) <==> a in actors
  {
    StringsAre(actors, {});
  }

  /**
   A contract, written out, is well formed if and only if it is as its authors mean it; so the validator accepts every
   sound contract and no other.
   */
  lemma WellFormedIffFine(c: Contract)
    ensures V.WellFormed(Document(c)) <==> ContractFine(c)
  {
    HeaderIff(c);
    SectionsIff(c);
    AllVocabulariesIff(c.vocabularies);
    KnownActors(c.actors);
    if VocabulariesFine(c.vocabularies) {
      AllMachinesIff(c, V.Names(Strings(c.actors).items));
    }
  }
}
