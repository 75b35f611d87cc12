/** The checks on the controlled-vocabulary contract, and what they guarantee about its state machines. */
module ContractValidator {
  import opened Wrappers
  import opened Json

  type Fields = map<string, Json>

  const PATTERN := "^[a-z][a-z0-9]*(?:_[a-z0-9]+)*$"
  const REQUIRED_VOCABULARIES := {
    "project_category", "project_public_status", "information_class", "source_type", "source_review_state",
    "source_availability", "verification_state", "report_concern_category", "report_risk_level", "report_status",
    "evidence_sanitation_state", "malware_scan_state", "discovery_status", "discovered_source_disposition",
    "translation_status"}
  const REQUIRED_STATE_MACHINES := {
    "project_public_status", "source_review_state", "source_availability", "verification_state", "report_risk_level",
    "report_status", "evidence_sanitation_state", "malware_scan_state", "discovery_status",
    "discovered_source_disposition", "translation_status"}
  const TRANSITION_FIELDS := {"from", "command", "actors", "to", "audit_event", "public_visibility"}

  // ---- Values ----

  predicate Alphanumeric(c: char) {
    'a' <= c <= 'z' || '0' <= c <= '9'
  }

  /** A letter first, then letters, digits and single underscores, of which none comes last. */
  predicate IsMachineName(s: string) {
    && s != "" && 'a' <= s[0] <= 'z' && s[|s| - 1] != '_'
    && (forall i :: 0 <= i < |s| ==> Alphanumeric(s[i]) || s[i] == '_')
    && forall i :: 0 < i < |s| && s[i] == '_' ==> s[i - 1] != '_'
  }

  predicate MachineValue(v: Option<Json>) {
    v.Some? && v.value.Str? && IsMachineName(v.value.s)
  }

  /** `str.isspace` */
  predicate IsSpace(c: char) {
    || '\t' <= c <= '\r' || '\U{1C}' <= c <= ' ' || c == '\U{85}' || c == '\U{A0}' || c == '\U{1680}'
    || '\U{2000}' <= c <= '\U{200A}' || c in {'\U{2028}', '\U{2029}', '\U{202F}', '\U{205F}', '\U{3000}'}
  }

  predicate NonBlank(v: Option<Json>) {
    v.Some? && v.value.Str? && exists i :: 0 <= i < |v.value.s| && !IsSpace(v.value.s[i])
  }

  predicate NonEmpty(v: Option<Json>) {
    v.Some? && v.value.Str? && v.value.s != ""
  }

  /** `v == 1`, which in Python is also true of True. */
  predicate EqualsOne(v: Option<Json>) {
    v == Some(Num(1.0)) || v == Some(Bool(true))
  }

  /** `set(list) <= known`, for a list. */
  predicate NamesOnly(v: Json, known: set<string>) {
    v.Arr? && forall i :: 0 <= i < |v.items| ==> v.items[i].Str? && v.items[i].s in known
  }

  predicate Distinct(items: seq<Json>) {
    forall i, j :: 0 <= i < j < |items| ==> items[i] != items[j]
  }

  function Names(items: seq<Json>): set<string> {
    set i | 0 <= i < |items| && items[i].Str? :: items[i].s
  }

  // ---- Well-formed contracts ----

  predicate ActorsOk(actors: Option<Json>) {
    && actors.Some? && actors.value.Arr? && actors.value.items != []
    && (forall i :: 0 <= i < |actors.value.items| ==> MachineValue(Some(actors.value.items[i])))
    && Distinct(actors.value.items)
  }

  predicate ItemOk(item: Json) {
    item.Obj? && MachineValue(Get(item.fields, "value")) && NonBlank(Get(item.fields, "meaning"))
  }

  function ValueOf(item: Json): string
    requires ItemOk(item)
  {
    item.fields["value"].s
  }

  function MeaningOf(item: Json): string
    requires ItemOk(item)
  {
    item.fields["meaning"].s
  }

  /** Each value is explained, no two are the same, and no two have the same meaning. */
  predicate ItemsOk(items: seq<Json>) {
    && (forall i :: 0 <= i < |items| ==> ItemOk(items[i]))
    && forall i, j :: 0 <= i < j < |items| ==>
        ValueOf(items[i]) != ValueOf(items[j]) && MeaningOf(items[i]) != MeaningOf(items[j])
  }

  function Values(items: seq<Json>): set<string> {
    set i | 0 <= i < |items| && ItemOk(items[i]) :: ValueOf(items[i])
  }

  function Meanings(items: seq<Json>): set<string> {
    set i | 0 <= i < |items| && ItemOk(items[i]) :: MeaningOf(items[i])
  }

  function DeclaredStates(definition: Json): set<string> {
    if definition.Obj? && "values" in definition.fields && definition.fields["values"].Arr?
    then Values(definition.fields["values"].items) else {}
  }

  predicate IsState(definition: Json) {
    definition.Obj? && Get(definition.fields, "kind") == Some(Str("state"))
  }

  function TerminalStates(definition: Json): set<string> {
    if definition.Obj? && "terminal_states" in definition.fields && definition.fields["terminal_states"].Arr?
    then Names(definition.fields["terminal_states"].items) else {}
  }

  /** The states a state vocabulary singles out are declared; a classification singles out none. */
  predicate StatesOk(fields: Fields, states: set<string>) {
    if Get(fields, "kind") == Some(Str("state")) then
      && "initial_state" in fields && fields["initial_state"].Str? && fields["initial_state"].s in states
      && "terminal_states" in fields && NamesOnly(fields["terminal_states"], states)
      && ("quiescent_states" in fields ==> NamesOnly(fields["quiescent_states"], states))
    else
      "initial_state" !in fields && "terminal_states" !in fields
  }

  predicate VocabularyOk(name: string, definition: Json) {
    && IsMachineName(name) && definition.Obj?
    && Get(definition.fields, "kind") in {Some(Str("classification")), Some(Str("state"))}
    && NonEmpty(Get(definition.fields, "change_policy"))
    && "values" in definition.fields && definition.fields["values"].Arr? && definition.fields["values"].items != []
    && ItemsOk(definition.fields["values"].items)
    && StatesOk(definition.fields, DeclaredStates(definition))
  }

  predicate TransitionOk(t: Json, states: set<string>, terminal: set<string>, actors: set<string>) {
    && t.Obj? && t.fields.Keys == TRANSITION_FIELDS
    && (forall k :: k in t.fields && k != "actors" ==> MachineValue(Some(t.fields[k])))
    && t.fields["from"].s in states && t.fields["to"].s in states
    && t.fields["from"] != t.fields["to"] && t.fields["from"].s !in terminal
    && t.fields["actors"].Arr? && t.fields["actors"].items != [] && Distinct(t.fields["actors"].items)
    && NamesOnly(t.fields["actors"], actors)
  }

  predicate HasEnds(t: Json) {
    && t.Obj? && "from" in t.fields && t.fields["from"].Str? && "to" in t.fields && t.fields["to"].Str?
    && "command" in t.fields && t.fields["command"].Str?
  }

  function KeyOf(t: Json): (string, string)
    requires HasEnds(t)
  {
    (t.fields["from"].s, t.fields["command"].s)
  }

  predicate TransitionsOk(ts: seq<Json>, states: set<string>, terminal: set<string>, actors: set<string>) {
    && (forall i :: 0 <= i < |ts| ==> HasEnds(ts[i]) && TransitionOk(ts[i], states, terminal, actors))
    && forall i, j :: 0 <= i < j < |ts| ==> KeyOf(ts[i]) != KeyOf(ts[j])
  }

  function KeysOf(ts: seq<Json>): set<(string, string)> {
    set i | 0 <= i < |ts| && HasEnds(ts[i]) :: KeyOf(ts[i])
  }

  function Referenced(ts: seq<Json>): set<string> {
    (set i | 0 <= i < |ts| && HasEnds(ts[i]) :: ts[i].fields["from"].s)
    + set i | 0 <= i < |ts| && HasEnds(ts[i]) :: ts[i].fields["to"].s
  }

  predicate MachineOk(machine: Json, definition: Json, actors: set<string>) {
    && machine.Obj? && MachineValue(Get(machine.fields, "failure_code"))
    && "transitions" in machine.fields && machine.fields["transitions"].Arr?
    && machine.fields["transitions"].items != []
    && TransitionsOk(machine.fields["transitions"].items, DeclaredStates(definition), TerminalStates(definition),
                     actors)
    && Referenced(machine.fields["transitions"].items) == DeclaredStates(definition)
  }

  function CodeOf(machine: Json): Option<Json> {
    if machine.Obj? then Get(machine.fields, "failure_code") else None
  }

  predicate MachineFine(machines: Fields, n: string, vocabularies: Fields, actors: set<string>) {
    && n in machines && n in vocabularies && IsState(vocabularies[n]) && MachineOk(machines[n], vocabularies[n], actors)
    && CodeOf(machines[n]).Some?
  }

  predicate CodesDiffer(machines: Fields, names: set<string>) {
    forall m, n :: m in names && n in names && m in machines && n in machines && m != n ==>
                     CodeOf(machines[m]) != CodeOf(machines[n])
  }

  predicate MachinesOk(machines: Fields, vocabularies: Fields, actors: set<string>) {
    (forall n :: n in machines ==> MachineFine(machines, n, vocabularies, actors))
      && CodesDiffer(machines, machines.Keys)
  }

  predicate HeaderOk(contract: Fields) {
    && EqualsOne(Get(contract, "schema_version"))
    && Get(contract, "contract_id") == Some(Str("shaidago-controlled-vocabulary"))
    && Get(contract, "machine_value_pattern") == Some(Str(PATTERN))
    && ActorsOk(Get(contract, "actors"))
  }

  predicate AllVocabulariesOk(vocabularies: Fields) {
    forall n :: n in vocabularies ==> VocabularyOk(n, vocabularies[n])
  }

  predicate Section(contract: Fields, key: string, required: set<string>) {
    key in contract && contract[key].Obj? && contract[key].fields.Keys == required
  }

  predicate WellFormed(contract: Fields) {
    && HeaderOk(contract)
    && Section(contract, "vocabularies", REQUIRED_VOCABULARIES) && AllVocabulariesOk(contract["vocabularies"].fields)
    && Section(contract, "state_machines", REQUIRED_STATE_MACHINES)
    && MachinesOk(contract["state_machines"].fields, contract["vocabularies"].fields, Names(contract["actors"].items))
  }

  // ---- The validator ----

  lemma OneMoreItem(items: seq<Json>, i: nat)
    requires i < |items|
    ensures ItemsOk(items[..i + 1]) <==>
              ItemsOk(items[..i]) && ItemOk(items[i])
              && ValueOf(items[i]) !in Values(items[..i]) && MeaningOf(items[i]) !in Meanings(items[..i])
    ensures ItemOk(items[i]) ==> Values(items[..i + 1]) == Values(items[..i]) + {ValueOf(items[i])}
    ensures ItemOk(items[i]) ==> Meanings(items[..i + 1]) == Meanings(items[..i]) + {MeaningOf(items[i])}
  {
    var before, after := items[..i], items[..i + 1];
    assert after == before + [items[i]];
    forall j | 0 <= j < i ensures after[j] == before[j] == items[j] {
    }
    if ItemsOk(after) {
      assert ItemOk(after[i]);
      forall j | 0 <= j < i
        ensures ValueOf(before[j]) != ValueOf(items[i]) && MeaningOf(before[j]) != MeaningOf(items[i])
      {
        assert ValueOf(after[j]) != ValueOf(after[i]);
      }
    }
  }

  lemma BadPrefix(items: seq<Json>, i: nat)
    requires i <= |items| && !ItemsOk(items[..i])
    ensures !ItemsOk(items)
  {
  }

  method CheckItems(items: seq<Json>) returns (ok: bool, seenValues: set<string>)
    ensures ok <==> ItemsOk(items)
    ensures ok ==> seenValues == Values(items)
  {
    seenValues := {};
    var seenMeanings: set<string> := {};
    for i := 0 to |items|
      invariant ItemsOk(items[..i]) && seenValues == Values(items[..i]) && seenMeanings == Meanings(items[..i])
    {
      var item := items[i];
      OneMoreItem(items, i);
      if !ItemOk(item) || ValueOf(item) in seenValues || MeaningOf(item) in seenMeanings {
        BadPrefix(items, i + 1);
        return false, seenValues;
      }
      seenValues := seenValues + {ValueOf(item)};
      seenMeanings := seenMeanings + {MeaningOf(item)};
    }
    assert items[..|items|] == items;
    ok := true;
  }

  method CheckVocabulary(name: string, definition: Json) returns (ok: bool, states: set<string>)
    ensures ok <==> VocabularyOk(name, definition)
    ensures ok ==> states == DeclaredStates(definition)
  {
    states := {};
    if !IsMachineName(name) || !definition.Obj?
       || Get(definition.fields, "kind") !in {Some(Str("classification")), Some(Str("state"))}
       || !NonEmpty(Get(definition.fields, "change_policy"))
    {
      return false, states;
    }
    var values := Get(definition.fields, "values");
    if values.None? || !values.value.Arr? || values.value.items == [] {
      return false, states;
    }
    ok, states := CheckItems(values.value.items);
    ok := ok && StatesOk(definition.fields, states);
  }

  lemma OneMoreTransition(ts: seq<Json>, i: nat, states: set<string>, terminal: set<string>, actors: set<string>)
    requires i < |ts|
    ensures TransitionsOk(ts[..i + 1], states, terminal, actors) <==>
              && TransitionsOk(ts[..i], states, terminal, actors)
              && HasEnds(ts[i]) && TransitionOk(ts[i], states, terminal, actors) && KeyOf(ts[i]) !in KeysOf(ts[..i])
  {
    var before, after := ts[..i], ts[..i + 1];
    assert after == before + [ts[i]];
    forall j | 0 <= j < i ensures after[j] == before[j] == ts[j] {
    }
    if TransitionsOk(after, states, terminal, actors) {
      assert HasEnds(after[i]);
      forall j | 0 <= j < i ensures KeyOf(before[j]) != KeyOf(ts[i]) {
        assert KeyOf(after[j]) != KeyOf(after[i]);
      }
    }
  }

  lemma OneMoreKey(ts: seq<Json>, i: nat)
    requires i < |ts| && HasEnds(ts[i])
    ensures KeysOf(ts[..i + 1]) == KeysOf(ts[..i]) + {KeyOf(ts[i])}
    ensures Referenced(ts[..i + 1]) == Referenced(ts[..i]) + {ts[i].fields["from"].s, ts[i].fields["to"].s}
  {
    var before, after := ts[..i], ts[..i + 1];
    assert after == before + [ts[i]];
    forall j | 0 <= j < i ensures after[j] == before[j] == ts[j] {
    }
  }

  lemma BadTransitions(ts: seq<Json>, i: nat, states: set<string>, terminal: set<string>, actors: set<string>)
    requires i <= |ts| && !TransitionsOk(ts[..i], states, terminal, actors)
    ensures !TransitionsOk(ts, states, terminal, actors)
  {
  }

  lemma OkHasEnds(t: Json, states: set<string>, terminal: set<string>, actors: set<string>)
    requires TransitionOk(t, states, terminal, actors)
    ensures HasEnds(t)
  {
    assert "from" in TRANSITION_FIELDS && "command" in TRANSITION_FIELDS && "to" in TRANSITION_FIELDS;
  }

  /** One transition against those before it. */
  method CheckTransition(ts: seq<Json>, i: nat, seenKeys: set<(string, string)>, states: set<string>,
                         terminal: set<string>, actors: set<string>)
    returns (ok: bool)
    requires i < |ts| && TransitionsOk(ts[..i], states, terminal, actors) && seenKeys == KeysOf(ts[..i])
    ensures ok <==> TransitionsOk(ts[..i + 1], states, terminal, actors)
    ensures ok ==> HasEnds(ts[i])
  {
    ok := TransitionOk(ts[i], states, terminal, actors);
    if ok {
      OkHasEnds(ts[i], states, terminal, actors);
      ok := KeyOf(ts[i]) !in seenKeys;
    }
    OneMoreTransition(ts, i, states, terminal, actors);
  }

  method CheckTransitions(ts: seq<Json>, states: set<string>, terminal: set<string>, actors: set<string>)
    returns (ok: bool, referenced: set<string>)
    ensures ok <==> TransitionsOk(ts, states, terminal, actors)
    ensures ok ==> referenced == Referenced(ts)
  {
    referenced := {};
    var seenKeys: set<(string, string)> := {};
    var i := 0;
    while i < |ts|
      invariant 0 <= i <= |ts|
      invariant TransitionsOk(ts[..i], states, terminal, actors)
      invariant seenKeys == KeysOf(ts[..i]) && referenced == Referenced(ts[..i])
    {
      ok := CheckTransition(ts, i, seenKeys, states, terminal, actors);
      if !ok {
        BadTransitions(ts, i + 1, states, terminal, actors);
        return;
      }
      OneMoreKey(ts, i);
      seenKeys := seenKeys + {KeyOf(ts[i])};
      referenced := referenced + {ts[i].fields["from"].s, ts[i].fields["to"].s};
      i := i + 1;
    }
    assert ts[..i] == ts;
    ok := true;
  }

  method CheckMachine(machine: Json, definition: Json, actors: set<string>) returns (ok: bool)
    ensures ok <==> MachineOk(machine, definition, actors)
  {
    if !machine.Obj? || !MachineValue(Get(machine.fields, "failure_code")) {
      return false;
    }
    var transitions := Get(machine.fields, "transitions");
    if transitions.None? || !transitions.value.Arr? || transitions.value.items == [] {
      return false;
    }
    var referenced;
    ok, referenced := CheckTransitions(transitions.value.items, DeclaredStates(definition),
                                       TerminalStates(definition), actors);
    ok := ok && referenced == DeclaredStates(definition);
  }

  method CheckVocabularies(vocabularies: Fields) returns (ok: bool)
    ensures ok <==> AllVocabulariesOk(vocabularies)
  {
    var left := vocabularies.Keys;
    while left != {}
      invariant left <= vocabularies.Keys
      invariant forall n :: n in vocabularies.Keys - left ==> VocabularyOk(n, vocabularies[n])
      decreases left
    {
      var name :| name in left;
      var states;
      ok, states := CheckVocabulary(name, vocabularies[name]);
      if !ok {
        return;
      }
      left := left - {name};
    }
    ok := true;
  }

  lemma OneMoreCode(machines: Fields, done: set<string>, name: string, seenCodes: set<Json>)
    requires CodesDiffer(machines, done) && name !in done && name in machines && CodeOf(machines[name]).Some?
    requires CodesAre(machines, done, seenCodes)
    ensures CodeOf(machines[name]).value in seenCodes <==> !CodesDiffer(machines, done + {name})
    ensures CodesAre(machines, done + {name}, seenCodes + {CodeOf(machines[name]).value})
  {
    var code := CodeOf(machines[name]).value;
    if code in seenCodes {
      var other :| other in done && other in machines && CodeOf(machines[other]) == Some(code);
      assert other in done + {name} && name in done + {name};
    }
  }

  /** The codes collected so far are those of the machines looked at so far. */
  predicate CodesAre(machines: Fields, done: set<string>, codes: set<Json>) {
    && (forall n :: n in done && n in machines ==> CodeOf(machines[n]).Some? && CodeOf(machines[n]).value in codes)
    && forall c :: c in codes ==> exists n :: n in done && n in machines && CodeOf(machines[n]) == Some(c)
  }

  lemma FewerCodesDiffer(machines: Fields, some_: set<string>)
    requires some_ <= machines.Keys && !CodesDiffer(machines, some_)
    ensures !CodesDiffer(machines, machines.Keys)
  {
  }

  method CheckMachines(machines: Fields, vocabularies: Fields, actors: set<string>) returns (ok: bool)
    ensures ok <==> MachinesOk(machines, vocabularies, actors)
  {
    var left := machines.Keys;
    var seenCodes: set<Json> := {};
    ghost var done: set<string> := {};
    while left != {}
      invariant done + left == machines.Keys && done !! left
      invariant forall n :: n in done ==> MachineFine(machines, n, vocabularies, actors)
      invariant CodesDiffer(machines, done) && CodesAre(machines, done, seenCodes)
      decreases left
    {
      var name :| name in left;
      ok := name in vocabularies && IsState(vocabularies[name]);
      if ok {
        ok := CheckMachine(machines[name], vocabularies[name], actors);
      }
      if !ok {
        assert !MachineFine(machines, name, vocabularies, actors);
        return;
      }
      var code := machines[name].fields["failure_code"];
      assert MachineFine(machines, name, vocabularies, actors);
      OneMoreCode(machines, done, name, seenCodes);
      if code in seenCodes {
        FewerCodesDiffer(machines, done + {name});
        return false;
      }
      seenCodes := seenCodes + {code};
      done, left := done + {name}, left - {name};
    }
    assert done == machines.Keys;
    ok := true;
  }

  method FindSection(contract: Fields, key: string, required: set<string>) returns (ok: bool, section: Fields)
    ensures ok <==> Section(contract, key, required)
    ensures ok ==> section == contract[key].fields
  {
    section := map[];
    if key in contract && contract[key].Obj? {
      section := contract[key].fields;
      ok := section.Keys == required;
    } else {
      ok := false;
    }
  }

  /** Accepts exactly the well-formed contracts; for every other one something raises. */
  method ValidateContract(contract: Fields) returns (ok: bool)
    ensures ok <==> WellFormed(contract)
  {
    if !HeaderOk(contract) {
      return false;
    }
    var vocabularies, machines;
    ok, vocabularies := FindSection(contract, "vocabularies", REQUIRED_VOCABULARIES);
    if ok {
      ok := CheckVocabularies(vocabularies);
    }
    if !ok {
      return;
    }
    ok, machines := FindSection(contract, "state_machines", REQUIRED_STATE_MACHINES);
    if ok {
      ok := CheckMachines(machines, vocabularies, Names(contract["actors"].items));
    }
  }

  // ---- What acceptance guarantees ----

  predicate Moves(t: Json, was: string, command: string, next: string) {
    HasEnds(t) && t.fields["from"].s == was && t.fields["command"].s == command && t.fields["to"].s == next
  }

  predicate CanMove(ts: seq<Json>, was: string, command: string, next: string) {
    exists i :: 0 <= i < |ts| && Moves(ts[i], was, command, next)
  }

  /** The states of a run: each follows from the one before by the command at that point. */
  predicate IsRun(ts: seq<Json>, states: seq<string>, commands: seq<string>) {
    && |states| == |commands| + 1
    && forall i :: 0 <= i < |commands| ==> CanMove(ts, states[i], commands[i], states[i + 1])
  }

  lemma OneMoveIsSound(t: Json, states: set<string>, terminal: set<string>, actors: set<string>, was: string,
                       command: string, next: string)
    requires TransitionOk(t, states, terminal, actors) && Moves(t, was, command, next)
    ensures was != next && was in states && next in states && was !in terminal
  {
    assert t.fields["from"] == Str(was) && t.fields["to"] == Str(next);
  }

  /** One move: between two different declared states, out of one that is not terminal. */
  lemma MoveIsSound(ts: seq<Json>, states: set<string>, terminal: set<string>, actors: set<string>, was: string,
                    command: string, next: string)
    requires TransitionsOk(ts, states, terminal, actors) && CanMove(ts, was, command, next)
    ensures was != next && was in states && next in states && was !in terminal
  {
    var i :| 0 <= i < |ts| && Moves(ts[i], was, command, next);
    OneMoveIsSound(ts[i], states, terminal, actors, was, command, next);
  }

  /** A command leads from a state to one state at most. */
  lemma Deterministic(ts: seq<Json>, states: set<string>, terminal: set<string>, actors: set<string>,
                      was: string, command: string, a: string, b: string)
    requires TransitionsOk(ts, states, terminal, actors) && CanMove(ts, was, command, a) && CanMove(ts, was, command, b)
    ensures a == b
  {
    var i :| 0 <= i < |ts| && Moves(ts[i], was, command, a);
    var j :| 0 <= j < |ts| && Moves(ts[j], was, command, b);
    assert KeyOf(ts[i]) == KeyOf(ts[j]);
  }

  lemma {:induction false} RunsAreDetermined(ts: seq<Json>, states: set<string>, terminal: set<string>,
                                             actors: set<string>, a: seq<string>, b: seq<string>,
                                             commands: seq<string>, k: nat)
    requires TransitionsOk(ts, states, terminal, actors) && IsRun(ts, a, commands) && IsRun(ts, b, commands)
    requires a[0] == b[0] && k < |a|
    ensures a[k] == b[k]
    decreases k
  {
    if k > 0 {
      RunsAreDetermined(ts, states, terminal, actors, a, b, commands, k - 1);
      assert CanMove(ts, a[k - 1], commands[k - 1], a[k]) && CanMove(ts, b[k - 1], commands[k - 1], b[k]);
      Deterministic(ts, states, terminal, actors, a[k - 1], commands[k - 1], a[k], b[k]);
    }
  }

  lemma RunsStayDeclared(ts: seq<Json>, states: set<string>, terminal: set<string>, actors: set<string>,
                         a: seq<string>, commands: seq<string>, k: nat)
    requires TransitionsOk(ts, states, terminal, actors) && IsRun(ts, a, commands) && a[0] in states && k < |a|
    ensures a[k] in states && (a[k] in terminal ==> k == |commands|)
  {
    if k > 0 {
      assert CanMove(ts, a[k - 1], commands[k - 1], a[k]);
      MoveIsSound(ts, states, terminal, actors, a[k - 1], commands[k - 1], a[k]);
    }
    if k < |commands| {
      assert CanMove(ts, a[k], commands[k], a[k + 1]);
      MoveIsSound(ts, states, terminal, actors, a[k], commands[k], a[k + 1]);
    }
  }

  lemma ReferencedTakesPart(ts: seq<Json>, state: string)
    requires state in Referenced(ts)
    ensures exists command, other :: CanMove(ts, state, command, other) || CanMove(ts, other, command, state)
  {
    var i :| 0 <= i < |ts| && HasEnds(ts[i]) && (ts[i].fields["from"].s == state || ts[i].fields["to"].s == state);
    assert Moves(ts[i], ts[i].fields["from"].s, ts[i].fields["command"].s, ts[i].fields["to"].s);
    assert CanMove(ts, ts[i].fields["from"].s, ts[i].fields["command"].s, ts[i].fields["to"].s);
  }

  /** The machine of a name, its declared and its terminal states, as the contract has them. */
  ghost predicate Describes(contract: Fields, name: string, ts: seq<Json>, states: set<string>, terminal: set<string>) {
    && "state_machines" in contract && contract["state_machines"].Obj? && name in contract["state_machines"].fields
    && "vocabularies" in contract && contract["vocabularies"].Obj? && name in contract["vocabularies"].fields
    && var machine, vocabulary := contract["state_machines"].fields[name], contract["vocabularies"].fields[name];
    && machine.Obj? && Get(machine.fields, "transitions") == Some(Arr(ts))
    && states == DeclaredStates(vocabulary) && terminal == TerminalStates(vocabulary)
  }

  lemma AcceptedMachine(contract: Fields, name: string, ts: seq<Json>, states: set<string>, terminal: set<string>)
    requires WellFormed(contract) && Describes(contract, name, ts, states, terminal)
    ensures TransitionsOk(ts, states, terminal, Names(contract["actors"].items)) && Referenced(ts) == states
  {
    assert MachineFine(contract["state_machines"].fields, name, contract["vocabularies"].fields,
                       Names(contract["actors"].items));
  }

  ghost predicate StaysDeclared(ts: seq<Json>, states: set<string>, terminal: set<string>) {
    forall a, commands, k: nat :: IsRun(ts, a, commands) && a[0] in states && k < |a| ==>
                                    a[k] in states && (a[k] in terminal ==> k == |commands|)
  }

  ghost predicate AlwaysChanges(ts: seq<Json>) {
    forall a, commands, k: nat :: IsRun(ts, a, commands) && k < |commands| ==> a[k] != a[k + 1]
  }

  ghost predicate Determined(ts: seq<Json>) {
    forall a, b, commands :: IsRun(ts, a, commands) && IsRun(ts, b, commands) && a[0] == b[0] ==> a == b
  }

  ghost predicate AllTakePart(ts: seq<Json>, states: set<string>) {
    forall state :: state in states ==>
                      exists command, other :: CanMove(ts, state, command, other) || CanMove(ts, other, command, state)
  }

  lemma SoundRuns(ts: seq<Json>, states: set<string>, terminal: set<string>, actors: set<string>)
    requires TransitionsOk(ts, states, terminal, actors)
    ensures StaysDeclared(ts, states, terminal) && AlwaysChanges(ts) && Determined(ts)
  {
    forall a, commands, k: nat | IsRun(ts, a, commands) && a[0] in states && k < |a|
      ensures a[k] in states && (a[k] in terminal ==> k == |commands|)
    {
      RunsStayDeclared(ts, states, terminal, actors, a, commands, k);
    }
    forall a, commands, k: nat | IsRun(ts, a, commands) && k < |commands| ensures a[k] != a[k + 1] {
      MoveIsSound(ts, states, terminal, actors, a[k], commands[k], a[k + 1]);
    }
    forall a, b, commands | IsRun(ts, a, commands) && IsRun(ts, b, commands) && a[0] == b[0] ensures a == b {
      forall k: nat | k < |a| ensures a[k] == b[k] {
        RunsAreDetermined(ts, states, terminal, actors, a, b, commands, k);
      }
    }
  }

  lemma ReferencedTakePart(ts: seq<Json>, states: set<string>)
    requires Referenced(ts) == states
    ensures AllTakePart(ts, states)
  {
    forall state | state in states
      ensures exists command, other :: CanMove(ts, state, command, other) || CanMove(ts, other, command, state)
    {
      ReferencedTakesPart(ts, state);
    }
  }

  /**
   The machines of an accepted contract: their commands decide every run, a run that starts in a declared
   state stays in declared states, changes state with every command and ends once it reaches a terminal
   state, and every declared state takes part in some move.
   */
  lemma AcceptedMachinesAreSound(contract: Fields, name: string, ts: seq<Json>, states: set<string>,
                                 terminal: set<string>)
    requires WellFormed(contract) && Describes(contract, name, ts, states, terminal)
    ensures StaysDeclared(ts, states, terminal) && AlwaysChanges(ts) && Determined(ts) && AllTakePart(ts, states)
  {
    AcceptedMachine(contract, name, ts, states, terminal);
    SoundRuns(ts, states, terminal, Names(contract["actors"].items));
    ReferencedTakePart(ts, states);
  }
}
