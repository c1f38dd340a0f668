/** `EnvironmentConfig`: derives environment keys from property labels and
    loads every wrapped field of a configuration value.

    Reflection over the target is replaced by the sequence of its children,
    each an optional label and, when the child is an `EnvField`, a reference to
    it. The loop of `load` is specified by `LoadPass` over snapshots of the
    fields' states. */
module EnvironmentConfig {
  import opened Wrappers
  import opened Text
  import opened SnakeCase
  import opened ValueCoercion
  import opened ConfigErrors
  import opened EnvironmentField

  predicate EndsWithUnderscore(s: string) {
    |s| > 0 && s[|s| - 1] == '_'
  }

  /** The start of every key: nothing without a prefix, otherwise the prefix
      extended by at most one character so that it ends with `_`. */
  function Base(prefix: Option<string>): (base: string)
    ensures prefix.None? ==> base == ""
    ensures prefix.Some? ==> EndsWithUnderscore(base)
    ensures prefix.Some? ==> prefix.value <= base && |base| <= |prefix.value| + 1
    ensures prefix.Some? && EndsWithUnderscore(prefix.value) ==> base == prefix.value
    ensures prefix.Some? && !EndsWithUnderscore(prefix.value) ==> base == prefix.value + "_"
  {
    match prefix
    case None => ""
    case Some(p) => if EndsWithUnderscore(p) then p else p + "_"
  }

  /** A prefix and the same prefix followed by `_` give the same keys. */
  lemma BaseTrailingUnderscore(p: string)
    requires !EndsWithUnderscore(p)
    ensures Base(Some(p + "_")) == Base(Some(p))
  {
    assert EndsWithUnderscore(p + "_");
  }

  /** Normalising an already normalised prefix changes nothing. */
  lemma BaseIdempotent(prefix: Option<string>)
    ensures prefix.Some? ==> Base(Some(Base(prefix))) == Base(prefix)
  {
  }

  /** The empty prefix is not the absent prefix: its keys start with `_`. */
  lemma BaseEmptyPrefix()
    ensures Base(Some("")) == "_" && Base(None) == ""
  {
  }

  /** `possibleEnvironmentKeys(forLabel:prefix:)`: the label as written, then
      its snake case form when that differs, both after the base. */
  function PossibleEnvironmentKeys(propLabel: string, prefix: Option<string>): (keys: seq<string>)
    ensures 1 <= |keys| <= 2
    ensures keys[0] == Base(prefix) + propLabel
    ensures |keys| == 2 <==> !HasNoUpper(propLabel)
    ensures |keys| == 2 ==> keys[1] == Base(prefix) + SnakeCase.SnakeCase(propLabel) && keys[0] != keys[1]
  {
    var base := Base(prefix);
    var snakeCaseLabel := SnakeCase.SnakeCase(propLabel);
    SnakeCaseChangesIffUpper(propLabel);
    if snakeCaseLabel != propLabel then
      assert (base + propLabel)[|base|..] == propLabel;
      assert (base + snakeCaseLabel)[|base|..] == snakeCaseLabel;
      [base + propLabel, base + snakeCaseLabel]
    else [base + propLabel]
  }

  /** The keys a field gets depend on the prefix only through the base. */
  lemma KeysTrailingUnderscore(propLabel: string, p: string)
    requires !EndsWithUnderscore(p)
    ensures PossibleEnvironmentKeys(propLabel, Some(p + "_")) == PossibleEnvironmentKeys(propLabel, Some(p))
  {
    BaseTrailingUnderscore(p);
  }

  /** Only stored properties of a property wrapper, `_` followed by the
      property's name, are loaded. */
  predicate Eligible(propLabel: string) {
    |propLabel| > 1 && propLabel[0] == '_'
  }

  // ----- the specification of one pass -----

  datatype FieldModel = FieldModel(kind: ValueType, state: FieldState)

  /** A child as `load` sees it: its label, and its type and state when it
      is an `EnvField`. */
  datatype Slot = Slot(propLabel: Option<string>, field: Option<FieldModel>)

  predicate Loads(s: Slot) {
    s.propLabel.Some? && s.field.Some? && Eligible(s.propLabel.value)
  }

  /** The names a loaded child is looked up under: those of its label without
      the leading `_`. */
  function SlotNames(s: Slot, prefix: Option<string>): seq<string>
    requires Loads(s)
  {
    PossibleEnvironmentKeys(s.propLabel.value[1..], prefix)
  }

  /** One child: skipped, or its field loaded. */
  function Apply(env: Env, prefix: Option<string>, s: Slot): (r: (Slot, Option<ConfigError>))
    ensures r.0.propLabel == s.propLabel && r.0.field.Some? == s.field.Some?
    ensures r.0.field.Some? ==> r.0.field.value.kind == s.field.value.kind
    ensures !Loads(s) ==> r == (s, None)
    ensures Loads(s) ==> !ImplicitName(r.0.field.value.state)
    ensures r.1.Some? ==>
              Loads(s) && r.1.value == UnparsableOrMissingValue(SlotNames(s, prefix), TypeName(s.field.value.kind))
  {
    if !Loads(s) then (s, None)
    else
      var m := s.field.value;
      var step := LoadStep(env, SlotNames(s, prefix), m.kind, m.state);
      (Slot(s.propLabel, Some(FieldModel(m.kind, step.0))), step.1)
  }

  /** One pass over the children in order, each handled by `step`, stopping at
      the first error. */
  function Pass(step: Slot -> (Slot, Option<ConfigError>), slots: seq<Slot>): (seq<Slot>, Option<ConfigError>)
    decreases |slots|
  {
    if |slots| == 0 then ([], None)
    else
      var first := step(slots[0]);
      if first.1.Some? then ([first.0] + slots[1..], first.1)
      else
        var rest := Pass(step, slots[1..]);
        ([first.0] + rest.0, rest.1)
  }

  function Step(env: Env, prefix: Option<string>): Slot -> (Slot, Option<ConfigError>) {
    s => Apply(env, prefix, s)
  }

  /** `load(_:prefix:)`. */
  function LoadPass(env: Env, prefix: Option<string>, slots: seq<Slot>): (seq<Slot>, Option<ConfigError>) {
    Pass(Step(env, prefix), slots)
  }

  /** The position of the first child whose step fails, or the number of
      children when none fails. */
  function FirstFailure(step: Slot -> (Slot, Option<ConfigError>), slots: seq<Slot>): (k: nat)
    ensures k <= |slots|
    ensures forall j :: 0 <= j < k ==> step(slots[j]).1.None?
    ensures k < |slots| ==> step(slots[k]).1.Some?
    decreases |slots|
  {
    if |slots| == 0 then 0
    else if step(slots[0]).1.Some? then 0
    else
      var k := FirstFailure(step, slots[1..]);
      assert forall j :: 1 <= j < k + 1 ==> slots[j] == slots[1..][j - 1];
      1 + k
  }

  /** What a pass does, stated directly: every child up to and including the
      first failing one is stepped, the later ones are left untouched, and the
      error is that of the failing child. */
  function Outcome(step: Slot -> (Slot, Option<ConfigError>), slots: seq<Slot>): (seq<Slot>, Option<ConfigError>) {
    var k := FirstFailure(step, slots);
    (seq(|slots|, j requires 0 <= j < |slots| => if j <= k then step(slots[j]).0 else slots[j]),
     if k < |slots| then step(slots[k]).1 else None)
  }

  lemma {:induction false} PassOutcome(step: Slot -> (Slot, Option<ConfigError>), slots: seq<Slot>)
    ensures Pass(step, slots) == Outcome(step, slots)
    decreases |slots|
  {
    if |slots| > 0 {
      var first := step(slots[0]);
      var out := Outcome(step, slots);
      if first.1.Some? {
        assert FirstFailure(step, slots) == 0;
        assert out.0 == [first.0] + slots[1..];
        assert out.1 == first.1;
      } else {
        PassOutcome(step, slots[1..]);
        var k := FirstFailure(step, slots[1..]);
        assert FirstFailure(step, slots) == k + 1;
        var rest := Outcome(step, slots[1..]);
        assert out.0 == [first.0] + rest.0 by {
          forall j | 1 <= j < |slots| ensures out.0[j] == rest.0[j - 1] {
            assert slots[j] == slots[1..][j - 1];
          }
        }
        if k < |slots| - 1 {
          assert slots[k + 1] == slots[1..][k];
        }
        assert out.1 == rest.1;
      }
    } else {
      assert Outcome(step, slots).0 == [];
    }
  }

  /** A pass keeps the children, their labels and their fields' types. */
  lemma LoadPassShape(env: Env, prefix: Option<string>, slots: seq<Slot>)
    ensures |LoadPass(env, prefix, slots).0| == |slots|
    ensures forall j :: 0 <= j < |slots| ==>
              && LoadPass(env, prefix, slots).0[j].propLabel == slots[j].propLabel
              && LoadPass(env, prefix, slots).0[j].field.Some? == slots[j].field.Some?
  {
    var step := Step(env, prefix);
    PassOutcome(step, slots);
    var out := Outcome(step, slots);
    forall j | 0 <= j < |slots|
      ensures out.0[j].propLabel == slots[j].propLabel && out.0[j].field.Some? == slots[j].field.Some?
    {
      assert step(slots[j]).0.propLabel == slots[j].propLabel;
    }
  }

  /** A pass that succeeds has loaded every eligible field, so none of them
      waits for a name any more. */
  lemma LoadPassSucceeds(env: Env, prefix: Option<string>, slots: seq<Slot>)
    requires LoadPass(env, prefix, slots).1.None?
    ensures forall j :: 0 <= j < |slots| && Loads(slots[j]) ==>
              var r := LoadPass(env, prefix, slots).0;
              j < |r| && r[j].field.Some? && !ImplicitName(r[j].field.value.state)
  {
    var step := Step(env, prefix);
    PassOutcome(step, slots);
    var out := Outcome(step, slots);
    forall j | 0 <= j < |slots| && Loads(slots[j])
      ensures out.0[j].field.Some? && !ImplicitName(out.0[j].field.value.state)
    {
      assert out.0[j] == step(slots[j]).0;
    }
  }

  /** A pass that fails stops at the first field whose load fails, reports
      that field's names and type, and leaves every later child as it was. */
  lemma LoadPassFails(env: Env, prefix: Option<string>, slots: seq<Slot>)
    requires LoadPass(env, prefix, slots).1.Some?
    ensures var k := FirstFailure(Step(env, prefix), slots);
              var r := LoadPass(env, prefix, slots);
              && k < |slots| && Loads(slots[k])
              && r.1.value == UnparsableOrMissingValue(SlotNames(slots[k], prefix), TypeName(slots[k].field.value.kind))
              && |r.0| == |slots|
              && forall j :: k < j < |slots| ==> r.0[j] == slots[j]
  {
    var step := Step(env, prefix);
    PassOutcome(step, slots);
    var k := FirstFailure(step, slots);
    assert k < |slots|;
    var e := step(slots[k]);
    assert e.1.Some?;
  }

  /** Every field, already named or not, is loaded: a field named at its
      creation is reloaded under its label's keys, and keeps its value when
      none of them is present. */
  lemma ExplicitFieldReloaded(env: Env, prefix: Option<string>, s: Slot)
    requires Loads(s) && s.field.value.state.initialized && s.field.value.state.value.Some?
    requires forall i :: 0 <= i < |SlotNames(s, prefix)| ==>
               var n := SlotNames(s, prefix)[i];
               n !in env && Upper(n) !in env && Lower(n) !in env
    ensures Apply(env, prefix, s) == (s, None)
  {
    var m := s.field.value;
    ReloadKeepsValue(env, SlotNames(s, prefix), m.kind, m.state);
  }

  // ----- the loop over the fields -----

  /** A child of the reflected target. */
  datatype Child = Child(propLabel: Option<string>, field: Option<EnvField>)

  ghost function Fields(children: seq<Child>): set<EnvField> {
    set i | 0 <= i < |children| && children[i].field.Some? :: children[i].field.value
  }

  /** Each property wrapper has its own storage. */
  ghost predicate DistinctFields(children: seq<Child>) {
    forall i, j :: 0 <= i < j < |children| && children[i].field.Some? && children[j].field.Some? ==>
      children[i].field.value != children[j].field.value
  }

  /** Every field holds a value of its own type, if any. */
  ghost predicate FieldsValid(children: seq<Child>)
    reads Fields(children)
  {
    forall j :: 0 <= j < |children| && children[j].field.Some? ==> children[j].field.value.Valid()
  }

  ghost function SlotOf(c: Child): Slot
    reads if c.field.Some? then {c.field.value} else {}
  {
    match c.field
    case None => Slot(c.propLabel, None)
    case Some(f) => Slot(c.propLabel, Some(FieldModel(f.kind, f.State())))
  }

  ghost function Snapshot(children: seq<Child>): seq<Slot>
    reads Fields(children)
  {
    seq(|children|, i requires 0 <= i < |children| reads Fields(children) => SlotOf(children[i]))
  }

  lemma SnapshotIs(children: seq<Child>, slots: seq<Slot>)
    requires |slots| == |children|
    requires forall j :: 0 <= j < |children| ==> SlotOf(children[j]) == slots[j]
    ensures Snapshot(children) == slots
  {
  }

  /** The outcome of a pass whose first failure is at `k`. */
  lemma OutcomeAt(step: Slot -> (Slot, Option<ConfigError>), slots: seq<Slot>, k: nat)
    requires k <= |slots|
    requires forall j :: 0 <= j < k ==> step(slots[j]).1.None?
    requires k < |slots| ==> step(slots[k]).1.Some?
    ensures FirstFailure(step, slots) == k
    ensures |Outcome(step, slots).0| == |slots|
    ensures forall j :: 0 <= j < |slots| ==>
              Outcome(step, slots).0[j] == if j <= k then step(slots[j]).0 else slots[j]
    ensures Outcome(step, slots).1 == if k < |slots| then step(slots[k]).1 else None
  {
  }

  lemma LoadPassAt(env: Env, prefix: Option<string>, slots: seq<Slot>, k: nat)
    requires k <= |slots|
    requires forall j :: 0 <= j < k ==> Apply(env, prefix, slots[j]).1.None?
    requires k < |slots| ==> Apply(env, prefix, slots[k]).1.Some?
    ensures |LoadPass(env, prefix, slots).0| == |slots|
    ensures forall j :: 0 <= j < |slots| ==>
              LoadPass(env, prefix, slots).0[j] == if j <= k then Apply(env, prefix, slots[j]).0 else slots[j]
    ensures LoadPass(env, prefix, slots).1 == if k < |slots| then Apply(env, prefix, slots[k]).1 else None
  {
    var step := Step(env, prefix);
    PassOutcome(step, slots);
    OutcomeAt(step, slots, k);
  }

  /** One child of the loop in `load(_:prefix:)`. */
  method LoadChild(env: Env, prefix: Option<string>, child: Child) returns (e: Option<ConfigError>)
    requires child.field.Some? ==> child.field.value.Valid()
    modifies if child.field.Some? then {child.field.value} else {}
    ensures (SlotOf(child), e) == Apply(env, prefix, old(SlotOf(child)))
    ensures child.field.Some? ==> child.field.value.Valid()
  {
    e := None;
    if child.propLabel.Some? && child.field.Some? {
      var propLabel := child.propLabel.value;
      if |propLabel| <= 1 || propLabel[0] != '_' {
        return;
      }
      var cleanLabel := propLabel[1..];
      var autoField := child.field.value;
      e := autoField.Load(env, PossibleEnvironmentKeys(cleanLabel, prefix));
    }
  }

  /** A pass over two children neither of which fails. */
  lemma LoadPassOfTwo(env: Env, prefix: Option<string>, a: Slot, b: Slot)
    requires Apply(env, prefix, a).1.None? && Apply(env, prefix, b).1.None?
    ensures LoadPass(env, prefix, [a, b]) == ([Apply(env, prefix, a).0, Apply(env, prefix, b).0], None)
  {
    var slots := [a, b];
    LoadPassAt(env, prefix, slots, 2);
    var r := LoadPass(env, prefix, slots);
    assert r.0 == [r.0[0], r.0[1]];
  }

  /** `load(_:prefix:)`. */
  method Load(env: Env, children: seq<Child>, prefix: Option<string> := None) returns (err: Option<ConfigError>)
    requires DistinctFields(children)
    requires FieldsValid(children)
    modifies Fields(children)
    ensures (Snapshot(children), err) == LoadPass(env, prefix, old(Snapshot(children)))
    ensures FieldsValid(children)
  {
    ghost var before := Snapshot(children);
    for i := 0 to |children|
      invariant FieldsValid(children)
      invariant forall j :: 0 <= j < |children| ==>
        SlotOf(children[j]) == if j < i then Apply(env, prefix, before[j]).0 else before[j]
      invariant forall j :: 0 <= j < i ==> Apply(env, prefix, before[j]).1.None?
    {
      var child := children[i];
      assert child.field.Some? ==> child.field.value in Fields(children);
      label BeforeLoad:
      var e := LoadChild(env, prefix, child);
      forall j | 0 <= j < |children| && j != i
        ensures SlotOf(children[j]) == old@BeforeLoad(SlotOf(children[j]))
        ensures children[j].field.Some? ==> children[j].field.value.Valid()
      {
        assert children[j].field.Some? && child.field.Some? ==> children[j].field.value != child.field.value;
      }
      if e.Some? {
        LoadPassAt(env, prefix, before, i);
        SnapshotIs(children, LoadPass(env, prefix, before).0);
        return e;
      }
    }
    LoadPassAt(env, prefix, before, |children|);
    SnapshotIs(children, LoadPass(env, prefix, before).0);
    err := None;
  }

  // ----- the prefix test of the suite -----

  /** A struct with one lazily named `String` property `string`. */
  function PrefixTestSlots(): seq<Slot> {
    [Slot(Some("_string"), Some(FieldModel(StringType, FieldState(false, None))))]
  }

  /** The keys of the label `string`, without and with the prefix. */
  lemma PrefixTestKeys()
    ensures PossibleEnvironmentKeys("string", None) == ["string"]
    ensures PossibleEnvironmentKeys("string", Some("envconfig")) == ["envconfig_string"]
  {
    var propLabel := "string";
    assert HasNoUpper(propLabel);
    assert Base(None) + propLabel == propLabel;
    assert !EndsWithUnderscore("envconfig");
    assert Base(Some("envconfig")) + propLabel == "envconfig_string";
  }

  lemma PrefixTestLookups()
    ensures Lookup(TestEnv(), ["string"]) == None
    ensures Lookup(TestEnv(), ["envconfig_string"]) == Some("foo")
  {
    var env := TestEnv();
    assert Upper("string") !in env;
    LookupOneName(env, "string");
    LookupOneName(env, "envconfig_string");
  }

  /** Without a prefix the key `string` is absent and the load fails, which
      marks the field initialized without a value. */
  lemma PrefixFailedLoad()
    ensures LoadPass(TestEnv(), None, PrefixTestSlots())
         == ([Slot(Some("_string"), Some(FieldModel(StringType, FieldState(true, None))))],
             Some(UnparsableOrMissingValue(["string"], "String")))
  {
    var slots := PrefixTestSlots();
    assert slots[0].propLabel.value[1..] == "string";
    PrefixTestKeys();
    PrefixTestLookups();
    LoadPassAt(TestEnv(), None, slots, 0);
    var r := LoadPass(TestEnv(), None, slots);
    assert r.0 == [r.0[0]];
  }

  /** The failed load of the prefix test, then that same field loaded again
      with the prefix `envconfig`: it reads `envconfig_string`. A fresh field
      loaded with `envconfig_` ends up the same. */
  lemma PrefixExample()
    ensures var failed := LoadPass(TestEnv(), None, PrefixTestSlots());
            && failed.1 == Some(UnparsableOrMissingValue(["string"], "String"))
            && |failed.0| == 1 && failed.0[0].field.Some?
            && failed.0[0].field.value.state == FieldState(true, None)
            && var again := LoadPass(TestEnv(), Some("envconfig"), failed.0);
               && again.1.None? && |again.0| == 1 && again.0[0].field.Some?
               && again.0[0].field.value.state == FieldState(true, Some(StringValue("foo")))
    ensures var other := LoadPass(TestEnv(), Some("envconfig_"), PrefixTestSlots());
            && other.1.None? && |other.0| == 1 && other.0[0].field.Some?
            && other.0[0].field.value.state == FieldState(true, Some(StringValue("foo")))
  {
    PrefixFailedLoad();
    PrefixReload();
    PrefixFreshLoad();
  }

  /** The field left by the failed load, loaded again with `envconfig`. */
  lemma PrefixReload()
    ensures var r := LoadPass(TestEnv(), Some("envconfig"),
                              [Slot(Some("_string"), Some(FieldModel(StringType, FieldState(true, None))))]);
            && r.1.None? && |r.0| == 1 && r.0[0].field.Some?
            && r.0[0].field.value.state == FieldState(true, Some(StringValue("foo")))
  {
    var slots := [Slot(Some("_string"), Some(FieldModel(StringType, FieldState(true, None))))];
    assert slots[0].propLabel.value[1..] == "string";
    PrefixTestKeys();
    PrefixTestLookups();
    ParseStringIdentity("foo");
    LoadPassAt(TestEnv(), Some("envconfig"), slots, 1);
  }

  /** A fresh field of the prefix test loaded with `envconfig_`. */
  lemma PrefixFreshLoad()
    ensures var r := LoadPass(TestEnv(), Some("envconfig_"), PrefixTestSlots());
            && r.1.None? && |r.0| == 1 && r.0[0].field.Some?
            && r.0[0].field.value.state == FieldState(true, Some(StringValue("foo")))
  {
    var slots := PrefixTestSlots();
    assert slots[0].propLabel.value[1..] == "string";
    PrefixTestKeys();
    PrefixTestLookups();
    ParseStringIdentity("foo");
    KeysTrailingUnderscore("string", "envconfig");
    assert "envconfig" + "_" == "envconfig_";
    LoadPassAt(TestEnv(), Some("envconfig_"), slots, 1);
  }

  // ----- the implicit keys test of the suite -----

  function ImplicitTestEnv(): Env {
    TestEnv()["teststring" := "test"]["camel_case" := "bar"]["snake_case" := "baz"]
  }

  /** `integer`, named `envconfig_integer` at its creation. */
  function ExplicitSlot(): Slot {
    Slot(Some("_integer"), Some(FieldModel(OptionalType(IntKind), FieldState(true, Some(SomeValue(IntValue(2)))))))
  }

  /** `camelCase`, waiting for its name. */
  function CamelSlot(): Slot {
    Slot(Some("_" + "camel" + "Case"), Some(FieldModel(StringType, FieldState(false, None))))
  }

  /** Without a prefix a label without capitals has one key, itself. */
  lemma KeysOfLowerLabel(propLabel: string)
    requires HasNoUpper(propLabel)
    ensures PossibleEnvironmentKeys(propLabel, None) == [propLabel]
  {
    assert Base(None) + propLabel == propLabel;
  }

  /** Without a prefix a label with a capital has two keys, itself and its
      snake case form. */
  lemma KeysOfCamelLabel(propLabel: string)
    requires !HasNoUpper(propLabel)
    ensures PossibleEnvironmentKeys(propLabel, None) == [propLabel, SnakeCase.SnakeCase(propLabel)]
  {
    assert Base(None) + propLabel == propLabel;
    assert Base(None) + SnakeCase.SnakeCase(propLabel) == SnakeCase.SnakeCase(propLabel);
  }

  /** The explicitly named field is reloaded under `integer`, which is absent,
      and keeps its value. */
  lemma ExplicitReloadExample()
    ensures Apply(ImplicitTestEnv(), None, ExplicitSlot()) == (ExplicitSlot(), None)
  {
    var env := ImplicitTestEnv();
    var s := ExplicitSlot();
    var name := s.propLabel.value[1..];
    assert name == "integer";
    IntegerKeyAbsent(env, name);
    ExplicitFieldReloaded(env, None, s);
  }

  lemma IntegerKeyAbsent(env: Env, name: string)
    requires env == ImplicitTestEnv() && name == "integer"
    ensures PossibleEnvironmentKeys(name, None) == [name]
    ensures name !in env && Upper(name) !in env && Lower(name) !in env
  {
    assert HasNoUpper(name);
    KeysOfLowerLabel(name);
    assert Lower(name) == name;
  }

  /** `camelCase` is absent in every case variant, so its snake case key
      `camel_case` is used. */
  lemma CamelCaseLookup()
    ensures Lookup(ImplicitTestEnv(), ["camel" + "Case", "camel_case"]) == Some("bar")
  {
    var env := ImplicitTestEnv();
    var camel := "camel" + "Case";
    assert camel !in env && Upper(camel) !in env && Lower(camel) !in env;
    LookupOneName(env, camel);
    assert "camel_case" in env && env["camel_case"] == "bar";
    LookupOneName(env, "camel_case");
    LookupAppend(env, [camel], ["camel_case"]);
    assert [camel] + ["camel_case"] == [camel, "camel_case"];
  }

  lemma CamelCaseLoadExample()
    ensures Apply(ImplicitTestEnv(), None, CamelSlot())
         == (Slot(CamelSlot().propLabel, Some(FieldModel(StringType, FieldState(true, Some(StringValue("bar")))))), None)
  {
    var env := ImplicitTestEnv();
    var s := CamelSlot();
    var camel := s.propLabel.value[1..];
    assert camel == "camel" + "Case" == "camelCase";
    CamelCaseExample();
    assert IsUpper(camel[5]);
    KeysOfCamelLabel(camel);
    var names := SlotNames(s, None);
    assert names == [camel, "camel_case"];
    CamelCaseLookup();
    ParseStringIdentity("bar");
    assert Resolve(env, names, StringType, None) == Some(StringValue("bar"));
  }

  /** Explicit and implicit names mixed in one struct: the pass succeeds,
      the explicit field keeps its value and the implicit one is loaded. */
  lemma ImplicitKeysExample()
    ensures LoadPass(ImplicitTestEnv(), None, [ExplicitSlot(), CamelSlot()])
         == ([ExplicitSlot(), Slot(CamelSlot().propLabel, Some(FieldModel(StringType, FieldState(true, Some(StringValue("bar"))))))], None)
  {
    ExplicitReloadExample();
    CamelCaseLoadExample();
    LoadPassOfTwo(ImplicitTestEnv(), None, ExplicitSlot(), CamelSlot());
  }
}
