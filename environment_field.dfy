/** `EnvField`: a property wrapper whose value comes from the environment.

    The process environment is an explicit map. `fetch` is specified by
    `Resolve`, the state change of `load(names:)` by `LoadStep`, and the
    class keeps the source's two stored properties and is proved against
    those functions. */
module EnvironmentField {
  import opened Wrappers
  import opened Text
  import opened ValueCoercion
  import opened ConfigErrors

  /** `ProcessInfo.processInfo.environment`. */
  type Env = map<string, string>

  /** Every name as given, uppercased and lowercased, in that order, name after
      name. */
  function AllNameCases(names: seq<string>): (keys: seq<string>)
    ensures |keys| == 3 * |names|
    ensures forall i :: 0 <= i < |names| ==> keys[3 * i] == names[i]
    ensures forall i :: 0 <= i < |names| ==> keys[3 * i + 1] == Upper(names[i])
    ensures forall i :: 0 <= i < |names| ==> keys[3 * i + 2] == Lower(names[i])
  {
    if |names| == 0 then []
    else
      var rest := AllNameCases(names[1..]);
      assert forall i :: 1 <= i < |names| ==> names[i] == names[1..][i - 1];
      [names[0], Upper(names[0]), Lower(names[0])] + rest
  }

  lemma {:induction false} AllNameCasesAppend(a: seq<string>, b: seq<string>)
    ensures AllNameCases(a + b) == AllNameCases(a) + AllNameCases(b)
    decreases |a|
  {
    if |a| > 0 {
      assert (a + b)[0] == a[0];
      assert (a + b)[1..] == a[1..] + b;
      AllNameCasesAppend(a[1..], b);
      var head := [a[0], Upper(a[0]), Lower(a[0])];
      assert AllNameCases(a + b) == head + AllNameCases(a[1..] + b);
      assert AllNameCases(a) == head + AllNameCases(a[1..]);
    } else {
      assert a + b == b;
    }
  }

  /** The value of the first key present in the environment. Presence alone
      decides: a key bound to the empty string is found like any other. */
  function FirstPresent(env: Env, keys: seq<string>): (r: Option<string>)
    ensures r.None? <==> forall i :: 0 <= i < |keys| ==> keys[i] !in env
  {
    if |keys| == 0 then None
    else if keys[0] in env then Some(env[keys[0]])
    else
      assert forall i :: 1 <= i < |keys| ==> keys[i] == keys[1..][i - 1];
      FirstPresent(env, keys[1..])
  }

  /** The key at `i` is found when it is present and no earlier key is. */
  lemma {:induction false} FirstPresentAt(env: Env, keys: seq<string>, i: nat)
    requires i < |keys| && keys[i] in env
    requires forall j :: 0 <= j < i ==> keys[j] !in env
    ensures FirstPresent(env, keys) == Some(env[keys[i]])
    decreases i
  {
    if i > 0 {
      assert forall j :: 0 <= j < i - 1 ==> keys[1..][j] == keys[j + 1];
      FirstPresentAt(env, keys[1..], i - 1);
    }
  }

  /** Later keys are consulted only when no earlier key is present. */
  lemma {:induction false} FirstPresentAppend(env: Env, a: seq<string>, b: seq<string>)
    ensures FirstPresent(env, a + b)
         == if FirstPresent(env, a).Some? then FirstPresent(env, a) else FirstPresent(env, b)
    decreases |a|
  {
    if |a| > 0 {
      assert (a + b)[1..] == a[1..] + b;
      FirstPresentAppend(env, a[1..], b);
    } else {
      assert a + b == b;
    }
  }

  /** The string `fetch` finds for `names`, if any. */
  function Lookup(env: Env, names: seq<string>): Option<string> {
    FirstPresent(env, AllNameCases(names))
  }

  /** The parsed value `fetch` finds for `names`, if any. */
  function Fetched(env: Env, names: seq<string>, kind: ValueType): Option<Value> {
    match Lookup(env, names)
    case Some(raw) => Parse(kind, raw)
    case None => None
  }

  /** `fetch(names:fallback:)`: the value parsed from the first present key,
      or the fallback when no key is present or its value does not parse. */
  function Resolve(env: Env, names: seq<string>, kind: ValueType, fallback: Option<Value>): (r: Option<Value>)
    ensures Fetched(env, names, kind).Some? ==> r == Fetched(env, names, kind)
    ensures Fetched(env, names, kind).None? ==> r == fallback
  {
    match Lookup(env, names)
    case Some(raw) =>
      (match Parse(kind, raw)
       case Some(v) => Some(v)
       case None => fallback)
    case None => fallback
  }

  /** A resolved value has the field's type when the fallback has it. */
  lemma ResolveTyped(env: Env, names: seq<string>, kind: ValueType, fallback: Option<Value>)
    requires fallback.Some? ==> HasType(fallback.value, kind)
    ensures Resolve(env, names, kind, fallback).Some? ==>
              HasType(Resolve(env, names, kind, fallback).value, kind)
  {
  }

  /** With a fallback there is always a value: a bad or missing variable
      never raises anything by itself. */
  lemma ResolveWithFallback(env: Env, names: seq<string>, kind: ValueType, fallback: Value)
    ensures Resolve(env, names, kind, Some(fallback)).Some?
  {
  }

  /** The names are tried in order; a later name matters only when no case
      variant of the earlier ones is present. */
  lemma LookupAppend(env: Env, a: seq<string>, b: seq<string>)
    ensures Lookup(env, a + b) == if Lookup(env, a).Some? then Lookup(env, a) else Lookup(env, b)
  {
    AllNameCasesAppend(a, b);
    FirstPresentAppend(env, AllNameCases(a), AllNameCases(b));
  }

  /** For one name: as given first, then uppercased, then lowercased. */
  lemma LookupOneName(env: Env, name: string)
    ensures name in env ==> Lookup(env, [name]) == Some(env[name])
    ensures name !in env && Upper(name) in env ==> Lookup(env, [name]) == Some(env[Upper(name)])
    ensures name !in env && Upper(name) !in env && Lower(name) in env ==>
              Lookup(env, [name]) == Some(env[Lower(name)])
    ensures name !in env && Upper(name) !in env && Lower(name) !in env ==>
              Lookup(env, [name]) == None
  {
    var keys := AllNameCases([name]);
    assert keys == [name, Upper(name), Lower(name)];
    if name in env {
      FirstPresentAt(env, keys, 0);
    } else if Upper(name) in env {
      FirstPresentAt(env, keys, 1);
    } else if Lower(name) in env {
      FirstPresentAt(env, keys, 2);
    }
  }

  /** When no case variant of any name is present, nothing is found. */
  lemma {:induction false} LookupAbsent(env: Env, names: seq<string>)
    requires forall i :: 0 <= i < |names| ==>
               names[i] !in env && Upper(names[i]) !in env && Lower(names[i]) !in env
    ensures Lookup(env, names) == None
    decreases |names|
  {
    if |names| > 0 {
      assert names == [names[0]] + names[1..];
      assert forall i :: 0 <= i < |names| - 1 ==> names[1..][i] == names[i + 1];
      LookupAbsent(env, names[1..]);
      LookupOneName(env, names[0]);
      LookupAppend(env, [names[0]], names[1..]);
    }
  }

  // ----- the state of a field -----

  /** The two stored properties of an `EnvField`: whether it was given a name
      (at creation or by a load), and the backing value, absent when a field
      created without a default has not been loaded successfully. */
  datatype FieldState = FieldState(initialized: bool, value: Option<Value>)

  /** `hasImplicitName()`: the field still waits for a name from a load. */
  predicate ImplicitName(st: FieldState) {
    !st.initialized
  }

  /** `load(names:)`: the field counts as initialized from the start, the
      current value is the fallback, and the load fails only when neither the
      environment nor that fallback gives a value; the error carries the names
      as given and the type's name. */
  function LoadStep(env: Env, names: seq<string>, kind: ValueType, st: FieldState): (FieldState, Option<ConfigError>) {
    match Resolve(env, names, kind, st.value)
    case Some(v) => (FieldState(true, Some(v)), None)
    case None => (FieldState(true, st.value), Some(UnparsableOrMissingValue(names, TypeName(kind))))
  }

  /** The load fails exactly when nothing parses and there is no value to fall
      back on; then the value is left as it was and only the flag changes. */
  lemma LoadFailsIff(env: Env, names: seq<string>, kind: ValueType, st: FieldState)
    ensures LoadStep(env, names, kind, st).1.Some? <==>
              Fetched(env, names, kind).None? && st.value.None?
    ensures LoadStep(env, names, kind, st).1.Some? ==>
              && LoadStep(env, names, kind, st).0 == FieldState(true, st.value)
              && LoadStep(env, names, kind, st).1.value == UnparsableOrMissingValue(names, TypeName(kind))
  {
  }

  /** After a load, successful or not, the field no longer has an implicit
      name. */
  lemma LoadInitializes(env: Env, names: seq<string>, kind: ValueType, st: FieldState)
    ensures !ImplicitName(LoadStep(env, names, kind, st).0)
  {
  }

  /** A successful load stores the parsed value when there is one, and keeps
      the current value otherwise. */
  lemma LoadSucceeds(env: Env, names: seq<string>, kind: ValueType, st: FieldState)
    ensures Fetched(env, names, kind).Some? ==>
              LoadStep(env, names, kind, st) == (FieldState(true, Fetched(env, names, kind)), None)
    ensures Fetched(env, names, kind).None? && st.value.Some? ==>
              LoadStep(env, names, kind, st) == (FieldState(true, st.value), None)
  {
  }

  /** A field with an explicit name, reloaded by `EnvironmentConfig.load` under
      keys that are all absent, keeps its value. */
  lemma ReloadKeepsValue(env: Env, names: seq<string>, kind: ValueType, st: FieldState)
    requires st.initialized && st.value.Some?
    requires forall i :: 0 <= i < |names| ==>
               names[i] !in env && Upper(names[i]) !in env && Lower(names[i]) !in env
    ensures LoadStep(env, names, kind, st) == (st, None)
  {
    LookupAbsent(env, names);
  }

  /** Loading twice with the same environment and names is loading once. */
  lemma LoadIdempotent(env: Env, names: seq<string>, kind: ValueType, st: FieldState)
    ensures LoadStep(env, names, kind, LoadStep(env, names, kind, st).0) == LoadStep(env, names, kind, st)
  {
  }

  /** A load keeps the field's value of its type. */
  lemma LoadTyped(env: Env, names: seq<string>, kind: ValueType, st: FieldState)
    requires st.value.Some? ==> HasType(st.value.value, kind)
    ensures LoadStep(env, names, kind, st).0.value.Some? ==>
              HasType(LoadStep(env, names, kind, st).0.value.value, kind)
  {
    ResolveTyped(env, names, kind, st.value);
  }

  /** Why reading `wrappedValue` can stop the program. */
  datatype Fault = UninitializedAccess | MissingValue

  /** `wrappedValue`: a fatal error while the field has an implicit name,
      otherwise the stored value (the implicitly unwrapped backing value is
      unwrapped, which fails when it is absent). */
  function Read(st: FieldState): (r: Result<Value, Fault>)
    ensures r.Success? <==> st.initialized && st.value.Some?
    ensures r.Success? ==> r.value == st.value.value
    ensures ImplicitName(st) ==> r == Failure(UninitializedAccess)
  {
    if !st.initialized then Failure(UninitializedAccess)
    else match st.value
      case Some(v) => Success(v)
      case None => Failure(MissingValue)
  }

  /** A successful load makes the field readable, with the loaded value. */
  lemma ReadAfterLoad(env: Env, names: seq<string>, kind: ValueType, st: FieldState)
    requires LoadStep(env, names, kind, st).1.None?
    ensures Read(LoadStep(env, names, kind, st).0) == Success(Resolve(env, names, kind, st.value).value)
  {
  }

  /** `description`. */
  function DescriptionOf(st: FieldState): string {
    if !st.initialized then "EnvField: Uninitialized"
    else match st.value
      case Some(v) => "EnvField: " + Describe(v)
      case None => "EnvField: nil"
  }

  /** The description of a readable field of a non-optional type shows its
      value: the text after the `EnvField: ` label parses back to it. */
  lemma DescriptionShowsValue(st: FieldState, kind: ValueType)
    requires !kind.OptionalType? && Read(st).Success? && HasType(Read(st).value, kind)
    ensures |DescriptionOf(st)| >= 10 && DescriptionOf(st)[..10] == "EnvField: "
    ensures Parse(kind, DescriptionOf(st)[10..]) == Some(Read(st).value)
  {
    DescribeParses(kind, Read(st).value);
  }

  // ----- the property wrapper -----

  class EnvField {
    /** The wrapped type `T`. */
    const kind: ValueType
    var initialized: bool
    var value: Option<Value>

    function State(): FieldState
      reads this
    {
      FieldState(initialized, value)
    }

    /** The backing value, when there is one, is of the wrapped type: the
        defaults are of type `T` and a load stores only what parses as `T`. */
    ghost predicate Valid()
      reads this
    {
      value.Some? ==> HasType(value.value, kind)
    }

    /** `init(defaultValue:)`: the name comes later from
        `EnvironmentConfig.load`; the default waits in the backing value. */
    constructor (kind: ValueType, defaultValue: Option<Value> := None)
      requires defaultValue.Some? ==> HasType(defaultValue.value, kind)
      ensures this.kind == kind
      ensures State() == FieldState(false, defaultValue)
      ensures HasImplicitName()
      ensures Valid()
    {
      this.kind := kind;
      initialized := false;
      value := defaultValue;
    }

    /** `init(name:)` for a non-optional type. A missing or unparsable
        variable is a fatal error there, so creating the field requires that
        the name resolves. */
    constructor Named(env: Env, kind: ValueType, name: string)
      requires !kind.OptionalType?
      requires Resolve(env, [name], kind, None).Some?
      ensures this.kind == kind
      ensures State() == FieldState(true, Resolve(env, [name], kind, None))
      ensures !HasImplicitName()
      ensures Valid()
    {
      this.kind := kind;
      initialized := true;
      var fetched := Fetch(env, [name], kind, None);
      ResolveTyped(env, [name], kind, None);
      value := fetched;
    }

    /** `init(name:defaultValue:)`: never fails. */
    constructor WithDefault(env: Env, kind: ValueType, name: string, defaultValue: Value)
      requires HasType(defaultValue, kind)
      ensures this.kind == kind
      ensures State() == FieldState(true, Resolve(env, [name], kind, Some(defaultValue)))
      ensures !HasImplicitName()
      ensures Valid()
    {
      this.kind := kind;
      initialized := true;
      var fetched := Fetch(env, [name], kind, Some(defaultValue));
      ResolveTyped(env, [name], kind, Some(defaultValue));
      value := fetched;
    }

    /** `init(name:)` and `init(name:defaultValue:)` for an optional type: the
        default is `nil` when none is given, so a missing variable gives `nil`
        rather than a fatal error. */
    constructor OptionalNamed(env: Env, kind: ValueType, name: string, defaultValue: Value := NilValue)
      requires kind.OptionalType?
      requires HasType(defaultValue, kind)
      ensures this.kind == kind
      ensures State() == FieldState(true, Resolve(env, [name], kind, Some(defaultValue)))
      ensures !HasImplicitName()
      ensures Valid()
    {
      this.kind := kind;
      initialized := true;
      var fetched := Fetch(env, [name], kind, Some(defaultValue));
      ResolveTyped(env, [name], kind, Some(defaultValue));
      value := fetched;
    }

    /** `fetch`: builds the list of name variants, then stops at the first one
        present in the environment. */
    static method Fetch(env: Env, names: seq<string>, kind: ValueType, fallback: Option<Value>)
      returns (r: Option<Value>)
      ensures r == Resolve(env, names, kind, fallback)
    {
      var allNameCases: seq<string> := [];
      for i := 0 to |names|
        invariant allNameCases == AllNameCases(names[..i])
      {
        AllNameCasesAppend(names[..i], [names[i]]);
        assert names[..i + 1] == names[..i] + [names[i]];
        allNameCases := allNameCases + [names[i], Upper(names[i]), Lower(names[i])];
      }
      assert names[..|names|] == names;
      var envValue: Option<string> := None;
      for j := 0 to |allNameCases|
        invariant FirstPresent(env, allNameCases) == FirstPresent(env, allNameCases[j..])
      {
        assert allNameCases[j..][1..] == allNameCases[j + 1..];
        if allNameCases[j] in env {
          envValue := Some(env[allNameCases[j]]);
          break;
        }
      }
      assert envValue == Lookup(env, names);
      r := fallback;
      if envValue.Some? {
        var parsed := Parse(kind, envValue.value);
        if parsed.Some? {
          r := parsed;
        }
      }
    }

    /** `load(names:)`. */
    method Load(env: Env, names: seq<string>) returns (err: Option<ConfigError>)
      requires Valid()
      modifies this
      ensures (State(), err) == LoadStep(env, names, kind, old(State()))
      ensures !HasImplicitName()
      ensures Valid()
    {
      LoadTyped(env, names, kind, State());
      initialized := true;
      var fetched := Fetch(env, names, kind, value);
      if fetched.None? {
        return Some(UnparsableOrMissingValue(names, TypeName(kind)));
      }
      value := fetched;
      err := None;
    }

    predicate HasImplicitName()
      reads this
    {
      ImplicitName(State())
    }

    function WrappedValue(): Result<Value, Fault>
      reads this
    {
      Read(State())
    }

    function Description(): string
      reads this
    {
      DescriptionOf(State())
    }
  }

  // ----- the environment of the test suite -----

  function TestEnv(): Env {
    map["envconfig_string" := "foo", "ENVCONFIG_STRING_UPPERCASE" := "bar", "envconfig_integer" := "2"]
  }

  const IntKind := IntegerType(IntType(true, Word))

  /** Fields with explicit names and defaults read the variable when it is set
      and parses, and the default otherwise. */
  lemma ReadEnvExample()
    ensures Resolve(TestEnv(), ["envconfig_string"], StringType, Some(StringValue("foobar")))
         == Some(StringValue("foo"))
    ensures Resolve(TestEnv(), ["ENVCONFIG_STRING_UPPERCASE"], StringType, Some(StringValue("foobar")))
         == Some(StringValue("bar"))
    ensures Resolve(TestEnv(), ["envconfig_integer"], IntKind, Some(IntValue(2))) == Some(IntValue(2))
  {
    var env := TestEnv();
    LookupOneName(env, "envconfig_string");
    LookupOneName(env, "ENVCONFIG_STRING_UPPERCASE");
    LookupOneName(env, "envconfig_integer");
    IntegerLimitExamples();
  }

  /** A missing variable gives the default, or `nil` for an optional field
      without one, and is fatal for a non-optional field without one. */
  lemma MissingExample()
    ensures Resolve(TestEnv(), ["envconfig_missing"], IntKind, Some(IntValue(3))) == Some(IntValue(3))
    ensures Resolve(TestEnv(), ["envconfig_missing"], OptionalType(IntKind), Some(NilValue)) == Some(NilValue)
    ensures Resolve(TestEnv(), ["envconfig_missing"], IntKind, None) == None
  {
    var env := TestEnv();
    var name := "envconfig_missing";
    assert name !in env;
    assert Upper(name)[0] == 'E' && Upper(name)[9] == '_';
    assert Upper(name) !in env;
    assert Lower(name) == name;
    LookupOneName(env, name);
  }
}
