# EnvironmentConfig in Dafny

A Dafny model of SwiftEnvironmentConfig. The library binds process
environment variables to typed fields of a configuration struct. Each field is
a property wrapper `EnvField<T>`. The field is named explicitly at creation
(`@EnvField(name: "PORT")`), or it gets its name later, from its property
label, when `EnvironmentConfig.load(_:prefix:)` walks the struct.

The model has these modules:

- `Wrappers` holds `Option` (Swift's `T?`) and `Result`.
- `Text` holds ASCII case mapping, `joined(separator:)` and splitting.
- `SnakeCase` holds `String.convertToSnakeCase()`. The source's
  `while let` loop is a method, `FindWordRanges`. It is proved equal to a
  recursive scan, `Scan`. The lemmas prove the properties of the word split
  about that scan.
- `ValueCoercion` covers the closed set of field types (String, Bool, the ten
  fixed-width integers, and optionals of these) and `from(envValue:)` for each.
  It also has the type names used in errors, and `String(describing:)` of
  values.
- `ConfigErrors` holds `EnvironmentConfigError` and its `errorDescription`.
- `EnvironmentField` holds the class `EnvField`. Its fields are `initialized`
  and `value`, and `kind` stands for the generic `T`. It has a static `Fetch`
  with the source's two loops, the initialisers, `Load`, `HasImplicitName`,
  `WrappedValue` and `Description`. The methods are proved against pure
  functions of the state: `Resolve` specifies `fetch`, `LoadStep` specifies
  `load(names:)`, and `Read` specifies `wrappedValue`. Swift's type checker
  guarantees that the backing value is a `T`. Here that guarantee is the
  invariant `Valid`. The initialisers require a default of the wrapped type,
  establish `Valid`, and both loads keep it.
- `EnvironmentConfig` holds the prefix normalisation, `possibleEnvironmentKeys`
  and `load`. The loop of `load` is a method over the struct's children. It is
  proved against `LoadPass`, which is a pure pass over snapshots of the
  fields.

The environment is a `map<string, string>` parameter. Reflection over the
target struct is replaced by a sequence of children. Each child has an
optional label and, when it is an `EnvField`, a reference to that field.

Three behaviours of the code worth noting:

- An empty prefix `""` gives the key base `_`, not the same keys as no prefix.
  `EnvironmentConfig.BaseEmptyPrefix` shows this.
- `load` reloads every wrapped field, including those named at creation.
  `hasImplicitName` is never consulted, and the value an explicit field
  already holds acts as the fallback (`EnvironmentConfig.ExplicitFieldReloaded`).
- The first *present* key wins, even when its value is the empty string.

## Model

| member | source | states |
|---|---|---|
| SnakeCase.NextUpper | Sources/EnvironmentConfig/String+SnakeCase.swift:26 | the uppercase search stays within the search range and, when it finds something, points at an uppercase letter |
| SnakeCase.NextUpperIsFirst | Sources/EnvironmentConfig/String+SnakeCase.swift:26 | no uppercase letter lies between the start of the search range and the one found |
| SnakeCase.NextLower | Sources/EnvironmentConfig/String+SnakeCase.swift:31-32 | the lowercase search stays within the range and, when it finds something, points at a lowercase letter |
| SnakeCase.NextLowerIsFirst | Sources/EnvironmentConfig/String+SnakeCase.swift:31-32 | no lowercase letter lies between the capital and the lowercase letter found |
| SnakeCase.NextUpperAtMost | Sources/EnvironmentConfig/String+SnakeCase.swift:26 | the uppercase search stops at or before any capital of its range |
| SnakeCase.NextLowerAtMost | Sources/EnvironmentConfig/String+SnakeCase.swift:31-32 | the lowercase search stops at or before any lowercase letter of its range |
| SnakeCase.Scan | Sources/EnvironmentConfig/String+SnakeCase.swift:22-54 | the ranges the loop records from a loop state; `ScanTiles` states that they tile the rest of the input, and `CamelBoundary`, `AcronymBoundary` and `TrailingBoundary` state its three boundary rules for every input |
| SnakeCase.ScanWordStep | Sources/EnvironmentConfig/String+SnakeCase.swift:40-43 | when a lowercase letter directly follows the capital, the capital closes the current word and starts the next |
| SnakeCase.ScanAcronymStep | Sources/EnvironmentConfig/String+SnakeCase.swift:44-52 | when it does not, the run of capitals without its last capital is recorded and the search resumes after the lowercase letter |
| SnakeCase.ScanTiles | Sources/EnvironmentConfig/String+SnakeCase.swift:22-54 | the recorded word ranges start at the first character, are non-empty and contiguous, and end at the end of the input |
| SnakeCase.TilingWordStep | Sources/EnvironmentConfig/String+SnakeCase.swift:40-43 | the word step keeps the ranges a tiling |
| SnakeCase.TilingAcronymStep | Sources/EnvironmentConfig/String+SnakeCase.swift:44-52 | the acronym step keeps the ranges a tiling |
| SnakeCase.AdvanceToEnd | Sources/EnvironmentConfig/String+SnakeCase.swift:27-36 | with no lowercase letter after the capital, the loop stops and the capital starts the last word |
| SnakeCase.AdvanceWord | Sources/EnvironmentConfig/String+SnakeCase.swift:27-28 | a capital directly followed by a lowercase letter ends the current word and starts the next one |
| SnakeCase.AdvanceAcronym | Sources/EnvironmentConfig/String+SnakeCase.swift:44-52 | a run of capitals before a lowercase letter becomes its own word, without its last capital, which starts the next word |
| SnakeCase.FindWordRanges | Sources/EnvironmentConfig/String+SnakeCase.swift:22-54 | the loop records exactly the word ranges of the input; it terminates because the lower bound of the search range strictly increases |
| SnakeCase.ConvertToSnakeCase | Sources/EnvironmentConfig/String+SnakeCase.swift:12-59 | the result is the lowercased words joined with `_`; it has no capitals; an input without capitals, the empty one included, comes back unchanged |
| SnakeCase.SnakeCase | Sources/EnvironmentConfig/String+SnakeCase.swift:12-59 | the result of `convertToSnakeCase`; its properties are stated by `ConvertToSnakeCase`, `SnakeCaseHasNoUpper`, `SnakeCaseChangesIffUpper`, `SnakeCaseIdempotent` and `SnakeCaseSeparators` |
| SnakeCase.WordAt | Sources/EnvironmentConfig/String+SnakeCase.swift:55-56 | each word is the slice of the input its range names |
| SnakeCase.ScanNext | Sources/EnvironmentConfig/String+SnakeCase.swift:26-52 | an iteration that finds a capital and a lowercase letter after it resumes the search right after that letter |
| SnakeCase.ScanStepBefore | Sources/EnvironmentConfig/String+SnakeCase.swift:26-52 | an iteration that does not land on a given capital after a lowercase letter stops at the latest just after that letter |
| SnakeCase.ReachCapital | Sources/EnvironmentConfig/String+SnakeCase.swift:26-53 | every capital right after a lowercase letter is found by one of the loop's uppercase searches |
| SnakeCase.CamelScan | Sources/EnvironmentConfig/String+SnakeCase.swift:26-43 | at such a capital followed by a lowercase letter, the current word is closed at the capital |
| SnakeCase.CamelBoundary | Sources/EnvironmentConfig/String+SnakeCase.swift:16-43 | for every input, a capital between two lowercase letters ends one word and starts the next |
| SnakeCase.AcronymScan | Sources/EnvironmentConfig/String+SnakeCase.swift:26-52 | at a run of two or more capitals between lowercase letters, the run without its last capital is recorded as a word |
| SnakeCase.AcronymBoundary | Sources/EnvironmentConfig/String+SnakeCase.swift:44-52 | for every input, such a run without its last capital is a word's range, and the next word starts at that last capital |
| SnakeCase.AcronymWord | Sources/EnvironmentConfig/String+SnakeCase.swift:44-56 | for every input, such a run without its last capital is one of the words |
| SnakeCase.TrailingBoundary | Sources/EnvironmentConfig/String+SnakeCase.swift:32-36 | for every input, a capital after a lowercase letter with no lowercase letter after it starts the last word, which runs to the end |
| SnakeCase.SnakeCaseHasNoUpper | Sources/EnvironmentConfig/String+SnakeCase.swift:55-57 | every word is lowercased before joining, so the output has no capitals |
| SnakeCase.NoUpperUnchanged | Sources/EnvironmentConfig/String+SnakeCase.swift:13-57 | an input without capitals is one word and is returned unchanged |
| SnakeCase.SingleWord | Sources/EnvironmentConfig/String+SnakeCase.swift:26-54 | without a capital after the first character the input is a single word, and the result is the input lowercased |
| SnakeCase.SnakeCaseChangesIffUpper | Sources/EnvironmentConfig/String+SnakeCase.swift:12-59 | conversion changes the input if and only if it has a capital |
| SnakeCase.SnakeCaseIdempotent | Sources/EnvironmentConfig/String+SnakeCase.swift:12-59 | converting twice is converting once |
| SnakeCase.TilingConcat | Sources/EnvironmentConfig/String+SnakeCase.swift:22-54 | contiguous ranges from a start position cover the input from that position |
| SnakeCase.WordsConcat | Sources/EnvironmentConfig/String+SnakeCase.swift:22-54 | the words concatenated without separators are the input |
| SnakeCase.SnakeCaseSeparators | Sources/EnvironmentConfig/String+SnakeCase.swift:55-57 | for an input without `_`, splitting the result at `_` gives the lowercased words, and their concatenation is the lowercased input |
| SnakeCase.MyPropertyWords | Sources/EnvironmentConfig/String+SnakeCase.swift:18-43 | `myProperty` splits into `my` and `Property` |
| SnakeCase.MyPropertyExample | Sources/EnvironmentConfig/String+SnakeCase.swift:18 | `myProperty` becomes `my_property` |
| SnakeCase.MyPropertyLowered | Sources/EnvironmentConfig/String+SnakeCase.swift:55-56 | those words lowercase to `my` and `property` |
| SnakeCase.AcronymWords | Sources/EnvironmentConfig/String+SnakeCase.swift:19-51 | `myURLProperty` splits into `my`, `URL` and `Property`: the run splits before its last capital |
| SnakeCase.AcronymLowered | Sources/EnvironmentConfig/String+SnakeCase.swift:55-56 | those words lowercase to `my`, `url` and `property` |
| SnakeCase.AcronymExample | Sources/EnvironmentConfig/String+SnakeCase.swift:19 | `myURLProperty` becomes `my_url_property` |
| SnakeCase.CamelCaseWords | Sources/EnvironmentConfig/String+SnakeCase.swift:40-43 | `camelCase` splits into `camel` and `Case` |
| SnakeCase.CamelCaseExample | Tests/EnvironmentConfigTests/EnvironmentConfigTests.swift:94-121 | `camelCase` becomes `camel_case`, the key the test sets |
| SnakeCase.CamelCaseLowered | Sources/EnvironmentConfig/String+SnakeCase.swift:55-56 | those words lowercase to `camel` and `case` |
| SnakeCase.TrailingCapitalsWords | Sources/EnvironmentConfig/String+SnakeCase.swift:32-54 | a trailing run of capitals with no lowercase letter after it is the final word |
| SnakeCase.TrailingCapitalsExample | Sources/EnvironmentConfig/String+SnakeCase.swift:32-54 | `fooBAR` becomes `foo_bar` |
| Text.Lower | Sources/EnvironmentConfig/String+SnakeCase.swift:56 | `lowercased()` keeps the length; `LowerHasNoUpper` and `LowerOfNoUpper` state what it does |
| Text.LowerHasNoUpper | Sources/EnvironmentConfig/String+SnakeCase.swift:56 | a lowercased string has no capitals |
| Text.LowerOfNoUpper | Sources/EnvironmentConfig/EnvironmentField.swift:21 | lowercasing a string without capitals changes nothing |
| Text.LowerAppend | Sources/EnvironmentConfig/String+SnakeCase.swift:55-56 | lowercasing distributes over concatenation |
| Text.Upper | Sources/EnvironmentConfig/EnvironmentField.swift:20 | `uppercased()` keeps the length; no lowercase letter survives it |
| Text.Join | Sources/EnvironmentConfig/String+SnakeCase.swift:57 | `joined(separator:)`; `SplitJoin` states that splitting at a separator no word contains gives the words back, and `JoinHasNoUpper` and `JoinAvoids` what the result contains |
| Text.JoinHasNoUpper | Sources/EnvironmentConfig/String+SnakeCase.swift:57 | words and separator without capitals join to a string without capitals |
| Text.JoinAvoids | Sources/EnvironmentConfig/EnvironmentConfig.swift:12 | a character in no word and not in the separator is not in the joined string |
| Text.SplitJoin | Sources/EnvironmentConfig/EnvironmentConfig.swift:12 | splitting the join at a separator no word contains gives the words back |
| Text.ConcatLowerAll | Sources/EnvironmentConfig/String+SnakeCase.swift:55-56 | concatenating lowercased words is lowercasing their concatenation |
| ValueCoercion.ParseStringIdentity | Sources/EnvironmentConfig/EnvironmentValueExtensions.swift:4-8 | String parsing always succeeds and is the identity, also under an optional |
| ValueCoercion.ParseBool | Sources/EnvironmentConfig/EnvironmentValueExtensions.swift:11-19 | `Bool.from(envValue:)`: `1` or `true` in any case, `0` or `false` in any case, otherwise nothing; `ParseBoolSpellings` and `ParseBoolRejects` state it |
| ValueCoercion.ParseBoolSpellings | Sources/EnvironmentConfig/EnvironmentValueExtensions.swift:12-17 | `true` and `false` parse in lower and upper case, and so do `1` and `0` |
| ValueCoercion.ParseBoolRejects | Sources/EnvironmentConfig/EnvironmentValueExtensions.swift:12-18 | only strings of length 1, 4 or 5 can parse as Bool; `""` and `yes` give no value; mixed case such as `True` and `fAlSe` parses |
| ValueCoercion.ParseInteger | Sources/EnvironmentConfig/EnvironmentValueExtensions.swift:22-26 | an integer parse yields a value in the type's range, and succeeds exactly when the text is an optionally signed decimal whose value is in range |
| ValueCoercion.DecimalRoundTrip | Sources/EnvironmentConfig/EnvironmentValueExtensions.swift:24 | the decimal rendering of any integer parses back to it |
| ValueCoercion.IntegerRoundTrip | Sources/EnvironmentConfig/EnvironmentValueExtensions.swift:24-40 | the rendering of an integer parses to it for a type iff the integer is in that type's range; out-of-range text gives no value |
| ValueCoercion.IntegerLimitExamples | Sources/EnvironmentConfig/EnvironmentValueExtensions.swift:30-40 | `2` is an Int 2; `255` is a UInt8 but `256` is not; `-128` is an Int8 |
| ValueCoercion.IntegerSignExamples | Sources/EnvironmentConfig/EnvironmentValueExtensions.swift:24 | `-0` is a UInt 0, `-1` is no UInt, `+7` is 7; empty text, a bare sign, a leading space and a decimal point give no value |
| ValueCoercion.Parse | Sources/EnvironmentConfig/EnvironmentValueExtensions.swift:4-40 | a parsed value always has the requested type |
| ValueCoercion.ParseOptional | Sources/EnvironmentConfig/EnvironmentField.swift:107-111 | an optional type accepts exactly what its wrapped type accepts, wrapping the parsed value |
| ValueCoercion.TypeNameRoundTrip | Sources/EnvironmentConfig/EnvironmentField.swift:49 | the type name carried by the error determines the type |
| ValueCoercion.TypeNameInjective | Sources/EnvironmentConfig/EnvironmentField.swift:49 | distinct types have distinct names |
| ValueCoercion.TypeName | Sources/EnvironmentConfig/EnvironmentField.swift:49 | `String(describing: T.self)`; `TypeNameRoundTrip` states that it determines the type |
| ValueCoercion.DescribeParses | Sources/EnvironmentConfig/EnvironmentField.swift:98-99 | the description of a non-optional value parses back to that value |
| ValueCoercion.Describe | Sources/EnvironmentConfig/EnvironmentField.swift:98-99 | `String(describing:)` of a value; `DescribeParses` states that a non-optional value is recovered by parsing it |
| ValueCoercion.DebugDescribe | Sources/EnvironmentConfig/EnvironmentField.swift:98-99 | the payload of `Optional(...)` in a description; `DebugDescribeQuotes` relates it to `Describe` |
| ValueCoercion.DebugDescribeQuotes | Sources/EnvironmentConfig/EnvironmentField.swift:98-99 | the payload rendering is the plain description, with quotes around a string |
| ConfigErrors.DescriptionRoundTrip | Sources/EnvironmentConfig/EnvironmentConfig.swift:8-15 | when no name contains `,` or `]`, the names and type can be read back from the error description |
| ConfigErrors.DescriptionInjective | Sources/EnvironmentConfig/EnvironmentConfig.swift:8-15 | for such errors, distinct errors have distinct descriptions |
| ConfigErrors.DescriptionExample | Sources/EnvironmentConfig/EnvironmentConfig.swift:12 | the description lists the names joined with `,` between brackets, then the wanted type, as in the concrete text |
| ConfigErrors.ErrorDescription | Sources/EnvironmentConfig/EnvironmentConfig.swift:9-13 | `errorDescription`; `DescriptionRoundTrip` and `DescriptionInjective` state that it loses nothing |
| EnvironmentField.AllNameCases | Sources/EnvironmentConfig/EnvironmentField.swift:16-22 | three keys per name, in name order: the name as given, uppercased, lowercased |
| EnvironmentField.AllNameCasesAppend | Sources/EnvironmentConfig/EnvironmentField.swift:16-22 | the keys of two lists of names are the keys of the first followed by those of the second |
| EnvironmentField.FirstPresent | Sources/EnvironmentConfig/EnvironmentField.swift:24-30 | the scan finds nothing exactly when no key is present |
| EnvironmentField.FirstPresentAt | Sources/EnvironmentConfig/EnvironmentField.swift:24-30 | the first present key wins, by presence alone, so an empty value also wins |
| EnvironmentField.FirstPresentAppend | Sources/EnvironmentConfig/EnvironmentField.swift:24-30 | later keys are consulted only when no earlier key is present |
| EnvironmentField.LookupOneName | Sources/EnvironmentConfig/EnvironmentField.swift:16-30 | for one name: the name as given first, then uppercased, then lowercased, else nothing |
| EnvironmentField.LookupAppend | Sources/EnvironmentConfig/EnvironmentField.swift:16-30 | a later name is consulted only when no case variant of the earlier names is present |
| EnvironmentField.LookupAbsent | Sources/EnvironmentConfig/EnvironmentField.swift:16-30 | when no case variant of any name is present, nothing is found |
| EnvironmentField.Lookup | Sources/EnvironmentConfig/EnvironmentField.swift:16-30 | the string the two loops find; `LookupOneName`, `LookupAppend` and `LookupAbsent` state the order and the absent case |
| EnvironmentField.Resolve | Sources/EnvironmentConfig/EnvironmentField.swift:34-37 | the parsed value of the found string when it parses, otherwise the fallback |
| EnvironmentField.ResolveTyped | Sources/EnvironmentConfig/EnvironmentField.swift:34-37 | a fetched value has the field's type when the fallback has it |
| EnvironmentField.ResolveWithFallback | Sources/EnvironmentConfig/EnvironmentField.swift:34-37 | with a fallback there is always a value: a bad or missing variable never raises by itself |
| EnvironmentField.LoadStep | Sources/EnvironmentConfig/EnvironmentField.swift:46-52 | `load(names:)` on the state; `LoadFailsIff`, `LoadSucceeds`, `LoadInitializes`, `ReloadKeepsValue`, `LoadIdempotent` and `LoadTyped` state it |
| EnvironmentField.EnvField.Fetch | Sources/EnvironmentConfig/EnvironmentField.swift:13-38 | the two loops (build the name variants, scan with break) compute exactly `Resolve` |
| EnvironmentField.LoadFailsIff | Sources/EnvironmentConfig/EnvironmentField.swift:46-51 | `load(names:)` throws iff nothing parses and there is no value to fall back on; the error carries the names as given and the type name; the value is kept and the flag is set |
| EnvironmentField.LoadInitializes | Sources/EnvironmentConfig/EnvironmentField.swift:47-56 | after a load, even a throwing one, the field no longer has an implicit name |
| EnvironmentField.LoadSucceeds | Sources/EnvironmentConfig/EnvironmentField.swift:48-51 | a load stores the parsed value when there is one and otherwise keeps the current value without error |
| EnvironmentField.ReloadKeepsValue | Sources/EnvironmentConfig/EnvironmentField.swift:48 | an explicitly named field whose reload keys are all absent keeps its value |
| EnvironmentField.LoadIdempotent | Sources/EnvironmentConfig/EnvironmentField.swift:46-52 | loading twice with the same environment and names is loading once |
| EnvironmentField.ImplicitName | Sources/EnvironmentConfig/EnvironmentField.swift:54-56 | true exactly while the field is uninitialized; the constructors' ensures and `LoadInitializes` say when it changes |
| EnvironmentField.EnvField.HasImplicitName | Sources/EnvironmentConfig/EnvironmentField.swift:54-56 | `hasImplicitName()` is `ImplicitName` of the field's state |
| EnvironmentField.LoadTyped | Sources/EnvironmentConfig/EnvironmentField.swift:46-52 | a load keeps the field's value of its declared type |
| EnvironmentField.EnvField.Load | Sources/EnvironmentConfig/EnvironmentField.swift:46-52 | the new state and the thrown error are those of `LoadStep` on the old state; the field is no longer implicit; a field whose value is of its type (`Valid`) stays so |
| EnvironmentField.EnvField.constructor | Sources/EnvironmentConfig/EnvironmentField.swift:40-44 | a lazy field is uninitialized, holds the default (`nil` when none is given) as its value, and has an implicit name; a default of the wrapped type makes the field `Valid` |
| EnvironmentField.EnvField.Named | Sources/EnvironmentConfig/EnvironmentField.swift:58-65 | `init(name:)` for a non-optional type is initialized with the fetched value; a missing or unparsable value is the fatal case, excluded by the precondition; the field is `Valid` |
| EnvironmentField.EnvField.WithDefault | Sources/EnvironmentConfig/EnvironmentField.swift:67-70 | `init(name:defaultValue:)` is initialized with the fetched value or the default; a default of the wrapped type makes the field `Valid` |
| EnvironmentField.EnvField.OptionalNamed | Sources/EnvironmentConfig/EnvironmentField.swift:80-90 | for an optional type both named initialisers fall back to the default, `nil` when none is given, so they are never fatal; a default of the wrapped type makes the field `Valid` |
| EnvironmentField.Read | Sources/EnvironmentConfig/EnvironmentField.swift:72-77 | `wrappedValue` is fatal while the field is uninitialized; otherwise it returns the stored value unchanged, and it fails only if no value is stored |
| EnvironmentField.ReadAfterLoad | Sources/EnvironmentConfig/EnvironmentField.swift:46-77 | after a successful load the field reads as the fetched value |
| EnvironmentField.DescriptionShowsValue | Sources/EnvironmentConfig/EnvironmentField.swift:92-105 | the description of a readable non-optional field is `EnvField: ` followed by text that parses back to the value |
| EnvironmentField.DescriptionOf | Sources/EnvironmentConfig/EnvironmentField.swift:93-103 | `description` on the state; `DescriptionShowsValue` states what it shows |
| EnvironmentField.ReadEnvExample | Tests/EnvironmentConfigTests/EnvironmentConfigTests.swift:16-51 | in the test environment the explicit fields read `foo`, `bar` (an uppercase name as given) and `2` |
| EnvironmentField.MissingExample | Tests/EnvironmentConfigTests/EnvironmentConfigTests.swift:39-89 | a missing variable gives the default, `nil` for an optional without a default, and nothing, the fatal case, without a default |
| EnvironmentConfig.Base | Sources/EnvironmentConfig/EnvironmentConfig.swift:21-31 | no prefix gives `""`; a prefix ending in `_` is used as it is; any other prefix gets `_` appended |
| EnvironmentConfig.BaseTrailingUnderscore | Sources/EnvironmentConfig/EnvironmentConfig.swift:22-31 | a prefix and the same prefix followed by `_` give the same base |
| EnvironmentConfig.BaseIdempotent | Sources/EnvironmentConfig/EnvironmentConfig.swift:24-25 | normalising a normalised prefix changes nothing |
| EnvironmentConfig.BaseEmptyPrefix | Sources/EnvironmentConfig/EnvironmentConfig.swift:22-31 | the empty prefix gives `_`, no prefix gives `""` |
| EnvironmentConfig.PossibleEnvironmentKeys | Sources/EnvironmentConfig/EnvironmentConfig.swift:18-41 | base+label first; a second key, base+snake(label), exactly when the label has a capital; one or two keys, never a duplicate |
| EnvironmentConfig.KeysTrailingUnderscore | Sources/EnvironmentConfig/EnvironmentConfig.swift:18-41 | `envconfig` and `envconfig_` style prefixes give identical keys |
| EnvironmentConfig.KeysOfLowerLabel | Sources/EnvironmentConfig/EnvironmentConfig.swift:33-38 | without a prefix, a label without capitals is its only key |
| EnvironmentConfig.KeysOfCamelLabel | Sources/EnvironmentConfig/EnvironmentConfig.swift:33-38 | without a prefix, a label with a capital has the keys label and snake(label) |
| EnvironmentConfig.Apply | Sources/EnvironmentConfig/EnvironmentConfig.swift:46-56 | a child without a label, that is not a field, or whose label is at most one character or lacks the leading `_`, is skipped; a loaded field stops being implicit; an error names the keys of the label without its first character, and the type |
| EnvironmentConfig.FirstFailure | Sources/EnvironmentConfig/EnvironmentConfig.swift:45-58 | the position of the first child whose load fails: all before it succeed, and it fails |
| EnvironmentConfig.PassOutcome | Sources/EnvironmentConfig/EnvironmentConfig.swift:45-58 | a pass applies every child up to the first failure, leaves the later ones untouched, and reports that failure's error |
| EnvironmentConfig.LoadPass | Sources/EnvironmentConfig/EnvironmentConfig.swift:43-59 | the pass `load` makes; `PassOutcome`, `LoadPassAt`, `LoadPassShape`, `LoadPassSucceeds` and `LoadPassFails` state it |
| EnvironmentConfig.LoadPassAt | Sources/EnvironmentConfig/EnvironmentConfig.swift:45-58 | the same, stated for `load` with a known first failure |
| EnvironmentConfig.LoadPassShape | Sources/EnvironmentConfig/EnvironmentConfig.swift:45-58 | a pass keeps the children, their labels and which of them are fields |
| EnvironmentConfig.LoadPassSucceeds | Sources/EnvironmentConfig/EnvironmentConfig.swift:45-58 | after a successful pass every eligible field is loaded and none has an implicit name |
| EnvironmentConfig.LoadPassFails | Sources/EnvironmentConfig/EnvironmentConfig.swift:45-58 | a failing pass stops at the first failing field, reports its keys and type, and does not load the later ones |
| EnvironmentConfig.LoadPassOfTwo | Sources/EnvironmentConfig/EnvironmentConfig.swift:45-58 | two children that both succeed are both applied and the pass succeeds |
| EnvironmentConfig.ExplicitFieldReloaded | Sources/EnvironmentConfig/EnvironmentConfig.swift:46-56 | an already named field is reloaded under its label's keys and keeps its value when they are all absent |
| EnvironmentConfig.LoadChild | Sources/EnvironmentConfig/EnvironmentConfig.swift:46-56 | one iteration of the loop changes the child's field as `Apply` says and returns its error; a `Valid` field stays `Valid` |
| EnvironmentConfig.Load | Sources/EnvironmentConfig/EnvironmentConfig.swift:43-59 | the fields' new states and the thrown error are those of `LoadPass` on the old states; fields that all hold values of their types keep doing so |
| EnvironmentConfig.PrefixTestKeys | Tests/EnvironmentConfigTests/EnvironmentConfigTests.swift:130-137 | the label `string` has the key `string`, and `envconfig_string` under the prefix `envconfig` |
| EnvironmentConfig.PrefixTestLookups | Tests/EnvironmentConfigTests/EnvironmentConfigTests.swift:130-138 | `string` is absent from the test environment and `envconfig_string` reads `foo` |
| EnvironmentConfig.PrefixFailedLoad | Tests/EnvironmentConfigTests/EnvironmentConfigTests.swift:134-135 | without a prefix the load throws for `string` and the field is initialized without a value |
| EnvironmentConfig.PrefixReload | Tests/EnvironmentConfigTests/EnvironmentConfigTests.swift:136-137 | that field loaded again with `envconfig` reads `foo` |
| EnvironmentConfig.PrefixFreshLoad | Tests/EnvironmentConfigTests/EnvironmentConfigTests.swift:139-142 | a fresh field loaded with `envconfig_` reads `foo` |
| EnvironmentConfig.PrefixExample | Tests/EnvironmentConfigTests/EnvironmentConfigTests.swift:134-142 | the load without a prefix throws and leaves the field initialized without a value; loading that same field again with `envconfig` reads `foo`; a fresh field loaded with `envconfig_` reads `foo` |
| EnvironmentConfig.IntegerKeyAbsent | Tests/EnvironmentConfigTests/EnvironmentConfigTests.swift:98-99 | the label `integer` has the one key `integer`, absent in every case variant |
| EnvironmentConfig.ExplicitReloadExample | Tests/EnvironmentConfigTests/EnvironmentConfigTests.swift:98-119 | the explicitly named `integer` survives the reload with its value 2 |
| EnvironmentConfig.CamelCaseLookup | Tests/EnvironmentConfigTests/EnvironmentConfigTests.swift:94-105 | `camelCase` is absent in every case variant, so `camel_case` is found |
| EnvironmentConfig.CamelCaseLoadExample | Tests/EnvironmentConfigTests/EnvironmentConfigTests.swift:94-121 | the implicit `camelCase` loads `bar` |
| EnvironmentConfig.ImplicitKeysExample | Tests/EnvironmentConfigTests/EnvironmentConfigTests.swift:92-124 | explicit and implicit names mixed in one struct: the pass succeeds with both values |

## Left out

- The process environment (`ProcessInfo`, `setenv`, `unsetenv`) is a map parameter. The model assumes it does not change during a load.
- `Mirror` reflection and the `as? AnyEnvField` cast are replaced by the sequence of children. Where a field is present, it is a reference to it.
- EnvironmentConfig.Load: requires that distinct children hold distinct field objects, as distinct property wrappers do. Aliased fields are not modelled.
- Unicode: case mapping, `CharacterSet.uppercaseLetters` and `lowercaseLetters`, and `caseInsensitiveCompare` are restricted to ASCII. Labels count `Character`s, which the model takes to be single characters.
- `fatalError` is one of two things. In `init(name:)` it is a precondition (EnvironmentField.EnvField.Named). In `wrappedValue` it is a `Failure` outcome (EnvironmentField.Read). The `file:` and `line:` diagnostics and the message texts are left out.
- EnvironmentField.EnvField.WrappedValue, EnvironmentField.EnvField.Description and EnvironmentField.EnvField.HasImplicitName: these delegate to the pure functions `Read`, `DescriptionOf` and `ImplicitName` of the state, and their properties are stated about those functions.
- ValueCoercion.DebugDescribe: does not model escaping of quotes or backslashes inside a string payload of an optional's description.
- ValueCoercion.ParseInteger: `Int` and `UInt` are taken to be 64 bits wide. The overflow check during accumulation is a range check on the final value; the outcome is the same.
- The `Any?` and double-optional force cast in `fetch` and `Optional.from`: an optional type parses its wrapped type and wraps the result.
- `EnvironmentValueInitializable` is only the signature of `Parse`. Package.swift, Tools/Package.swift, the precondition-catching test harness and the `print` loop in the test are not part of this model.
