# objectSpread in Dafny

A model of `ObjectExtensions.Spread<T>(params object[] sources)`, the
"object spread" of the objectSpread library. It creates a new `T` with
`new T()` and then visits each non-null source in order. For each readable
public instance property of a source, it looks up the target property with
exactly the same name. It copies the value when that property is writable
and its declared type is assignable from the source property's declared
type. A getter or setter that throws is caught and reported on the
console, and the merge goes on. The property lists of types come from a
process-wide cache (`GetPropertiesCached`, a `ConcurrentDictionary.GetOrAdd`).
The first same-named property is found by a linear search (`FindProperty`).

Modules, one file each:

- `Wrappers` (`wrappers.dfy`): `Option`.
- `Reflection` (`reflection.dfy`): the reflection surface as data.
  - Types, property descriptors, boxed values, and objects as maps from
    property name to value.
  - A `Host` record of functions supplies what the runtime computes:
    - `GetProperties`;
    - `IsAssignableFrom`;
    - the default values that `new T()` leaves;
    - whether a `SetValue` throws.
  - A getter that throws is a readable property with no entry in the source's values.
- `PropertyCache` (`property_cache.dfy`): the cache is a map that is threaded
  through the calls. `Sound` says that every entry is what introspection yields.
- `Spreader` (`spreader.dfy`): the operations.
  - `FindProperty`, `NewInstance` (`new T()`) and `TryCopy` (the inner loop
    body) come first.
  - `ApplySource` (the inner `foreach`) and `Merge` (the outer `foreach`) are
    forward folds.
  - `Spread` is the whole method, cache included. It returns the target and
    the property names the console would have reported (`errors`).
- `SpreadLaws` (`spread_laws.dfy`): the properties `Spread` promises, proved
  about the model.
  - "Last write wins" is stated against `LastWrite`, a reference defined
    independently of the fold. It searches backwards from the end of each
    source's property list and of the source list.
- `SpreadImpl` (`spread_impl.dfy`): the method in the source's own shape.
  - It has two nested loops with early exits, the linear lookup and the
    per-property catch.
  - It is proved equal to `Spreader.Spread`.
- `PersonExamples` (`person_examples.dfy`): the unit-test scenarios of
  `ObjectSpreadUnitTest.cs`, stated as lemmas over a concrete host.
  - `Person` has `Name: string`, `Age: int` and `Country: string`.
  - Anonymous source types have get-only properties.

A property that passes every check but whose getter or setter throws writes
nothing. The earlier value stays, and the name is reported. `LastWrite`
therefore counts only writes that succeed.

## Model

| member | source | states |
|---|---|---|
| Spreader.FindProperty | objectSpread/ObjectExtensions.cs:63-70 | The result is absent exactly when no property has the name (also stated as: the name is not among the declared names). A present result is the property at the first index with exactly that name. |
| SpreadLaws.FindPropertyFirst | objectSpread/ObjectExtensions.cs:63-70 | Given the first index whose property has the name, `FindProperty` returns that property and no other. |
| Spreader.NewInstance | objectSpread/ObjectExtensions.cs:15 | `new T()` has exactly the target type's property names. Each holds the default value of the declared type of the first property with that name. |
| Spreader.Copyable | objectSpread/ObjectExtensions.cs:31-37 | The static checks, stated on the first declaration of the name rather than through the search: the source property is readable, and the first target property with exactly its name is writable and accepts the source's declared type. |
| Spreader.TryCopy | objectSpread/ObjectExtensions.cs:29-50 | Exactly the properties that fail the static checks are skipped. One that passes them is assigned the value its getter returned when the setter does not throw. Otherwise the getter or the setter threw and the failure is reported under the source property's name. |
| Spreader.Record | objectSpread/ObjectExtensions.cs:42-47 | A successful set stores the value under its name and leaves every other property and the key set otherwise unchanged. Exactly a failure appends one report with its name. |
| Spreader.ApplySource | objectSpread/ObjectExtensions.cs:29-50 | Copying one source never adds or removes a target property. It only appends to the diagnostic channel. |
| Spreader.Step | objectSpread/ObjectExtensions.cs:23-50 | One outer iteration: a null source changes nothing. A non-null source keeps the target's shape and only appends reports. |
| Spreader.Merge | objectSpread/ObjectExtensions.cs:21-51 | The same two guarantees across all sources: the target's shape is kept, and reports are only appended. |
| Spreader.RuntimeTypes | objectSpread/ObjectExtensions.cs:23-26 | The set holds exactly the runtime types of the non-null sources. |
| Spreader.SpreadFrom | objectSpread/ObjectExtensions.cs:21-51 | With a sound cache, looking up source properties through the cache gives the same merge as fresh introspection, and the cache stays sound. The cache gains exactly the runtime types of the non-null sources and never replaces an entry. |
| Spreader.SpreadUncached | objectSpread/ObjectExtensions.cs:15-51 | `Spread` with every property list taken straight from introspection: the result has exactly the target type's property names. |
| Spreader.Spread | objectSpread/ObjectExtensions.cs:12-54 | The cache is transparent: with a sound cache the result equals the uncached merge over `new T()`. The cache gains `typeof(T)` and the sources' runtime types and nothing else, and keeps every existing entry. The result has exactly `T`'s property names. |
| PropertyCache.GetPropertiesCached | objectSpread/ObjectExtensions.cs:57-60 | GetOrAdd: afterwards the type is cached, mapped to the list returned. Only that key can be added. An existing entry is returned unchanged and no entry is replaced. A miss stores the introspected list. Soundness is preserved, and then the answer is the introspected list. |
| PropertyCache.GetPropertiesCachedIdempotent | objectSpread/ObjectExtensions.cs:57-60 | A second request for the same type returns the same list and leaves the cache as it is. |
| SpreadLaws.LastSomeBefore | objectSpread/ObjectExtensions.cs:21-51 | The reference "last write": absent exactly when nothing is written; otherwise the value at an index after which nothing more is written. |
| SpreadLaws.WrittenToNamed | objectSpread/ObjectExtensions.cs:31-42 | Only a readable source property with exactly the target property's name writes to it, and only when that property is writable and accepts the source's declared type. |
| SpreadLaws.ApplySourceSnoc | objectSpread/ObjectExtensions.cs:29-50 | The inner loop runs the properties in enumeration order: one more property is one more attempt, applied last. |
| SpreadLaws.ApplySourceValue | objectSpread/ObjectExtensions.cs:29-50 | Within one source, a target property ends with the value of the last source property that writes it. If none writes it, it keeps its value. |
| SpreadLaws.ApplySourceErrors | objectSpread/ObjectExtensions.cs:39-48 | Every new report names a source property that passed every static check and whose get or set then threw. |
| SpreadLaws.ApplySourceReportsFailures | objectSpread/ObjectExtensions.cs:29-50 | The reports one source adds are exactly its failed properties' names, in enumeration order: every caught failure is reported once, and nothing else is. |
| SpreadLaws.UnmatchedNeverReported | objectSpread/ObjectExtensions.cs:34-37 | A source property with no same-named target property never produces a report. |
| SpreadLaws.StepReports | objectSpread/ObjectExtensions.cs:23-50 | One outer iteration reports exactly the failed properties of that source, and nothing for a null source. |
| SpreadLaws.MergeReportsFailures | objectSpread/ObjectExtensions.cs:21-51 | Across the sources, the reports are exactly the failed properties, source by source, in order. |
| SpreadLaws.SpreadReportsFailures | objectSpread/ObjectExtensions.cs:12-54 | The reports of `Spread` are exactly the failed properties of the non-null sources, in order. |
| SpreadLaws.MergeAppend | objectSpread/ObjectExtensions.cs:21-51 | Merging a concatenation merges the first part, then the second starting from that result. |
| SpreadLaws.MergeSnoc | objectSpread/ObjectExtensions.cs:21-51 | The merge is a left fold: one more source is one more step on the result so far. |
| SpreadLaws.MergeValue | objectSpread/ObjectExtensions.cs:21-51 | Across sources, a target property ends with the value of the last source that writes it. If none writes it, it keeps its starting value. |
| SpreadLaws.SpreadFoldStep | objectSpread/ObjectExtensions.cs:12-54 | `Spread(s1..sn)` is the step for `sn` applied to `Spread(s1..sn-1)`; no other state is carried between sources. |
| SpreadLaws.NullSourceIsNoOp | objectSpread/ObjectExtensions.cs:23 | Inserting a null anywhere in the source list leaves the result unchanged. |
| SpreadLaws.NoSourcesIsDefault | objectSpread/ObjectExtensions.cs:15-18 | With no sources the result is `new T()`: every property of `T` holds its type's default, and nothing is reported. |
| SpreadLaws.LastWriteWins | objectSpread/ObjectExtensions.cs:21-51 | Every target property ends with the value from the last source that writes it, null included. If no source writes it, it keeps its default. |
| SpreadLaws.LaterSourceOverrides | objectSpread/ObjectExtensions.cs:21-51 | A value that source `i` writes, null included, is final when no later source writes that property. |
| SpreadLaws.ReadOnlyNeverWritten | objectSpread/ObjectExtensions.cs:37 | A target property that cannot be written keeps its default whatever the sources hold. |
| SpreadLaws.NotCopiedKeepsValue | objectSpread/ObjectExtensions.cs:31-37 | A source none of whose properties of a given name passes the static checks leaves that target property unchanged and reports nothing under the name. |
| SpreadLaws.IncompatibleTypeSkipped | objectSpread/ObjectExtensions.cs:37 | A source whose readable same-named properties all have types the target property does not accept leaves it as earlier sources left it, silently. |
| SpreadLaws.UnmatchedNameSkipped | objectSpread/ObjectExtensions.cs:31-37 | A source with no readable property of exactly the target property's name leaves that property unchanged, silently: names are matched exactly. |
| SpreadImpl.CopyProperty | objectSpread/ObjectExtensions.cs:31-48 | The inner loop body, with early `continue`, lookup, guard and catch, does exactly one attempt of the functional model. |
| SpreadImpl.CopySource | objectSpread/ObjectExtensions.cs:29-50 | The inner loop computes the functional inner fold. |
| SpreadImpl.SpreadLoops | objectSpread/ObjectExtensions.cs:12-54 | The method as written (construction, cached lookups, both loops) returns the same object, reports and cache as `Spreader.Spread`. |
| PersonExamples.FreshPerson | objectSpreadTests/ObjectSpreadUnitTest.cs:9-14 | `new Person()` has `Name` and `Country` null and `Age` zero. |
| PersonExamples.SpreadPerson | objectSpreadTests/ObjectSpreadUnitTest.cs:24 | From an empty cache, `Spread<Person>` is the merge over `new Person()`. |
| PersonExamples.CopyToPerson | objectSpreadTests/ObjectSpreadUnitTest.cs:9-14 | A readable source property with a `Person` property's name and type is copied. |
| PersonExamples.MismatchToPerson | objectSpreadTests/ObjectSpreadUnitTest.cs:88 | A `string` `Age` is skipped against the `int` `Age`. |
| PersonExamples.StepNameAge | objectSpreadTests/ObjectSpreadUnitTest.cs:20 | `{ Name = "Alice", Age = 25 }` sets exactly those two properties. |
| PersonExamples.StepAgeCountry | objectSpreadTests/ObjectSpreadUnitTest.cs:21 | `{ Age = 30, Country = "Wonderland" }` sets exactly those two properties. |
| PersonExamples.StepName | objectSpreadTests/ObjectSpreadUnitTest.cs:36 | `{ Name = "Alice" }` sets exactly `Name`. |
| PersonExamples.StepNullNameCountry | objectSpreadTests/ObjectSpreadUnitTest.cs:53 | `{ Name = null, Country = "Wonderland" }` writes the null and the country. |
| PersonExamples.StepNameAgeAsString | objectSpreadTests/ObjectSpreadUnitTest.cs:88 | `{ Name = "Alice", Age = "NotANumber" }` sets only `Name`. |
| PersonExamples.StepCountry | objectSpreadTests/ObjectSpreadUnitTest.cs:89 | `{ Country = "Wonderland" }` sets exactly `Country`. |
| PersonExamples.MergesFromMultipleObjects | objectSpreadTests/ObjectSpreadUnitTest.cs:17-30 | The result is Alice, 30, Wonderland (the later `Age` wins), with no reports. |
| PersonExamples.HandlesNullSources | objectSpreadTests/ObjectSpreadUnitTest.cs:33-46 | The result is Alice, 0, null (the null source is skipped), with no reports. |
| PersonExamples.OverwritesWithNull | objectSpreadTests/ObjectSpreadUnitTest.cs:49-62 | The result is null, 25, Wonderland (a later null overwrites), with no reports. |
| PersonExamples.DoesNotSetReadOnlyProperties | objectSpreadTests/ObjectSpreadUnitTest.cs:65-82 | The get-only `ReadOnlyProp` stays null. |
| PersonExamples.SkipsMismatchedTypes | objectSpreadTests/ObjectSpreadUnitTest.cs:85-98 | The result is Alice, 0, Wonderland (the `string` `Age` is skipped), with no reports. |
| PersonExamples.WorksWithNoSources | objectSpreadTests/ObjectSpreadUnitTest.cs:101-111 | The result is null, 0, null, with no reports. |

## Left out

- Reflection is not modelled; the `Host` functions stand in for it:
  - `Type.GetProperties(Public | Instance)` is `introspect`;
  - `IsAssignableFrom` is `accepts`;
  - the values `new T()` leaves are `zero`;
  - whether `SetValue` throws is `setFails`.

  CLR assignability and variance are therefore abstract. Constructor bodies
  and property initialisers are out too: `new T()` gives each property the
  host's value for its declared type.
- Thread safety of the `ConcurrentDictionary` is out. The cache is a map
  threaded through sequential calls. Concurrent first-writes, which may run
  the introspection more than once, are not modelled.
- `Console.WriteLine` is out. Only the property name of each report is kept
  (in `errors`), not the message text or the exception.
- A successful `SetValue` is a plain store of the value under the property's
  name. A custom setter that transforms the value or changes other
  properties is not modelled.
- Objects are maps from property name to value. Two public properties with
  the same name, which can happen through `new` hiding, collapse into one
  entry. The first one in enumeration order is the one `FindProperty` and
  `new T()` use.
- Whether `SetValue` throws depends only on the target property and the
  value (`setFails`), not on the object being built. A setter that validates
  against what earlier sources wrote is not modelled.
- Whether a getter throws depends only on the source and the property name.
  Which exception was thrown is not kept.
- A setter that throws after partly mutating the target is not modelled: a
  failed set leaves the target unchanged.
- Passing a null `params` array itself, which throws in the `foreach`, is
  not modelled. The model's source list is always present, and its elements
  may be null.
- The `class, new()` constraint on `T` is a compile-time check and has no
  counterpart.
- NUnit itself is out. The six tests appear as lemmas about a concrete host,
  and only the assertions they make are stated.
