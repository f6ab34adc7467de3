/**
 * The unit-test scenarios of ObjectSpreadUnitTest.cs, against a concrete
 * host: `Person { Name: string; Age: int; Country: string }` with public
 * getters and setters, anonymous source types with getters only, an
 * `IsAssignableFrom` that holds for identical types and for `object`, and
 * setters that never throw.
 */
module PersonExamples {
  import opened Wrappers
  import opened Reflection
  import opened PropertyCache
  import opened Spreader
  import SpreadLaws

  const StringType := TypeId("System.String")
  const IntType := TypeId("System.Int32")
  const ObjectType := TypeId("System.Object")
  const PersonType := TypeId("Person")

  /** The anonymous types `new { ... }` of the scenarios, each with get-only properties. */
  const NameAgeType := TypeId("{ string Name; int Age }")
  const AgeCountryType := TypeId("{ int Age; string Country }")
  const NameType := TypeId("{ string Name }")
  const NameCountryType := TypeId("{ string Name; string Country }")
  const NameAgeAsStringType := TypeId("{ string Name; string Age }")
  const CountryType := TypeId("{ string Country }")
  const ReadOnlyPropType := TypeId("{ string ReadOnlyProp }")
  const EmptyType := TypeId("{ }")
  const ReadOnlyClassType := TypeId("ReadOnlyClass")

  /** `target.IsAssignableFrom(source)` restricted to the types the scenarios use. */
  function ClrAccepts(target: TypeId, source: TypeId): bool {
    target == source || target == ObjectType
  }

  /** `default(T)`: zero for `int`, null for reference types. */
  function ClrZero(t: TypeId): Value {
    if t == IntType then Int(0) else Null
  }

  const PersonProps := [
    PropDesc("Name", StringType, true, true),
    PropDesc("Age", IntType, true, true),
    PropDesc("Country", StringType, true, true)]

  /** `Type.GetProperties` for the types of the scenarios. */
  function Introspect(t: TypeId): seq<PropDesc> {
    if t == PersonType then PersonProps
    else if t == NameAgeType then [PropDesc("Name", StringType, true, false), PropDesc("Age", IntType, true, false)]
    else if t == AgeCountryType then [PropDesc("Age", IntType, true, false), PropDesc("Country", StringType, true, false)]
    else if t == NameType then [PropDesc("Name", StringType, true, false)]
    else if t == NameCountryType then [PropDesc("Name", StringType, true, false), PropDesc("Country", StringType, true, false)]
    else if t == NameAgeAsStringType then [PropDesc("Name", StringType, true, false), PropDesc("Age", StringType, true, false)]
    else if t == CountryType then [PropDesc("Country", StringType, true, false)]
    else if t == ReadOnlyPropType then [PropDesc("ReadOnlyProp", StringType, true, false)]
    else if t == ReadOnlyClassType then [PropDesc("ReadOnlyProp", StringType, true, false)]
    else []
  }

  const Clr := Host(Introspect, ClrAccepts, ClrZero, (tp: PropDesc, v: Value) => false)

  /** `o` holds the three `Person` properties with the given values. */
  predicate PersonHolds(o: Obj, name: Value, age: Value, country: Value) {
    && "Name" in o && o["Name"] == name
    && "Age" in o && o["Age"] == age
    && "Country" in o && o["Country"] == country
  }

  /** The three `Person` property names are pairwise distinct. */
  lemma PersonNamesDistinct()
    ensures "Name" != "Age" && "Name" != "Country" && "Age" != "Country"
  {
    assert "Name"[0] != "Age"[0] && "Name"[0] != "Country"[0] && "Age"[0] != "Country"[0];
  }

  lemma PersonLookups()
    ensures FindProperty(PersonProps, "Name") == Some(PersonProps[0])
    ensures FindProperty(PersonProps, "Age") == Some(PersonProps[1])
    ensures FindProperty(PersonProps, "Country") == Some(PersonProps[2])
  {
  }

  /** `new Person()`: `Name` and `Country` null, `Age` zero. */
  lemma FreshPerson()
    ensures PersonHolds(NewInstance(Clr, PersonProps), Null, Int(0), Null)
  {
    PersonLookups();
    PersonNamesDistinct();
  }

  /** The inner fold over a one-property source. */
  lemma ApplyOne(host: Host, targetProps: seq<PropDesc>, a: PropDesc, src: Source, m: Merged)
    ensures ApplySource(host, targetProps, [a], src, m) == Record(m, TryCopy(host, targetProps, src, a))
  {
    assert [a][1..] == [];
  }

  /** The inner fold over a two-property source. */
  lemma ApplyTwo(host: Host, targetProps: seq<PropDesc>, a: PropDesc, b: PropDesc, src: Source, m: Merged)
    ensures ApplySource(host, targetProps, [a, b], src, m)
            == Record(Record(m, TryCopy(host, targetProps, src, a)), TryCopy(host, targetProps, src, b))
  {
    assert [a, b][1..] == [b];
    ApplyOne(host, targetProps, b, src, Record(m, TryCopy(host, targetProps, src, a)));
  }

  /** The outer fold over two sources. */
  lemma MergeTwo(host: Host, targetProps: seq<PropDesc>, m: Merged, x: Option<Source>, y: Option<Source>)
    ensures Merge(host, targetProps, m, [x, y]) == Step(host, targetProps, Step(host, targetProps, m, x), y)
  {
    assert [x, y][1..] == [y];
    assert [y][1..] == [];
    var m1 := Step(host, targetProps, m, x);
    assert Merge(host, targetProps, m, [x, y]) == Merge(host, targetProps, m1, [y]);
    assert Merge(host, targetProps, m1, [y]) == Merge(host, targetProps, Step(host, targetProps, m1, y), []);
  }

  /** From an empty cache, `Spread<Person>` folds the sources over `new Person()`. */
  lemma SpreadPerson(sources: seq<Option<Source>>)
    ensures Spread(Clr, map[], PersonType, sources).0
            == Merge(Clr, PersonProps, Merged(NewInstance(Clr, PersonProps), []), sources)
  {
    assert Sound(map[], Clr.introspect);
    assert Clr.introspect(PersonType) == PersonProps;
  }

  /** A readable source property meets the writable `Person` property of the same name and type. */
  lemma CopyToPerson(src: Source, sp: PropDesc, i: nat)
    requires i < 3 && sp.name == PersonProps[i].name && sp.declType == PersonProps[i].declType && sp.canRead
    requires sp.name in src.values
    ensures TryCopy(Clr, PersonProps, src, sp) == Assign(sp.name, src.values[sp.name])
  {
    PersonLookups();
  }

  /** A `string` source property named `Age` does not meet the `int` `Age` of `Person`. */
  lemma MismatchToPerson(src: Source, sp: PropDesc)
    requires sp == PropDesc("Age", StringType, true, false)
    ensures TryCopy(Clr, PersonProps, src, sp) == Skip
  {
    PersonLookups();
    assert !ClrAccepts(IntType, StringType);
  }

  /** `{ Name = "Alice", Age = 25 }` sets `Name` and `Age`. */
  lemma StepNameAge(src: Source, m: Merged)
    requires src == Source(NameAgeType, map["Name" := Str("Alice"), "Age" := Int(25)])
    ensures Step(Clr, PersonProps, m, Some(src)) == m.(target := m.target["Name" := Str("Alice")]["Age" := Int(25)])
  {
    var props := Introspect(NameAgeType);
    ApplyTwo(Clr, PersonProps, props[0], props[1], src, m);
    CopyToPerson(src, props[0], 0);
    CopyToPerson(src, props[1], 1);
  }

  /** `{ Age = 30, Country = "Wonderland" }` sets `Age` and `Country`. */
  lemma StepAgeCountry(src: Source, m: Merged)
    requires src == Source(AgeCountryType, map["Age" := Int(30), "Country" := Str("Wonderland")])
    ensures Step(Clr, PersonProps, m, Some(src)) == m.(target := m.target["Age" := Int(30)]["Country" := Str("Wonderland")])
  {
    var props := Introspect(AgeCountryType);
    ApplyTwo(Clr, PersonProps, props[0], props[1], src, m);
    CopyToPerson(src, props[0], 1);
    CopyToPerson(src, props[1], 2);
  }

  /** `{ Name = (string)null, Country = "Wonderland" }` sets `Name` to null and sets `Country`. */
  lemma StepNullNameCountry(src: Source, m: Merged)
    requires src == Source(NameCountryType, map["Name" := Null, "Country" := Str("Wonderland")])
    ensures Step(Clr, PersonProps, m, Some(src)) == m.(target := m.target["Name" := Null]["Country" := Str("Wonderland")])
  {
    var props := Introspect(NameCountryType);
    ApplyTwo(Clr, PersonProps, props[0], props[1], src, m);
    CopyToPerson(src, props[0], 0);
    CopyToPerson(src, props[1], 2);
  }

  /** `{ Name = "Alice" }` sets `Name`. */
  lemma StepName(src: Source, m: Merged)
    requires src == Source(NameType, map["Name" := Str("Alice")])
    ensures Step(Clr, PersonProps, m, Some(src)) == m.(target := m.target["Name" := Str("Alice")])
  {
    var props := Introspect(NameType);
    ApplyOne(Clr, PersonProps, props[0], src, m);
    CopyToPerson(src, props[0], 0);
  }

  /** `{ Name = "Alice", Age = "NotANumber" }` sets `Name` only: the `string` `Age` is skipped. */
  lemma StepNameAgeAsString(src: Source, m: Merged)
    requires src == Source(NameAgeAsStringType, map["Name" := Str("Alice"), "Age" := Str("NotANumber")])
    ensures Step(Clr, PersonProps, m, Some(src)) == m.(target := m.target["Name" := Str("Alice")])
  {
    var props := Introspect(NameAgeAsStringType);
    ApplyTwo(Clr, PersonProps, props[0], props[1], src, m);
    CopyToPerson(src, props[0], 0);
    MismatchToPerson(src, props[1]);
  }

  /** `{ Country = "Wonderland" }` sets `Country`. */
  lemma StepCountry(src: Source, m: Merged)
    requires src == Source(CountryType, map["Country" := Str("Wonderland")])
    ensures Step(Clr, PersonProps, m, Some(src)) == m.(target := m.target["Country" := Str("Wonderland")])
  {
    var props := Introspect(CountryType);
    ApplyOne(Clr, PersonProps, props[0], src, m);
    CopyToPerson(src, props[0], 2);
  }

  /** Two sources whose steps are known fold, from `new Person()`, to the second step's result. */
  lemma SpreadTwoSteps(x: Option<Source>, y: Option<Source>, m1: Merged, m2: Merged)
    requires Step(Clr, PersonProps, Merged(NewInstance(Clr, PersonProps), []), x) == m1
    requires Step(Clr, PersonProps, m1, y) == m2
    ensures Spread(Clr, map[], PersonType, [x, y]).0 == m2
  {
    SpreadPerson([x, y]);
    MergeTwo(Clr, PersonProps, Merged(NewInstance(Clr, PersonProps), []), x, y);
  }

  /** Setting all three `Person` properties, in any order, fixes their values. */
  lemma SetAllThree(o: Obj, a: Value, b: Value, name: Value, age: Value, country: Value)
    ensures PersonHolds(o["Name" := name]["Age" := age]["Country" := country], name, age, country)
    ensures PersonHolds(o["Name" := a]["Age" := age]["Age" := b]["Country" := country], a, b, country)
    ensures PersonHolds(o["Name" := a]["Age" := age]["Name" := name]["Country" := country], name, age, country)
  {
    PersonNamesDistinct();
  }

  /** Setting `Name`, then possibly `Country`, keeps the other properties of a `Person`. */
  lemma SetOverDefaults(o: Obj, name: Value, country: Value)
    requires PersonHolds(o, Null, Int(0), Null)
    ensures PersonHolds(o["Name" := name], name, Int(0), Null)
    ensures PersonHolds(o["Name" := name]["Country" := country], name, Int(0), country)
  {
    PersonNamesDistinct();
  }

  /** Spread_ShouldMergeProperties_FromMultipleObjects: the later `Age` wins, the other names are merged. */
  lemma {:induction false} MergesFromMultipleObjects(s1: Source, s2: Source)
    requires s1 == Source(NameAgeType, map["Name" := Str("Alice"), "Age" := Int(25)])
    requires s2 == Source(AgeCountryType, map["Age" := Int(30), "Country" := Str("Wonderland")])
    ensures var r := Spread(Clr, map[], PersonType, [Some(s1), Some(s2)]).0;
            && PersonHolds(r.target, Str("Alice"), Int(30), Str("Wonderland"))
            && r.errors == []
  {
    var m0 := Merged(NewInstance(Clr, PersonProps), []);
    var m1 := m0.(target := m0.target["Name" := Str("Alice")]["Age" := Int(25)]);
    var m2 := m1.(target := m1.target["Age" := Int(30)]["Country" := Str("Wonderland")]);
    StepNameAge(s1, m0);
    StepAgeCountry(s2, m1);
    SpreadTwoSteps(Some(s1), Some(s2), m1, m2);
    SetAllThree(m0.target, Str("Alice"), Int(30), Str("Alice"), Int(25), Str("Wonderland"));
  }

  /** Spread_ShouldHandleNullSources: the null source is skipped, untouched properties keep their defaults. */
  lemma {:induction false} HandlesNullSources(s1: Source)
    requires s1 == Source(NameType, map["Name" := Str("Alice")])
    ensures var r := Spread(Clr, map[], PersonType, [Some(s1), None]).0;
            && PersonHolds(r.target, Str("Alice"), Int(0), Null)
            && r.errors == []
  {
    var m0 := Merged(NewInstance(Clr, PersonProps), []);
    var m1 := m0.(target := m0.target["Name" := Str("Alice")]);
    StepName(s1, m0);
    SpreadTwoSteps(Some(s1), None, m1, m1);
    FreshPerson();
    SetOverDefaults(m0.target, Str("Alice"), Null);
  }

  /** Spread_ShouldOverwritePropertiesWithNullValues: a later null overwrites an earlier value. */
  lemma {:induction false} OverwritesWithNull(s1: Source, s2: Source)
    requires s1 == Source(NameAgeType, map["Name" := Str("Alice"), "Age" := Int(25)])
    requires s2 == Source(NameCountryType, map["Name" := Null, "Country" := Str("Wonderland")])
    ensures var r := Spread(Clr, map[], PersonType, [Some(s1), Some(s2)]).0;
            && PersonHolds(r.target, Null, Int(25), Str("Wonderland"))
            && r.errors == []
  {
    var m0 := Merged(NewInstance(Clr, PersonProps), []);
    var m1 := m0.(target := m0.target["Name" := Str("Alice")]["Age" := Int(25)]);
    var m2 := m1.(target := m1.target["Name" := Null]["Country" := Str("Wonderland")]);
    StepNameAge(s1, m0);
    StepNullNameCountry(s2, m1);
    SpreadTwoSteps(Some(s1), Some(s2), m1, m2);
    SetAllThree(m0.target, Str("Alice"), Int(0), Null, Int(25), Str("Wonderland"));
  }

  /** Spread_ShouldNotSetReadOnlyProperties: a get-only target property stays null. */
  lemma DoesNotSetReadOnlyProperties(s1: Source, s2: Source)
    requires s1 == Source(ReadOnlyPropType, map["ReadOnlyProp" := Str("ReadOnlyValue")])
    requires s2 == Source(EmptyType, map[])
    ensures var r := Spread(Clr, map[], ReadOnlyClassType, [Some(s1), Some(s2)]).0;
            "ReadOnlyProp" in r.target && r.target["ReadOnlyProp"] == Null
  {
    var props := Introspect(ReadOnlyClassType);
    assert FindProperty(props, "ReadOnlyProp") == Some(props[0]);
    SpreadLaws.ReadOnlyNeverWritten(Clr, map[], ReadOnlyClassType, [Some(s1), Some(s2)], "ReadOnlyProp");
  }

  /** Spread_ShouldSkipPropertiesWithMismatchedTypes: a `string` Age is skipped without a report. */
  lemma {:induction false} SkipsMismatchedTypes(s1: Source, s2: Source)
    requires s1 == Source(NameAgeAsStringType, map["Name" := Str("Alice"), "Age" := Str("NotANumber")])
    requires s2 == Source(CountryType, map["Country" := Str("Wonderland")])
    ensures var r := Spread(Clr, map[], PersonType, [Some(s1), Some(s2)]).0;
            && PersonHolds(r.target, Str("Alice"), Int(0), Str("Wonderland"))
            && r.errors == []
  {
    var m0 := Merged(NewInstance(Clr, PersonProps), []);
    var m1 := m0.(target := m0.target["Name" := Str("Alice")]);
    var m2 := m1.(target := m1.target["Country" := Str("Wonderland")]);
    StepNameAgeAsString(s1, m0);
    StepCountry(s2, m1);
    SpreadTwoSteps(Some(s1), Some(s2), m1, m2);
    FreshPerson();
    SetOverDefaults(m0.target, Str("Alice"), Str("Wonderland"));
  }

  /** Spread_ShouldWorkWithNoSourceObjects: a fresh `Person` with default values. */
  lemma WorksWithNoSources()
    ensures var r := Spread(Clr, map[], PersonType, []).0;
            && PersonHolds(r.target, Null, Int(0), Null)
            && r.errors == []
  {
    FreshPerson();
    SpreadPerson([]);
  }
}
