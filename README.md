# GoDotTest parameterised-test data layer, modelled in Dafny

This project models the data layer behind GoDotTest's parameterised tests. Dafny proves properties of the model.

- **Data sources.** `InlineData` supplies a literal row. `MemberData` finds a static provider method, searching the test class, then its base classes, then the interfaces of that chain. It then invokes the method.
- **Row collections.** `TestData`, `TestData<T>`, `TestData<T1, T2>` and `TestData<T1, T2, T3>` are append-only lists of rows. Rows are added one at a time or in bulk.
- **Rows.** The typed and untyped `TestDataRow` rows, and the `TheoryDataRow` rows of arity 1 to 15 that carry settable metadata.

Modules:

- `Values` (`values.dfy`) defines boxed arguments (`Value`) and the C# `object?[]` reference (`ObjArray`, where `None` is null). It also holds the exceptions raised (`Error`) and the `Result`/`Outcome` wrappers that stand for "returns or throws".
- `Reflection` (`reflection.dfy`) is an abstract type universe: a sequence of types, each with a name, an optional base type, its interfaces and its methods. Types are numbered so that a base type comes before every type derived from it. That numbering is how the model says that `BaseType` chains end.
- `TestDataAttributes` (`test_data_attributes.dfy`) holds `InlineDataAttribute`, `MemberDataAttribute` and the type search. `GetTestClassTypes` (with its loops `WalkBaseTypes`, `AddAll` and `EnumerateSet`) and `GetMethodAccessor` (with its loop `SearchTypes`) are methods. Each is proved against a specification function: `IsTypeEnumeration` for the first, `Select` and `AccessorFor` for the second. Lemmas then state the search-order properties about those functions.
- `TestDataRows` (`test_data_rows.dfy`) holds the four `TestDataRow` classes as one datatype, with their conversions.
- `TestDataCollections` (`test_data.dfy`) holds the four `TestData` classes as one class `TestData`. Its `variant` constant says which of the four an object is. The private list is a `seq` field that `Add` appends to, and the `AddRange` overloads are loops.
- `TheoryDataRows` (`theory_data_row.dfy`) holds the class `TheoryDataRow`:
  - the metadata properties of `TheoryDataRowBase` are fields;
  - the `Traits` setter is a guarded method;
  - one constructor covers all fifteen typed arities generically, through the length of the value sequence.

The enumeration order of the `HashSet` of interfaces is unspecified. `GetTestClassTypes` therefore picks the next interface nondeterministically. Every statement about the search holds for every order the set might produce. `GetMethodAccessor` returns the order it searched as a ghost out-parameter.

## Model

| member | source | states |
|---|---|---|
| Values.RuntimeType | Chickensoft.GoDotTest/src/types/TestDataAttributes.cs:66 | An argument's type is absent exactly for a null argument; an object reports its own runtime type. |
| Reflection.Chain | Chickensoft.GoDotTest/src/types/TestDataAttributes.cs:105 | The `for (t = type; t is not null; t = t.BaseType)` walk starts at the given type, stays inside the universe, ends at a type with no base, and is empty only for a null start. |
| Reflection.ChainLinks | Chickensoft.GoDotTest/src/types/TestDataAttributes.cs:105 | Each type the walk visits is followed by its `BaseType`. |
| Reflection.Elements | Chickensoft.GoDotTest/src/types/TestDataAttributes.cs:109-111 | Adding a sequence of interfaces to a set adds exactly the sequence's elements. |
| Reflection.InterfacesOf | Chickensoft.GoDotTest/src/types/TestDataAttributes.cs:108-112 | The collected interface set only holds types of the universe. |
| Reflection.ChainDescends | Chickensoft.GoDotTest/src/types/TestDataAttributes.cs:105-107 | Along the base chain the types strictly descend, so no class is yielded twice. |
| Reflection.InterfacesOfMembers | Chickensoft.GoDotTest/src/types/TestDataAttributes.cs:108-112 | An interface is collected exactly when some class of the chain reports it from `GetInterfaces()`. |
| TestDataAttributes.InlineReturnsLiteralRow | Chickensoft.GoDotTest/src/types/TestDataAttributes.cs:27-31 | A non-null inline row is returned unchanged. |
| TestDataAttributes.InlineNullIsOneNullArgument | Chickensoft.GoDotTest/src/types/TestDataAttributes.cs:29-31 | A null inline row becomes the one-element row `[null]`, never the empty row. |
| TestDataAttributes.InlineIgnoresTestClass | Chickensoft.GoDotTest/src/types/TestDataAttributes.cs:31 | The inline rows do not depend on the test class. |
| TestDataAttributes.GetTestClassTypes | Chickensoft.GoDotTest/src/types/TestDataAttributes.cs:102-118 | Yields the test class and each base type in turn, then each interface of the whole chain exactly once (none when interfaces are not asked for), after every class. |
| TestDataAttributes.WalkBaseTypes | Chickensoft.GoDotTest/src/types/TestDataAttributes.cs:103-113 | The `for` loop visits exactly the base-type chain, in order. It collects into the set exactly the interfaces of the visited classes, or none when interfaces are not asked for. |
| TestDataAttributes.AddAll | Chickensoft.GoDotTest/src/types/TestDataAttributes.cs:109-111 | Adding each declared interface leaves the set holding the old members plus exactly the declared ones. |
| TestDataAttributes.EnumerateSet | Chickensoft.GoDotTest/src/types/TestDataAttributes.cs:115-117 | Enumerating the set yields every member exactly once and nothing else. |
| TestDataAttributes.Candidates | Chickensoft.GoDotTest/src/types/TestDataAttributes.cs:69-73 | A method is a candidate exactly when it is static, named exactly the member name and parameter-compatible with the argument types. |
| TestDataAttributes.ArgumentTypes | Chickensoft.GoDotTest/src/types/TestDataAttributes.cs:66 | One entry per argument, each its runtime type (absent for a null argument); none when `Arguments` is null. |
| TestDataAttributes.FirstWithArity | Chickensoft.GoDotTest/src/types/TestDataAttributes.cs:82-83 | `FirstOrDefault` finds the first candidate whose parameter count equals the argument count, or reports that none has it. |
| TestDataAttributes.FirstCandidateWithArity | Chickensoft.GoDotTest/src/types/TestDataAttributes.cs:69-73 | Gives the position of the first method, in the order the type reports them, that is a candidate with the argument count as its parameter count, or reports that there is none. |
| TestDataAttributes.FirstArityInDeclarationOrder | Chickensoft.GoDotTest/src/types/TestDataAttributes.cs:69-83 | The `Where` filter keeps the type's order. So `FirstOrDefault` over the candidates finds an arity match exactly when the type has a candidate of that arity, and the match is the first such method the type reports. |
| TestDataAttributes.Decide | Chickensoft.GoDotTest/src/types/TestDataAttributes.cs:74-89 | A single candidate is chosen; among several, the first whose parameter count equals the argument count; the ambiguity arises exactly when several candidates exist and none matches, and it reports their number. |
| TestDataAttributes.Select | Chickensoft.GoDotTest/src/types/TestDataAttributes.cs:68-90 | A chosen method comes from a searched type, is declared on that type and is a candidate. |
| TestDataAttributes.SelectNotFound | Chickensoft.GoDotTest/src/types/TestDataAttributes.cs:68-76 | Nothing is found exactly when no searched type has a candidate. |
| TestDataAttributes.SelectFirstDecides | Chickensoft.GoDotTest/src/types/TestDataAttributes.cs:68-90 | The first searched type with a candidate alone decides the verdict. |
| TestDataAttributes.SelectAt | Chickensoft.GoDotTest/src/types/TestDataAttributes.cs:74-89 | Covers the first searched type with a candidate. A single candidate is the verdict. Among several, the first arity match is the verdict, and with no match the verdict is ambiguity. |
| TestDataAttributes.SelectIgnoresSuffix | Chickensoft.GoDotTest/src/types/TestDataAttributes.cs:77-86 | Once a type with a candidate has been searched, the types after it are never inspected. |
| TestDataAttributes.EnumerationCoversSearched | Chickensoft.GoDotTest/src/types/TestDataAttributes.cs:102-118 | Every type an enumeration yields is a class of the base chain or an interface of it, and every such type is yielded. |
| TestDataAttributes.NotFoundIffNoCandidate | Chickensoft.GoDotTest/src/types/TestDataAttributes.cs:68-76 | For every enumeration order of the interfaces, nothing is found exactly when no class of the chain and no interface of it has a candidate. |
| TestDataAttributes.ChainVerdict | Chickensoft.GoDotTest/src/types/TestDataAttributes.cs:102-118 | When some class of the chain has a candidate, the verdict is that of the class chain alone, so the unspecified order of the interfaces cannot change it. |
| TestDataAttributes.StaticGuardNeverRejects | Chickensoft.GoDotTest/src/types/TestDataAttributes.cs:92-94 | The `!IsStatic` guard never discards a chosen method. |
| TestDataAttributes.GetMethodAccessor | Chickensoft.GoDotTest/src/types/TestDataAttributes.cs:63-97 | The result is the accessor of the verdict `Select` gives for the order in which the types were searched, that order being one `GetTestClassTypes` may yield. Whatever that order: an accessor invokes a candidate declared on a searched type; the only exception is the ambiguity naming the test class and the member; there is no accessor exactly when no searched type has a candidate; and a candidate in the class chain makes the interfaces irrelevant. |
| TestDataAttributes.SearchTypes | Chickensoft.GoDotTest/src/types/TestDataAttributes.cs:68-94 | The `foreach` with its `continue`, `break` and `throw`, followed by the `IsStatic` check, gives exactly the accessor of the verdict `Select` reaches over the same types. |
| TestDataAttributes.MemberGetRawData | Chickensoft.GoDotTest/src/types/TestDataAttributes.cs:54-61 | The rows are those of the searched verdict: no accessor gives no rows, otherwise the provider's result. The only exception is the ambiguity naming the test class and the member; no candidate anywhere gives no rows; a candidate in the class chain makes the interface order irrelevant. |
| TestDataAttributes.NotFoundYieldsNoRows | Chickensoft.GoDotTest/src/types/TestDataAttributes.cs:55-58 | When no type has a candidate, the result is the empty row set, not an error. |
| TestDataAttributes.FirstTypeWithCandidateDecides | Chickensoft.GoDotTest/src/types/TestDataAttributes.cs:68-96 | Covers the first type with a candidate. With a single candidate, that method is invoked with the arguments (none for null) and its result returned, a null result as no rows. Otherwise the result is an error exactly when no candidate's arity matches, and the error names the test class, the member and the option count. |
| TestDataAttributes.GetRawData | Chickensoft.GoDotTest/src/types/TestDataAttributes.cs:16-61 | Dispatches each data attribute to its rows: inline rows as given, member rows as the search over some admissible type order decides. |
| TestDataAttributes.ExampleMemberData | Chickensoft.GoDotTest.Tests/test/src/MemberDataExampleTests.cs:11-18 | Assuming that `ParameterTypesCompatible` accepts the empty parameter list for no arguments, and that invoking `GetUntypedTestData` hands back the rows `[1,2,3]`, `[-4,-6,-10]`, `[-2,2,0]` as an array, the search picks that provider and `MemberData` yields exactly those rows in that order. |
| TestDataRows.UntypedDataUnchanged | Chickensoft.GoDotTest/src/types/TestDataRow.cs:15-19 | The untyped row's `Data` and `GetData()` are the constructor array itself. |
| TestDataRows.ValueRoundTrip | Chickensoft.GoDotTest/src/types/TestDataRow.cs:21-32 | A value converted to a one-value row and back is the value; the row's data is `[p1]`; a null row converts to an `ArgumentNullException`. |
| TestDataRows.PairRowAgrees | Chickensoft.GoDotTest/src/types/TestDataRow.cs:35-40 | A pair converted to a row keeps its components in order: `Data` is the pair, and `GetData()` has two entries equal to its items. |
| TestDataRows.TripleRowAgrees | Chickensoft.GoDotTest/src/types/TestDataRow.cs:43-48 | A triple converted to a row keeps its components in order: `Data` is the triple, and `GetData()` has three entries equal to its items. |
| TestDataCollections.Convert | Chickensoft.GoDotTest/src/types/TestData.cs:56 | Each variant's `Convert` builds a row of that variant holding the raw row's components in order; the untyped row keeps the given array itself. |
| TestDataCollections.TestData.constructor | Chickensoft.GoDotTest/src/types/TestData.cs:9 | A new collection is empty. |
| TestDataCollections.TestData.Count | Chickensoft.GoDotTest/src/types/TestData.cs:11 | `Count` is the number of rows enumeration yields. |
| TestDataCollections.TestData.AddRaw | Chickensoft.GoDotTest/src/types/TestData.cs:13 | Appends exactly the converted row at the end, increases `Count` by one and leaves earlier rows unchanged. |
| TestDataCollections.TestData.Add | Chickensoft.GoDotTest/src/types/TestData.cs:15-18 | A row is appended. A null row throws and leaves the collection unchanged, except in `TestData<T>`, whose override (line 62) appends `Convert(default)` instead. |
| TestDataCollections.TestData.AddPair | Chickensoft.GoDotTest/src/types/TestData.cs:86 | Appends one row whose data is `(p1, p2)`, earlier rows unchanged. |
| TestDataCollections.TestData.AddTriple | Chickensoft.GoDotTest/src/types/TestData.cs:110 | Appends one row whose data is `(p1, p2, p3)`, earlier rows unchanged. |
| TestDataCollections.TestData.AddRange | Chickensoft.GoDotTest/src/types/TestData.cs:20-32 | Converts and appends the raw rows in input order up to the first null one, which throws; the rows before it stay appended. |
| TestDataCollections.TestData.AddRangeRows | Chickensoft.GoDotTest/src/types/TestData.cs:34-46 | Appends the rows in input order up to the first null one. That null row throws in every variant, `TestData<T>` included, and the rows before it stay appended. |
| TestDataCollections.TestData.FromRaws | Chickensoft.GoDotTest/src/types/TestData.cs:64-70 | The typed constructors over raw rows give a collection holding exactly the converted rows in order, and throw when an element is null. |
| TestDataCollections.TestData.FromRows | Chickensoft.GoDotTest/src/types/TestData.cs:72-78 | The typed constructors over rows give a collection holding exactly those rows in order, and throw when a row is null. |
| TheoryDataRows.TheoryDataRow.Untyped | Chickensoft.GoDotTest/src/types/TheoryDataRow.cs:161-171 | Wraps the given array. Every metadata property starts null, and `Traits` starts as the empty dictionary. |
| TheoryDataRows.TheoryDataRow.OfValues | Chickensoft.GoDotTest/src/types/TheoryDataRow.cs:183-193 | Covers an arity-N row, N from 1 to 15. `GetData()` is exactly `p1..pN`, every metadata property starts null, and `Traits` starts empty. |
| TheoryDataRows.TheoryDataRow.GetData | Chickensoft.GoDotTest/src/types/TheoryDataRow.cs:220-225 | The untyped row's data is its array. A typed row's data has one entry per value, and entry K agrees with item K+1 of `Data`. |
| TheoryDataRows.TheoryDataRow.SetTraits | Chickensoft.GoDotTest/src/types/TheoryDataRow.cs:139-142 | Setting `Traits` to null throws and keeps the old dictionary; any other value is stored. |
| TheoryDataRows.TheoryDataRow.FromValue | Chickensoft.GoDotTest/src/types/TheoryDataRow.cs:196-197 | Converting a value gives a one-value row holding it, with default metadata. |
| TheoryDataRows.TheoryDataRow.FromTuple | Chickensoft.GoDotTest/src/types/TheoryDataRow.cs:228-229 | Converting a tuple of 2 to 15 components gives a row of that arity holding every component in order. |
| TheoryDataRows.ToValue | Chickensoft.GoDotTest/src/types/TheoryDataRow.cs:200-201 | Converting a one-value row to its value gives the row's single datum. A null row throws. |
| TheoryDataRows.TheoryValueRoundTrip | Chickensoft.GoDotTest/src/types/TheoryDataRow.cs:196-201 | A value converted to a one-value theory row and back is the value, and the row's data is `[p1]`. |
| TheoryDataRows.UntypedDataUnchanged | Chickensoft.GoDotTest/src/types/TheoryDataRow.cs:166-171 | The untyped theory row's `Data` and `GetData()` are the constructor array itself. |

## Left out

- Reflection is left out. `GetRuntimeMethods`, `GetParameters`, `GetInterfaces`, `BaseType` and `Name` are read from the abstract universe. A method records only its name, whether it is static, and its parameter types.
- `ParameterTypesCompatible` throws `NotImplementedException` in the source. The model keeps it uninterpreted as the parameter `compat` and invents no assignability rules.
- The model does not run the provider. `MethodInfo.Invoke` together with the `(object?[]?)` cast is the parameter `invoke`, so the provider's own exceptions and an `InvalidCastException` from the cast are not modelled. Such a cast fails, for example, for a provider returning a non-array `IEnumerable<object[]>`.
- A null `testClassType` is not modelled: the test class is always a type of the universe.
- Laziness is not modelled. `GetTestClassTypes` is an iterator and the accessor is a deferred `Func`; the model computes both eagerly, in the same order.
- `AddRange`: the `IEnumerable` and `params` array overloads behave identically, so each pair is one method over a sequence. A null collection argument, which would make `foreach` throw, is not modelled.
- Generic typing is not modelled: every value is a `Value`, and `default(T)` is the value `TestData<T>` is given at construction. The type arguments become the `RawFits`/`RowFits` shapes each variant requires.
- The untyped `TestData` is abstract in the source. The model's `Untyped` variant stands for a subclass of it, created empty, that keeps the inherited `Convert` and `Add(row)`. A subclass that overrides `Convert` (a non-sealed `protected override`) or the virtual `Add(row)` is not modelled.
- The fifteen typed `TheoryDataRow` classes are one class. A generic N replaces N separate classes, and the `Data` tuple is read item by item through `Item`.
- The remaining metadata properties of `TheoryDataRowBase` are plain fields. These are `Explicit`, `Label` (the field `rowLabel`), `Skip`, `SkipType`, `SkipUnless`, `SkipWhen`, `TestDisplayName` and `Timeout`. Their auto-property getters return the last value set.
- The dictionary in `Traits` is a map value, so aliasing a `Dictionary` and mutating it through the getter's reference are not modelled.
- The documented rules about skipping, trait filtering and timeouts are not modelled, because no code enforces them. These include the exclusion between `SkipWhen` and `SkipUnless`.
- `TestAttributes.cs` is not part of this model. Its data attributes repeat the names of `TestDataAttributes.cs` with `NotImplementedException` bodies.
- `TestCase.cs` is not part of this model either. The expansion of test methods into test cases is not in the modelled code.
- TestDataAttributes.ExampleMemberData: the source as written throws for this very example. `GetUntypedTestData` passes the static and name tests, so the `Where` filter calls `ParameterTypesCompatible`, which throws `NotImplementedException`. Even past that, the provider returns a non-array `IEnumerable<object[]>`, and the `(object?[]?)` cast of its result would fail. The lemma takes both steps as assumptions (`compat` accepts the empty parameter list; `invoke` returns the three rows) and states what the example test expects under them.
