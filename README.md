# EF Core value-converter generator, modelled in Dafny

This project models `EfCoreValueConverterGenerator`, a Roslyn source generator. It finds every *strongly typed id* type in the assemblies a compilation references: a type whose attributes include `StronglyTypedIdAttribute`, or a `GeneratedCodeAttribute` whose first argument reads `StronglyTypedId` in any letter case. For each such type it emits a C# unit declaring an Entity Framework Core `ValueConverter` between the type and the type of its `Value` property. It then emits one aggregate unit, `DbContextExtensions.g.cs`. That unit imports every distinct namespace of those types and registers every converter in a `UseStronglyTypedIdConverters` extension method.

The project is split into five modules:

- `Wrappers` (`wrappers.dfy`) holds `Option` and `Result`. `None` stands for a null reference. `Failure` stands for an exception that aborts the run.
- `Text` (`text.dfy`) holds the string operations the generator borrows from .NET: `string.Join`, case-insensitive equality and LINQ `Distinct`. It also holds substring containment and a `Split` that inverts `Join`. The generator never splits text: `Split` exists only to state that the joined import and registration blocks hold exactly their lines.
- `Symbols` (`symbols.dfy`) holds the part of the compiler's symbol graph the generator reads, as plain datatypes. It also holds `RoslynExtensions.GetNamespaceTypes` and the lookup of the `Value` property.
- `Templates` (`templates.dfy`) holds the two renderers, `GenerateEfCoreValueConverter` and `GenerateDbContextExtensionMethod`.
- `Generator` (`generator.dfy`) holds `IsStronglyTypedIdAttribute`, the two loops of `Execute`, and `Execute` itself.

The three exceptions the generator can raise are modelled as `Fault` values rather than preconditions:

- indexing the missing first constructor argument of a `GeneratedCodeAttribute`;
- calling `ToString` on a null first argument;
- dereferencing the null type of a missing `Value` property.

A run that meets a fault produces no source units.

The two loops of `Execute` are methods:

- `CollectStructs` and `CollectFromTypes` are proved against the functions `AllTypes`, `Qualifying` and `FirstFault`.
- `EmitSources` is proved against the function `Emitted`, which the lemmas describe.

## Model

| member | source | states |
|---|---|---|
| Symbols.WalkLength | EfCoreValueConverterGenerator.cs:116-133 | the namespace walk yields exactly one type per type declaration in the tree, at any nesting depth |
| Symbols.WalkOccurrences | EfCoreValueConverterGenerator.cs:116-133 | the walk does not de-duplicate: each type is yielded as often as it is declared, so it is yielded iff it is declared somewhere in the tree |
| Symbols.WalkConcat | EfCoreValueConverterGenerator.cs:118-131 | the walk of a list of members is the walk of its first part followed by the walk of the rest, so everything under an earlier member precedes everything under a later one |
| Symbols.WalkOrder | EfCoreValueConverterGenerator.cs:120-131 | a type member is yielded after all types under the members before it and before all types under the members after it |
| Symbols.FindValuePropertySpec | EfCoreValueConverterGenerator.cs:42 | the `Value` lookup gives null iff no member is a property named "Value", and otherwise gives the type of the first such property |
| Text.JoinSplit | EfCoreValueConverterGenerator.cs:70 | joining lines that do not contain the separator's first character can be split back into exactly those lines |
| Text.JoinContainsEach | EfCoreValueConverterGenerator.cs:83 | a joined text contains every one of the joined pieces |
| Text.EqualsIgnoreCaseIffLowerEqual | EfCoreValueConverterGenerator.cs:61-63 | case-insensitive equality holds iff the lower-cased strings are equal |
| Text.DistinctAfterSpec | EfCoreValueConverterGenerator.cs:68 | `Distinct` after a set of already-seen values keeps exactly the unseen values, in the order they first occur |
| Text.DistinctSpec | EfCoreValueConverterGenerator.cs:68 | `Distinct` keeps every value of the input and nothing else, with no repeats, in first-occurrence order; it is empty iff the input is |
| Templates.UsingLine | EfCoreValueConverterGenerator.cs:70 | an import line is the namespace wrapped in `using ` and `;` |
| Templates.UsingLineInjective | EfCoreValueConverterGenerator.cs:70 | different namespaces give different import lines |
| Templates.UsingStatementsSplit | EfCoreValueConverterGenerator.cs:68-71 | the import block splits on "\r\n" into the import lines of the distinct namespaces |
| Templates.UsingStatementsImportEachNamespaceOnce | EfCoreValueConverterGenerator.cs:68-71 | the import block is empty with no namespaces; otherwise every namespace is imported, none twice, nothing else, in first-occurrence order |
| Templates.RegistrationsOnePerType | EfCoreValueConverterGenerator.cs:83 | the method body is empty with no types; otherwise it splits on "\n" into exactly one registration per type, in order |
| Templates.AdapterUnitContents | EfCoreValueConverterGenerator.cs:90-111 | the converter unit imports the type's namespace, declares `{name}Converter : ValueConverter<{name}, {type}>`, and passes both conversion closures |
| Templates.AggregateUnitContents | EfCoreValueConverterGenerator.cs:72-87 | the aggregate unit holds the import block, the extension method's declaration and the registration statements |
| Templates.AggregateCoversEveryType | EfCoreValueConverterGenerator.cs:66-87 | the aggregate unit registers the converter of, and imports the namespace of, every type it is given |
| Templates.EmptyAggregate | EfCoreValueConverterGenerator.cs:69-87 | with no types the aggregate unit is the fixed text alone, with no extra imports and an empty method body |
| Generator.IsStronglyTypedIdAttribute | EfCoreValueConverterGenerator.cs:58-64 | true iff the class is `StronglyTypedIdAttribute`, or is `GeneratedCodeAttribute` with a non-null first argument equal to `StronglyTypedId` ignoring case; fails iff the class is `GeneratedCodeAttribute` and that argument is missing or null; an unresolved class gives false |
| Generator.KeywordIgnoresCase | EfCoreValueConverterGenerator.cs:61-63 | first arguments that differ only in letter case get the same verdict; a spelling of the keyword gets the verdict of the dedicated attribute |
| Generator.AnyStronglyTypedIdAttributeSpec | EfCoreValueConverterGenerator.cs:30 | `Any` is false iff every attribute tests false; it is true iff some attribute qualifies after only false ones; a failure is the failure of the first attribute that does not test false |
| Generator.UnresolvedReferenceSkipped | EfCoreValueConverterGenerator.cs:24-26 | a reference that is not an assembly contributes no types |
| Generator.AllTypesConcat | EfCoreValueConverterGenerator.cs:20-28 | the types seen are those of each reference in reference order |
| Generator.QualifyingOccurrences | EfCoreValueConverterGenerator.cs:30-32 | a type is collected iff it is seen and qualifies, as many times as it is seen |
| Generator.FirstFaultNone | EfCoreValueConverterGenerator.cs:30 | the collection meets no fault iff the attribute test succeeds on every type seen |
| Generator.CollectFromTypes | EfCoreValueConverterGenerator.cs:28-34 | one assembly's loop appends exactly its qualifying types in walk order, or fails with the first fault |
| Generator.CollectStructs | EfCoreValueConverterGenerator.cs:17-35 | the collection succeeds iff no fault is met, then yields the qualifying types of all resolvable references in order; a failure is the first fault |
| Generator.AdapterHintName | EfCoreValueConverterGenerator.cs:51 | a converter unit's hint name is the type's name followed by `_EfCoreValueConverter.g.cs` |
| Generator.AdapterDeclaresValueType | EfCoreValueConverterGenerator.cs:43-50 | the converter unit's declared primitive is `string` for `System.String`, `int` for `System.Int32`, and otherwise the simple name of the `Value` property's type |
| Generator.ValueTypes | EfCoreValueConverterGenerator.cs:42-43 | a successful lookup yields one value type per collected type |
| Generator.ValueTypesSpec | EfCoreValueConverterGenerator.cs:37-43 | the lookup succeeds iff every collected type has a `Value` property, and then yields each one's type; a failure names the first type without one |
| Generator.ValueTypesConcat | EfCoreValueConverterGenerator.cs:37-43 | the lookup over two lists is the lookup over the first then over the second, and a fault in the first part is the fault of all |
| Generator.EmittedMeetsEmitsFor | EfCoreValueConverterGenerator.cs:37-55 | emission succeeds iff every type has a `Value` property; it then gives one converter unit per type, in order, followed by the aggregate unit; a failure names the first type without one |
| Generator.NoTypesOnlyAggregate | EfCoreValueConverterGenerator.cs:54-55 | with no collected types only the aggregate unit is emitted, and its method body is empty |
| Generator.EmitSources | EfCoreValueConverterGenerator.cs:37-55 | the emission loop produces exactly what `Emitted` describes |
| Generator.Execute | EfCoreValueConverterGenerator.cs:15-56 | a run fails with the first attribute fault when there is one; otherwise it emits the units for the qualifying types of all resolvable references |
| Generator.AdapterHintNameInjective | EfCoreValueConverterGenerator.cs:51 | converter hint names are equal iff the simple type names are equal, so same-named types in different namespaces collide |
| Generator.AggregateHintNameDistinct | EfCoreValueConverterGenerator.cs:51-55 | the aggregate's hint name never equals a converter's hint name |
| Generator.HintNamesUniqueIff | EfCoreValueConverterGenerator.cs:51-55 | the units of a run have pairwise distinct hint names iff the collected types have pairwise distinct simple names |

## Left out

- `Initialize` (lines 10-13) does nothing and is not modelled.
- The Roslyn API is modelled as datatypes:
  - `Compilation.References` with `GetAssemblyOrModuleSymbol` becomes a sequence of optional assemblies.
  - `GetMembers` becomes sequences in declaration order.
  - `ContainingNamespace.ToDisplayString()` becomes a string given with each type, so how the global namespace is displayed is not modelled.
  - `AttributeClass?.Name` becomes an optional simple name.
- `TypedConstant.Value` is reduced to null or the text its `ToString()` gives. What `ToString()` returns for array-valued arguments is not modelled.
- `SpecialType` tells apart only `System_String`, `System_Int32` and every other tag.
- `context.AddSource`, `SourceText.From` and the UTF-8 encoding are not modelled. A run returns its units as a sequence of hint name and text instead.
- Generator.Execute: a run that throws after some `AddSource` calls is modelled as producing no units at all, because the host discards the output of a generator that throws. The converter units added before the fault are therefore not modelled.
- Generator.HintNamesUniqueIff: states when hint names collide, not how the host reacts to a duplicate hint name.
- Text.EqualsIgnoreCaseIffLowerEqual: `InvariantCultureIgnoreCase` is modelled as ASCII case folding. Culture-sensitive comparison is not modelled: neither ignorable characters (the invariant culture matches `"Strongly\u00ADTypedId"` to the keyword, the model does not) nor non-ASCII case rules.
- The namespace imports are not an unordered set. LINQ `Distinct` keeps first-occurrence order, and `Text.Distinct` follows it.
- Whether the generated C# compiles, and how EF Core behaves with the registered converters at run time, are not modelled. Only the text of the units is modelled.
- Templates.UsingStatementsImportEachNamespaceOnce and Templates.RegistrationsOnePerType require that namespaces contain no '\r' and type names no '\n'. Only then can the joined text be split back into its lines.
