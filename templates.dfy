/** The two source-text renderers, `GenerateEfCoreValueConverter` and
    `GenerateDbContextExtensionMethod`. Line breaks inside the templates are
    "\n" (the verbatim strings of the generator's source); the namespace
    imports of the aggregate are joined with "\r\n" and its registration
    statements with "\n", as the generator joins them. */
module Templates {
  import opened Text
  import opened Symbols

  /** `using {ns};` */
  function UsingLine(ns: string): (r: string)
    ensures |r| == |ns| + 7 && r[6..|r| - 1] == ns
  {
    "using " + ns + ";"
  }

  /** The converter declaration line of an adapter. */
  function ConverterDeclaration(structName: string, structType: string): string {
    "class " + structName + "Converter : ValueConverter<" + structName + ", " + structType + ">"
  }

  /** The closure that constructs a wrapper from its primitive. */
  function FromProvider(structName: string): string {
    "value => new " + structName + "(value)"
  }

  /** The closure that reads the wrapper's primitive. */
  const ToProvider := "id => id.Value"

  /** The two constructors of an adapter, up to the first argument of the
      base constructor call. */
  function ConverterConstructors(structName: string): string {
    "\n    {\n        public " + structName + "Converter() : this(null) { }\n"
    + "        public " + structName + "Converter(ConverterMappingHints? mappingHints = null)\n"
    + "            : base(\n                "
  }

  /** `GenerateEfCoreValueConverter`: the adapter unit of one wrapper type.
      It imports the wrapper's namespace, declares `{structName}Converter`
      as a `ValueConverter<{structName}, {structType}>` and passes the two
      conversion closures to the base constructor (see AdapterUnitContents). */
  function GenerateEfCoreValueConverter(namespaceName: string, structName: string, structType: string): string {
    "\nusing System;\nusing Microsoft.EntityFrameworkCore.Storage.ValueConversion;\n"
    + UsingLine(namespaceName)
    + "\n\nnamespace StronglyTypedIds.EFConverters\n{\n    public "
    + ConverterDeclaration(structName, structType)
    + ConverterConstructors(structName)
    + ToProvider
    + ",\n                "
    + FromProvider(structName)
    + ",\n                mappingHints\n            ) { }\n    }\n}\n"
  }

  /** The adapter unit imports the wrapper's namespace, declares the
      converter class and passes both conversion closures. */
  lemma AdapterUnitContents(namespaceName: string, structName: string, structType: string)
    ensures var r := GenerateEfCoreValueConverter(namespaceName, structName, structType);
      && Contains(r, UsingLine(namespaceName))
      && Contains(r, ConverterDeclaration(structName, structType))
      && Contains(r, ToProvider)
      && Contains(r, FromProvider(structName))
  {
    ContainsOddPieces9(
      "\nusing System;\nusing Microsoft.EntityFrameworkCore.Storage.ValueConversion;\n",
      UsingLine(namespaceName),
      "\n\nnamespace StronglyTypedIds.EFConverters\n{\n    public ",
      ConverterDeclaration(structName, structType),
      ConverterConstructors(structName),
      ToProvider,
      ",\n                ",
      FromProvider(structName),
      ",\n                mappingHints\n            ) { }\n    }\n}\n");
  }

  /** One `using` line per namespace, in order. */
  function UsingLines(namespaces: seq<string>): seq<string> {
    seq(|namespaces|, i requires 0 <= i < |namespaces| => UsingLine(namespaces[i]))
  }

  /** The namespace imports of the aggregate unit: one `using` line per
      distinct namespace, in first-occurrence order, joined with "\r\n";
      empty when there are no namespaces. */
  function UsingStatements(namespaces: seq<string>): string {
    var uniqueNameSpaces := Distinct(namespaces);
    if |uniqueNameSpaces| > 0 then Join("\r\n", UsingLines(uniqueNameSpaces)) else ""
  }

  /** The registration statement of one wrapper type. */
  function Registration(structName: string): string {
    "modelBuilder.Properties<" + structName + ">().HaveConversion<" + structName + "Converter>();"
  }

  /** One registration statement per wrapper type, in order. */
  function RegistrationStatements(structs: seq<NamedType>): seq<string> {
    seq(|structs|, i requires 0 <= i < |structs| => Registration(structs[i].name))
  }

  /** The registration statements of all wrapper types, joined with "\n". */
  function Registrations(structs: seq<NamedType>): string {
    Join("\n", RegistrationStatements(structs))
  }

  /** The containing namespace of each type, in order. */
  function Namespaces(structs: seq<NamedType>): seq<string> {
    seq(|structs|, i requires 0 <= i < |structs| => structs[i].containingNamespace)
  }

  /** The fixed text of the aggregate unit around its two substitutions. */
  const AggregateHead := "#nullable enable\nusing System;\nusing Microsoft.EntityFrameworkCore;\n"
  const AggregateOpening :=
    "\n\nnamespace StronglyTypedIds.EFConverters\n{\n    public static class DbContextExtensions\n    {\n        "
  const BodyOpening := "\n        {\n            "
  const AggregateClosing := "\n        }\n    }\n}\n"

  const ExtensionMethodDeclaration :=
    "public static void UseStronglyTypedIdConverters(this ModelConfigurationBuilder modelBuilder)"

  /** `GenerateDbContextExtensionMethod`: the aggregate unit. It imports the
      namespaces of the wrapper types and declares the extension method
      whose body registers every wrapper type's converter (see
      AggregateUnitContents). */
  function GenerateDbContextExtensionMethod(structs: seq<NamedType>): string {
    AggregateHead + UsingStatements(Namespaces(structs)) + AggregateOpening
    + ExtensionMethodDeclaration + BodyOpening + Registrations(structs) + AggregateClosing
  }

  /** The aggregate unit holds the namespace imports, the extension method's
      declaration and the registration statements. */
  lemma AggregateUnitContents(structs: seq<NamedType>)
    ensures var r := GenerateDbContextExtensionMethod(structs);
      && Contains(r, UsingStatements(Namespaces(structs)))
      && Contains(r, ExtensionMethodDeclaration)
      && Contains(r, Registrations(structs))
  {
    ContainsOddPieces7(AggregateHead, UsingStatements(Namespaces(structs)), AggregateOpening,
      ExtensionMethodDeclaration, BodyOpening, Registrations(structs), AggregateClosing);
  }

  /** Different namespaces give different `using` lines. */
  lemma UsingLineInjective(a: string, b: string)
    ensures UsingLine(a) == UsingLine(b) <==> a == b
  {
    if UsingLine(a) == UsingLine(b) {
      assert UsingLine(a)[6..|UsingLine(a)| - 1] == a;
    }
  }

  /** The import block splits back into its `using` lines. */
  lemma UsingStatementsSplit(namespaces: seq<string>)
    requires namespaces != []
    requires forall i :: 0 <= i < |namespaces| ==> '\r' !in namespaces[i]
    ensures Split(UsingStatements(namespaces), "\r\n") == UsingLines(Distinct(namespaces))
  {
    var unique := Distinct(namespaces);
    var usings := UsingLines(unique);
    DistinctSpec(namespaces);
    forall i | 0 <= i < |usings| ensures '\r' !in usings[i] {
      assert unique[i] in namespaces;
      assert usings[i] == "using " + unique[i] + ";";
    }
    JoinSplit("\r\n", usings);
  }

  /** The import block holds one `using` line per distinct namespace, in
      the order the namespaces first occur: every namespace is imported, none
      twice, and nothing else. With no namespaces the block is empty. */
  lemma UsingStatementsImportEachNamespaceOnce(namespaces: seq<string>)
    requires forall i :: 0 <= i < |namespaces| ==> '\r' !in namespaces[i]
    ensures namespaces == [] ==> UsingStatements(namespaces) == ""
    ensures namespaces != [] ==>
      var lines := Split(UsingStatements(namespaces), "\r\n");
      && lines == UsingLines(Distinct(namespaces))
      && (forall ns :: ns in namespaces ==> UsingLine(ns) in lines)
      && (forall i, j :: 0 <= i < j < |lines| ==> lines[i] != lines[j])
      && (forall i :: 0 <= i < |lines| ==> exists ns :: ns in namespaces && lines[i] == UsingLine(ns))
  {
    DistinctSpec(namespaces);
    if namespaces != [] {
      var unique := Distinct(namespaces);
      var lines := UsingLines(unique);
      UsingStatementsSplit(namespaces);
      forall ns | ns in namespaces ensures UsingLine(ns) in lines {
        var i :| 0 <= i < |unique| && unique[i] == ns;
        assert lines[i] == UsingLine(ns);
      }
      forall i, j | 0 <= i < j < |lines| ensures lines[i] != lines[j] {
        UsingLineInjective(unique[i], unique[j]);
      }
      forall i | 0 <= i < |lines| ensures exists ns :: ns in namespaces && lines[i] == UsingLine(ns) {
        assert unique[i] in namespaces;
      }
    }
  }

  /** The method body holds exactly one registration statement per wrapper
      type, in the order of the types; with no types it is empty. */
  lemma RegistrationsOnePerType(structs: seq<NamedType>)
    requires forall i :: 0 <= i < |structs| ==> '\n' !in structs[i].name
    ensures structs == [] ==> Registrations(structs) == ""
    ensures structs != [] ==>
      Split(Registrations(structs), "\n") == RegistrationStatements(structs)
  {
    if structs != [] {
      var statements := RegistrationStatements(structs);
      JoinSplit("\n", statements);
    }
  }

  /** The aggregate unit registers the converter of, and imports the
      namespace of, every wrapper type it is given. */
  lemma AggregateCoversEveryType(structs: seq<NamedType>)
    ensures forall i :: 0 <= i < |structs| ==>
      && Contains(GenerateDbContextExtensionMethod(structs), Registration(structs[i].name))
      && Contains(GenerateDbContextExtensionMethod(structs), UsingLine(structs[i].containingNamespace))
  {
    var r := GenerateDbContextExtensionMethod(structs);
    var namespaces := Namespaces(structs);
    var unique := Distinct(namespaces);
    var usings := UsingLines(unique);
    var statements := RegistrationStatements(structs);
    DistinctSpec(namespaces);
    AggregateUnitContents(structs);
    forall i | 0 <= i < |structs|
      ensures Contains(r, Registration(structs[i].name))
      ensures Contains(r, UsingLine(structs[i].containingNamespace))
    {
      JoinContainsEach("\n", statements, i);
      ContainsTransitive(r, Registrations(structs), Registration(structs[i].name));
      assert namespaces[i] in unique;
      var k :| 0 <= k < |unique| && unique[k] == namespaces[i];
      JoinContainsEach("\r\n", usings, k);
      ContainsTransitive(r, UsingStatements(namespaces), usings[k]);
    }
  }

  /** With no wrapper types the aggregate unit is still produced: no
      namespace imports beyond the fixed two and an empty method body. */
  lemma EmptyAggregate()
    ensures GenerateDbContextExtensionMethod([])
      == AggregateHead + AggregateOpening + ExtensionMethodDeclaration + BodyOpening + AggregateClosing
  {
    assert Distinct<string>([]) == [];
    assert UsingStatements(Namespaces([])) == "";
    assert Registrations([]) == "";
    DropEmptyPieces7(AggregateHead, UsingStatements(Namespaces([])), AggregateOpening,
      ExtensionMethodDeclaration, BodyOpening, Registrations([]), AggregateClosing);
  }
}
