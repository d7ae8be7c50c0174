/** `EfCoreValueConverterGenerator.Execute` and `IsStronglyTypedIdAttribute`:
    find the strongly typed id types in every resolvable referenced assembly,
    classify the type of each one's `Value` property, and produce one
    converter unit per type plus one aggregate registration unit. */
module Generator {
  import opened Wrappers
  import opened Text
  import opened Symbols
  import opened Templates

  /** The exceptions that abort a run of the generator. */
  datatype Fault =
    /** `ConstructorArguments[0]` of a `GeneratedCodeAttribute` use without
        constructor arguments (an index out of range). */
    | MissingConstructorArgument
    /** `Value!.ToString()` on a null first constructor argument of a
        `GeneratedCodeAttribute` use (a null reference). */
    | NullConstructorArgument
    /** `structType!.SpecialType` for a collected type without a property
        named "Value" (a null reference). */
    | MissingValueProperty(structName: string)

  /** A generated source unit: its hint name and its text. */
  datatype SourceFile = SourceFile(hintName: string, text: string)

  const StronglyTypedIdAttributeName := "StronglyTypedIdAttribute"
  const GeneratedCodeAttributeName := "GeneratedCodeAttribute"
  const StronglyTypedIdKeyword := "StronglyTypedId"
  const AggregateHintName := "DbContextExtensions.g.cs"
  const AdapterHintSuffix := "_EfCoreValueConverter.g.cs"

  /** `IsStronglyTypedIdAttribute`: an attribute use marks a strongly typed
      id when its class is named `StronglyTypedIdAttribute`, or when its
      class is named `GeneratedCodeAttribute` and its first constructor
      argument reads `StronglyTypedId` in any letter case. Only the second
      test reads the arguments, and it fails when there is no first argument
      or when that argument is null. */
  function IsStronglyTypedIdAttribute(a: AttributeData): (r: Result<bool, Fault>)
    ensures r == Success(true) <==>
      || a.attributeClass == Some(StronglyTypedIdAttributeName)
      || (&& a.attributeClass == Some(GeneratedCodeAttributeName)
          && |a.constructorArguments| > 0
          && a.constructorArguments[0].ArgumentValue?
          && EqualsIgnoreCase(a.constructorArguments[0].text, StronglyTypedIdKeyword))
    ensures r.Failure? <==>
      && a.attributeClass == Some(GeneratedCodeAttributeName)
      && (|a.constructorArguments| == 0 || a.constructorArguments[0].NullValue?)
    ensures a.attributeClass.None? ==> r == Success(false)
  {
    if a.attributeClass == Some(StronglyTypedIdAttributeName) then Success(true)
    else if a.attributeClass != Some(GeneratedCodeAttributeName) then Success(false)
    else if |a.constructorArguments| == 0 then Failure(MissingConstructorArgument)
    else match a.constructorArguments[0]
      case NullValue => Failure(NullConstructorArgument)
      case ArgumentValue(text) => Success(EqualsIgnoreCase(text, StronglyTypedIdKeyword))
  }

  /** The keyword test ignores letter case: two `GeneratedCodeAttribute`
      uses whose first arguments differ only in case get the same verdict,
      which for the keyword itself is the verdict of the dedicated marker. */
  lemma KeywordIgnoresCase(args1: seq<ConstructorArgument>, args2: seq<ConstructorArgument>)
    requires |args1| > 0 && |args2| > 0
    requires args1[0].ArgumentValue? && args2[0].ArgumentValue?
    requires Lower(args1[0].text) == Lower(args2[0].text)
    ensures IsStronglyTypedIdAttribute(AttributeData(Some(GeneratedCodeAttributeName), args1))
      == IsStronglyTypedIdAttribute(AttributeData(Some(GeneratedCodeAttributeName), args2))
    ensures Lower(args1[0].text) == Lower(StronglyTypedIdKeyword) ==>
      IsStronglyTypedIdAttribute(AttributeData(Some(GeneratedCodeAttributeName), args1))
        == IsStronglyTypedIdAttribute(AttributeData(Some(StronglyTypedIdAttributeName), []))
  {
    EqualsIgnoreCaseIffLowerEqual(args1[0].text, StronglyTypedIdKeyword);
    EqualsIgnoreCaseIffLowerEqual(args2[0].text, StronglyTypedIdKeyword);
  }

  /** `type.GetAttributes().Any(IsStronglyTypedIdAttribute)`: tests the
      attributes in order and stops at the first that qualifies or fails. */
  function AnyStronglyTypedIdAttribute(attributes: seq<AttributeData>): Result<bool, Fault> {
    if attributes == [] then Success(false)
    else
      var first := IsStronglyTypedIdAttribute(attributes[0]);
      if first != Success(false) then first
      else AnyStronglyTypedIdAttribute(attributes[1..])
  }

  /** The test is true at the first attribute that qualifies, false when
      none does, and the fault of the first attribute that fails before any
      qualifies. */
  lemma {:induction false} AnyStronglyTypedIdAttributeSpec(attributes: seq<AttributeData>)
    ensures AnyStronglyTypedIdAttribute(attributes) == Success(false) <==>
      forall i :: 0 <= i < |attributes| ==> IsStronglyTypedIdAttribute(attributes[i]) == Success(false)
    ensures AnyStronglyTypedIdAttribute(attributes) == Success(true) <==>
      exists i :: (&& 0 <= i < |attributes|
                   && IsStronglyTypedIdAttribute(attributes[i]) == Success(true)
                   && forall j :: 0 <= j < i ==> IsStronglyTypedIdAttribute(attributes[j]) == Success(false))
    ensures AnyStronglyTypedIdAttribute(attributes).Failure? ==>
      exists i :: (&& 0 <= i < |attributes|
                   && IsStronglyTypedIdAttribute(attributes[i]) == Failure(AnyStronglyTypedIdAttribute(attributes).error)
                   && forall j :: 0 <= j < i ==> IsStronglyTypedIdAttribute(attributes[j]) == Success(false))
  {
    if attributes != [] && IsStronglyTypedIdAttribute(attributes[0]) == Success(false) {
      var rest := attributes[1..];
      AnyStronglyTypedIdAttributeSpec(rest);
      assert forall i :: 1 <= i < |attributes| ==> attributes[i] == rest[i - 1];
      if AnyStronglyTypedIdAttribute(rest) == Success(true) {
        var i :| (&& 0 <= i < |rest|
                  && IsStronglyTypedIdAttribute(rest[i]) == Success(true)
                  && forall j :: 0 <= j < i ==> IsStronglyTypedIdAttribute(rest[j]) == Success(false));
        assert IsStronglyTypedIdAttribute(attributes[i + 1]) == Success(true);
      }
      if AnyStronglyTypedIdAttribute(rest).Failure? {
        var i :| (&& 0 <= i < |rest|
                  && IsStronglyTypedIdAttribute(rest[i]) == Failure(AnyStronglyTypedIdAttribute(rest).error)
                  && forall j :: 0 <= j < i ==> IsStronglyTypedIdAttribute(rest[j]) == Success(false));
        assert IsStronglyTypedIdAttribute(attributes[i + 1]) == IsStronglyTypedIdAttribute(rest[i]);
      }
    }
  }

  /** A type that the generator collects. */
  predicate Qualifies(t: NamedType) {
    AnyStronglyTypedIdAttribute(t.attributes) == Success(true)
  }

  /** The types of every resolvable reference, reference by reference, each
      walked with `GetNamespaceTypes`; unresolvable references add nothing. */
  function AllTypes(references: seq<Option<AssemblySymbol>>): seq<NamedType> {
    if references == [] then []
    else AllTypes(references[..|references| - 1]) + ReferenceTypes(references[|references| - 1])
  }

  /** The types of one reference: none when it does not resolve to an
      assembly, otherwise the walk of the assembly's global namespace. */
  function ReferenceTypes(reference: Option<AssemblySymbol>): seq<NamedType> {
    match reference
    case None => []
    case Some(assembly) => GetNamespaceTypes(assembly.globalNamespace)
  }

  /** The types among `types` that qualify, in order, duplicates kept. */
  function Qualifying(types: seq<NamedType>): seq<NamedType> {
    if types == [] then []
    else
      var last := types[|types| - 1];
      Qualifying(types[..|types| - 1]) + if Qualifies(last) then [last] else []
  }

  /** The first fault met when testing the attributes of `types` in order. */
  function FirstFault(types: seq<NamedType>): Option<Fault> {
    if types == [] then None
    else
      var last := types[|types| - 1];
      match FirstFault(types[..|types| - 1])
      case Some(e) => Some(e)
      case None =>
        match AnyStronglyTypedIdAttribute(last.attributes)
        case Failure(e) => Some(e)
        case Success(_) => None
  }

  lemma {:induction false} AllTypesConcat(a: seq<Option<AssemblySymbol>>, b: seq<Option<AssemblySymbol>>)
    ensures AllTypes(a + b) == AllTypes(a) + AllTypes(b)
    decreases |b|
  {
    if b == [] {
      assert a + b == a;
    } else {
      var init, last := b[..|b| - 1], b[|b| - 1];
      assert b == init + [last];
      assert a + b == (a + init) + [last];
      AllTypesSnoc(a + init, last);
      AllTypesSnoc(init, last);
      AllTypesConcat(a, init);
      AppendAssociative(AllTypes(a), AllTypes(init), ReferenceTypes(last));
    }
  }

  lemma AllTypesSnoc(references: seq<Option<AssemblySymbol>>, reference: Option<AssemblySymbol>)
    ensures AllTypes(references + [reference]) == AllTypes(references) + ReferenceTypes(reference)
  {
    assert (references + [reference])[..|references|] == references;
  }

  /** A reference that does not resolve to an assembly contributes nothing. */
  lemma UnresolvedReferenceSkipped(before: seq<Option<AssemblySymbol>>, after: seq<Option<AssemblySymbol>>)
    ensures AllTypes(before + [None] + after) == AllTypes(before + after)
  {
    AllTypesConcat(before + [None], after);
    AllTypesConcat(before, after);
    assert (before + [None])[..|before|] == before;
  }

  lemma {:induction false} QualifyingConcat(a: seq<NamedType>, b: seq<NamedType>)
    ensures Qualifying(a + b) == Qualifying(a) + Qualifying(b)
    decreases |b|
  {
    if b == [] {
      assert a + b == a;
    } else {
      var n := |b| - 1;
      assert (a + b)[..|a + b| - 1] == a + b[..n];
      assert (a + b)[|a + b| - 1] == b[n];
      QualifyingConcat(a, b[..n]);
    }
  }

  /** The collection keeps exactly the qualifying types, as often as they
      occur: a type is collected iff it is seen and qualifies. */
  lemma {:induction false} QualifyingOccurrences(types: seq<NamedType>, t: NamedType)
    ensures multiset(Qualifying(types))[t] == if Qualifies(t) then multiset(types)[t] else 0
    ensures t in Qualifying(types) <==> t in types && Qualifies(t)
    decreases |types|
  {
    if types != [] {
      var n := |types| - 1;
      assert types == types[..n] + [types[n]];
      QualifyingOccurrences(types[..n], t);
    }
  }

  lemma {:induction false} FirstFaultConcat(a: seq<NamedType>, b: seq<NamedType>)
    ensures FirstFault(a + b) == if FirstFault(a).Some? then FirstFault(a) else FirstFault(b)
    decreases |b|
  {
    if b == [] {
      assert a + b == a;
    } else {
      var n := |b| - 1;
      assert (a + b)[..|a + b| - 1] == a + b[..n];
      assert (a + b)[|a + b| - 1] == b[n];
      FirstFaultConcat(a, b[..n]);
    }
  }

  /** No fault is met iff `Any` succeeds on the attributes of every type. */
  lemma {:induction false} FirstFaultNone(types: seq<NamedType>)
    ensures FirstFault(types).None? <==>
      forall i :: 0 <= i < |types| ==> AnyStronglyTypedIdAttribute(types[i].attributes).Success?
    decreases |types|
  {
    if types != [] {
      var n := |types| - 1;
      FirstFaultNone(types[..n]);
      assert forall i :: 0 <= i < n ==> types[..n][i] == types[i];
    }
  }

  /** Testing one more type extends the collection and the fault search by
      that type alone. */
  lemma AppendOne(done: seq<NamedType>, t: NamedType)
    ensures Qualifying(done + [t]) == Qualifying(done) + if Qualifies(t) then [t] else []
    ensures FirstFault(done + [t]) ==
      if FirstFault(done).Some? then FirstFault(done)
      else if AnyStronglyTypedIdAttribute(t.attributes).Failure? then Some(AnyStronglyTypedIdAttribute(t.attributes).error)
      else None
  {
    assert (done + [t])[..|done|] == done;
  }

  /** Lines 28-34 of `Execute`: test the types of one assembly in walk
      order and append the qualifying ones to `structsToProcess`. */
  method CollectFromTypes(types: seq<NamedType>, structsToProcess: seq<NamedType>)
    returns (r: Result<seq<NamedType>, Fault>)
    ensures r.Success? <==> FirstFault(types).None?
    ensures r.Success? ==> r.value == structsToProcess + Qualifying(types)
    ensures r.Failure? ==> FirstFault(types) == Some(r.error)
  {
    var structs := structsToProcess;
    var j := 0;
    while j < |types|
      invariant 0 <= j <= |types|
      invariant FirstFault(types[..j]).None?
      invariant structs == structsToProcess + Qualifying(types[..j])
    {
      var t := types[j];
      AppendOne(types[..j], t);
      assert types[..j + 1] == types[..j] + [t];
      var any := AnyStronglyTypedIdAttribute(t.attributes);
      if any.Failure? {
        assert types == types[..j + 1] + types[j + 1..];
        FirstFaultConcat(types[..j + 1], types[j + 1..]);
        return Failure(any.error);
      }
      if any.value {
        structs := structs + [t];
      }
      j := j + 1;
    }
    assert types[..j] == types;
    return Success(structs);
  }

  /** Lines 17-35 of `Execute`: walk every resolvable reference and collect
      the types carrying a strongly typed id attribute. A fault while
      testing attributes aborts the collection. */
  method CollectStructs(references: seq<Option<AssemblySymbol>>) returns (r: Result<seq<NamedType>, Fault>)
    ensures r.Success? <==> FirstFault(AllTypes(references)).None?
    ensures r.Success? ==> r.value == Qualifying(AllTypes(references))
    ensures r.Failure? ==> FirstFault(AllTypes(references)) == Some(r.error)
  {
    var structsToProcess: seq<NamedType> := [];
    var k := 0;
    while k < |references|
      invariant 0 <= k <= |references|
      invariant FirstFault(AllTypes(references[..k])).None?
      invariant structsToProcess == Qualifying(AllTypes(references[..k]))
    {
      ReferenceStep(references, k);
      if references[k].Some? {
        var types := GetNamespaceTypes(references[k].value.globalNamespace);
        var collected := CollectFromTypes(types, structsToProcess);
        if collected.Failure? {
          FaultStopsRun(references, k + 1);
          return Failure(collected.error);
        }
        structsToProcess := collected.value;
      }
      k := k + 1;
    }
    assert references[..k] == references;
    return Success(structsToProcess);
  }

  /** Adding reference `k` to a run without faults so far adds the fault and
      the qualifying types of that reference's walk. */
  lemma ReferenceStep(references: seq<Option<AssemblySymbol>>, k: nat)
    requires k < |references|
    requires FirstFault(AllTypes(references[..k])).None?
    ensures FirstFault(AllTypes(references[..k + 1])) == FirstFault(ReferenceTypes(references[k]))
    ensures Qualifying(AllTypes(references[..k + 1]))
      == Qualifying(AllTypes(references[..k])) + Qualifying(ReferenceTypes(references[k]))
  {
    AllTypesStep(references, k);
    FirstFaultConcat(AllTypes(references[..k]), ReferenceTypes(references[k]));
    QualifyingConcat(AllTypes(references[..k]), ReferenceTypes(references[k]));
  }

  /** A fault among the first `k` references is the fault of the whole run. */
  lemma FaultStopsRun(references: seq<Option<AssemblySymbol>>, k: nat)
    requires k <= |references|
    requires FirstFault(AllTypes(references[..k])).Some?
    ensures FirstFault(AllTypes(references)) == FirstFault(AllTypes(references[..k]))
  {
    AllTypesPrefix(references, k);
    FirstFaultConcat(AllTypes(references[..k]), AllTypes(references[k..]));
  }

  lemma AllTypesStep(references: seq<Option<AssemblySymbol>>, k: nat)
    requires k < |references|
    ensures AllTypes(references[..k + 1]) == AllTypes(references[..k]) + ReferenceTypes(references[k])
  {
    assert references[..k + 1][..k] == references[..k];
  }

  /** The types of a prefix of the references come first in the run. */
  lemma AllTypesPrefix(references: seq<Option<AssemblySymbol>>, k: nat)
    requires k <= |references|
    ensures AllTypes(references) == AllTypes(references[..k]) + AllTypes(references[k..])
  {
    assert references == references[..k] + references[k..];
    AllTypesConcat(references[..k], references[k..]);
  }

  /** The `switch` on the `Value` property's type: `string` and `int` for
      the two built-in types, otherwise the type's simple name verbatim. */
  function StructTypeAsString(structType: TypeRef): string {
    match structType.special
    case SystemString => "string"
    case SystemInt32 => "int"
    case OtherSpecialType => structType.name
  }

  /** `{structName}_EfCoreValueConverter.g.cs` */
  function AdapterHintName(structName: string): (r: string)
    ensures |r| == |structName| + |AdapterHintSuffix| && r[..|structName|] == structName
  {
    structName + AdapterHintSuffix
  }

  /** The converter unit of a collected type whose `Value` property has type
      `valueType`. */
  function AdapterFile(t: NamedType, valueType: TypeRef): SourceFile {
    SourceFile(AdapterHintName(t.name),
      GenerateEfCoreValueConverter(t.containingNamespace, t.name, StructTypeAsString(valueType)))
  }

  /** The converter unit of a type declares the converter between the type
      and the C# name of its `Value` property's type: `string` and `int` for
      the two built-in types, the simple name otherwise. */
  lemma AdapterDeclaresValueType(t: NamedType, valueType: TypeRef)
    ensures Contains(AdapterFile(t, valueType).text, ConverterDeclaration(t.name,
      match valueType.special
      case SystemString => "string"
      case SystemInt32 => "int"
      case OtherSpecialType => valueType.name))
  {
    AdapterUnitContents(t.containingNamespace, t.name, StructTypeAsString(valueType));
  }

  /** The types of the `Value` properties of the collected types, looked up
      type by type as lines 39-43 of `Execute` do: the fault of the first
      type without a property named "Value", otherwise one type each. */
  function ValueTypes(structs: seq<NamedType>): (r: Result<seq<TypeRef>, Fault>)
    ensures r.Success? ==> |r.value| == |structs|
  {
    if structs == [] then Success([])
    else
      var last := structs[|structs| - 1];
      match ValueTypes(structs[..|structs| - 1])
      case Failure(e) => Failure(e)
      case Success(valueTypes) =>
        match FindValueProperty(last.members)
        case None => Failure(MissingValueProperty(last.name))
        case Some(valueType) => Success(valueTypes + [valueType])
  }

  /** One converter unit per collected type, in order. */
  function AdapterFiles(structs: seq<NamedType>, valueTypes: seq<TypeRef>): seq<SourceFile>
    requires |valueTypes| == |structs|
  {
    seq(|structs|, i requires 0 <= i < |structs| => AdapterFile(structs[i], valueTypes[i]))
  }

  /** What lines 37-55 of `Execute` produce from the collected types: the
      converter units followed by the aggregate unit, or the fault that stops
      the emission. */
  function Emitted(structs: seq<NamedType>): Result<seq<SourceFile>, Fault> {
    match ValueTypes(structs)
    case Failure(e) => Failure(e)
    case Success(valueTypes) =>
      Success(AdapterFiles(structs, valueTypes)
        + [SourceFile(AggregateHintName, GenerateDbContextExtensionMethod(structs))])
  }

  /** The emission succeeds iff every collected type has a property named
      "Value"; a failure carries the name of the first type without one; on
      success there is one converter unit per type, in order, and the
      aggregate unit last. */
  ghost predicate EmitsFor(structs: seq<NamedType>, r: Result<seq<SourceFile>, Fault>) {
    && (r.Success? <==> forall i :: 0 <= i < |structs| ==> FindValueProperty(structs[i].members).Some?)
    && (r.Failure? ==> exists i :: (&& 0 <= i < |structs|
                                    && FindValueProperty(structs[i].members).None?
                                    && r.error == MissingValueProperty(structs[i].name)
                                    && forall j :: 0 <= j < i ==> FindValueProperty(structs[j].members).Some?))
    && (r.Success? ==>
          && |r.value| == |structs| + 1
          && (forall i :: 0 <= i < |structs| ==>
                r.value[i] == AdapterFile(structs[i], FindValueProperty(structs[i].members).value))
          && r.value[|structs|] == SourceFile(AggregateHintName, GenerateDbContextExtensionMethod(structs)))
  }

  /** The lookup succeeds iff every type has a property named "Value", and
      then yields each type's `Value` property type; a failure names the
      first type without one. */
  lemma {:induction false} ValueTypesSpec(structs: seq<NamedType>)
    ensures ValueTypes(structs).Success? <==>
      forall i :: 0 <= i < |structs| ==> FindValueProperty(structs[i].members).Some?
    ensures ValueTypes(structs).Failure? ==>
      exists i :: (&& 0 <= i < |structs|
                   && FindValueProperty(structs[i].members).None?
                   && ValueTypes(structs).error == MissingValueProperty(structs[i].name)
                   && forall j :: 0 <= j < i ==> FindValueProperty(structs[j].members).Some?)
    ensures ValueTypes(structs).Success? ==>
      forall i :: 0 <= i < |structs| ==> FindValueProperty(structs[i].members) == Some(ValueTypes(structs).value[i])
    decreases |structs|
  {
    if structs != [] {
      var n := |structs| - 1;
      var init := structs[..n];
      ValueTypesSpec(init);
      assert forall i :: 0 <= i < n ==> init[i] == structs[i];
      if ValueTypes(init).Failure? {
        var i :| (&& 0 <= i < n
                  && FindValueProperty(init[i].members).None?
                  && ValueTypes(init).error == MissingValueProperty(init[i].name)
                  && forall j :: 0 <= j < i ==> FindValueProperty(init[j].members).Some?);
        assert FindValueProperty(structs[i].members).None?;
      } else if FindValueProperty(structs[n].members).None? {
        assert !(forall i :: 0 <= i < |structs| ==> FindValueProperty(structs[i].members).Some?);
      }
    }
  }

  /** The emission meets its description. */
  lemma EmittedMeetsEmitsFor(structs: seq<NamedType>)
    ensures EmitsFor(structs, Emitted(structs))
  {
    ValueTypesSpec(structs);
  }

  /** With no collected types the emission still produces the aggregate
      unit, and only it: its method body is empty and it imports no
      namespace beyond the fixed two. */
  lemma NoTypesOnlyAggregate()
    ensures Emitted([]) == Success([SourceFile(AggregateHintName,
      AggregateHead + AggregateOpening + ExtensionMethodDeclaration + BodyOpening + AggregateClosing)])
  {
    EmptyAggregate();
    assert ValueTypes([]) == Success([]);
    assert AdapterFiles([], []) == [];
    assert AdapterFiles([], []) + [SourceFile(AggregateHintName, GenerateDbContextExtensionMethod([]))]
      == [SourceFile(AggregateHintName, GenerateDbContextExtensionMethod([]))];
  }

  /** Looking up one more type, after the earlier ones succeeded. */
  lemma ValueTypesStep(structs: seq<NamedType>, i: nat)
    requires i < |structs| && ValueTypes(structs[..i]).Success?
    ensures FindValueProperty(structs[i].members).None? ==>
      ValueTypes(structs[..i + 1]) == Failure(MissingValueProperty(structs[i].name))
    ensures FindValueProperty(structs[i].members).Some? ==>
      ValueTypes(structs[..i + 1])
        == Success(ValueTypes(structs[..i]).value + [FindValueProperty(structs[i].members).value])
  {
    assert structs[..i + 1][..i] == structs[..i];
  }

  /** The lookup over a list of types is the lookup over its first part
      followed by the lookup over the rest; a fault in the first part is the
      fault of all. */
  lemma {:induction false} ValueTypesConcat(a: seq<NamedType>, b: seq<NamedType>)
    ensures ValueTypes(a).Failure? ==> ValueTypes(a + b) == ValueTypes(a)
    ensures ValueTypes(a).Success? && ValueTypes(b).Failure? ==> ValueTypes(a + b) == ValueTypes(b)
    ensures ValueTypes(a).Success? && ValueTypes(b).Success? ==>
      ValueTypes(a + b) == Success(ValueTypes(a).value + ValueTypes(b).value)
    decreases |b|
  {
    if b == [] {
      assert a + b == a;
      if ValueTypes(a).Success? {
        assert ValueTypes(a).value + [] == ValueTypes(a).value;
      }
    } else {
      var n := |b| - 1;
      assert (a + b)[..|a + b| - 1] == a + b[..n];
      assert (a + b)[|a + b| - 1] == b[n];
      ValueTypesConcat(a, b[..n]);
      if ValueTypes(a).Success? && ValueTypes(b).Success? {
        var va, vb := ValueTypes(a).value, ValueTypes(b[..n]).value;
        var v := FindValueProperty(b[n].members).value;
        assert va + vb + [v] == va + (vb + [v]);
      }
    }
  }

  /** A fault among the first `k` types is the fault of the whole emission. */
  lemma FaultStopsEmission(structs: seq<NamedType>, k: nat)
    requires k <= |structs| && ValueTypes(structs[..k]).Failure?
    ensures ValueTypes(structs) == ValueTypes(structs[..k])
  {
    assert structs == structs[..k] + structs[k..];
    ValueTypesConcat(structs[..k], structs[k..]);
  }

  /** Rendering one more type adds its converter unit at the end. */
  lemma AdapterFilesSnoc(structs: seq<NamedType>, valueTypes: seq<TypeRef>, t: NamedType, valueType: TypeRef)
    requires |valueTypes| == |structs|
    ensures AdapterFiles(structs + [t], valueTypes + [valueType])
      == AdapterFiles(structs, valueTypes) + [AdapterFile(t, valueType)]
  {
  }

  /** Lines 37-55 of `Execute`: one converter unit per collected type, then
      the aggregate unit. */
  method EmitSources(structsToProcess: seq<NamedType>) returns (r: Result<seq<SourceFile>, Fault>)
    ensures r == Emitted(structsToProcess)
  {
    var files: seq<SourceFile> := [];
    ghost var valueTypes: seq<TypeRef> := [];
    var i := 0;
    while i < |structsToProcess|
      invariant 0 <= i <= |structsToProcess|
      invariant ValueTypes(structsToProcess[..i]) == Success(valueTypes)
      invariant files == AdapterFiles(structsToProcess[..i], valueTypes)
    {
      var structSymbol := structsToProcess[i];
      var namespaceName := structSymbol.containingNamespace;
      var structName := structSymbol.name;
      var structType := FindValueProperty(structSymbol.members);
      ValueTypesStep(structsToProcess, i);
      if structType.None? {
        FaultStopsEmission(structsToProcess, i + 1);
        return Failure(MissingValueProperty(structName));
      }
      var structTypeAsString := StructTypeAsString(structType.value);
      var source := GenerateEfCoreValueConverter(namespaceName, structName, structTypeAsString);
      AdapterFilesSnoc(structsToProcess[..i], valueTypes, structSymbol, structType.value);
      assert structsToProcess[..i + 1] == structsToProcess[..i] + [structSymbol];
      files := files + [SourceFile(AdapterHintName(structName), source)];
      valueTypes := valueTypes + [structType.value];
      i := i + 1;
    }
    assert structsToProcess[..i] == structsToProcess;
    var extensionsSource := GenerateDbContextExtensionMethod(structsToProcess);
    files := files + [SourceFile(AggregateHintName, extensionsSource)];
    return Success(files);
  }

  /** `Execute`: collect the strongly typed id types, then emit their units.
      Any fault aborts the run, and then no unit is produced. */
  method Execute(references: seq<Option<AssemblySymbol>>) returns (r: Result<seq<SourceFile>, Fault>)
    ensures FirstFault(AllTypes(references)).Some? ==> r == Failure(FirstFault(AllTypes(references)).value)
    ensures FirstFault(AllTypes(references)).None? ==> r == Emitted(Qualifying(AllTypes(references)))
  {
    var collected := CollectStructs(references);
    if collected.Failure? {
      return Failure(collected.error);
    }
    r := EmitSources(collected.value);
  }

  /** Converter hint names are equal exactly when the type names are, so two
      types with the same simple name in different namespaces collide. */
  lemma AdapterHintNameInjective(name1: string, name2: string)
    ensures AdapterHintName(name1) == AdapterHintName(name2) <==> name1 == name2
  {
    if AdapterHintName(name1) == AdapterHintName(name2) {
      assert AdapterHintName(name1)[..|name1|] == name1;
    }
  }

  /** The aggregate's hint name is shorter than the suffix of every
      converter hint name, so it never collides with one. */
  lemma AggregateHintNameDistinct(name: string)
    ensures AdapterHintName(name) != AggregateHintName
  {
    assert |AggregateHintName| < |AdapterHintSuffix|;
  }

  /** The units of a successful run have pairwise distinct hint names iff the
      collected types have pairwise distinct simple names. */
  lemma HintNamesUniqueIff(structs: seq<NamedType>, files: seq<SourceFile>)
    requires |files| == |structs| + 1
    requires forall i :: 0 <= i < |structs| ==> files[i].hintName == AdapterHintName(structs[i].name)
    requires files[|structs|].hintName == AggregateHintName
    ensures (forall i, j :: 0 <= i < j < |files| ==> files[i].hintName != files[j].hintName)
      <==> (forall i, j :: 0 <= i < j < |structs| ==> structs[i].name != structs[j].name)
  {
    forall i, j | 0 <= i < j < |structs|
      ensures files[i].hintName == files[j].hintName <==> structs[i].name == structs[j].name
    {
      AdapterHintNameInjective(structs[i].name, structs[j].name);
    }
    forall i | 0 <= i < |structs| ensures files[i].hintName != files[|structs|].hintName {
      AggregateHintNameDistinct(structs[i].name);
    }
  }
}
