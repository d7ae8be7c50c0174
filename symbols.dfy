/** The part of the compiler's symbol graph the generator reads, as plain
    values, and the namespace walker `RoslynExtensions.GetNamespaceTypes`. */
module Symbols {
  import opened Wrappers

  /** The `SpecialType` tag of a type symbol; only the two tags the
      generator switches on are told apart. */
  datatype SpecialType = SystemString | SystemInt32 | OtherSpecialType

  /** A type as it is referred to: its simple `Name` and its `SpecialType`. */
  datatype TypeRef = TypeRef(name: string, special: SpecialType)

  /** A member of a named type: a property with its declared type, or
      anything else (field, method, nested type). */
  datatype TypeMember =
    | Property(name: string, propertyType: TypeRef)
    | OtherMember(name: string)

  /** A constructor argument of an attribute use: a null value, or the text
      its value's `ToString()` gives. */
  datatype ConstructorArgument = NullValue | ArgumentValue(text: string)

  /** An attribute use: the simple name of its class (None when the class
      cannot be resolved) and its constructor arguments. */
  datatype AttributeData = AttributeData(
    attributeClass: Option<string>,
    constructorArguments: seq<ConstructorArgument>)

  /** A named type: its simple `Name`, the display string of its containing
      namespace, its attributes and its members, each in declaration order. */
  datatype NamedType = NamedType(
    name: string,
    containingNamespace: string,
    attributes: seq<AttributeData>,
    members: seq<TypeMember>)

  /** A member of a namespace: a named type or a nested namespace. */
  datatype NamespaceMember =
    | TypeDeclaration(symbol: NamedType)
    | NestedNamespace(members: seq<NamespaceMember>)

  /** An assembly symbol, reduced to the members of its global namespace. */
  datatype AssemblySymbol = AssemblySymbol(globalNamespace: seq<NamespaceMember>)

  /** `GetNamespaceTypes`: every named type under a namespace, depth first,
      in member order, once per declaration. */
  function GetNamespaceTypes(members: seq<NamespaceMember>): (r: seq<NamedType>)
    decreases members
  {
    if members == [] then []
    else
      var found := match members[0]
        case TypeDeclaration(t) => [t]
        case NestedNamespace(nested) => GetNamespaceTypes(nested);
      found + GetNamespaceTypes(members[1..])
  }

  /** Number of type declarations in the tree, at any depth. */
  ghost function TypeDeclarationCount(members: seq<NamespaceMember>): nat
    decreases members
  {
    if members == [] then 0
    else
      var here := match members[0]
        case TypeDeclaration(_) => 1
        case NestedNamespace(nested) => TypeDeclarationCount(nested);
      here + TypeDeclarationCount(members[1..])
  }

  /** Number of declarations of exactly `t` in the tree, at any depth. */
  ghost function Declarations(members: seq<NamespaceMember>, t: NamedType): nat
    decreases members
  {
    if members == [] then 0
    else
      var here := match members[0]
        case TypeDeclaration(u) => if u == t then 1 else 0
        case NestedNamespace(nested) => Declarations(nested, t);
      here + Declarations(members[1..], t)
  }

  /** The walk yields one type per type declaration in the tree. */
  lemma {:induction false} WalkLength(members: seq<NamespaceMember>)
    ensures |GetNamespaceTypes(members)| == TypeDeclarationCount(members)
    decreases members
  {
    if members != [] {
      WalkLength(members[1..]);
      match members[0]
      case TypeDeclaration(_) =>
      case NestedNamespace(nested) => WalkLength(nested);
    }
  }

  /** No de-duplication: each type is yielded once per declaration of it,
      so a type is yielded iff it is declared somewhere in the tree. */
  lemma {:induction false} WalkOccurrences(members: seq<NamespaceMember>, t: NamedType)
    ensures multiset(GetNamespaceTypes(members))[t] == Declarations(members, t)
    ensures t in GetNamespaceTypes(members) <==> Declarations(members, t) > 0
    decreases members
  {
    if members != [] {
      WalkOccurrences(members[1..], t);
      match members[0]
      case TypeDeclaration(_) =>
      case NestedNamespace(nested) => WalkOccurrences(nested, t);
    }
  }

  /** The walk of a concatenation of member lists is the concatenation of
      their walks: everything found under an earlier member precedes
      everything found under a later one. */
  lemma {:induction false} WalkConcat(a: seq<NamespaceMember>, b: seq<NamespaceMember>)
    ensures GetNamespaceTypes(a + b) == GetNamespaceTypes(a) + GetNamespaceTypes(b)
    decreases a
  {
    if a != [] {
      assert (a + b)[0] == a[0];
      assert (a + b)[1..] == a[1..] + b;
      var found := match a[0]
        case TypeDeclaration(t) => [t]
        case NestedNamespace(nested) => GetNamespaceTypes(nested);
      assert GetNamespaceTypes(a + b) == found + GetNamespaceTypes(a[1..] + b);
      assert GetNamespaceTypes(a) == found + GetNamespaceTypes(a[1..]);
      WalkConcat(a[1..], b);
    } else {
      assert a + b == b;
    }
  }

  /** A type member is yielded after everything under the members before it
      and before everything under the members after it, nested namespaces
      included. */
  lemma WalkOrder(before: seq<NamespaceMember>, t: NamedType, after: seq<NamespaceMember>)
    ensures GetNamespaceTypes(before + [TypeDeclaration(t)] + after)
      == GetNamespaceTypes(before) + [t] + GetNamespaceTypes(after)
  {
    WalkConcat(before + [TypeDeclaration(t)], after);
    WalkConcat(before, [TypeDeclaration(t)]);
  }

  /** `GetMembers().OfType<IPropertySymbol>().FirstOrDefault(p => p.Name ==
      "Value")?.Type`: the type of the first property named "Value", or None
      (the null of `FirstOrDefault`). */
  function FindValueProperty(members: seq<TypeMember>): Option<TypeRef> {
    if members == [] then None
    else if IsValueProperty(members[0]) then Some(members[0].propertyType)
    else FindValueProperty(members[1..])
  }

  /** The lookup finds nothing iff no member is a property named "Value";
      otherwise it returns the type of the first such property. */
  lemma {:induction false} FindValuePropertySpec(members: seq<TypeMember>)
    ensures FindValueProperty(members).None? <==> forall i :: 0 <= i < |members| ==> !IsValueProperty(members[i])
    ensures FindValueProperty(members).Some? ==>
      exists i :: (&& 0 <= i < |members|
                   && members[i] == Property("Value", FindValueProperty(members).value)
                   && forall j :: 0 <= j < i ==> !IsValueProperty(members[j]))
  {
    if members != [] && !IsValueProperty(members[0]) {
      var rest := members[1..];
      FindValuePropertySpec(rest);
      assert forall i :: 1 <= i < |members| ==> members[i] == rest[i - 1];
      if FindValueProperty(rest).Some? {
        var i :| 0 <= i < |rest| && rest[i] == Property("Value", FindValueProperty(rest).value)
          && forall j :: 0 <= j < i ==> !IsValueProperty(rest[j]);
        assert members[i + 1] == rest[i];
      }
    }
  }

  predicate IsValueProperty(m: TypeMember) {
    m.Property? && m.name == "Value"
  }
}
