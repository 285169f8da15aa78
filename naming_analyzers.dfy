/**
  The current naming analyzers (INTL0001 fields, INTL0002 properties, INTL0003
  methods and local functions). Each is a chain of guard returns ending in one
  report; here each is a function from the symbol's record to an optional diagnostic.
 */
module NamingAnalyzers {
  import opened Wrappers
  import opened Chars
  import opened Strings
  import opened Casing
  import opened Symbols
  import opened SymbolMixins

  const FieldDiagnosticId := "INTL0001"
  const PropertyDiagnosticId := "INTL0002"
  const MethodDiagnosticId := "INTL0003"

  /** A field: its name, whether it is const, its attributes, its containing type and Locations[0]. */
  datatype FieldSymbol = FieldSymbol(
    name: string, isConst: bool, attributes: seq<AttributeData>,
    containingType: TypeSymbol, location: Location)

  /**
    A property. `explicitInterfaceNames` lists the names of the interface properties
    it explicitly implements.
   */
  datatype PropertySymbol = PropertySymbol(
    name: string, isIndexer: bool, explicitInterfaceNames: seq<string>,
    attributes: seq<AttributeData>, containingType: TypeSymbol, location: Location)

  /** Roslyn's MethodKind. */
  datatype MethodKind =
    | AnonymousFunction | Constructor | Conversion | DelegateInvoke | Destructor
    | EventAdd | EventRaise | EventRemove | ExplicitInterfaceImplementation
    | UserDefinedOperator | Ordinary | PropertyGet | PropertySet | ReducedExtension
    | StaticConstructor | BuiltinOperator | DeclareMethod | LocalFunction
    | FunctionPointerSignature

  /**
    A method symbol. `canBeReferencedByName` is consulted only by the legacy rule.
    `explicitInterfaceNames` may be empty even for an explicit interface
    implementation: `void IFoo.Missing() {}` naming no method of IFoo still has that kind.
   */
  datatype MethodSymbol = MethodSymbol(
    name: string, kind: MethodKind, explicitInterfaceNames: seq<string>,
    canBeReferencedByName: bool, attributes: seq<AttributeData>,
    containingType: TypeSymbol, location: Location)

  /** `_` then a PascalCase rest, spelled out character by character. */
  predicate UnderscorePascal(name: string)
  {
    |name| > 1 && name[0] == '_' && IsUpper(name[1])
    && forall i | 1 <= i < |name| :: IsLetterOrDigit(name[i])
  }

  /** The field rule: `_PascalCase`, unless generated, in an enum, in NativeMethods, or const. */
  function AnalyzeField(f: FieldSymbol): (r: Option<Diagnostic>)
    ensures r.Some? <==>
      !HasGeneratedCode(f.attributes) && !HasGeneratedCode(f.containingType.attributes)
      && !f.containingType.isEnum && !IsNativeMethodsClass(f.containingType)
      && !UnderscorePascal(f.name) && !f.isConst
    ensures r.Some? ==> r.value == Diagnostic(FieldDiagnosticId, f.location, [f.name])
  {
    HasGeneratedCodeAppend(f.attributes, f.containingType.attributes);
    if HasGeneratedCode(f.attributes + f.containingType.attributes) then None
    else if f.containingType.isEnum then None
    else if IsNativeMethodsClass(f.containingType) then None
    else if StartsWith(f.name, "_") && |f.name| > 1 && PascalCase(f.name[1..]) then
      assert UnderscorePascal(f.name) by {
        forall i | 1 <= i < |f.name| ensures IsLetterOrDigit(f.name[i]) {
          assert f.name[1..][i - 1] == f.name[i];
        }
      }
      None
    else if f.isConst then
      None
    else
      Some(Diagnostic(FieldDiagnosticId, f.location, [f.name]))
  }

  /** The name the property rule checks: the first explicitly implemented name, else its own. */
  function PropertyCheckedName(p: PropertySymbol): string
  {
    if |p.explicitInterfaceNames| > 0 then p.explicitInterfaceNames[0] else p.name
  }

  /** The property rule: PascalCase, unless generated, in NativeMethods, or an indexer. */
  function AnalyzeProperty(p: PropertySymbol): (r: Option<Diagnostic>)
    ensures r.Some? <==>
      !HasGeneratedCode(p.attributes) && !HasGeneratedCode(p.containingType.attributes)
      && !IsNativeMethodsClass(p.containingType) && !p.isIndexer
      && !PascalCase(PropertyCheckedName(p))
    ensures r.Some? ==> r.value == Diagnostic(PropertyDiagnosticId, p.location, [PropertyCheckedName(p)])
    ensures |p.explicitInterfaceNames| > 0 && r.Some? ==> r.value.arguments == [p.explicitInterfaceNames[0]]
  {
    HasGeneratedCodeAppend(p.attributes, p.containingType.attributes);
    if HasGeneratedCode(p.attributes + p.containingType.attributes) then None
    else if IsNativeMethodsClass(p.containingType) then None
    else if p.isIndexer then None
    else
      var name := if |p.explicitInterfaceNames| > 0 then p.explicitInterfaceNames[0] else p.name;
      if PascalCase(name) then None
      else Some(Diagnostic(PropertyDiagnosticId, p.location, [name]))
  }

  /**
    The method kinds the rule checks, and under which name. An explicit implementation
    naming no interface method makes `First()` throw InvalidOperationException.
   */
  function MethodCheckedName(m: MethodSymbol): (r: Result<Option<string>>)
    ensures r.Failure? <==> m.kind == ExplicitInterfaceImplementation && |m.explicitInterfaceNames| == 0
    ensures r.Failure? ==> r.error == InvalidOperationException
    ensures r.Success? ==> (r.value.Some? <==> m.kind in {DeclareMethod, LocalFunction, Ordinary, ReducedExtension, ExplicitInterfaceImplementation})
    ensures m.kind == ExplicitInterfaceImplementation && |m.explicitInterfaceNames| > 0 ==> r == Success(Some(m.explicitInterfaceNames[0]))
    ensures m.kind != ExplicitInterfaceImplementation && r.Success? && r.value.Some? ==> r.value.value == m.name
  {
    match m.kind
    case DeclareMethod | LocalFunction | Ordinary | ReducedExtension => Success(Some(m.name))
    case ExplicitInterfaceImplementation =>
      if |m.explicitInterfaceNames| == 0 then Failure(InvalidOperationException)
      else Success(Some(m.explicitInterfaceNames[0]))
    case _ => Success(None)
  }

  /**
    NamingMethodPascal.AnalyzeSymbol. The NativeMethods test comes first, so only
    outside NativeMethods does an unresolved explicit implementation throw.
   */
  function AnalyzeMethod(m: MethodSymbol): (r: Result<Option<Diagnostic>>)
    ensures r.Failure? <==> !IsNativeMethodsClass(m.containingType) && MethodCheckedName(m).Failure?
    ensures r.Failure? ==> r.error == InvalidOperationException
    ensures r.Success? && r.value.Some? <==>
      !IsNativeMethodsClass(m.containingType) && MethodCheckedName(m).Success? && MethodCheckedName(m).value.Some?
      && !PascalCase(MethodCheckedName(m).value.value)
      && !HasGeneratedCode(m.attributes) && !HasGeneratedCode(m.containingType.attributes)
    ensures r.Success? && r.value.Some? ==> r.value.value == Diagnostic(MethodDiagnosticId, m.location, [MethodCheckedName(m).value.value])
  {
    HasGeneratedCodeAppend(m.attributes, m.containingType.attributes);
    if IsNativeMethodsClass(m.containingType) then Success(None)
    else
      match MethodCheckedName(m)
      case Failure(e) => Failure(e)
      case Success(None) => Success(None)
      case Success(Some(name)) =>
        if PascalCase(name) then Success(None)
        else if HasGeneratedCode(m.attributes + m.containingType.attributes) then Success(None)
        else Success(Some(Diagnostic(MethodDiagnosticId, m.location, [name])))
  }

  /** NamingMethodPascal.AnalyzeSyntaxNode: a local-function statement, by its identifier alone. */
  function AnalyzeLocalFunction(identifier: string, location: Location): (r: Option<Diagnostic>)
    ensures r.Some? <==> identifier != [] && (!IsUpper(identifier[0]) || exists i | 0 <= i < |identifier| :: !IsLetterOrDigit(identifier[i]))
    ensures r.Some? ==> r.value == Diagnostic(MethodDiagnosticId, location, [identifier])
  {
    if PascalCase(identifier) then None
    else Some(Diagnostic(MethodDiagnosticId, location, [identifier]))
  }

  /** Accessors, constructors, operators and the other unlisted kinds are never reported. */
  lemma UncheckedKindsNeverReported(m: MethodSymbol)
    requires m.kind in {PropertyGet, PropertySet, Constructor, StaticConstructor, Destructor,
                        EventAdd, EventRemove, EventRaise, UserDefinedOperator, Conversion,
                        AnonymousFunction, DelegateInvoke, BuiltinOperator, FunctionPointerSignature}
    ensures AnalyzeMethod(m) == Success(None)
  {
  }

  /** Const fields and enum members are never reported. */
  lemma ConstAndEnumFieldsNeverReported(f: FieldSymbol)
    requires f.isConst || f.containingType.isEnum
    ensures AnalyzeField(f) == None
  {
  }

  /** `_`, `__MyField` and `MyField` are reported. */
  lemma FieldExamples(t: TypeSymbol, loc: Location)
    requires t.kind == NamedType && t.name == "Program" && !t.isEnum && t.attributes == []
    ensures AnalyzeField(FieldSymbol("_", false, [], t, loc)).Some?
    ensures AnalyzeField(FieldSymbol("__MyField", false, [], t, loc)).Some?
    ensures AnalyzeField(FieldSymbol("MyField", false, [], t, loc)).Some?
  {
    OrdinaryField("_", t, loc);
    OrdinaryField("__MyField", t, loc);
    OrdinaryField("MyField", t, loc);
    assert !UnderscorePascal("__MyField") by { assert !IsUpper("__MyField"[1]); }
    assert !UnderscorePascal("MyField") by { assert "MyField"[0] != '_'; }
  }

  /** `_MyField` and `_Field1` are not reported. */
  lemma FieldExamplesAccepted(t: TypeSymbol, loc: Location)
    requires t.kind == NamedType && t.name == "Program" && !t.isEnum && t.attributes == []
    ensures AnalyzeField(FieldSymbol("_MyField", false, [], t, loc)).None?
    ensures AnalyzeField(FieldSymbol("_Field1", false, [], t, loc)).None?
  {
    OrdinaryField("_MyField", t, loc);
    OrdinaryField("_Field1", t, loc);
  }

  /** In an ordinary class, a non-const field is reported exactly when its name is not `_PascalCase`. */
  lemma OrdinaryField(name: string, t: TypeSymbol, loc: Location)
    requires t.kind == NamedType && t.name == "Program" && !t.isEnum && t.attributes == []
    ensures AnalyzeField(FieldSymbol(name, false, [], t, loc)).Some? <==> !UnderscorePascal(name)
  {
    assert !IsNativeMethodsClass(t) by { assert t.name[0] != "NativeMethods"[0]; }
    assert !HasGeneratedCode([]);
  }

  /** `_MyProperty` and `My_Property` are reported; `MyProperty` is not. */
  lemma PropertyExamples(t: TypeSymbol, loc: Location)
    requires t.kind == NamedType && t.name == "Program" && !t.isEnum && t.attributes == []
    ensures AnalyzeProperty(PropertySymbol("_MyProperty", false, [], [], t, loc)).Some?
    ensures AnalyzeProperty(PropertySymbol("My_Property", false, [], [], t, loc)).Some?
    ensures AnalyzeProperty(PropertySymbol("MyProperty", false, [], [], t, loc)).None?
  {
    UnderscoreRejected("_MyProperty");
    assert "My_Property"[2] == '_';
    UnderscoreRejected("My_Property");
  }

  /** `_MyMethod` and `My_Method` are reported; `MyMethod` is not. */
  lemma MethodExamples(t: TypeSymbol, loc: Location)
    requires t.kind == NamedType && t.name == "Program" && !t.isEnum && t.attributes == []
    ensures AnalyzeMethod(MethodSymbol("_MyMethod", Ordinary, [], true, [], t, loc)).Success?
    ensures AnalyzeMethod(MethodSymbol("_MyMethod", Ordinary, [], true, [], t, loc)).value.Some?
    ensures AnalyzeMethod(MethodSymbol("My_Method", Ordinary, [], true, [], t, loc)).Success?
    ensures AnalyzeMethod(MethodSymbol("My_Method", Ordinary, [], true, [], t, loc)).value.Some?
    ensures AnalyzeMethod(MethodSymbol("MyMethod", Ordinary, [], true, [], t, loc)) == Success(None)
  {
    UnderscoreRejected("_MyMethod");
    assert "My_Method"[2] == '_';
    UnderscoreRejected("My_Method");
  }

  /**
    An explicit implementation that names no interface method throws in an ordinary
    class, whatever its name, and is skipped inside NativeMethods.
   */
  lemma UnresolvedExplicitImplementation(name: string, t: TypeSymbol, attrs: seq<AttributeData>, loc: Location)
    ensures var m := MethodSymbol(name, ExplicitInterfaceImplementation, [], true, attrs, t, loc);
      AnalyzeMethod(m) == (if IsNativeMethodsClass(t) then Success(None) else Failure(InvalidOperationException))
  {
  }
}
