/**
  The legacy naming analyzers and code fixes. The legacy rules look only at the
  first character (or, for fields, the one after the underscore); `First()` on an
  empty name throws, which the model returns as a failure.
 */
module LegacyNamingAnalyzers {
  import opened Wrappers
  import opened Chars
  import opened Strings
  import opened Symbols
  import opened SymbolMixins
  import NamingAnalyzers

  type FieldSymbol = NamingAnalyzers.FieldSymbol
  type PropertySymbol = NamingAnalyzers.PropertySymbol
  type MethodSymbol = NamingAnalyzers.MethodSymbol

  const FieldDiagnosticId := "INTL0001"
  const PropertyDiagnosticId := "INTL0002"
  const MethodDiagnosticId := "INTL0003"

  /** Legacy NamingFieldPascalUnderscore: enum members and const fields are exempt. */
  function AnalyzeField(f: FieldSymbol): (r: Option<Diagnostic>)
    ensures r.Some? <==>
      !f.containingType.isEnum && !f.isConst
      && !(|f.name| > 1 && f.name[0] == '_' && IsUpper(f.name[1]))
    ensures r.Some? ==> r.value == Diagnostic(FieldDiagnosticId, f.location, [f.name])
  {
    if f.containingType.isEnum then None
    else if StartsWith(f.name, "_") && |f.name| > 1 && IsUpper(f.name[1..][0]) then None
    else if f.isConst then None
    else Some(Diagnostic(FieldDiagnosticId, f.location, [f.name]))
  }

  /** Legacy NamingPropertyPascal: an upper-case first character passes; indexers are exempt. */
  function AnalyzeProperty(p: PropertySymbol): (r: Result<Option<Diagnostic>>)
    ensures r.Failure? <==> p.name == []
    ensures r.Failure? ==> r.error == InvalidOperationException
    ensures r.Success? ==> (r.value.Some? <==> !IsUpper(p.name[0]) && !p.isIndexer)
    ensures r.Success? && r.value.Some? ==> r.value.value == Diagnostic(PropertyDiagnosticId, p.location, [p.name])
  {
    if p.name == [] then Failure(InvalidOperationException)
    else if IsUpper(p.name[0]) then Success(None)
    else if p.isIndexer then Success(None)
    else Success(Some(Diagnostic(PropertyDiagnosticId, p.location, [p.name])))
  }

  /** Legacy NamingMethodPascal.AnalyzeSyntaxNode: a local function, by its first character. */
  function AnalyzeLocalFunction(identifier: string, location: Location): (r: Result<Option<Diagnostic>>)
    ensures r.Failure? <==> identifier == []
    ensures r.Failure? ==> r.error == InvalidOperationException
    ensures r.Success? ==> (r.value.Some? <==> !IsUpper(identifier[0]))
    ensures r.Success? && r.value.Some? ==> r.value.value == Diagnostic(MethodDiagnosticId, location, [identifier])
  {
    if identifier == [] then Failure(InvalidOperationException)
    else if IsUpper(identifier[0]) then Success(None)
    else Success(Some(Diagnostic(MethodDiagnosticId, location, [identifier])))
  }

  /**
    Legacy NamingMethodPascal.AnalyzeSymbol: symbols that cannot be referenced by
    name and members of NativeMethods are skipped before the name is looked at.
   */
  function AnalyzeMethod(m: MethodSymbol): (r: Result<Option<Diagnostic>>)
    ensures r.Failure? <==> m.canBeReferencedByName && !IsNativeMethodsClass(m.containingType) && m.name == []
    ensures r.Failure? ==> r.error == InvalidOperationException
    ensures r.Success? ==> (r.value.Some? <==>
      m.canBeReferencedByName && !IsNativeMethodsClass(m.containingType) && !IsUpper(m.name[0])
      && !HasGeneratedCode(m.attributes) && !HasGeneratedCode(m.containingType.attributes))
    ensures r.Success? && r.value.Some? ==> r.value.value == Diagnostic(MethodDiagnosticId, m.location, [m.name])
  {
    HasGeneratedCodeAppend(m.attributes, m.containingType.attributes);
    if !m.canBeReferencedByName then Success(None)
    else if IsNativeMethodsClass(m.containingType) then Success(None)
    else if m.name == [] then Failure(InvalidOperationException)
    else if IsUpper(m.name[0]) then Success(None)
    else if HasGeneratedCode(m.attributes + m.containingType.attributes) then Success(None)
    else Success(Some(Diagnostic(MethodDiagnosticId, m.location, [m.name])))
  }

  /** Only the character after the underscore is checked: `_My_Field` passes, `MyField` and `_myField` do not. */
  lemma FieldExamples(t: TypeSymbol, loc: Location)
    requires !t.isEnum
    ensures AnalyzeField(NamingAnalyzers.FieldSymbol("_My_Field", false, [], t, loc)).None?
    ensures AnalyzeField(NamingAnalyzers.FieldSymbol("_MyField", false, [], t, loc)).None?
    ensures AnalyzeField(NamingAnalyzers.FieldSymbol("MyField", false, [], t, loc)).Some?
    ensures AnalyzeField(NamingAnalyzers.FieldSymbol("_myField", false, [], t, loc)).Some?
  {
  }

  /** Where the legacy and current field rules part: `_My_Field` is accepted here and reported there. */
  lemma FieldRulesDiffer(t: TypeSymbol, loc: Location)
    requires t.kind == NamedType && t.name == "Program" && !t.isEnum && t.attributes == []
    ensures AnalyzeField(NamingAnalyzers.FieldSymbol("_My_Field", false, [], t, loc)).None?
    ensures NamingAnalyzers.AnalyzeField(NamingAnalyzers.FieldSymbol("_My_Field", false, [], t, loc)).Some?
  {
    assert "_My_Field"[3] == '_';
  }

  /** `myMethod` and `_MyMethod` are each reported once; `MyMethod` is not. */
  lemma MethodExamples(t: TypeSymbol, loc: Location)
    requires t.kind == NamedType && t.name == "Program" && t.attributes == []
    ensures AnalyzeMethod(NamingAnalyzers.MethodSymbol("myMethod", NamingAnalyzers.Ordinary, [], true, [], t, loc))
            == Success(Some(Diagnostic(MethodDiagnosticId, loc, ["myMethod"])))
    ensures AnalyzeMethod(NamingAnalyzers.MethodSymbol("_MyMethod", NamingAnalyzers.Ordinary, [], true, [], t, loc))
            == Success(Some(Diagnostic(MethodDiagnosticId, loc, ["_MyMethod"])))
    ensures AnalyzeMethod(NamingAnalyzers.MethodSymbol("MyMethod", NamingAnalyzers.Ordinary, [], true, [], t, loc)) == Success(None)
  {
  }
}

/**
  The legacy naming code fixes compute the same new names as the current ones.
  The legacy field fix has no null guards; the legacy property fix is
  NamingCodeFixes.MakePascal itself.
 */
module LegacyNamingCodeFixes {
  import opened Wrappers
  import opened Chars
  import opened Strings
  import opened NamingCodeFixes

  /** Legacy NamingFieldPascalUnderscore.MakePascalWithUnderscore: the new name, or the throw of `First()`. */
  function MakePascalWithUnderscore(name: string): (r: Result<string>)
    ensures r.Failure? <==> AllUnderscores(name)
    ensures r.Failure? ==> r.error == InvalidOperationException
    ensures r.Success? ==> exists k | 0 <= k < |name| ::
      (forall j | 0 <= j < k :: name[j] == '_') && name[k] != '_'
      && r.value == ['_', ToUpper(name[k])] + name[k + 1..]
  {
    if AllUnderscores(name) then Failure(InvalidOperationException)
    else Success(PascalWithUnderscore(name))
  }

  /**
    `MyField` and `_myField` become `_MyField`; `myProperty` becomes `MyProperty`.
    The legacy NamingPropertyPascal fix builds the same name as the current one,
    so NamingCodeFixes.MakePascal stands for both.
   */
  lemma LegacyFixExamples()
    ensures MakePascalWithUnderscore("MyField") == Success("_MyField")
    ensures MakePascalWithUnderscore("_myField") == Success("_MyField")
    ensures MakePascal("myProperty") == Success("MyProperty")
  {
    PascalWithUnderscoreAddsUnderscore();
    PascalWithUnderscoreUpperCases();
    PascalNameExamples();
  }
}
