/**
  The current naming code fixes. NamingFieldPascalUnderscore renames a field to
  `_` + an upper-cased first letter + the rest; NamingIdentifierPascal upper-cases
  the first character of a property or method name. The rename itself is Roslyn's;
  the model covers the new-name computation and the guards around it.
 */
module NamingCodeFixes {
  import opened Wrappers
  import opened Chars
  import opened Strings
  import opened Casing
  import opened Symbols
  import opened NamingAnalyzers

  const FieldFixableDiagnosticIds := [FieldDiagnosticId]
  const IdentifierFixableDiagnosticIds := [PropertyDiagnosticId, MethodDiagnosticId]

  /** The index of the first character that is not an underscore. */
  function FirstNonUnderscore(name: string): (k: nat)
    requires !AllUnderscores(name)
    ensures k < |name| && name[k] != '_'
    ensures forall j | 0 <= j < k :: name[j] == '_'
  {
    if name[0] != '_' then 0
    else
      assert !AllUnderscores(name[1..]) by {
        var i :| 0 <= i < |name| && name[i] != '_';
        assert name[1..][i - 1] == name[i];
      }
      1 + FirstNonUnderscore(name[1..])
  }

  /**
    The `_PascalCase` name: strip the leading underscores, upper-case the first
    remaining character, and put one underscore in front. `First()` throws when
    nothing but underscores remains, hence the precondition.
   */
  function PascalWithUnderscore(name: string): (r: string)
    requires !AllUnderscores(name)
    ensures var k := FirstNonUnderscore(name); r == ['_', ToUpper(name[k])] + name[k + 1..]
  {
    var t := TrimStart(name, '_');
    var k := |name| - |t|;
    assert k == FirstNonUnderscore(name) by {
      var f := FirstNonUnderscore(name);
      if k < |name| { assert name[k] == t[0]; }
      assert !(f < k) && !(k < f);
    }
    assert name[k + 1..] == t[1..];
    "_" + [ToUpper(t[0])] + t[1..]
  }

  /** Leading underscores collapse to exactly one, and the name after the first letter is kept. */
  lemma PascalWithUnderscoreShape(name: string, k: nat)
    requires k < |name| && (forall j | 0 <= j < k :: name[j] == '_') && name[k] != '_'
    ensures !AllUnderscores(name)
    ensures PascalWithUnderscore(name) == ['_', ToUpper(name[k])] + name[k + 1..]
    ensures |PascalWithUnderscore(name)| == |name| - k + 1
    ensures PascalWithUnderscore(name)[1] != '_'
  {
    var f := FirstNonUnderscore(name);
    assert !(f < k) && !(k < f);
  }

  /** Renaming an already renamed field changes nothing. */
  lemma PascalWithUnderscoreIdempotent(name: string)
    requires !AllUnderscores(name)
    ensures !AllUnderscores(PascalWithUnderscore(name))
    ensures PascalWithUnderscore(PascalWithUnderscore(name)) == PascalWithUnderscore(name)
  {
    var r := PascalWithUnderscore(name);
    var k := FirstNonUnderscore(name);
    var u, rest := ToUpper(name[k]), name[k + 1..];
    assert r[1] == u && r[2..] == rest;
    assert u != '_';
    PascalWithUnderscoreShape(r, 1);
    ToUpperIdempotent(name[k]);
  }

  /**
    The fix silences the field rule: when the first non-underscore character is a
    letter and everything after it is a letter or digit, the new name is `_PascalCase`.
   */
  lemma PascalWithUnderscoreSilencesRule(f: FieldSymbol, k: nat)
    requires k < |f.name| && (forall j | 0 <= j < k :: f.name[j] == '_')
    requires IsUpper(f.name[k]) || IsLower(f.name[k])
    requires forall j | k < j < |f.name| :: IsLetterOrDigit(f.name[j])
    ensures !AllUnderscores(f.name)
    ensures AnalyzeField(f.(name := PascalWithUnderscore(f.name))) == None
  {
    PascalWithUnderscoreShape(f.name, k);
    var r := PascalWithUnderscore(f.name);
    assert IsUpper(r[1]);
    assert forall i | 1 <= i < |r| :: IsLetterOrDigit(r[i]) by {
      forall i | 1 <= i < |r| ensures IsLetterOrDigit(r[i]) {
        if i > 1 { assert r[i] == f.name[k + i - 1]; }
      }
    }
    assert UnderscorePascal(r);
  }

  /** The examples below: the expected name is read off the first non-underscore position. */
  lemma PascalWithUnderscoreIs(name: string, k: nat, expected: string)
    requires k < |name| && (forall j | 0 <= j < k :: name[j] == '_') && name[k] != '_'
    requires expected == ['_', ToUpper(name[k])] + name[k + 1..]
    ensures !AllUnderscores(name) && PascalWithUnderscore(name) == expected
  {
    PascalWithUnderscoreShape(name, k);
  }

  /** `MyField` becomes `_MyField`. */
  lemma PascalWithUnderscoreAddsUnderscore()
    ensures !AllUnderscores("MyField") && PascalWithUnderscore("MyField") == "_MyField"
  {
    assert "_MyField" == ['_', 'M'] + "MyField"[1..];
    PascalWithUnderscoreIs("MyField", 0, "_MyField");
  }

  /** `_myField` becomes `_MyField`. */
  lemma PascalWithUnderscoreUpperCases()
    ensures !AllUnderscores("_myField") && PascalWithUnderscore("_myField") == "_MyField"
  {
    assert "_MyField" == ['_', 'M'] + "_myField"[2..];
    PascalWithUnderscoreIs("_myField", 1, "_MyField");
  }

  /** `__myField` becomes `_MyField`: the underscores collapse to one. */
  lemma PascalWithUnderscoreCollapses()
    ensures !AllUnderscores("__myField") && PascalWithUnderscore("__myField") == "_MyField"
  {
    assert "_MyField" == ['_', 'M'] + "__myField"[3..];
    PascalWithUnderscoreIs("__myField", 2, "_MyField");
  }

  /** What the field fix does to the solution. */
  datatype FixOutcome = Unchanged | Renamed(newName: string)

  /**
    NamingFieldPascalUnderscore.MakePascalWithUnderscore. The new name is computed
    first, so a name of underscores only throws before any guard; then a missing
    semantic model, token parent or declared symbol leaves the solution unchanged.
   */
  function MakePascalWithUnderscore(name: string, hasSemanticModel: bool, hasParent: bool, hasDeclaredSymbol: bool): (r: Result<FixOutcome>)
    ensures r.Failure? <==> AllUnderscores(name)
    ensures r.Failure? ==> r.error == InvalidOperationException
    ensures r.Success? ==> (r.value.Renamed? <==> hasSemanticModel && hasParent && hasDeclaredSymbol)
    ensures r.Success? && r.value.Renamed? ==> r.value.newName == PascalWithUnderscore(name)
  {
    if AllUnderscores(name) then Failure(InvalidOperationException)
    else
      var newName := PascalWithUnderscore(name);
      if !hasSemanticModel || !hasParent then Success(Unchanged)
      else if !hasDeclaredSymbol then Success(Unchanged)
      else Success(Renamed(newName))
  }

  /** The PascalCase name: the first character upper-cased, the rest kept. */
  function PascalName(name: string): (r: string)
    requires name != []
    ensures |r| == |name|
    ensures r[0] == ToUpper(name[0]) && IsUpper(r[0]) == (IsUpper(name[0]) || IsLower(name[0]))
    ensures forall i | 1 <= i < |name| :: r[i] == name[i]
  {
    [ToUpper(name[0])] + name[1..]
  }

  /** A name that already starts upper-case, such as `My_Method`, is left as it is. */
  lemma PascalNameKeepsUpper(name: string)
    requires name != [] && !IsLower(name[0])
    ensures PascalName(name) == name
  {
    assert PascalName(name) == [name[0]] + name[1..];
  }

  lemma PascalNameIdempotent(name: string)
    requires name != []
    ensures PascalName(PascalName(name)) == PascalName(name)
  {
    PascalNameKeepsUpper(PascalName(name));
  }

  /** The fix silences the PascalCase rules when the rest of the name is letters and digits. */
  lemma PascalNameSilencesRules(name: string)
    requires name != [] && (IsUpper(name[0]) || IsLower(name[0]))
    requires forall i | 1 <= i < |name| :: IsLetterOrDigit(name[i])
    ensures PascalCase(PascalName(name))
  {
  }

  /** NamingIdentifierPascal.MakePascal: `First()` throws on an empty name. */
  function MakePascal(name: string): (r: Result<string>)
    ensures r.Failure? <==> name == []
    ensures r.Failure? ==> r.error == InvalidOperationException
    ensures r.Success? ==> |r.value| == |name| && r.value[1..] == name[1..] && r.value[0] == ToUpper(name[0])
    ensures r.Success? && !IsLower(name[0]) ==> r.value == name
  {
    if name == [] then Failure(InvalidOperationException)
    else
      assert !IsLower(name[0]) ==> PascalName(name) == name by {
        if !IsLower(name[0]) { PascalNameKeepsUpper(name); }
      }
      Success(PascalName(name))
  }

  /** `myMethod`, `getEmpty`, `localFunction` and `myProperty` get their first letter upper-cased. */
  lemma PascalNameExamples()
    ensures PascalName("myMethod") == "MyMethod"
    ensures PascalName("getEmpty") == "GetEmpty"
    ensures PascalName("localFunction") == "LocalFunction"
    ensures PascalName("myProperty") == "MyProperty"
  {
  }

  /** Every diagnostic of the naming rules is fixable by the matching code fix. */
  lemma FixesCoverNamingRules(f: FieldSymbol, p: PropertySymbol, m: MethodSymbol, identifier: string, loc: Location)
    ensures AnalyzeField(f).Some? ==> AnalyzeField(f).value.id in FieldFixableDiagnosticIds
    ensures AnalyzeProperty(p).Some? ==> AnalyzeProperty(p).value.id in IdentifierFixableDiagnosticIds
    ensures AnalyzeMethod(m).Success? && AnalyzeMethod(m).value.Some? ==> AnalyzeMethod(m).value.value.id in IdentifierFixableDiagnosticIds
    ensures AnalyzeLocalFunction(identifier, loc).Some? ==> AnalyzeLocalFunction(identifier, loc).value.id in IdentifierFixableDiagnosticIds
  {
  }
}
