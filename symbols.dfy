/**
  The parts of a Roslyn symbol that the analyzers consult, as plain values, and the
  diagnostics they report. Roslyn computes these (names, flags, attribute classes,
  locations); here they are inputs.
 */
module Symbols {
  import opened Wrappers

  /** Roslyn's SymbolKind, restricted to the kinds the analyzers meet. */
  datatype SymbolKind = NamedType | Field | Property | Method | Local | Parameter | Namespace | Event

  /** A source position: the start line and column of a location. */
  datatype Location = Location(line: int, column: int)

  /**
    An attribute applied to a symbol: the name of its attribute class (None when the
    class does not resolve, so `AttributeClass?.Name` is null) and where it starts.
   */
  datatype AttributeData = AttributeData(className: Option<string>, location: Location)

  /** A containing type: its kind, its name, whether it is an enum, and its attributes. */
  datatype TypeSymbol = TypeSymbol(kind: SymbolKind, name: string, isEnum: bool, attributes: seq<AttributeData>)

  /** A reported diagnostic: rule id, location and message arguments. */
  datatype Diagnostic = Diagnostic(id: string, location: Location, arguments: seq<string>)

  const GeneratedCodeAttributeName := "GeneratedCodeAttribute"

  /** Some attribute's class is named GeneratedCodeAttribute. */
  predicate HasGeneratedCode(attributes: seq<AttributeData>)
  {
    exists i | 0 <= i < |attributes| :: attributes[i].className == Some(GeneratedCodeAttributeName)
  }

  /** Attributes on a member and on its containing type are consulted together. */
  lemma HasGeneratedCodeAppend(a: seq<AttributeData>, b: seq<AttributeData>)
    ensures HasGeneratedCode(a + b) <==> HasGeneratedCode(a) || HasGeneratedCode(b)
  {
    if HasGeneratedCode(a + b) {
      var i :| 0 <= i < |a + b| && (a + b)[i].className == Some(GeneratedCodeAttributeName);
      if i >= |a| { assert b[i - |a|] == (a + b)[i]; }
    }
    if HasGeneratedCode(b) {
      var i :| 0 <= i < |b| && b[i].className == Some(GeneratedCodeAttributeName);
      assert (a + b)[|a| + i] == b[i];
    }
    if HasGeneratedCode(a) {
      var i :| 0 <= i < |a| && a[i].className == Some(GeneratedCodeAttributeName);
      assert (a + b)[i] == a[i];
    }
  }
}

/** SymbolMixins.IsNativeMethodsClass: a named type called exactly NativeMethods. */
module SymbolMixins {
  import opened Symbols

  predicate IsNativeMethodsClass(t: TypeSymbol)
  {
    t.kind == NamedType && t.name == "NativeMethods"
  }

  /** The comparison is ordinal: any other name, `nativemethods` or `NATIVEMETHODS` included, does not match. */
  lemma NativeMethodsIsCaseSensitive(t: TypeSymbol)
    requires t.name != "NativeMethods"
    ensures !IsNativeMethodsClass(t)
  {
  }

  /** A symbol that is not a named type never qualifies, whatever its name. */
  lemma NativeMethodsNeedsNamedType(t: TypeSymbol)
    requires t.kind != NamedType
    ensures !IsNativeMethodsClass(t)
  {
  }
}
