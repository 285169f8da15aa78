/**
  The closed form of the attributes-on-separate-lines scan. The analyzers walk a
  symbol's attributes in order and report an attribute when an earlier attribute
  starts on the same line; the current rule also reports an attribute that starts
  on the declaration's own line. `declLine` is None for the legacy rule.
 */
module AttributeScan {
  import opened Wrappers
  import opened Symbols

  function Line(a: AttributeData): int { a.location.line }

  /** The lines that never count as an attribute line of their own. */
  function DeclLines(declLine: Option<int>): set<int>
  {
    if declLine.Some? then {declLine.value} else {}
  }

  /** Attribute `i` shares its line with the declaration or with an earlier attribute. */
  predicate Offending(attrs: seq<AttributeData>, declLine: Option<int>, i: nat)
    requires i < |attrs|
  {
    Line(attrs[i]) in DeclLines(declLine)
    || exists j | 0 <= j < i :: Line(attrs[j]) == Line(attrs[i])
  }

  /** Every attribute that the scan reports has a resolved class, whose name is the message argument. */
  predicate ReportedClassesResolve(attrs: seq<AttributeData>, declLine: Option<int>)
  {
    forall i | 0 <= i < |attrs| :: Offending(attrs, declLine, i) ==> attrs[i].className.Some?
  }

  /** The lines of the first `n` attributes. */
  function LinesUpTo(attrs: seq<AttributeData>, n: nat): set<int>
    requires n <= |attrs|
  {
    if n == 0 then {} else LinesUpTo(attrs, n - 1) + {Line(attrs[n - 1])}
  }

  lemma {:induction false} LinesUpToMembership(attrs: seq<AttributeData>, n: nat, l: int)
    requires n <= |attrs|
    ensures l in LinesUpTo(attrs, n) <==> exists j | 0 <= j < n :: Line(attrs[j]) == l
  {
    if n > 0 {
      LinesUpToMembership(attrs, n - 1, l);
      if Line(attrs[n - 1]) == l {
        assert exists j | 0 <= j < n :: Line(attrs[j]) == l;
      }
    }
  }

  /** Attribute `i` is offending exactly when its line is the declaration's or an earlier attribute's. */
  lemma OffendingByLines(attrs: seq<AttributeData>, declLine: Option<int>, i: nat)
    requires i < |attrs|
    ensures Offending(attrs, declLine, i)
        <==> Line(attrs[i]) in DeclLines(declLine) || Line(attrs[i]) in LinesUpTo(attrs, i)
  {
    LinesUpToMembership(attrs, i, Line(attrs[i]));
  }

  /** The diagnostic for one offending attribute: at its own span, naming its class. */
  function Report(id: string, a: AttributeData): Diagnostic
    requires a.className.Some?
  {
    Diagnostic(id, a.location, [a.className.value])
  }

  /** The reports for the first `n` attributes, in attribute order. */
  function ReportsUpTo(id: string, attrs: seq<AttributeData>, declLine: Option<int>, n: nat): (r: seq<Diagnostic>)
    requires n <= |attrs| && ReportedClassesResolve(attrs, declLine)
    ensures |r| <= n
  {
    if n == 0 then []
    else
      ReportsUpTo(id, attrs, declLine, n - 1)
      + (if Offending(attrs, declLine, n - 1) then [Report(id, attrs[n - 1])] else [])
  }

  function Reports(id: string, attrs: seq<AttributeData>, declLine: Option<int>): seq<Diagnostic>
    requires ReportedClassesResolve(attrs, declLine)
  {
    ReportsUpTo(id, attrs, declLine, |attrs|)
  }

  /** Every offending attribute is reported, and every report is of an offending attribute. */
  lemma {:induction false} ReportsMembership(id: string, attrs: seq<AttributeData>, declLine: Option<int>, n: nat)
    requires n <= |attrs| && ReportedClassesResolve(attrs, declLine)
    ensures forall i | 0 <= i < n :: Offending(attrs, declLine, i) ==> Report(id, attrs[i]) in ReportsUpTo(id, attrs, declLine, n)
    ensures forall d | d in ReportsUpTo(id, attrs, declLine, n) ::
      exists i | 0 <= i < n :: Offending(attrs, declLine, i) && d == Report(id, attrs[i])
  {
    if n > 0 {
      ReportsMembership(id, attrs, declLine, n - 1);
    }
  }

  /**
    The number of reports is the number of attributes minus the number of distinct
    attribute lines other than the declaration line.
   */
  lemma {:induction false} ReportCount(id: string, attrs: seq<AttributeData>, declLine: Option<int>, n: nat)
    requires n <= |attrs| && ReportedClassesResolve(attrs, declLine)
    ensures |ReportsUpTo(id, attrs, declLine, n)| == n - |LinesUpTo(attrs, n) - DeclLines(declLine)|
  {
    if n > 0 {
      var before := LinesUpTo(attrs, n - 1) - DeclLines(declLine);
      var after := LinesUpTo(attrs, n) - DeclLines(declLine);
      var r0, r1 := ReportsUpTo(id, attrs, declLine, n - 1), ReportsUpTo(id, attrs, declLine, n);
      ReportCount(id, attrs, declLine, n - 1);
      assert |r0| == n - 1 - |before|;
      LinesStep(attrs, declLine, n);
      if Offending(attrs, declLine, n - 1) {
        assert |r1| == |r0| + 1 && |after| == |before|;
      } else {
        assert |r1| == |r0| && |after| == |before| + 1;
      }
      CountStep(|r0|, |r1|, |before|, |after|, n);
    } else {
      assert LinesUpTo(attrs, 0) - DeclLines(declLine) == {};
    }
  }

  /** One step of the count: a report and no new line, or a new line and no report. */
  lemma CountStep(r0: int, r1: int, before: int, after: int, n: int)
    requires r0 == n - 1 - before
    requires (r1 == r0 + 1 && after == before) || (r1 == r0 && after == before + 1)
    ensures r1 == n - after
  {
  }

  /** Scanning one more attribute adds a new line exactly when the attribute is not offending. */
  lemma LinesStep(attrs: seq<AttributeData>, declLine: Option<int>, n: nat)
    requires 0 < n <= |attrs|
    ensures Offending(attrs, declLine, n - 1) ==>
      LinesUpTo(attrs, n) - DeclLines(declLine) == LinesUpTo(attrs, n - 1) - DeclLines(declLine)
    ensures !Offending(attrs, declLine, n - 1) ==>
      Line(attrs[n - 1]) !in LinesUpTo(attrs, n - 1) - DeclLines(declLine)
      && LinesUpTo(attrs, n) - DeclLines(declLine)
         == (LinesUpTo(attrs, n - 1) - DeclLines(declLine)) + {Line(attrs[n - 1])}
  {
    OffendingByLines(attrs, declLine, n - 1);
  }

  /** No attributes, no reports. */
  lemma NoAttributesNoReports(id: string, declLine: Option<int>)
    ensures ReportedClassesResolve([], declLine) && Reports(id, [], declLine) == []
  {
  }

  /** Attributes all on lines of their own, away from the declaration, give no reports. */
  lemma {:induction false} SeparateLinesNoReports(id: string, attrs: seq<AttributeData>, declLine: Option<int>, n: nat)
    requires n <= |attrs|
    requires forall i, j | 0 <= i < j < |attrs| :: Line(attrs[i]) != Line(attrs[j])
    requires forall i | 0 <= i < |attrs| :: Line(attrs[i]) !in DeclLines(declLine)
    ensures ReportedClassesResolve(attrs, declLine)
    ensures ReportsUpTo(id, attrs, declLine, n) == []
  {
    forall i | 0 <= i < |attrs| ensures !Offending(attrs, declLine, i) {
      OffendingByLines(attrs, declLine, i);
      LinesUpToMembership(attrs, i, Line(attrs[i]));
    }
    if n > 0 { SeparateLinesNoReports(id, attrs, declLine, n - 1); }
  }
}

/** The current AttributesOnSeparateLines analyzer (INTL0101). */
module AttributesOnSeparateLines {
  import opened Wrappers
  import opened Symbols
  import opened AttributeScan

  const DiagnosticId := "INTL0101"

  /**
    AnalyzeSymbol: the scan with a line dictionary. An attribute is reported when its
    line is already in the dictionary or is the declaration's line; otherwise its line
    is added, which never meets a duplicate key.
   */
  method AnalyzeSymbol(attributes: seq<AttributeData>, symbolLine: int)
    returns (reports: seq<Diagnostic>, lineDict: map<int, AttributeData>)
    requires ReportedClassesResolve(attributes, Some(symbolLine))
    ensures reports == Reports(DiagnosticId, attributes, Some(symbolLine))
    ensures lineDict.Keys == LinesUpTo(attributes, |attributes|) - {symbolLine}
    ensures forall l | l in lineDict :: lineDict[l] in attributes && Line(lineDict[l]) == l
  {
    reports := [];
    lineDict := map[];
    if |attributes| > 0 {
      var i := 0;
      while i < |attributes|
        invariant 0 <= i <= |attributes|
        invariant reports == ReportsUpTo(DiagnosticId, attributes, Some(symbolLine), i)
        invariant lineDict.Keys == LinesUpTo(attributes, i) - {symbolLine}
        invariant forall l | l in lineDict :: lineDict[l] in attributes && Line(lineDict[l]) == l
      {
        var attribute := attributes[i];
        var attributeLineNo := attribute.location.line;
        OffendingByLines(attributes, Some(symbolLine), i);
        if attributeLineNo in lineDict || attributeLineNo == symbolLine {
          assert Offending(attributes, Some(symbolLine), i);
          reports := reports + [Diagnostic(DiagnosticId, attribute.location, [attribute.className.value])];
        } else {
          assert !Offending(attributes, Some(symbolLine), i);
          lineDict := lineDict[attributeLineNo := attribute];
        }
        i := i + 1;
      }
    }
  }

  /** The number of reports is |attributes| minus the distinct attribute lines off the declaration line. */
  lemma ReportCount(attributes: seq<AttributeData>, symbolLine: int)
    requires ReportedClassesResolve(attributes, Some(symbolLine))
    ensures |Reports(DiagnosticId, attributes, Some(symbolLine))|
         == |attributes| - |LinesUpTo(attributes, |attributes|) - {symbolLine}|
  {
    AttributeScan.ReportCount(DiagnosticId, attributes, Some(symbolLine), |attributes|);
  }

  /** `[A][B]` on the line above the declaration: one report, at B. */
  lemma TwoOnOneLine(a: AttributeData, b: AttributeData, symbolLine: int)
    requires a.className == Some("A") && b.className == Some("B")
    requires Line(a) == Line(b) == symbolLine - 1
    ensures ReportedClassesResolve([a, b], Some(symbolLine))
    ensures Reports(DiagnosticId, [a, b], Some(symbolLine)) == [Diagnostic(DiagnosticId, b.location, ["B"])]
  {
    assert !Offending([a, b], Some(symbolLine), 0);
    assert Offending([a, b], Some(symbolLine), 1);
    assert ReportsUpTo(DiagnosticId, [a, b], Some(symbolLine), 1) == [];
  }

  /** `[A] static void Main`: an attribute on the declaration's line is reported. */
  lemma OnDeclarationLine(a: AttributeData, symbolLine: int)
    requires a.className == Some("A") && Line(a) == symbolLine
    ensures ReportedClassesResolve([a], Some(symbolLine))
    ensures Reports(DiagnosticId, [a], Some(symbolLine)) == [Diagnostic(DiagnosticId, a.location, ["A"])]
  {
    assert Offending([a], Some(symbolLine), 0);
  }
}

/** The legacy AttributesOnSeparateLines analyzer: the same scan without the declaration line. */
module LegacyAttributesOnSeparateLines {
  import opened Wrappers
  import opened Symbols
  import opened AttributeScan
  import LegacyNamingAnalyzers
  import NamingAnalyzers
  import AttributesOnSeparateLines

  /** The id the analyzer declares: the legacy NamingMethodPascal rule's id. */
  const DiagnosticIdAsWritten := "INTL0003"

  /** The id the rule's own tests expect, which is also the current rule's id; AnalyzeSymbolIntended reports under it. */
  const DiagnosticId := "INTL0101"

  /**
    As written, a report of `[A][B]` and a report of the method name `myMethod` carry
    the same id, so nothing keyed on the id (the code fix's FixableDiagnosticIds, a
    suppression) can tell the two rules apart.
   */
  lemma AsWrittenClashesWithMethodRule(a: AttributeData, b: AttributeData, t: TypeSymbol, loc: Location)
    requires a.className == Some("A") && b.className == Some("B") && Line(a) == Line(b)
    requires t.kind == NamedType && t.name == "Program" && t.attributes == []
    ensures ReportedClassesResolve([a, b], None)
    ensures |Reports(DiagnosticIdAsWritten, [a, b], None)| == 1
    ensures LegacyNamingAnalyzers.AnalyzeMethod(NamingAnalyzers.MethodSymbol("myMethod", NamingAnalyzers.Ordinary, [], true, [], t, loc)).value.Some?
    ensures Reports(DiagnosticIdAsWritten, [a, b], None)[0].id
         == LegacyNamingAnalyzers.AnalyzeMethod(NamingAnalyzers.MethodSymbol("myMethod", NamingAnalyzers.Ordinary, [], true, [], t, loc)).value.value.id
  {
    assert !Offending([a, b], None, 0);
    assert Offending([a, b], None, 1);
    assert ReportsUpTo(DiagnosticIdAsWritten, [a, b], None, 1) == [];
  }

  /** With the intended id every report of this rule is told apart from the legacy naming rules' reports and matches the current rule. */
  lemma IdDistinctFromNamingRules(attributes: seq<AttributeData>, d: Diagnostic)
    requires ReportedClassesResolve(attributes, None)
    requires d in Reports(DiagnosticId, attributes, None)
    ensures d.id == AttributesOnSeparateLines.DiagnosticId
    ensures d.id !in {LegacyNamingAnalyzers.FieldDiagnosticId, LegacyNamingAnalyzers.PropertyDiagnosticId, LegacyNamingAnalyzers.MethodDiagnosticId}
  {
    ReportsMembership(DiagnosticId, attributes, None, |attributes|);
  }

  /** The analyzer's loop, reporting under `id`. */
  method Scan(id: string, attributes: seq<AttributeData>)
    returns (reports: seq<Diagnostic>, lineDict: map<int, AttributeData>)
    requires ReportedClassesResolve(attributes, None)
    ensures reports == Reports(id, attributes, None)
    ensures lineDict.Keys == LinesUpTo(attributes, |attributes|)
    ensures forall l | l in lineDict :: lineDict[l] in attributes && Line(lineDict[l]) == l
  {
    reports := [];
    lineDict := map[];
    if |attributes| > 0 {
      var i := 0;
      while i < |attributes|
        invariant 0 <= i <= |attributes|
        invariant reports == ReportsUpTo(id, attributes, None, i)
        invariant lineDict.Keys == LinesUpTo(attributes, i)
        invariant forall l | l in lineDict :: lineDict[l] in attributes && Line(lineDict[l]) == l
      {
        var attribute := attributes[i];
        var lineNo := attribute.location.line;
        OffendingByLines(attributes, None, i);
        if lineNo in lineDict {
          assert Offending(attributes, None, i);
          reports := reports + [Diagnostic(id, attribute.location, [attribute.className.value])];
        } else {
          assert !Offending(attributes, None, i);
          lineDict := lineDict[lineNo := attribute];
        }
        i := i + 1;
      }
    }
  }

  /** AnalyzeSymbol as written: the reports carry the declared id INTL0003. */
  method AnalyzeSymbol(attributes: seq<AttributeData>)
    returns (reports: seq<Diagnostic>, lineDict: map<int, AttributeData>)
    requires ReportedClassesResolve(attributes, None)
    ensures reports == Reports(DiagnosticIdAsWritten, attributes, None)
    ensures forall d | d in reports :: d.id == LegacyNamingAnalyzers.MethodDiagnosticId
    ensures lineDict.Keys == LinesUpTo(attributes, |attributes|)
    ensures forall l | l in lineDict :: lineDict[l] in attributes && Line(lineDict[l]) == l
  {
    reports, lineDict := Scan(DiagnosticIdAsWritten, attributes);
    forall d | d in reports ensures d.id == LegacyNamingAnalyzers.MethodDiagnosticId {
      ReportsMembership(DiagnosticIdAsWritten, attributes, None, |attributes|);
    }
  }

  /** AnalyzeSymbol with the intended id: the same reports under the current rule's id. */
  method AnalyzeSymbolIntended(attributes: seq<AttributeData>)
    returns (reports: seq<Diagnostic>, lineDict: map<int, AttributeData>)
    requires ReportedClassesResolve(attributes, None)
    ensures reports == Reports(DiagnosticId, attributes, None)
    ensures forall d | d in reports :: d.id == AttributesOnSeparateLines.DiagnosticId
    ensures lineDict.Keys == LinesUpTo(attributes, |attributes|)
    ensures forall l | l in lineDict :: lineDict[l] in attributes && Line(lineDict[l]) == l
  {
    reports, lineDict := Scan(DiagnosticId, attributes);
    forall d | d in reports ensures d.id == AttributesOnSeparateLines.DiagnosticId {
      IdDistinctFromNamingRules(attributes, d);
    }
  }

  /** The number of reports is |attributes| minus the number of distinct attribute lines. */
  lemma ReportCount(attributes: seq<AttributeData>)
    requires ReportedClassesResolve(attributes, None)
    ensures |Reports(DiagnosticIdAsWritten, attributes, None)| == |attributes| - |LinesUpTo(attributes, |attributes|)|
  {
    AttributeScan.ReportCount(DiagnosticIdAsWritten, attributes, None, |attributes|);
    assert LinesUpTo(attributes, |attributes|) - DeclLines(None) == LinesUpTo(attributes, |attributes|);
  }

  /** The first attribute on each line is never reported. */
  lemma FirstOnLineNotReported(attributes: seq<AttributeData>, i: nat)
    requires i < |attributes|
    requires forall j | 0 <= j < i :: Line(attributes[j]) != Line(attributes[i])
    ensures !Offending(attributes, None, i)
  {
  }

  /** `[A][B]`: one report, at B. Unlike the current rule, the declaration line does not matter. */
  lemma TwoOnOneLine(a: AttributeData, b: AttributeData)
    requires a.className == Some("A") && b.className == Some("B") && Line(a) == Line(b)
    ensures ReportedClassesResolve([a, b], None)
    ensures Reports(DiagnosticIdAsWritten, [a, b], None) == [Diagnostic(DiagnosticIdAsWritten, b.location, ["B"])]
  {
    assert !Offending([a, b], None, 0);
    assert Offending([a, b], None, 1);
    assert ReportsUpTo(DiagnosticIdAsWritten, [a, b], None, 1) == [];
  }
}
