/**
  The current UnusedLocalVariable analyzer (INTL0303). For a method with a block
  body, Roslyn's data-flow analysis gives the variables the body declares and those
  read inside or outside it; every declared variable that is never read is reported,
  unless its name is made of underscores only.
 */
module UnusedLocalVariable {
  import opened Wrappers
  import opened Strings
  import opened Symbols
  import opened Linq

  const DiagnosticId := "INTL0303"

  /**
    A local variable. Roslyn compares symbols by identity, not by name; `id` stands
    for that identity, so two locals called `x` in different scopes stay apart.
    `location` is `Locations.First()`: a local always has exactly one.
   */
  datatype LocalSymbol = LocalSymbol(id: nat, name: string, location: Location)

  /** The three results of AnalyzeDataFlow the rule reads. */
  datatype DataFlow = DataFlow(
    variablesDeclared: seq<LocalSymbol>,
    readInside: seq<LocalSymbol>,
    readOutside: seq<LocalSymbol>)

  predicate IsRead(flow: DataFlow, v: LocalSymbol)
  {
    v in flow.readInside || v in flow.readOutside
  }

  /** The Where filter: a name made only of underscores marks a deliberately unused variable. */
  predicate Named(v: LocalSymbol)
  {
    !AllUnderscores(v.name)
  }

  /** VariablesDeclared.Except(ReadInside.Union(ReadOutside)).Where(name is not all underscores). */
  function UnusedVariables(flow: DataFlow): (r: seq<LocalSymbol>)
    ensures forall v :: v in r <==>
      v in flow.variablesDeclared && !IsRead(flow, v) && !AllUnderscores(v.name)
  {
    Where(Except(flow.variablesDeclared, flow.readInside + flow.readOutside), Named)
  }

  /** Each unused variable is listed once, in the order the body declares them. */
  lemma UnusedInDeclarationOrder(flow: DataFlow)
    ensures NoDuplicates(UnusedVariables(flow))
    ensures OrderedBy(UnusedVariables(flow), flow.variablesDeclared)
  {
    var read := flow.readInside + flow.readOutside;
    ExceptFromKeepsOrder(flow.variablesDeclared, Elements(read));
    WhereKeepsOrder(Except(flow.variablesDeclared, read), Named, flow.variablesDeclared);
  }

  /** The diagnostic for one variable: at its location, with its name as the message argument. */
  function Report(v: LocalSymbol): Diagnostic
  {
    Diagnostic(DiagnosticId, v.location, [v.name])
  }

  /**
    AnalyzeMethod. `body` is None for a method without a block body (abstract,
    extern, or expression-bodied), which the rule skips.
   */
  function AnalyzeMethod(body: Option<DataFlow>): (r: seq<Diagnostic>)
    ensures body.None? ==> r == []
    ensures body.Some? ==> |r| == |UnusedVariables(body.value)|
    ensures body.Some? ==> forall i | 0 <= i < |r| :: r[i] == Report(UnusedVariables(body.value)[i])
    ensures body.Some? ==> forall d :: d in r <==>
      exists v | v in body.value.variablesDeclared :: !IsRead(body.value, v) && !AllUnderscores(v.name) && d == Report(v)
  {
    match body
    case None => []
    case Some(flow) =>
      var unused := UnusedVariables(flow);
      var r := seq(|unused|, i requires 0 <= i < |unused| => Report(unused[i]));
      assert forall d :: d in r <==> exists v | v in unused :: d == Report(v) by {
        forall d | d in r ensures exists v | v in unused :: d == Report(v) {
          var i :| 0 <= i < |r| && r[i] == d;
          assert unused[i] in unused;
        }
        forall d | exists v | v in unused :: d == Report(v) ensures d in r {
          var v :| v in unused && d == Report(v);
          var i :| 0 <= i < |unused| && unused[i] == v;
          assert r[i] == d;
        }
      }
      r
  }

  /** `_` and `__` (lambda parameters named as discards) are not reported; an unread `foo` is, once, by name. */
  lemma UnderscoreExamples(loc: Location)
    ensures AnalyzeMethod(Some(DataFlow([LocalSymbol(0, "_", loc)], [], []))) == []
    ensures AnalyzeMethod(Some(DataFlow([LocalSymbol(0, "__", loc)], [], []))) == []
    ensures AnalyzeMethod(Some(DataFlow([LocalSymbol(0, "foo", loc)], [], []))) == [Diagnostic(DiagnosticId, loc, ["foo"])]
  {
    var foo := LocalSymbol(0, "foo", loc);
    assert !AllUnderscores("foo") by { assert "foo"[0] != '_'; }
    var u := UnusedVariables(DataFlow([foo], [], []));
    assert foo in u;
    assert forall w | w in u :: w == foo;
    assert u == [foo];
  }
}

/**
  The legacy UnusedLocalVariable analyzer (also INTL0303): the same difference with
  no underscore exemption, and a diagnostic without a message argument. It passes
  the body to data-flow analysis without checking that there is one.
 */
module LegacyUnusedLocalVariable {
  import opened Wrappers
  import opened Strings
  import opened Symbols
  import opened Linq
  import UnusedLocalVariable

  type LocalSymbol = UnusedLocalVariable.LocalSymbol
  type DataFlow = UnusedLocalVariable.DataFlow

  const DiagnosticId := "INTL0303"

  /** VariablesDeclared.Except(ReadInside.Union(ReadOutside)). */
  function UnusedVariables(flow: DataFlow): (r: seq<LocalSymbol>)
    ensures forall v :: v in r <==> v in flow.variablesDeclared && !UnusedLocalVariable.IsRead(flow, v)
    ensures NoDuplicates(r)
  {
    Except(flow.variablesDeclared, flow.readInside + flow.readOutside)
  }

  lemma UnusedInDeclarationOrder(flow: DataFlow)
    ensures OrderedBy(UnusedVariables(flow), flow.variablesDeclared)
  {
    ExceptFromKeepsOrder(flow.variablesDeclared, Elements(flow.readInside + flow.readOutside));
  }

  /** AnalyzeMethod: one argument-less diagnostic per unused variable, in order. */
  function AnalyzeMethod(flow: DataFlow): (r: seq<Diagnostic>)
    ensures |r| == |UnusedVariables(flow)|
    ensures forall i | 0 <= i < |r| :: r[i].id == DiagnosticId && r[i].arguments == []
    ensures forall i | 0 <= i < |r| :: r[i].location == UnusedVariables(flow)[i].location
  {
    var unused := UnusedVariables(flow);
    seq(|unused|, i requires 0 <= i < |unused| => Diagnostic(DiagnosticId, unused[i].location, []))
  }

  /** The legacy rule reports what the current one exempts: an unread `_` is reported. */
  lemma DiscardReported(loc: Location)
    ensures |AnalyzeMethod(UnusedLocalVariable.DataFlow([UnusedLocalVariable.LocalSymbol(0, "_", loc)], [], []))| == 1
    ensures UnusedLocalVariable.AnalyzeMethod(Some(UnusedLocalVariable.DataFlow([UnusedLocalVariable.LocalSymbol(0, "_", loc)], [], []))) == []
  {
    var v := UnusedLocalVariable.LocalSymbol(0, "_", loc);
    var u := UnusedVariables(UnusedLocalVariable.DataFlow([v], [], []));
    assert v in u;
    assert forall w | w in u :: w == v;
  }

  /** Both rules report a variable exactly when it is unread, apart from the underscore exemption. */
  lemma SameRuleWithoutDiscards(flow: DataFlow)
    requires forall i | 0 <= i < |flow.variablesDeclared| :: !AllUnderscores(flow.variablesDeclared[i].name)
    ensures UnusedVariables(flow) == UnusedLocalVariable.UnusedVariables(flow)
  {
    WhereAll(UnusedVariables(flow), UnusedLocalVariable.Named);
  }
}
