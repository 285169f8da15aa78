/**
  The test helper's expected-diagnostic values. A DiagnosticResultLocation checks
  its line and column when built; a DiagnosticResult holds its locations, which the
  getter defaults to an empty array on first read, and derives Path, Line and
  Column from the first location.
 */
module DiagnosticResults {
  import opened Wrappers

  datatype DiagnosticResultLocation = DiagnosticResultLocation(path: string, line: int, column: int)

  /** The DiagnosticResultLocation constructor: -1 means "unknown" and is allowed; less is not. */
  function NewLocation(path: string, line: int, column: int): (r: Result<DiagnosticResultLocation>)
    ensures r.Success? <==> line >= -1 && column >= -1
    ensures r.Failure? ==> r.error == ArgumentOutOfRangeException(if line < -1 then "line" else "column")
    ensures r.Success? ==> r.value.path == path && r.value.line == line && r.value.column == column
  {
    if line < -1 then Failure(ArgumentOutOfRangeException("line"))
    else if column < -1 then Failure(ArgumentOutOfRangeException("column"))
    else Success(DiagnosticResultLocation(path, line, column))
  }

  /** `new DiagnosticResultLocation("Test0.cs", 15, 20)` keeps its arguments; a line of -2 is refused. */
  lemma NewLocationExamples()
    ensures NewLocation("Test0.cs", 15, 20) == Success(DiagnosticResultLocation("Test0.cs", 15, 20))
    ensures NewLocation("Test0.cs", -1, -1).Success?
    ensures NewLocation("Test0.cs", -2, -5) == Failure(ArgumentOutOfRangeException("line"))
    ensures NewLocation("Test0.cs", 0, -2) == Failure(ArgumentOutOfRangeException("column"))
  {
  }

  /** What the Path, Line and Column properties read from a list of locations. */
  function FirstPath(locations: seq<DiagnosticResultLocation>): (r: string)
    ensures |locations| > 0 ==> r == locations[0].path
    ensures |locations| == 0 ==> r == ""
  {
    if |locations| > 0 then locations[0].path else ""
  }

  function FirstLine(locations: seq<DiagnosticResultLocation>): (r: int)
    ensures |locations| > 0 ==> r == locations[0].line
    ensures |locations| == 0 ==> r == -1
  {
    if |locations| > 0 then locations[0].line else -1
  }

  function FirstColumn(locations: seq<DiagnosticResultLocation>): (r: int)
    ensures |locations| > 0 ==> r == locations[0].column
    ensures |locations| == 0 ==> r == -1
  {
    if |locations| > 0 then locations[0].column else -1
  }

  /** Locations built by the constructor never give a line or column below -1. */
  lemma FirstLineAndColumnInRange(path: string, line: int, column: int, rest: seq<DiagnosticResultLocation>)
    requires NewLocation(path, line, column).Success?
    ensures FirstLine([NewLocation(path, line, column).value] + rest) >= -1
    ensures FirstColumn([NewLocation(path, line, column).value] + rest) >= -1
    ensures FirstPath([NewLocation(path, line, column).value] + rest) == path
  {
  }

  /** A DiagnosticResult; `locations` is the backing field `_Locations`, None while it is null. */
  class DiagnosticResult {
    var locations: Option<seq<DiagnosticResultLocation>>

    /** A fresh result starts with a null backing field. */
    constructor ()
      ensures locations == None
    {
      locations := None;
    }

    /** The locations the getter would return, without initialising anything. */
    function View(): seq<DiagnosticResultLocation>
      reads this
    {
      if locations.Some? then locations.value else []
    }

    /** The Locations getter: `_Locations ??= Array.Empty(); return _Locations;`. */
    method GetLocations() returns (r: seq<DiagnosticResultLocation>)
      modifies this
      ensures old(locations).Some? ==> r == old(locations).value
      ensures old(locations).None? ==> r == []
      ensures locations == Some(r)
      ensures r == old(View())
    {
      if locations.None? {
        locations := Some([]);
      }
      r := locations.value;
    }

    /** The Locations setter stores the value as given, null included. */
    method SetLocations(value: Option<seq<DiagnosticResultLocation>>)
      modifies this
      ensures locations == value
    {
      locations := value;
    }

    method Path() returns (r: string)
      modifies this
      ensures r == FirstPath(old(View()))
      ensures locations == Some(old(View()))
    {
      var locs := GetLocations();
      r := if |locs| > 0 then locs[0].path else "";
    }

    method Line() returns (r: int)
      modifies this
      ensures r == FirstLine(old(View()))
      ensures locations == Some(old(View()))
    {
      var locs := GetLocations();
      r := if |locs| > 0 then locs[0].line else -1;
    }

    method Column() returns (r: int)
      modifies this
      ensures r == FirstColumn(old(View()))
      ensures locations == Some(old(View()))
    {
      var locs := GetLocations();
      r := if |locs| > 0 then locs[0].column else -1;
    }
  }

  /** Reading Locations twice gives the same value: the first read fixes it. */
  method ReadTwice(d: DiagnosticResult) returns (first: seq<DiagnosticResultLocation>, second: seq<DiagnosticResultLocation>)
    modifies d
    ensures first == second == old(d.View())
    ensures d.locations == Some(first)
  {
    first := d.GetLocations();
    second := d.GetLocations();
  }

  /** A fresh result reads as empty, with Path "", Line -1 and Column -1. */
  method FreshResultDefaults() returns (path: string, line: int, column: int, locations: seq<DiagnosticResultLocation>)
    ensures path == "" && line == -1 && column == -1 && locations == []
  {
    var d := new DiagnosticResult();
    path := d.Path();
    line := d.Line();
    column := d.Column();
    locations := d.GetLocations();
  }
}
