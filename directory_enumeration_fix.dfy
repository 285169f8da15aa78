/**
  The FavorDirectoryEnumerationCalls code fix (INTL0301, INTL0302). It renames
  `Directory.GetFiles`/`GetDirectories` to `EnumerateFiles`/`EnumerateDirectories`;
  when the call's value flows into something typed as an array it appends
  `.ToArray()` and makes sure `using System.Linq;` is present. Roslyn's type and
  symbol lookups are given as inputs: each context records whether the type it
  looked up is an array type.
 */
module DirectoryEnumerationFix {
  import opened Wrappers

  const GetFilesDiagnosticId := "INTL0301"
  const GetDirectoriesDiagnosticId := "INTL0302"
  const FixableDiagnosticIds := [GetFilesDiagnosticId, GetDirectoriesDiagnosticId]

  const TitleGetFiles := "Use Directory.EnumerateFiles"
  const TitleGetDirectories := "Use Directory.EnumerateDirectories"

  /** The title and the new method name for a diagnostic id. */
  datatype FixChoice = FixChoice(title: string, newMethodName: string)

  /** RegisterCodeFixesAsync: INTL0301 means GetFiles; any other fixable id means GetDirectories. */
  function ChooseFix(diagnosticId: string): (r: FixChoice)
    ensures diagnosticId == GetFilesDiagnosticId <==> r.newMethodName == "EnumerateFiles"
    ensures diagnosticId != GetFilesDiagnosticId <==> r.newMethodName == "EnumerateDirectories"
    ensures r.title == "Use Directory." + r.newMethodName
  {
    TitlesNameTheMethods();
    var isGetFiles := diagnosticId == GetFilesDiagnosticId;
    FixChoice(if isGetFiles then TitleGetFiles else TitleGetDirectories,
              if isGetFiles then "EnumerateFiles" else "EnumerateDirectories")
  }

  /** Each title is `Use Directory.` and the method it switches to; the two names differ. */
  lemma TitlesNameTheMethods()
    ensures TitleGetFiles == "Use Directory." + "EnumerateFiles"
    ensures TitleGetDirectories == "Use Directory." + "EnumerateDirectories"
    ensures "EnumerateFiles" != "EnumerateDirectories"
  {
    assert |"EnumerateFiles"| != |"EnumerateDirectories"|;
  }

  /** A using directive, by `Name?.ToString()`: None for a directive without a name. */
  datatype UsingDirective = UsingDirective(name: Option<string>)

  predicate HasUsing(usings: seq<UsingDirective>, namespaceName: string)
  {
    exists i | 0 <= i < |usings| :: usings[i].name == Some(namespaceName)
  }

  /** AddUsingIfMissing, on the compilation unit's list of usings. */
  function AddUsingIfMissing(usings: seq<UsingDirective>, namespaceName: string): (r: seq<UsingDirective>)
    ensures HasUsing(r, namespaceName)
    ensures HasUsing(usings, namespaceName) ==> r == usings
    ensures !HasUsing(usings, namespaceName) ==> r == usings + [UsingDirective(Some(namespaceName))]
  {
    if HasUsing(usings, namespaceName) then usings
    else
      var r := usings + [UsingDirective(Some(namespaceName))];
      assert r[|usings|].name == Some(namespaceName);
      r
  }

  /** Adding a using twice is the same as adding it once. */
  lemma AddUsingIdempotent(usings: seq<UsingDirective>, namespaceName: string)
    ensures AddUsingIfMissing(AddUsingIfMissing(usings, namespaceName), namespaceName)
         == AddUsingIfMissing(usings, namespaceName)
  {
  }

  /** Existing usings are kept, in order; at most one directive is added. */
  lemma AddUsingKeepsExisting(usings: seq<UsingDirective>, namespaceName: string)
    ensures |usings| <= |AddUsingIfMissing(usings, namespaceName)| <= |usings| + 1
    ensures AddUsingIfMissing(usings, namespaceName)[..|usings|] == usings
  {
  }

  /** A parameter of the outer method: its name, whether it is `params`, whether its type is an array. */
  datatype Parameter = Parameter(name: string, isParams: bool, typeIsArray: bool)

  /** An argument: its `name:` label if any, and its index in the argument list. */
  datatype Argument = Argument(nameColon: Option<string>, index: int)

  /** FirstOrDefault(p => p.Name == name). */
  function FirstNamed(parameters: seq<Parameter>, name: string): (r: Option<Parameter>)
    ensures r.None? <==> forall k | 0 <= k < |parameters| :: parameters[k].name != name
    ensures r.Some? ==> exists k | 0 <= k < |parameters| ::
      parameters[k] == r.value && r.value.name == name
      && forall j | 0 <= j < k :: parameters[j].name != name
  {
    if parameters == [] then None
    else if parameters[0].name == name then Some(parameters[0])
    else
      var r := FirstNamed(parameters[1..], name);
      assert r.Some? ==> exists k | 0 <= k < |parameters| ::
        parameters[k] == r.value && r.value.name == name
        && forall j | 0 <= j < k :: parameters[j].name != name by {
        if r.Some? {
          var k :| 0 <= k < |parameters[1..]| && parameters[1..][k] == r.value && r.value.name == name
                   && forall j | 0 <= j < k :: parameters[1..][j].name != name;
          assert parameters[k + 1] == r.value;
          assert forall j | 0 <= j < k + 1 :: parameters[j].name != name by {
            forall j | 0 <= j < k + 1 ensures parameters[j].name != name {
              if j > 0 { assert parameters[j] == parameters[1..][j - 1]; }
            }
          }
        }
      }
      assert r.None? ==> forall k | 0 <= k < |parameters| :: parameters[k].name != name by {
        if r.None? {
          forall k | 0 <= k < |parameters| ensures parameters[k].name != name {
            if k > 0 { assert parameters[k] == parameters[1..][k - 1]; }
          }
        }
      }
      r
  }

  /**
    The parameter an argument binds to. A named argument binds to the first parameter
    of that name; a positional one to the parameter at its index, or, past the end, to
    a trailing `params` parameter.
   */
  function ResolveParameter(argument: Argument, parameters: seq<Parameter>): (r: Option<Parameter>)
    ensures argument.nameColon.Some? ==> r == FirstNamed(parameters, argument.nameColon.value)
    ensures argument.nameColon.None? ==>
      (r.Some? <==> 0 <= argument.index && (argument.index < |parameters| || (|parameters| > 0 && parameters[|parameters| - 1].isParams)))
    ensures argument.nameColon.None? && 0 <= argument.index < |parameters| ==> r == Some(parameters[argument.index])
    ensures argument.nameColon.None? && argument.index >= |parameters| && r.Some? ==>
      r.value == parameters[|parameters| - 1] && r.value.isParams
  {
    match argument.nameColon
    case Some(paramName) => FirstNamed(parameters, paramName)
    case None =>
      var argIndex := argument.index;
      var paramCount := |parameters|;
      if argIndex >= 0 && argIndex < paramCount then Some(parameters[argIndex])
      else if argIndex >= 0 && paramCount > 0 && parameters[paramCount - 1].isParams then Some(parameters[paramCount - 1])
      else None
  }

  /** An ancestor of the invocation, as the return-statement case sees it. */
  datatype Ancestor =
    | MethodDeclaration(returnsArray: bool)
    | LocalFunctionStatement(returnsArray: bool)
    | OtherAncestor

  /** The node that owns an expression body `=> …`. */
  datatype ArrowOwner =
    | ArrowOfMethod(returnsArray: bool)
    | ArrowOfLocalFunction(returnsArray: bool)
    | ArrowOfProperty(typeIsArray: bool)
    | ArrowOfOther

  /** Where the invocation sits: the cases of NeedsToArrayWrapper, and the rest. */
  datatype ParentContext =
    | VariableInitializer(declaredTypeIsArray: bool)
    | PropertyInitializer(propertyTypeIsArray: bool)
    | OtherInitializer
    | Assignment(leftTypeIsArray: bool)
    | Return(ancestors: seq<Ancestor>)
    | ArrowBody(owner: ArrowOwner)
    | InvocationArgument(argument: Argument, outerMethod: Option<seq<Parameter>>)
    | OtherParent

  /**
    The return type of the nearest enclosing method or local function (lambdas and
    other nodes are skipped), as "is an array"; None when there is none.
   */
  function EnclosingReturnsArray(ancestors: seq<Ancestor>): (r: Option<bool>)
    ensures r.None? <==> forall i | 0 <= i < |ancestors| :: ancestors[i].OtherAncestor?
    ensures r.Some? ==> exists k | 0 <= k < |ancestors| ::
      !ancestors[k].OtherAncestor? && r.value == ancestors[k].returnsArray
      && forall j | 0 <= j < k :: ancestors[j].OtherAncestor?
  {
    if ancestors == [] then None
    else if !ancestors[0].OtherAncestor? then Some(ancestors[0].returnsArray)
    else
      var r := EnclosingReturnsArray(ancestors[1..]);
      assert r.Some? ==> exists k | 0 <= k < |ancestors| ::
        !ancestors[k].OtherAncestor? && r.value == ancestors[k].returnsArray
        && forall j | 0 <= j < k :: ancestors[j].OtherAncestor? by {
        if r.Some? {
          var k :| 0 <= k < |ancestors[1..]| && !ancestors[1..][k].OtherAncestor? && r.value == ancestors[1..][k].returnsArray
                   && forall j | 0 <= j < k :: ancestors[1..][j].OtherAncestor?;
          assert ancestors[k + 1] == ancestors[1..][k];
          assert forall j | 0 <= j < k + 1 :: ancestors[j].OtherAncestor? by {
            forall j | 0 <= j < k + 1 ensures ancestors[j].OtherAncestor? {
              if j > 0 { assert ancestors[j] == ancestors[1..][j - 1]; }
            }
          }
        }
      }
      assert r.None? ==> forall i | 0 <= i < |ancestors| :: ancestors[i].OtherAncestor? by {
        if r.None? {
          forall i | 0 <= i < |ancestors| ensures ancestors[i].OtherAncestor? {
            if i > 0 { assert ancestors[i] == ancestors[1..][i - 1]; }
          }
        }
      }
      r
  }

  /** NeedsToArrayWrapper: the value goes where an array is expected. */
  function NeedsToArrayWrapper(parent: ParentContext): bool
  {
    match parent
    case VariableInitializer(isArray) => isArray
    case PropertyInitializer(isArray) => isArray
    case OtherInitializer => false
    case Assignment(isArray) => isArray
    case Return(ancestors) => EnclosingReturnsArray(ancestors) == Some(true)
    case ArrowBody(owner) =>
      (match owner
       case ArrowOfMethod(isArray) => isArray
       case ArrowOfLocalFunction(isArray) => isArray
       case ArrowOfProperty(isArray) => isArray
       case ArrowOfOther => false)
    case InvocationArgument(argument, outerMethod) =>
      (match outerMethod
       case None => false
       case Some(parameters) =>
         var target := ResolveParameter(argument, parameters);
         target.Some? && target.value.typeIsArray)
    case OtherParent => false
  }

  /** A return inside a lambda takes the enclosing method's return type, not the lambda's. */
  lemma ReturnSkipsLambdas(ancestors: seq<Ancestor>, returnsArray: bool)
    requires forall i | 0 <= i < |ancestors| :: ancestors[i].OtherAncestor?
    ensures NeedsToArrayWrapper(Return(ancestors + [MethodDeclaration(returnsArray)])) == returnsArray
  {
    var a := ancestors + [MethodDeclaration(returnsArray)];
    var r := EnclosingReturnsArray(a);
    assert !a[|ancestors|].OtherAncestor?;
    var k :| 0 <= k < |a| && !a[k].OtherAncestor? && r.value == a[k].returnsArray
             && forall j | 0 <= j < k :: a[j].OtherAncestor?;
    assert k == |ancestors|;
  }

  /** Every context outside the listed cases gets no wrapper; so does a return outside any method. */
  lemma UnlistedContextsNeedNoWrapper(parent: ParentContext)
    requires parent.OtherParent? || parent.OtherInitializer? || parent == ArrowBody(ArrowOfOther)
          || (parent.InvocationArgument? && parent.outerMethod.None?)
          || (parent.Return? && forall i | 0 <= i < |parent.ancestors| :: parent.ancestors[i].OtherAncestor?)
    ensures !NeedsToArrayWrapper(parent)
  {
    if parent.Return? {
      assert EnclosingReturnsArray(parent.ancestors).None?;
    }
  }

  /**
    An extra argument binds to a trailing `params string[]`; without `params` it
    binds to nothing and needs no wrapper; a named one finds its parameter anywhere.
   */
  lemma ArgumentExamples()
    ensures NeedsToArrayWrapper(InvocationArgument(Argument(None, 2),
              Some([Parameter("a", false, false), Parameter("rest", true, true)])))
    ensures !NeedsToArrayWrapper(InvocationArgument(Argument(None, 2),
              Some([Parameter("a", false, false), Parameter("files", false, true)])))
    ensures NeedsToArrayWrapper(InvocationArgument(Argument(Some("files"), 0),
              Some([Parameter("a", false, false), Parameter("files", false, true)])))
  {
    var ps := [Parameter("a", false, false), Parameter("files", false, true)];
    assert ps[0].name != "files";
    assert FirstNamed(ps, "files") == FirstNamed(ps[1..], "files");
  }

  /** What the fix produces: the new call, whether it is wrapped in `.ToArray()`, and the usings. */
  datatype FixResult = FixResult(newMethodName: string, wrappedInToArray: bool, usings: seq<UsingDirective>)

  /**
    UseEnumerationMethodAsync. `invocationIsMemberAccess` is whether the call is
    written `X.GetFiles(...)`; the cast to a member access throws otherwise.
   */
  function UseEnumerationMethod(usings: seq<UsingDirective>, newMethodName: string,
                                invocationIsMemberAccess: bool, parent: ParentContext): (r: Result<FixResult>)
    ensures r.Failure? <==> !invocationIsMemberAccess
    ensures r.Failure? ==> r.error == InvalidCastException
    ensures r.Success? ==> r.value.newMethodName == newMethodName
    ensures r.Success? ==> r.value.wrappedInToArray == NeedsToArrayWrapper(parent)
    ensures r.Success? && !r.value.wrappedInToArray ==> r.value.usings == usings
    ensures r.Success? && r.value.wrappedInToArray ==> HasUsing(r.value.usings, "System.Linq")
    ensures r.Success? && r.value.wrappedInToArray ==> r.value.usings == AddUsingIfMissing(usings, "System.Linq")
    ensures r.Success? ==> usings <= r.value.usings && |r.value.usings| <= |usings| + 1
  {
    if !invocationIsMemberAccess then Failure(InvalidCastException)
    else
      var wrapped := NeedsToArrayWrapper(parent);
      var newUsings := if wrapped then AddUsingIfMissing(usings, "System.Linq") else usings;
      Success(FixResult(newMethodName, wrapped, newUsings))
  }

  /** `string[] files = Directory.GetFiles(...)` gains `.ToArray()` and a `using System.Linq;` at the end. */
  lemma ArrayLocalExample()
    ensures UseEnumerationMethod([UsingDirective(Some("System")), UsingDirective(Some("System.IO"))],
              ChooseFix(GetFilesDiagnosticId).newMethodName, true, VariableInitializer(true))
         == Success(FixResult("EnumerateFiles", true,
              [UsingDirective(Some("System")), UsingDirective(Some("System.IO")), UsingDirective(Some("System.Linq"))]))
  {
    var us := [UsingDirective(Some("System")), UsingDirective(Some("System.IO"))];
    assert !HasUsing(us, "System.Linq") by {
      assert "System" != "System.Linq" && "System.IO" != "System.Linq";
      assert forall i | 0 <= i < |us| :: us[i].name != Some("System.Linq");
    }
    assert ChooseFix(GetFilesDiagnosticId).newMethodName == "EnumerateFiles";
    assert us + [UsingDirective(Some("System.Linq"))]
        == [UsingDirective(Some("System")), UsingDirective(Some("System.IO")), UsingDirective(Some("System.Linq"))];
  }
}
