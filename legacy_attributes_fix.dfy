/**
  The legacy AttributesOnSeparateLines code fix. From the token the diagnostic points
  at, it climbs the parent chain to the enclosing attribute list; the node above that
  is the declaration. The fix then rebuilds the declaration with every attribute in
  an attribute list of its own: `[A, B][C]` becomes `[A][B][C]`.
 */
module LegacyAttributesCodeFix {
  import opened Wrappers

  /** The syntax kinds on a parent chain from an attribute's token up to the root. */
  datatype NodeKind =
    | IdentifierName | QualifiedName | AttributeArgument | AttributeArgumentList
    | Attribute | AttributeList
    | ClassDeclaration | StructDeclaration | InterfaceDeclaration | EnumDeclaration
    | MethodDeclaration | ConstructorDeclaration | PropertyDeclaration | FieldDeclaration
    | EventDeclaration | Parameter | NamespaceDeclaration | CompilationUnit

  /** An attribute: its name and its argument list (None when it has none), as source text. */
  datatype AttributeSyntax = AttributeSyntax(name: string, argumentList: Option<string>)

  /**
    An attribute list: its target specifier (`return` in `[return: A]`, None when absent),
    its attributes, and the trivia on its brackets (comments and whitespace). The first
    list's leading trivia holds any doc comment in front of the declaration.
   */
  datatype AttributeListSyntax = AttributeListSyntax(target: Option<string>, attributes: seq<AttributeSyntax>, trivia: string)

  /** A declaration: its kind, its attribute lists, and the text after the lists, which the fix keeps. */
  datatype DeclarationSyntax = DeclarationSyntax(kind: NodeKind, attributeLists: seq<AttributeListSyntax>, rest: string)

  /**
    The climb of RegisterCodeFixesAsync. `ancestors[0]` is the token's parent and each
    next entry is the previous one's parent; the last is the root, whose parent is
    null. Calling `Kind()` on null throws, so a chain without an attribute list fails.
   */
  method FindEnclosingAttributeList(ancestors: seq<NodeKind>) returns (r: Result<nat>)
    ensures r.Failure? <==> AttributeList !in ancestors
    ensures r.Failure? ==> r.error == NullReferenceException
    ensures r.Success? ==> r.value < |ancestors| && ancestors[r.value] == AttributeList
    ensures r.Success? ==> forall j | 0 <= j < r.value :: ancestors[j] != AttributeList
  {
    if |ancestors| == 0 {
      return Failure(NullReferenceException);
    }
    var k := 0;
    while ancestors[k] != AttributeList
      invariant 0 <= k < |ancestors|
      invariant forall j | 0 <= j < k :: ancestors[j] != AttributeList
      decreases |ancestors| - k
    {
      if k + 1 == |ancestors| {
        return Failure(NullReferenceException);
      }
      k := k + 1;
    }
    return Success(k);
  }

  /** The declaration kinds whose attribute lists the fix knows how to read and replace. */
  predicate Supported(kind: NodeKind)
  {
    kind == ClassDeclaration || kind == MethodDeclaration || kind == PropertyDeclaration || kind == FieldDeclaration
  }

  /** GetAttributeListSyntaxes: other declaration kinds throw NotImplementedException. */
  function GetAttributeListSyntaxes(node: DeclarationSyntax): (r: Result<seq<AttributeListSyntax>>)
    ensures r.Failure? <==> !Supported(node.kind)
    ensures r.Failure? ==> r.error == NotImplementedException
    ensures r.Success? ==> r.value == node.attributeLists
  {
    match node.kind
    case ClassDeclaration => Success(node.attributeLists)
    case MethodDeclaration => Success(node.attributeLists)
    case PropertyDeclaration => Success(node.attributeLists)
    case FieldDeclaration => Success(node.attributeLists)
    case _ => Failure(NotImplementedException)
  }

  /** BuildNodeWithAttributeLists: the same declaration with its attribute lists replaced. */
  function BuildNodeWithAttributeLists(node: DeclarationSyntax, lists: seq<AttributeListSyntax>): (r: Result<DeclarationSyntax>)
    ensures r.Failure? <==> !Supported(node.kind)
    ensures r.Failure? ==> r.error == NotImplementedException
    ensures r.Success? ==> r.value.kind == node.kind && r.value.rest == node.rest && r.value.attributeLists == lists
  {
    match node.kind
    case ClassDeclaration => Success(node.(attributeLists := lists))
    case MethodDeclaration => Success(node.(attributeLists := lists))
    case PropertyDeclaration => Success(node.(attributeLists := lists))
    case FieldDeclaration => Success(node.(attributeLists := lists))
    case _ => Failure(NotImplementedException)
  }

  /** SelectMany(l => l.Attributes): all attributes of all lists, in order. */
  function Flatten(lists: seq<AttributeListSyntax>): seq<AttributeSyntax>
  {
    if lists == [] then [] else lists[0].attributes + Flatten(lists[1..])
  }

  /** One single-attribute list per attribute, with no target and no trivia, as `SyntaxFactory.AttributeList(list)` builds it. */
  function Singletons(attrs: seq<AttributeSyntax>): (r: seq<AttributeListSyntax>)
    ensures |r| == |attrs|
    ensures forall i | 0 <= i < |attrs| :: r[i] == AttributeListSyntax(None, [attrs[i]], "")
  {
    if attrs == [] then [] else [AttributeListSyntax(None, [attrs[0]], "")] + Singletons(attrs[1..])
  }

  /**
    PutOnSeparateLine: every attribute of every list goes into a new list of its own,
    keeping its name and argument list, and the declaration is rebuilt with them. The
    new lists have no target and no trivia, so a `return:` or `field:` specifier is lost,
    and so are the comments on the old lists' brackets, a leading doc comment included.
   */
  method PutOnSeparateLine(parentDeclaration: DeclarationSyntax) returns (r: Result<DeclarationSyntax>)
    ensures r.Failure? <==> !Supported(parentDeclaration.kind)
    ensures r.Failure? ==> r.error == NotImplementedException
    ensures r.Success? ==> r.value.kind == parentDeclaration.kind && r.value.rest == parentDeclaration.rest
    ensures r.Success? ==> r.value.attributeLists == Singletons(Flatten(parentDeclaration.attributeLists))
    ensures r.Success? ==> forall l | l in r.value.attributeLists :: l.target == None && l.trivia == ""
  {
    var existing := GetAttributeListSyntaxes(parentDeclaration);
    if existing.Failure? {
      return Failure(existing.error);
    }
    var attributes := Flatten(existing.value);
    var attributeLists: seq<AttributeListSyntax> := [];
    var i := 0;
    while i < |attributes|
      invariant 0 <= i <= |attributes|
      invariant attributeLists == Singletons(attributes[..i])
    {
      var attribute := attributes[i];
      attributeLists := attributeLists + [AttributeListSyntax(None, [AttributeSyntax(attribute.name, attribute.argumentList)], "")];
      i := i + 1;
    }
    assert attributes[..i] == attributes;
    r := BuildNodeWithAttributeLists(parentDeclaration, attributeLists);
  }

  /** Flattening the single-attribute lists gives back the attributes: order and count are kept. */
  lemma {:induction false} FlattenSingletons(attrs: seq<AttributeSyntax>)
    ensures Flatten(Singletons(attrs)) == attrs
  {
    if attrs != [] {
      assert Singletons(attrs)[1..] == Singletons(attrs[1..]);
      FlattenSingletons(attrs[1..]);
      assert attrs == [attrs[0]] + attrs[1..];
    }
  }

  /** Running the fix on its own output changes nothing more. */
  lemma FixIsIdempotent(lists: seq<AttributeListSyntax>)
    ensures Singletons(Flatten(Singletons(Flatten(lists)))) == Singletons(Flatten(lists))
  {
    FlattenSingletons(Flatten(lists));
  }

  /** `[A][B]` and `[A, B]` both become `[A]` and `[B]`. */
  lemma SplitExamples(a: AttributeSyntax, b: AttributeSyntax)
    ensures Singletons(Flatten([AttributeListSyntax(None, [a], ""), AttributeListSyntax(None, [b], "")]))
         == [AttributeListSyntax(None, [a], ""), AttributeListSyntax(None, [b], "")]
    ensures Singletons(Flatten([AttributeListSyntax(None, [a, b], "")]))
         == [AttributeListSyntax(None, [a], ""), AttributeListSyntax(None, [b], "")]
  {
    var la, lb := AttributeListSyntax(None, [a], ""), AttributeListSyntax(None, [b], "");
    assert Flatten([lb]) == [b] by { assert [lb][1..] == []; }
    assert Flatten([la, lb]) == [a, b] by { assert [la, lb][1..] == [lb]; }
    assert Flatten([AttributeListSyntax(None, [a, b], "")]) == [a, b];
  }

  /** `[return: A, B]` becomes `[A][B]`: the attributes lose their `return` target. */
  lemma TargetDropped(a: AttributeSyntax, b: AttributeSyntax)
    ensures Singletons(Flatten([AttributeListSyntax(Some("return"), [a, b], "")]))
         == [AttributeListSyntax(None, [a], ""), AttributeListSyntax(None, [b], "")]
  {
    assert Flatten([AttributeListSyntax(Some("return"), [a, b], "")]) == [a, b];
  }

  /** A doc comment in front of `[A, B] class C` is trivia of the first list, and the fix drops it. */
  lemma DocCommentDropped(a: AttributeSyntax, b: AttributeSyntax, doc: string)
    ensures Singletons(Flatten([AttributeListSyntax(None, [a, b], doc)]))
         == [AttributeListSyntax(None, [a], ""), AttributeListSyntax(None, [b], "")]
  {
    assert Flatten([AttributeListSyntax(None, [a, b], doc)]) == [a, b];
  }
}
