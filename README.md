# IntelliTect coding guidelines: analyzers, fixes and Markdown output, in Dafny

This project models the decision logic of the IntelliTect coding-guideline analyzers, in both the current
`IntelliTect.Analyzer` tree and the legacy `IntelliTectAnalyzer` tree. It also models their code fixes, the
test helper that describes an expected diagnostic, the MarkdownOut text library, its stream writer, and
the helpers of the guideline-to-Markdown tool.

Roslyn does not appear in the model. Each analyzer becomes a function over a plain record of what it asks
Roslyn for:

- a symbol's name, kind and flags;
- its attributes and their start lines;
- the data-flow sets of a method body;
- the parameters of the method that is called.

Its result is the diagnostics it reports, as values with the rule id, the location and the message arguments.

The modules follow the source:

- `Casing`, `NamingAnalyzers`, `NamingCodeFixes`: `Naming/Casing.cs`, the three current naming analyzers, and the two current rename fixes.
- `LegacyNamingAnalyzers`, `LegacyNamingCodeFixes`: the legacy naming rules and their fixes.
- `Symbols`, `SymbolMixins`: the symbol records, the GeneratedCode check, and `IsNativeMethodsClass`.
- `AttributeScan`: the attribute line scan that both AttributesOnSeparateLines analyzers share.
  - `AttributesOnSeparateLines` is the current analyzer.
  - `LegacyAttributesOnSeparateLines` is the legacy analyzer.
  - `LegacyAttributesCodeFix` is the legacy code fix.
- `UnusedLocalVariable`, `LegacyUnusedLocalVariable`: the two unused-local rules.
- `DirectoryEnumerationFix`: the FavorDirectoryEnumerationCalls code fix.
- `DiagnosticResults`: `DiagnosticResultLocation` and `DiagnosticResult` of the test helpers.
- `MdText`, `MdExtensions`, `ToolsMdExtensions`, `MarkdownWriter`: MarkdownOut's text functions, both copies of `StyleSubstring`, and `MdWriter`.
- `GuidelineProgram`: the section lists, the emoji table and the grouping in `Program.cs`.
- `Wrappers`, `Chars`, `Strings`, `Linq`: library behaviour the source relies on.
  - `Option`/`Result` and the exceptions the source throws.
  - ASCII character classes.
  - `String.Replace`, `IndexOf` and `Trim`.
  - LINQ `Except`, `Where` and `Distinct().OrderBy()`.

Imperative code stays imperative:

- The `Casing.IsPascalCase` scan is a method with a loop.
- Both attribute scans are methods whose loop builds the line dictionary.
- The legacy fix's parent climb and its list rebuilding are loops.
- `MdText.Indent` and `MakeParagraphLineBreak` are loops.
- `DiagnosticResult` is a class whose `Locations` getter initialises its backing field.
- `MdWriter` is a class with an output buffer and a disposed flag.

Each method is proved against a function, and the lemmas are about those functions.

## Model

| member | source | states |
|---|---|---|
| Casing.IsPascalCase | IntelliTect.Analyzer/IntelliTect.Analyzer/Naming/Casing.cs:7-27 | The scan returns true exactly when the name is empty, or starts upper-case and has only letters and digits. |
| Casing.EmptyIsPascalCase | IntelliTect.Analyzer/IntelliTect.Analyzer/Naming/Casing.cs:10-26 | The empty name is PascalCase. |
| Casing.LowerFirstRejected | IntelliTect.Analyzer/IntelliTect.Analyzer/Naming/Casing.cs:12-15 | A name whose first character is not upper-case is rejected. |
| Casing.NonAlphanumericRejected | IntelliTect.Analyzer/IntelliTect.Analyzer/Naming/Casing.cs:18-24 | A character that is neither letter nor digit, anywhere in the name, rejects it. |
| Casing.UnderscoreRejected | IntelliTect.Analyzer/IntelliTect.Analyzer/Naming/Casing.cs:18-24 | A name containing `_` is never PascalCase. |
| Casing.DigitsAccepted | IntelliTect.Analyzer/IntelliTect.Analyzer/Naming/Casing.cs:18-20 | Digits after the first character are accepted (`Field1`, `A2B3`). |
| Symbols.HasGeneratedCode | IntelliTect.Analyzer/IntelliTect.Analyzer/Analyzers/NamingFieldPascalUnderscore.cs:42-47 | Some attribute's class is named GeneratedCodeAttribute; an attribute with an unresolved class never matches. |
| SymbolMixins.IsNativeMethodsClass | IntelliTectAnalyzer/IntelliTectAnalyzer/SymbolMixins.cs:8-11 | A named type whose name is ordinally equal to `NativeMethods`. |
| Symbols.HasGeneratedCodeAppend | IntelliTect.Analyzer/IntelliTect.Analyzer/Analyzers/NamingFieldPascalUnderscore.cs:42-47 | The GeneratedCode check over a member's and its type's attributes is the disjunction of the two checks. |
| SymbolMixins.NativeMethodsIsCaseSensitive | IntelliTectAnalyzer/IntelliTectAnalyzer/SymbolMixins.cs:8-11 | The name comparison is ordinal: every name other than `NativeMethods`, `nativemethods` and other casings included, does not qualify. |
| SymbolMixins.NativeMethodsNeedsNamedType | IntelliTectAnalyzer/IntelliTectAnalyzer/SymbolMixins.cs:8-11 | A symbol that is not a named type never qualifies, whatever its name. |
| NamingAnalyzers.AnalyzeField | IntelliTect.Analyzer/IntelliTect.Analyzer/Analyzers/NamingFieldPascalUnderscore.cs:38-74 | Reported iff no GeneratedCode attribute, not in an enum, not in NativeMethods, not const, and the name is not `_` followed by a non-empty PascalCase tail. The one report has the rule id, the field's location and its name. |
| NamingAnalyzers.PropertyCheckedName | IntelliTect.Analyzer/IntelliTect.Analyzer/Analyzers/NamingPropertyPascal.cs:58 | The first explicitly implemented property's name, or the property's own name when it implements none. |
| NamingAnalyzers.AnalyzeProperty | IntelliTect.Analyzer/IntelliTect.Analyzer/Analyzers/NamingPropertyPascal.cs:38-69 | Reported iff not generated, not in NativeMethods, not an indexer, and the checked name is not PascalCase. The checked name is the first explicitly implemented name if there is one, and it is the message argument. |
| NamingAnalyzers.MethodCheckedName | IntelliTect.Analyzer/IntelliTect.Analyzer/Analyzers/NamingMethodPascal.cs:65-78 | Only the five listed method kinds are checked. An explicit implementation is checked under its first interface method's name, and with none `First()` throws InvalidOperationException. The other checked kinds go under their own name. |
| NamingAnalyzers.AnalyzeMethod | IntelliTect.Analyzer/IntelliTect.Analyzer/Analyzers/NamingMethodPascal.cs:56-94 | A member of NativeMethods is skipped. Otherwise an explicit implementation naming no interface method throws InvalidOperationException. Any other method is reported iff its kind is checked, its checked name is not PascalCase and nothing is generated. The argument is the checked name. |
| NamingAnalyzers.AnalyzeLocalFunction | IntelliTect.Analyzer/IntelliTect.Analyzer/Analyzers/NamingMethodPascal.cs:42-54 | A local function is reported iff its identifier is not PascalCase, with the identifier as argument. |
| NamingAnalyzers.UncheckedKindsNeverReported | IntelliTect.Analyzer/IntelliTect.Analyzer/Analyzers/NamingMethodPascal.cs:65-78 | Accessors, constructors, operators and the other unlisted kinds are never reported. |
| NamingAnalyzers.ConstAndEnumFieldsNeverReported | IntelliTect.Analyzer/IntelliTect.Analyzer/Analyzers/NamingFieldPascalUnderscore.cs:49-69 | Const fields and enum members are never reported, whatever their name. |
| NamingAnalyzers.FieldExamples | IntelliTect.Analyzer/IntelliTect.Analyzer/Analyzers/NamingFieldPascalUnderscore.cs:60-64 | `_`, `__MyField` and `MyField` are reported. |
| NamingAnalyzers.FieldExamplesAccepted | IntelliTect.Analyzer/IntelliTect.Analyzer/Analyzers/NamingFieldPascalUnderscore.cs:60-64 | `_MyField` and `_Field1` are not reported. |
| NamingAnalyzers.OrdinaryField | IntelliTect.Analyzer/IntelliTect.Analyzer/Analyzers/NamingFieldPascalUnderscore.cs:37-73 | In an ordinary, non-generated class, a non-const field is reported exactly when its name is not `_PascalCase`. |
| NamingAnalyzers.PropertyExamples | IntelliTect.Analyzer/IntelliTect.Analyzer/Analyzers/NamingPropertyPascal.cs:58-68 | `_MyProperty` and `My_Property` are reported; `MyProperty` is not. |
| NamingAnalyzers.MethodExamples | IntelliTect.Analyzer/IntelliTect.Analyzer/Analyzers/NamingMethodPascal.cs:80-93 | `_MyMethod` and `My_Method` are reported; `MyMethod` is not. |
| NamingAnalyzers.UnresolvedExplicitImplementation | IntelliTect.Analyzer/IntelliTect.Analyzer/Analyzers/NamingMethodPascal.cs:60-76 | An explicit implementation naming no interface method throws in an ordinary class and is skipped in NativeMethods, whatever its name. |
| NamingCodeFixes.PascalWithUnderscore | IntelliTect.Analyzer/IntelliTect.Analyzer.CodeFixes/NamingFieldPascalUnderscore.cs:53-55 | The new name is `_`, the upper-cased first non-underscore character, then the rest of the name unchanged. |
| NamingCodeFixes.FirstNonUnderscore | IntelliTect.Analyzer/IntelliTect.Analyzer.CodeFixes/NamingFieldPascalUnderscore.cs:53-55 | The index of the first character that is not `_`. Every character before it is `_`. |
| NamingCodeFixes.PascalWithUnderscoreShape | IntelliTect.Analyzer/IntelliTect.Analyzer.CodeFixes/NamingFieldPascalUnderscore.cs:54-55 | Any number of leading underscores becomes exactly one. The length is the trimmed length plus one. |
| NamingCodeFixes.PascalWithUnderscoreIdempotent | IntelliTect.Analyzer/IntelliTect.Analyzer.CodeFixes/NamingFieldPascalUnderscore.cs:53-55 | Renaming a renamed field changes nothing. |
| NamingCodeFixes.PascalWithUnderscoreSilencesRule | IntelliTect.Analyzer/IntelliTect.Analyzer.CodeFixes/NamingFieldPascalUnderscore.cs:53-55 | When the name after its underscores is a letter followed by letters and digits, the renamed field is not reported by the field rule. |
| NamingCodeFixes.PascalWithUnderscoreAddsUnderscore | IntelliTect.Analyzer/IntelliTect.Analyzer.CodeFixes/NamingFieldPascalUnderscore.cs:53-55 | `MyField` becomes `_MyField`. |
| NamingCodeFixes.PascalWithUnderscoreUpperCases | IntelliTect.Analyzer/IntelliTect.Analyzer.CodeFixes/NamingFieldPascalUnderscore.cs:53-55 | `_myField` becomes `_MyField`. |
| NamingCodeFixes.PascalWithUnderscoreCollapses | IntelliTect.Analyzer/IntelliTect.Analyzer.CodeFixes/NamingFieldPascalUnderscore.cs:53-55 | `__myField` becomes `_MyField`. |
| NamingCodeFixes.MakePascalWithUnderscore | IntelliTect.Analyzer/IntelliTect.Analyzer.CodeFixes/NamingFieldPascalUnderscore.cs:51-78 | A name of underscores only throws InvalidOperationException, from `First()`. Otherwise the field is renamed exactly when the semantic model, the token parent and the declared symbol are all present; then the new name is PascalWithUnderscore. |
| NamingCodeFixes.PascalName | IntelliTect.Analyzer/IntelliTect.Analyzer/CodeFixes/NamingIdentifierPascal.cs:49-50 | The length is kept, the first character is upper-cased, and every later character is unchanged. |
| NamingCodeFixes.PascalNameKeepsUpper | IntelliTect.Analyzer/IntelliTect.Analyzer/CodeFixes/NamingIdentifierPascal.cs:50 | A name that does not start lower-case, such as `My_Method`, is left as it is. |
| NamingCodeFixes.PascalNameIdempotent | IntelliTect.Analyzer/IntelliTect.Analyzer/CodeFixes/NamingIdentifierPascal.cs:50 | Applying the fix twice is applying it once. |
| NamingCodeFixes.PascalNameSilencesRules | IntelliTect.Analyzer/IntelliTect.Analyzer/CodeFixes/NamingIdentifierPascal.cs:49-50 | A name that starts with a letter and continues with letters and digits is PascalCase after the fix. |
| NamingCodeFixes.MakePascal | IntelliTect.Analyzer/IntelliTect.Analyzer/CodeFixes/NamingIdentifierPascal.cs:47-65 | The empty name throws InvalidOperationException. Otherwise only the first character may change (to its upper case), and a name not starting lower-case is unchanged. |
| NamingCodeFixes.PascalNameExamples | IntelliTect.Analyzer/IntelliTect.Analyzer/CodeFixes/NamingIdentifierPascal.cs:49-50 | `myMethod`, `getEmpty`, `localFunction` and `myProperty` get their first letter upper-cased. |
| NamingCodeFixes.FixesCoverNamingRules | IntelliTect.Analyzer/IntelliTect.Analyzer/CodeFixes/NamingIdentifierPascal.cs:21 | Every diagnostic of the field rule carries the field fix's id, and every diagnostic of the property, method and local-function rules carries one of the identifier fix's ids (INTL0002, INTL0003). |
| LegacyNamingAnalyzers.AnalyzeField | IntelliTectAnalyzer/IntelliTectAnalyzer/Analyzers/NamingFieldPascalUnderscore.cs:30-54 | Reported iff not in an enum, not const, and the name is not `_` followed by an upper-case character. The argument is the field name. |
| LegacyNamingAnalyzers.AnalyzeProperty | IntelliTectAnalyzer/IntelliTectAnalyzer/Analyzers/NamingPropertyPascal.cs:28-45 | The empty name throws from `First()`. Otherwise it is reported iff the first character is not upper-case and the property is not an indexer. |
| LegacyNamingAnalyzers.AnalyzeLocalFunction | IntelliTectAnalyzer/IntelliTectAnalyzer/Analyzers/NamingMethodPascal.cs:41-53 | An empty identifier throws. Otherwise a local function is reported iff its first character is not upper-case. |
| LegacyNamingAnalyzers.AnalyzeMethod | IntelliTectAnalyzer/IntelliTectAnalyzer/Analyzers/NamingMethodPascal.cs:55-83 | Skips symbols that cannot be referenced by name and NativeMethods members. It throws on an empty name, and otherwise reports iff the first character is not upper-case and nothing is generated. |
| LegacyNamingAnalyzers.FieldExamples | IntelliTectAnalyzer/IntelliTectAnalyzer/Analyzers/NamingFieldPascalUnderscore.cs:40-44 | `_My_Field` and `_MyField` pass; `MyField` and `_myField` are reported. |
| LegacyNamingAnalyzers.FieldRulesDiffer | IntelliTectAnalyzer/IntelliTectAnalyzer/Analyzers/NamingFieldPascalUnderscore.cs:40-44 | `_My_Field` passes the legacy field rule and is reported by the current one. |
| LegacyNamingAnalyzers.MethodExamples | IntelliTectAnalyzer/IntelliTectAnalyzer/Analyzers/NamingMethodPascal.cs:69-82 | `myMethod` and `_MyMethod` are each reported once; `MyMethod` is not. |
| LegacyNamingCodeFixes.MakePascalWithUnderscore | IntelliTectAnalyzer/IntelliTectAnalyzer/CodeFixes/NamingFieldPascalUnderscore.cs:50-60 | A name of underscores only throws InvalidOperationException. Otherwise the underscores collapse to one, the next character is upper-cased, and the rest is kept. |
| LegacyNamingCodeFixes.LegacyFixExamples | IntelliTectAnalyzer/IntelliTectAnalyzer/CodeFixes/NamingPropertyPascal.cs:50-59 | `MyField` and `_myField` become `_MyField`, and `myProperty` becomes `MyProperty`. The legacy NamingPropertyPascal fix computes the same name as the current one (upper-case the first character, keep the rest, throw on an empty name), so NamingCodeFixes.MakePascal models it; this lemma shows it on the legacy test name. |
| AttributeScan.OffendingByLines | IntelliTect.Analyzer/IntelliTect.Analyzer/Analyzers/AttributesOnSeparateLines.cs:43-63 | Attribute i is offending exactly when its line is the declaration's, or a line of an earlier attribute. |
| AttributeScan.ReportsUpTo | IntelliTect.Analyzer/IntelliTect.Analyzer/Analyzers/AttributesOnSeparateLines.cs:45-64 | The scan of the first n attributes reports at most n diagnostics. |
| AttributeScan.ReportsMembership | IntelliTect.Analyzer/IntelliTect.Analyzer/Analyzers/AttributesOnSeparateLines.cs:53-58 | Every offending attribute is reported, at its own span with its class name, and every report is of an offending attribute. |
| AttributeScan.ReportCount | IntelliTect.Analyzer/IntelliTect.Analyzer/Analyzers/AttributesOnSeparateLines.cs:45-64 | The number of reports is n minus the number of distinct attribute lines off the declaration line. |
| AttributeScan.NoAttributesNoReports | IntelliTect.Analyzer/IntelliTect.Analyzer/Analyzers/AttributesOnSeparateLines.cs:41 | No attributes, no reports. |
| AttributeScan.SeparateLinesNoReports | IntelliTect.Analyzer/IntelliTect.Analyzer/Analyzers/AttributesOnSeparateLines.cs:45-64 | Attributes on distinct lines, none on the declaration line, give no report. |
| AttributesOnSeparateLines.AnalyzeSymbol | IntelliTect.Analyzer/IntelliTect.Analyzer/Analyzers/AttributesOnSeparateLines.cs:37-66 | The loop reports exactly the closed-form reports. Its dictionary ends holding exactly the attribute lines other than the declaration line, each mapped to an attribute on that line, so `Add` never meets a duplicate key. |
| AttributesOnSeparateLines.ReportCount | IntelliTect.Analyzer/IntelliTect.Analyzer/Analyzers/AttributesOnSeparateLines.cs:45-64 | Reports = attributes minus distinct attribute lines other than the declaration line. |
| AttributesOnSeparateLines.TwoOnOneLine | IntelliTect.Analyzer/IntelliTect.Analyzer/Analyzers/AttributesOnSeparateLines.cs:53-58 | `[A][B]` above the declaration gives one report, at B, naming B. |
| AttributesOnSeparateLines.OnDeclarationLine | IntelliTect.Analyzer/IntelliTect.Analyzer/Analyzers/AttributesOnSeparateLines.cs:44-58 | `[A]` on the declaration's own line is reported, at A. |
| LegacyAttributesOnSeparateLines.Scan | IntelliTectAnalyzer/IntelliTectAnalyzer/Analyzers/AttributesOnSeparateLines.cs:34-62 | The loop reports exactly the closed-form reports with no declaration line, under the given id. Its dictionary holds every attribute line, each mapped to an attribute on it. |
| LegacyAttributesOnSeparateLines.AnalyzeSymbol | IntelliTectAnalyzer/IntelliTectAnalyzer/Analyzers/AttributesOnSeparateLines.cs:12-62 | The reports of the scan under the declared id INTL0003, which is the legacy method-naming rule's id. The dictionary is as in Scan. |
| LegacyAttributesOnSeparateLines.AnalyzeSymbolIntended | IntelliTectAnalyzer/IntelliTectAnalyzer/Analyzers/AttributesOnSeparateLines.cs:34-62 | The same reports under the current rule's id INTL0101. |
| LegacyAttributesOnSeparateLines.ReportCount | IntelliTectAnalyzer/IntelliTectAnalyzer/Analyzers/AttributesOnSeparateLines.cs:41-60 | Reports = attributes minus distinct attribute lines. |
| LegacyAttributesOnSeparateLines.FirstOnLineNotReported | IntelliTectAnalyzer/IntelliTectAnalyzer/Analyzers/AttributesOnSeparateLines.cs:49 | The first attribute on each line is never reported. |
| LegacyAttributesOnSeparateLines.TwoOnOneLine | IntelliTectAnalyzer/IntelliTectAnalyzer/Analyzers/AttributesOnSeparateLines.cs:41-60 | `[A][B]` gives one report, at B, under the declared id, whatever the declaration line. |
| LegacyAttributesOnSeparateLines.AsWrittenClashesWithMethodRule | IntelliTectAnalyzer/IntelliTectAnalyzer/Analyzers/AttributesOnSeparateLines.cs:12 | With the declared id, the report for `[A][B]` carries the same id as the legacy method-naming report for `myMethod`. |
| LegacyAttributesOnSeparateLines.IdDistinctFromNamingRules | IntelliTectAnalyzer/IntelliTectAnalyzer/Analyzers/AttributesOnSeparateLines.cs:12 | With the intended id, every report has the current rule's id and none of the legacy naming ids. |
| LegacyAttributesCodeFix.FindEnclosingAttributeList | IntelliTectAnalyzer/IntelliTectAnalyzer/CodeFixes/AttributesOnSeparateLines.cs:39-44 | The climb stops at the first AttributeList ancestor. With none it ends in a NullReferenceException. |
| LegacyAttributesCodeFix.Supported | IntelliTectAnalyzer/IntelliTectAnalyzer/CodeFixes/AttributesOnSeparateLines.cs:86-101 | The declaration kinds the fix reads and rebuilds: class, method, property and field. |
| LegacyAttributesCodeFix.GetAttributeListSyntaxes | IntelliTectAnalyzer/IntelliTectAnalyzer/CodeFixes/AttributesOnSeparateLines.cs:86-101 | Class, method, property and field declarations give their attribute lists; other kinds throw NotImplementedException. |
| LegacyAttributesCodeFix.BuildNodeWithAttributeLists | IntelliTectAnalyzer/IntelliTectAnalyzer/CodeFixes/AttributesOnSeparateLines.cs:103-118 | A supported declaration is rebuilt with exactly the new lists, its kind and the text after its lists kept; other kinds throw NotImplementedException. |
| LegacyAttributesCodeFix.Flatten | IntelliTectAnalyzer/IntelliTectAnalyzer/CodeFixes/AttributesOnSeparateLines.cs:63 | All attributes of all lists, list by list, in order. |
| LegacyAttributesCodeFix.Singletons | IntelliTectAnalyzer/IntelliTectAnalyzer/CodeFixes/AttributesOnSeparateLines.cs:63-73 | Each attribute becomes a list of its own with no target and no trivia, in order. |
| LegacyAttributesCodeFix.PutOnSeparateLine | IntelliTectAnalyzer/IntelliTectAnalyzer/CodeFixes/AttributesOnSeparateLines.cs:58-84 | The loop gives one single-attribute list per attribute of every list, in order, keeping the declaration's kind and the text after its lists. No new list has a target or trivia. Unsupported kinds throw. |
| LegacyAttributesCodeFix.FlattenSingletons | IntelliTectAnalyzer/IntelliTectAnalyzer/CodeFixes/AttributesOnSeparateLines.cs:63-71 | The attributes of the new lists are the original attributes, in order and count, each with its name and arguments. |
| LegacyAttributesCodeFix.FixIsIdempotent | IntelliTectAnalyzer/IntelliTectAnalyzer/CodeFixes/AttributesOnSeparateLines.cs:58-84 | Running the fix on its own output changes nothing. |
| LegacyAttributesCodeFix.SplitExamples | IntelliTectAnalyzer/IntelliTectAnalyzer/CodeFixes/AttributesOnSeparateLines.cs:58-84 | `[A][B]` and `[A, B]` both become `[A]` and `[B]`. |
| LegacyAttributesCodeFix.TargetDropped | IntelliTectAnalyzer/IntelliTectAnalyzer/CodeFixes/AttributesOnSeparateLines.cs:63-73 | `[return: A, B]` becomes `[A][B]`: the `return` target is lost. |
| LegacyAttributesCodeFix.DocCommentDropped | IntelliTectAnalyzer/IntelliTectAnalyzer/CodeFixes/AttributesOnSeparateLines.cs:63-77 | A doc comment in front of `[A, B]` is trivia of that list and is gone after the fix. |
| UnusedLocalVariable.UnusedVariables | IntelliTect.Analyzer/IntelliTect.Analyzer/Analyzers/UnusedLocalVariable.cs:44-47 | A variable is listed iff it is declared, read neither inside nor outside, and not named with underscores only. |
| UnusedLocalVariable.UnusedInDeclarationOrder | IntelliTect.Analyzer/IntelliTect.Analyzer/Analyzers/UnusedLocalVariable.cs:46-52 | Each is listed once, in declaration order. |
| UnusedLocalVariable.Report | IntelliTect.Analyzer/IntelliTect.Analyzer/Analyzers/UnusedLocalVariable.cs:51 | The diagnostic for one variable: INTL0303 at its first location, with its name as the argument. |
| UnusedLocalVariable.AnalyzeMethod | IntelliTect.Analyzer/IntelliTect.Analyzer/Analyzers/UnusedLocalVariable.cs:38-54 | No block body, no reports. Otherwise the i-th report is for the i-th unused variable in declaration order, at its location, with its name as the argument. Every report is such a variable's. |
| UnusedLocalVariable.UnderscoreExamples | IntelliTect.Analyzer/IntelliTect.Analyzer/Analyzers/UnusedLocalVariable.cs:47 | Unread `_` and `__` are not reported; an unread `foo` is reported once, as `foo`. |
| LegacyUnusedLocalVariable.UnusedVariables | IntelliTectAnalyzer/IntelliTectAnalyzer/Analyzers/UnusedLocalVariable.cs:44-46 | Declared minus read inside or outside, without duplicates. |
| LegacyUnusedLocalVariable.UnusedInDeclarationOrder | IntelliTectAnalyzer/IntelliTectAnalyzer/Analyzers/UnusedLocalVariable.cs:46-51 | In declaration order. |
| LegacyUnusedLocalVariable.AnalyzeMethod | IntelliTectAnalyzer/IntelliTectAnalyzer/Analyzers/UnusedLocalVariable.cs:38-53 | One argument-less report per unused variable, at its location, in order. |
| LegacyUnusedLocalVariable.DiscardReported | IntelliTectAnalyzer/IntelliTectAnalyzer/Analyzers/UnusedLocalVariable.cs:46 | An unread `_` is reported by the legacy rule and not by the current one. |
| LegacyUnusedLocalVariable.SameRuleWithoutDiscards | IntelliTectAnalyzer/IntelliTectAnalyzer/Analyzers/UnusedLocalVariable.cs:44-46 | When no variable is named with underscores only, both rules list the same variables. |
| DirectoryEnumerationFix.ChooseFix | IntelliTect.Analyzer/IntelliTect.Analyzer.CodeFixes/FavorDirectoryEnumerationCalls.cs:44-46 | INTL0301 chooses `EnumerateFiles`, anything else `EnumerateDirectories`. The title is "Use Directory." and the method name. |
| DirectoryEnumerationFix.TitlesNameTheMethods | IntelliTect.Analyzer/IntelliTect.Analyzer.CodeFixes/FavorDirectoryEnumerationCalls.cs:20-21 | Each title is `Use Directory.` followed by the method it switches to, and the two method names differ. |
| DirectoryEnumerationFix.AddUsingIfMissing | IntelliTect.Analyzer/IntelliTect.Analyzer.CodeFixes/FavorDirectoryEnumerationCalls.cs:191-205 | An existing using of that exact name leaves the list unchanged. Otherwise one using is appended at the end. Either way the using is present afterwards. |
| DirectoryEnumerationFix.AddUsingIdempotent | IntelliTect.Analyzer/IntelliTect.Analyzer.CodeFixes/FavorDirectoryEnumerationCalls.cs:191-205 | Adding a using twice is adding it once. |
| DirectoryEnumerationFix.AddUsingKeepsExisting | IntelliTect.Analyzer/IntelliTect.Analyzer.CodeFixes/FavorDirectoryEnumerationCalls.cs:199-204 | Existing usings keep their order; at most one directive is added. |
| DirectoryEnumerationFix.FirstNamed | IntelliTect.Analyzer/IntelliTect.Analyzer.CodeFixes/FavorDirectoryEnumerationCalls.cs:166-170 | A named argument maps to the first parameter of that name, or to none. |
| DirectoryEnumerationFix.ResolveParameter | IntelliTect.Analyzer/IntelliTect.Analyzer.CodeFixes/FavorDirectoryEnumerationCalls.cs:158-179 | With a name, it maps as FirstNamed. A position below the parameter count maps to that parameter. Past the end it maps only to a trailing `params` parameter. |
| DirectoryEnumerationFix.NeedsToArrayWrapper | IntelliTect.Analyzer/IntelliTect.Analyzer.CodeFixes/FavorDirectoryEnumerationCalls.cs:90-189 | An array variable, property or assignment target, a return or arrow body of a member returning an array, or an argument whose resolved parameter is an array needs `.ToArray()`; any other context does not. |
| DirectoryEnumerationFix.EnclosingReturnsArray | IntelliTect.Analyzer/IntelliTect.Analyzer.CodeFixes/FavorDirectoryEnumerationCalls.cs:124-139 | A return takes the array-ness of the nearest enclosing method or local function, skipping lambdas. There is none outside any declaration. |
| DirectoryEnumerationFix.ReturnSkipsLambdas | IntelliTect.Analyzer/IntelliTect.Analyzer.CodeFixes/FavorDirectoryEnumerationCalls.cs:124-139 | A return inside lambdas needs the wrapper exactly when the enclosing method returns an array. |
| DirectoryEnumerationFix.UnlistedContextsNeedNoWrapper | IntelliTect.Analyzer/IntelliTect.Analyzer.CodeFixes/FavorDirectoryEnumerationCalls.cs:188 | Every context outside the listed cases gets no `.ToArray()`. |
| DirectoryEnumerationFix.ArgumentExamples | IntelliTect.Analyzer/IntelliTect.Analyzer.CodeFixes/FavorDirectoryEnumerationCalls.cs:158-186 | A positional argument past the end goes to a `params` array parameter; against a non-`params` last parameter it needs no wrapper; a named one finds its parameter. |
| DirectoryEnumerationFix.UseEnumerationMethod | IntelliTect.Analyzer/IntelliTect.Analyzer.CodeFixes/FavorDirectoryEnumerationCalls.cs:56-88 | A call that is not a member access fails the cast. Otherwise the method is renamed, and it is wrapped in `.ToArray()` exactly when NeedsToArrayWrapper holds. With the wrapper the usings are exactly AddUsingIfMissing of `System.Linq`; without it they are unchanged. |
| DirectoryEnumerationFix.ArrayLocalExample | IntelliTect.Analyzer/IntelliTect.Analyzer.CodeFixes/FavorDirectoryEnumerationCalls.cs:98-114 | `string[] files = Directory.GetFiles(...)` gets `.ToArray()` and `using System.Linq;` at the end. |
| DiagnosticResults.NewLocation | IntelliTect.Analyzer/IntelliTect.Analyzer.Test/Helpers/DiagnosticResult.cs:13-25 | A line or column below -1 throws ArgumentOutOfRangeException naming it (`line` first); -1 is allowed. The stored fields are the arguments. |
| DiagnosticResults.NewLocationExamples | IntelliTect.Analyzer/IntelliTect.Analyzer.Test/Helpers/DiagnosticResult.cs:13-25 | `("Test0.cs", 15, 20)` is kept; -1/-1 is allowed; a line of -2 or a column of -2 is refused by name. |
| DiagnosticResults.FirstPath | IntelliTect.Analyzer/IntelliTect.Analyzer.Test/Helpers/DiagnosticResult.cs:64 | The first location's path, or `""`. |
| DiagnosticResults.FirstLine | IntelliTect.Analyzer/IntelliTect.Analyzer.Test/Helpers/DiagnosticResult.cs:66 | The first location's line, or -1. |
| DiagnosticResults.FirstColumn | IntelliTect.Analyzer/IntelliTect.Analyzer.Test/Helpers/DiagnosticResult.cs:68 | The first location's column, or -1. |
| DiagnosticResults.FirstLineAndColumnInRange | IntelliTect.Analyzer/IntelliTect.Analyzer.Test/Helpers/DiagnosticResult.cs:13-25 | A first location built by the constructor gives Line and Column ≥ -1 and its own Path. |
| DiagnosticResults.DiagnosticResult.constructor | IntelliTect.Analyzer/IntelliTect.Analyzer.Test/Helpers/DiagnosticResult.cs:44-48 | A fresh result has a null backing field. |
| DiagnosticResults.DiagnosticResult.GetLocations | IntelliTect.Analyzer/IntelliTect.Analyzer.Test/Helpers/DiagnosticResult.cs:44-48 | The getter never returns null. It stores an empty array when the field is null and returns what is stored. |
| DiagnosticResults.DiagnosticResult.SetLocations | IntelliTect.Analyzer/IntelliTect.Analyzer.Test/Helpers/DiagnosticResult.cs:50-53 | The setter stores its value unchanged, null included. |
| DiagnosticResults.DiagnosticResult.Path | IntelliTect.Analyzer/IntelliTect.Analyzer.Test/Helpers/DiagnosticResult.cs:64 | Path is FirstPath of the locations, read through the getter. |
| DiagnosticResults.DiagnosticResult.Line | IntelliTect.Analyzer/IntelliTect.Analyzer.Test/Helpers/DiagnosticResult.cs:66 | Line is FirstLine of the locations, read through the getter. |
| DiagnosticResults.DiagnosticResult.Column | IntelliTect.Analyzer/IntelliTect.Analyzer.Test/Helpers/DiagnosticResult.cs:68 | Column is FirstColumn of the locations, read through the getter. |
| DiagnosticResults.ReadTwice | IntelliTect.Analyzer/IntelliTect.Analyzer.Test/Helpers/DiagnosticResult.cs:44-48 | Two reads of Locations return the same value, which stays stored. |
| DiagnosticResults.FreshResultDefaults | IntelliTect.Analyzer/IntelliTect.Analyzer.Test/Helpers/DiagnosticResult.cs:44-68 | A fresh result reads as no locations, Path `""`, Line -1 and Column -1. |
| MdText.Wrap | XMLtoMD/MarkdownOut/MdText.cs:109-119 | The marker of each style; only MdStyle.None has the empty marker. |
| MdText.Style | XMLtoMD/MarkdownOut/MdText.cs:109-121 | The marker, the text and the marker: the length grows by twice the marker's length. |
| MdText.WrapMarkers | XMLtoMD/MarkdownOut/MdText.cs:109-121 | The markers are `""`, `*`, `**`, `***`, a backtick and `~~`. |
| MdText.StyleNoneIsIdentity | XMLtoMD/MarkdownOut/MdText.cs:112 | Style None is the identity. |
| MdText.UnstyleStyle | XMLtoMD/MarkdownOut/MdText.cs:109-121 | Stripping the marker from both sides gives the text back. |
| MdText.RemoveInvalidLinkCharacters | XMLtoMD/MarkdownOut/MdText.cs:151-154 | The result has no `/`, and every other character of the text is kept. |
| MdText.Format | XMLtoMD/MarkdownOut/MdText.cs:132-149 | A prefix before the text, or for InternalLink `[text](#anchor)`. |
| MdText.HeadingPrefixes | XMLtoMD/MarkdownOut/MdText.cs:136-141 | Heading n prefixes n `#` and a space. |
| MdText.FormatNoneIsIdentity | XMLtoMD/MarkdownOut/MdText.cs:135 | Format None is the identity. |
| MdText.AnchorIsClean | XMLtoMD/MarkdownOut/MdText.cs:145 | An internal link's anchor has no slash and no upper-case letter. |
| MdText.InternalLinkExample | XMLtoMD/MarkdownOut/MdText.cs:145 | `A/B` links to `#ab`. |
| MdText.StyleAndFormat | XMLtoMD/MarkdownOut/MdText.cs:164-166 | The format's prefix followed by the styled text. An internal link instead wraps the styled text in a link to its anchor. |
| MdText.Spaces | XMLtoMD/MarkdownOut/MdText.cs:100 | n space characters. |
| MdText.Indent | XMLtoMD/MarkdownOut/MdText.cs:177-184 | The loop prepends five spaces per level (none for a negative indent) and keeps the text. |
| MdText.Cleanse | XMLtoMD/MarkdownOut/MdText.cs:197-214 | The replacement chain equals the one-pass normalisation (Normalized): tabs become four spaces, and every newline becomes the chosen one. |
| MdText.CleanseIsNormalized | XMLtoMD/MarkdownOut/MdText.cs:197-214 | The tab replacement followed by the three newline replacements is the one-pass normalisation. |
| MdText.NormalizedIsCrlfOnly | XMLtoMD/MarkdownOut/MdText.cs:206-214 | With a CRLF-only newline, every `\r` of the output is followed by `\n`, and every `\n` preceded by `\r`. |
| MdText.NormalizedHasNoTab | XMLtoMD/MarkdownOut/MdText.cs:199 | The output has no tab. |
| MdText.NormalizedPlainPrefix | XMLtoMD/MarkdownOut/MdText.cs:197-214 | A prefix without tab or newline passes through unchanged. |
| MdText.NormalizedIdempotent | XMLtoMD/MarkdownOut/MdText.cs:206-214 | With Windows newlines, normalising twice is normalising once. |
| MdText.CleanseProperties | XMLtoMD/MarkdownOut/MdText.cs:197-214 | Cleanse output has no tab and only CRLF newlines. Without Markdown breaks, Cleanse is idempotent. |
| MdText.CleanseTabExample | XMLtoMD/MarkdownOut/MdText.cs:197-214 | A tab becomes four spaces. |
| MdText.CleanseNewlineExample | XMLtoMD/MarkdownOut/MdText.cs:197-214 | A lone `\r` and a lone `\n` each become `\r\n`. |
| MdText.CleanseLineBreakExample | XMLtoMD/MarkdownOut/MdText.cs:197-214 | With Markdown line breaks, `\r\n` becomes `"  \r\n"`. |
| MdExtensions.StyleSubstring | XMLtoMD/GuidelineXmlToMD/MarkdownOut/MdExtensions.cs:19-33 | It fails iff replacing all occurrences of an empty substring; `Replace` then throws for `oldValue`. Otherwise all occurrences are styled, or only the first (IndexOf's), with the text around it kept. An absent substring leaves the text unchanged. |
| MdExtensions.FirstOnlyStylesFirstOccurrence | XMLtoMD/GuidelineXmlToMD/MarkdownOut/MdExtensions.cs:28-33 | With firstOnly, the earliest occurrence is the one styled. |
| MdExtensions.AbsentSubstringUnchanged | XMLtoMD/GuidelineXmlToMD/MarkdownOut/MdExtensions.cs:19-31 | A substring that does not occur leaves the string unchanged, in both modes. |
| MdExtensions.NoneStyleUnchanged | XMLtoMD/GuidelineXmlToMD/MarkdownOut/MdExtensions.cs:26-32 | MdStyle.None leaves the string unchanged, in both modes. |
| ToolsMdExtensions.StyleSubstringAsWritten | Tools/XMLtoMD/GuidelineXmlToMD/MarkdownOut/MdExtensions.cs:26-44 | As written: an empty str or substring throws ArgumentException naming `str`. Otherwise it behaves as the XMLtoMD copy. |
| ToolsMdExtensions.AsWrittenBlamesStr | Tools/XMLtoMD/GuidelineXmlToMD/MarkdownOut/MdExtensions.cs:31-34 | `("text", "")` is refused in the name of `str`, which is not empty. |
| ToolsMdExtensions.StyleSubstring | Tools/XMLtoMD/GuidelineXmlToMD/MarkdownOut/MdExtensions.cs:26-44 | It fails iff str or substring is empty. The ArgumentException names `str` when str is empty and `substring` otherwise. On success it behaves as the XMLtoMD copy. |
| ToolsMdExtensions.AgreesWithXmlToMdCopy | Tools/XMLtoMD/GuidelineXmlToMD/MarkdownOut/MdExtensions.cs:36-44 | On accepted arguments, both Tools versions and the XMLtoMD copy agree and succeed. |
| ToolsMdExtensions.StyleAllExample | Tools/XMLtoMD/GuidelineXmlToMD/MarkdownOut/MdExtensions.cs:36-38 | Styling all of `ab` bold gives `**ab**`. |
| MarkdownWriter.Repeat | Tools/XMLtoMD/GuidelineXmlToMD/MarkdownOut/MdWriter.cs:140-148 | n copies of a string have n times its length. |
| MarkdownWriter.RepeatBlocks | Tools/XMLtoMD/GuidelineXmlToMD/MarkdownOut/MdWriter.cs:140-148 | Every k-th block of a repetition is the string. |
| MarkdownWriter.MakeParagraphLineBreak | Tools/XMLtoMD/GuidelineXmlToMD/MarkdownOut/MdWriter.cs:140-148 | The loop gives one ParagraphBreakOneLine per newline, and nothing for n ≤ 0. |
| MarkdownWriter.Digit | Tools/XMLtoMD/GuidelineXmlToMD/MarkdownOut/MdWriter.cs:171 | A decimal digit with the given value. |
| MarkdownWriter.NatToString | Tools/XMLtoMD/GuidelineXmlToMD/MarkdownOut/MdWriter.cs:171 | The item number's text is non-empty, made of digits only, and has no leading zero for a positive number. |
| MarkdownWriter.ItemNumberText | Tools/XMLtoMD/GuidelineXmlToMD/MarkdownOut/MdWriter.cs:169-173 | A non-negative item number is written as its decimal digits, which read back as the number; a negative one leaves the default `1`. |
| MarkdownWriter.NatToStringRoundTrip | Tools/XMLtoMD/GuidelineXmlToMD/MarkdownOut/MdWriter.cs:171 | Reading the digits back gives the number. |
| MarkdownWriter.MdWriter.constructor | Tools/XMLtoMD/GuidelineXmlToMD/MarkdownOut/MdWriter.cs:35-55 | A new writer has an empty stream and is not disposed. |
| MarkdownWriter.MdWriter.Dispose | Tools/XMLtoMD/GuidelineXmlToMD/MarkdownOut/MdWriter.cs:35-55 | The first call releases the stream once and marks the writer disposed; later calls change nothing. |
| MarkdownWriter.MdWriter.Append | Tools/XMLtoMD/GuidelineXmlToMD/MarkdownOut/MdWriter.cs:75 | A disposed stream throws ObjectDisposedException and keeps its content. Otherwise the text is appended. |
| MarkdownWriter.MdWriter.Write | Tools/XMLtoMD/GuidelineXmlToMD/MarkdownOut/MdWriter.cs:72-76 | Appends exactly Cleanse(StyleAndFormat(text, style, format), useMdLineBreaks). Earlier output is unchanged. |
| MarkdownWriter.MdWriter.WriteLine | Tools/XMLtoMD/GuidelineXmlToMD/MarkdownOut/MdWriter.cs:91-95 | Appends the cleansed text and then numNewLines paragraph breaks. |
| MarkdownWriter.MdWriter.WriteLineSingle | Tools/XMLtoMD/GuidelineXmlToMD/MarkdownOut/MdWriter.cs:112-116 | Appends the cleansed text and then LineBreak. |
| MarkdownWriter.MdWriter.WriteUnorderedListItem | Tools/XMLtoMD/GuidelineXmlToMD/MarkdownOut/MdWriter.cs:131-138 | Appends the format, then style with `- `, then the indent, cleansed with Markdown breaks. Then come the paragraph breaks. |
| MarkdownWriter.MdWriter.WriteOrderedListItem | Tools/XMLtoMD/GuidelineXmlToMD/MarkdownOut/MdWriter.cs:166-175 | Appends the indent, then the item number (1 when negative), `. ` and the styled text, cleansed with Markdown breaks. Then comes ParagraphBreak. |
| MarkdownWriter.UnorderedListItemText | Tools/XMLtoMD/GuidelineXmlToMD/MarkdownOut/MdWriter.cs:131-138 | The indent, `- ` and the styled, formatted text, cleansed with Markdown line breaks. |
| MarkdownWriter.OrderedListItemText | Tools/XMLtoMD/GuidelineXmlToMD/MarkdownOut/MdWriter.cs:166-175 | The indent, the item number, `. ` and the styled text, cleansed with Markdown line breaks. |
| MarkdownWriter.UnorderedListItemShape | Tools/XMLtoMD/GuidelineXmlToMD/MarkdownOut/MdWriter.cs:131-138 | An unordered item is the indent spaces, `- `, then the cleansed styled and formatted text. |
| MarkdownWriter.OrderedListItemShape | Tools/XMLtoMD/GuidelineXmlToMD/MarkdownOut/MdWriter.cs:166-175 | An ordered item is the indent spaces, its number, `. `, and the cleansed styled text. |
| MarkdownWriter.ItemNumberExamples | Tools/XMLtoMD/GuidelineXmlToMD/MarkdownOut/MdWriter.cs:170-171 | Item 12 starts `12`; -3 and 1 start `1`. |
| MarkdownWriter.WriteTwice | Tools/XMLtoMD/GuidelineXmlToMD/MarkdownOut/MdWriter.cs:72-76 | Two writes append both texts in order; what was written before is unchanged. |
| MarkdownWriter.PlainWrite | Tools/XMLtoMD/GuidelineXmlToMD/MarkdownOut/MdWriter.cs:72-76 | With no style and no format, Write passes the text to Cleanse unchanged. |
| MarkdownWriter.NumberedItem | Tools/XMLtoMD/GuidelineXmlToMD/MarkdownOut/MdWriter.cs:166-175 | Putting a non-negative number other than the default in place of the leading `1` gives that number, `. ` and the styled text. Otherwise the `1. ` item is kept. |
| GuidelineProgram.Sections | XMLtoMD/GuidelineXmlToMD/Program.cs:155 | The sections of the guidelines, one per guideline, in order. |
| GuidelineProgram.Subsections | XMLtoMD/GuidelineXmlToMD/Program.cs:163 | The subsections of the guidelines, one per guideline, in order. |
| GuidelineProgram.GetSections | XMLtoMD/GuidelineXmlToMD/Program.cs:152-158 | Strictly ascending and without duplicates. It holds every guideline's section and nothing else. |
| GuidelineProgram.GetSubSections | XMLtoMD/GuidelineXmlToMD/Program.cs:160-166 | The same, over subsections. |
| GuidelineProgram.GetSectionsCanonical | XMLtoMD/GuidelineXmlToMD/Program.cs:152-158 | Any strictly ascending list of exactly the sections is GetSections. |
| GuidelineProgram.GetSubSectionsCanonical | XMLtoMD/GuidelineXmlToMD/Program.cs:160-166 | Any strictly ascending list of exactly the subsections is GetSubSections. |
| GuidelineProgram.GetSectionsOrderIndependent | XMLtoMD/GuidelineXmlToMD/Program.cs:152-158 | Reordering or repeating guidelines does not change the section list. |
| GuidelineProgram.GetGuidelineEmoji | XMLtoMD/GuidelineXmlToMD/Program.cs:98-120 | The four mappings. The result is empty iff the severity is none of the four, matched exactly. |
| GuidelineProgram.EmojiTable | XMLtoMD/GuidelineXmlToMD/Program.cs:98-120 | Two severities with the same non-empty emoji are equal. |
| GuidelineProgram.EmojiIsCaseSensitive | XMLtoMD/GuidelineXmlToMD/Program.cs:98-120 | `Do`, `avoid` and `Do Not` get no emoji, though `Do` equals `DO` ignoring case. |
| GuidelineProgram.ListItemText | XMLtoMD/GuidelineXmlToMD/Program.cs:89 | The emoji, a space, then the text with its leading and trailing `"` removed. |
| GuidelineProgram.GuidelinesInSection | XMLtoMD/GuidelineXmlToMD/Program.cs:71-74 | Exactly the guidelines whose section equals the given one, ignoring case. |
| GuidelineProgram.GuidelinesInSubsection | XMLtoMD/GuidelineXmlToMD/Program.cs:76-80 | Of those, exactly the ones whose subsection equals the given one, ignoring case. |
| GuidelineProgram.SectionSubSections | XMLtoMD/GuidelineXmlToMD/Program.cs:139-141 | Strictly ascending. It holds the subsection of every guideline of the section (ignoring case), and nothing else. |
| GuidelineProgram.SectionSubSectionsAreSubSections | XMLtoMD/GuidelineXmlToMD/Program.cs:139-141 | A section's contents list names only subsections that GetSubSections has. |
| GuidelineProgram.ListItems | XMLtoMD/GuidelineXmlToMD/Program.cs:87-90 | One list item per guideline, in order. |
| GuidelineProgram.SubsectionGroups | XMLtoMD/GuidelineXmlToMD/Program.cs:76-91 | At most one group per subsection in the list. |
| GuidelineProgram.SubsectionGroupsInListOrder | XMLtoMD/GuidelineXmlToMD/Program.cs:76-91 | The group headings are a subsequence of the subsection list: the groups come in the list's order. |
| GuidelineProgram.MatchingGroupLists | XMLtoMD/GuidelineXmlToMD/Program.cs:78-90 | A guideline of the section is in every group whose subsection equals its own ignoring case. |
| GuidelineProgram.SubsectionGroupsSound | XMLtoMD/GuidelineXmlToMD/Program.cs:76-91 | Every group is a listed subsection that has guidelines. It holds exactly their items, in order, and is never empty. |
| GuidelineProgram.SubsectionGroupsComplete | XMLtoMD/GuidelineXmlToMD/Program.cs:76-91 | Every listed subsection that has a guideline in the section gets a group. |
| GuidelineProgram.Listing | XMLtoMD/GuidelineXmlToMD/Program.cs:65-91 | One listing per section in the list. |
| GuidelineProgram.BySection | XMLtoMD/GuidelineXmlToMD/Program.cs:60-96 | One listing per section of GetSections, in that order, each grouped over all of GetSubSections. |
| GuidelineProgram.ListingLists | XMLtoMD/GuidelineXmlToMD/Program.cs:65-91 | A guideline whose section and subsection are in the lists is listed under them. |
| GuidelineProgram.ListingOnlyMatching | XMLtoMD/GuidelineXmlToMD/Program.cs:71-91 | Every item listed under a section and subsection comes from a guideline matching both, ignoring case. |
| GuidelineProgram.HeadingsOf | XMLtoMD/GuidelineXmlToMD/Program.cs:65-76 | A guideline's section and subsection are among the headings that are walked. |
| GuidelineProgram.GroupLists | XMLtoMD/GuidelineXmlToMD/Program.cs:76-91 | A guideline of the section lands in its subsection's group. |
| GuidelineProgram.EveryGuidelineListed | XMLtoMD/GuidelineXmlToMD/Program.cs:60-96 | Every guideline's item is listed under its own section and subsection. |
| GuidelineProgram.ListedInMatchingGroup | XMLtoMD/GuidelineXmlToMD/Program.cs:65-91 | A guideline's item is in every group whose section heading and subsection heading equal its own, ignoring case. |
| GuidelineProgram.ListedUnderCaseVariants | XMLtoMD/GuidelineXmlToMD/Program.cs:65-91 | For every section heading and every subsection of GetSubSections that equal a guideline's own ignoring case, that pair has a group listing the guideline's item. |
| GuidelineProgram.BySectionGroupsOrdered | XMLtoMD/GuidelineXmlToMD/Program.cs:65-91 | Within each section the groups follow GetSubSections: ascending, each subsection at most once. |
| GuidelineProgram.OnlyMatchingListed | XMLtoMD/GuidelineXmlToMD/Program.cs:71-91 | Every listed item comes from a guideline matching the section and subsection, ignoring case. |
| GuidelineProgram.CaseVariantsListedTwice | XMLtoMD/GuidelineXmlToMD/Program.cs:65-73 | Two guidelines in sections `Naming` and `naming` give two separate section headings, and each heading's case-insensitive filter selects both guidelines. |
| GuidelineProgram.CaseVariantSections | XMLtoMD/GuidelineXmlToMD/Program.cs:65 | Sections `Naming` and `naming` are both headings, in ordinal order. |
| GuidelineProgram.CaseVariantFilters | XMLtoMD/GuidelineXmlToMD/Program.cs:71-73 | Either spelling of the section selects the guidelines of both. |

## Left out

- Roslyn itself is not modelled. Symbol flags, attribute lines, data-flow sets, syntax ancestors and parameter lists are inputs. The same holds for:
  - analyzer registration, code-fix registration and token lookup;
  - renaming and document rewriting.
- Concurrent analyzer execution is not modelled.
- The legacy AsyncVoid analyzer and fix are not modelled: one conjunction of two Roslyn flags, and a tree replacement.
- These are not modelled: FavorEnumeratorDirectoryCalls, FavorEnumerateFiles (which only throws), BanImplicitDateTimeToDateTimeOffsetConversion (which registers nothing), the legacy unused-local code fix (one node removal), and SymbolUsageAnalysisExtensions.
- DiagnosticUrlBuilder is not part of this model.
- Character classes and case mapping are ASCII. `char.IsUpper`, `ToUpper` and `ToLowerInvariant` have no Unicode tables here.
- `StringComparison.OrdinalIgnoreCase`, which the section and subsection filters of Program.cs use, is modelled by EqualsIgnoreCase: same length and equal characters after ASCII upper-casing.
- Culture-sensitive comparisons are modelled as ordinal:
  - `IndexOf` in the XMLtoMD `StyleSubstring`;
  - the default string comparer of `OrderBy` in `GetSections`.
- Null strings are not modelled, nor MdStyle/MdFormat values outside their named members.
- Generated-code detection by file comment is left to the host: only the GeneratedCode attribute is modelled.
- AttributesOnSeparateLines.AnalyzeSymbol requires every reported attribute to have a resolved class. For one whose class is unresolved, the source would throw NullReferenceException on `AttributeClass.Name`.
- AttributesOnSeparateLines.AnalyzeSymbol: the dictionary's values are stated only as an attribute on that line, not as the first one.
- LegacyAttributesOnSeparateLines.AnalyzeSymbol has the same two limits.
- LegacyUnusedLocalVariable.AnalyzeMethod: the method body is always present. The legacy rule passes it straight to the data-flow analysis.
- DirectoryEnumerationFix.UseEnumerationMethod produces the new call's name, the wrapper decision and the usings, not the rewritten syntax tree.
- INTL0301 and INTL0302, the ids of the directory-enumeration rules, are taken from their tests: the analyzer that declares them is not part of this model.
- DiagnosticResult is a struct in the source and a class here. Its locations are a sequence, not an array. Its Severity, Id and Message auto-properties are left out.
- MdWriter writes to an in-memory buffer instead of a file stream, and the path constructor opens no file.
- `MdText.ParagraphBreakOneLine` is a constructor argument of MdWriter. The XMLtoMD copy of MdText.cs, which this model follows, does not define it.
- The Tools copies of MdWriter and of MdExtensions compile against the Tools copy of MdText, which is not part of this model. MarkdownWriter and ToolsMdExtensions use the XMLtoMD copy of MdText, assumed to behave the same.
- The current tree's `IsNativeMethodsClass` extension is not part of this model. Both trees' analyzers use the legacy definition of IntelliTectAnalyzer/IntelliTectAnalyzer/SymbolMixins.cs, assumed to be the same.
- LegacyAttributesCodeFix.PutOnSeparateLine loses each list's target specifier, as the source does: `[return: A, B]` becomes `[A][B]`, which applies the attributes to the method. It also drops the comments and other trivia on the old lists' brackets, among them a doc comment in front of the declaration; the formatter annotation only adds whitespace back. The model states both losses and corrects neither. Trivia is modelled per list, not per token.
- C# default arguments are not modelled: every parameter is passed explicitly. The source's defaults are `style = MdStyle.None`, `format = MdFormat.None` and `useMdLineBreaks = true` on Write, WriteLine and WriteLineSingle; `numNewLines = 2` on WriteLine and `1` on WriteUnorderedListItem; `listIndent = 0` and `itemNumber = 1` on the list items; and `firstOnly = false` on both StyleSubstring copies.
- `GC.SuppressFinalize` and the native-resource part of Dispose are not modelled.
- `Program.Main`, the XML readers (GuidelineXmlFileReader, both copies) and all file and console output are left out. The grouping PrintSections and PrintGuidelinesBySection write is modelled as SectionSubSections and BySection, without:
  - the headings' Markdown;
  - the blank line written after each subsection.
- Guideline's Equals compares Key while GetHashCode uses Subsection, so HashSet deduplication depends on runtime hashing. Guideline is a plain value here, and Equals and GetHashCode are not modelled.

## Findings

| source | as written | input that shows it | evidently intended | confidence | as-written member | corrected member |
|---|---|---|---|---|---|---|
| Tools/XMLtoMD/GuidelineXmlToMD/MarkdownOut/MdExtensions.cs:31-34 | The empty-substring check throws ArgumentException with `nameof(str)` | str `"text"`, substring `""`: the exception names `str`, which is not empty | the exception names `substring` | not executed | ToolsMdExtensions.AsWrittenBlamesStr | ToolsMdExtensions.StyleSubstring |
| IntelliTectAnalyzer/IntelliTectAnalyzer/Analyzers/AttributesOnSeparateLines.cs:12 | The legacy attribute rule declares id INTL0003, which the legacy NamingMethodPascal rule also declares | `[A][B]` on one line and a method `myMethod`: both reports carry INTL0003 | INTL0101, the id the rule's own test expects (AttributesOnSeparateLinesTests.cs:312) and the current rule declares | not executed | LegacyAttributesOnSeparateLines.AsWrittenClashesWithMethodRule | LegacyAttributesOnSeparateLines.AnalyzeSymbolIntended |
