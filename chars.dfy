/**
  Character classes and case mappings used by the analyzers and the Markdown tool.
  .NET's char.IsUpper, char.IsLower, char.IsNumber, char.ToUpper and ToLowerInvariant
  consult the Unicode tables; this model restricts them to ASCII.
 */
module Chars {

  predicate IsUpper(c: char) { 'A' <= c <= 'Z' }

  predicate IsLower(c: char) { 'a' <= c <= 'z' }

  predicate IsNumber(c: char) { '0' <= c <= '9' }

  /** The characters IsPascalCase accepts after the first one. */
  predicate IsLetterOrDigit(c: char) { IsUpper(c) || IsLower(c) || IsNumber(c) }

  function ToUpper(c: char): (r: char)
    ensures IsLower(c) ==> IsUpper(r) && r as int == c as int - 32
    ensures !IsLower(c) ==> r == c
    ensures IsUpper(r) <==> IsUpper(c) || IsLower(c)
  {
    if IsLower(c) then (c as int - 32) as char else c
  }

  function ToLower(c: char): (r: char)
    ensures IsUpper(c) ==> IsLower(r) && r as int == c as int + 32
    ensures !IsUpper(c) ==> r == c
    ensures IsLower(r) <==> IsUpper(c) || IsLower(c)
  {
    if IsUpper(c) then (c as int + 32) as char else c
  }

  lemma ToUpperIdempotent(c: char)
    ensures ToUpper(ToUpper(c)) == ToUpper(c)
  {
  }

  /** String.ToLowerInvariant, character by character. */
  function ToLowerString(s: string): (r: string)
    ensures |r| == |s|
    ensures forall i | 0 <= i < |s| :: r[i] == ToLower(s[i])
  {
    if s == [] then [] else [ToLower(s[0])] + ToLowerString(s[1..])
  }

  /** StringComparison.OrdinalIgnoreCase: same length, and equal characters after upper-casing. */
  predicate EqualsIgnoreCase(a: string, b: string)
  {
    |a| == |b| && forall i | 0 <= i < |a| :: ToUpper(a[i]) == ToUpper(b[i])
  }
}
