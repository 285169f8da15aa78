/**
  Casing.IsPascalCase: a scan with an `isFirst` flag and early returns. The first
  character must be upper-case, and every character must be upper-case, lower-case
  or a digit. The empty name passes because the loop never runs.
 */
module Casing {
  import opened Chars

  /** The closed form of what the scan accepts. */
  predicate PascalCase(name: string)
  {
    name == [] || (IsUpper(name[0]) && forall i | 0 <= i < |name| :: IsLetterOrDigit(name[i]))
  }

  method IsPascalCase(name: string) returns (b: bool)
    ensures b == PascalCase(name)
  {
    var isFirst := true;
    var i := 0;
    while i < |name|
      invariant 0 <= i <= |name|
      invariant isFirst <==> i == 0
      invariant i > 0 ==> IsUpper(name[0])
      invariant forall k | 0 <= k < i :: IsLetterOrDigit(name[k])
    {
      var character := name[i];
      if isFirst && !IsUpper(character) {
        return false;
      }
      isFirst := false;
      if IsUpper(character) || IsLower(character) || IsNumber(character) {
        i := i + 1;
        continue;
      }
      return false;
    }
    return true;
  }

  /** The empty name is PascalCase. */
  lemma EmptyIsPascalCase()
    ensures PascalCase("")
  {
  }

  /** A first character that is not upper-case rejects the name. */
  lemma LowerFirstRejected(name: string)
    requires name != [] && !IsUpper(name[0])
    ensures !PascalCase(name)
  {
  }

  /** Any character outside letters and digits, wherever it is, rejects the name. */
  lemma NonAlphanumericRejected(name: string, i: nat)
    requires i < |name| && !IsLetterOrDigit(name[i])
    ensures !PascalCase(name)
  {
  }

  /** The name `_` and anything containing `_` are not PascalCase. */
  lemma UnderscoreRejected(name: string)
    requires '_' in name
    ensures !PascalCase(name)
  {
    var i :| 0 <= i < |name| && name[i] == '_';
    NonAlphanumericRejected(name, i);
  }

  /** Digits after the first character are accepted. */
  lemma DigitsAccepted()
    ensures PascalCase("Field1") && PascalCase("A2B3")
  {
  }
}
