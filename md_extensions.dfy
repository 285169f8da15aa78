/**
  MdExtensions.StyleSubstring in the XMLtoMD copy: style every occurrence of a
  substring, or only the first. An empty substring makes String.Replace throw;
  with `firstOnly` it occurs at index 0 instead.
 */
module MdExtensions {
  import opened Wrappers
  import opened Strings
  import opened MdText

  function StyleSubstring(str: string, substring: string, style: MdStyle, firstOnly: bool): (r: Result<string>)
    ensures r.Failure? <==> !firstOnly && substring == []
    ensures r.Failure? ==> r.error == ArgumentException("oldValue")
    ensures !firstOnly && substring != [] ==> r == Success(ReplaceAll(str, substring, Style(substring, style)))
    ensures firstOnly && (forall q :: !IsOccurrence(str, substring, q)) ==> r == Success(str)
    ensures firstOnly && IsOccurrence(str, substring, IndexOf(str, substring)) ==>
      var pos := IndexOf(str, substring);
      r == Success(str[..pos] + Style(substring, style) + str[pos + |substring|..])
  {
    if !firstOnly then
      if substring == [] then Failure(ArgumentException("oldValue"))
      else Success(ReplaceAll(str, substring, Style(substring, style)))
    else
      var pos := IndexOf(str, substring);
      if pos < 0 then Success(str)
      else Success(str[..pos] + Style(substring, style) + str[pos + |substring|..])
  }

  /** The first occurrence is styled: it is the one IndexOf finds, and no earlier one exists. */
  lemma FirstOnlyStylesFirstOccurrence(str: string, substring: string, style: MdStyle, pos: nat)
    requires IsOccurrence(str, substring, pos)
    requires forall q | 0 <= q < pos :: !IsOccurrence(str, substring, q)
    ensures StyleSubstring(str, substring, style, true)
         == Success(str[..pos] + Style(substring, style) + str[pos + |substring|..])
  {
    var k := IndexOf(str, substring);
    assert k != -1;
    assert !(k < pos) && !(pos < k);
  }

  /** A substring that does not occur leaves the string unchanged, in both modes. */
  lemma AbsentSubstringUnchanged(str: string, substring: string, style: MdStyle, firstOnly: bool)
    requires substring != []
    requires forall q :: !IsOccurrence(str, substring, q)
    ensures StyleSubstring(str, substring, style, firstOnly) == Success(str)
  {
    ReplaceAllAbsent(str, substring, Style(substring, style));
  }

  /** With MdStyle.None nothing changes, in both modes. */
  lemma NoneStyleUnchanged(str: string, substring: string, firstOnly: bool)
    requires substring != []
    ensures StyleSubstring(str, substring, MdStyle.None, firstOnly) == Success(str)
  {
    StyleNoneIsIdentity(substring);
    if !firstOnly {
      ReplaceAllSame(str, substring);
    } else {
      var pos := IndexOf(str, substring);
      if pos >= 0 {
        SpliceOccurrence(str, substring, pos);
      }
    }
  }

  /** Putting an occurrence back where it was gives the string. */
  lemma SpliceOccurrence(str: string, substring: string, pos: int)
    requires IsOccurrence(str, substring, pos)
    ensures str[..pos] + substring + str[pos + |substring|..] == str
  {
    assert str == str[..pos] + str[pos..pos + |substring|] + str[pos + |substring|..];
  }
}

/**
  MdExtensions.StyleSubstring in the Tools copy: the same styling with ordinal
  comparison, after refusing an empty string or an empty substring.
 */
module ToolsMdExtensions {
  import opened Wrappers
  import opened Strings
  import opened MdText
  import MdExtensions

  /** As written: both checks name `str` as the offending parameter. */
  function StyleSubstringAsWritten(str: string, substring: string, style: MdStyle, firstOnly: bool): (r: Result<string>)
    ensures r.Failure? <==> str == [] || substring == []
    ensures r.Failure? ==> r.error == ArgumentException("str")
    ensures r.Success? ==> r == MdExtensions.StyleSubstring(str, substring, style, firstOnly)
  {
    if str == [] then Failure(ArgumentException("str"))
    else if substring == [] then Failure(ArgumentException("str"))
    else MdExtensions.StyleSubstring(str, substring, style, firstOnly)
  }

  /** A non-empty `str` with an empty `substring` is refused in the name of `str`. */
  lemma AsWrittenBlamesStr()
    ensures StyleSubstringAsWritten("text", "", MdStyle.Bold, false) == Failure(ArgumentException("str"))
  {
  }

  /** The paramName that names the argument which is empty. */
  function StyleSubstring(str: string, substring: string, style: MdStyle, firstOnly: bool): (r: Result<string>)
    ensures r.Failure? <==> str == [] || substring == []
    ensures r.Failure? ==> r.error == ArgumentException(if str == [] then "str" else "substring")
    ensures r.Success? ==> r == MdExtensions.StyleSubstring(str, substring, style, firstOnly)
  {
    if str == [] then Failure(ArgumentException("str"))
    else if substring == [] then Failure(ArgumentException("substring"))
    else MdExtensions.StyleSubstring(str, substring, style, firstOnly)
  }

  /** Both copies agree wherever the Tools copy accepts its arguments, and the two Tools versions differ only in the name. */
  lemma AgreesWithXmlToMdCopy(str: string, substring: string, style: MdStyle, firstOnly: bool)
    requires str != [] && substring != []
    ensures StyleSubstring(str, substring, style, firstOnly) == MdExtensions.StyleSubstring(str, substring, style, firstOnly)
    ensures StyleSubstring(str, substring, style, firstOnly).Success?
    ensures StyleSubstringAsWritten(str, substring, style, firstOnly) == StyleSubstring(str, substring, style, firstOnly)
  {
  }

  /** Styling all of `ab` bold gives `**ab**`. */
  lemma StyleAllExample()
    ensures StyleSubstring("ab", "ab", MdStyle.Bold, false) == Success("**ab**")
  {
    assert Style("ab", MdStyle.Bold) == "**ab**" by {
      assert Wrap(MdStyle.Bold) == "**";
      assert "**" + "ab" + "**" == "**ab**";
    }
    assert ReplaceAll("ab", "ab", "**ab**") == "**ab**" by {
      ReplaceAllConsMatch("", "ab", "**ab**");
      assert "ab" + "" == "ab";
    }
  }
}
