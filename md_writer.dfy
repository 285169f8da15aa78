/**
  MarkdownOut's MdWriter (Tools copy). The StreamWriter becomes `output`, the text
  written so far; every Write method styles, formats and cleanses its text and
  appends it. A disposed stream refuses writes with ObjectDisposedException.
 */
module MarkdownWriter {
  import W = Wrappers
  import opened Chars
  import opened Strings
  import opened MdText

  /** `n` copies of `s`. */
  function Repeat(s: string, n: nat): (r: string)
    ensures |r| == n * |s|
  {
    if n == 0 then [] else Repeat(s, n - 1) + s
  }

  /** Every stretch of |s| characters of a repetition is `s`. */
  lemma {:induction false} RepeatBlocks(s: string, n: nat, k: nat)
    requires k < n
    ensures Repeat(s, n)[k * |s|..(k + 1) * |s|] == s
  {
    if k == n - 1 {
      assert Repeat(s, n) == Repeat(s, n - 1) + s;
      assert (n - 1) * |s| == |Repeat(s, n - 1)|;
    } else {
      RepeatBlocks(s, n - 1, k);
      assert Repeat(s, n) == Repeat(s, n - 1) + s;
      assert (k + 1) * |s| <= (n - 1) * |s| by {
        assert k + 1 <= n - 1;
      }
      assert Repeat(s, n)[k * |s|..(k + 1) * |s|] == Repeat(s, n - 1)[k * |s|..(k + 1) * |s|];
    }
  }

  /** MakeParagraphLineBreak: one paragraph break per requested newline; none for n <= 0. */
  method MakeParagraphLineBreak(paragraphBreakOneLine: string, numNewLines: int) returns (breaks: string)
    ensures breaks == Repeat(paragraphBreakOneLine, Depth(numNewLines))
  {
    breaks := "";
    var i := 0;
    while i < numNewLines
      invariant 0 <= i <= Depth(numNewLines)
      invariant breaks == Repeat(paragraphBreakOneLine, i)
    {
      breaks := breaks + paragraphBreakOneLine;
      i := i + 1;
    }
  }

  /** The decimal digit for 0..9. */
  function Digit(d: nat): (c: char)
    requires d < 10
    ensures IsNumber(c) && c as int - '0' as int == d
  {
    ('0' as int + d) as char
  }

  /** Int32.ToString() for a non-negative value: its decimal digits, most significant first. */
  function NatToString(n: nat): (r: string)
    ensures |r| > 0
    ensures forall i | 0 <= i < |r| :: IsNumber(r[i])
    ensures n > 0 ==> r[0] != '0'
    decreases n
  {
    if n < 10 then [Digit(n)] else NatToString(n / 10) + [Digit(n % 10)]
  }

  /** The value of a string of decimal digits. */
  function DecimalValue(s: string): int
    requires forall i | 0 <= i < |s| :: IsNumber(s[i])
  {
    if s == [] then 0 else 10 * DecimalValue(s[..|s| - 1]) + (s[|s| - 1] as int - '0' as int)
  }

  /** Reading the digits back gives the number. */
  lemma {:induction false} NatToStringRoundTrip(n: nat)
    ensures DecimalValue(NatToString(n)) == n
    decreases n
  {
    if n >= 10 {
      var s := NatToString(n);
      NatToStringRoundTrip(n / 10);
      assert s[..|s| - 1] == NatToString(n / 10);
    }
  }

  /** The text an ordered list item starts with: the given number when it is not negative, else 1. */
  function ItemNumberText(itemNumber: int): (r: string)
    ensures itemNumber >= 0 ==> (forall i | 0 <= i < |r| :: IsNumber(r[i])) && DecimalValue(r) == itemNumber
    ensures itemNumber < 0 ==> r == "1"
  {
    if itemNumber >= 0 then
      NatToStringRoundTrip(itemNumber);
      NatToString(itemNumber)
    else "1"
  }

  class MdWriter {
    /** Everything written to the stream so far. */
    var output: string
    var isDisposed: bool
    /** How often the stream was released. */
    var streamDisposals: nat
    /** MdText.ParagraphBreakOneLine, whose value is not part of this model. */
    const paragraphBreakOneLine: string

    /** A released stream was released exactly once, and only a disposed writer has released it. */
    predicate Valid()
      reads this
    {
      streamDisposals == (if isDisposed then 1 else 0)
    }

    /** `new MdWriter(path)`: an empty stream that is not disposed. */
    constructor (paragraphBreakOneLine: string)
      ensures Valid() && output == [] && !isDisposed
      ensures this.paragraphBreakOneLine == paragraphBreakOneLine
    {
      output := [];
      isDisposed := false;
      streamDisposals := 0;
      this.paragraphBreakOneLine := paragraphBreakOneLine;
    }

    /** Dispose: the first call releases the stream and marks the writer disposed; later ones do nothing. */
    method Dispose()
      requires Valid()
      modifies this
      ensures Valid() && isDisposed && output == old(output)
      ensures old(isDisposed) ==> streamDisposals == old(streamDisposals)
      ensures !old(isDisposed) ==> streamDisposals == old(streamDisposals) + 1
    {
      if isDisposed {
        return;
      }
      streamDisposals := streamDisposals + 1;
      isDisposed := true;
    }

    /** Appends `text`, or refuses when the stream is disposed. */
    method Append(text: string) returns (error: W.Option<W.Exception>)
      modifies this
      ensures isDisposed == old(isDisposed) && streamDisposals == old(streamDisposals)
      ensures old(isDisposed) ==> error == W.Some(W.ObjectDisposedException) && output == old(output)
      ensures !old(isDisposed) ==> error == W.None && output == old(output) + text
    {
      if isDisposed {
        return W.Some(W.ObjectDisposedException);
      }
      output := output + text;
      return W.None;
    }

    /** Write: the styled and formatted text, cleansed. */
    method Write(text: string, style: MdStyle, format: MdFormat, useMdLineBreaks: bool) returns (error: W.Option<W.Exception>)
      modifies this
      ensures isDisposed == old(isDisposed) && streamDisposals == old(streamDisposals)
      ensures old(isDisposed) ==> error == W.Some(W.ObjectDisposedException) && output == old(output)
      ensures !old(isDisposed) ==> error == W.None
      ensures !old(isDisposed) ==>
        output == old(output) + Cleanse(StyleAndFormat(text, style, format), useMdLineBreaks)
    {
      var styled := StyleAndFormat(text, style, format);
      error := Append(Cleanse(styled, useMdLineBreaks));
    }

    /** WriteLine: as Write, then `numNewLines` paragraph breaks. */
    method WriteLine(text: string, style: MdStyle, format: MdFormat, useMdLineBreaks: bool, numNewLines: int)
      returns (error: W.Option<W.Exception>)
      modifies this
      ensures isDisposed == old(isDisposed) && streamDisposals == old(streamDisposals)
      ensures old(isDisposed) ==> error == W.Some(W.ObjectDisposedException) && output == old(output)
      ensures !old(isDisposed) ==> error == W.None
      ensures !old(isDisposed) ==>
        output == old(output) + Cleanse(StyleAndFormat(text, style, format), useMdLineBreaks)
                    + Repeat(paragraphBreakOneLine, Depth(numNewLines))
    {
      var styled := StyleAndFormat(text, style, format);
      var breaks := MakeParagraphLineBreak(paragraphBreakOneLine, numNewLines);
      error := Append(Cleanse(styled, useMdLineBreaks) + breaks);
    }

    /** WriteLineSingle: as Write, then one Markdown line break. */
    method WriteLineSingle(text: string, style: MdStyle, format: MdFormat, useMdLineBreaks: bool)
      returns (error: W.Option<W.Exception>)
      modifies this
      ensures isDisposed == old(isDisposed) && streamDisposals == old(streamDisposals)
      ensures old(isDisposed) ==> error == W.Some(W.ObjectDisposedException) && output == old(output)
      ensures !old(isDisposed) ==> error == W.None
      ensures !old(isDisposed) ==>
        output == old(output) + Cleanse(StyleAndFormat(text, style, format), useMdLineBreaks) + LineBreak
    {
      var styled := StyleAndFormat(text, style, format);
      error := Append(Cleanse(styled, useMdLineBreaks) + LineBreak);
    }

    /**
      WriteUnorderedListItem: `format` is applied to the text first, then `style` with
      the `- ` prefix, then the indent; the result is cleansed with Markdown line breaks.
     */
    method WriteUnorderedListItem(text: string, listIndent: int, style: MdStyle, format: MdFormat, numNewLines: int)
      returns (error: W.Option<W.Exception>)
      modifies this
      ensures isDisposed == old(isDisposed) && streamDisposals == old(streamDisposals)
      ensures old(isDisposed) ==> error == W.Some(W.ObjectDisposedException) && output == old(output)
      ensures !old(isDisposed) ==> error == W.None
      ensures !old(isDisposed) ==>
        output == old(output) + UnorderedListItemText(text, listIndent, style, format)
                    + Repeat(paragraphBreakOneLine, Depth(numNewLines))
    {
      var formatted := Format(text, format);
      var item := StyleAndFormat(formatted, style, MdFormat.UnorderedListItem);
      var indented := Indent(item, listIndent);
      var breaks := MakeParagraphLineBreak(paragraphBreakOneLine, numNewLines);
      error := Append(Cleanse(indented, true) + breaks);
    }

    /**
      WriteOrderedListItem: the `1. ` item of StyleAndFormat, with its `1` replaced by
      the item number when that is not negative, indented, cleansed with Markdown line
      breaks, and ended by a paragraph break.
     */
    method WriteOrderedListItem(text: string, itemNumber: int, listIndent: int, style: MdStyle)
      returns (error: W.Option<W.Exception>)
      modifies this
      ensures isDisposed == old(isDisposed) && streamDisposals == old(streamDisposals)
      ensures old(isDisposed) ==> error == W.Some(W.ObjectDisposedException) && output == old(output)
      ensures !old(isDisposed) ==> error == W.None
      ensures !old(isDisposed) ==>
        output == old(output) + OrderedListItemText(text, itemNumber, listIndent, style) + ParagraphBreak
    {
      var item := StyleAndFormat(text, style, MdFormat.OrderedListItem);
      ghost var numbered := ItemNumberText(itemNumber) + ". " + Style(text, style);
      NumberedItem(text, itemNumber, style);
      if itemNumber != DefaultListItemNumber && itemNumber >= 0 {
        item := NatToString(itemNumber) + item[1..];
      }
      assert item == numbered;
      var indented := Indent(item, listIndent);
      var line := Cleanse(indented, true) + ParagraphBreak;
      assert line == OrderedListItemText(text, itemNumber, listIndent, style) + ParagraphBreak;
      error := Append(line);
    }
  }

  /** Replacing the leading `1` of the `1. ` item by a non-negative item number gives ItemNumberText's number. */
  lemma NumberedItem(text: string, itemNumber: int, style: MdStyle)
    ensures var item := StyleAndFormat(text, style, MdFormat.OrderedListItem);
      |item| > 0
      && (if itemNumber != DefaultListItemNumber && itemNumber >= 0 then NatToString(itemNumber) + item[1..] else item)
         == ItemNumberText(itemNumber) + ". " + Style(text, style)
  {
    var item := StyleAndFormat(text, style, MdFormat.OrderedListItem);
    assert item[1..] == ". " + Style(text, style);
    if itemNumber == 1 {
      assert NatToString(1) == [Digit(1)] == "1";
    }
  }

  /** The text of an unordered list item, as WriteUnorderedListItem writes it before the breaks. */
  function UnorderedListItemText(text: string, listIndent: int, style: MdStyle, format: MdFormat): string
  {
    Cleanse(Spaces(5 * Depth(listIndent)) + StyleAndFormat(Format(text, format), style, MdFormat.UnorderedListItem), true)
  }

  /** The text of an ordered list item, as WriteOrderedListItem writes it before the break. */
  function OrderedListItemText(text: string, itemNumber: int, listIndent: int, style: MdStyle): string
  {
    Cleanse(Spaces(5 * Depth(listIndent)) + (ItemNumberText(itemNumber) + ". " + Style(text, style)), true)
  }

  /** An unordered item is the indent, then `- `, then the cleansed styled text. */
  lemma UnorderedListItemShape(text: string, listIndent: int, style: MdStyle, format: MdFormat)
    ensures UnorderedListItemText(text, listIndent, style, format)
         == Spaces(5 * Depth(listIndent)) + "- " + Cleanse(Style(Format(text, format), style), true)
  {
    var p := Spaces(5 * Depth(listIndent)) + "- ";
    assert Plain(p);
    var u := Style(Format(text, format), style);
    assert Spaces(5 * Depth(listIndent)) + StyleAndFormat(Format(text, format), style, MdFormat.UnorderedListItem) == p + u;
    NormalizedPlainPrefix(p, u, LineBreak);
  }

  /** An ordered item is the indent, then its number and `. `, then the cleansed styled text. */
  lemma OrderedListItemShape(text: string, itemNumber: int, listIndent: int, style: MdStyle)
    ensures OrderedListItemText(text, itemNumber, listIndent, style)
         == Spaces(5 * Depth(listIndent)) + ItemNumberText(itemNumber) + ". " + Cleanse(Style(text, style), true)
  {
    var p := Spaces(5 * Depth(listIndent)) + ItemNumberText(itemNumber) + ". ";
    assert Plain(p);
    var u := Style(text, style);
    assert Spaces(5 * Depth(listIndent)) + (ItemNumberText(itemNumber) + ". " + u) == p + u;
    NormalizedPlainPrefix(p, u, LineBreak);
  }

  /** Item 12 is written as `12. `; a negative number falls back to `1. `. */
  lemma ItemNumberExamples()
    ensures ItemNumberText(12) == "12" && ItemNumberText(-3) == "1" && ItemNumberText(1) == "1"
  {
    assert NatToString(12) == NatToString(1) + [Digit(2)];
  }

  /** With no style and no format, Write cleanses the text as given. */
  lemma PlainWrite(text: string)
    ensures StyleAndFormat(text, MdStyle.None, MdFormat.None) == text
  {
    StyleNoneIsIdentity(text);
    assert Prefix(MdFormat.None) + text == text;
  }

  /** Writing twice appends both texts in order; nothing written earlier changes. */
  method WriteTwice(w: MdWriter, first: string, second: string)
    requires !w.isDisposed
    modifies w
    ensures w.output == old(w.output) + Cleanse(first, true) + Cleanse(second, true)
  {
    PlainWrite(first);
    PlainWrite(second);
    var e1 := w.Write(first, MdStyle.None, MdFormat.None, true);
    var e2 := w.Write(second, MdStyle.None, MdFormat.None, true);
  }
}
