/**
  MarkdownOut's MdText: the Markdown markers, styling by wrapping, formatting by
  prefixing, indentation of sublists, and the cleansing of tabs and newlines.
  `text` is an object in the source; here it is the string its ToString gives.
 */
module MdText {
  import opened Chars
  import opened Strings

  datatype MdStyle = None | Italic | Bold | BoldItalic | Code | StrikeThrough

  datatype MdFormat =
    | None | Heading1 | Heading2 | Heading3 | Heading4 | Heading5 | Heading6
    | Quote | UnorderedListItem | OrderedListItem | InternalLink

  const Tab := "    "
  const LineBreak := "  \r\n"
  const ParagraphBreak := "\r\n\r\n"
  const ItalicWrap := "*"
  const BoldWrap := "**"
  const CodeWrap := "`"
  const StrikeThroughWrap := "~~"
  const Heading1Prefix := "# "
  const Heading2Prefix := "## "
  const Heading3Prefix := "### "
  const Heading4Prefix := "#### "
  const Heading5Prefix := "##### "
  const Heading6Prefix := "###### "
  const QuotePrefix := "> "
  const UnorderedListItemPrefix := "- "
  const DefaultListItemNumber := 1
  const OrderedListItemPrefix := "1. "
  const ListItemIndent := "     "

  /** The marker Style puts on both sides of the text. */
  function Wrap(style: MdStyle): (r: string)
    ensures |r| == 0 <==> style == MdStyle.None
  {
    match style
    case None => ""
    case Italic => ItalicWrap
    case Bold => BoldWrap
    case BoldItalic => ItalicWrap + BoldWrap
    case Code => CodeWrap
    case StrikeThrough => StrikeThroughWrap
  }

  /** Style: the same marker before and after the text. */
  function Style(text: string, style: MdStyle): (r: string)
    ensures |r| == |text| + 2 * |Wrap(style)|
  {
    Wrap(style) + text + Wrap(style)
  }

  /** The markers: `""`, `*`, `**`, `***`, a backtick and `~~`. */
  lemma WrapMarkers()
    ensures Wrap(MdStyle.None) == "" && Wrap(Italic) == "*" && Wrap(Bold) == "**"
    ensures Wrap(BoldItalic) == "***" && Wrap(Code) == "`" && Wrap(StrikeThrough) == "~~"
  {
  }

  lemma StyleNoneIsIdentity(text: string)
    ensures Style(text, MdStyle.None) == text
  {
  }

  /** Stripping the marker from both sides undoes Style. */
  function Unstyle(styled: string, style: MdStyle): string
    requires |styled| >= 2 * |Wrap(style)|
  {
    styled[|Wrap(style)|..|styled| - |Wrap(style)|]
  }

  lemma UnstyleStyle(text: string, style: MdStyle)
    ensures |Style(text, style)| >= 2 * |Wrap(style)| && Unstyle(Style(text, style), style) == text
  {
    var w := Wrap(style);
    assert (w + text + w)[|w|..|w| + |text|] == text;
  }

  /** The prefix Format puts before the text, for every format but InternalLink. */
  function Prefix(format: MdFormat): string
  {
    match format
    case None => ""
    case Heading1 => Heading1Prefix
    case Heading2 => Heading2Prefix
    case Heading3 => Heading3Prefix
    case Heading4 => Heading4Prefix
    case Heading5 => Heading5Prefix
    case Heading6 => Heading6Prefix
    case Quote => QuotePrefix
    case UnorderedListItem => UnorderedListItemPrefix
    case OrderedListItem => OrderedListItemPrefix
    case InternalLink => ""
  }

  /** removeInvalidMDLinkCharacters: the regular expression `[\/]` matches the forward slash only. */
  function RemoveInvalidLinkCharacters(text: string): (r: string)
    ensures '/' !in r
    ensures forall c :: c != '/' ==> (c in r <==> c in text)
  {
    ReplaceAllRemoves(text, '/', "");
    forall c | c != '/' ensures c in ReplaceAll(text, "/", "") <==> c in text {
      ReplaceAllKeeps(text, '/', "", c);
    }
    ReplaceAll(text, "/", "")
  }

  /** The link target of an internal link: lower-cased, without slashes. */
  function Anchor(text: string): string
  {
    ToLowerString(RemoveInvalidLinkCharacters(text))
  }

  /** Format: a prefix, or for InternalLink the text rewritten as `[text](#anchor)`. */
  function Format(text: string, format: MdFormat): (r: string)
    ensures format != InternalLink ==> r == Prefix(format) + text
    ensures format == InternalLink ==> r == "[" + text + "](#" + Anchor(text) + ")"
  {
    match format
    case InternalLink => "[" + text + "](#" + Anchor(text) + ")"
    case _ => Prefix(format) + text
  }

  /** A heading of level n is n `#` characters and a space. */
  function HeadingLevel(format: MdFormat): nat
  {
    match format
    case Heading1 => 1
    case Heading2 => 2
    case Heading3 => 3
    case Heading4 => 4
    case Heading5 => 5
    case Heading6 => 6
    case _ => 0
  }

  lemma HeadingPrefixes(format: MdFormat)
    requires HeadingLevel(format) > 0
    ensures Format("", format) == seq(HeadingLevel(format), _ => '#') + " "
  {
  }

  lemma FormatNoneIsIdentity(text: string)
    ensures Format(text, MdFormat.None) == text
  {
  }

  /** The anchor of an internal link has neither a slash nor an upper-case letter. */
  lemma AnchorIsClean(text: string)
    ensures '/' !in Anchor(text)
    ensures forall i | 0 <= i < |Anchor(text)| :: !IsUpper(Anchor(text)[i])
  {
    var s := RemoveInvalidLinkCharacters(text);
    assert forall i | 0 <= i < |s| :: Anchor(text)[i] == ToLower(s[i]);
  }

  /** `A/B` links to `#ab`. */
  lemma InternalLinkExample()
    ensures Format("A/B", InternalLink) == "[A/B](#ab)"
  {
    assert "A/B" == "A" + "/" + "B";
    assert ReplaceAll("A/B", "/", "") == "AB" by {
      ReplaceAllConsNoMatch('A', "/B", "/", "");
      ReplaceAllConsMatch("B", "/", "");
      ReplaceAllConsNoMatch('B', "", "/", "");
    }
    assert ToLowerString("AB") == "ab";
  }

  /** StyleAndFormat: style first, then format. */
  function StyleAndFormat(text: string, style: MdStyle, format: MdFormat): (r: string)
    ensures format != InternalLink ==> r == Prefix(format) + Style(text, style)
    ensures format == InternalLink ==> r == "[" + Style(text, style) + "](#" + Anchor(Style(text, style)) + ")"
  {
    Format(Style(text, style), format)
  }

  /** `n` spaces. */
  function Spaces(n: nat): (r: string)
    ensures |r| == n && forall i | 0 <= i < n :: r[i] == ' '
  {
    seq(n, _ => ' ')
  }

  /** The indentation depth Indent applies: negative values count as 0. */
  function Depth(indent: int): nat
  {
    if indent > 0 then indent else 0
  }

  /** Indent: one ListItemIndent per level, then the text. */
  method Indent(text: string, indent: int) returns (r: string)
    ensures r == Spaces(5 * Depth(indent)) + text
  {
    var indentPrefix := "";
    var n := indent;
    while n > 0
      invariant indent > 0 ==> 0 <= n <= indent && indentPrefix == Spaces(5 * (indent - n))
      invariant indent <= 0 ==> n == indent && indentPrefix == ""
      decreases n
    {
      assert Spaces(5 * (indent - n)) + ListItemIndent == Spaces(5 * (indent - (n - 1)));
      indentPrefix := indentPrefix + ListItemIndent;
      n := n - 1;
    }
    r := indentPrefix + text;
  }

  /** The newline Cleanse writes. */
  function Newline(useMdLineBreaks: bool): string
  {
    if useMdLineBreaks then LineBreak else "\r\n"
  }

  /** The last three replacements of Cleanse, which normalise the newlines. */
  function NewlinesReplaced(t: string, nl: string): string
  {
    ReplaceAll(ReplaceAll(ReplaceAll(t, "\r\n", "\n"), "\r", "\n"), "\n", nl)
  }

  /**
    Cleanse: tabs become Tab; then `\r\n` and lone `\r` become `\n`; then every `\n`
    becomes the chosen newline.
   */
  function Cleanse(text: string, useMdLineBreaks: bool): (r: string)
    ensures r == Normalized(text, Newline(useMdLineBreaks))
  {
    CleanseIsNormalized(text, Newline(useMdLineBreaks));
    NewlinesReplaced(ReplaceAll(text, "\t", Tab), Newline(useMdLineBreaks))
  }

  /**
    What Cleanse does, in one left-to-right pass: a tab becomes four spaces, and each
    `\r\n`, lone `\r` and lone `\n` becomes one newline `nl`.
   */
  function Normalized(s: string, nl: string): string
    decreases |s|
  {
    if s == [] then []
    else if s[0] == '\t' then Tab + Normalized(s[1..], nl)
    else if s[0] == '\r' && |s| > 1 && s[1] == '\n' then nl + Normalized(s[2..], nl)
    else if s[0] == '\r' || s[0] == '\n' then nl + Normalized(s[1..], nl)
    else [s[0]] + Normalized(s[1..], nl)
  }

  /** No tab and no newline character. */
  predicate Plain(p: string)
  {
    forall i | 0 <= i < |p| :: p[i] != '\t' && p[i] != '\r' && p[i] != '\n'
  }

  lemma NewlinesReplacedPlain(p: string, y: string, nl: string)
    requires Plain(p)
    ensures NewlinesReplaced(p + y, nl) == p + NewlinesReplaced(y, nl)
  {
    ReplaceAllPlainPrefix(p, y, "\r\n", "\n");
    var u := ReplaceAll(y, "\r\n", "\n");
    ReplaceAllPlainPrefix(p, u, "\r", "\n");
    ReplaceAllPlainPrefix(p, ReplaceAll(u, "\r", "\n"), "\n", nl);
  }

  lemma NewlinesReplacedLf(y: string, nl: string)
    ensures NewlinesReplaced("\n" + y, nl) == nl + NewlinesReplaced(y, nl)
  {
    ReplaceAllConsNoMatch('\n', y, "\r\n", "\n");
    var u := ReplaceAll(y, "\r\n", "\n");
    ReplaceAllConsNoMatch('\n', u, "\r", "\n");
    ReplaceAllConsMatch(ReplaceAll(u, "\r", "\n"), "\n", nl);
  }

  lemma NewlinesReplacedCrLf(y: string, nl: string)
    ensures NewlinesReplaced("\r\n" + y, nl) == nl + NewlinesReplaced(y, nl)
  {
    ReplaceAllConsMatch(y, "\r\n", "\n");
    var u := ReplaceAll(y, "\r\n", "\n");
    ReplaceAllConsNoMatch('\n', u, "\r", "\n");
    ReplaceAllConsMatch(ReplaceAll(u, "\r", "\n"), "\n", nl);
  }

  lemma NewlinesReplacedCr(y: string, nl: string)
    requires y == [] || y[0] != '\n'
    ensures NewlinesReplaced("\r" + y, nl) == nl + NewlinesReplaced(y, nl)
  {
    ReplaceAllConsPartial('\r', y, "\r\n", "\n");
    var u := ReplaceAll(y, "\r\n", "\n");
    ReplaceAllConsMatch(u, "\r", "\n");
    ReplaceAllConsMatch(ReplaceAll(u, "\r", "\n"), "\n", nl);
  }

  /** Replacing tabs never puts a `\n` first where there was none. */
  lemma TabStepFirst(x: string)
    requires x == [] || x[0] != '\n'
    ensures ReplaceAll(x, "\t", Tab) == [] || ReplaceAll(x, "\t", Tab)[0] != '\n'
  {
    if x != [] {
      if x[0] == '\t' {
        assert x == "\t" + x[1..];
        ReplaceAllConsMatch(x[1..], "\t", Tab);
      } else {
        assert x == [x[0]] + x[1..];
        ReplaceAllConsNoMatch(x[0], x[1..], "\t", Tab);
      }
    }
  }

  /** Cleanse is the one-pass normalisation. */
  lemma {:induction false} CleanseIsNormalized(s: string, nl: string)
    ensures NewlinesReplaced(ReplaceAll(s, "\t", Tab), nl) == Normalized(s, nl)
    decreases |s|
  {
    if s == [] {
    } else if s[0] == '\t' {
      var x := s[1..];
      assert s == "\t" + x;
      ReplaceAllConsMatch(x, "\t", Tab);
      NewlinesReplacedPlain(Tab, ReplaceAll(x, "\t", Tab), nl);
      CleanseIsNormalized(x, nl);
    } else if s[0] == '\r' && |s| > 1 && s[1] == '\n' {
      var x := s[2..];
      assert s == "\r\n" + x;
      ReplaceAllPlainPrefix("\r\n", x, "\t", Tab);
      NewlinesReplacedCrLf(ReplaceAll(x, "\t", Tab), nl);
      CleanseIsNormalized(x, nl);
    } else {
      var x := s[1..];
      assert s == [s[0]] + x;
      ReplaceAllConsNoMatch(s[0], x, "\t", Tab);
      var t := ReplaceAll(x, "\t", Tab);
      if s[0] == '\r' {
        TabStepFirst(x);
        NewlinesReplacedCr(t, nl);
      } else if s[0] == '\n' {
        NewlinesReplacedLf(t, nl);
      } else {
        NewlinesReplacedPlain([s[0]], t, nl);
      }
      CleanseIsNormalized(x, nl);
    }
  }

  /** Every `\r` is followed by `\n` and every `\n` is preceded by `\r`. */
  predicate CrlfOnly(s: string)
  {
    (forall i | 0 <= i < |s| && s[i] == '\r' :: i + 1 < |s| && s[i + 1] == '\n')
    && (forall i | 0 <= i < |s| && s[i] == '\n' :: i > 0 && s[i - 1] == '\r')
  }

  lemma CrlfAppend(a: string, b: string)
    requires CrlfOnly(a) && CrlfOnly(b)
    ensures CrlfOnly(a + b)
  {
    var ab := a + b;
    forall i | 0 <= i < |ab| && ab[i] == '\r' ensures i + 1 < |ab| && ab[i + 1] == '\n' {
      if i < |a| { assert a[i] == '\r'; } else { assert b[i - |a|] == '\r'; }
    }
    forall i | 0 <= i < |ab| && ab[i] == '\n' ensures i > 0 && ab[i - 1] == '\r' {
      if i < |a| { assert a[i] == '\n'; } else { assert b[i - |a|] == '\n'; }
    }
  }

  lemma PlainIsCrlfOnly(p: string)
    requires Plain(p)
    ensures CrlfOnly(p)
  {
  }

  lemma {:induction false} NormalizedIsCrlfOnly(s: string, nl: string)
    requires CrlfOnly(nl)
    ensures CrlfOnly(Normalized(s, nl))
    decreases |s|
  {
    if s != [] {
      if s[0] == '\t' {
        NormalizedIsCrlfOnly(s[1..], nl);
        PlainIsCrlfOnly(Tab);
        CrlfAppend(Tab, Normalized(s[1..], nl));
      } else if s[0] == '\r' && |s| > 1 && s[1] == '\n' {
        NormalizedIsCrlfOnly(s[2..], nl);
        CrlfAppend(nl, Normalized(s[2..], nl));
      } else if s[0] == '\r' || s[0] == '\n' {
        NormalizedIsCrlfOnly(s[1..], nl);
        CrlfAppend(nl, Normalized(s[1..], nl));
      } else {
        NormalizedIsCrlfOnly(s[1..], nl);
        PlainIsCrlfOnly([s[0]]);
        CrlfAppend([s[0]], Normalized(s[1..], nl));
      }
    }
  }

  lemma {:induction false} NormalizedHasNoTab(s: string, nl: string)
    requires '\t' !in nl
    ensures '\t' !in Normalized(s, nl)
    decreases |s|
  {
    if s != [] {
      if s[0] == '\r' && |s| > 1 && s[1] == '\n' {
        NormalizedHasNoTab(s[2..], nl);
      } else {
        NormalizedHasNoTab(s[1..], nl);
      }
    }
  }

  lemma {:induction false} NormalizedPlainPrefix(p: string, u: string, nl: string)
    requires Plain(p)
    ensures Normalized(p + u, nl) == p + Normalized(u, nl)
    decreases |p|
  {
    if p != [] {
      assert (p + u)[1..] == p[1..] + u;
      NormalizedPlainPrefix(p[1..], u, nl);
      assert p == [p[0]] + p[1..];
    } else {
      assert p + u == u;
    }
  }

  /** With Windows newlines, normalising twice is normalising once. */
  lemma {:induction false} NormalizedIdempotent(s: string)
    ensures Normalized(Normalized(s, "\r\n"), "\r\n") == Normalized(s, "\r\n")
    decreases |s|
  {
    var crlf := "\r\n";
    if s != [] {
      if s[0] == '\t' {
        NormalizedIdempotent(s[1..]);
        NormalizedPlainPrefix(Tab, Normalized(s[1..], crlf), crlf);
      } else if s[0] == '\r' && |s| > 1 && s[1] == '\n' {
        NormalizedIdempotent(s[2..]);
        assert (crlf + Normalized(s[2..], crlf))[2..] == Normalized(s[2..], crlf);
      } else if s[0] == '\r' || s[0] == '\n' {
        NormalizedIdempotent(s[1..]);
        assert (crlf + Normalized(s[1..], crlf))[2..] == Normalized(s[1..], crlf);
      } else {
        NormalizedIdempotent(s[1..]);
        NormalizedPlainPrefix([s[0]], Normalized(s[1..], crlf), crlf);
      }
    }
  }

  /**
    What Cleanse promises: no tab is left, every `\r` is followed by `\n` and every
    `\n` is preceded by `\r` (with or without Markdown line breaks), and without
    Markdown line breaks cleansing twice is cleansing once.
   */
  lemma CleanseProperties(text: string, useMdLineBreaks: bool)
    ensures '\t' !in Cleanse(text, useMdLineBreaks)
    ensures CrlfOnly(Cleanse(text, useMdLineBreaks))
    ensures !useMdLineBreaks ==> Cleanse(Cleanse(text, false), false) == Cleanse(text, false)
  {
    var nl := Newline(useMdLineBreaks);
    assert CrlfOnly(nl);
    NormalizedIsCrlfOnly(text, nl);
    NormalizedHasNoTab(text, nl);
    NormalizedIdempotent(text);
  }

  /** A tab becomes four spaces. */
  lemma CleanseTabExample()
    ensures Cleanse("a\tb", false) == "a    b"
  {
    assert Normalized("\tb", "\r\n") == Tab + Normalized("b", "\r\n");
  }

  /** A lone `\r` and a lone `\n` each become `\r\n`. */
  lemma CleanseNewlineExample()
    ensures Cleanse("a\rb\n", false) == "a\r\nb\r\n"
  {
    assert Normalized("\rb\n", "\r\n") == "\r\n" + Normalized("b\n", "\r\n");
  }

  /** With Markdown line breaks, `\r\n` becomes two spaces and `\r\n`. */
  lemma CleanseLineBreakExample()
    ensures Cleanse("a\r\nb", true) == "a  \r\nb"
  {
    assert "\r\nb"[2..] == "b";
    assert Normalized("\r\nb", LineBreak) == LineBreak + Normalized("b", LineBreak);
  }
}
