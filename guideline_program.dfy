/**
  The guideline-to-Markdown tool's helpers: the distinct, sorted section and
  subsection lists, the severity-to-emoji table, and the grouping that lists each
  guideline under its section and subsection heading.
 */
module GuidelineProgram {
  import opened Chars
  import opened Strings
  import opened Linq

  /** A guideline as the XML reader fills it in. */
  datatype Guideline = Guideline(
    key: string,
    text: string,
    severity: string,
    section: string,
    subsection: string,
    comments: seq<string>)

  function Sections(guidelines: seq<Guideline>): (r: seq<string>)
    ensures |r| == |guidelines| && forall i | 0 <= i < |r| :: r[i] == guidelines[i].section
  {
    seq(|guidelines|, i requires 0 <= i < |guidelines| => guidelines[i].section)
  }

  function Subsections(guidelines: seq<Guideline>): (r: seq<string>)
    ensures |r| == |guidelines| && forall i | 0 <= i < |r| :: r[i] == guidelines[i].subsection
  {
    seq(|guidelines|, i requires 0 <= i < |guidelines| => guidelines[i].subsection)
  }

  /** GetSections: every section of some guideline, once each, ascending. */
  function GetSections(guidelines: seq<Guideline>): (r: seq<string>)
    ensures StrictlySorted(r) && NoDuplicates(r)
    ensures forall i | 0 <= i < |guidelines| :: guidelines[i].section in r
    ensures forall s | s in r :: exists i :: 0 <= i < |guidelines| && guidelines[i].section == s
  {
    var r := SortedDistinct(Sections(guidelines));
    StrictlySortedNoDuplicates(r);
    assert forall i | 0 <= i < |guidelines| :: guidelines[i].section in Elements(Sections(guidelines));
    assert forall s | s in r :: exists i :: 0 <= i < |guidelines| && guidelines[i].section == s by {
      forall s | s in r ensures exists i :: 0 <= i < |guidelines| && guidelines[i].section == s {
        assert s in Elements(Sections(guidelines));
        var j :| 0 <= j < |guidelines| && Sections(guidelines)[j] == s;
        assert guidelines[j].section == s;
      }
    }
    r
  }

  /** GetSubSections: every subsection of some guideline, once each, ascending. */
  function GetSubSections(guidelines: seq<Guideline>): (r: seq<string>)
    ensures StrictlySorted(r) && NoDuplicates(r)
    ensures forall i | 0 <= i < |guidelines| :: guidelines[i].subsection in r
    ensures forall s | s in r :: exists i :: 0 <= i < |guidelines| && guidelines[i].subsection == s
  {
    var r := SortedDistinct(Subsections(guidelines));
    StrictlySortedNoDuplicates(r);
    assert forall i | 0 <= i < |guidelines| :: guidelines[i].subsection in Elements(Subsections(guidelines));
    assert forall s | s in r :: exists i :: 0 <= i < |guidelines| && guidelines[i].subsection == s by {
      forall s | s in r ensures exists i :: 0 <= i < |guidelines| && guidelines[i].subsection == s {
        assert s in Elements(Subsections(guidelines));
        var j :| 0 <= j < |guidelines| && Subsections(guidelines)[j] == s;
        assert guidelines[j].subsection == s;
      }
    }
    r
  }

  /**
    The section list depends only on which sections occur: any strictly ascending list of
    exactly those sections is it, whatever the order or repetition of the guidelines.
   */
  lemma GetSectionsCanonical(guidelines: seq<Guideline>, listing: seq<string>)
    requires StrictlySorted(listing)
    requires forall s :: s in listing <==> s in Sections(guidelines)
    ensures GetSections(guidelines) == listing
  {
    StrictlySortedUnique(GetSections(guidelines), listing);
  }

  lemma GetSubSectionsCanonical(guidelines: seq<Guideline>, listing: seq<string>)
    requires StrictlySorted(listing)
    requires forall s :: s in listing <==> s in Subsections(guidelines)
    ensures GetSubSections(guidelines) == listing
  {
    StrictlySortedUnique(GetSubSections(guidelines), listing);
  }

  /** Reordering or repeating guidelines does not change the section list. */
  lemma GetSectionsOrderIndependent(a: seq<Guideline>, b: seq<Guideline>)
    requires forall g :: g in a <==> g in b
    ensures GetSections(a) == GetSections(b)
  {
    forall s ensures s in GetSections(b) <==> s in Sections(a) {
      if s in Sections(a) {
        var i :| 0 <= i < |a| && a[i].section == s;
        assert a[i] in b;
        var j :| 0 <= j < |b| && b[j] == a[i];
      }
      if s in GetSections(b) {
        var j :| 0 <= j < |b| && b[j].section == s;
        assert b[j] in a;
        var i :| 0 <= i < |a| && a[i] == b[j];
        assert Sections(a)[i] == s;
      }
    }
    GetSectionsCanonical(a, GetSections(b));
  }

  /** GetGuidelineEmoji: the four severities the switch knows, matched exactly; anything else gets none. */
  function GetGuidelineEmoji(severity: string): (r: string)
    ensures severity == "AVOID" ==> r == ":no_entry:"
    ensures severity == "DO NOT" ==> r == ":x:"
    ensures severity == "DO" ==> r == ":heavy_check_mark:"
    ensures severity == "CONSIDER" ==> r == ":grey_question:"
    ensures r == "" <==> severity !in {"AVOID", "DO NOT", "DO", "CONSIDER"}
  {
    if severity == "AVOID" then ":no_entry:"
    else if severity == "DO NOT" then ":x:"
    else if severity == "DO" then ":heavy_check_mark:"
    else if severity == "CONSIDER" then ":grey_question:"
    else ""
  }

  /** The table tells the four severities apart, and it is case-sensitive. */
  lemma EmojiTable(a: string, b: string)
    requires GetGuidelineEmoji(a) != "" && GetGuidelineEmoji(a) == GetGuidelineEmoji(b)
    ensures a == b
  {
  }

  lemma EmojiIsCaseSensitive()
    ensures GetGuidelineEmoji("Do") == "" && GetGuidelineEmoji("avoid") == "" && GetGuidelineEmoji("Do Not") == ""
    ensures EqualsIgnoreCase("Do", "DO") && GetGuidelineEmoji("DO") != ""
  {
    assert "Do" != "DO" && "Do" != "DO NOT" && "Do" != "AVOID" && "Do" != "CONSIDER";
    assert "avoid" != "AVOID" && "Do Not" != "DO NOT";
  }

  /** The list item for a guideline: its emoji, a space, then its text without surrounding quotes. */
  function ListItemText(g: Guideline): (r: string)
    ensures var e := GetGuidelineEmoji(g.severity);
      |r| > |e| && r[..|e|] == e && r[|e|] == ' ' && TrimmedOf(r[|e| + 1..], g.text, '"')
  {
    var e := GetGuidelineEmoji(g.severity);
    var t := Trim(g.text, '"');
    var r := e + " " + t;
    assert r[|e| + 1..] == t;
    r
  }

  /** The guidelines of one section, ignoring case, in their original order. */
  function GuidelinesInSection(guidelines: seq<Guideline>, section: string): (r: seq<Guideline>)
    ensures forall g :: g in r <==> g in guidelines && EqualsIgnoreCase(g.section, section)
  {
    Where(guidelines, (g: Guideline) => EqualsIgnoreCase(g.section, section))
  }

  /** Of those, the guidelines of one subsection, ignoring case. */
  function GuidelinesInSubsection(inSection: seq<Guideline>, subsection: string): (r: seq<Guideline>)
    ensures forall g :: g in r <==> g in inSection && EqualsIgnoreCase(g.subsection, subsection)
  {
    Where(inSection, (g: Guideline) => EqualsIgnoreCase(g.subsection, subsection))
  }

  /** PrintSections' table of contents: the subsections of one section, ignoring case, once each and ascending. */
  function SectionSubSections(guidelines: seq<Guideline>, section: string): (r: seq<string>)
    ensures StrictlySorted(r)
    ensures forall g | g in guidelines && EqualsIgnoreCase(g.section, section) :: g.subsection in r
    ensures forall t | t in r :: exists g :: g in guidelines && EqualsIgnoreCase(g.section, section) && g.subsection == t
  {
    var inSection := GuidelinesInSection(guidelines, section);
    var r := GetSubSections(inSection);
    assert forall g | g in inSection :: g.subsection in r by {
      forall g | g in inSection ensures g.subsection in r {
        var i :| 0 <= i < |inSection| && inSection[i] == g;
      }
    }
    assert forall t | t in r :: exists g :: g in inSection && g.subsection == t by {
      forall t | t in r ensures exists g :: g in inSection && g.subsection == t {
        var i :| 0 <= i < |inSection| && inSection[i].subsection == t;
        assert inSection[i] in inSection;
      }
    }
    r
  }

  /** The contents list of a section only names subsections the whole list has. */
  lemma SectionSubSectionsAreSubSections(guidelines: seq<Guideline>, section: string, t: string)
    requires t in SectionSubSections(guidelines, section)
    ensures t in GetSubSections(guidelines)
  {
    var g :| g in guidelines && EqualsIgnoreCase(g.section, section) && g.subsection == t;
    var i :| 0 <= i < |guidelines| && guidelines[i] == g;
  }

  /** One subsection heading and the list items written under it. */
  datatype Group = Group(subsection: string, items: seq<string>)

  /** One section heading and its non-empty subsection groups. */
  datatype SectionListing = SectionListing(section: string, groups: seq<Group>)

  function ListItems(guidelines: seq<Guideline>): (r: seq<string>)
    ensures |r| == |guidelines| && forall i | 0 <= i < |r| :: r[i] == ListItemText(guidelines[i])
  {
    seq(|guidelines|, i requires 0 <= i < |guidelines| => ListItemText(guidelines[i]))
  }

  /** The subsection loop: a heading and the items of each subsection that has any guideline; nothing for the rest. */
  function SubsectionGroups(inSection: seq<Guideline>, subsections: seq<string>): (r: seq<Group>)
    ensures |r| <= |subsections|
  {
    if |subsections| == 0 then []
    else
      var here := GuidelinesInSubsection(inSection, subsections[0]);
      var rest := SubsectionGroups(inSection, subsections[1..]);
      if |here| == 0 then rest else [Group(subsections[0], ListItems(here))] + rest
  }

  /** Every group is a listed subsection that has guidelines, holding exactly their items, in order. */
  lemma {:induction false} SubsectionGroupsSound(inSection: seq<Guideline>, subsections: seq<string>, k: nat)
    requires k < |SubsectionGroups(inSection, subsections)|
    ensures var grp := SubsectionGroups(inSection, subsections)[k];
      grp.subsection in subsections
      && grp.items == ListItems(GuidelinesInSubsection(inSection, grp.subsection))
      && |grp.items| > 0
  {
    var here := GuidelinesInSubsection(inSection, subsections[0]);
    var rest := SubsectionGroups(inSection, subsections[1..]);
    if |here| == 0 {
      SubsectionGroupsSound(inSection, subsections[1..], k);
    } else if k > 0 {
      SubsectionGroupsSound(inSection, subsections[1..], k - 1);
    }
  }

  /** Every listed subsection that has guidelines gets a group. */
  lemma {:induction false} SubsectionGroupsComplete(inSection: seq<Guideline>, subsections: seq<string>, t: string)
    requires t in subsections && |GuidelinesInSubsection(inSection, t)| > 0
    ensures exists k :: 0 <= k < |SubsectionGroups(inSection, subsections)|
                        && SubsectionGroups(inSection, subsections)[k].subsection == t
  {
    var r := SubsectionGroups(inSection, subsections);
    var here := GuidelinesInSubsection(inSection, subsections[0]);
    if subsections[0] == t {
      assert r[0].subsection == t;
    } else {
      assert t in subsections[1..];
      SubsectionGroupsComplete(inSection, subsections[1..], t);
      var rest := SubsectionGroups(inSection, subsections[1..]);
      var k :| 0 <= k < |rest| && rest[k].subsection == t;
      if |here| == 0 {
        assert r[k].subsection == t;
      } else {
        assert r[k + 1].subsection == t;
      }
    }
  }

  /** The nested loops of PrintGuidelinesBySection over given section and subsection lists. */
  function Listing(guidelines: seq<Guideline>, sections: seq<string>, subsections: seq<string>): (r: seq<SectionListing>)
    ensures |r| == |sections|
  {
    seq(|sections|, i requires 0 <= i < |sections| =>
      SectionListing(sections[i], SubsectionGroups(GuidelinesInSection(guidelines, sections[i]), subsections)))
  }

  /** PrintGuidelinesBySection's grouping: every section, and in it every subsection of the whole list that has guidelines. */
  function BySection(guidelines: seq<Guideline>): (r: seq<SectionListing>)
    ensures |r| == |GetSections(guidelines)|
    ensures forall i | 0 <= i < |r| :: r[i].section == GetSections(guidelines)[i]
  {
    Listing(guidelines, GetSections(guidelines), GetSubSections(guidelines))
  }

  /** Item `item` is listed in the `k`th group of the `i`th section. */
  predicate ListedAt(listing: seq<SectionListing>, i: int, k: int, section: string, subsection: string, item: string)
  {
    0 <= i < |listing| && 0 <= k < |listing[i].groups|
    && listing[i].section == section
    && listing[i].groups[k].subsection == subsection
    && item in listing[i].groups[k].items
  }

  /** A guideline of the section whose subsection is in the list has its item in that subsection's group. */
  lemma GroupLists(inSection: seq<Guideline>, subsections: seq<string>, g: Guideline)
    requires g in inSection && g.subsection in subsections
    ensures exists k :: 0 <= k < |SubsectionGroups(inSection, subsections)|
                        && SubsectionGroups(inSection, subsections)[k].subsection == g.subsection
                        && ListItemText(g) in SubsectionGroups(inSection, subsections)[k].items
  {
    var here := GuidelinesInSubsection(inSection, g.subsection);
    assert EqualsIgnoreCase(g.subsection, g.subsection);
    assert g in here;
    SubsectionGroupsComplete(inSection, subsections, g.subsection);
    var groups := SubsectionGroups(inSection, subsections);
    var k :| 0 <= k < |groups| && groups[k].subsection == g.subsection;
    SubsectionGroupsSound(inSection, subsections, k);
    var m :| 0 <= m < |here| && here[m] == g;
    assert groups[k].items[m] == ListItemText(g);
  }

  /** A guideline whose section and subsection are in the lists is listed under them. */
  lemma ListingLists(guidelines: seq<Guideline>, sections: seq<string>, subsections: seq<string>, g: Guideline)
    returns (i: int, k: int)
    requires g in guidelines && g.section in sections && g.subsection in subsections
    ensures ListedAt(Listing(guidelines, sections, subsections), i, k, g.section, g.subsection, ListItemText(g))
  {
    i :| 0 <= i < |sections| && sections[i] == g.section;
    var inSection := GuidelinesInSection(guidelines, g.section);
    assert EqualsIgnoreCase(g.section, g.section);
    GroupLists(inSection, subsections, g);
    var groups := SubsectionGroups(inSection, subsections);
    k :| 0 <= k < |groups| && groups[k].subsection == g.subsection && ListItemText(g) in groups[k].items;
    var r := Listing(guidelines, sections, subsections);
    assert r[i] == SectionListing(g.section, groups);
    assert ListedAt(r, i, k, g.section, g.subsection, ListItemText(g));
  }

  /** A guideline's section and subsection are among the headings. */
  lemma HeadingsOf(guidelines: seq<Guideline>, g: Guideline)
    requires g in guidelines
    ensures g.section in GetSections(guidelines) && g.subsection in GetSubSections(guidelines)
  {
    var n :| 0 <= n < |guidelines| && guidelines[n] == g;
  }

  /** Every guideline is listed under its own section and subsection. */
  lemma EveryGuidelineListed(guidelines: seq<Guideline>, g: Guideline)
    requires g in guidelines
    ensures exists i, k :: ListedAt(BySection(guidelines), i, k, g.section, g.subsection, ListItemText(g))
  {
    HeadingsOf(guidelines, g);
    var i, k := ListingLists(guidelines, GetSections(guidelines), GetSubSections(guidelines), g);
    assert ListedAt(BySection(guidelines), i, k, g.section, g.subsection, ListItemText(g));
  }

  /** A guideline of the section is in every group whose subsection equals its own ignoring case. */
  lemma MatchingGroupLists(inSection: seq<Guideline>, subsections: seq<string>, g: Guideline, k: int)
    requires g in inSection
    requires 0 <= k < |SubsectionGroups(inSection, subsections)|
    requires EqualsIgnoreCase(g.subsection, SubsectionGroups(inSection, subsections)[k].subsection)
    ensures ListItemText(g) in SubsectionGroups(inSection, subsections)[k].items
  {
    var groups := SubsectionGroups(inSection, subsections);
    SubsectionGroupsSound(inSection, subsections, k);
    var here := GuidelinesInSubsection(inSection, groups[k].subsection);
    assert g in here;
    var m :| 0 <= m < |here| && here[m] == g;
    assert groups[k].items[m] == ListItemText(g);
  }

  /** A guideline's item is in every group whose section and subsection equal its own, ignoring case. */
  lemma ListedInMatchingGroup(guidelines: seq<Guideline>, g: Guideline, i: int, k: int)
    requires g in guidelines
    requires 0 <= i < |BySection(guidelines)| && EqualsIgnoreCase(g.section, BySection(guidelines)[i].section)
    requires 0 <= k < |BySection(guidelines)[i].groups|
    requires EqualsIgnoreCase(g.subsection, BySection(guidelines)[i].groups[k].subsection)
    ensures ListItemText(g) in BySection(guidelines)[i].groups[k].items
  {
    var r := BySection(guidelines);
    var subsections := GetSubSections(guidelines);
    var inSection := GuidelinesInSection(guidelines, r[i].section);
    assert r[i].groups == SubsectionGroups(inSection, subsections);
    MatchingGroupLists(inSection, subsections, g, k);
  }

  /** A guideline is listed under every pair of headings that equal its own section and subsection, ignoring case. */
  lemma ListedUnderCaseVariants(guidelines: seq<Guideline>, g: Guideline, i: int, t: string) returns (k: int)
    requires g in guidelines
    requires 0 <= i < |BySection(guidelines)| && EqualsIgnoreCase(g.section, BySection(guidelines)[i].section)
    requires t in GetSubSections(guidelines) && EqualsIgnoreCase(g.subsection, t)
    ensures ListedAt(BySection(guidelines), i, k, BySection(guidelines)[i].section, t, ListItemText(g))
  {
    var r := BySection(guidelines);
    var subsections := GetSubSections(guidelines);
    var inSection := GuidelinesInSection(guidelines, r[i].section);
    assert r[i] == SectionListing(r[i].section, SubsectionGroups(inSection, subsections));
    assert g in inSection;
    assert g in GuidelinesInSubsection(inSection, t);
    SubsectionGroupsComplete(inSection, subsections, t);
    var groups := r[i].groups;
    k :| 0 <= k < |groups| && groups[k].subsection == t;
    ListedInMatchingGroup(guidelines, g, i, k);
  }

  /** The subsection headings of a list of groups, in order. */
  function Headings(groups: seq<Group>): (r: seq<string>)
    ensures |r| == |groups| && forall k | 0 <= k < |r| :: r[k] == groups[k].subsection
  {
    seq(|groups|, k requires 0 <= k < |groups| => groups[k].subsection)
  }

  /** `xs` is `ys` with some elements left out and the rest in their order. */
  predicate IsSubsequence(xs: seq<string>, ys: seq<string>)
    decreases |ys|
  {
    xs == [] || (ys != [] && ((xs[0] == ys[0] && IsSubsequence(xs[1..], ys[1..])) || IsSubsequence(xs, ys[1..])))
  }

  lemma {:induction false} SubsequenceMembers(xs: seq<string>, ys: seq<string>)
    requires IsSubsequence(xs, ys)
    ensures forall x | x in xs :: x in ys
    decreases |ys|
  {
    if xs != [] {
      if xs[0] == ys[0] && IsSubsequence(xs[1..], ys[1..]) {
        SubsequenceMembers(xs[1..], ys[1..]);
        forall x | x in xs ensures x in ys {
          if x != xs[0] {
            assert x in xs[1..];
          }
        }
      } else {
        SubsequenceMembers(xs, ys[1..]);
      }
    }
  }

  /** A subsequence of a strictly ascending list is strictly ascending, so it names each element at most once. */
  lemma {:induction false} SubsequenceOfSorted(xs: seq<string>, ys: seq<string>)
    requires IsSubsequence(xs, ys) && StrictlySorted(ys)
    ensures StrictlySorted(xs)
    decreases |ys|
  {
    if xs != [] {
      assert StrictlySorted(ys[1..]) by {
        forall a, b | 0 <= a < b < |ys[1..]| ensures Less(ys[1..][a], ys[1..][b]) {
          assert ys[1..][a] == ys[a + 1] && ys[1..][b] == ys[b + 1];
        }
      }
      if xs[0] == ys[0] && IsSubsequence(xs[1..], ys[1..]) {
        SubsequenceOfSorted(xs[1..], ys[1..]);
        SubsequenceMembers(xs[1..], ys[1..]);
        forall a, b | 0 <= a < b < |xs| ensures Less(xs[a], xs[b]) {
          assert xs[b] == xs[1..][b - 1];
          if a == 0 {
            assert xs[b] in xs[1..];
            var c :| 0 <= c < |ys[1..]| && ys[1..][c] == xs[b];
            assert ys[c + 1] == xs[b];
          } else {
            assert xs[a] == xs[1..][a - 1];
          }
        }
      } else {
        SubsequenceOfSorted(xs, ys[1..]);
      }
    }
  }

  /** The groups follow the order of the subsection list. */
  lemma {:induction false} SubsectionGroupsInListOrder(inSection: seq<Guideline>, subsections: seq<string>)
    ensures IsSubsequence(Headings(SubsectionGroups(inSection, subsections)), subsections)
    decreases |subsections|
  {
    if |subsections| > 0 {
      var here := GuidelinesInSubsection(inSection, subsections[0]);
      var rest := SubsectionGroups(inSection, subsections[1..]);
      SubsectionGroupsInListOrder(inSection, subsections[1..]);
      if |here| > 0 {
        var h := Headings(SubsectionGroups(inSection, subsections));
        assert h[0] == subsections[0];
        assert h[1..] == Headings(rest);
      }
    }
  }

  /** Within each section the groups follow GetSubSections: ascending, and each subsection at most once. */
  lemma BySectionGroupsOrdered(guidelines: seq<Guideline>, i: int)
    requires 0 <= i < |BySection(guidelines)|
    ensures IsSubsequence(Headings(BySection(guidelines)[i].groups), GetSubSections(guidelines))
    ensures StrictlySorted(Headings(BySection(guidelines)[i].groups))
  {
    var r := BySection(guidelines);
    var subsections := GetSubSections(guidelines);
    var inSection := GuidelinesInSection(guidelines, r[i].section);
    assert r[i] == SectionListing(r[i].section, SubsectionGroups(inSection, subsections));
    SubsectionGroupsInListOrder(inSection, subsections);
    SubsequenceOfSorted(Headings(r[i].groups), subsections);
  }

  /** Each item listed under a section and subsection comes from a guideline in both, ignoring case. */
  lemma ListingOnlyMatching(guidelines: seq<Guideline>, sections: seq<string>, subsections: seq<string>,
                            i: int, k: int, section: string, subsection: string, item: string)
    requires ListedAt(Listing(guidelines, sections, subsections), i, k, section, subsection, item)
    ensures exists g :: g in guidelines && item == ListItemText(g)
                        && EqualsIgnoreCase(g.section, section) && EqualsIgnoreCase(g.subsection, subsection)
  {
    var inSection := GuidelinesInSection(guidelines, section);
    assert Listing(guidelines, sections, subsections)[i] == SectionListing(sections[i], SubsectionGroups(inSection, subsections));
    SubsectionGroupsSound(inSection, subsections, k);
    var here := GuidelinesInSubsection(inSection, subsection);
    var group := Listing(guidelines, sections, subsections)[i].groups[k];
    var m :| 0 <= m < |group.items| && group.items[m] == item;
    assert here[m] in here;
  }

  /** Only matching guidelines are listed: each item under section s and subsection t comes from a guideline in both, ignoring case. */
  lemma OnlyMatchingListed(guidelines: seq<Guideline>, i: int, k: int, section: string, subsection: string, item: string)
    requires ListedAt(BySection(guidelines), i, k, section, subsection, item)
    ensures exists g :: g in guidelines && item == ListItemText(g)
                        && EqualsIgnoreCase(g.section, section) && EqualsIgnoreCase(g.subsection, subsection)
  {
    ListingOnlyMatching(guidelines, GetSections(guidelines), GetSubSections(guidelines), i, k, section, subsection, item);
  }

  /** `Naming` and `naming` are two sections: the ordinal order keeps both, upper case first. */
  lemma CaseVariantSections(x: Guideline, y: Guideline)
    requires x.section == "Naming" && y.section == "naming"
    ensures GetSections([x, y]) == ["Naming", "naming"]
  {
    assert Sections([x, y]) == ["Naming", "naming"];
    assert Less("Naming", "naming");
    GetSectionsCanonical([x, y], ["Naming", "naming"]);
  }

  /** The section filter ignores case, so both sections take both guidelines. */
  lemma CaseVariantFilters(x: Guideline, y: Guideline)
    requires x.section == "Naming" && y.section == "naming"
    ensures x in GuidelinesInSection([x, y], "Naming") && x in GuidelinesInSection([x, y], "naming")
    ensures y in GuidelinesInSection([x, y], "Naming") && y in GuidelinesInSection([x, y], "naming")
  {
    assert EqualsIgnoreCase("Naming", "naming") by {
      assert forall j | 0 <= j < 6 :: ToUpper("Naming"[j]) == ToUpper("naming"[j]);
    }
    assert EqualsIgnoreCase("Naming", "Naming") && EqualsIgnoreCase("naming", "naming");
    assert EqualsIgnoreCase("naming", "Naming") by {
      assert forall j | 0 <= j < 6 :: ToUpper("naming"[j]) == ToUpper("Naming"[j]);
    }
  }

  /** Sections that differ only in case are listed apart, and each lists the guidelines of both. */
  lemma CaseVariantsListedTwice(x: Guideline, y: Guideline)
    requires x.section == "Naming" && y.section == "naming"
    ensures GetSections([x, y]) == ["Naming", "naming"]
    ensures forall s | s in GetSections([x, y]) :: x in GuidelinesInSection([x, y], s) && y in GuidelinesInSection([x, y], s)
  {
    CaseVariantSections(x, y);
    CaseVariantFilters(x, y);
  }
}
