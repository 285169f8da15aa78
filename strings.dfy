/**
  The System.String operations the modelled code relies on: ordinal Replace,
  ordinal IndexOf, TrimStart/Trim of one character, StartsWith, and the ordinal
  lexicographic order used for sorting.
 */
module Strings {

  /** The pattern `p` occurs in `s` starting at index `i`. */
  predicate IsOccurrence(s: string, p: string, i: int)
  {
    0 <= i && i + |p| <= |s| && s[i..i + |p|] == p
  }

  predicate StartsWith(s: string, p: string)
  {
    |p| <= |s| && s[..|p|] == p
  }

  /** Every character is `_` (true of the empty string). */
  predicate AllUnderscores(name: string)
  {
    forall i | 0 <= i < |name| :: name[i] == '_'
  }

  /**
    String.Replace(pat, rep): every occurrence of `pat`, found left to right and
    without overlap, is replaced by `rep`. .NET throws for an empty `pat`; callers
    that can pass one model that error themselves.
   */
  function ReplaceAll(s: string, pat: string, rep: string): string
    requires |pat| > 0
    decreases |s|
  {
    if |s| < |pat| then s
    else if s[..|pat|] == pat then rep + ReplaceAll(s[|pat|..], pat, rep)
    else [s[0]] + ReplaceAll(s[1..], pat, rep)
  }

  lemma ReplaceAllConsNoMatch(c: char, t: string, pat: string, rep: string)
    requires |pat| > 0 && c != pat[0]
    ensures ReplaceAll([c] + t, pat, rep) == [c] + ReplaceAll(t, pat, rep)
  {
    if |[c] + t| >= |pat| {
      assert ([c] + t)[..|pat|][0] == c;
      assert ([c] + t)[1..] == t;
    }
  }

  lemma ReplaceAllConsMatch(t: string, pat: string, rep: string)
    requires |pat| > 0
    ensures ReplaceAll(pat + t, pat, rep) == rep + ReplaceAll(t, pat, rep)
  {
    assert (pat + t)[..|pat|] == pat;
    assert (pat + t)[|pat|..] == t;
  }

  /** A character equal to the first of a two-character pattern, not followed by the second. */
  lemma ReplaceAllConsPartial(c: char, t: string, pat: string, rep: string)
    requires |pat| == 2 && c == pat[0]
    requires t == [] || t[0] != pat[1]
    ensures ReplaceAll([c] + t, pat, rep) == [c] + ReplaceAll(t, pat, rep)
  {
    if |[c] + t| >= |pat| {
      assert ([c] + t)[..|pat|][1] == t[0];
      assert ([c] + t)[1..] == t;
    }
  }

  /** A prefix none of whose characters can start the pattern passes through unchanged. */
  lemma {:induction false} ReplaceAllPlainPrefix(p: string, t: string, pat: string, rep: string)
    requires |pat| > 0
    requires forall i | 0 <= i < |p| :: p[i] != pat[0]
    ensures ReplaceAll(p + t, pat, rep) == p + ReplaceAll(t, pat, rep)
    decreases |p|
  {
    if p != [] {
      calc {
        ReplaceAll(p + t, pat, rep);
        { assert p + t == [p[0]] + (p[1..] + t); }
        ReplaceAll([p[0]] + (p[1..] + t), pat, rep);
        { ReplaceAllConsNoMatch(p[0], p[1..] + t, pat, rep); }
        [p[0]] + ReplaceAll(p[1..] + t, pat, rep);
        { ReplaceAllPlainPrefix(p[1..], t, pat, rep); }
        [p[0]] + (p[1..] + ReplaceAll(t, pat, rep));
        { assert p == [p[0]] + p[1..]; }
        p + ReplaceAll(t, pat, rep);
      }
    } else {
      assert p + t == t;
    }
  }

  /** Replacing a pattern that does not occur changes nothing. */
  lemma {:induction false} ReplaceAllAbsent(s: string, pat: string, rep: string)
    requires |pat| > 0
    requires forall i :: !IsOccurrence(s, pat, i)
    ensures ReplaceAll(s, pat, rep) == s
    decreases |s|
  {
    if |s| >= |pat| {
      assert !IsOccurrence(s, pat, 0);
      forall i ensures !IsOccurrence(s[1..], pat, i) {
        if IsOccurrence(s[1..], pat, i) {
          assert s[1..][i..i + |pat|] == s[i + 1..i + 1 + |pat|];
          assert IsOccurrence(s, pat, i + 1);
        }
      }
      ReplaceAllAbsent(s[1..], pat, rep);
    }
  }

  /** Replacing a pattern by itself changes nothing. */
  lemma {:induction false} ReplaceAllSame(s: string, pat: string)
    requires |pat| > 0
    ensures ReplaceAll(s, pat, pat) == s
    decreases |s|
  {
    if |s| >= |pat| {
      if s[..|pat|] == pat {
        ReplaceAllSame(s[|pat|..], pat);
        assert s == s[..|pat|] + s[|pat|..];
      } else {
        ReplaceAllSame(s[1..], pat);
        assert s == [s[0]] + s[1..];
      }
    }
  }

  /** A result of replacing a one-character pattern by text without it does not contain it. */
  lemma {:induction false} ReplaceAllRemoves(s: string, c: char, rep: string)
    requires c !in rep
    ensures c !in ReplaceAll(s, [c], rep)
    decreases |s|
  {
    if |s| >= 1 {
      ReplaceAllRemoves(s[1..], c, rep);
    }
  }

  /** A one-character pattern does not interact with the text around it. */
  lemma {:induction false} ReplaceAllCharAppend(a: string, b: string, c: char, rep: string)
    ensures ReplaceAll(a + b, [c], rep) == ReplaceAll(a, [c], rep) + ReplaceAll(b, [c], rep)
    decreases |a|
  {
    if a != [] {
      assert (a + b)[1..] == a[1..] + b;
      assert (a + b)[..1] == a[..1];
      ReplaceAllCharAppend(a[1..], b, c, rep);
    } else {
      assert a + b == b;
    }
  }

  /** Characters of a replacement-free text are kept: the result has the characters of `s` that are not `c`. */
  lemma {:induction false} ReplaceAllKeeps(s: string, c: char, rep: string, d: char)
    requires d != c && d !in rep
    ensures (d in ReplaceAll(s, [c], rep)) <==> d in s
    decreases |s|
  {
    if |s| >= 1 {
      ReplaceAllKeeps(s[1..], c, rep, d);
      assert s == [s[0]] + s[1..];
    }
  }

  /** An occurrence in the tail of `s` is an occurrence in `s`, one index further. */
  lemma OccurrenceInTail(s: string, p: string, q: int)
    requires |s| > 0 && q >= 0
    ensures IsOccurrence(s[1..], p, q) <==> IsOccurrence(s, p, q + 1)
  {
    if 0 <= q && q + 1 + |p| <= |s| {
      assert s[1..][q..q + |p|] == s[q + 1..q + 1 + |p|];
    }
  }

  /**
    String.IndexOf(p) with ordinal comparison: the first index at which `p` occurs,
    or -1. An empty `p` occurs at index 0.
   */
  function IndexOf(s: string, p: string): (r: int)
    ensures r == -1 || IsOccurrence(s, p, r)
    ensures r >= 0 ==> forall q | 0 <= q < r :: !IsOccurrence(s, p, q)
    ensures r == -1 <==> forall q :: !IsOccurrence(s, p, q)
    decreases |s|
  {
    if |p| > |s| then -1
    else if s[..|p|] == p then 0
    else
      var k := IndexOf(s[1..], p);
      assert !IsOccurrence(s, p, 0);
      if k < 0 then
        assert forall q :: !IsOccurrence(s, p, q) by {
          forall q ensures !IsOccurrence(s, p, q) {
            if q > 0 { OccurrenceInTail(s, p, q - 1); }
          }
        }
        -1
      else
        assert IsOccurrence(s, p, k + 1) by { OccurrenceInTail(s, p, k); }
        assert forall q | 0 <= q < k + 1 :: !IsOccurrence(s, p, q) by {
          forall q | 0 <= q < k + 1 ensures !IsOccurrence(s, p, q) {
            if q > 0 { OccurrenceInTail(s, p, q - 1); }
          }
        }
        k + 1
  }

  /** String.TrimStart(c): the suffix left after dropping every leading `c`. */
  function TrimStart(s: string, c: char): (r: string)
    ensures |r| <= |s| && r == s[|s| - |r|..]
    ensures forall i | 0 <= i < |s| - |r| :: s[i] == c
    ensures |r| == 0 || r[0] != c
    decreases |s|
  {
    if |s| > 0 && s[0] == c then TrimStart(s[1..], c) else s
  }

  /** String.TrimEnd(c): the prefix left after dropping every trailing `c`. */
  function TrimEnd(s: string, c: char): (r: string)
    ensures |r| <= |s| && r == s[..|r|]
    ensures forall i | |r| <= i < |s| :: s[i] == c
    ensures |r| == 0 || r[|r| - 1] != c
    decreases |s|
  {
    if |s| > 0 && s[|s| - 1] == c then TrimEnd(s[..|s| - 1], c) else s
  }

  /** `r` is `s` with every leading and trailing `c` removed, and no more. */
  predicate TrimmedOf(r: string, s: string, c: char)
  {
    (exists i, j :: 0 <= i <= j <= |s| && r == s[i..j]
                    && (forall k | 0 <= k < i :: s[k] == c)
                    && (forall k | j <= k < |s| :: s[k] == c))
    && (|r| == 0 || (r[0] != c && r[|r| - 1] != c))
  }

  lemma TrimmedOfAt(r: string, s: string, c: char, i: nat, j: nat)
    requires i <= j <= |s| && r == s[i..j]
    requires forall k | 0 <= k < i :: s[k] == c
    requires forall k | j <= k < |s| :: s[k] == c
    requires |r| == 0 || (r[0] != c && r[|r| - 1] != c)
    ensures TrimmedOf(r, s, c)
  {
  }

  /** String.Trim(c): both ends. */
  function Trim(s: string, c: char): (r: string)
    ensures TrimmedOf(r, s, c)
  {
    var t := TrimStart(s, c);
    var r := TrimEnd(t, c);
    var i, j := |s| - |t|, |s| - |t| + |r|;
    assert r == s[i..j];
    assert forall k | j <= k < |s| :: s[k] == c by {
      forall k | j <= k < |s| ensures s[k] == c {
        assert s[k] == t[k - i];
      }
    }
    TrimmedOfAt(r, s, c, i, j);
    r
  }

  /** Ordinal lexicographic order on strings. */
  predicate Less(a: string, b: string)
    decreases |a|
  {
    if a == [] then b != []
    else if b == [] then false
    else if a[0] != b[0] then a[0] < b[0]
    else Less(a[1..], b[1..])
  }

  lemma {:induction false} LessIrreflexive(a: string)
    ensures !Less(a, a)
    decreases |a|
  {
    if a != [] { LessIrreflexive(a[1..]); }
  }

  lemma {:induction false} LessTransitive(a: string, b: string, c: string)
    requires Less(a, b) && Less(b, c)
    ensures Less(a, c)
    decreases |a|
  {
    if a != [] && b != [] && c != [] && a[0] == b[0] && b[0] == c[0] {
      LessTransitive(a[1..], b[1..], c[1..]);
    }
  }

  lemma {:induction false} LessTotal(a: string, b: string)
    requires a != b
    ensures Less(a, b) || Less(b, a)
    decreases |a|
  {
    if a != [] && b != [] && a[0] == b[0] {
      assert a == [a[0]] + a[1..] && b == [b[0]] + b[1..];
      LessTotal(a[1..], b[1..]);
    }
  }
}
