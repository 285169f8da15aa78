/**
  The LINQ operators the modelled code relies on: Except (distinct elements of the
  first sequence that are not in the second, in first-occurrence order) and
  Distinct().OrderBy(x => x) over strings.
 */
module Linq {
  import opened Strings

  predicate NoDuplicates<T(==)>(xs: seq<T>)
  {
    forall i, j | 0 <= i < j < |xs| :: xs[i] != xs[j]
  }

  function Elements<T(!new)>(xs: seq<T>): set<T>
  {
    set x | x in xs
  }

  /** The index of the first occurrence of `x` in `xs`. */
  function FirstIndex<T(==)>(xs: seq<T>, x: T): (k: nat)
    requires x in xs
    ensures k < |xs| && xs[k] == x
    ensures forall m | 0 <= m < k :: xs[m] != x
  {
    if xs[0] == x then 0 else 1 + FirstIndex(xs[1..], x)
  }

  /**
    Enumerable.Except: .NET fills a set with the second sequence and yields each
    element of the first whose addition to that set succeeds. `seen` is that set.
   */
  function ExceptFrom<T(==,!new)>(xs: seq<T>, seen: set<T>): (r: seq<T>)
    ensures |r| <= |xs|
    decreases |xs|
  {
    if |xs| == 0 then []
    else if xs[0] in seen then ExceptFrom(xs[1..], seen)
    else [xs[0]] + ExceptFrom(xs[1..], seen + {xs[0]})
  }

  /** What Except yields: each element of `xs` not yet seen, once. */
  lemma {:induction false} ExceptFromContents<T(!new)>(xs: seq<T>, seen: set<T>)
    ensures forall x :: x in ExceptFrom(xs, seen) <==> x in xs && x !in seen
    ensures NoDuplicates(ExceptFrom(xs, seen))
    decreases |xs|
  {
    if |xs| > 0 {
      ExceptFromStep(xs, seen);
      assert forall x :: x in xs <==> x == xs[0] || x in xs[1..] by {
        assert xs == [xs[0]] + xs[1..];
      }
      if xs[0] in seen {
        ExceptFromContents(xs[1..], seen);
      } else {
        var seen' := seen + {xs[0]};
        var r' := ExceptFrom(xs[1..], seen');
        ExceptFromContents(xs[1..], seen');
        var r := [xs[0]] + r';
        forall i, j | 0 <= i < j < |r| ensures r[i] != r[j] {
          if i == 0 { assert r[j] == r'[j - 1] && r[j] in r'; }
          else { assert r[i] == r'[i - 1] && r[j] == r'[j - 1]; }
        }
      }
    }
  }

  function Except<T(==,!new)>(xs: seq<T>, ys: seq<T>): (r: seq<T>)
    ensures forall x :: x in r <==> x in xs && x !in ys
    ensures NoDuplicates(r)
  {
    ExceptFromContents(xs, Elements(ys));
    ExceptFrom(xs, Elements(ys))
  }

  /** Except keeps the first sequence's order: results appear in the order of their first occurrence. */
  lemma {:induction false} ExceptFromOrdered<T(!new)>(xs: seq<T>, seen: set<T>, i: nat, j: nat)
    requires i < j < |ExceptFrom(xs, seen)|
    ensures ExceptFrom(xs, seen)[i] in xs && ExceptFrom(xs, seen)[j] in xs
    ensures FirstIndex(xs, ExceptFrom(xs, seen)[i]) < FirstIndex(xs, ExceptFrom(xs, seen)[j])
    decreases |xs|
  {
    var r := ExceptFrom(xs, seen);
    assert |xs| > 0;
    ExceptFromStep(xs, seen);
    if xs[0] in seen {
      var r' := ExceptFrom(xs[1..], seen);
      assert r[i] == r'[i] && r[j] == r'[j];
      ExceptFromOrdered(xs[1..], seen, i, j);
      ExceptFromTailIndex(xs, seen, i);
      ExceptFromTailIndex(xs, seen, j);
      assert FirstIndex(xs, r'[i]) < FirstIndex(xs, r'[j]);
    } else {
      var seen' := seen + {xs[0]};
      var r' := ExceptFrom(xs[1..], seen');
      assert r[i] == (if i == 0 then xs[0] else r'[i - 1]) && r[j] == r'[j - 1];
      ExceptFromTailIndex(xs, seen', j - 1);
      if i > 0 {
        ExceptFromOrdered(xs[1..], seen', i - 1, j - 1);
        ExceptFromTailIndex(xs, seen', i - 1);
        assert FirstIndex(xs, r'[i - 1]) < FirstIndex(xs, r'[j - 1]);
      } else {
        assert FirstIndex(xs, xs[0]) == 0;
      }
    }
  }

  /** One step of Except: a seen head is skipped, an unseen one is yielded and becomes seen. */
  lemma ExceptFromStep<T(!new)>(xs: seq<T>, seen: set<T>)
    requires |xs| > 0
    ensures xs[0] in seen ==> ExceptFrom(xs, seen) == ExceptFrom(xs[1..], seen)
    ensures xs[0] !in seen ==> ExceptFrom(xs, seen) == [xs[0]] + ExceptFrom(xs[1..], seen + {xs[0]})
  {
  }

  /** An element taken from the tail, once the head is seen, sits one further along in the whole sequence. */
  lemma ExceptFromTailIndex<T(!new)>(xs: seq<T>, seen: set<T>, k: nat)
    requires |xs| > 0 && xs[0] in seen && k < |ExceptFrom(xs[1..], seen)|
    ensures ExceptFrom(xs[1..], seen)[k] in xs && ExceptFrom(xs[1..], seen)[k] in xs[1..]
    ensures FirstIndex(xs, ExceptFrom(xs[1..], seen)[k]) == 1 + FirstIndex(xs[1..], ExceptFrom(xs[1..], seen)[k])
  {
    var y := ExceptFrom(xs[1..], seen)[k];
    ExceptFromContents(xs[1..], seen);
    assert y in ExceptFrom(xs[1..], seen);
    FirstIndexTail(xs, y);
  }

  /** `r` lists elements of `xs` in the order of their first occurrence in `xs`. */
  predicate OrderedBy<T(==)>(r: seq<T>, xs: seq<T>)
  {
    (forall i | 0 <= i < |r| :: r[i] in xs)
    && forall i, j | 0 <= i < j < |r| :: FirstIndex(xs, r[i]) < FirstIndex(xs, r[j])
  }

  lemma ExceptFromKeepsOrder<T(!new)>(xs: seq<T>, seen: set<T>)
    ensures OrderedBy(ExceptFrom(xs, seen), xs)
  {
    var r := ExceptFrom(xs, seen);
    forall i, j | 0 <= i < j < |r| ensures FirstIndex(xs, r[i]) < FirstIndex(xs, r[j]) {
      ExceptFromOrdered(xs, seen, i, j);
    }
  }

  /** Enumerable.Where. */
  function Where<T(!new)>(xs: seq<T>, p: T -> bool): (r: seq<T>)
    ensures |r| <= |xs|
    ensures forall x :: x in r <==> x in xs && p(x)
  {
    if |xs| == 0 then []
    else if p(xs[0]) then [xs[0]] + Where(xs[1..], p)
    else Where(xs[1..], p)
  }

  /** Where with a predicate that holds throughout keeps everything. */
  lemma {:induction false} WhereAll<T(!new)>(xs: seq<T>, p: T -> bool)
    requires forall x | x in xs :: p(x)
    ensures Where(xs, p) == xs
  {
    if xs != [] {
      WhereAll(xs[1..], p);
      assert xs == [xs[0]] + xs[1..];
    }
  }

  lemma OrderedByTail<T>(r: seq<T>, xs: seq<T>)
    requires r != [] && OrderedBy(r, xs)
    ensures OrderedBy(r[1..], xs)
    ensures forall y | y in r[1..] :: FirstIndex(xs, r[0]) < FirstIndex(xs, y)
  {
    forall i, j | 0 <= i < j < |r[1..]| ensures FirstIndex(xs, r[1..][i]) < FirstIndex(xs, r[1..][j]) {
      assert r[1..][i] == r[i + 1] && r[1..][j] == r[j + 1];
    }
    forall y | y in r[1..] ensures FirstIndex(xs, r[0]) < FirstIndex(xs, y) {
      var k :| 0 <= k < |r[1..]| && r[1..][k] == y;
      assert r[k + 1] == y;
    }
  }

  lemma OrderedByCons<T>(x: T, w: seq<T>, xs: seq<T>)
    requires x in xs && OrderedBy(w, xs) && NoDuplicates(w)
    requires forall y | y in w :: FirstIndex(xs, x) < FirstIndex(xs, y)
    ensures OrderedBy([x] + w, xs) && NoDuplicates([x] + w)
  {
    var out := [x] + w;
    forall i, j | 0 <= i < j < |out| ensures FirstIndex(xs, out[i]) < FirstIndex(xs, out[j]) && out[i] != out[j] {
      if i == 0 { assert out[j] == w[j - 1] && out[j] in w; }
      else { assert out[i] == w[i - 1] && out[j] == w[j - 1]; }
    }
  }

  /** Where keeps the relative order of what it keeps, and adds no duplicates. */
  lemma {:induction false} WhereKeepsOrder<T(!new)>(r: seq<T>, p: T -> bool, xs: seq<T>)
    requires OrderedBy(r, xs) && NoDuplicates(r)
    ensures OrderedBy(Where(r, p), xs) && NoDuplicates(Where(r, p))
  {
    if r != [] {
      OrderedByTail(r, xs);
      assert NoDuplicates(r[1..]) by {
        forall i, j | 0 <= i < j < |r[1..]| ensures r[1..][i] != r[1..][j] {
          assert r[1..][i] == r[i + 1] && r[1..][j] == r[j + 1];
        }
      }
      WhereKeepsOrder(r[1..], p, xs);
      if p(r[0]) {
        OrderedByCons(r[0], Where(r[1..], p), xs);
      }
    }
  }

  lemma FirstIndexTail<T>(xs: seq<T>, x: T)
    requires |xs| > 0 && x in xs[1..] && x != xs[0]
    ensures FirstIndex(xs, x) == 1 + FirstIndex(xs[1..], x)
  {
  }

  lemma ElementsHead<T(!new)>(xs: seq<T>)
    ensures xs != [] ==> xs[0] in Elements(xs)
  {
  }

  /** Strictly ascending in the ordinal order: sorted and without duplicates. */
  predicate StrictlySorted(xs: seq<string>)
  {
    forall i, j | 0 <= i < j < |xs| :: Less(xs[i], xs[j])
  }

  /** Insert `x` into a strictly ascending sequence, keeping it strictly ascending. */
  function Insert(x: string, xs: seq<string>): (r: seq<string>)
    requires StrictlySorted(xs)
    ensures StrictlySorted(r)
    ensures Elements(r) == Elements(xs) + {x}
    decreases |xs|
  {
    if |xs| == 0 then [x]
    else if x == xs[0] then xs
    else if Less(x, xs[0]) then
      PrependSmaller(x, xs);
      [x] + xs
    else
      LessTotal(x, xs[0]);
      var rest := Insert(x, xs[1..]);
      PrependHead(xs, x, rest);
      [xs[0]] + rest
  }

  /** An element below the head of a strictly ascending sequence goes in front. */
  lemma PrependSmaller(x: string, xs: seq<string>)
    requires StrictlySorted(xs) && |xs| > 0 && Less(x, xs[0])
    ensures StrictlySorted([x] + xs) && Elements([x] + xs) == Elements(xs) + {x}
  {
    var r := [x] + xs;
    forall i, j | 0 <= i < j < |r| ensures Less(r[i], r[j]) {
      if i == 0 {
        if j > 1 { LessTransitive(x, xs[0], xs[j - 1]); }
      } else {
        assert r[i] == xs[i - 1] && r[j] == xs[j - 1];
      }
    }
  }

  lemma HeadBelowRest(xs: seq<string>, x: string, rest: seq<string>)
    requires StrictlySorted(xs) && |xs| > 0 && Less(xs[0], x)
    requires Elements(rest) == Elements(xs[1..]) + {x}
    ensures forall y | y in rest :: Less(xs[0], y)
  {
    forall y | y in rest ensures Less(xs[0], y) {
      if y != x {
        assert y in Elements(rest);
        assert y in Elements(xs[1..]);
        var k :| 0 <= k < |xs[1..]| && xs[1..][k] == y;
        assert xs[k + 1] == y;
      }
    }
  }

  /** The head stays in front of the tail with `x` inserted, when the head is below `x`. */
  lemma PrependHead(xs: seq<string>, x: string, rest: seq<string>)
    requires StrictlySorted(xs) && |xs| > 0 && Less(xs[0], x)
    requires StrictlySorted(rest) && Elements(rest) == Elements(xs[1..]) + {x}
    ensures StrictlySorted([xs[0]] + rest) && Elements([xs[0]] + rest) == Elements(xs) + {x}
  {
    assert Elements(xs) == {xs[0]} + Elements(xs[1..]) by { assert xs == [xs[0]] + xs[1..]; }
    HeadBelowRest(xs, x, rest);
    var r := [xs[0]] + rest;
    assert Elements(r) == {xs[0]} + Elements(rest);
    forall i, j | 0 <= i < j < |r| ensures Less(r[i], r[j]) {
      if i == 0 { assert r[j] == rest[j - 1] && r[j] in rest; }
      else { assert r[i] == rest[i - 1] && r[j] == rest[j - 1]; }
    }
  }

  /** Distinct().OrderBy(x => x): each distinct string once, ascending. */
  function SortedDistinct(xs: seq<string>): (r: seq<string>)
    ensures StrictlySorted(r)
    ensures Elements(r) == Elements(xs)
    decreases |xs|
  {
    if xs == [] then []
    else
      assert Elements(xs) == {xs[0]} + Elements(xs[1..]) by { assert xs == [xs[0]] + xs[1..]; }
      Insert(xs[0], SortedDistinct(xs[1..]))
  }

  lemma StrictlySortedNoDuplicates(xs: seq<string>)
    requires StrictlySorted(xs)
    ensures NoDuplicates(xs)
  {
    forall i, j | 0 <= i < j < |xs| ensures xs[i] != xs[j] {
      if xs[i] == xs[j] { LessIrreflexive(xs[i]); }
    }
  }

  /** A strictly ascending sequence is determined by its elements: the sort order is canonical. */
  lemma {:induction false} StrictlySortedUnique(a: seq<string>, b: seq<string>)
    requires StrictlySorted(a) && StrictlySorted(b)
    requires Elements(a) == Elements(b)
    ensures a == b
    decreases |a|
  {
    if a == [] {
      ElementsHead(b);
    } else {
      assert a[0] in Elements(b);
      assert b != [];
      assert b[0] in Elements(a);
      if a[0] != b[0] {
        var k :| 0 <= k < |a| && a[k] == b[0];
        var m :| 0 <= m < |b| && b[m] == a[0];
        assert k > 0 && m > 0;
        LessTransitive(a[0], b[0], a[0]);
        LessIrreflexive(a[0]);
      }
      assert Elements(a[1..]) == Elements(b[1..]) by {
        forall y ensures y in Elements(a[1..]) <==> y in Elements(b[1..]) {
          StrictlySortedNoDuplicates(a);
          StrictlySortedNoDuplicates(b);
          assert a == [a[0]] + a[1..] && b == [b[0]] + b[1..];
          assert y in Elements(a[1..]) <==> y in Elements(a) && y != a[0];
          assert y in Elements(b[1..]) <==> y in Elements(b) && y != b[0];
        }
      }
      StrictlySortedUnique(a[1..], b[1..]);
      assert a == [a[0]] + a[1..] && b == [b[0]] + b[1..];
    }
  }
}
