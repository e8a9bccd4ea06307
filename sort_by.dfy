/** lodash's `_.sortBy(collection, [iteratee1, iteratee2])` for two property
    iteratees. lodash reads both properties of every element up front into a
    `{ criteria, index, value }` record, sorts those records with
    `compareMultiple` (first property, then second, then the original index,
    which makes the sort stable) and maps back to the values. Property values
    here are strings or `undefined`. */
module SortBy {
  import opened Text

  /** JavaScript's `a < b` on strings: character by character, and a proper
      prefix before the longer string. It is strict. */
  predicate StrLess(a: string, b: string)
    ensures StrLess(a, b) ==> a != b
    ensures |a| < |b| && a == b[..|a|] ==> StrLess(a, b)
    decreases |a|
  {
    if |a| == 0 then |b| > 0
    else if |b| == 0 then false
    else
      assert |a| < |b| && a == b[..|a|] ==> a[1..] == b[1..][..|a| - 1];
      a[0] < b[0] || (a[0] == b[0] && StrLess(a[1..], b[1..]))
  }

  lemma {:induction false} StrLessTransitive(a: string, b: string, c: string)
    requires StrLess(a, b) && StrLess(b, c)
    ensures StrLess(a, c)
    decreases |a|
  {
    if |a| > 0 && a[0] == b[0] && b[0] == c[0] {
      StrLessTransitive(a[1..], b[1..], c[1..]);
    }
  }

  lemma {:induction false} StrLessTotal(a: string, b: string)
    requires a != b
    ensures StrLess(a, b) || StrLess(b, a)
    decreases |a|
  {
    if |a| > 0 && |b| > 0 && a[0] == b[0] {
      assert a == [a[0]] + a[1..] && b == [b[0]] + b[1..];
      StrLessTotal(a[1..], b[1..]);
    }
  }

  /** `compareAscending(a, b) < 0`: two strings by `<`; a defined value before
      `undefined`; equal values (two `undefined`s among them) tie. */
  predicate ValueBefore(a: Option<string>, b: Option<string>)
    ensures ValueBefore(a, b) ==> a.Some? && a != b
    ensures a.Some? && b.None? ==> ValueBefore(a, b)
  {
    (a.Some? && b.None?) || (a.Some? && b.Some? && StrLess(a.value, b.value))
  }

  lemma ValueBeforeTransitive(a: Option<string>, b: Option<string>, c: Option<string>)
    requires ValueBefore(a, b) && ValueBefore(b, c)
    ensures ValueBefore(a, c)
  {
    if c.Some? {
      StrLessTransitive(a.value, b.value, c.value);
    }
  }

  lemma ValueBeforeTotal(a: Option<string>, b: Option<string>)
    requires a != b
    ensures ValueBefore(a, b) || ValueBefore(b, a)
  {
    if a.Some? && b.Some? {
      StrLessTotal(a.value, b.value);
    }
  }

  /** What lodash records for one element: its two property values and its
      position in the input. */
  datatype Criteria = Criteria(first: Option<string>, second: Option<string>, index: nat)

  /** `compareMultiple(x, y) < 0`: strict, and among equal property values
      the earlier position comes first. */
  predicate Before(x: Criteria, y: Criteria)
    ensures Before(x, y) ==> x != y
    ensures x.first == y.first && x.second == y.second ==> (Before(x, y) <==> x.index < y.index)
  {
    || ValueBefore(x.first, y.first)
    || (x.first == y.first && ValueBefore(x.second, y.second))
    || (x.first == y.first && x.second == y.second && x.index < y.index)
  }

  lemma BeforeTransitive(x: Criteria, y: Criteria, z: Criteria)
    requires Before(x, y) && Before(y, z)
    ensures Before(x, z)
  {
    if ValueBefore(x.first, y.first) && ValueBefore(y.first, z.first) {
      ValueBeforeTransitive(x.first, y.first, z.first);
    } else if x.first == y.first == z.first && ValueBefore(x.second, y.second) && ValueBefore(y.second, z.second) {
      ValueBeforeTransitive(x.second, y.second, z.second);
    }
  }

  lemma BeforeTotal(x: Criteria, y: Criteria)
    requires x != y
    ensures Before(x, y) || Before(y, x)
  {
    if x.first != y.first {
      ValueBeforeTotal(x.first, y.first);
    } else if x.second != y.second {
      ValueBeforeTotal(x.second, y.second);
    }
  }

  predicate Sorted(s: seq<Criteria>) {
    forall i, j :: 0 <= i < j < |s| ==> Before(s[i], s[j])
  }

  predicate Distinct(s: seq<Criteria>) {
    forall i, j :: 0 <= i < j < |s| ==> s[i] != s[j]
  }

  /** Putting an element before a sorted sequence whose head it precedes
      keeps it sorted. */
  lemma SortedCons(x: Criteria, s: seq<Criteria>)
    requires Sorted(s)
    requires forall j :: 0 <= j < |s| ==> Before(x, s[j])
    ensures Sorted([x] + s)
  {
    forall i, j | 0 <= i < j < |s| + 1
      ensures Before(([x] + s)[i], ([x] + s)[j])
    {
      if i > 0 {
        assert ([x] + s)[i] == s[i - 1];
      }
      assert ([x] + s)[j] == s[j - 1];
    }
  }

  function Insert(x: Criteria, s: seq<Criteria>): (r: seq<Criteria>)
    requires Sorted(s) && x !in s
    ensures multiset(r) == multiset(s) + multiset{x}
    ensures Sorted(r)
  {
    if |s| == 0 then [x]
    else if Before(x, s[0]) then
      assert forall j :: 0 <= j < |s| ==> Before(x, s[j]) by {
        forall j | 0 < j < |s|
          ensures Before(x, s[j])
        {
          BeforeTransitive(x, s[0], s[j]);
        }
      }
      SortedCons(x, s);
      [x] + s
    else
      var tail := Insert(x, s[1..]);
      assert s == [s[0]] + s[1..];
      assert forall j :: 0 <= j < |tail| ==> Before(s[0], tail[j]) by {
        BeforeTotal(x, s[0]);
        forall j | 0 <= j < |tail|
          ensures Before(s[0], tail[j])
        {
          assert tail[j] in multiset(tail);
          assert tail[j] == x || tail[j] in s[1..];
        }
      }
      SortedCons(s[0], tail);
      [s[0]] + tail
  }

  /** The sorted order: a permutation of the criteria, in strictly ascending
      `Before` order. */
  function SortCriteria(cs: seq<Criteria>): (r: seq<Criteria>)
    requires Distinct(cs)
    ensures multiset(r) == multiset(cs)
    ensures Sorted(r)
  {
    if |cs| == 0 then []
    else
      var rest := SortCriteria(cs[1..]);
      assert cs == [cs[0]] + cs[1..];
      assert cs[0] !in cs[1..];
      assert cs[0] !in multiset(rest);
      Insert(cs[0], rest)
  }

  /** `Before` is a strict total order on distinct criteria (the index tie
      breaker makes every pair distinct), so there is exactly one sorted
      arrangement: whatever algorithm the JavaScript engine's sort uses, it
      yields the same order as `SortCriteria`. */
  lemma {:induction false} SortedUnique(a: seq<Criteria>, b: seq<Criteria>)
    requires Sorted(a) && Sorted(b) && multiset(a) == multiset(b)
    ensures a == b
    decreases |a|
  {
    assert |a| == |multiset(a)| == |multiset(b)| == |b|;
    if |a| > 0 {
      SortedSameHead(a, b);
      assert multiset(a[1..]) == multiset(b[1..]) by {
        assert a == [a[0]] + a[1..] && b == [b[0]] + b[1..];
        assert multiset(a[1..]) == multiset(a) - multiset{a[0]};
        assert multiset(b[1..]) == multiset(b) - multiset{b[0]};
      }
      SortedTail(a);
      SortedTail(b);
      SortedUnique(a[1..], b[1..]);
      assert a == [a[0]] + a[1..] && b == [b[0]] + b[1..];
    }
  }

  lemma SortedTail(s: seq<Criteria>)
    requires Sorted(s) && |s| > 0
    ensures Sorted(s[1..])
  {
    forall i, j | 0 <= i < j < |s| - 1
      ensures Before(s[1..][i], s[1..][j])
    {
      assert s[1..][i] == s[i + 1] && s[1..][j] == s[j + 1];
    }
  }

  /** Two sorted arrangements of the same elements start with the same one. */
  lemma SortedSameHead(a: seq<Criteria>, b: seq<Criteria>)
    requires Sorted(a) && Sorted(b) && multiset(a) == multiset(b)
    requires |a| > 0 && |b| > 0
    ensures a[0] == b[0]
  {
    assert a[0] in multiset(b) && b[0] in multiset(a);
    var j :| 0 <= j < |b| && b[j] == a[0];
    var i :| 0 <= i < |a| && a[i] == b[0];
    if j > 0 {
      assert Before(b[0], a[0]);
      assert i > 0 && Before(a[0], b[0]);
      BeforeTransitive(a[0], b[0], a[0]);
      assert false;
    }
  }
}
