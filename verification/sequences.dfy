/** `Array.prototype.filter`, `find`, `[...new Set(…)]` and counting, with the facts every list
    screen relies on: a filter keeps exactly the matching elements, in order, and drops nothing else. */
module Sequences {
  import opened Wrappers

  /** `xs.filter(p)`. */
  function Filter<T>(xs: seq<T>, p: T -> bool): (r: seq<T>)
    ensures |r| <= |xs|
  {
    if |xs| == 0 then []
    else if p(xs[0]) then [xs[0]] + Filter(xs[1..], p)
    else Filter(xs[1..], p)
  }

  /** Number of elements satisfying `p` (`xs.filter(p).length`). */
  function Count<T>(xs: seq<T>, p: T -> bool): nat {
    |Filter(xs, p)|
  }

  /** `sub` can be obtained from `xs` by deleting elements: order is preserved. */
  predicate IsSubsequence<T(==)>(sub: seq<T>, xs: seq<T>)
    decreases |xs|
  {
    if |sub| == 0 then true
    else if |xs| == 0 then false
    else if sub[0] == xs[0] then IsSubsequence(sub[1..], xs[1..])
    else IsSubsequence(sub, xs[1..])
  }

  lemma {:induction false} SubsequenceRefl<T>(xs: seq<T>)
    ensures IsSubsequence(xs, xs)
  {
    if |xs| > 0 {
      SubsequenceRefl(xs[1..]);
    }
  }

  /** An element is kept iff it is in the input and matches. */
  lemma {:induction false} FilterMembership<T>(xs: seq<T>, p: T -> bool, x: T)
    ensures x in Filter(xs, p) <==> x in xs && p(x)
  {
    if |xs| > 0 {
      FilterMembership(xs[1..], p, x);
      assert xs == [xs[0]] + xs[1..];
    }
  }

  /** Each element is kept as often as it occurs when it matches, and never otherwise. */
  lemma {:induction false} FilterMultiplicity<T>(xs: seq<T>, p: T -> bool)
    ensures forall x :: multiset(Filter(xs, p))[x] == if p(x) then multiset(xs)[x] else 0
  {
    if |xs| > 0 {
      FilterMultiplicity(xs[1..], p);
      assert xs == [xs[0]] + xs[1..];
      assert multiset(xs) == multiset{xs[0]} + multiset(xs[1..]);
      if p(xs[0]) {
        assert multiset(Filter(xs, p)) == multiset{xs[0]} + multiset(Filter(xs[1..], p));
      }
    }
  }

  /** Every kept element matches. */
  lemma {:induction false} FilterAllMatch<T>(xs: seq<T>, p: T -> bool)
    ensures forall i :: 0 <= i < |Filter(xs, p)| ==> p(Filter(xs, p)[i])
  {
    if |xs| > 0 {
      FilterAllMatch(xs[1..], p);
    }
  }

  /** The result is an order-preserving subsequence of the input. */
  lemma {:induction false} FilterIsSubsequence<T>(xs: seq<T>, p: T -> bool)
    ensures IsSubsequence(Filter(xs, p), xs)
  {
    if |xs| > 0 {
      FilterIsSubsequence(xs[1..], p);
      if !p(xs[0]) {
        SubsequenceOfTail(Filter(xs[1..], p), xs);
      }
    }
  }

  lemma {:induction false} SubsequenceOfTail<T>(sub: seq<T>, xs: seq<T>)
    requires |xs| > 0
    requires IsSubsequence(sub, xs[1..])
    ensures IsSubsequence(sub, xs)
    decreases |xs| + |sub|
  {
    if |sub| > 0 && sub[0] == xs[0] {
      SubsequenceDropHead(sub, xs[1..]);
    }
  }

  lemma {:induction false} SubsequenceDropHead<T>(sub: seq<T>, xs: seq<T>)
    requires |sub| > 0
    requires IsSubsequence(sub, xs)
    ensures IsSubsequence(sub[1..], xs)
    decreases |xs| + |sub|
  {
    if sub[0] != xs[0] {
      SubsequenceDropHead(sub, xs[1..]);
    }
    SubsequenceOfTail(sub[1..], xs);
  }

  /** A predicate that holds everywhere keeps the whole list. */
  lemma {:induction false} FilterKeepsAll<T>(xs: seq<T>, p: T -> bool)
    requires forall i :: 0 <= i < |xs| ==> p(xs[i])
    ensures Filter(xs, p) == xs
  {
    if |xs| > 0 {
      FilterKeepsAll(xs[1..], p);
    }
  }

  /** A predicate that holds nowhere keeps nothing. */
  lemma {:induction false} FilterDropsAll<T>(xs: seq<T>, p: T -> bool)
    requires forall i :: 0 <= i < |xs| ==> !p(xs[i])
    ensures Filter(xs, p) == []
  {
    if |xs| > 0 {
      FilterDropsAll(xs[1..], p);
    }
  }

  /** Filtering with two predicates that agree on the list gives the same result. */
  lemma {:induction false} FilterCongruent<T>(xs: seq<T>, p: T -> bool, q: T -> bool)
    requires forall i :: 0 <= i < |xs| ==> p(xs[i]) == q(xs[i])
    ensures Filter(xs, p) == Filter(xs, q)
  {
    if |xs| > 0 {
      FilterCongruent(xs[1..], p, q);
    }
  }

  /** Taking the head off one of two permutations of each other, and an equal element off the
      other, leaves permutations of each other. */
  lemma RemoveMatchingHead<T>(a: seq<T>, b: seq<T>, k: nat)
    requires |a| > 0 && k < |b| && b[k] == a[0] && multiset(a) == multiset(b)
    ensures multiset(a[1..]) == multiset(b[..k] + b[k + 1..])
  {
    assert a == [a[0]] + a[1..];
    assert b == b[..k] + [b[k]] + b[k + 1..];
    assert multiset(a) == multiset{a[0]} + multiset(a[1..]);
    assert multiset(b) == multiset(b[..k]) + multiset{b[k]} + multiset(b[k + 1..]);
    assert multiset(b[..k] + b[k + 1..]) == multiset(b[..k]) + multiset(b[k + 1..]);
    assert multiset(a[1..]) == multiset(a) - multiset{a[0]};
    assert multiset(b[..k]) + multiset(b[k + 1..]) == multiset(b) - multiset{b[k]};
  }

  /** Counts of three mutually exclusive, jointly exhaustive classes add up to the length. */
  lemma {:induction false} CountPartition3<T>(xs: seq<T>, a: T -> bool, b: T -> bool, c: T -> bool)
    requires forall i :: 0 <= i < |xs| ==> (if a(xs[i]) then 1 else 0) + (if b(xs[i]) then 1 else 0) + (if c(xs[i]) then 1 else 0) == 1
    ensures Count(xs, a) + Count(xs, b) + Count(xs, c) == |xs|
  {
    if |xs| > 0 {
      CountPartition3(xs[1..], a, b, c);
    }
  }

  /** `items.find(p)`: the first element satisfying `p`, if any. */
  function Find<T>(items: seq<T>, p: T -> bool): (r: Option<T>)
    ensures r.Some? ==> r.value in items && p(r.value)
    ensures r.None? <==> forall i :: 0 <= i < |items| ==> !p(items[i])
  {
    if |items| == 0 then None
    else if p(items[0]) then Some(items[0])
    else Find(items[1..], p)
  }

  /** The element `Find` returns sits at an index before which nothing matches. */
  lemma {:induction false} FindIsFirst<T>(items: seq<T>, p: T -> bool)
    requires Find(items, p).Some?
    ensures exists k :: 0 <= k < |items| && items[k] == Find(items, p).value && forall j :: 0 <= j < k ==> !p(items[j])
  {
    if !p(items[0]) {
      FindIsFirst(items[1..], p);
      var k :| 0 <= k < |items[1..]| && items[1..][k] == Find(items[1..], p).value && forall j :: 0 <= j < k ==> !p(items[1..][j]);
      assert items[k + 1] == Find(items, p).value;
      assert forall j :: 0 <= j < k + 1 ==> !p(items[j]) by {
        forall j | 0 <= j < k + 1 ensures !p(items[j]) {
          if j > 0 { assert items[j] == items[1..][j - 1]; }
        }
      }
    } else {
      assert items[0] == Find(items, p).value;
    }
  }

  /** `[...new Set(xs)]` on a list of strings: each value once, in the order of its first occurrence. */
  function Distinct(xs: seq<string>): seq<string> {
    DistinctFrom(xs, [])
  }

  function DistinctFrom(xs: seq<string>, seen: seq<string>): (r: seq<string>)
    decreases |xs|
  {
    if |xs| == 0 then []
    else if xs[0] in seen then DistinctFrom(xs[1..], seen)
    else [xs[0]] + DistinctFrom(xs[1..], seen + [xs[0]])
  }

  predicate NoDuplicates(xs: seq<string>) {
    forall i, j :: 0 <= i < j < |xs| ==> xs[i] != xs[j]
  }

  /** Index of the first occurrence of `x` in `xs`. */
  function FirstIndex(xs: seq<string>, x: string): (k: nat)
    requires x in xs
    ensures k < |xs| && xs[k] == x
    ensures forall j :: 0 <= j < k ==> xs[j] != x
  {
    if xs[0] == x then 0 else 1 + FirstIndex(xs[1..], x)
  }

  lemma {:induction false} DistinctFromFacts(xs: seq<string>, seen: seq<string>)
    ensures forall x: string :: x in DistinctFrom(xs, seen) <==> x in xs && x !in seen
    ensures NoDuplicates(DistinctFrom(xs, seen))
    decreases |xs|
  {
    if |xs| > 0 {
      DistinctFromFacts(xs[1..], seen + [xs[0]]);
      DistinctFromFacts(xs[1..], seen);
      assert forall x :: x in xs <==> x == xs[0] || x in xs[1..] by {
        assert xs == [xs[0]] + xs[1..];
      }
    }
  }

  /** `Distinct` lists exactly the values of the input, each once. */
  lemma DistinctFacts(xs: seq<string>)
    ensures forall x: string :: x in Distinct(xs) <==> x in xs
    ensures NoDuplicates(Distinct(xs))
  {
    DistinctFromFacts(xs, []);
  }

  /** Every value of `r` occurs in `xs`, and `r` lists them by increasing first index in `xs`. */
  predicate InFirstOccurrenceOrder(r: seq<string>, xs: seq<string>) {
    && (forall i :: 0 <= i < |r| ==> r[i] in xs)
    && (forall i, j :: 0 <= i < j < |r| ==> FirstIndex(xs, r[i]) < FirstIndex(xs, r[j]))
  }

  lemma {:induction false} DistinctFromOrder(xs: seq<string>, seen: seq<string>)
    ensures InFirstOccurrenceOrder(DistinctFrom(xs, seen), xs)
    decreases |xs|
  {
    if |xs| > 0 {
      var s' := if xs[0] in seen then seen else seen + [xs[0]];
      var rest := DistinctFrom(xs[1..], s');
      DistinctFromOrder(xs[1..], s');
      DistinctFromFacts(xs[1..], s');
      assert forall k :: 0 <= k < |rest| ==> rest[k] != xs[0] by {
        forall k | 0 <= k < |rest| ensures rest[k] != xs[0] {
          assert rest[k] in rest;
        }
      }
      OrderInTail(xs, rest);
    }
  }

  /** Values ordered by first index in the tail of `xs`, none of them its head, are ordered the
      same way in `xs` itself, and stay ordered with the head put in front. */
  lemma OrderInTail(xs: seq<string>, rest: seq<string>)
    requires |xs| > 0 && InFirstOccurrenceOrder(rest, xs[1..])
    requires forall k :: 0 <= k < |rest| ==> rest[k] != xs[0]
    ensures InFirstOccurrenceOrder(rest, xs)
    ensures InFirstOccurrenceOrder([xs[0]] + rest, xs)
  {
    forall k | 0 <= k < |rest|
      ensures rest[k] in xs && FirstIndex(xs, rest[k]) == 1 + FirstIndex(xs[1..], rest[k])
    {
      FirstIndexTail(xs, rest[k]);
    }
    var r := [xs[0]] + rest;
    forall i, j | 0 <= i < j < |r|
      ensures FirstIndex(xs, r[i]) < FirstIndex(xs, r[j])
    {
      assert r[j] == rest[j - 1];
      if i > 0 {
        assert r[i] == rest[i - 1];
      }
    }
  }

  lemma FirstIndexTail(xs: seq<string>, x: string)
    requires |xs| > 0 && x in xs[1..] && x != xs[0]
    ensures x in xs && FirstIndex(xs, x) == 1 + FirstIndex(xs[1..], x)
  {
  }

  /** `Distinct` keeps first-occurrence order. */
  lemma DistinctOrder(xs: seq<string>)
    ensures InFirstOccurrenceOrder(Distinct(xs), xs)
  {
    DistinctFromOrder(xs, []);
  }

  /** `xs.reduce((sum, v) => sum + v, 0)`. */
  function Sum(xs: seq<int>): int {
    if |xs| == 0 then 0 else xs[0] + Sum(xs[1..])
  }
}
