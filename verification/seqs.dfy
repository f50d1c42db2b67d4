/**
 Sequence helpers shared by the reporter and the round-trip planner:
 duplicate-free sequences, first-occurrence de-duplication (the behaviour of
 `Array.from(new Set(xs))`), string joining and suffix tests.
 */
module Seqs {

  /** No element occurs twice. */
  predicate NoDup<T(==)>(s: seq<T>) {
    forall i, j :: 0 <= i < j < |s| ==> s[i] != s[j]
  }

  /** The index of the first occurrence of `x` in `s`. */
  function FirstIndex<T(==)>(s: seq<T>, x: T): (i: nat)
    requires x in s
    ensures i < |s| && s[i] == x
    ensures x !in s[..i]
  {
    if s[0] == x then 0 else 1 + FirstIndex(s[1..], x)
  }

  /**
   Removes repeated elements, keeping each element at its first occurrence,
   as an insertion-ordered set read back into an array does.
   */
  function Dedup<T(==)>(s: seq<T>): (r: seq<T>)
    ensures NoDup(r)
    ensures forall i :: 0 <= i < |r| ==> r[i] in s
    ensures forall i :: 0 <= i < |s| ==> s[i] in r
    ensures |r| <= |s|
  {
    if |s| == 0 then []
    else
      var init := s[..|s| - 1];
      var last := s[|s| - 1];
      assert s == init + [last];
      var d := Dedup(init);
      if last in d then d else d + [last]
  }

  /** Any index holding `x` with no earlier `x` is the first index of `x`. */
  lemma FirstIndexUnique<T>(s: seq<T>, x: T, i: nat)
    requires i < |s| && s[i] == x && x !in s[..i]
    ensures FirstIndex(s, x) == i
  {
    var k := FirstIndex(s, x);
    forall m | 0 <= m < i
      ensures s[m] != x
    {
      assert s[..i][m] == s[m];
    }
    forall m | 0 <= m < k
      ensures s[m] != x
    {
      assert s[..k][m] == s[m];
    }
  }

  /** Appending elements does not move the first occurrence of an element already present. */
  lemma FirstIndexAppend<T>(p: seq<T>, q: seq<T>, x: T)
    requires x in p
    ensures FirstIndex(p + q, x) == FirstIndex(p, x)
  {
    var i := FirstIndex(p, x);
    assert (p + q)[..i] == p[..i];
    FirstIndexUnique(p + q, x, i);
  }

  /** Appending an element does not move the first occurrence of any element of `d`. */
  lemma FirstIndexAppendAll<T>(init: seq<T>, last: T, d: seq<T>)
    requires forall k :: 0 <= k < |d| ==> d[k] in init
    ensures forall k :: 0 <= k < |d| ==> FirstIndex(init + [last], d[k]) == FirstIndex(init, d[k]) < |init|
  {
    forall k | 0 <= k < |d|
      ensures FirstIndex(init + [last], d[k]) == FirstIndex(init, d[k]) < |init|
    {
      FirstIndexAppend(init, [last], d[k]);
    }
  }

  /** An element not yet seen gets a first index after every element seen before it. */
  lemma FirstIndexOfNew<T>(init: seq<T>, last: T)
    requires last !in init
    ensures FirstIndex(init + [last], last) == |init|
  {
    var s := init + [last];
    assert s[..|init|] == init;
    FirstIndexUnique(s, last, |init|);
  }

  /** Appending an element to `init` keeps the first-index order of elements already in it. */
  lemma OrderAfterAppend<T>(init: seq<T>, last: T, d: seq<T>)
    requires forall k :: 0 <= k < |d| ==> d[k] in init
    requires forall i, j :: 0 <= i < j < |d| ==> FirstIndex(init, d[i]) < FirstIndex(init, d[j])
    ensures forall i, j :: 0 <= i < j < |d| ==> FirstIndex(init + [last], d[i]) < FirstIndex(init + [last], d[j])
  {
    FirstIndexAppendAll(init, last, d);
  }

  /** A new element appended to both keeps the first-index order. */
  lemma OrderAfterAppendNew<T>(init: seq<T>, last: T, d: seq<T>)
    requires forall k :: 0 <= k < |d| ==> d[k] in init
    requires last !in init
    requires forall i, j :: 0 <= i < j < |d| ==> FirstIndex(init, d[i]) < FirstIndex(init, d[j])
    ensures forall i, j :: 0 <= i < j < |d| + 1 ==>
      FirstIndex(init + [last], (d + [last])[i]) < FirstIndex(init + [last], (d + [last])[j])
  {
    var s, r := init + [last], d + [last];
    FirstIndexAppendAll(init, last, d);
    FirstIndexOfNew(init, last);
    forall i, j | 0 <= i < j < |r|
      ensures FirstIndex(s, r[i]) < FirstIndex(s, r[j])
    {
      assert r[i] == d[i];
      if j < |d| {
        assert r[j] == d[j];
      }
    }
  }

  /** One step of de-duplication keeps the first-occurrence order. */
  lemma DedupOrderStep<T>(init: seq<T>, last: T)
    requires forall i, j :: 0 <= i < j < |Dedup(init)| ==>
      FirstIndex(init, Dedup(init)[i]) < FirstIndex(init, Dedup(init)[j])
    ensures forall i, j :: 0 <= i < j < |Dedup(init + [last])| ==>
      FirstIndex(init + [last], Dedup(init + [last])[i]) < FirstIndex(init + [last], Dedup(init + [last])[j])
  {
    var s := init + [last];
    var d := Dedup(init);
    assert s[..|s| - 1] == init && s[|s| - 1] == last;
    if last in d {
      assert Dedup(s) == d;
      OrderAfterAppend(init, last, d);
    } else {
      assert Dedup(s) == d + [last];
      assert last !in init;
      OrderAfterAppendNew(init, last, d);
    }
  }

  /** De-duplication lists the elements in the order of their first occurrence. */
  lemma {:induction false} DedupKeepsFirstOccurrenceOrder<T>(s: seq<T>)
    ensures forall i, j :: 0 <= i < j < |Dedup(s)| ==>
      FirstIndex(s, Dedup(s)[i]) < FirstIndex(s, Dedup(s)[j])
  {
    if |s| > 0 {
      var init := s[..|s| - 1];
      var last := s[|s| - 1];
      assert s == init + [last];
      DedupKeepsFirstOccurrenceOrder(init);
      DedupOrderStep(init, last);
    }
  }

  /** An element given twice is kept once. */
  lemma DedupTwice<T>(x: T)
    ensures Dedup([x, x]) == [x]
  {
    assert [x, x][..1] == [x];
    assert [x][..0] == [];
    assert Dedup([x]) == [x];
  }

  /** Appending one element to the input appends it to the output unless it was already there. */
  lemma DedupSnoc<T>(s: seq<T>, x: T)
    ensures Dedup(s + [x]) == if x in Dedup(s) then Dedup(s) else Dedup(s) + [x]
  {
    var t := s + [x];
    assert t[..|t| - 1] == s && t[|t| - 1] == x;
  }

  lemma DedupPair<T>(a: T, b: T)
    requires a != b
    ensures Dedup([a, b]) == [a, b]
  {
    DedupSnoc([], a);
    assert [] + [a] == [a];
    DedupSnoc([a], b);
    assert [a] + [b] == [a, b];
  }

  lemma DedupPairThenFirst<T>(a: T, b: T)
    requires a != b
    ensures Dedup([a, b, a]) == [a, b]
  {
    DedupPair(a, b);
    DedupSnoc([a, b], a);
    assert [a, b] + [a] == [a, b, a];
  }

  /** With `a`, `b`, `c` distinct, the repeated `a` of `[a, b, a, c]` is dropped. */
  lemma DedupSharedFirst<T>(a: T, b: T, c: T)
    requires a != b && a != c && b != c
    ensures Dedup([a, b, a, c]) == [a, b, c]
  {
    DedupPairThenFirst(a, b);
    DedupSnoc([a, b, a], c);
    assert [a, b, a] + [c] == [a, b, a, c];
  }

  /** A sequence without repetitions is its own de-duplication. */
  lemma {:induction false} DedupOfNoDup<T>(s: seq<T>)
    requires NoDup(s)
    ensures Dedup(s) == s
  {
    if |s| > 0 {
      var init := s[..|s| - 1];
      var last := s[|s| - 1];
      assert NoDup(init);
      DedupOfNoDup(init);
      assert forall m :: 0 <= m < |init| ==> init[m] != last;
      assert s == init + [last];
      DedupSnoc(init, last);
    }
  }

  /** In a sequence without repetitions every element occurs exactly once. */
  lemma {:induction false} NoDupMultiplicity<T>(s: seq<T>, x: T)
    requires NoDup(s)
    ensures multiset(s)[x] == if x in s then 1 else 0
  {
    if |s| > 0 {
      assert s == [s[0]] + s[1..];
      assert NoDup(s[1..]);
      assert forall m :: 0 <= m < |s| - 1 ==> s[1..][m] != s[0];
      NoDupMultiplicity(s[1..], x);
    }
  }

  /** Two duplicate-free sequences with the same elements are permutations of each other. */
  lemma NoDupSameElementsPermutation<T>(a: seq<T>, b: seq<T>)
    requires NoDup(a) && NoDup(b)
    requires forall x :: x in a <==> x in b
    ensures multiset(a) == multiset(b)
  {
    forall x
      ensures multiset(a)[x] == multiset(b)[x]
    {
      NoDupMultiplicity(a, x);
      NoDupMultiplicity(b, x);
    }
  }

  /** Cutting out the element at `j` leaves one copy fewer of it. */
  lemma SplitAt<T>(s: seq<T>, j: nat)
    requires j < |s|
    ensures s == s[..j] + [s[j]] + s[j + 1..]
    ensures multiset(s[..j] + s[j + 1..]) == multiset(s) - multiset{s[j]}
  {
    assert s[j..] == [s[j]] + s[j + 1..];
    assert s == s[..j] + s[j..];
  }

  /** `xs.join(sep)` in JavaScript: the elements with `sep` between neighbours. */
  function Join(xs: seq<string>, sep: string): string {
    if |xs| == 0 then ""
    else if |xs| == 1 then xs[0]
    else xs[0] + sep + Join(xs[1..], sep)
  }

  /** A join of two or more elements contains the separator right after the first element. */
  lemma JoinSeparatorAfterFirst(xs: seq<string>, sep: string)
    requires |xs| >= 2
    ensures |Join(xs, sep)| >= |xs[0]| + |sep|
    ensures Join(xs, sep)[|xs[0]|..|xs[0]| + |sep|] == sep
  {
    var j := Join(xs, sep);
    assert j == xs[0] + sep + Join(xs[1..], sep);
    assert j[|xs[0]|..|xs[0]| + |sep|] == sep;
  }

  /** `s` ends with `suffix`. */
  predicate EndsWith(s: string, suffix: string) {
    |suffix| <= |s| && s[|s| - |suffix|..] == suffix
  }
}
