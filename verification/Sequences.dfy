/** The library calls the repository leans on: `sort.Slice`, of which callers may only assume that it
    returns some sorted permutation; `sort.Search`, a binary search that is meaningful only on a monotone
    predicate but always returns a boundary of it; and the append-if loops that filter a slice. */
module Sequences {

  ghost predicate Constant<T>(s: seq<T>, c: T) {
    forall i :: 0 <= i < |s| ==> s[i] == c
  }

  ghost predicate SortedBy<T>(s: seq<T>, key: T -> int) {
    forall i, j :: 0 <= i < j < |s| ==> key(s[i]) <= key(s[j])
  }

  ghost predicate IsSortOf<T>(r: seq<T>, s: seq<T>, key: T -> int) {
    SortedBy(r, key) && multiset(r) == multiset(s)
  }

  /** `sort.Slice`: some sorted permutation; stability is not promised. */
  method SortSlice<T>(s: seq<T>, key: T -> int) returns (r: seq<T>)
    ensures IsSortOf(r, s, key)
  {
    r := [];
    for n := 0 to |s|
      invariant IsSortOf(r, s[..n], key)
    {
      r := Insert(r, s[..n], key, s[n]);
      assert s[..n + 1] == s[..n] + [s[n]];
    }
    assert s[..|s|] == s;
  }

  method Insert<T>(r: seq<T>, ghost s: seq<T>, key: T -> int, x: T) returns (r': seq<T>)
    requires IsSortOf(r, s, key)
    ensures IsSortOf(r', s + [x], key)
  {
    var k := key(x);
    var pos := SearchFirst(r, y => key(y) > k);
    InsertKeepsSort(r, s, key, x, pos);
    r' := r[..pos] + [x] + r[pos..];
  }

  lemma InsertKeepsSort<T>(r: seq<T>, s: seq<T>, key: T -> int, x: T, pos: nat)
    requires IsSortOf(r, s, key)
    requires pos <= |r|
    requires pos > 0 ==> key(r[pos - 1]) <= key(x)
    requires pos < |r| ==> key(x) <= key(r[pos])
    ensures IsSortOf(r[..pos] + [x] + r[pos..], s + [x], key)
  {
    assert r == r[..pos] + r[pos..];
    SortedConcat(r[..pos], [x], key);
    SortedConcat(r[..pos] + [x], r[pos..], key);
  }

  lemma SortedConcat<T>(a: seq<T>, b: seq<T>, key: T -> int)
    requires SortedBy(a, key) && SortedBy(b, key)
    requires a != [] && b != [] ==> key(a[|a| - 1]) <= key(b[0])
    ensures SortedBy(a + b, key)
  {
  }

  /** `sort.Search(len(s), i => p(s[i]))`: the loop keeps p false just below the answer and true at it. */
  method SearchFirst<T>(s: seq<T>, p: T -> bool) returns (i: nat)
    ensures i <= |s|
    ensures i > 0 ==> !p(s[i - 1])
    ensures i < |s| ==> p(s[i])
  {
    i := 0;
    var j := |s|;
    while i < j
      invariant 0 <= i <= j <= |s|
      invariant i > 0 ==> !p(s[i - 1])
      invariant j < |s| ==> p(s[j])
    {
      var h := (i + j) / 2;
      if !p(s[h]) {
        i := h + 1;
      } else {
        j := h;
      }
    }
  }

  /** Every element of a permutation occurs in the original and the other way round. */
  lemma SortHasSameElements<T>(r: seq<T>, s: seq<T>)
    requires multiset(r) == multiset(s)
    ensures |r| == |s|
    ensures forall x :: x in r <==> x in s
  {
    assert |multiset(r)| == |multiset(s)|;
    forall x
      ensures x in r <==> x in s
    {
      assert x in r <==> x in multiset(r);
      assert x in s <==> x in multiset(s);
    }
  }

  lemma {:induction false} DistinctCountsOnce<T>(s: seq<T>, x: T)
    requires forall i, j :: 0 <= i < j < |s| ==> s[i] != s[j]
    ensures multiset(s)[x] <= 1
  {
    if s != [] {
      var m := |s| - 1;
      assert s == s[..m] + [s[m]];
      DistinctCountsOnce(s[..m], x);
      if x == s[m] {
        assert x !in s[..m];
      }
    }
  }

  /** Two equal elements at different places count twice. */
  lemma RepeatedCountsTwice<T>(s: seq<T>, i: nat, j: nat)
    requires i < j < |s| && s[i] == s[j]
    ensures multiset(s)[s[i]] >= 2
  {
    assert s == s[..i] + [s[i]] + s[i + 1..j] + [s[j]] + s[j + 1..];
  }

  // ----- filtering -----

  function Filter<T>(s: seq<T>, p: T -> bool): seq<T> {
    if s == [] then [] else
    Filter(s[..|s| - 1], p) + if p(s[|s| - 1]) then [s[|s| - 1]] else []
  }

  /** The append-if loop. */
  method FilterSlice<T>(s: seq<T>, p: T -> bool) returns (r: seq<T>)
    ensures r == Filter(s, p)
  {
    r := [];
    for i := 0 to |s|
      invariant r == Filter(s[..i], p)
    {
      assert s[..i + 1][..i] == s[..i];
      if p(s[i]) {
        r := r + [s[i]];
      }
    }
    assert s[..|s|] == s;
  }

  lemma FilterLast<T>(s: seq<T>, p: T -> bool)
    requires s != []
    ensures var m := |s| - 1; Filter(s, p) == Filter(s[..m], p) + if p(s[m]) then [s[m]] else []
  {
  }

  lemma FilterSnoc<T>(s: seq<T>, x: T, p: T -> bool)
    ensures Filter(s + [x], p) == Filter(s, p) + if p(x) then [x] else []
  {
  }

  lemma {:induction false} FilterConcat<T>(s: seq<T>, t: seq<T>, p: T -> bool)
    ensures Filter(s + t, p) == Filter(s, p) + Filter(t, p)
    decreases |t|
  {
    if t == [] {
      assert s + t == s;
    } else {
      assert (s + t)[..|s + t| - 1] == s + t[..|t| - 1];
      FilterConcat(s, t[..|t| - 1], p);
    }
  }

  lemma FilterInsert<T>(lo: seq<T>, x: T, hi: seq<T>, p: T -> bool)
    ensures Filter(lo + [x] + hi, p) == Filter(lo, p) + (if p(x) then [x] else []) + Filter(hi, p)
  {
    FilterConcat(lo + [x], hi, p);
    FilterSnoc(lo, x, p);
  }

  /** Cutting off a tail in which nothing is kept. */
  lemma FilterCut<T>(s: seq<T>, j: nat, p: T -> bool)
    requires j <= |s| && forall i :: j <= i < |s| ==> !p(s[i])
    ensures Filter(s[j..], p) == [] && Filter(s, p) == Filter(s[..j], p)
  {
    FilterAll(s[j..], p);
    FilterConcat(s[..j], s[j..], p);
    assert s == s[..j] + s[j..];
    assert Filter(s[..j], p) + [] == Filter(s[..j], p);
  }

  lemma FilterTwoParts<T>(lo: seq<T>, hi: seq<T>, p: T -> bool)
    requires forall j :: 0 <= j < |lo| ==> !p(lo[j])
    requires forall j :: 0 <= j < |hi| ==> p(hi[j])
    ensures Filter(lo + hi, p) == hi
  {
    hide Filter;
    FilterAll(lo, p);
    FilterAll(hi, p);
    FilterConcat(lo, hi, p);
  }

  /** Nothing is kept before i and everything from i on. */
  lemma FilterSplit<T>(s: seq<T>, i: nat, p: T -> bool)
    requires i <= |s|
    requires forall j :: 0 <= j < i ==> !p(s[j])
    requires forall j :: i <= j < |s| ==> p(s[j])
    ensures Filter(s, p) == s[i..]
  {
    hide Filter;
    FilterTwoParts(s[..i], s[i..], p);
    assert s == s[..i] + s[i..];
  }

  /** A filter keeps the full multiplicity of what it keeps. */
  lemma {:induction false} FilterMultiplicity<T>(s: seq<T>, p: T -> bool, x: T)
    ensures multiset(Filter(s, p))[x] == if p(x) then multiset(s)[x] else 0
  {
    if s != [] {
      FilterMultiplicity(s[..|s| - 1], p, x);
      assert s == s[..|s| - 1] + [s[|s| - 1]];
    }
  }

  lemma FilterOfPermutation<T(!new)>(s: seq<T>, t: seq<T>, p: T -> bool)
    requires multiset(s) == multiset(t)
    ensures multiset(Filter(s, p)) == multiset(Filter(t, p))
  {
    var a, b := multiset(Filter(s, p)), multiset(Filter(t, p));
    forall x
      ensures a[x] == b[x]
    {
      FilterMultiplicity(s, p, x);
      FilterMultiplicity(t, p, x);
    }
    assert a == b;
  }

  /** Predicates that agree keep the same. */
  lemma {:induction false} FilterAgrees<T>(s: seq<T>, p: T -> bool, q: T -> bool)
    requires forall i :: 0 <= i < |s| ==> p(s[i]) == q(s[i])
    ensures Filter(s, p) == Filter(s, q)
  {
    if s != [] {
      FilterAgrees(s[..|s| - 1], p, q);
    }
  }

  lemma FilterMembers<T(!new)>(s: seq<T>, p: T -> bool)
    ensures forall x :: x in Filter(s, p) <==> x in s && p(x)
  {
  }

  /** If a filter keeps exactly a suffix, it keeps everything from there on and nothing before. */
  lemma OnlySuffixKept<T(!new)>(s: seq<T>, idx: nat, p: T -> bool)
    requires idx <= |s| && Filter(s, p) == s[idx..]
    ensures forall i :: idx <= i < |s| ==> p(s[i])
    ensures forall i :: 0 <= i < idx ==> !p(s[i])
  {
    hide Filter;
    var lo, hi := s[..idx], s[idx..];
    assert s == lo + hi;
    OnlyTailKept(lo, hi, p);
    forall i | idx <= i < |s|
      ensures p(s[i])
    {
      assert s[i] == hi[i - idx];
    }
    forall i | 0 <= i < idx
      ensures !p(s[i])
    {
      assert s[i] == lo[i];
    }
  }

  lemma OnlyTailKept<T(!new)>(lo: seq<T>, hi: seq<T>, p: T -> bool)
    requires Filter(lo + hi, p) == hi
    ensures forall i :: 0 <= i < |hi| ==> p(hi[i])
    ensures forall i :: 0 <= i < |lo| ==> !p(lo[i])
  {
    hide Filter;
    FilterMembers(lo + hi, p);
    assert forall i :: 0 <= i < |hi| ==> hi[i] in hi;
    FilterAll(hi, p);
    FilterConcat(lo, hi, p);
    assert |Filter(lo, p) + hi| == |hi|;
    NothingKept(lo, p);
  }

  lemma NothingKept<T(!new)>(s: seq<T>, p: T -> bool)
    requires |Filter(s, p)| == 0
    ensures forall i :: 0 <= i < |s| ==> !p(s[i])
  {
  }

  lemma {:induction false} FilterSorted<T(!new)>(s: seq<T>, p: T -> bool, key: T -> int)
    requires SortedBy(s, key)
    ensures SortedBy(Filter(s, p), key)
  {
    if s != [] {
      var s', x := s[..|s| - 1], s[|s| - 1];
      FilterSorted(s', p, key);
      FilterMembers(s', p);
      var kept := Filter(s', p);
      if kept != [] {
        assert kept[|kept| - 1] in kept && kept[|kept| - 1] in s';
      }
      SortedConcat(kept, [x], key);
    }
  }

  lemma {:induction false} FilterAll<T>(s: seq<T>, p: T -> bool)
    ensures (forall i :: 0 <= i < |s| ==> p(s[i])) ==> Filter(s, p) == s
    ensures (forall i :: 0 <= i < |s| ==> !p(s[i])) ==> Filter(s, p) == []
  {
    if s != [] {
      FilterAll(s[..|s| - 1], p);
    }
  }
}
