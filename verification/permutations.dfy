/** Tours as sequences of city indices: what it means to be a permutation of
    [0, n), filtering a tour by a set of values, and sorting a copy. */
module Permutations {

  /** No value occurs twice. */
  predicate Distinct(s: seq<int>) {
    forall i, j :: 0 <= i < j < |s| ==> s[i] != s[j]
  }

  /** Every entry is a city index of a catalog of n cities. */
  predicate InCities(s: seq<int>, n: nat) {
    forall i :: 0 <= i < |s| ==> 0 <= s[i] < n
  }

  /** s visits each of the cities 0, ..., n-1 exactly once. */
  predicate IsPermutation(s: seq<int>, n: nat) {
    |s| == n && InCities(s, n) && Distinct(s)
  }

  /** The identity tour 0, 1, ..., n-1. */
  function Iota(n: nat): (r: seq<int>)
    ensures |r| == n && forall i :: 0 <= i < n ==> r[i] == i
  {
    seq(n, i => i)
  }

  ghost function Elems(s: seq<int>): set<int> {
    set x | x in s
  }

  /** The set of all cities of an n-city catalog. */
  ghost function Cities(n: nat): (c: set<int>)
    ensures forall v :: v in c <==> 0 <= v < n
    ensures |c| == n
  {
    IotaElems(n);
    DistinctCard(Iota(n));
    Elems(Iota(n))
  }

  lemma IotaElems(n: nat)
    ensures forall v :: v in Elems(Iota(n)) <==> 0 <= v < n
  {
    forall v | 0 <= v < n ensures v in Elems(Iota(n)) {
      assert Iota(n)[v] == v;
    }
  }

  lemma {:induction false} DistinctCard(s: seq<int>)
    requires Distinct(s)
    ensures |Elems(s)| == |s|
  {
    if s != [] {
      var t := s[..|s| - 1];
      assert Distinct(t);
      DistinctCard(t);
      assert Elems(s) == Elems(t) + {s[|s| - 1]};
      assert s[|s| - 1] !in Elems(t);
    }
  }

  lemma SubsetCard(a: set<int>, b: set<int>)
    requires a <= b
    ensures |b - a| == |b| - |a|
  {
    assert b == a + (b - a);
  }

  /** A permutation of [0, n) contains every city: n distinct values drawn
      from n candidates leave none out. */
  lemma Covers(s: seq<int>, n: nat)
    requires IsPermutation(s, n)
    ensures Elems(s) == Cities(n)
    ensures forall v :: 0 <= v < n ==> v in s
  {
    assert Elems(s) <= Cities(n);
    DistinctCard(s);
    SubsetCard(Elems(s), Cities(n));
    assert Cities(n) - Elems(s) == {};
    forall v | 0 <= v < n ensures v in s {
      assert v in Cities(n);
      assert v in Elems(s);
    }
  }

  // ---------------------------------------------------------------------
  // Filtering a tour by the values of another one

  /** The entries of s[..j] that do not occur in w, in the order s has them. */
  function Kept(s: seq<int>, w: seq<int>, j: nat): (r: seq<int>)
    requires j <= |s|
    ensures |r| <= j
  {
    if j == 0 then [] else Kept(s, w, j - 1) + (if s[j - 1] in w then [] else [s[j - 1]])
  }

  /** The entries of s that do not occur in w, in the order s has them. */
  function Without(s: seq<int>, w: seq<int>): seq<int> {
    Kept(s, w, |s|)
  }

  /** Kept(s, w, j) holds exactly the entries of s[..j] outside w. */
  lemma {:induction false} KeptMembers(s: seq<int>, w: seq<int>, j: nat)
    requires j <= |s|
    ensures forall x :: x in Kept(s, w, j) ==> x !in w && x in s
    ensures forall i :: 0 <= i < j && s[i] !in w ==> s[i] in Kept(s, w, j)
  {
    if j > 0 {
      KeptMembers(s, w, j - 1);
    }
  }

  lemma {:induction false} KeptDistinct(s: seq<int>, w: seq<int>, j: nat)
    requires Distinct(s) && j <= |s|
    ensures Distinct(Kept(s, w, j))
    ensures forall x :: x in Kept(s, w, j) ==> x in s[..j]
  {
    if j > 0 {
      KeptDistinct(s, w, j - 1);
      assert s[..j - 1] + [s[j - 1]] == s[..j];
      assert s[j - 1] !in s[..j - 1];
    }
  }

  /** Filtering a permutation of [0, n) by w removes exactly the |w| values
      of w, since each of them occurs in the permutation once. */
  lemma WithoutLength(s: seq<int>, w: seq<int>, n: nat)
    requires IsPermutation(s, n) && Distinct(w) && InCities(w, n)
    ensures |Without(s, w)| == n - |w|
  {
    var r := Without(s, w);
    KeptDistinct(s, w, n);
    KeptMembers(s, w, n);
    DistinctCard(r);
    DistinctCard(w);
    Covers(s, n);
    forall x | x in Cities(n) - Elems(w) ensures x in Elems(r) {
      assert x in s;
      var i :| 0 <= i < n && s[i] == x;
    }
    assert Elems(r) == Cities(n) - Elems(w);
    assert Elems(w) <= Cities(n);
    SubsetCard(Elems(w), Cities(n));
  }

  /** Filtering a shorter prefix of s gives a prefix of the filtered longer
      prefix. */
  lemma {:induction false} KeptPrefix(s: seq<int>, w: seq<int>, j: nat, k: nat)
    requires j <= k <= |s|
    ensures |Kept(s, w, j)| <= |Kept(s, w, k)|
    ensures Kept(s, w, j) == Kept(s, w, k)[..|Kept(s, w, j)|]
    decreases k - j
  {
    if j < k {
      KeptPrefix(s, w, j, k - 1);
    }
  }

  /** When the filtered prefix s[..j] is shorter than the filtered s, some
      entry at or after j is not in w. */
  lemma {:induction false} KeptAhead(s: seq<int>, w: seq<int>, j: nat, k: nat)
    requires j <= k <= |s|
    requires |Kept(s, w, j)| < |Kept(s, w, k)|
    ensures exists i :: j <= i < k && s[i] !in w
    decreases k - j
  {
    if s[k - 1] in w {
      KeptAhead(s, w, j, k - 1);
    } else {
      assert j <= k - 1 && s[k - 1] !in w;
    }
  }

  // ---------------------------------------------------------------------
  // Sorting a copy of a tour

  predicate Sorted(s: seq<int>) {
    forall i, j :: 0 <= i < j < |s| ==> s[i] <= s[j]
  }

  /** s with x placed before the first entry not below it. */
  function Insert(x: int, s: seq<int>): (r: seq<int>)
    ensures multiset(r) == multiset(s) + multiset{x}
    ensures forall y :: y in r ==> y == x || y in s
  {
    if s == [] then [x]
    else if x <= s[0] then [x] + s
    else
      assert s == [s[0]] + s[1..];
      [s[0]] + Insert(x, s[1..])
  }

  lemma {:induction false} InsertSorted(x: int, s: seq<int>)
    requires Sorted(s)
    ensures Sorted(Insert(x, s))
  {
    if s != [] && x > s[0] {
      var t := Insert(x, s[1..]);
      InsertSorted(x, s[1..]);
      forall k | 0 <= k < |t| ensures s[0] <= t[k] {
        assert t[k] in t;
      }
    }
  }

  /** An ascending rearrangement of s. */
  function Sort(s: seq<int>): (r: seq<int>)
    ensures Sorted(r) && multiset(r) == multiset(s) && |r| == |s|
  {
    if s == [] then []
    else
      assert s == [s[0]] + s[1..];
      var t := Sort(s[1..]);
      InsertSorted(s[0], t);
      assert |multiset(Insert(s[0], t))| == |t| + 1;
      Insert(s[0], t)
  }

  lemma {:induction false} DistinctCounts(s: seq<int>)
    ensures Distinct(s) <==> forall v :: multiset(s)[v] <= 1
    decreases |s|
  {
    if s != [] {
      var t := s[..|s| - 1];
      var x := s[|s| - 1];
      assert s == t + [x];
      DistinctCounts(t);
      if Distinct(s) {
        assert Distinct(t) && x !in t;
      } else {
        var i, j :| 0 <= i < j < |s| && s[i] == s[j];
        if j < |s| - 1 {
          assert !Distinct(t) by { assert t[i] == t[j]; }
          var v :| multiset(t)[v] > 1;
          assert multiset(s)[v] > 1;
        } else {
          assert t[i] == x;
          assert multiset(s)[x] > 1;
        }
      }
    }
  }

  lemma {:induction false} Gap(r: seq<int>, i: nat, j: nat)
    requires i <= j < |r|
    requires forall k :: 0 <= k < |r| - 1 ==> r[k] < r[k + 1]
    ensures r[j] - r[i] >= j - i
    decreases j - i
  {
    if i < j {
      Gap(r, i, j - 1);
    }
  }

  /** A strictly ascending sequence of n cities is 0, 1, ..., n-1. */
  lemma AscendingIsIota(r: seq<int>, n: nat)
    requires |r| == n && InCities(r, n)
    requires forall k :: 0 <= k < |r| - 1 ==> r[k] < r[k + 1]
    ensures r == Iota(n)
  {
    forall i | 0 <= i < n ensures r[i] == i {
      Gap(r, 0, i);
      Gap(r, i, n - 1);
    }
  }

  /** Sorting a copy yields 0, 1, ..., |s|-1 exactly when s is a permutation
      of [0, |s|). */
  lemma SortIsIota(s: seq<int>)
    ensures Sort(s) == Iota(|s|) <==> IsPermutation(s, |s|)
  {
    if Sort(s) == Iota(|s|) {
      IotaSortedFrom(s);
    }
    if IsPermutation(s, |s|) {
      SortedPermutation(s, Sort(s));
      AscendingIsIota(Sort(s), |s|);
    }
  }

  lemma IotaSortedFrom(s: seq<int>)
    requires Sort(s) == Iota(|s|)
    ensures IsPermutation(s, |s|)
  {
    IotaIsPermutation(|s|);
    SamePermutation(Sort(s), s, |s|);
  }

  lemma IotaIsPermutation(n: nat)
    ensures IsPermutation(Iota(n), n)
  {
  }

  /** A rearrangement of a permutation is a permutation. */
  lemma SamePermutation(a: seq<int>, b: seq<int>, n: nat)
    requires IsPermutation(a, n) && multiset(a) == multiset(b)
    ensures IsPermutation(b, n)
  {
    assert |b| == |multiset(b)| == |multiset(a)| == n;
    forall i | 0 <= i < |b| ensures 0 <= b[i] < n {
      assert b[i] in multiset(a);
    }
    DistinctCounts(a);
    DistinctCounts(b);
  }

  lemma SortedPermutation(s: seq<int>, r: seq<int>)
    requires IsPermutation(s, |s|) && Sorted(r) && multiset(r) == multiset(s)
    ensures |r| == |s| && InCities(r, |s|)
    ensures forall k :: 0 <= k < |r| - 1 ==> r[k] < r[k + 1]
  {
    SamePermutation(s, r, |s|);
    forall k | 0 <= k < |r| - 1 ensures r[k] < r[k + 1] {
      assert r[k] <= r[k + 1] && r[k] != r[k + 1];
    }
  }
}
