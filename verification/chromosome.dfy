/** One candidate tour of the genetic algorithm: point mutation, ordered
    crossover and the permutation check. Every random draw is an input: a
    retry loop reads its draws from a sequence, first draw first. */
module Chromosomes {
  import opened Permutations

  // ---------------------------------------------------------------------
  // Draw sequences of the retry loops

  /** Index of the first draw at or after `from` that differs from v. */
  function FirstOther(s: seq<int>, v: int, from: nat): (k: nat)
    requires exists i :: from <= i < |s| && s[i] != v
    ensures from <= k < |s| && s[k] != v
    ensures forall i :: from <= i < k ==> s[i] == v
    decreases |s| - from
  {
    if s[from] != v then from else FirstOther(s, v, from + 1)
  }

  /** Index of the first draw below v. */
  function FirstBelow(s: seq<int>, v: int): (k: nat)
    requires exists i :: 0 <= i < |s| && s[i] < v
    ensures k < |s| && s[k] < v
    ensures forall i :: 0 <= i < k ==> s[i] >= v
  {
    if s[0] < v then 0
    else
      assert exists i :: 0 <= i < |s[1..]| && s[1..][i] < v by {
        var i :| 0 <= i < |s| && s[i] < v;
        assert s[1..][i - 1] == s[i];
      }
      1 + FirstBelow(s[1..], v)
  }

  /** Every draw lies in [0, n-1], the range of the distribution the
      chromosome draws positions from. */
  predicate Positions(s: seq<int>, n: nat) {
    forall i :: 0 <= i < |s| ==> 0 <= s[i] < n
  }

  /** Draws for `mutate`: the first is pt1, the rest are tried for pt2 until
      one differs from pt1. */
  predicate SwapDraws(pts: seq<int>, n: nat) {
    Positions(pts, n) && exists k :: 1 <= k < |pts| && pts[k] != pts[0]
  }

  /** The end cut of `recombine`: the first non-zero draw of es. */
  function CutEnd(es: seq<int>): int
    requires exists i :: 0 <= i < |es| && es[i] != 0
  {
    es[FirstOther(es, 0, 0)]
  }

  /** Draws for `recombine`: es are tried for the end cut until one is not
      zero, then bs for the begin cut until one lies below the end cut. */
  predicate CutDraws(bs: seq<int>, es: seq<int>, n: nat) {
    Positions(bs, n) && Positions(es, n) &&
    (exists i :: 0 <= i < |es| && es[i] != 0) &&
    (exists i :: 0 <= i < |bs| && bs[i] < CutEnd(es))
  }

  /** The begin cut of `recombine`. */
  function CutBegin(bs: seq<int>, es: seq<int>, n: nat): int
    requires CutDraws(bs, es, n)
  {
    bs[FirstBelow(bs, CutEnd(es))]
  }

  /** The two distinct positions `mutate` swaps. */
  method DrawDistinct(pts: seq<int>, n: nat) returns (pt1: nat, pt2: nat)
    requires SwapDraws(pts, n)
    ensures pt1 != pt2 && pt1 < n && pt2 < n
    ensures pt1 == pts[0] && pt2 == pts[FirstOther(pts, pts[0], 1)]
  {
    pt1 := pts[0];
    var k := 1;
    pt2 := pts[k];
    while pt1 == pt2
      invariant 1 <= k < |pts| && pt2 == pts[k]
      invariant forall i :: 1 <= i < k ==> pts[i] == pt1
      invariant exists i :: k <= i < |pts| && pts[i] != pt1
      decreases |pts| - k
    {
      k := k + 1;
      pt2 := pts[k];
    }
  }

  /** The cut points of `recombine`: the end cut is drawn until it is not
      zero, then the begin cut until it lies below the end cut. */
  method ChooseCuts(bs: seq<int>, es: seq<int>, n: nat) returns (b: nat, e: nat)
    requires CutDraws(bs, es, n)
    ensures b < e && 1 <= e <= n - 1
    ensures e == CutEnd(es) && b == CutBegin(bs, es, n)
  {
    var kb, ke := 0, 0;
    var b0 := bs[kb];
    e := es[ke];
    while e == 0
      invariant 0 <= ke < |es| && e == es[ke]
      invariant forall i :: 0 <= i < ke ==> es[i] == 0
      invariant exists i :: ke <= i < |es| && es[i] != 0
      decreases |es| - ke
    {
      ke := ke + 1;
      e := es[ke];
    }
    assert ke == FirstOther(es, 0, 0);
    while b0 >= e
      invariant 0 <= kb < |bs| && b0 == bs[kb]
      invariant forall i :: 0 <= i < kb ==> bs[i] >= e
      invariant exists i :: kb <= i < |bs| && bs[i] < e
      decreases |bs| - kb
    {
      kb := kb + 1;
      b0 := bs[kb];
    }
    assert kb == FirstBelow(bs, e);
    b := b0;
  }

  // ---------------------------------------------------------------------
  // Tour operators as functions

  /** The tour with the cities at positions i and j exchanged. */
  function Swap(s: seq<int>, i: nat, j: nat): (r: seq<int>)
    requires i < |s| && j < |s|
    ensures |r| == |s| && r[i] == s[j] && r[j] == s[i]
    ensures forall k :: 0 <= k < |s| && k != i && k != j ==> r[k] == s[k]
  {
    s[i := s[j]][j := s[i]]
  }

  /** A transposition keeps a permutation a permutation. */
  lemma SwapKeepsPermutation(s: seq<int>, n: nat, i: nat, j: nat)
    requires IsPermutation(s, n) && i < n && j < n
    ensures IsPermutation(Swap(s, i, j), n)
    ensures i != j ==> forall k :: 0 <= k < n ==> (Swap(s, i, j)[k] != s[k] <==> k == i || k == j)
  {
    var r := Swap(s, i, j);
    forall a, c | 0 <= a < c < n ensures r[a] != r[c] {
      var a' := if a == i then j else if a == j then i else a;
      var c' := if c == i then j else if c == j then i else c;
      assert r[a] == s[a'] && r[c] == s[c'] && a' != c';
    }
  }

  /** Position of the first occurrence of v in s, or |s| when v is absent
      (the iterator `std::find` returns, as an offset). */
  function IndexOf(s: seq<int>, v: int): (k: nat)
    ensures k <= |s|
    ensures k < |s| ==> s[k] == v
    ensures forall i :: 0 <= i < k ==> s[i] != v
  {
    if s == [] then 0
    else if s[0] == v then 0
    else 1 + IndexOf(s[1..], v)
  }

  /** The `is_in_range` lookup: the first occurrence of v lies in [b, e). */
  function InRange(s: seq<int>, v: int, b: nat, e: nat): bool {
    b <= IndexOf(s, v) < e
  }

  /** What `is_in_range` answers, for any bounds: v occurs before position e
      but not before position b (both cut down to the tour's length), or v
      is absent and the tour's length, where `std::find` then points, lies
      in [b, e). */
  lemma InRangeMeaning(s: seq<int>, v: int, b: nat, e: nat)
    ensures var lo, hi := if b < |s| then b else |s|, if e < |s| then e else |s|;
            InRange(s, v, b, e) <==> (v in s[..hi] && v !in s[..lo]) || (v !in s && b <= |s| < e)
  {
    var k := IndexOf(s, v);
    assert v in s <==> k < |s|;
    forall m | 0 <= m <= |s| ensures v in s[..m] <==> k < m {
      if k < m {
        assert s[..m][k] == v;
      }
    }
  }

  /** In a tour without repeated cities, `is_in_range` is window membership. */
  lemma InRangeIsWindow(s: seq<int>, v: int, b: nat, e: nat)
    requires Distinct(s) && b <= e <= |s|
    ensures InRange(s, v, b, e) <==> v in s[b..e]
  {
    InRangeMeaning(s, v, b, e);
    assert s[..e] == s[..b] + s[b..e];
    if v in s[b..e] {
      var k :| b <= k < e && s[k] == v;
      assert s[b..e][k - b] == v;
    }
  }

  /** Number of positions before k that lie outside the window [b, e). */
  function Outside(k: nat, b: nat, e: nat): nat
    requires b <= e
  {
    if k <= b then k else if k <= e then b else k - (e - b)
  }

  lemma WindowFacts(p: seq<int>, n: nat, b: nat, e: nat)
    requires IsPermutation(p, n) && b <= e <= n
    ensures Distinct(p[b..e]) && InCities(p[b..e], n) && |p[b..e]| == e - b
  {
    forall i, j | 0 <= i < j < e - b ensures p[b..e][i] != p[b..e][j] {
      assert p[b..e][i] == p[b + i] && p[b..e][j] == p[b + j];
    }
  }

  /** The ordered-crossover child of p1 and p2 with window [b, e): p1's cities
      inside the window, and elsewhere, left to right, p2's cities that are
      not in p1's window, in p2's order. */
  function Crossover(p1: seq<int>, p2: seq<int>, b: nat, e: nat): (c: seq<int>)
    requires IsPermutation(p1, |p1|) && IsPermutation(p2, |p1|) && b <= e <= |p1|
    ensures |c| == |p1|
  {
    var rest := Without(p2, p1[b..e]);
    WindowFacts(p1, |p1|, b, e);
    WithoutLength(p2, p1[b..e], |p1|);
    seq(|p1|, k requires 0 <= k < |p1| =>
      if b <= k < e then p1[k] else rest[Outside(k, b, e)])
  }

  /** p2 without p1's window fills exactly the positions outside it. */
  lemma RestLength(p1: seq<int>, p2: seq<int>, b: nat, e: nat)
    requires IsPermutation(p1, |p1|) && IsPermutation(p2, |p1|) && b <= e <= |p1|
    ensures |Without(p2, p1[b..e])| == |p1| - (e - b)
  {
    WindowFacts(p1, |p1|, b, e);
    WithoutLength(p2, p1[b..e], |p1|);
  }

  lemma CrossoverAt(p1: seq<int>, p2: seq<int>, b: nat, e: nat, k: nat)
    requires IsPermutation(p1, |p1|) && IsPermutation(p2, |p1|) && b <= e <= |p1|
    requires k < |p1|
    ensures |Without(p2, p1[b..e])| == |p1| - (e - b)
    ensures Crossover(p1, p2, b, e)[k]
         == if b <= k < e then p1[k] else Without(p2, p1[b..e])[Outside(k, b, e)]
  {
    WindowFacts(p1, |p1|, b, e);
    WithoutLength(p2, p1[b..e], |p1|);
  }

  /** The child copies p1's window verbatim. */
  lemma CrossoverKeepsWindow(p1: seq<int>, p2: seq<int>, b: nat, e: nat)
    requires IsPermutation(p1, |p1|) && IsPermutation(p2, |p1|) && b <= e <= |p1|
    ensures Crossover(p1, p2, b, e)[b..e] == p1[b..e]
  {
    var c := Crossover(p1, p2, b, e);
    forall k | 0 <= k < e - b ensures c[b..e][k] == p1[b..e][k] {
      CrossoverAt(p1, p2, b, e, b + k);
    }
  }

  /** Outside the window the child lists p2 without p1's window, in p2's
      order. */
  lemma CrossoverKeepsOrder(p1: seq<int>, p2: seq<int>, b: nat, e: nat)
    requires IsPermutation(p1, |p1|) && IsPermutation(p2, |p1|) && b <= e <= |p1|
    ensures Crossover(p1, p2, b, e)[..b] + Crossover(p1, p2, b, e)[e..]
         == Without(p2, p1[b..e])
  {
    var n := |p1|;
    var c := Crossover(p1, p2, b, e);
    var rest := Without(p2, p1[b..e]);
    WindowFacts(p1, n, b, e);
    WithoutLength(p2, p1[b..e], n);
    var o := c[..b] + c[e..];
    assert |o| == |rest|;
    forall k | 0 <= k < |o| ensures o[k] == rest[k] {
      if k < b {
        assert o[k] == c[k];
        CrossoverAt(p1, p2, b, e, k);
      } else {
        assert o[k] == c[e + k - b];
        CrossoverAt(p1, p2, b, e, e + k - b);
      }
    }
  }

  /** Ordered crossover of two permutations is a permutation. */
  lemma CrossoverIsPermutation(p1: seq<int>, p2: seq<int>, b: nat, e: nat)
    requires IsPermutation(p1, |p1|) && IsPermutation(p2, |p1|) && b <= e <= |p1|
    ensures IsPermutation(Crossover(p1, p2, b, e), |p1|)
  {
    var n := |p1|;
    var c := Crossover(p1, p2, b, e);
    var w := p1[b..e];
    var rest := Without(p2, w);
    WindowFacts(p1, n, b, e);
    WithoutLength(p2, w, n);
    KeptDistinct(p2, w, n);
    KeptMembers(p2, w, n);
    forall k | 0 <= k < n ensures 0 <= c[k] < n {
      if !(b <= k < e) {
        assert rest[Outside(k, b, e)] in p2;
      }
    }
    forall k1, k2 | 0 <= k1 < k2 < n ensures c[k1] != c[k2] {
      var in1, in2 := b <= k1 < e, b <= k2 < e;
      if in1 && in2 {
      } else if in1 {
        assert c[k1] == w[k1 - b];
        assert c[k2] in rest;
      } else if in2 {
        assert c[k2] == w[k2 - b];
        assert c[k1] in rest;
      } else {
        assert Outside(k1, b, e) < Outside(k2, b, e);
      }
    }
  }

  /** Placing p2[j], a city outside the window, appends the next city of
      p2 without the window. */
  lemma FillStep(p2: seq<int>, w: seq<int>, j: nat)
    requires j < |p2| && p2[j] !in w
    ensures |Kept(p2, w, j)| < |Without(p2, w)|
    ensures Without(p2, w)[|Kept(p2, w, j)|] == p2[j]
    ensures |Kept(p2, w, j + 1)| == |Kept(p2, w, j)| + 1
  {
    KeptPrefix(p2, w, j + 1, |p2|);
  }

  /** A position inside the window takes p1's city, and the count of
      positions outside the window stays put. */
  lemma WindowStep(p1: seq<int>, p2: seq<int>, b: nat, e: nat, i: nat)
    requires IsPermutation(p1, |p1|) && IsPermutation(p2, |p1|) && b <= i < e <= |p1|
    ensures Crossover(p1, p2, b, e)[i] == p1[i] && Outside(i + 1, b, e) == Outside(i, b, e)
  {
    CrossoverAt(p1, p2, b, e, i);
  }

  /** At a position outside the window, p2 still holds a city outside p1's
      window that has not been placed. */
  lemma RestAhead(p1: seq<int>, p2: seq<int>, b: nat, e: nat, i: nat, j: nat)
    requires IsPermutation(p1, |p1|) && IsPermutation(p2, |p1|) && b <= e <= |p1|
    requires i < |p1| && !(b <= i < e) && j <= |p2| && |Kept(p2, p1[b..e], j)| == Outside(i, b, e)
    ensures |Kept(p2, p1[b..e], j)| < |Without(p2, p1[b..e])|
  {
    RestLength(p1, p2, b, e);
  }

  /** Placing the next city of p2 outside p1's window at a position outside
      the window is what the crossover does there, and it moves both counts
      on by one. */
  lemma RestStep(p1: seq<int>, p2: seq<int>, b: nat, e: nat, i: nat, j0: nat, j: nat)
    requires IsPermutation(p1, |p1|) && IsPermutation(p2, |p1|) && b <= e <= |p1|
    requires i < |p1| && !(b <= i < e) && j0 <= |p2| && |Kept(p2, p1[b..e], j0)| == Outside(i, b, e)
    requires j < |p2| && p2[j] !in p1[b..e] && Kept(p2, p1[b..e], j) == Kept(p2, p1[b..e], j0)
    ensures Crossover(p1, p2, b, e)[i] == p2[j]
    ensures |Kept(p2, p1[b..e], j + 1)| == Outside(i + 1, b, e)
  {
    CrossoverAt(p1, p2, b, e, i);
    FillStep(p2, p1[b..e], j);
  }

  /** When the crossover loop stops, either every position is filled or p2
      is used up, and then the positions left are all in the window, where
      the child already holds p1's cities. */
  lemma CrossoverDone(p1: seq<int>, p2: seq<int>, b: nat, e: nat, child: seq<int>, i: nat, j: nat)
    requires IsPermutation(p1, |p1|) && IsPermutation(p2, |p1|) && b <= e <= |p1|
    requires i <= |p1| && j <= |p1| && (i == |p1| || j == |p1|)
    requires |child| == |p1| && |Kept(p2, p1[b..e], j)| == Outside(i, b, e)
    requires forall k :: 0 <= k < i ==> child[k] == Crossover(p1, p2, b, e)[k]
    requires forall k :: i <= k < |p1| ==> child[k] == p1[k]
    ensures child == Crossover(p1, p2, b, e) && IsPermutation(child, |p1|)
  {
    var c := Crossover(p1, p2, b, e);
    CrossoverIsPermutation(p1, p2, b, e);
    forall k | i <= k < |p1| ensures c[k] == p1[k] {
      CrossoverAt(p1, p2, b, e, k);
    }
  }

  // ---------------------------------------------------------------------
  // The chromosome

  class Chromosome {
    /** Size of the city catalog the tour visits. */
    const cityCount: nat
    /** The tour. */
    var order: seq<int>

    /** The class invariant: the tour is a permutation of [0, cityCount). */
    ghost predicate Valid()
      reads this
    {
      IsPermutation(order, cityCount)
    }

    /** The random constructor; `tour` stands for the permutation the random
        source produced. */
    constructor (cityCount: nat, tour: seq<int>)
      requires IsPermutation(tour, cityCount)
      ensures Valid() && this.cityCount == cityCount && order == tour
    {
      this.cityCount := cityCount;
      order := tour;
    }

    constructor Copy(cityCount: nat, tour: seq<int>)
      ensures this.cityCount == cityCount && order == tour
    {
      this.cityCount := cityCount;
      order := tour;
    }

    /** A new chromosome with the same tour. */
    method Clone() returns (c: Chromosome)
      ensures fresh(c) && c.cityCount == cityCount && c.order == order
    {
      c := new Chromosome.Copy(cityCount, order);
    }

    /** Swap the cities at two distinct drawn positions. */
    method Mutate(pts: seq<int>)
      requires Valid() && SwapDraws(pts, cityCount)
      modifies this
      ensures Valid()
      ensures order == Swap(old(order), pts[0], pts[FirstOther(pts, pts[0], 1)])
    {
      var pt1, pt2 := DrawDistinct(pts, cityCount);
      SwapKeepsPermutation(order, cityCount, pt1, pt2);
      order := order[pt1 := order[pt2]][pt2 := order[pt1]];
    }

    /** Ordered crossover of this chromosome with `other`: the first child
        takes other's window and this tour's order, the second this tour's
        window and other's order. Neither parent changes. */
    method Recombine(other: Chromosome, bs: seq<int>, es: seq<int>)
      returns (child1: Chromosome, child2: Chromosome)
      requires Valid() && other.Valid() && other.cityCount == cityCount
      requires CutDraws(bs, es, cityCount)
      ensures fresh(child1) && fresh(child2) && child1 != child2
      ensures child1.Valid() && child2.Valid()
      ensures child1.cityCount == cityCount && child2.cityCount == cityCount
      ensures child1.order
           == Crossover(other.order, order, CutBegin(bs, es, cityCount), CutEnd(es))
      ensures child2.order
           == Crossover(order, other.order, CutBegin(bs, es, cityCount), CutEnd(es))
    {
      var b, e := ChooseCuts(bs, es, cityCount);
      child1 := CreateCrossoverChild(other, this, b, e);
      child2 := CreateCrossoverChild(this, other, b, e);
    }

    /** The ordered-crossover loop: cursor i runs over the child, cursor j
        over p2, skipping p2's cities that lie in p1's window [b, e). */
    static method CreateCrossoverChild(p1: Chromosome, p2: Chromosome, b: nat, e: nat)
      returns (child: Chromosome)
      requires p1.Valid() && p2.Valid() && p2.cityCount == p1.cityCount
      requires b <= e <= p1.cityCount
      ensures fresh(child) && child.cityCount == p1.cityCount && child.Valid()
      ensures child.order == Crossover(p1.order, p2.order, b, e)
    {
      var o1, o2 := p1.order, p2.order;
      var n := |o1|;
      ghost var w := o1[b..e];
      ghost var c := Crossover(o1, o2, b, e);
      child := p1.Clone();
      var i, j := 0, 0;
      while i < |o1| && j < |o2|
        invariant 0 <= i <= n && 0 <= j <= n
        invariant |child.order| == n
        invariant forall k :: 0 <= k < i ==> child.order[k] == c[k]
        invariant forall k :: i <= k < n ==> child.order[k] == o1[k]
        invariant |Kept(o2, w, j)| == Outside(i, b, e)
        decreases n - i
      {
        if b <= i < e {
          WindowStep(o1, o2, b, e, i);
          child.order := child.order[i := o1[i]];
        } else {
          ghost var j0 := j;
          RestAhead(o1, o2, b, e, i, j);
          j := SkipWindow(o1, o2, b, e, j);
          RestStep(o1, o2, b, e, i, j0, j);
          child.order := child.order[i := o2[j]];
          j := j + 1;
        }
        assert child.order[i] == c[i];
        i := i + 1;
      }
      CrossoverDone(o1, o2, b, e, child.order, i, j);
    }

    /** The inner loop of the crossover: advance j past p2's cities that lie
        in p1's window [b, e). It stops inside p2 because a city outside the
        window is still to come. */
    static method SkipWindow(o1: seq<int>, o2: seq<int>, b: nat, e: nat, j0: nat)
      returns (j: nat)
      requires Distinct(o1) && b <= e <= |o1|
      requires j0 < |o2| && |Kept(o2, o1[b..e], j0)| < |Without(o2, o1[b..e])|
      ensures j0 <= j < |o2| && o2[j] !in o1[b..e]
      ensures forall k :: j0 <= k < j ==> o2[k] in o1[b..e]
      ensures Kept(o2, o1[b..e], j) == Kept(o2, o1[b..e], j0)
    {
      ghost var w := o1[b..e];
      KeptAhead(o2, w, j0, |o2|);
      ghost var stop :| j0 <= stop < |o2| && o2[stop] !in w;
      j := j0;
      InRangeIsWindow(o1, o2[j], b, e);
      while InRange(o1, o2[j], b, e)
        invariant j0 <= j <= stop
        invariant forall k :: j0 <= k < j ==> o2[k] in w
        invariant Kept(o2, w, j) == Kept(o2, w, j0)
        invariant InRange(o1, o2[j], b, e) <==> o2[j] in w
        decreases |o2| - j
      {
        j := j + 1;
        InRangeIsWindow(o1, o2[j], b, e);
      }
    }

    /** The permutation check as it is written: the sorted copy must read
        0, 1, ... and the scan gives up only once the index exceeds the
        number of cities. */
    method IsValidAsWritten() returns (ok: bool)
      ensures ok <==> IsPermutation(order, |order|) && |order| <= cityCount + 1
    {
      var perm := Sort(order);
      var range := cityCount;
      SortIsIota(order);
      var i := 0;
      while i < |perm|
        invariant 0 <= i <= |perm|
        invariant forall k :: 0 <= k < i ==> k <= range && perm[k] == k
      {
        if i > range {
          assert |order| > range + 1;
          return false;
        }
        if i != perm[i] {
          assert perm != Iota(|perm|);
          return false;
        }
        i := i + 1;
      }
      assert perm == Iota(|perm|);
      if |perm| > 0 {
        assert perm[|perm| - 1] == |perm| - 1;
      }
      return true;
    }

    /** The permutation check: the sorted copy of the tour reads exactly
        0, 1, ..., cityCount-1. */
    method IsValid() returns (ok: bool)
      ensures ok <==> Valid()
    {
      var perm := Sort(order);
      var range := cityCount;
      if |perm| != range {
        return false;
      }
      var i := 0;
      while i < |perm|
        invariant 0 <= i <= |perm|
        invariant forall k :: 0 <= k < i ==> perm[k] == k
      {
        if i != perm[i] {
          SortIsIota(order);
          return false;
        }
        i := i + 1;
      }
      SortIsIota(order);
      return true;
    }
  }

  /** The permutation check as written accepts the tour 0, 1, 2 for a
      two-city catalog, although city 2 does not exist, and the tour 0 for
      the same catalog, although city 1 is never visited. */
  lemma ExtraCityPassesCheck()
    ensures IsPermutation([0, 1, 2], |[0, 1, 2]|) && |[0, 1, 2]| <= 2 + 1
    ensures !IsPermutation([0, 1, 2], 2)
    ensures IsPermutation([0], |[0]|) && |[0]| <= 2 + 1
    ensures !IsPermutation([0], 2)
  {
  }
}
