/** A deme: a population of chromosomes that evolves one generation at a
    time. Fitness is an input, one non-negative value per population slot,
    and every random draw is an input too: a draw of a distribution over
    [0, 1) is a real in that range, a retry loop reads its draws from a
    sequence, first draw first. */
module Demes {
  import opened Permutations
  import opened Chromosomes

  // ---------------------------------------------------------------------
  // The roulette wheel

  /** f[0] + ... + f[k-1]. */
  function Prefix(f: seq<real>, k: nat): real
    requires k <= |f|
  {
    if k == 0 then 0.0 else Prefix(f, k - 1) + f[k - 1]
  }

  function Sum(f: seq<real>): real {
    Prefix(f, |f|)
  }

  predicate NonNegative(f: seq<real>) {
    forall i :: 0 <= i < |f| ==> f[i] >= 0.0
  }

  /** Fitnesses a roulette wheel can be spun on: none negative, some
      positive. */
  predicate Wheel(f: seq<real>) {
    NonNegative(f) && Sum(f) > 0.0
  }

  /** A draw of the uniform distribution over [0, 1). */
  predicate UnitDraw(u: real) {
    0.0 <= u < 1.0
  }

  /** Running sums never decrease. */
  lemma {:induction false} PrefixMonotone(f: seq<real>, j: nat, k: nat)
    requires NonNegative(f) && j <= k <= |f|
    ensures Prefix(f, j) <= Prefix(f, k)
    decreases k - j
  {
    if j < k {
      PrefixMonotone(f, j, k - 1);
    }
  }

  /** The draw of the uniform distribution over [0, s) that the unit draw u
      stands for. */
  function Scale(u: real, s: real): (x: real)
    requires UnitDraw(u) && s > 0.0
    ensures 0.0 <= x < s
    ensures x == 0.0 <==> u == 0.0
  {
    var x := u * s;
    UnitScale(u, s, x);
    x
  }

  lemma ProductSign(a: real, b: real)
    requires a >= 0.0 && b > 0.0
    ensures a * b >= 0.0 && (a > 0.0 ==> a * b > 0.0)
  {
  }

  /** Scaling [0, 1) by a positive s gives [0, s), and only 0 goes to 0. */
  lemma UnitScale(u: real, s: real, x: real)
    requires UnitDraw(u) && s > 0.0 && x == u * s
    ensures 0.0 <= x < s
    ensures x == 0.0 <==> u == 0.0
  {
    ProductSign(u, s);
    ProductSign(1.0 - u, s);
    assert s - x == (1.0 - u) * s;
  }

  /** Slot k owns the draw x: x lies in [f[0] + ... + f[k-1], f[0] + ... + f[k]). */
  predicate Owns(f: seq<real>, x: real, k: nat) {
    k < |f| && Prefix(f, k) <= x < Prefix(f, k + 1)
  }

  /** The first slot at or after k whose running sum passes x. */
  function PickFrom(f: seq<real>, x: real, k: nat): (r: nat)
    requires k < |f| && Prefix(f, k) <= x < Sum(f)
    ensures k <= r && Owns(f, x, r)
    decreases |f| - k
  {
    if x < Prefix(f, k + 1) then k else PickFrom(f, x, k + 1)
  }

  /** The slot the wheel stops at for the draw x in [0, sum). */
  function Pick(f: seq<real>, x: real): (k: nat)
    requires 0.0 <= x < Sum(f)
    ensures Owns(f, x, k)
  {
    PickFrom(f, x, 0)
  }

  /** The slots own disjoint stretches of the wheel: no draw is owned
      twice. */
  lemma OwnsUnique(f: seq<real>, x: real, k1: nat, k2: nat)
    requires NonNegative(f) && Owns(f, x, k1) && Owns(f, x, k2)
    ensures k1 == k2
  {
    if k1 < k2 {
      PrefixMonotone(f, k1 + 1, k2);
    } else if k2 < k1 {
      PrefixMonotone(f, k2 + 1, k1);
    }
  }

  /** A slot with zero fitness is never picked. */
  lemma PickSkipsZero(f: seq<real>, x: real)
    requires 0.0 <= x < Sum(f)
    ensures f[Pick(f, x)] > 0.0
  {
  }

  /** The slot select_parent returns for the unit draw u. */
  function Selected(f: seq<real>, u: real): (k: nat)
    requires Wheel(f) && UnitDraw(u)
    ensures k < |f|
  {
    Pick(f, Scale(u, Sum(f)))
  }

  /** The fitness sum, accumulated slot by slot. */
  method FitnessSum(f: seq<real>) returns (total: real)
    ensures total == Sum(f)
  {
    total := 0.0;
    var k := 0;
    while k < |f|
      invariant 0 <= k <= |f| && total == Prefix(f, k)
    {
      total := total + f[k];
      k := k + 1;
    }
  }

  /** The roulette walk as written: the walk stops once the running sum
      reaches the draw, so a draw of exactly 0 stops before the first slot
      and leaves the index at -1. */
  method SelectParentAsWritten(f: seq<real>, u: real) returns (index: int)
    requires Wheel(f) && UnitDraw(u)
    ensures u == 0.0 ==> index == -1
    ensures u > 0.0 ==> 0 <= index < |f| && Prefix(f, index) < Scale(u, Sum(f)) <= Prefix(f, index + 1)
  {
    var fitnessSum := FitnessSum(f);
    var fixed := Scale(u, fitnessSum);
    var partialSum := 0.0;
    index := -1;
    assert Sum(f) == Prefix(f, |f|);
    while partialSum < fixed
      invariant -1 <= index < |f| && partialSum == Prefix(f, index + 1)
      invariant 0.0 <= partialSum && (index >= 0 ==> 0.0 < fixed)
      invariant index >= 0 ==> Prefix(f, index) < fixed
      decreases |f| - index
    {
      index := index + 1;
      partialSum := partialSum + f[index];
    }
  }

  /** The roulette walk: the walk stops at the first slot whose running sum
      passes the draw, which is the one slot that owns it. */
  method SelectParent(f: seq<real>, u: real) returns (index: nat)
    requires Wheel(f) && UnitDraw(u)
    ensures Owns(f, Scale(u, Sum(f)), index)
    ensures index == Selected(f, u)
  {
    var fitnessSum := FitnessSum(f);
    var fixed := Scale(u, fitnessSum);
    var partialSum := 0.0;
    var k: int := -1;
    assert Sum(f) == Prefix(f, |f|);
    while partialSum <= fixed
      invariant -1 <= k < |f| && partialSum == Prefix(f, k + 1)
      invariant k >= 0 ==> Prefix(f, k) <= fixed
      decreases |f| - k
    {
      k := k + 1;
      partialSum := partialSum + f[k];
    }
    index := k;
    OwnsUnique(f, fixed, index, Selected(f, u));
  }

  /** On a draw equal to a running sum the walk as written stops one slot
      before the corrected wheel: with fitnesses 1, 1 and the unit draw 0.5
      the draw is 1; only slot 0 meets the postcondition of
      SelectParentAsWritten, while the corrected wheel picks slot 1. */
  lemma BoundaryDraw()
    ensures var f := [1.0, 1.0];
            Wheel(f) && Scale(0.5, Sum(f)) == 1.0 &&
            (forall k: nat :: k < |f| && Prefix(f, k) < Scale(0.5, Sum(f)) <= Prefix(f, k + 1) ==> k == 0) &&
            Prefix(f, 0) < Scale(0.5, Sum(f)) <= Prefix(f, 1) &&
            Selected(f, 0.5) == 1
  {
    var f := [1.0, 1.0];
    assert Prefix(f, 1) == 1.0 && Prefix(f, 2) == 2.0;
  }

  // ---------------------------------------------------------------------
  // The fittest individual

  /** Slot k is what get_best settles on: the first slot of the highest
      fitness when some fitness is positive, and slot 0 otherwise. */
  ghost predicate FirstBest(f: seq<real>, k: nat) {
    k < |f| &&
    ((exists i :: 0 <= i < |f| && f[i] > 0.0) ==>
       f[k] > 0.0 && (forall i :: 0 <= i < |f| ==> f[i] <= f[k]) &&
       (forall i :: 0 <= i < k ==> f[i] < f[k])) &&
    ((forall i :: 0 <= i < |f| ==> f[i] <= 0.0) ==> k == 0)
  }

  /** At most one slot is the first best. */
  lemma FirstBestUnique(f: seq<real>, k1: nat, k2: nat)
    requires FirstBest(f, k1) && FirstBest(f, k2)
    ensures k1 == k2
  {
  }

  // ---------------------------------------------------------------------
  // One generation, on tours

  /** The draws of one pass of the generation loop, in the order the loop
      uses them. */
  datatype Draws = Draws(
    first: real,           // selection of the first parent
    mutateFirst: real,     // decides whether the first parent mutates
    swapFirst: seq<int>,   // positions for that mutation
    second: seq<real>,     // selections tried for the second parent
    mutateSecond: real,    // decides whether the second parent mutates
    swapSecond: seq<int>,  // positions for that mutation
    cutBegin: seq<int>,    // begin cuts tried by recombine
    cutEnd: seq<int>)      // end cuts tried by recombine

  /** Every tour of the population is a permutation of the n cities. */
  predicate AllTours(t: seq<seq<int>>, n: nat) {
    forall k :: 0 <= k < |t| ==> IsPermutation(t[k], n)
  }

  /** The first draw of `second` at or after m that picks a slot other than
      k1. */
  function OtherPick(f: seq<real>, us: seq<real>, k1: nat, m: nat): (r: nat)
    requires Wheel(f) && forall i :: 0 <= i < |us| ==> UnitDraw(us[i])
    requires exists i :: m <= i < |us| && Selected(f, us[i]) != k1
    ensures m <= r < |us| && Selected(f, us[r]) != k1
    ensures forall i :: m <= i < r ==> Selected(f, us[i]) == k1
    decreases |us| - m
  {
    if Selected(f, us[m]) != k1 then m else OtherPick(f, us, k1, m + 1)
  }

  /** The draws can drive one pass: the selections and the rejection loop
      for the second parent, the mutations that happen, and recombine's cut
      loops all come to an end. */
  predicate DrawsOk(f: seq<real>, n: nat, mutRate: real, d: Draws) {
    Wheel(f) && UnitDraw(d.first) &&
    (forall i :: 0 <= i < |d.second| ==> UnitDraw(d.second[i])) &&
    (exists i :: 0 <= i < |d.second| && Selected(f, d.second[i]) != Selected(f, d.first)) &&
    (d.mutateFirst < mutRate ==> SwapDraws(d.swapFirst, n)) &&
    (d.mutateSecond < mutRate ==> SwapDraws(d.swapSecond, n)) &&
    CutDraws(d.cutBegin, d.cutEnd, n)
  }

  function FirstParent(f: seq<real>, n: nat, mutRate: real, d: Draws): (k1: nat)
    requires DrawsOk(f, n, mutRate, d)
    ensures k1 < |f|
  {
    Selected(f, d.first)
  }

  /** The second parent, drawn again until it is another slot than the
      first. */
  function SecondParent(f: seq<real>, n: nat, mutRate: real, d: Draws): (k2: nat)
    requires DrawsOk(f, n, mutRate, d)
    ensures k2 < |f| && k2 != FirstParent(f, n, mutRate, d)
  {
    Selected(f, d.second[OtherPick(f, d.second, Selected(f, d.first), 0)])
  }

  /** The positions a mutation swaps: two distinct positions of the tour
      when it mutates (the first draw and the first later one that differs
      from it); unused otherwise. */
  function Swaps(mutate: bool, pts: seq<int>, n: nat): (r: (nat, nat))
    requires mutate ==> SwapDraws(pts, n)
    ensures mutate ==> r.0 < n && r.1 < n && r.0 != r.1
  {
    if mutate then (pts[0], pts[FirstOther(pts, pts[0], 1)]) else (0, 0)
  }

  /** What the draws of one pass decide: the two parent slots, whether each
      mutates and at which positions, and recombine's cut points. */
  datatype Choice = Choice(
    first: nat, mutateFirst: bool, swapFirst: (nat, nat),
    second: nat, mutateSecond: bool, swapSecond: (nat, nat),
    cutBegin: nat, cutEnd: nat)

  /** A choice a pass can carry out on a population of `size` tours over n
      cities: two different parents, distinct in-range swap positions for
      each mutation, and a window [cutBegin, cutEnd) with 1 <= cutEnd <= n-1. */
  predicate ChoiceOk(c: Choice, size: nat, n: nat) {
    c.first < size && c.second < size && c.first != c.second &&
    (c.mutateFirst ==> c.swapFirst.0 < n && c.swapFirst.1 < n && c.swapFirst.0 != c.swapFirst.1) &&
    (c.mutateSecond ==> c.swapSecond.0 < n && c.swapSecond.1 < n && c.swapSecond.0 != c.swapSecond.1) &&
    c.cutBegin < c.cutEnd < n
  }

  /** The choice a pass's draws make: a parent mutates exactly when its draw
      is below the mutation rate. */
  function Resolve(f: seq<real>, n: nat, mutRate: real, d: Draws): (c: Choice)
    requires DrawsOk(f, n, mutRate, d)
    ensures ChoiceOk(c, |f|, n)
    ensures c.mutateFirst == (d.mutateFirst < mutRate) && c.mutateSecond == (d.mutateSecond < mutRate)
  {
    var b, e := CutBegin(d.cutBegin, d.cutEnd, n), CutEnd(d.cutEnd);
    assert 0 <= b < e < n;
    Choice(FirstParent(f, n, mutRate, d), d.mutateFirst < mutRate,
           Swaps(d.mutateFirst < mutRate, d.swapFirst, n),
           SecondParent(f, n, mutRate, d), d.mutateSecond < mutRate,
           Swaps(d.mutateSecond < mutRate, d.swapSecond, n),
           b, e)
  }

  /** The choices of all passes. */
  function Resolved(f: seq<real>, n: nat, mutRate: real, ds: seq<Draws>): (cs: seq<Choice>)
    requires forall q :: 0 <= q < |ds| ==> DrawsOk(f, n, mutRate, ds[q])
    ensures |cs| == |ds| && forall q :: 0 <= q < |ds| ==> ChoiceOk(cs[q], |f|, n)
  {
    seq(|ds|, q requires 0 <= q < |ds| => Resolve(f, n, mutRate, ds[q]))
  }

  /** cs holds the choices the draws ds make, pass by pass. */
  predicate Plan(f: seq<real>, n: nat, mutRate: real, ds: seq<Draws>, cs: seq<Choice>) {
    |cs| == |ds| &&
    forall q {:trigger ds[q]} :: 0 <= q < |ds| ==>
      DrawsOk(f, n, mutRate, ds[q]) && cs[q] == Resolve(f, n, mutRate, ds[q])
  }

  lemma ResolvedPlan(f: seq<real>, n: nat, mutRate: real, ds: seq<Draws>)
    requires forall q :: 0 <= q < |ds| ==> DrawsOk(f, n, mutRate, ds[q])
    ensures Plan(f, n, mutRate, ds, Resolved(f, n, mutRate, ds))
  {
  }

  /** A parent's tour after the mutation decision. */
  function Mutated(t: seq<int>, n: nat, mutate: bool, sw: (nat, nat)): seq<int>
    requires IsPermutation(t, n) && (mutate ==> sw.0 < n && sw.1 < n && sw.0 != sw.1)
  {
    if mutate then Swap(t, sw.0, sw.1) else t
  }

  /** A mutation changes the tour exactly when it happens, and the tour
      stays a permutation either way. */
  lemma MutatedChanges(t: seq<int>, n: nat, mutate: bool, sw: (nat, nat))
    requires IsPermutation(t, n) && (mutate ==> sw.0 < n && sw.1 < n && sw.0 != sw.1)
    ensures IsPermutation(Mutated(t, n, mutate, sw), n)
    ensures Mutated(t, n, mutate, sw) != t <==> mutate
  {
    if mutate {
      SwapKeepsPermutation(t, n, sw.0, sw.1);
      assert Swap(t, sw.0, sw.1)[sw.0] != t[sw.0];
    }
  }

  /** The population's tours after the pass has mutated its parents: the
      first parent, then the second one. */
  function AfterMutation(t: seq<seq<int>>, n: nat, c: Choice): (r: seq<seq<int>>)
    requires AllTours(t, n) && ChoiceOk(c, |t|, n)
    ensures |r| == |t| && AllTours(r, n)
  {
    t[c.first := Mutated(t[c.first], n, c.mutateFirst, c.swapFirst)]
     [c.second := Mutated(t[c.second], n, c.mutateSecond, c.swapSecond)]
  }

  /** Only the two parents can change, and each changes exactly when it
      mutates. */
  lemma AfterMutationChanges(t: seq<seq<int>>, n: nat, c: Choice)
    requires AllTours(t, n) && ChoiceOk(c, |t|, n)
    ensures var r := AfterMutation(t, n, c);
            (forall k :: 0 <= k < |t| && k != c.first && k != c.second ==> r[k] == t[k]) &&
            (r[c.first] != t[c.first] <==> c.mutateFirst) &&
            (r[c.second] != t[c.second] <==> c.mutateSecond)
  {
    MutatedChanges(t[c.first], n, c.mutateFirst, c.swapFirst);
    MutatedChanges(t[c.second], n, c.mutateSecond, c.swapSecond);
  }

  /** The two children recombine makes from the parents' (mutated) tours:
      the first takes the second parent's window and the first parent's
      order, the second the other way round. */
  function Offspring(t: seq<seq<int>>, n: nat, c: Choice): (kids: seq<seq<int>>)
    requires AllTours(t, n) && ChoiceOk(c, |t|, n)
    ensures |kids| == 2 && AllTours(kids, n)
  {
    var p1, p2 := t[c.first], t[c.second];
    CrossoverIsPermutation(p2, p1, c.cutBegin, c.cutEnd);
    CrossoverIsPermutation(p1, p2, c.cutBegin, c.cutEnd);
    [Crossover(p2, p1, c.cutBegin, c.cutEnd), Crossover(p1, p2, c.cutBegin, c.cutEnd)]
  }

  /** Every choice can be carried out on a population of `size` tours. */
  predicate ChoicesOk(cs: seq<Choice>, size: nat, n: nat) {
    forall q :: 0 <= q < |cs| ==> ChoiceOk(cs[q], size, n)
  }

  /** The tours of the next generation from pass p on: each pass mutates
      its parents in the current population and contributes the two
      children of one recombination; two tours per pass, each a
      permutation. */
  function Generation(t: seq<seq<int>>, n: nat, cs: seq<Choice>, p: nat): (next: seq<seq<int>>)
    requires AllTours(t, n) && ChoicesOk(cs, |t|, n) && p <= |cs|
    ensures |next| == 2 * (|cs| - p) && AllTours(next, n)
    decreases |cs| - p
  {
    if p == |cs| then []
    else
      var t' := AfterMutation(t, n, cs[p]);
      var kids := Offspring(t', n, cs[p]);
      var rest := Generation(t', n, cs, p + 1);
      assert forall k :: 0 <= k < |kids + rest| ==>
        (kids + rest)[k] == if k < 2 then kids[k] else rest[k - 2];
      kids + rest
  }

  /** The generation from pass p on is that pass's offspring followed by
      the generation from the next pass on the mutated tours. */
  lemma GenerationUnfold(t: seq<seq<int>>, n: nat, cs: seq<Choice>, p: nat)
    requires AllTours(t, n) && ChoicesOk(cs, |t|, n) && p < |cs|
    ensures Generation(t, n, cs, p)
         == Offspring(AfterMutation(t, n, cs[p]), n, cs[p]) + Generation(AfterMutation(t, n, cs[p]), n, cs, p + 1)
  {
  }

  /** The tours the passes s, ..., p-1 leave once they have mutated their
      parents, starting from the tours t. */
  function Mutations(t: seq<seq<int>>, n: nat, cs: seq<Choice>, s: nat, p: nat): (r: seq<seq<int>>)
    requires AllTours(t, n) && ChoicesOk(cs, |t|, n) && s <= p <= |cs|
    ensures |r| == |t| && AllTours(r, n)
    decreases p - s
  {
    if s == p then t else Mutations(AfterMutation(t, n, cs[s]), n, cs, s + 1, p)
  }

  /** The two children of one recombination go into consecutive slots:
      slots 2p and 2p+1 of the generation hold the offspring of pass p,
      taken on the tours the mutations of passes 0, ..., p leave. */
  lemma GenerationSlots(t: seq<seq<int>>, n: nat, cs: seq<Choice>, p: nat)
    requires AllTours(t, n) && ChoicesOk(cs, |t|, n) && p < |cs|
    ensures Generation(t, n, cs, 0)[2 * p .. 2 * p + 2]
         == Offspring(Mutations(t, n, cs, 0, p + 1), n, cs[p])
  {
    SlotsFrom(t, n, cs, 0, p);
    var g := Generation(t, n, cs, 0);
    assert g[2 * p .. 2 * p + 2] == [g[2 * p], g[2 * p + 1]];
  }

  /** GenerationSlots for the generation from pass s on, slot by slot, by
      induction on the passes before p. */
  lemma {:induction false} SlotsFrom(t: seq<seq<int>>, n: nat, cs: seq<Choice>, s: nat, p: nat)
    requires AllTours(t, n) && ChoicesOk(cs, |t|, n) && s <= p < |cs|
    ensures var g, kids := Generation(t, n, cs, s), Offspring(Mutations(t, n, cs, s, p + 1), n, cs[p]);
            g[2 * (p - s)] == kids[0] && g[2 * (p - s) + 1] == kids[1]
    decreases p - s
  {
    var t' := AfterMutation(t, n, cs[s]);
    GenerationUnfold(t, n, cs, s);
    var kids := Offspring(t', n, cs[s]);
    var rest := Generation(t', n, cs, s + 1);
    assert Generation(t, n, cs, s) == kids + rest;
    assert Mutations(t, n, cs, s, p + 1) == Mutations(t', n, cs, s + 1, p + 1);
    if s < p {
      SlotsFrom(t', n, cs, s + 1, p);
      assert (kids + rest)[2 * (p - s)] == rest[2 * (p - s - 1)];
      assert (kids + rest)[2 * (p - s) + 1] == rest[2 * (p - s - 1) + 1];
    } else {
      assert Mutations(t', n, cs, s + 1, p + 1) == t';
    }
  }

  /** The children made so far: chromosomes over n cities with the given
      tours, all distinct. */
  ghost predicate Brood(cs: seq<Chromosome>, kids: seq<seq<int>>, n: nat)
    reads cs
  {
    |cs| == |kids| &&
    (forall k :: 0 <= k < |cs| ==> cs[k].cityCount == n && cs[k].order == kids[k]) &&
    (forall k, m :: 0 <= k < m < |cs| ==> cs[k] != cs[m])
  }

  class Deme {
    const cityCount: nat
    const popSize: nat
    /** Probability with which each selected parent mutates. */
    const mutRate: real
    var pop: seq<Chromosome>

    /** popSize distinct, valid chromosomes over the same cities. */
    ghost predicate Valid()
      reads this, pop
    {
      |pop| == popSize &&
      (forall k :: 0 <= k < |pop| ==> pop[k].cityCount == cityCount && pop[k].Valid()) &&
      (forall k, m :: 0 <= k < m < |pop| ==> pop[k] != pop[m])
    }

    /** The tours of the population, slot by slot. */
    ghost function Tours(): (t: seq<seq<int>>)
      reads this, pop
      ensures |t| == |pop| && forall k :: 0 <= k < |pop| ==> t[k] == pop[k].order
    {
      seq(|pop|, k reads this, pop requires 0 <= k < |pop| => pop[k].order)
    }

    /** popSize chromosomes, one per tour the random source produced, each
        a new object. */
    constructor (cityCount: nat, popSize: nat, mutRate: real, tours: seq<seq<int>>)
      requires |tours| == popSize && AllTours(tours, cityCount)
      ensures Valid() && Tours() == tours
      ensures this.cityCount == cityCount && this.popSize == popSize && this.mutRate == mutRate
      ensures forall k :: 0 <= k < |pop| ==> fresh(pop[k])
    {
      this.cityCount, this.popSize, this.mutRate := cityCount, popSize, mutRate;
      pop := [];
      new;
      var remaining := popSize;
      while remaining > 0
        invariant 0 <= remaining <= popSize && |pop| == popSize - remaining
        invariant forall k :: 0 <= k < |pop| ==> fresh(pop[k]) && pop[k].order == tours[k]
        invariant forall k :: 0 <= k < |pop| ==> pop[k].cityCount == cityCount && pop[k].Valid()
        invariant forall k, m :: 0 <= k < m < |pop| ==> pop[k] != pop[m]
      {
        var chromo := new Chromosome(cityCount, tours[|pop|]);
        var c := chromo.Clone();
        pop := pop + [c];
        remaining := remaining - 1;
      }
    }

    /** get_best: the chromosome in the first slot of the highest fitness,
        or the first chromosome when no fitness is positive. */
    method GetBest(fitness: seq<real>) returns (fittest: Chromosome)
      requires Valid() && |fitness| == |pop| && |pop| > 0
      ensures exists k: nat :: FirstBest(fitness, k) && fittest == pop[k]
    {
      var best := 0.0;
      fittest := pop[0];
      ghost var at := 0;
      for i := 0 to |pop|
        invariant at < |pop| && fittest == pop[at] && best >= 0.0
        invariant forall m :: 0 <= m < i ==> fitness[m] <= best
        invariant best == 0.0 ==> at == 0
        invariant best > 0.0 ==> at < i && fitness[at] == best &&
                                 forall m :: 0 <= m < at ==> fitness[m] < best
      {
        var fit := fitness[i];
        if fit > best {
          best := fit;
          fittest := pop[i];
          at := i;
        }
      }
      assert FirstBest(fitness, at);
    }

    /** A selected parent mutates exactly when its draw is below the
        mutation rate; every other chromosome stays as it is. */
    method MaybeMutate(k: nat, draw: real, pts: seq<int>)
      requires Valid() && k < |pop| && (draw < mutRate ==> SwapDraws(pts, cityCount))
      modifies pop[k]
      ensures Valid()
      ensures Tours() == old(Tours())[k := Mutated(old(Tours())[k], cityCount, draw < mutRate,
                                                   Swaps(draw < mutRate, pts, cityCount))]
    {
      ghost var t := Tours();
      if draw < mutRate {
        pop[k].Mutate(pts);
      }
      ghost var r := t[k := Mutated(t[k], cityCount, draw < mutRate, Swaps(draw < mutRate, pts, cityCount))];
      forall j | 0 <= j < |pop| ensures Tours()[j] == r[j] {
        if j != k {
          assert pop[j] != pop[k];
        }
      }
    }

    /** The second parent: selections are drawn until one is another
        chromosome than the first parent. */
    method SelectOther(fitness: seq<real>, us: seq<real>, k1: nat) returns (k2: nat)
      requires Valid() && |fitness| == |pop| && Wheel(fitness) && k1 < |pop|
      requires forall i :: 0 <= i < |us| ==> UnitDraw(us[i])
      requires exists i :: 0 <= i < |us| && Selected(fitness, us[i]) != k1
      ensures k2 != k1 && k2 == Selected(fitness, us[OtherPick(fitness, us, k1, 0)])
    {
      ghost var last := OtherPick(fitness, us, k1, 0);
      var m := 0;
      k2 := SelectParent(fitness, us[m]);
      while pop[k2] == pop[k1]
        invariant 0 <= m <= last && k2 == Selected(fitness, us[m])
        decreases last - m
      {
        m := m + 1;
        k2 := SelectParent(fitness, us[m]);
      }
      assert k2 != k1;
    }

    /** The first half of a pass: select the first parent and maybe mutate
        it, then select a second, different parent and maybe mutate it. */
    method PickParents(fitness: seq<real>, d: Draws) returns (k1: nat, k2: nat)
      requires Valid() && |fitness| == |pop| && DrawsOk(fitness, cityCount, mutRate, d)
      modifies pop
      ensures Valid() && pop == old(pop)
      ensures k1 == FirstParent(fitness, cityCount, mutRate, d)
      ensures k2 == SecondParent(fitness, cityCount, mutRate, d)
      ensures Tours() == AfterMutation(old(Tours()), cityCount, Resolve(fitness, cityCount, mutRate, d))
    {
      k1 := SelectParent(fitness, d.first);
      MaybeMutate(k1, d.mutateFirst, d.swapFirst);
      k2 := SelectOther(fitness, d.second, k1);
      MaybeMutate(k2, d.mutateSecond, d.swapSecond);
    }

    /** One pass of compute_next_generation: the parents, then the two
        children of their recombination. */
    method Breed(fitness: seq<real>, d: Draws) returns (child1: Chromosome, child2: Chromosome)
      requires Valid() && |fitness| == |pop| && DrawsOk(fitness, cityCount, mutRate, d)
      modifies pop
      ensures Valid() && pop == old(pop)
      ensures Tours() == AfterMutation(old(Tours()), cityCount, Resolve(fitness, cityCount, mutRate, d))
      ensures fresh(child1) && fresh(child2) && child1 != child2
      ensures child1.cityCount == cityCount && child2.cityCount == cityCount
      ensures [child1.order, child2.order]
           == Offspring(Tours(), cityCount, Resolve(fitness, cityCount, mutRate, d))
    {
      var k1, k2 := PickParents(fitness, d);
      ghost var t := Tours();
      child1, child2 := pop[k1].Recombine(pop[k2], d.cutBegin, d.cutEnd);
      assert Tours() == t;
    }

    /** Where compute_next_generation stands after p passes: the first 2p
        slots of the next generation hold distinct new chromosomes (none of
        them in the population) whose tours are kids, and kids followed by
        the generation still to come from the current tours is the goal. */
    ghost predicate Generating(cs: seq<Choice>, goal: seq<seq<int>>,
                               nextGen: seq<Chromosome>, kids: seq<seq<int>>, p: nat)
      reads this, pop, nextGen
    {
      Valid() && ChoicesOk(cs, |pop|, cityCount) && p <= |cs| && 2 * p <= |nextGen| &&
      Brood(nextGen[..2 * p], kids, cityCount) && (forall k :: 0 <= k < 2 * p ==> nextGen[k] !in pop) &&
      kids + Generation(Tours(), cityCount, cs, p) == goal
    }

    /** The body of pass p of the generation loop: the two children of one
        recombination go into slots 2p and 2p + 1 of the next generation,
        and their tours are the pass's offspring.  (The plan is compared
        with `true` here and below so that the verifier takes it as one
        fact instead of unfolding it at each call.) */
    method Place(fitness: seq<real>, ds: seq<Draws>, p: nat, ghost cs: seq<Choice>,
                 nextGen: seq<Chromosome>, ghost kids: seq<seq<int>>)
      returns (nextGen': seq<Chromosome>)
      requires Valid() && |fitness| == |pop| && p < |ds|
      requires Plan(fitness, cityCount, mutRate, ds, cs) == true
      requires 2 * p + 2 <= |nextGen| && |kids| == 2 * p && Brood(nextGen[..2 * p], kids, cityCount)
      requires forall k :: 0 <= k < 2 * p ==> nextGen[k] !in pop
      modifies pop
      ensures Valid() && pop == old(pop) && |nextGen'| == |nextGen| && ChoiceOk(cs[p], |pop|, cityCount)
      ensures Tours() == AfterMutation(old(Tours()), cityCount, cs[p])
      ensures Brood(nextGen'[..2 * p + 2], kids + Offspring(Tours(), cityCount, cs[p]), cityCount)
      ensures forall k :: 0 <= k < 2 * p + 2 ==> nextGen'[k] !in pop
    {
      var i := 2 * p;
      assert DrawsOk(fitness, cityCount, mutRate, ds[p]) && cs[p] == Resolve(fitness, cityCount, mutRate, ds[p]);
      var child1, child2 := Breed(fitness, ds[p]);
      nextGen' := nextGen[i := child1][i + 1 := child2];
      assert nextGen'[..i + 2] == nextGen[..i] + [child1, child2];
      forall k | 0 <= k < i
        ensures nextGen[k].order == kids[k] && nextGen[k] != child1 && nextGen[k] != child2
      {
        assert nextGen[..i][k] == nextGen[k] && nextGen[k] !in old(pop);
      }
    }

    /** Pass p of the generation loop keeps the loop's account: it fills two
        more slots and moves on to the tours its mutations leave. */
    method Pass(fitness: seq<real>, ds: seq<Draws>, nextGen: seq<Chromosome>, p: nat,
                ghost cs: seq<Choice>, ghost goal: seq<seq<int>>, ghost kids: seq<seq<int>>)
      returns (nextGen': seq<Chromosome>, ghost kids': seq<seq<int>>)
      requires |fitness| == |pop| && p < |ds| && |nextGen| == 2 * |ds|
      requires Plan(fitness, cityCount, mutRate, ds, cs) == true
      requires Generating(cs, goal, nextGen, kids, p) == true
      modifies pop
      ensures pop == old(pop) && |nextGen'| == |nextGen|
      ensures Generating(cs, goal, nextGen', kids', p + 1) == true
    {
      ghost var now := Tours();
      GenerationUnfold(now, cityCount, cs, p);
      nextGen' := Place(fitness, ds, p, cs, nextGen, kids);
      kids' := kids + Offspring(Tours(), cityCount, cs[p]);
      assert 2 * (p + 1) == 2 * p + 2;
      assert kids' + Generation(Tours(), cityCount, cs, p + 1) == goal;
    }

    /** The end of compute_next_generation: the filled next generation
        replaces the population. */
    method Adopt(nextGen: seq<Chromosome>, ghost cs: seq<Choice>, ghost goal: seq<seq<int>>,
                 ghost kids: seq<seq<int>>)
      requires |nextGen| == popSize == 2 * |cs| && AllTours(goal, cityCount)
      requires Generating(cs, goal, nextGen, kids, |cs|) == true
      modifies this
      ensures Valid() && Tours() == goal
      ensures forall k :: 0 <= k < |pop| ==> pop[k] !in old(pop)
    {
      assert kids == goal && nextGen[..2 * |cs|] == nextGen;
      pop := nextGen;
      forall k | 0 <= k < |pop| ensures pop[k].order == kids[k] && pop[k].Valid() {
        assert IsPermutation(kids[k], cityCount);
      }
    }

    /** Before the first pass nothing is filled and the whole generation is
        still to come. */
    lemma Begin(cs: seq<Choice>)
      requires Valid() && ChoicesOk(cs, |pop|, cityCount)
      ensures Generating(cs, Generation(Tours(), cityCount, cs, 0), pop, [], 0)
    {
    }

    /** The loop of compute_next_generation: popSize / 2 passes, each writing
        its two children into the next two slots of a copy of the
        population. */
    method Fill(fitness: seq<real>, ds: seq<Draws>, ghost cs: seq<Choice>, ghost goal: seq<seq<int>>)
      returns (nextGen: seq<Chromosome>, ghost kids: seq<seq<int>>)
      requires |fitness| == |pop| == popSize == 2 * |ds|
      requires Plan(fitness, cityCount, mutRate, ds, cs) == true
      requires Generating(cs, goal, pop, [], 0) == true
      modifies pop
      ensures pop == old(pop) && |nextGen| == popSize
      ensures Generating(cs, goal, nextGen, kids, |ds|) == true
    {
      nextGen := pop;
      kids := [];
      var p := 0;
      var i := 0;
      while i < popSize
        invariant 0 <= p <= |ds| && i == 2 * p && |nextGen| == popSize && pop == old(pop)
        invariant Generating(cs, goal, nextGen, kids, p) == true
      {
        nextGen, kids := Pass(fitness, ds, nextGen, p, cs, goal, kids);
        i := i + 2;
        p := p + 1;
      }
    }

    /** compute_next_generation: the passes fill the next generation, which
        then replaces the population. */
    method ComputeNextGeneration(fitness: seq<real>, ds: seq<Draws>)
      requires Valid() && popSize % 2 == 0
      requires |fitness| == popSize && |ds| == popSize / 2
      requires forall p :: 0 <= p < |ds| ==> DrawsOk(fitness, cityCount, mutRate, ds[p])
      modifies this, pop
      ensures Valid()
      ensures Tours() == Generation(old(Tours()), cityCount, Resolved(fitness, cityCount, mutRate, ds), 0)
      ensures forall k :: 0 <= k < |pop| ==> pop[k] !in old(pop)
    {
      ghost var cs := Resolved(fitness, cityCount, mutRate, ds);
      ResolvedPlan(fitness, cityCount, mutRate, ds);
      ghost var goal := Generation(Tours(), cityCount, cs, 0);
      Begin(cs);
      var nextGen, kids := Fill(fitness, ds, cs, goal);
      Adopt(nextGen, cs, goal, kids);
    }
  }
}
