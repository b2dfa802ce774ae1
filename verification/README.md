# Genetic-algorithm TSP solver: tours, crossover and the generation loop

This project models the discrete core of a genetic algorithm for the
travelling-salesperson problem. It is written in Dafny.

- A **chromosome** holds a tour: an order in which to visit the N cities of a
  catalog. It should be a permutation of `[0, N)`.
- `mutate` swaps two distinct positions of the tour.
- `recombine` draws a window `[b, e)` and builds two children by *ordered
  crossover*. A child copies one parent's window verbatim. It fills the other
  positions, left to right, with the other parent's cities in that parent's
  order, skipping the cities that are in the window.
- `is_valid` checks that a sorted copy of the tour reads `0, 1, 2, ...`.
- `is_in_range` asks whether a city's first position in the tour lies in a
  window.
- A **deme** is a population of chromosomes. `compute_next_generation` makes
  `pop_size / 2` passes. Each pass does the following:
  1. Selects a parent by a roulette wheel over fitness (`select_parent`) and
     mutates it with probability `mut_rate`.
  2. Selects a second, different parent the same way and maybe mutates it.
  3. Stores the two children of their recombination in the next two slots of
     the new generation.

  The new generation then replaces the old one. `get_best` returns the first
  chromosome of highest fitness.

Every random draw is an input:

- A draw of a uniform real distribution over `[0, 1)` is a real in that range.
- A draw of a uniform integer distribution over `[0, N-1]` is an integer in that
  range.
- A retry loop reads its draws from a sequence, first draw first. Its
  precondition asks for a draw that ends the loop.

Fitness is an input too: one non-negative real per population slot.

The project has three modules:

- `Permutations` (`permutations.dfy`) covers permutations of `[0, n)`,
  filtering a tour by a set of cities (`Without`) and sorting a copy (`Sort`).
- `Chromosomes` (`chromosome.dfy`) has the draw loops, the swap, the window
  lookup and the ordered crossover as functions. It also has the class
  `Chromosome`, whose methods carry out the source's loops against them.
- `Demes` (`deme.dfy`) has three parts:
  - the roulette wheel and the best-fitness scan;
  - a functional account of one generation (`Generation`), built from what
    each pass chooses (`Choice`);
  - the class `Deme`, whose `ComputeNextGeneration` is proved to leave exactly
    the tours `Generation` describes.

## Model

| member | source | states |
|---|---|---|
| `Permutations.Sort` | chromosome.cc:117-118 | The sorted copy is ascending and has the same multiset of cities as the tour. |
| `Permutations.WithoutLength` | chromosome.cc:91-95 | Take a permutation of `[0, n)` and remove the cities of a window with no repeats. Exactly n minus the window's size cities remain. |
| `Permutations.SortIsIota` | chromosome.cc:115-126 | The sorted copy is `0, 1, ..., len-1` exactly when the tour is a permutation of `[0, len)` (both directions). |
| `Chromosomes.FirstOther` | chromosome.cc:37-39 | The index of the first draw at or after a start position that differs from a value. Every draw before it equals the value. |
| `Chromosomes.FirstBelow` | chromosome.cc:57 | The index of the first draw below a bound. Every earlier draw is at or above it. |
| `Chromosomes.DrawDistinct` | chromosome.cc:34-39 | `pt1 != pt2` and both lie in `[0, N)`. `pt1` is the first draw, and `pt2` is the first later draw that differs from it. |
| `Chromosomes.ChooseCuts` | chromosome.cc:53-57 | `0 <= b < e` and `1 <= e <= N-1`. `e` is the first non-zero draw, and `b` is the first draw below `e`. |
| `Chromosomes.Swap` | chromosome.cc:42 | Positions `i` and `j` trade cities. Every other position is unchanged. |
| `Chromosomes.SwapKeepsPermutation` | chromosome.cc:42-43 | Swapping two positions of a permutation gives a permutation. For distinct positions, exactly those two positions change. |
| `Chromosomes.IndexOf` | chromosome.cc:136-137 | The offset `std::find` returns: the first position holding the value, or the tour's length when the value is absent. |
| `Chromosomes.InRangeMeaning` | chromosome.cc:132-142 | The contract of `InRange`, the model of `is_in_range(v, b, e)`, for any bounds: it holds exactly when `v` occurs before `e` but not before `b` (both cut down to the tour's length), or when `v` is absent and the tour's length, where `std::find` then points, lies in `[b, e)`. |
| `Chromosomes.InRangeIsWindow` | chromosome.cc:132-142 | In a tour without repeated cities, `is_in_range` is exactly membership in the window. |
| `Chromosomes.Crossover` | chromosome.cc:88-98 | The ordered-crossover child of two permutations has the parents' length. |
| `Chromosomes.RestLength` | chromosome.cc:91-95 | `p2` without `p1`'s window has exactly as many cities as there are positions outside the window. So the cursor over `p2` never runs out. |
| `Chromosomes.CrossoverKeepsWindow` | chromosome.cc:89-90 | For every `i` in `[b, e)`, `child[i] == p1[i]`. |
| `Chromosomes.CrossoverKeepsOrder` | chromosome.cc:91-97 | The positions outside `[b, e)`, read left to right, are exactly `p2` with `p1`'s window removed, in `p2`'s order. |
| `Chromosomes.CrossoverIsPermutation` | chromosome.cc:101 | The ordered crossover of two permutations of `[0, N)` is a permutation of `[0, N)`. |
| `Chromosomes.Chromosome.constructor` | chromosome.cc:14-20 | The new chromosome is valid and holds the permutation the random source produced. |
| `Chromosomes.Chromosome.Mutate` | chromosome.cc:30-44 | The tour becomes the old tour with the two drawn positions swapped, and it is still a valid permutation. |
| `Chromosomes.Chromosome.Recombine` | chromosome.cc:48-73 | Returns two new, distinct, valid chromosomes. The first takes `other`'s window and this tour's order; the second takes this tour's window and `other`'s order. Both use the cuts `ChooseCuts` picks. Neither parent changes. |
| `Chromosomes.Chromosome.CreateCrossoverChild` | chromosome.cc:78-103 | The loop with cursors `i` and `j` builds a new, valid chromosome whose tour is `Crossover(p1, p2, b, e)`. |
| `Chromosomes.Chromosome.SkipWindow` | chromosome.cc:92-95 | The inner loop skips only cities of `p1`'s window. It stops at some `j` below the length of `p2` on a city outside the window, which is the assert on line 95. |
| `Chromosomes.Chromosome.IsValidAsWritten` | chromosome.cc:114-127 | As written, the check returns true exactly when the tour is a permutation of `[0, len)` and `len <= N + 1`. |
| `Chromosomes.Chromosome.IsValid` | chromosome.cc:114-127 | Corrected: the check returns true exactly when the tour is a permutation of the catalog's N cities. |
| `Chromosomes.ExtraCityPassesCheck` | chromosome.cc:122-125 | With a 2-city catalog, the check as written accepts `[0, 1, 2]` and `[0]`. Neither is a permutation of the 2 cities. |
| `Demes.PrefixMonotone` | deme.cc:98-100 | With non-negative fitnesses, the running sum never decreases. |
| `Demes.Scale` | deme.cc:95-96 | A draw of the uniform distribution over `[0, sum)` lies in that range. It is 0 exactly when the unit draw is 0. |
| `Demes.PickFrom` | deme.cc:97-101 | Corrected wheel: the walk from slot `k` on stops at the slot that owns the draw. |
| `Demes.Pick` | deme.cc:97-101 | Corrected wheel: the slot it stops at owns the draw, which lies in `[f[0]+...+f[k-1], f[0]+...+f[k])`. |
| `Demes.OwnsUnique` | deme.cc:97-101 | With non-negative fitnesses, no draw is owned by two slots. |
| `Demes.PickSkipsZero` | deme.cc:97-101 | A slot with zero fitness is never selected. |
| `Demes.Selected` | deme.cc:86-103 | The slot the corrected `select_parent` returns is a population slot. |
| `Demes.FitnessSum` | deme.cc:87-92 | The accumulated fitness is the sum of all fitnesses. |
| `Demes.SelectParentAsWritten` | deme.cc:86-103 | As written: a draw of 0 leaves the index at -1. A positive draw returns the `k` with `f[0]+...+f[k-1] < x <= f[0]+...+f[k]`. |
| `Demes.BoundaryDraw` | deme.cc:97-101 | With fitnesses 1, 1 and unit draw 0.5 the draw is 1, a running sum: only slot 0 meets the as-written walk's postcondition, while the corrected wheel picks slot 1. |
| `Demes.SelectParent` | deme.cc:86-103 | Corrected: returns the one slot that owns the draw, which is `Selected(f, u)`. |
| `Demes.FirstBestUnique` | deme.cc:70-82 | At most one slot is "the first slot of the highest positive fitness, else slot 0". |
| `Demes.Deme.GetBest` | deme.cc:70-82 | Returns the chromosome in the first slot whose fitness is positive and above every earlier one and at least every later one. When no fitness is positive, it returns the first chromosome. |
| `Demes.Deme.constructor` | deme.cc:13-25 | Exactly `pop_size` distinct, valid, new chromosomes, holding the tours the random source produced, in order. |
| `Demes.OtherPick` | deme.cc:53-57 | The first selection draw that picks a slot other than the first parent's. Every earlier draw picks the first parent. |
| `Demes.FirstParent` | deme.cc:49 | The first parent is a population slot. |
| `Demes.SecondParent` | deme.cc:53-57 | The second parent is a population slot different from the first. |
| `Demes.Swaps` | deme.cc:51 | A parent that mutates swaps two distinct positions inside its tour. |
| `Demes.Resolve` | deme.cc:49-61 | The draws of a pass give two different parent slots and in-range distinct swap positions for each mutation. They also give a window with `1 <= e <= N-1`. A parent mutates exactly when its draw is below `mut_rate`. |
| `Demes.Resolved` | deme.cc:45-65 | The draws give one valid choice per pass. |
| `Demes.MutatedChanges` | deme.cc:50-51 | The contract of `Mutated`, the parent's tour after `if(mut < mut_rate_) parent->mutate()`: it stays a permutation, and it differs from the old tour exactly when the parent mutates. |
| `Demes.AfterMutation` | deme.cc:49-59 | Mutating the two parents leaves a population of the same size whose tours are all permutations. |
| `Demes.AfterMutationChanges` | deme.cc:49-59 | Only the two parents' tours can change, and each changes exactly when it mutates. |
| `Demes.Offspring` | deme.cc:61 | A pass yields exactly two children, both permutations of the cities. |
| `Demes.Generation` | deme.cc:45-65 | The passes from `p` on yield `2 * (passes left)` tours, all permutations. |
| `Demes.GenerationSlots` | deme.cc:49-64 | The two children of pass `p` sit in consecutive slots `2p` and `2p+1` of the generation. They are the `Offspring` of the tours that the mutations of passes `0` to `p` leave (`Mutations`), so each pass sees every earlier pass's mutations and its own. |
| `Demes.Deme.MaybeMutate` | deme.cc:50-51 | The selected chromosome mutates exactly when its draw is below `mut_rate`. No other chromosome changes. |
| `Demes.Deme.SelectOther` | deme.cc:53-57 | The rejection loop returns a slot other than the first parent's, namely the one `OtherPick` finds. |
| `Demes.Deme.PickParents` | deme.cc:49-59 | Selects `FirstParent` and `SecondParent` and leaves the tours `AfterMutation` describes. |
| `Demes.Deme.Breed` | deme.cc:49-61 | Selects and mutates the parents, and returns two new, distinct children whose tours are the pass's `Offspring`. |
| `Demes.Deme.Place` | deme.cc:61-64 | Pass `p` writes its two children into slots `2p` and `2p + 1` of the next generation. The earlier slots keep their distinct new children. |
| `Demes.Deme.Pass` | deme.cc:46-64 | One pass keeps the loop's account. The filled slots hold distinct new children, and their tours followed by the generation still to come equal the whole generation. |
| `Demes.Deme.Fill` | deme.cc:44-65 | Starting from a copy of the population, `pop_size / 2` passes fill every slot with a new child. |
| `Demes.Deme.Adopt` | deme.cc:66 | The filled next generation replaces the population. It is valid, it holds the planned tours, and no old chromosome remains. |
| `Demes.Deme.ComputeNextGeneration` | deme.cc:42-67 | With an even population size, the population keeps its size and stays valid. Its tours become exactly `Generation` of the old tours under the draws' choices. No old chromosome survives. |

## Left out

- Random number generation and clock seeding (chromosome.cc:17, deme.cc:16) are left out. Every draw is a parameter. A retry loop takes a sequence of draws and requires one that ends it.
- `get_fitness` and `calculate_total_distance` (chromosome.cc:107-109) and the `Cities` class are left out. They compute floating-point distances in code that is not part of this model. Fitness is a caller-supplied sequence of non-negative reals.
- `Demes.Deme.ComputeNextGeneration` selects parents on the corrected wheel (`Demes.Selected`), where slot `k` owns the draws in `[Prefix(k), Prefix(k+1))`. The source's walk (deme.cc:98) stops while `partial_sum < fixed` fails, so on a draw equal to a running sum it picks the slot before, and on a draw of 0 it reads `pop_[-1]` (see Findings and `Demes.BoundaryDraw`). The members below that select through `Selected` differ from the source in the same way.
- `Demes.OtherPick` tests each second-parent draw on the corrected wheel (`Demes.Selected`): on a draw equal to a running sum or to 0 the source's walk picks a different slot (`Demes.BoundaryDraw`), so the rejection loop may stop at a different draw.
- `Demes.FirstParent` selects on the corrected wheel (`Demes.Selected`): on a draw equal to a running sum or to 0 the source's walk picks a different slot (`Demes.BoundaryDraw`).
- `Demes.SecondParent` selects on the corrected wheel (`Demes.Selected`): on a draw equal to a running sum or to 0 the source's walk picks a different slot (`Demes.BoundaryDraw`).
- `Demes.Resolve` takes its parent slots from `FirstParent` and `SecondParent`, so on a selection draw equal to a running sum or to 0 its parents differ from the source's (`Demes.BoundaryDraw`).
- `Demes.Deme.SelectOther` runs the rejection loop on the corrected wheel (`Demes.Selected`): on a draw equal to a running sum or to 0 the source's walk picks a different slot (`Demes.BoundaryDraw`).
- `Demes.Deme.PickParents` selects both parents on the corrected wheel (`Demes.Selected`): on a draw equal to a running sum or to 0 the source's walk picks a different slot (`Demes.BoundaryDraw`).
- `Demes.Deme.Breed` selects its parents, and so makes its children, on the corrected wheel (`Demes.Selected`): on a draw equal to a running sum or to 0 the source's walk picks a different slot (`Demes.BoundaryDraw`).
- `Demes.Pick` models the corrected wheel: on a draw equal to a running sum the source picks the slot before the one `Pick` returns. The as-written walk is `Demes.SelectParentAsWritten`.
- `Demes.PickFrom` models the corrected wheel, as `Demes.Pick` does, and differs from the source on the same draws.
- `Demes.Selected` is the corrected `select_parent`: on a draw equal to a running sum (`Demes.BoundaryDraw`) or equal to 0 it returns a different slot from the source.
- `Demes.Deme.ComputeNextGeneration` takes one fitness per slot for the whole generation. The source re-evaluates `get_fitness` at every `select_parent`, so a parent mutated earlier in a pass would weigh later selections by its new fitness. The model does not capture that.
- `Demes.Deme.ComputeNextGeneration` states "no old individual survives" as: no chromosome of the new population was in the old one. It does not state that all of them were allocated by this call, although `Breed` does state that for each pair.
- The "children differ from parents" retry loops (chromosome.cc:61-63, 67-69) are left out. They compare freshly allocated pointers and never retry. `Recombine` states instead that the children are new objects. It promises nothing about tours differing in value.
- Pointer ownership, destructors and the erase loop (chromosome.cc:24-26, deme.cc:28-33) are left out. They are memory management with no behavioural content.
- `random_permutation` and `clone` are declared outside chromosome.cc. chromosome.hh is not part of this model. The random tour is a constructor parameter required to be a permutation, and `Clone` is a new chromosome with the same tour.
- The `assert(is_valid())` calls in constructors and operators are not modelled as run-time checks. They become the class invariant `Valid()` in preconditions and postconditions.
- Floating point is not modelled. Fitnesses, sums and draws are exact reals, so a running sum that rounding keeps below the draw is not captured.
- Unsigned widths are not modelled. Positions and cut points are naturals, and every value involved lies below N.
- `Demes.Deme.GetBest` requires a non-empty population. The source dereferences `pop_.begin()`, which is undefined on an empty population.
- Mutation draws are not required to lie in `[0, 1)`. Only their comparison with `mut_rate` matters.

## Findings

| source | as written | input that shows it | evidently intended | confidence | as-written member | corrected member |
|---|---|---|---|---|---|---|
| deme.cc:97-101 | The walk starts at index -1 and runs while `partial_sum < fixed`, so it stops at the first slot whose running sum reaches the draw. | A selection draw of exactly 0, which `uniform_real_distribution(0, sum)` can produce: the loop body never runs, so `pop_[-1]` is returned. Also any draw equal to a running sum: with fitnesses 1, 1 and unit draw 0.5 the draw is 1 and the walk returns slot 0, although the stretch `[1, 2)` belongs to slot 1 (`Demes.BoundaryDraw`). | Return the slot whose stretch of the wheel holds the draw, i.e. the first slot whose running sum is greater than the draw, as the comment says. | not executed | `Demes.SelectParentAsWritten`, `Demes.BoundaryDraw` | `Demes.SelectParent` |
| chromosome.cc:122-125 | The scan gives up only when `i > range`, and the tour's length is never compared with the number of cities. | A 2-city catalog with tour `[0, 1, 2]` (city 2 does not exist) or `[0]` (city 1 never visited). Both pass (`Chromosomes.ExtraCityPassesCheck`). | True exactly when the tour visits each of the catalog's cities once. | not executed | `Chromosomes.Chromosome.IsValidAsWritten` | `Chromosomes.Chromosome.IsValid` |
