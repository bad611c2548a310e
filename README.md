# Card-pile genetic search (hw2/p2.py)

A Dafny model of the genetic search in `hw2/p2.py`. The search splits the cards
1..10 into two piles. The goal is a `pile1` that sums to 36 and a `pile2` whose
product is 360.

The project has four modules:

- `Cards` (`cards.dfy`): the deck, the goal constants, `sum`, `np.prod` and the
  complement `list(set(cards) - set(p))`.
- `Sorting` (`sorting.dfy`): Python's `list.sort()` on integer lists.
- `Individuals` (`individual.dfy`): the `Individual` class. `Piles` is the value an
  individual holds and answers the queries `is_valid`, `is_goal`, the integer
  distance inside `utility`, and `rep`. The class `Individual` has the two lists as
  fields, and its methods `SortPiles` and `Mutate` change them in place. The file
  also holds `reproduce` and `random_individual`, with the random draws passed in
  as parameters.
- `Solver` (`solver.dfy`): `genetic_solver`. A population is a Python set whose
  members compare and hash by `rep`, so it is modelled as a map from rep to
  member. Each random draw is a nondeterministic choice: the random sample, the
  parents, the mutation coin flips and swap targets, and the cut point. The
  generation list holds `Individual` objects. The parents are mutated in place and
  stay in the list for later picks.

The model follows the code in these places, which are easy to misread:

- `is_valid` compares only the union of the piles' sets with {1..10}
  (hw2/p2.py:26). Repeated cards or cards in both piles do not make it false.
  `RepeatedCardChildIsValid` shows a child with a repeated card that passes.
- The second child of `reproduce` is `mother[c:] + father[:c]` (hw2/p2.py:59). It is
  a rotation of the first child's pile1, not the father's tail. With `c = 0`, both
  children take the mother's pile1.
- The cut point comes from `randint(0, 4)`, so `c = 5` never occurs.
- The third positional argument of `np.random.choice` is `replace`, not `p`. So
  parent selection is uniform and a mutation fires with probability 1/2. The model
  leaves both choices free.
- `sort_piles` is never called by the search, so pile1's order is part of an
  individual's identity.

## Model

| member | source | states |
|---|---|---|
| Cards.DeckHoldsTheCards | hw2/p2.py:6 | the deck holds exactly the cards 1..10, each once |
| Cards.Complement | hw2/p2.py:61-62 | the result holds exactly the cards 1..10 that are not in `p`, each once; as a set it is `set(cards) - set(p)` |
| Cards.ComplementOfFive | hw2/p2.py:85-86 | five distinct cards leave exactly five cards in the complement |
| Cards.ComplementBySet | hw2/p2.py:61-62 | the complement depends only on the set of cards in `p`, not on their order or repeats |
| Sorting.Sort | hw2/p2.py:22-23 | `list.sort()` gives an ascending permutation of the list |
| Sorting.SortKeepsSorted | hw2/p2.py:22-23 | sorting an ascending list leaves it unchanged |
| Sorting.SortIdempotent | hw2/p2.py:18-23 | sorting twice gives the same result as sorting once |
| Individuals.Piles.IsValid | hw2/p2.py:25-26 | true exactly when every card 1..10 is in one of the piles and both piles hold only cards; duplicates and overlap are allowed |
| Individuals.Piles.Distance | hw2/p2.py:35-37 | `d` is 0 exactly when sum(pile1) = 36 and prod(pile2) = 360 |
| Individuals.Piles.IsGoal | hw2/p2.py:43-50 | true exactly when the individual is valid and its distance is 0 |
| Individuals.Piles.Rep | hw2/p2.py:100-109 | for a pile1 of cards, the rep string decodes back to pile1 |
| Individuals.RepRoundTrip | hw2/p2.py:106-107 | the concatenated decimal strings of a card list parse back to the list |
| Individuals.RepInjective | hw2/p2.py:100-109 | two card lists with the same rep string are the same list |
| Individuals.EqualsIffSamePile1 | hw2/p2.py:111-115 | `Equals`, the model of `__eq__` (and `__hash__`, through the same rep), holds for two individuals exactly when their pile1 lists are equal, whatever their pile2 |
| Individuals.Mutated | hw2/p2.py:71-78 | the swap decisions for positions 0..4, applied in order, keep the list's length |
| Individuals.MutatePermutes | hw2/p2.py:71-78 | the mutated pile1 has the same multiset of cards as before |
| Individuals.Reproduce | hw2/p2.py:52-64 | both children's pile1s hold the same multiset; each child's pile2 holds exactly the cards missing from its pile1; children of card-only parents are valid; parents of five cards give children of five cards |
| Individuals.ReproduceRotates | hw2/p2.py:57-59 | child1 begins with the father's first `c` cards, and child2's pile1 is child1's rotated by `c` |
| Individuals.ReproduceAtZero | hw2/p2.py:57-59 | with cut 0 both children's pile1 equal the mother's |
| Individuals.RepeatedCardChildIsValid | hw2/p2.py:57-64 | a child with pile1 [1,2,3,2,1] is produced and passes `is_valid` |
| Individuals.RandomIndividual | hw2/p2.py:80-88 | for a sample of five distinct cards: pile1 is the sample, pile2 has five distinct cards, the piles are disjoint and the individual is valid |
| Individuals.GoalWitness | hw2/p2.py:43-50 | `random_individual` can deal [2,7,8,9,10] with pile2 [1,3,4,5,6], and that individual is a goal |
| Individuals.Individual.constructor | hw2/p2.py:14-16 | the new object holds the given lists |
| Individuals.Individual.SortPiles | hw2/p2.py:18-23 | each pile becomes its sorted rearrangement: ascending and the same multiset |
| Individuals.Individual.Mutate | hw2/p2.py:66-78 | pile1 becomes the list after the given swaps, with the same length and multiset; pile2 is unchanged |
| Solver.Add | hw2/p2.py:123 | `set.add`: the keys gain the new rep; members already present are kept; the size grows by at most one |
| Solver.AddSamePile1 | hw2/p2.py:111-115 | adding an individual whose pile1 equals a member's leaves the population unchanged |
| Solver.AddKeepsHealthy | hw2/p2.py:157-161 | adding a well-formed individual keeps every member stored under its rep and well-formed |
| Solver.WellFormedIsValid | hw2/p2.py:157-161 | every individual the search builds passes `is_valid`, so the filter on children never rejects |
| Solver.AddDealtKeepsHealthy | hw2/p2.py:122-123 | adding `random_individual()` for a sample of five distinct cards keeps every member stored under its rep, well-formed and dealt |
| Solver.AddRandom | hw2/p2.py:123 | the new population is the old one with `random_individual()` for some sample of five distinct cards added; it stays well-formed and dealt, and grows by at most one |
| Solver.SeedPopulation | hw2/p2.py:119-123 | the seed population has at most 50 members, exactly 50 unless the budget ran out, and at least one when there was any budget; each is five distinct cards and their complement |
| Solver.Snapshot | hw2/p2.py:132 | one fresh, distinct object per member, copying that member; every member appears |
| Solver.FindGoal | hw2/p2.py:140-143 | returns the first individual of the list that is a goal, or none when no individual is a goal |
| Solver.AddChildren | hw2/p2.py:157-161 | the old members stay; each valid child is present; every new member is a valid child; the size grows by at most two |
| Solver.AddChildrenKeepsHealthy | hw2/p2.py:155-161 | adding the children of two five-card parents keeps every member stored under its rep and well-formed |
| Solver.AddChildrenBred | hw2/p2.py:155-161 | every member the children add is a crossover, at a cut in 0..4, of two parents holding cards of the list |
| Solver.MutateMember | hw2/p2.py:152 | after one individual of the list is mutated, every individual has the same cards and the same pile2 as before |
| Solver.MutateParents | hw2/p2.py:152-153 | after both parents are mutated, every individual of the list has the same cards and the same pile2 as before |
| Solver.BreedRound | hw2/p2.py:148-161 | for the drawn father `current[fi]`, mother `current[mi]` and cut `c`, the new population is the old one plus each valid child of the mutated parents; only the two parents change pile1, and every individual keeps its own multiset of cards and its pile2; every new member is bred from the list's cards |
| Solver.BreedGeneration | hw2/p2.py:145-161 | the new generation is well-formed with 50 or 51 members, unless the budget ran out, and non-empty when there was any budget; every member is a crossover of two list individuals' cards as they were at the start of the generation; every individual of the list keeps its own multiset of cards and its pile2 |
| Solver.Record | hw2/p2.py:130-135 | appending the generation number keeps `report_data_x` the list 1, 2, ..., n and makes it one longer |
| Solver.SnapshotStock | hw2/p2.py:132 | the copied list holds exactly the cards of the population's members |
| Solver.RunGeneration | hw2/p2.py:131-161 | a returned winner is a goal and copies a member of the population; with no winner, no member of the population is a goal and the next population is well-formed, bred from the population, with 50 or 51 members unless the budget ran out |
| Solver.SnapshotMembers | hw2/p2.py:132-143 | every individual of the copied list copies a well-formed member; when no individual of the list is a goal, no member of the population is |
| Solver.TrailExtend | hw2/p2.py:130-161 | a run of goal-free generations, each bred from the one before, extends by one more goal-free generation of 50 or 51 members and the population bred from it |
| Solver.Evolve | hw2/p2.py:125-161 | the generation loop from a given population: the generations examined without a winner start at that population, each has 50 or 51 members and no goal, and each is bred from the one before, as is the generation the loop stops at; with any budget, at least one generation is checked for a goal; a winner is a goal copied from that last generation, which has 50 or 51 members, after one more generation than the goal-free ones; with no winner the budget is spent; `report_data_x` is [1, ..., total_generations] |
| Solver.GeneticSolver | hw2/p2.py:118-161 | a returned individual satisfies `is_goal`, is five cards plus their complement and copies a member of the last generation; the first generation is seeded with dealt individuals and is non-empty when there was any budget, each later one is bred from the one before, and no generation before the winner's holds a goal; with no winner the budget is spent and no generation examined held a goal; `report_data_x` is [1, ..., total_generations] |

## Left out

- `720 * np.exp(-d)` and `report_data_y`, the mean fitness per generation, are floating point. Only the integer distance `d` is modelled.
- The probabilities of the random choices are left out. Every draw is any value in its range.
- Solver.GeneticSolver: the source loops until it finds a goal. Here one budget `fuel` bounds every loop round, and running out of it ends the search without a winner. Because the draws are free, the seeding loop alone may spend the whole budget, so a result with no generation at all is possible. Whether a goal is eventually found (a liveness question) is not modelled. The model also returns the budget left, charging one unit for a generation whose goal check finds the winner, and, as ghost values, the populations examined without a winner and the generation the loop stopped at.
- Solver.SeedPopulation: reaches 50 members only while the budget lasts; when it runs out, the result may be smaller.
- Solver.BreedGeneration: reaches 50 members only while the budget lasts; when it runs out, the result may be smaller.
- Individuals.Individual.Mutate: requires pile1 to hold at least five cards. On a shorter list the source may raise `IndexError`, namely when a swap fires at a position or with a target past the end; when none fires, no error is raised and only the in-range swaps are applied. Neither case is modelled. The search only mutates five-card piles.
- Individuals.Piles.Rep: the round trip is stated for lists of cards 1..10 only. For other integers `str` is modelled, but no decoding is claimed.
- The order of pile2 is unspecified in Python, because it comes from `list(set(...))`. The model lists it in ascending order. No property of the search's behaviour depends on that order, though some statements (a well-formed individual's pile2, the goal example) name the ascending list.
- `hash` itself is not modelled. A set member is found by its rep, as `__eq__`/`__hash__` imply.
- `copy.deepcopy` is value semantics on lists. Objects are shared only in the generation list, where mutated parents stay.
- `np.prod` 64-bit overflow is not modelled. A pile without repeated cards, such as every pile2 the search builds, has a product of at most 10!, which cannot overflow.
- `print_me`, the matplotlib plotting, `test()` and the module-level driver are presentation code and are not modelled.
