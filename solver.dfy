/**
 * `genetic_solver`: seed a population of distinct random individuals, then
 * for each generation copy it into a list, stop at the first goal individual,
 * and otherwise breed a new population from the list.
 *
 * Random draws are nondeterministic choices. The source loops until it finds
 * a goal; here one budget `fuel` bounds every loop round (seeding draws,
 * generations and breeding rounds), and running out of it ends the search
 * without a winner.
 */
module Solver {
  import opened Cards
  import opened Individuals

  /** `size_of_initial_population`, also the size each bred generation is filled to. */
  const PopulationSize := 50

  /**
   * A Python set of individuals. Members are equal when their reps are, and
   * hash by the rep, so the set is a map from rep to the member kept.
   */
  type Population = map<string, Piles>

  /** `population.add(p)`: when an equal member is already present, the set is unchanged. */
  function Add(population: Population, p: Piles): (r: Population)
    ensures r.Keys == population.Keys + {p.Rep()}
    ensures forall k :: k in population ==> r[k] == population[k]
    ensures p.Rep() !in population ==> r[p.Rep()] == p
    ensures |population| <= |r| <= |population| + 1
  {
    if p.Rep() in population then population else population[p.Rep() := p]
  }

  /** Every member is stored under its own rep. */
  predicate Keyed(population: Population) {
    forall k :: k in population ==> population[k].Rep() == k
  }

  /** What the search produces: five cards in pile1, the rest of the deck in pile2. */
  predicate WellFormed(p: Piles) {
    |p.pile1| == PileSize && CardsOnly(p.pile1) && p.pile2 == Complement(p.pile1)
  }

  predicate Healthy(population: Population) {
    Keyed(population) && forall k :: k in population ==> WellFormed(population[k])
  }

  /**
   * Adding an individual whose pile1 equals a member's, whatever its pile2,
   * leaves the population as it was.
   */
  lemma AddSamePile1(population: Population, a: Piles, b: Piles)
    requires a.pile1 == b.pile1
    requires Keyed(population) && a.Rep() in population
    ensures Add(population, b) == population
  {
  }

  lemma AddKeepsHealthy(population: Population, p: Piles)
    requires Healthy(population) && WellFormed(p)
    ensures Healthy(Add(population, p))
  {
  }

  /**
   * Every individual the search builds passes `is_valid`, so the validity
   * filter on children never rejects one, even a child with a repeated card.
   */
  lemma WellFormedIsValid(p: Piles)
    requires WellFormed(p)
    ensures p.IsValid()
  {
  }

  lemma SameCards(s: seq<int>, t: seq<int>)
    requires multiset(s) == multiset(t) && CardsOnly(t)
    ensures CardsOnly(s)
  {
    forall x | x in s ensures IsCard(x) {
      assert x in multiset(s);
    }
  }

  /** Every member's pile1 is five distinct cards, as `random_individual` deals them. */
  predicate Dealt(population: Population) {
    forall k :: k in population ==> IsSample(population[k].pile1)
  }

  /** `population.add(random_individual())`. */
  method AddRandom(population: Population) returns (next: Population, ghost sample: seq<int>)
    requires Healthy(population) && Dealt(population)
    ensures IsSample(sample) && next == Add(population, RandomIndividual(sample))
    ensures Healthy(next) && Dealt(next)
    ensures |population| <= |next| <= |population| + 1
  {
    assert IsSample([1, 2, 3, 4, 5]);
    var dealt :| IsSample(dealt);
    AddDealtKeepsHealthy(population, dealt);
    next, sample := Add(population, RandomIndividual(dealt)), dealt;
  }

  lemma AddDealtKeepsHealthy(population: Population, sample: seq<int>)
    requires Healthy(population) && Dealt(population) && IsSample(sample)
    ensures Healthy(Add(population, RandomIndividual(sample)))
    ensures Dealt(Add(population, RandomIndividual(sample)))
  {
    AddKeepsHealthy(population, RandomIndividual(sample));
  }

  /**
   * The seeding loop: add random individuals until 50 different ones are
   * present. Each is five distinct cards and their complement.
   */
  method SeedPopulation(fuel: nat) returns (population: Population, rest: nat)
    ensures Healthy(population) && Dealt(population)
    ensures |population| <= PopulationSize
    ensures |population| < PopulationSize ==> rest == 0
    ensures rest <= fuel
    ensures fuel > 0 ==> |population| > 0
  {
    population, rest := map[], fuel;
    while |population| < PopulationSize && rest > 0
      invariant Healthy(population) && Dealt(population)
      invariant |population| <= PopulationSize && rest <= fuel
      invariant rest < fuel ==> |population| > 0
    {
      ghost var sample;
      population, sample := AddRandom(population);
      rest := rest - 1;
    }
  }

  /**
   * `list(copy.deepcopy(population))`: one new object per member, each
   * member once, in whatever order the set yields; `order` names the member
   * each entry copies.
   */
  method Snapshot(population: Population) returns (current: seq<Individual>, ghost order: seq<string>)
    ensures |current| == |order| == |population|
    ensures forall i :: 0 <= i < |current| ==>
              fresh(current[i]) && order[i] in population && current[i].Value() == population[order[i]]
    ensures forall k :: k in population ==> k in order
    ensures forall i, j :: 0 <= i < j < |current| ==> current[i] != current[j]
  {
    var keys := population.Keys;
    current, order := [], [];
    while keys != {}
      invariant keys <= population.Keys
      invariant |current| == |order| && |current| + |keys| == |population|
      invariant forall i :: 0 <= i < |current| ==>
                  fresh(current[i]) && order[i] in population && current[i].Value() == population[order[i]]
      invariant forall k :: k in population ==> k in keys || k in order
      invariant forall i, j :: 0 <= i < j < |current| ==> current[i] != current[j]
      decreases |keys|
    {
      var k :| k in keys;
      var individual := new Individual(population[k].pile1, population[k].pile2);
      current, order := current + [individual], order + [k];
      keys := keys - {k};
    }
  }

  /** The goal check: the first individual of the list that `is_goal`, or none. */
  method FindGoal(current: seq<Individual>) returns (winner: Individual?)
    ensures winner != null ==> winner in current && winner.Value().IsGoal()
    ensures winner != null ==>
              exists i :: 0 <= i < |current| && current[i] == winner &&
                          forall j :: 0 <= j < i ==> !current[j].Value().IsGoal()
    ensures winner == null ==> forall i :: 0 <= i < |current| ==> !current[i].Value().IsGoal()
  {
    for i := 0 to |current|
      invariant forall j :: 0 <= j < i ==> !current[j].Value().IsGoal()
    {
      if current[i].Value().IsGoal() {
        return current[i];
      }
    }
    return null;
  }

  /** Every individual of the list holds five cards in pile1. */
  ghost predicate Breedable(current: seq<Individual>)
    reads set i | 0 <= i < |current| :: current[i]
  {
    forall i :: 0 <= i < |current| ==> |current[i].pile1| == PileSize && CardsOnly(current[i].pile1)
  }

  /** The cards each individual of the list holds, whatever their order. */
  ghost function Stock(current: seq<Individual>): set<multiset<int>>
    reads set i | 0 <= i < |current| :: current[i]
  {
    set i | 0 <= i < |current| :: multiset(current[i].pile1)
  }

  /** The cards each member of the population holds, whatever their order. */
  ghost function Holdings(population: Population): set<multiset<int>> {
    set k | k in population :: multiset(population[k].pile1)
  }

  /**
   * `p` is a child `reproduce` makes from two parents that hold cards of the
   * stock, in any order, at a cut in 0..4.
   */
  ghost predicate Bred(p: Piles, stock: set<multiset<int>>) {
    exists father: Piles, mother: Piles, c: int ::
      0 <= c <= 4 && multiset(father.pile1) in stock && multiset(mother.pile1) in stock &&
      (p == Reproduce(father, mother, c).0 || p == Reproduce(father, mother, c).1)
  }

  /** No member satisfies `is_goal`. */
  predicate NoGoal(population: Population) {
    forall k :: k in population ==> !population[k].IsGoal()
  }

  /**
   * `if child1.is_valid(): population.add(child1)` and the same for child2:
   * the members stay, and every new member is a valid child.
   */
  function AddChildren(population: Population, children: (Piles, Piles)): (r: Population)
    ensures forall k :: k in population ==> k in r && r[k] == population[k]
    ensures children.0.IsValid() ==> children.0.Rep() in r
    ensures children.1.IsValid() ==> children.1.Rep() in r
    ensures forall k :: k in r && k !in population ==>
              (r[k] == children.0 && children.0.IsValid()) || (r[k] == children.1 && children.1.IsValid())
    ensures |population| <= |r| <= |population| + 2
  {
    var once := if children.0.IsValid() then Add(population, children.0) else population;
    if children.1.IsValid() then Add(once, children.1) else once
  }

  /** Adding the children of two five-card parents keeps the population healthy. */
  lemma AddChildrenKeepsHealthy(population: Population, father: Piles, mother: Piles, c: int)
    requires Healthy(population) && 0 <= c <= 4
    requires |father.pile1| == PileSize && CardsOnly(father.pile1)
    requires |mother.pile1| == PileSize && CardsOnly(mother.pile1)
    ensures Healthy(AddChildren(population, Reproduce(father, mother, c)))
  {
    var children := Reproduce(father, mother, c);
    var once := if children.0.IsValid() then Add(population, children.0) else population;
    if children.0.IsValid() {
      AddKeepsHealthy(population, children.0);
    }
    if children.1.IsValid() {
      AddKeepsHealthy(once, children.1);
    }
  }

  /** Every member the children add is bred from the parents' cards. */
  lemma AddChildrenBred(population: Population, father: Piles, mother: Piles, c: int, stock: set<multiset<int>>)
    requires 0 <= c <= 4
    requires multiset(father.pile1) in stock && multiset(mother.pile1) in stock
    ensures var r := AddChildren(population, Reproduce(father, mother, c));
            forall k :: k in r && k !in population ==> Bred(r[k], stock)
  {
    var children := Reproduce(father, mother, c);
    assert Bred(children.0, stock) && Bred(children.1, stock);
  }

  /**
   * `individual.mutate()` on a member of the list: every individual of the
   * list still holds the cards it held, and no pile2 changes.
   */
  method MutateMember(current: seq<Individual>, individual: Individual)
    requires individual in current && Breedable(current)
    modifies individual
    ensures Breedable(current)
    ensures forall i :: 0 <= i < |current| ==>
              multiset(current[i].pile1) == old(multiset(current[i].pile1)) &&
              current[i].pile2 == old(current[i].pile2)
    ensures Stock(current) == old(Stock(current))
  {
    assert IsMoves([Keep, Keep, Keep, Keep, Keep]);
    var moves :| IsMoves(moves);
    individual.Mutate(moves);
    forall i | 0 <= i < |current|
      ensures CardsOnly(current[i].pile1)
    {
      SameCards(current[i].pile1, old(current[i].pile1));
    }
    forall m | m in old(Stock(current)) ensures m in Stock(current) {
      var i :| 0 <= i < |current| && m == old(multiset(current[i].pile1));
      assert m == multiset(current[i].pile1);
    }
  }

  /**
   * `father.mutate()` then `mother.mutate()`, where father and mother may be
   * the same object.
   */
  method MutateParents(current: seq<Individual>, father: Individual, mother: Individual)
    requires father in current && mother in current && Breedable(current)
    modifies father, mother
    ensures Breedable(current)
    ensures forall i :: 0 <= i < |current| ==>
              multiset(current[i].pile1) == old(multiset(current[i].pile1)) &&
              current[i].pile2 == old(current[i].pile2)
    ensures Stock(current) == old(Stock(current))
  {
    MutateMember(current, father);
    MutateMember(current, mother);
  }

  /**
   * One round of breeding: pick a father `current[fi]` and a mother
   * `current[mi]` (uniformly, with replacement, possibly the same object),
   * mutate both in place, cross them over at cut `c` and add each child that
   * passes `is_valid`. No other individual of the list changes.
   */
  method BreedRound(current: seq<Individual>, population: Population)
    returns (next: Population, ghost fi: int, ghost mi: int, ghost c: int)
    requires |current| > 0 && Breedable(current) && Healthy(population)
    modifies set i | 0 <= i < |current| :: current[i]
    ensures 0 <= fi < |current| && 0 <= mi < |current| && 0 <= c <= 4
    ensures next == AddChildren(population, Reproduce(current[fi].Value(), current[mi].Value(), c))
    ensures Breedable(current) && Healthy(next)
    ensures |population| <= |next| <= |population| + 2
    ensures Stock(current) == old(Stock(current))
    ensures forall k :: k in next && k !in population ==> Bred(next[k], Stock(current))
    ensures forall i :: 0 <= i < |current| ==> multiset(current[i].pile1) == old(multiset(current[i].pile1))
    ensures forall i :: 0 <= i < |current| ==> current[i].pile2 == old(current[i].pile2)
    ensures forall i :: 0 <= i < |current| && current[i] != current[fi] && current[i] != current[mi] ==>
              current[i].pile1 == old(current[i].pile1)
  {
    var f :| 0 <= f < |current|;
    var m :| 0 <= m < |current|;
    var father, mother := current[f], current[m];
    MutateParents(current, father, mother);
    var cut :| 0 <= cut <= 4;
    var children := Reproduce(father.Value(), mother.Value(), cut);
    fi, mi, c := f, m, cut;
    next := AddChildren(population, children);
    AddChildrenKeepsHealthy(population, father.Value(), mother.Value(), cut);
    assert multiset(father.pile1) in Stock(current);
    assert multiset(mother.pile1) in Stock(current);
    AddChildrenBred(population, father.Value(), mother.Value(), cut, Stock(current));
  }

  /**
   * The breeding loop of one generation: rounds until 50 or more
   * individuals are present. The mutated parents stay in the list for later
   * rounds, still holding the cards they held, so every member of the new
   * generation is a child of two individuals of the list as it was.
   */
  method BreedGeneration(current: seq<Individual>, fuel: nat) returns (population: Population, rest: nat)
    requires |current| > 0 && Breedable(current)
    modifies set i | 0 <= i < |current| :: current[i]
    ensures Healthy(population) && Breedable(current)
    ensures forall k :: k in population ==> Bred(population[k], old(Stock(current)))
    ensures |population| <= PopulationSize + 1
    ensures |population| < PopulationSize ==> rest == 0
    ensures rest < fuel || fuel == 0
    ensures fuel > 0 ==> |population| > 0
    ensures Stock(current) == old(Stock(current))
    ensures forall i :: 0 <= i < |current| ==> multiset(current[i].pile1) == old(multiset(current[i].pile1))
    ensures forall i :: 0 <= i < |current| ==> current[i].pile2 == old(current[i].pile2)
  {
    ghost var stock := Stock(current);
    population, rest := map[], fuel;
    while |population| < PopulationSize && rest > 0
      invariant Healthy(population) && Breedable(current)
      invariant forall k :: k in population ==> Bred(population[k], stock)
      invariant |population| <= PopulationSize + 1
      invariant rest <= fuel && (rest == fuel ==> |population| == 0)
      invariant rest < fuel ==> |population| > 0
      invariant Stock(current) == stock
      invariant forall i :: 0 <= i < |current| ==> multiset(current[i].pile1) == old(multiset(current[i].pile1))
      invariant forall i :: 0 <= i < |current| ==> current[i].pile2 == old(current[i].pile2)
    {
      ghost var fi, mi, c;
      population, fi, mi, c := BreedRound(current, population);
      rest := rest - 1;
    }
  }

  /** `report_data_x`: the generation numbers 1, 2, ..., in order. */
  predicate Numbered(reportX: seq<int>) {
    forall i :: 0 <= i < |reportX| ==> reportX[i] == i + 1
  }

  /** `report_data_x.append(total_generations)` for the next generation. */
  method Record(reportX: seq<int>) returns (r: seq<int>)
    requires Numbered(reportX)
    ensures Numbered(r) && |r| == |reportX| + 1
  {
    r := reportX + [|reportX| + 1];
  }

  /** Every member of `next` is a child of two members of `previous`, up to order. */
  ghost predicate Descends(next: Population, previous: Population) {
    forall k :: k in next ==> Bred(next[k], Holdings(previous))
  }

  /**
   * One generation of `genetic_solver`: copy the population into a list,
   * return the first goal individual, otherwise breed the next population
   * from the list. A generation without a winner holds no goal.
   */
  method RunGeneration(population: Population, fuel: nat) returns (winner: Individual?, next: Population, rest: nat)
    requires Healthy(population) && |population| > 0
    ensures winner != null ==> winner.Value().IsGoal() && WellFormed(winner.Value())
    ensures winner != null ==> winner.Value() in population.Values
    ensures winner == null ==> NoGoal(population)
    ensures winner == null ==> Healthy(next) && (rest > 0 ==> PopulationSize <= |next| <= PopulationSize + 1)
    ensures winner == null ==> Descends(next, population)
    ensures rest < fuel || fuel == 0
    ensures winner != null ==> rest == if fuel > 0 then fuel - 1 else 0
  {
    ghost var order;
    var current;
    current, order := Snapshot(population);
    SnapshotMembers(population, current, order);
    winner := FindGoal(current);
    if winner != null {
      return winner, population, if fuel > 0 then fuel - 1 else 0;
    }
    SnapshotStock(population, current, order);
    next, rest := BreedGeneration(current, fuel);
  }

  /**
   * A list that copies every member of the population holds members only,
   * and holds a goal when the population does.
   */
  lemma SnapshotMembers(population: Population, current: seq<Individual>, order: seq<string>)
    requires Healthy(population) && |current| == |order|
    requires forall i :: 0 <= i < |current| ==> order[i] in population && current[i].Value() == population[order[i]]
    requires forall k :: k in population ==> k in order
    ensures forall i :: 0 <= i < |current| ==> current[i].Value() in population.Values && WellFormed(current[i].Value())
    ensures (forall i :: 0 <= i < |current| ==> !current[i].Value().IsGoal()) ==> NoGoal(population)
  {
    if forall i :: 0 <= i < |current| ==> !current[i].Value().IsGoal() {
      forall k | k in population ensures !population[k].IsGoal() {
        var i :| 0 <= i < |order| && order[i] == k;
        assert current[i].Value() == population[k];
      }
    }
  }

  /** A list that copies every member of the population holds the population's cards. */
  lemma SnapshotStock(population: Population, current: seq<Individual>, order: seq<string>)
    requires |current| == |order|
    requires forall i :: 0 <= i < |current| ==> order[i] in population && current[i].Value() == population[order[i]]
    requires forall k :: k in population ==> k in order
    ensures Stock(current) == Holdings(population)
  {
    forall k | k in population ensures multiset(population[k].pile1) in Stock(current) {
      var i :| 0 <= i < |order| && order[i] == k;
      assert current[i].Value() == population[k];
    }
  }

  /** Each population of the history is bred from the one before it. */
  ghost predicate Lineage(history: seq<Population>) {
    forall i :: 0 < i < |history| ==> Descends(history[i], history[i - 1])
  }

  lemma LineageOf(history: seq<Population>, next: Population)
    requires Lineage(history)
    requires history != [] ==> Descends(next, history[|history| - 1])
    ensures Lineage(history + [next])
  {
    var longer := history + [next];
    forall i | 0 < i < |longer| ensures Descends(longer[i], longer[i - 1]) {
      if i < |history| {
        assert longer[i] == history[i] && longer[i - 1] == history[i - 1];
        assert Descends(history[i], history[i - 1]);
      } else {
        assert longer[i] == next && longer[i - 1] == history[|history| - 1];
      }
    }
  }

  /**
   * The generations examined without finding a winner: each held 50 or 51
   * members, none of them a goal, and each was bred from the one before.
   */
  ghost predicate Searched(history: seq<Population>) {
    (forall i :: 0 <= i < |history| ==> PopulationSize <= |history[i]| <= PopulationSize + 1 && NoGoal(history[i]))
    && Lineage(history)
  }

  /**
   * The run so far: the goal-free `history` starts at `start`, and `current`,
   * the population reached, is `start` or bred from the last of them.
   */
  ghost predicate Trail(start: Population, history: seq<Population>, current: Population) {
    Searched(history) &&
    (if history == [] then current == start
     else history[0] == start && Descends(current, history[|history| - 1]))
  }

  /** A goal-free generation of 50 or 51 members extends the run to the population bred from it. */
  lemma TrailExtend(start: Population, history: seq<Population>, current: Population, next: Population)
    requires Trail(start, history, current)
    requires PopulationSize <= |current| <= PopulationSize + 1 && NoGoal(current)
    requires Descends(next, current)
    ensures Trail(start, history + [current], next)
  {
    var longer := history + [current];
    forall i | 0 <= i < |longer|
      ensures PopulationSize <= |longer[i]| <= PopulationSize + 1 && NoGoal(longer[i])
    {
      if i < |history| {
        assert longer[i] == history[i];
      }
    }
    LineageOf(history, current);
    assert longer[0] == start;
  }

  /**
   * The generation loop of `genetic_solver`, from population `start` with
   * budget `fuel`. `examined` holds the populations examined without finding
   * a goal; `last` is the population the loop stopped at, from which a
   * winner comes.
   */
  method Evolve(start: Population, fuel: nat)
    returns (winner: Individual?, totalGenerations: nat, reportX: seq<int>, rest: nat,
             ghost examined: seq<Population>, ghost last: Population)
    requires Healthy(start)
    requires fuel > 0 ==> PopulationSize <= |start| <= PopulationSize + 1
    ensures Numbered(reportX) && |reportX| == totalGenerations
    ensures totalGenerations + rest <= fuel
    ensures Trail(start, examined, last)
    ensures winner == null ==> rest == 0 && totalGenerations == |examined|
    ensures fuel > 0 ==> examined != [] || winner != null
    ensures winner != null ==> totalGenerations == |examined| + 1
    ensures winner != null ==> winner.Value().IsGoal() && WellFormed(winner.Value()) && winner.Value() in last.Values
    ensures winner != null ==> PopulationSize <= |last| <= PopulationSize + 1
  {
    var population := start;
    rest := fuel;
    winner, totalGenerations, reportX, examined := null, 0, [], [];
    while rest > 0
      invariant Healthy(population)
      invariant rest > 0 ==> PopulationSize <= |population| <= PopulationSize + 1
      invariant Numbered(reportX) && |reportX| == totalGenerations
      invariant totalGenerations + rest <= fuel
      invariant |examined| == totalGenerations
      invariant Trail(start, examined, population)
      invariant rest < fuel ==> examined != []
      invariant winner == null
      decreases rest
    {
      reportX := Record(reportX);
      totalGenerations := totalGenerations + 1;
      var next;
      winner, next, rest := RunGeneration(population, rest);
      if winner != null {
        last := population;
        return;
      }
      TrailExtend(start, examined, population, next);
      examined, population := examined + [population], next;
    }
    last := population;
  }

  /**
   * `genetic_solver`. A winner, when there is one, is the individual the
   * source returns: it satisfies `is_goal` and copies a member of the
   * generation `last`. `reportX` is `report_data_x`, the generation numbers
   * 1, 2, ... up to `totalGenerations`. `examined` holds the populations
   * examined without finding a goal; the first population is seeded, and each
   * later one, `last` included, is bred from the one before. With no winner
   * the budget is spent (`rest` is what is left of it).
   */
  method GeneticSolver(fuel: nat)
    returns (winner: Individual?, totalGenerations: nat, reportX: seq<int>, rest: nat,
             ghost examined: seq<Population>, ghost last: Population)
    ensures Numbered(reportX) && |reportX| == totalGenerations
    ensures totalGenerations + rest <= fuel
    ensures Dealt(if examined == [] then last else examined[0])
    ensures Trail(if examined == [] then last else examined[0], examined, last)
    ensures fuel > 0 ==> |if examined == [] then last else examined[0]| > 0
    ensures winner == null ==> rest == 0 && totalGenerations == |examined|
    ensures winner != null ==> totalGenerations == |examined| + 1
    ensures winner != null ==> winner.Value().IsGoal() && WellFormed(winner.Value()) && winner.Value() in last.Values
    ensures winner != null ==> PopulationSize <= |last| <= PopulationSize + 1
  {
    var population, left := SeedPopulation(fuel);
    winner, totalGenerations, reportX, rest, examined, last := Evolve(population, left);
  }
}
