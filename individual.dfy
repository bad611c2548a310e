/**
 * One candidate of the search: a split of the cards into `pile1`, which
 * should sum to 36, and `pile2`, whose product should be 360.
 *
 * `Piles` is the value an individual holds and carries the queries
 * (`is_valid`, `is_goal`, the distance inside `utility`, `rep`);
 * the class `Individual` holds the two lists as fields and carries the
 * operations that change them in place (`sort_piles`, `mutate`).
 */
module Individuals {
  import opened Cards
  import opened Sorting

  /** Cards per pile: `random.sample(..., k=5)`, `range(5)`, `randint(0, 4)`. */
  const PileSize := 5

  datatype Piles = Piles(pile1: seq<int>, pile2: seq<int>)
  {
    /**
     * `is_valid`: the two piles together name every card and nothing else.
     * Nothing is said about overlap between the piles or repeats inside one.
     */
    function IsValid(): (r: bool)
      ensures r <==> (forall x :: IsCard(x) ==> x in pile1 || x in pile2)
                     && CardsOnly(pile1) && CardsOnly(pile2)
    {
      CoverIffCards(pile1, pile2);
      Elems(pile1) + Elems(pile2) == CardSet()
    }

    /** The integer distance `d` from the targets that `utility` turns into a score. */
    function Distance(): (d: nat)
      ensures d == 0 <==> Sum(pile1) == TargetSum && Product(pile2) == TargetProduct
    {
      Abs(Sum(pile1) - TargetSum) + Abs(Product(pile2) - TargetProduct)
    }

    /** `is_goal`: a valid split at distance zero. */
    function IsGoal(): (r: bool)
      ensures r <==> IsValid() && Distance() == 0
    {
      if !IsValid() then false
      else Sum(pile1) == TargetSum && Product(pile2) == TargetProduct
    }

    /** `rep`: the decimal strings of the cards of `pile1`, in order, run together. */
    function Rep(): (r: string)
      ensures CardsOnly(pile1) ==> ParseRep(r) == pile1
    {
      if CardsOnly(pile1) then RepRoundTrip(pile1); Concat(pile1) else Concat(pile1)
    }
  }

  lemma CoverIffCards(p1: seq<int>, p2: seq<int>)
    ensures Elems(p1) + Elems(p2) == CardSet() <==>
              (forall x :: IsCard(x) ==> x in p1 || x in p2) && CardsOnly(p1) && CardsOnly(p2)
  {
    DeckHoldsTheCards();
    assert forall x :: x in CardSet() <==> IsCard(x);
    if (forall x :: IsCard(x) ==> x in p1 || x in p2) && CardsOnly(p1) && CardsOnly(p2) {
      forall x ensures x in Elems(p1) + Elems(p2) <==> x in CardSet() {
        assert x in Elems(p1) <==> x in p1;
        assert x in Elems(p2) <==> x in p2;
      }
    }
  }

  /** `__eq__` (and, through the same string, `__hash__`): equal reps. */
  predicate Equals(a: Piles, b: Piles) {
    a.Rep() == b.Rep()
  }

  // ---------------------------------------------------------------- rep

  function DigitChar(d: int): char
    requires 0 <= d <= 9
  {
    (d + '0' as int) as char
  }

  /** `str(n)` for a natural number. */
  function NatString(n: nat): string {
    if n < 10 then [DigitChar(n)] else NatString(n / 10) + [DigitChar(n % 10)]
  }

  /** `str(n)`. */
  function IntString(n: int): string {
    if n < 0 then "-" + NatString(-n) else NatString(n)
  }

  /** The string `rep` accumulates: `str(card)` for each card, left to right. */
  function Concat(s: seq<int>): string {
    if s == [] then "" else IntString(s[0]) + Concat(s[1..])
  }

  /**
   * Reads a rep back into cards: "10" is ten, any other digit is itself.
   * This is the inverse of `rep` on lists of cards, which shows that
   * `rep` loses nothing about the order of `pile1`.
   */
  function ParseRep(r: string): seq<int> {
    if r == [] then []
    else if |r| >= 2 && r[0] == '1' && r[1] == '0' then [10] + ParseRep(r[2..])
    else [r[0] as int - '0' as int] + ParseRep(r[1..])
  }

  lemma CardString(c: int)
    requires IsCard(c)
    ensures IntString(c) == if c == 10 then "10" else [DigitChar(c)]
    ensures IntString(c)[0] != '0'
  {
  }

  /** The rep of a nonempty list of cards never starts with the digit 0. */
  lemma RepHead(s: seq<int>)
    requires CardsOnly(s) && s != []
    ensures Concat(s) != [] && Concat(s)[0] != '0'
  {
    CardString(s[0]);
  }

  lemma ParseTen(rest: string)
    ensures ParseRep("10" + rest) == [10] + ParseRep(rest)
  {
    assert ("10" + rest)[2..] == rest;
  }

  lemma ParseDigit(d: int, rest: string)
    requires 1 <= d <= 9
    requires rest != [] ==> rest[0] != '0'
    ensures ParseRep([DigitChar(d)] + rest) == [d] + ParseRep(rest)
  {
    var r := [DigitChar(d)] + rest;
    assert r[1..] == rest;
    assert |r| >= 2 ==> r[1] == rest[0];
  }

  lemma {:induction false} RepRoundTrip(s: seq<int>)
    requires CardsOnly(s)
    ensures ParseRep(Concat(s)) == s
  {
    if s != [] {
      var rest := Concat(s[1..]);
      CardString(s[0]);
      RepRoundTrip(s[1..]);
      if s[0] == 10 {
        ParseTen(rest);
      } else {
        if rest != [] {
          RepHead(s[1..]);
        }
        ParseDigit(s[0], rest);
      }
      assert s == [s[0]] + s[1..];
    }
  }

  /** Different lists of cards have different reps. */
  lemma RepInjective(a: seq<int>, b: seq<int>)
    requires CardsOnly(a) && CardsOnly(b)
    requires Concat(a) == Concat(b)
    ensures a == b
  {
    RepRoundTrip(a);
    RepRoundTrip(b);
  }

  /**
   * Two individuals whose first piles hold cards are equal exactly when the
   * first piles are the same list, in the same order; the second piles play
   * no part.
   */
  lemma EqualsIffSamePile1(a: Piles, b: Piles)
    requires CardsOnly(a.pile1) && CardsOnly(b.pile1)
    ensures Equals(a, b) <==> a.pile1 == b.pile1
  {
    if Equals(a, b) {
      RepInjective(a.pile1, b.pile1);
    }
  }

  // ------------------------------------------------------- mutation

  /** One step of `mutate`: leave position `i` alone, or swap it with `position`. */
  datatype Move = Keep | SwapWith(position: int)
  {
    predicate Within(n: int) {
      SwapWith? ==> 0 <= position < n
    }
  }

  /** The draws of one `mutate` call: a decision for each of the 5 positions, targets in 0..4. */
  predicate IsMoves(moves: seq<Move>) {
    |moves| == PileSize && forall i :: 0 <= i < |moves| ==> moves[i].Within(PileSize)
  }

  /** `s` after the moves for positions 0 .. |moves|-1 have been made, in that order. */
  function Mutated(s: seq<int>, moves: seq<Move>): (r: seq<int>)
    requires |moves| <= |s|
    requires forall i :: 0 <= i < |moves| ==> moves[i].Within(|s|)
    ensures |r| == |s|
    decreases |moves|
  {
    if moves == [] then s
    else
      var i := |moves| - 1;
      var t := Mutated(s, moves[..i]);
      assert moves[i].Within(|s|);
      match moves[i]
      case Keep => t
      case SwapWith(j) => t[i := t[j]][j := t[i]]
  }

  lemma SwapPermutes(t: seq<int>, i: int, j: int)
    requires 0 <= i < |t| && 0 <= j < |t|
    ensures multiset(t[i := t[j]][j := t[i]]) == multiset(t)
  {
    if i != j {
      var u := t[i := t[j]];
      assert multiset(u) == multiset(t) - multiset{t[i]} + multiset{t[j]};
    }
  }

  /** Mutation only rearranges: the cards of `pile1` are the same afterwards. */
  lemma {:induction false} MutatePermutes(s: seq<int>, moves: seq<Move>)
    requires |moves| <= |s|
    requires forall i :: 0 <= i < |moves| ==> moves[i].Within(|s|)
    ensures multiset(Mutated(s, moves)) == multiset(s)
    decreases |moves|
  {
    if moves != [] {
      var i := |moves| - 1;
      MutatePermutes(s, moves[..i]);
      match moves[i]
      case Keep =>
      case SwapWith(j) => SwapPermutes(Mutated(s, moves[..i]), i, j);
    }
  }

  // ------------------------------------------------------ crossover

  /** Python's slice `s[:c]`, which stops at the end of a short list. */
  function Take(s: seq<int>, c: nat): seq<int> {
    if c <= |s| then s[..c] else s
  }

  /** Python's slice `s[c:]`, which is empty past the end of a short list. */
  function Drop(s: seq<int>, c: nat): seq<int> {
    if c <= |s| then s[c..] else []
  }

  /**
   * `reproduce` with cut point `c` (the draw `random.randint(0, 4)`):
   * the first child takes the father's head and the mother's tail, the second
   * the mother's tail followed by the father's head; each second pile is the
   * rest of the deck.
   */
  function Reproduce(father: Piles, mother: Piles, c: int): (children: (Piles, Piles))
    requires 0 <= c <= 4
    ensures multiset(children.1.pile1) == multiset(children.0.pile1)
    ensures forall x :: x in children.0.pile2 <==> IsCard(x) && x !in children.0.pile1
    ensures forall x :: x in children.1.pile2 <==> IsCard(x) && x !in children.1.pile1
    ensures CardsOnly(father.pile1) && CardsOnly(mother.pile1) ==>
              children.0.IsValid() && children.1.IsValid()
    ensures |father.pile1| == PileSize && |mother.pile1| == PileSize ==>
              |children.0.pile1| == PileSize && |children.1.pile1| == PileSize
  {
    var head, tail := Take(father.pile1, c), Drop(mother.pile1, c);
    var a, b := head + tail, tail + head;
    assert CardsOnly(father.pile1) && CardsOnly(mother.pile1) ==> CardsOnly(a) && CardsOnly(b);
    (Piles(a, Complement(a)), Piles(b, Complement(b)))
  }

  /** The second child's first pile is the first child's rotated by the cut. */
  lemma ReproduceRotates(father: Piles, mother: Piles, c: int)
    requires 0 <= c <= 4
    ensures var children := Reproduce(father, mother, c);
            var k := if c <= |father.pile1| then c else |father.pile1|;
            k <= |children.0.pile1|
            && children.0.pile1[..k] == father.pile1[..k]
            && children.1.pile1 == children.0.pile1[k..] + children.0.pile1[..k]
  {
  }

  /** With the cut at 0 both children take the mother's first pile whole. */
  lemma ReproduceAtZero(father: Piles, mother: Piles)
    ensures Reproduce(father, mother, 0).0.pile1 == mother.pile1
    ensures Reproduce(father, mother, 0).1.pile1 == mother.pile1
  {
    assert Take(father.pile1, 0) == [];
    assert Drop(mother.pile1, 0) == mother.pile1;
  }

  /**
   * A child holding a repeated card passes `is_valid`: father [1,2,3,4,5],
   * mother [5,4,3,2,1], cut 2 give the first pile [1,2,3,2,1].
   */
  lemma RepeatedCardChildIsValid()
    ensures var child := Reproduce(Piles([1, 2, 3, 4, 5], []), Piles([5, 4, 3, 2, 1], []), 2).0;
            child.pile1 == [1, 2, 3, 2, 1] && child.IsValid()
  {
    var father, mother := [1, 2, 3, 4, 5], [5, 4, 3, 2, 1];
    assert CardsOnly(father) && CardsOnly(mother);
    assert Take(father, 2) == [1, 2];
    assert Drop(mother, 2) == [3, 2, 1];
  }

  // ------------------------------------------------ random individual

  /** A possible result of `random.sample(cards, 5)`: five different cards. */
  predicate IsSample(s: seq<int>) {
    |s| == PileSize && NoDuplicates(s) && CardsOnly(s)
  }

  /**
   * `random_individual` for the draw `sample`: five cards in pile1, the
   * other five in pile2, so the piles split the deck exactly.
   */
  function RandomIndividual(sample: seq<int>): (p: Piles)
    requires IsSample(sample)
    ensures p.pile1 == sample
    ensures |p.pile2| == PileSize && NoDuplicates(p.pile2)
    ensures Elems(p.pile1) * Elems(p.pile2) == {}
    ensures p.IsValid()
  {
    ComplementOfFive(sample);
    Piles(sample, Complement(sample))
  }

  /** The goal is reachable: [2,7,8,9,10] sums to 36 and leaves [1,3,4,5,6], whose product is 360. */
  lemma GoalWitness()
    ensures RandomIndividual([2, 7, 8, 9, 10]) == Piles([2, 7, 8, 9, 10], [1, 3, 4, 5, 6])
    ensures Piles([2, 7, 8, 9, 10], [1, 3, 4, 5, 6]).IsGoal()
  {
    var p := [2, 7, 8, 9, 10];
    WitnessSample(p);
    WitnessComplement(p);
    WitnessDistance(p, [1, 3, 4, 5, 6]);
  }

  lemma WitnessSample(p: seq<int>)
    requires p == [2, 7, 8, 9, 10]
    ensures IsSample(p)
  {
    forall i, j | 0 <= i < j < |p| ensures p[i] < p[j] {
      assert i == 0 || p[i] >= 7;
      assert j == 4 || p[j] <= 9;
    }
  }

  lemma WitnessDistance(p: seq<int>, q: seq<int>)
    requires p == [2, 7, 8, 9, 10] && q == [1, 3, 4, 5, 6]
    ensures Piles(p, q).Distance() == 0
  {
    assert p[4..][1..] == [] && q[4..][1..] == [];
    assert Sum(p[4..]) == 10 && Product(q[4..]) == 6;
    assert p[3..][1..] == p[4..] && q[3..][1..] == q[4..];
    assert Sum(p[3..]) == 19 && Product(q[3..]) == 30;
    assert p[2..][1..] == p[3..] && q[2..][1..] == q[3..];
    assert Sum(p[2..]) == 27 && Product(q[2..]) == 120;
    assert p[1..][1..] == p[2..] && q[1..][1..] == q[2..];
    assert Sum(p[1..]) == 34 && Product(q[1..]) == 360;
  }

  lemma WitnessComplement(p: seq<int>)
    requires p == [2, 7, 8, 9, 10]
    ensures Complement(p) == [1, 3, 4, 5, 6]
  {
    WitnessMissingFrom3(p);
    assert MissingFrom(2, p) == [3, 4, 5, 6];
  }

  lemma WitnessMissingFrom3(p: seq<int>)
    requires p == [2, 7, 8, 9, 10]
    ensures MissingFrom(3, p) == [3, 4, 5, 6]
  {
    assert MissingFrom(10, p) == [];
    assert MissingFrom(9, p) == [];
    assert MissingFrom(8, p) == [];
    assert MissingFrom(7, p) == [];
    assert MissingFrom(6, p) == [6];
    assert MissingFrom(5, p) == [5, 6];
    assert MissingFrom(4, p) == [4, 5, 6];
  }

  // ------------------------------------------------------ the object

  class Individual {
    var pile1: seq<int>
    var pile2: seq<int>

    /** `Individual(pile1, pile2)`: the lists are copied, so nothing is shared with the caller. */
    constructor (pile1: seq<int>, pile2: seq<int>)
      ensures this.pile1 == pile1 && this.pile2 == pile2
    {
      this.pile1 := pile1;
      this.pile2 := pile2;
    }

    function Value(): Piles
      reads this
    {
      Piles(pile1, pile2)
    }

    /** `sort_piles`: each pile becomes its ascending rearrangement. */
    method SortPiles()
      modifies this
      ensures pile1 == Sort(old(pile1)) && pile2 == Sort(old(pile2))
      ensures Sorted(pile1) && multiset(pile1) == multiset(old(pile1))
      ensures Sorted(pile2) && multiset(pile2) == multiset(old(pile2))
    {
      pile1 := Sort(pile1);
      pile2 := Sort(pile2);
    }

    /**
     * `mutate` with the draws `moves`: for i in 0..4, when the coin says so,
     * swap `pile1[i]` with `pile1[moves[i].position]`; `pile2` is not touched.
     */
    method Mutate(moves: seq<Move>)
      requires IsMoves(moves) && |pile1| >= PileSize
      modifies this
      ensures pile1 == Mutated(old(pile1), moves) && pile2 == old(pile2)
      ensures |pile1| == |old(pile1)| && multiset(pile1) == multiset(old(pile1))
    {
      for i := 0 to PileSize
        invariant pile1 == Mutated(old(pile1), moves[..i])
        invariant pile2 == old(pile2)
      {
        assert moves[..i + 1][..i] == moves[..i];
        match moves[i]
        case Keep =>
        case SwapWith(p2) =>
          pile1 := pile1[i := pile1[p2]][p2 := pile1[i]];
      }
      assert moves[..PileSize] == moves;
      MutatePermutes(old(pile1), moves);
    }
  }
}
