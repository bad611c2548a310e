/** The fixed universe of cards 1..10 and the sequence arithmetic the search needs. */
module Cards {

  /** The deck `cards = list(range(1, 11))`, in ascending order. */
  const Deck: seq<int> := [1, 2, 3, 4, 5, 6, 7, 8, 9, 10]

  const TargetSum := 36
  const TargetProduct := 360

  predicate IsCard(x: int) {
    1 <= x <= 10
  }

  /** `set(cards)`. */
  function CardSet(): set<int> {
    Elems(Deck)
  }

  /** `set(s)` for a Python list `s`. */
  function Elems(s: seq<int>): set<int> {
    set x | x in s
  }

  predicate CardsOnly(s: seq<int>) {
    forall x :: x in s ==> IsCard(x)
  }

  predicate NoDuplicates(s: seq<int>) {
    forall i, j :: 0 <= i < j < |s| ==> s[i] != s[j]
  }

  function Abs(x: int): nat {
    if x < 0 then -x else x
  }

  /** Python's `sum` over a list of integers. */
  function Sum(s: seq<int>): int {
    if s == [] then 0 else s[0] + Sum(s[1..])
  }

  /** `np.prod` over a list of integers: 1 for the empty list. */
  function Product(s: seq<int>): int {
    if s == [] then 1 else s[0] * Product(s[1..])
  }

  /** The cards from `k` up to 10 that do not occur in `p`, in ascending order. */
  function MissingFrom(k: int, p: seq<int>): seq<int>
    requires 1 <= k <= 11
    decreases 11 - k
  {
    if k == 11 then []
    else if k in p then MissingFrom(k + 1, p)
    else [k] + MissingFrom(k + 1, p)
  }

  /** `MissingFrom(k, p)` holds exactly the cards from `k` up that `p` lacks, each once. */
  lemma {:induction false} MissingFromMembers(k: int, p: seq<int>)
    requires 1 <= k <= 11
    ensures forall x :: x in MissingFrom(k, p) <==> k <= x <= 10 && x !in p
    ensures NoDuplicates(MissingFrom(k, p))
    decreases 11 - k
  {
    if k < 11 {
      MissingFromMembers(k + 1, p);
    }
  }

  lemma DeckHoldsTheCards()
    ensures forall x :: x in Deck <==> IsCard(x)
    ensures NoDuplicates(Deck)
  {
    forall x | IsCard(x) ensures x in Deck {
      assert Deck[x - 1] == x;
    }
    assert forall i :: 0 <= i < |Deck| ==> Deck[i] == i + 1;
  }

  /**
   * `list(set(cards) - set(p))`: the cards missing from `p`, each once.
   * Python leaves the order of that list to the set implementation; the model
   * lists the cards in ascending order.
   */
  function Complement(p: seq<int>): (r: seq<int>)
    ensures forall x :: x in r <==> IsCard(x) && x !in p
    ensures Elems(r) == CardSet() - Elems(p)
    ensures NoDuplicates(r) && CardsOnly(r)
  {
    DeckHoldsTheCards();
    MissingFromMembers(1, p);
    MissingFrom(1, p)
  }

  /** A list without repeats has as many distinct elements as entries. */
  lemma {:induction false} DistinctCount(s: seq<int>)
    requires NoDuplicates(s)
    ensures |Elems(s)| == |s|
  {
    if s != [] {
      DistinctCount(s[1..]);
      assert Elems(s) == {s[0]} + Elems(s[1..]);
      assert s[0] !in Elems(s[1..]);
    }
  }

  lemma CardSetSize()
    ensures |CardSet()| == 10
  {
    DeckHoldsTheCards();
    DistinctCount(Deck);
  }

  /** Five distinct cards leave exactly five cards over. */
  lemma ComplementOfFive(p: seq<int>)
    requires |p| == 5 && NoDuplicates(p) && CardsOnly(p)
    ensures |Complement(p)| == 5
  {
    CardSetSize();
    DistinctCount(p);
    DistinctCount(Complement(p));
    var all, held := CardSet(), Elems(p);
    DeckHoldsTheCards();
    assert held <= all;
    assert (all - held) + held == all;
    assert (all - held) * held == {};
  }

  /** The complement depends only on which cards `p` holds, not on their order or repeats. */
  lemma ComplementBySet(p: seq<int>, q: seq<int>)
    requires Elems(p) == Elems(q)
    ensures Complement(p) == Complement(q)
  {
    MissingFromBySet(1, p, q);
  }

  lemma {:induction false} MissingFromBySet(k: int, p: seq<int>, q: seq<int>)
    requires 1 <= k <= 11
    requires Elems(p) == Elems(q)
    ensures MissingFrom(k, p) == MissingFrom(k, q)
    decreases 11 - k
  {
    if k <= 10 {
      assert k in p <==> k in Elems(p);
      assert k in q <==> k in Elems(q);
      MissingFromBySet(k + 1, p, q);
    }
  }
}
