/** The values the memory game is built from: the eight card symbols, the
    three visual states a card can be in, the entries the deck keeps for
    opened and matched cards, and the sixteen-card deck every deal starts from. */
module Cards {

  /** The eight symbols; each pair of cards shares one. */
  datatype Symbol = Anchor | Bicycle | Bolt | Bomb | Cube | Diamond | Leaf | Plane

  /** The state of a card, which the game keeps in the card's CSS class. */
  datatype CardState = Closed | Opened | Matched

  /** An opened or matched card: its slot on the board and the symbol it shows. */
  datatype Entry = Entry(index: nat, symbol: Symbol)

  /** Number of cards on the board. */
  const DeckSize: nat := 16

  /** The deck before any shuffle: every symbol listed twice, side by side. */
  const InitialCards: seq<Symbol> :=
    [Anchor, Anchor, Bicycle, Bicycle, Bolt, Bolt, Bomb, Bomb,
     Cube, Cube, Diamond, Diamond, Leaf, Leaf, Plane, Plane]

  /** A full deck in which every symbol appears exactly twice. */
  ghost predicate WellPaired(cards: seq<Symbol>) {
    |cards| == DeckSize && forall x: Symbol :: multiset(cards)[x] == 2
  }

  /** The slots of `cards` that hold symbol `x`. */
  ghost function Positions(cards: seq<Symbol>, x: Symbol): (slots: set<int>) {
    set i | 0 <= i < |cards| && cards[i] == x
  }

  /** The initial deck, read as its eight pairs. */
  lemma InitialCardsInPairs()
    ensures InitialCards == [Anchor, Anchor] + [Bicycle, Bicycle] + [Bolt, Bolt] + [Bomb, Bomb]
      + [Cube, Cube] + [Diamond, Diamond] + [Leaf, Leaf] + [Plane, Plane]
  {
  }

  lemma PairsHoldEachSymbolTwice(x: Symbol)
    ensures multiset([Anchor, Anchor] + [Bicycle, Bicycle] + [Bolt, Bolt] + [Bomb, Bomb]
      + [Cube, Cube] + [Diamond, Diamond] + [Leaf, Leaf] + [Plane, Plane])[x] == 2
  {
  }

  /** The initial deck holds sixteen cards, each symbol exactly twice. */
  lemma InitialCardsWellPaired()
    ensures WellPaired(InitialCards)
  {
    InitialCardsInPairs();
    forall x: Symbol
      ensures multiset(InitialCards)[x] == 2
    {
      PairsHoldEachSymbolTwice(x);
    }
  }

  /** Rearranging a well-paired deck keeps it well paired. */
  lemma RearrangedWellPaired(before: seq<Symbol>, after: seq<Symbol>)
    requires WellPaired(before) && multiset(after) == multiset(before)
    ensures WellPaired(after)
  {
    assert |after| == |multiset(after)| == |before|;
  }

  /** A set is no larger than a superset of it, and a subset as large as its superset is
      that superset. */
  lemma SubsetSize<T>(a: set<T>, b: set<T>)
    requires a <= b
    ensures |a| <= |b|
    ensures |a| == |b| ==> a == b
  {
    assert b == a + (b - a);
    assert |b| == |a| + |b - a|;
    if |a| == |b| {
      assert |b - a| == 0;
      assert b - a == {};
    }
  }

  /** A symbol occupies as many slots as its multiplicity in the deck. */
  lemma {:induction false} PositionsCount(cards: seq<Symbol>, x: Symbol)
    ensures |Positions(cards, x)| == multiset(cards)[x]
  {
    if |cards| > 0 {
      var n := |cards| - 1;
      var front := cards[..n];
      PositionsCount(front, x);
      assert cards == front + [cards[n]];
      if cards[n] == x {
        assert Positions(cards, x) == Positions(front, x) + {n};
      } else {
        assert Positions(cards, x) == Positions(front, x);
      }
    }
  }

  /** In a well-paired deck no symbol sits in three different slots. */
  lemma AtMostTwoSlots(cards: seq<Symbol>, i: nat, j: nat, k: nat)
    requires WellPaired(cards)
    requires i < |cards| && j < |cards| && k < |cards|
    requires cards[i] == cards[j] && cards[j] == cards[k]
    ensures i == j || j == k || i == k
  {
    if i != j && j != k && i != k {
      PositionsCount(cards, cards[i]);
      assert |{i, j, k}| == 3;
      SubsetSize({i, j, k}, Positions(cards, cards[i]));
      assert false;
    }
  }
}
