/** The deck: sixteen cards, the CSS state of each, the list of opened entries waiting
    to be judged and the list of matched entries. The source's lists `opened` and
    `matched` are called `openedList` and `matchedList` here, since `opened` is a Dafny
    keyword. */
module Decks {
  import opened Cards
  import opened Shuffling

  /** Every entry names a slot on the board and the symbol that slot holds. */
  ghost predicate OnBoard(cards: seq<Symbol>, es: seq<Entry>) {
    forall e :: e in es ==> e.index < |cards| && e.symbol == cards[e.index]
  }

  /** No slot is listed twice. */
  ghost predicate DistinctIndices(es: seq<Entry>) {
    forall a, b :: 0 <= a < b < |es| ==> es[a].index != es[b].index
  }

  /** The slots the entries name. */
  ghost function IndexSet(es: seq<Entry>): (slots: set<nat>) {
    set e | e in es :: e.index
  }

  /** The slots `0 .. n-1`. */
  ghost function Slots(n: nat): (s: set<nat>)
    ensures |s| == n
    ensures forall k: nat :: k in s <==> k < n
  {
    if n == 0 then {} else Slots(n - 1) + {n - 1}
  }

  /** The entries come in consecutive pairs that show the same symbol. */
  ghost predicate PairedUp(es: seq<Entry>)
    ensures PairedUp(es) ==> |es| % 2 == 0
  {
    es == [] || (|es| >= 2 && es[0].symbol == es[1].symbol && PairedUp(es[2..]))
  }

  /** Appending two entries with the same symbol keeps the list paired up. */
  lemma {:induction false} PairedUpAppend(es: seq<Entry>, x: Entry, y: Entry)
    requires PairedUp(es) && x.symbol == y.symbol
    ensures PairedUp(es + [x, y])
    decreases |es|
  {
    if es != [] {
      assert (es + [x, y])[2..] == es[2..] + [x, y];
      PairedUpAppend(es[2..], x, y);
    }
  }

  /** In a paired-up list every entry has a partner next to it that shows the same symbol:
      the entry after it at an even position, the one before it at an odd position. */
  lemma {:induction false} PairedUpPartner(es: seq<Entry>, p: nat)
    requires PairedUp(es) && p < |es|
    ensures p % 2 == 0 ==> p + 1 < |es| && es[p + 1].symbol == es[p].symbol
    ensures p % 2 == 1 ==> es[p - 1].symbol == es[p].symbol
    decreases p
  {
    if p >= 2 {
      PairedUpPartner(es[2..], p - 2);
    }
  }

  /** What holds of the deck between any two operations: the cards are well paired; the
      opened and matched entries name distinct slots and the symbols those slots hold;
      every opened entry's card shows Opened; a card shows Matched exactly when a matched
      entry names it; and the matched entries come in pairs of equal symbols. */
  ghost predicate Consistent(cards: seq<Symbol>, states: seq<CardState>, openedList: seq<Entry>, matchedList: seq<Entry>) {
    WellPaired(cards) && |states| == |cards| &&
    OnBoard(cards, openedList) && OnBoard(cards, matchedList) &&
    DistinctIndices(openedList) && DistinctIndices(matchedList) &&
    (forall e :: e in openedList ==> states[e.index] == Opened) &&
    MarksMatched(states, matchedList) &&
    PairedUp(matchedList)
  }

  /** A card shows Matched exactly when a matched entry names it. */
  ghost predicate MarksMatched(states: seq<CardState>, matchedList: seq<Entry>) {
    forall k :: 0 <= k < |states| ==> (states[k] == Matched <==> k in IndexSet(matchedList))
  }

  /** Entries with distinct slots name as many slots as there are entries. */
  lemma {:induction false} IndexSetSize(es: seq<Entry>)
    requires DistinctIndices(es)
    ensures |IndexSet(es)| == |es|
  {
    if es != [] {
      var n := |es| - 1;
      var front := es[..n];
      assert DistinctIndices(front);
      IndexSetSize(front);
      assert IndexSet(es) == IndexSet(front) + {es[n].index} by {
        assert es == front + [es[n]];
      }
      assert es[n].index !in IndexSet(front) by {
        forall e | e in front
          ensures e.index != es[n].index
        {
          var a :| 0 <= a < n && front[a] == e;
          assert es[a] == e;
        }
      }
    }
  }

  /** Win detection is exact: the matched list is as long as the deck exactly when every
      card shows Matched. */
  lemma WonIffAllMatched(cards: seq<Symbol>, states: seq<CardState>, openedList: seq<Entry>, matchedList: seq<Entry>)
    requires Consistent(cards, states, openedList, matchedList)
    ensures |matchedList| == |cards| <==> forall k :: 0 <= k < |states| ==> states[k] == Matched
  {
    FullIffAllMarked(states, matchedList);
  }

  lemma FullIffAllMarked(states: seq<CardState>, matchedList: seq<Entry>)
    requires DistinctIndices(matchedList) && MarksMatched(states, matchedList)
    requires forall e :: e in matchedList ==> e.index < |states|
    ensures |matchedList| == |states| <==> forall k :: 0 <= k < |states| ==> states[k] == Matched
  {
    var n := |states|;
    var named := IndexSet(matchedList);
    var all := Slots(n);
    IndexSetSize(matchedList);
    assert named <= all by {
      forall e | e in matchedList
        ensures e.index in all
      {
      }
    }
    SubsetSize(named, all);
    if forall k :: 0 <= k < |states| ==> states[k] == Matched {
      assert all <= named by {
        forall k | k in all
          ensures k in named
        {
          assert states[k] == Matched;
        }
      }
      assert named == all;
    }
    if |matchedList| == n {
      assert named == all;
      forall k | 0 <= k < |states|
        ensures states[k] == Matched
      {
        assert k in all;
      }
    }
  }

  /** A card shows Matched exactly when the other card with its symbol does. */
  lemma PartnerMatched(cards: seq<Symbol>, states: seq<CardState>, openedList: seq<Entry>, matchedList: seq<Entry>, j: nat, k: nat)
    requires Consistent(cards, states, openedList, matchedList)
    requires j < |cards| && k < |cards| && j != k && cards[j] == cards[k]
    ensures states[j] == Matched <==> states[k] == Matched
  {
    if states[k] == Matched {
      MatchedPartnerIsMatched(cards, states, openedList, matchedList, j, k);
    }
    if states[j] == Matched {
      MatchedPartnerIsMatched(cards, states, openedList, matchedList, k, j);
    }
  }

  lemma MatchedPartnerIsMatched(cards: seq<Symbol>, states: seq<CardState>, openedList: seq<Entry>, matchedList: seq<Entry>, j: nat, k: nat)
    requires Consistent(cards, states, openedList, matchedList)
    requires j < |cards| && k < |cards| && j != k && cards[j] == cards[k]
    requires states[k] == Matched
    ensures states[j] == Matched
  {
    assert k in IndexSet(matchedList);
    var e :| e in matchedList && e.index == k;
    var p :| 0 <= p < |matchedList| && matchedList[p] == e;
    PairedUpPartner(matchedList, p);
    var q := if p % 2 == 0 then p + 1 else p - 1;
    assert matchedList[q].symbol == matchedList[p].symbol;
    var other := matchedList[q].index;
    assert matchedList[q] in matchedList;
    assert other != k;
    AtMostTwoSlots(cards, j, k, other);
    assert other == j;
  }

  /** A freshly reset deck (no entries, every card Closed) is consistent. */
  lemma ResetIsConsistent(cards: seq<Symbol>, states: seq<CardState>)
    requires WellPaired(cards) && |states| == |cards|
    requires forall k :: 0 <= k < |states| ==> states[k] == Closed
    ensures Consistent(cards, states, [], [])
  {
  }

  /** Opening a Closed card, entered with its true symbol, keeps the deck consistent. */
  lemma OpenKeepsConsistent(cards: seq<Symbol>, states: seq<CardState>, openedList: seq<Entry>, matchedList: seq<Entry>, e: Entry)
    requires Consistent(cards, states, openedList, matchedList)
    requires e.index < |cards| && states[e.index] == Closed && e.symbol == cards[e.index]
    ensures Consistent(cards, states[e.index := Opened], openedList + [e], matchedList)
  {
  }

  /** Closing the first two opened cards and dropping every opened entry keeps the deck
      consistent. */
  lemma MismatchKeepsConsistent(cards: seq<Symbol>, states: seq<CardState>, openedList: seq<Entry>, matchedList: seq<Entry>)
    requires Consistent(cards, states, openedList, matchedList)
    requires |openedList| >= 2
    ensures Consistent(cards, states[openedList[0].index := Closed][openedList[1].index := Closed], [], matchedList)
  {
  }

  /** Locking the first two opened cards as Matched, when their symbols agree, appending
      both entries to the matched list and dropping every opened entry keeps the deck
      consistent. */
  lemma MatchKeepsConsistent(cards: seq<Symbol>, states: seq<CardState>, openedList: seq<Entry>, matchedList: seq<Entry>)
    requires Consistent(cards, states, openedList, matchedList)
    requires |openedList| >= 2 && openedList[0].symbol == openedList[1].symbol
    ensures Consistent(cards, states[openedList[0].index := Matched][openedList[1].index := Matched], [], matchedList + [openedList[0], openedList[1]])
  {
    var c0, c1 := openedList[0], openedList[1];
    assert c0 in openedList && c1 in openedList;
    var matchedList' := matchedList + [c0, c1];
    var states' := states[c0.index := Matched][c1.index := Matched];
    assert c0.index !in IndexSet(matchedList) && c1.index !in IndexSet(matchedList);
    PairedUpAppend(matchedList, c0, c1);
    forall a, b | 0 <= a < b < |matchedList'|
      ensures matchedList'[a].index != matchedList'[b].index
    {
      if b >= |matchedList| && a < |matchedList| {
        assert matchedList[a] in matchedList;
      }
    }
    assert IndexSet(matchedList') == IndexSet(matchedList) + {c0.index, c1.index} by {
      forall x | x in matchedList'
        ensures x in matchedList || x == c0 || x == c1
      {
      }
    }
  }

  class Deck {
    /** The symbol in each slot; shuffled in place on every reset. */
    const cards: array<Symbol>
    /** The state each card shows, written where the page opens, closes or matches a card. */
    const states: array<CardState>
    /** Entries of the cards opened since the last check (the source's `opened`). */
    var openedList: seq<Entry>
    /** Entries of the matched cards, two by two (the source's `matched`). */
    var matchedList: seq<Entry>

    ghost predicate Valid()
      reads this, cards, states
    {
      cards.Length == DeckSize && Consistent(cards[..], states[..], openedList, matchedList)
    }

    /** The deck as the page loads it: the sixteen cards in their listed order, all
        Closed, nothing opened or matched. */
    constructor ()
      ensures Valid() && fresh(cards) && fresh(states)
      ensures cards[..] == InitialCards && openedList == [] && matchedList == []
      ensures forall k :: 0 <= k < states.Length ==> states[k] == Closed
    {
      cards := new Symbol[DeckSize](i requires 0 <= i < DeckSize => InitialCards[i]);
      states := new CardState[DeckSize](_ => Closed);
      openedList, matchedList := [], [];
      new;
      assert cards[..] == InitialCards;
      InitialCardsWellPaired();
      ResetIsConsistent(cards[..], states[..]);
    }

    /** The closing loop of `Reset`: closes every card, one slot after the other. It
        touches only `states`, so the deck is consistent afterwards only where `Reset`
        calls it, once both lists are empty; on a deck with matched entries it would
        leave those entries' cards Closed. */
    method CloseEveryCard()
      modifies states
      ensures forall k :: 0 <= k < states.Length ==> states[k] == Closed
      ensures cards.Length == states.Length == DeckSize && WellPaired(cards[..]) && openedList == [] && matchedList == [] ==> Valid()
    {
      for i := 0 to states.Length
        invariant forall k :: 0 <= k < i ==> states[k] == Closed
      {
        states[i] := Closed;
      }
      if cards.Length == states.Length == DeckSize && WellPaired(cards[..]) && openedList == [] && matchedList == [] {
        ResetIsConsistent(cards[..], states[..]);
      }
    }

    /** Empties both lists, closes every card and shuffles the cards with `choices`. */
    method Reset(choices: seq<nat>)
      requires Valid() && ValidChoices(choices, cards.Length)
      modifies this, cards, states
      ensures Valid()
      ensures openedList == [] && matchedList == []
      ensures forall k :: 0 <= k < states.Length ==> states[k] == Closed
      ensures cards[..] == Shuffled(old(cards[..]), choices)
      ensures WellPaired(cards[..])
    {
      ghost var before := cards[..];
      assert WellPaired(before);
      openedList := [];
      matchedList := [];
      CloseEveryCard();
      Shuffle(cards, choices);
      RearrangedWellPaired(before, cards[..]);
      ResetIsConsistent(cards[..], states[..]);
    }

    /** Appends the entry of a Closed card to the opened list and opens the card; reports
        whether the opened list has just reached two entries, the moment the page
        schedules the match check. */
    method TryOpeningCard(e: Entry) returns (checkScheduled: bool)
      requires Valid()
      requires e.index < cards.Length && states[e.index] == Closed && e.symbol == cards[e.index]
      modifies this, states
      ensures Valid()
      ensures openedList == old(openedList) + [e] && matchedList == old(matchedList)
      ensures states[..] == old(states[..])[e.index := Opened]
      ensures checkScheduled <==> |openedList| == 2
    {
      OpenKeepsConsistent(cards[..], states[..], openedList, matchedList, e);
      openedList := openedList + [e];
      states[e.index] := Opened;
      checkScheduled := |openedList| == 2;
    }

    /** Judges the first two opened entries. Different symbols: both cards close again.
        Equal symbols: both cards are locked as Matched and their entries appended to the
        matched list. Either way the whole opened list is emptied, so a card opened after
        the second one stays Opened without an entry. Reports whether the deal is won,
        that is whether every card is matched. */
    method CheckMatch() returns (won: bool)
      requires Valid() && |openedList| >= 2
      modifies this, states
      ensures Valid()
      ensures openedList == []
      ensures var c0, c1 := old(openedList[0]), old(openedList[1]);
        if c0.symbol != c1.symbol then
          matchedList == old(matchedList) && states[..] == old(states[..])[c0.index := Closed][c1.index := Closed]
        else
          matchedList == old(matchedList) + [c0, c1] && states[..] == old(states[..])[c0.index := Matched][c1.index := Matched]
      ensures forall k :: 0 <= k < states.Length && old(states[k]) == Matched ==> states[k] == Matched
      ensures forall e :: e in old(openedList[2..]) ==> states[e.index] == Opened
      ensures won <==> |matchedList| == cards.Length
      ensures won <==> forall k :: 0 <= k < states.Length ==> states[k] == Matched
    {
      var c0 := openedList[0];
      var c1 := openedList[1];
      assert c0 in openedList && c1 in openedList;
      if c0.symbol != c1.symbol {
        MismatchKeepsConsistent(cards[..], states[..], openedList, matchedList);
        states[c0.index] := Closed;
        states[c1.index] := Closed;
        openedList := [];
      } else {
        MatchKeepsConsistent(cards[..], states[..], openedList, matchedList);
        states[c0.index] := Matched;
        states[c1.index] := Matched;
        matchedList := matchedList + [c0, c1];
        openedList := [];
      }
      won := |matchedList| == cards.Length;
      WonIffAllMatched(cards[..], states[..], openedList, matchedList);
    }
  }
}
