/** The page's click handlers, reduced to what they do to the deck and the score panel.
    Timers are left to the caller: it fires `Deck.CheckMatch` once a click reports that a
    check was scheduled, and `ScorePanel.IncrementTime` once a second until a check
    reports a win. */
module Events {
  import opened Cards
  import opened Shuffling
  import opened Scoring
  import opened Decks

  /** A click on the card in slot `index`. The listener passes it on only when the card
      shows Closed; the handler then counts one move and opens the card, entered with the
      symbol its slot holds. A click on an Opened or Matched card changes nothing. */
  method ClickCard(deck: Deck, panel: ScorePanel, index: nat) returns (accepted: bool, checkScheduled: bool)
    requires deck.Valid() && panel.Valid()
    requires index < deck.states.Length
    modifies deck, deck.states, panel
    ensures deck.Valid() && panel.Valid()
    ensures accepted <==> old(deck.states[index]) == Closed
    ensures !accepted ==> !checkScheduled && unchanged(deck, deck.states, panel)
    ensures accepted ==>
      panel.move == old(panel.move) + 1 && panel.time == old(panel.time) &&
      deck.openedList == old(deck.openedList) + [Entry(index, deck.cards[index])] &&
      deck.matchedList == old(deck.matchedList) &&
      deck.states[..] == old(deck.states[..])[index := Opened] &&
      (checkScheduled <==> |deck.openedList| == 2)
  {
    accepted := deck.states[index] == Closed;
    checkScheduled := false;
    if accepted {
      panel.IncrementMove();
      checkScheduled := deck.TryOpeningCard(Entry(index, deck.cards[index]));
    }
  }

  /** The restart button: a fresh deal, with the cards shuffled by `choices`, and a fresh
      score. */
  method ClickRestart(deck: Deck, panel: ScorePanel, choices: seq<nat>)
    requires deck.Valid() && ValidChoices(choices, deck.cards.Length)
    modifies deck, deck.cards, deck.states, panel
    ensures deck.Valid() && panel.Valid()
    ensures deck.openedList == [] && deck.matchedList == []
    ensures forall k :: 0 <= k < deck.states.Length ==> deck.states[k] == Closed
    ensures deck.cards[..] == Shuffled(old(deck.cards[..]), choices)
    ensures panel.move == 0 && panel.time == 0 && panel.star == 3
  {
    deck.Reset(choices);
    panel.Reset();
  }
}
