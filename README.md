# Memory game: a Dafny model of the game logic

This project models the game logic of a browser memory game ("concentration").
Sixteen cards, eight symbols each shown on two cards, are shuffled face down. The
player turns cards over two at a time. A matching pair stays face up. A mismatched
pair is turned back down after a short delay. A score panel counts moves, seconds
and stars, and the deal is won when every card is matched.

The model follows the objects of `js/app.js`:

- `Cards` (`cards.dfy`) holds the `Symbol` and `CardState` enumerations. It also
  holds the `{index, symbol}` entries of the opened and matched lists and the
  sixteen-card initial deck. It proves that this deck holds each symbol exactly
  twice, and that no symbol can sit in a third slot.
- `Shuffling` (`shuffle.dfy`) is `Deck.shuffle`. The in-place Fisher–Yates loop is
  the method `Shuffle` on an `array`. It is proved equal to the function
  `Shuffled`, and lemmas show that `Shuffled` is a permutation.
- `Scoring` (`scoring.dfy`) is the `ScorePanel` object, modelled as a class with
  fields `move`, `time` and `star`. Its invariant is `star == Stars(move)`, where
  `Stars` is the threshold rating: 3 stars below 30 moves, 2 from 30 to 39, 1 from 40.
- `Decks` (`deck.dfy`) is the `Deck` object, modelled as a class.
  - The `cards` array is shuffled in place.
  - A `states` array holds each card's Closed/Opened/Matched CSS state. In the
    source that state lives in the page, and the model writes it exactly where the
    source calls `ViewChanger.openCard`, `closeCard` and `matchCard`.
  - The lists `opened` and `matched` are the fields `openedList` and `matchedList`,
    because `opened` is a Dafny keyword.
  - The object invariant is the pure predicate `Consistent`. Each operation is
    proved to preserve it by its own lemma.
- `Events` (`events.dfy`) holds the card-click listener with its Closed-state
  guard and the handler it calls, and the restart handler.

What the environment supplies:
- The random draw of each shuffle step is a caller-supplied sequence `choices`,
  with `choices[i] <= i` for every step.
- The two timers become results that tell the caller what the page would schedule.
  `Deck.TryOpeningCard` (and `Events.ClickCard`) report that the 200 ms match check
  was scheduled. `Deck.CheckMatch` reports a win, which is when the page stops the
  clock and shows the end dialog. The caller then calls `CheckMatch` and
  `ScorePanel.IncrementTime` itself.

A third card can be opened before the delayed check runs, because the source
does not prevent it. `CheckMatch` judges only the first two opened entries and then
clears the whole list. The third card therefore stays Opened, with no entry,
until the next reset. The model keeps this behaviour, and `CheckMatch` states it.
For this reason the deck invariant says only that every opened entry's card shows
Opened, not the converse.

## Model

| member | source | states |
|---|---|---|
| `Cards.InitialCardsWellPaired` | js/app.js:88 | the initial deck has 16 cards and holds each of the 8 symbols exactly twice |
| `Cards.RearrangedWellPaired` | js/app.js:105 | any rearrangement of a well-paired deck (same multiset) is still well paired |
| `Cards.PositionsCount` | js/app.js:88 | the number of slots holding a symbol equals its multiplicity in the deck |
| `Cards.AtMostTwoSlots` | js/app.js:88 | in a well-paired deck no symbol occupies three distinct slots |
| `Shuffling.ShuffleBelowIsPermutation` | js/app.js:92-95 | any run of the remaining swap steps keeps the length and the multiset of elements |
| `Shuffling.ShuffledIsPermutation` | js/app.js:91-95 | the whole shuffle is a permutation of its input, whatever the draws |
| `Shuffling.ShuffleFixesUpperSlots` | js/app.js:92-94 | once the loop has passed slot `i`, later steps never change slot `i` |
| `Shuffling.Shuffle` | js/app.js:91-95 | the in-place loop leaves the array equal to `Shuffled` of its old contents, a permutation of them |
| `Scoring.Stars` | js/app.js:36-44 | the rating reached from a reset after a number of moves is always 1, 2 or 3 stars |
| `Scoring.StarsNeverRise` | js/app.js:36-44 | more moves never give more stars |
| `Scoring.StarsChangeAtThresholds` | js/app.js:36-44 | one more move changes the rating exactly when the count reaches 30 (to 2) or 40 (to 1) |
| `Scoring.ScorePanel.constructor` | js/app.js:24-27 | the panel starts at 0 moves, 0 seconds and 3 stars, consistent with `Stars` |
| `Scoring.ScorePanel.IncrementTime` | js/app.js:28-31 | adds one second and changes nothing else |
| `Scoring.ScorePanel.IncrementMove` | js/app.js:32-45 | adds one move, sets 2 stars at move 30 and 1 star at move 40, keeps the stars otherwise, and keeps `star == Stars(move)` |
| `Scoring.ScorePanel.Reset` | js/app.js:46-53 | sets 0 moves, 3 stars and 0 seconds |
| `Decks.PairedUp` | js/app.js:135 | a matched list built from equal-symbol pairs has even length |
| `Decks.PairedUpAppend` | js/app.js:135 | appending two entries with equal symbols keeps the matched list paired |
| `Decks.PairedUpPartner` | js/app.js:135 | every matched entry sits next to a partner entry with the same symbol |
| `Decks.IndexSetSize` | js/app.js:139 | entries naming distinct slots name as many slots as there are entries |
| `Decks.WonIffAllMatched` | js/app.js:139-143 | the matched list is as long as the deck exactly when every card shows Matched |
| `Decks.PartnerMatched` | js/app.js:132-136 | a card shows Matched exactly when the other card with its symbol does |
| `Decks.ResetIsConsistent` | js/app.js:98-106 | a well-paired deck with empty lists and every card Closed satisfies the deck invariant |
| `Decks.OpenKeepsConsistent` | js/app.js:112-116 | opening a Closed card with its true symbol preserves the deck invariant |
| `Decks.MismatchKeepsConsistent` | js/app.js:128-131 | closing the first two opened cards and emptying the opened list preserves the invariant |
| `Decks.MatchKeepsConsistent` | js/app.js:132-136 | matching two equal opened cards, appending both entries and emptying the opened list preserves the invariant |
| `Decks.Deck.constructor` | js/app.js:87-90 | the deck starts as the listed sixteen cards, all Closed, with empty lists |
| `Decks.Deck.CloseEveryCard` | js/app.js:102-104 | every card shows Closed afterwards; once both lists are empty, as `Reset` has left them, the deck invariant holds again |
| `Decks.Deck.Reset` | js/app.js:98-106 | empties both lists, closes every card and leaves `cards` as the shuffle of the old cards, still holding each symbol exactly twice; the invariant holds again |
| `Decks.Deck.TryOpeningCard` | js/app.js:107-122 | appends exactly the one entry, sets that card Opened and nothing else, leaves `matched` and `cards` alone, and reports a scheduled check exactly when the opened list reaches two |
| `Decks.Deck.CheckMatch` | js/app.js:123-145 | mismatch: both cards Closed, `matched` unchanged; match: both cards Matched, exactly those two entries appended. The opened list is emptied, Matched cards stay Matched, later opened cards stay Opened, and a win is reported exactly when `matched` is as long as the deck, that is exactly when every card shows Matched |
| `Events.ClickCard` | js/app.js:244-267 | a click on a card that is not Closed changes nothing; an accepted click adds exactly one move, then opens exactly that card with the symbol of its slot |
| `Events.ClickRestart` | js/app.js:270-275 | a fresh deal (shuffled, all Closed, empty lists) and a fresh score (0, 0, 3) |

## Left out

- The page itself is not modelled: `ViewChanger`'s writes to the page, the modal
  texts and the start-button presentation. The only effect kept is the card's CSS
  state, held in `Deck.states`.
- Event wiring (`addEventListener`), `main()` and every `console.log` are left out.
  `Events.ClickCard` takes the clicked card's slot as a number below 16, which stands
  for the element id. The symbol it enters is the one the slot holds, which the page
  showed after the last shuffle.
- The timers are left out: `setTimeout(Deck.checkMatch, 200)`, `setInterval` and
  `clearInterval`. They appear only as the `checkScheduled` and `won` results.
- `EventHandler.clickStart`: it does what `Events.ClickRestart` does, and also starts
  the one-second timer and hides the start dialog. Both of those are timer or page
  effects.
- `Math.random()` is replaced by the caller's `choices`. That the shuffle is uniform
  cannot be stated without probabilities and is not claimed.
- Decks.Deck.CheckMatch: requires at least two opened entries. In the source, a
  delayed check scheduled before a restart can still fire afterwards. It then finds
  either an empty opened list, or a list of one entry if the player clicked one card
  after the restart. In both cases reading the symbol of a missing entry
  (`c0.symbol` or `c1.symbol`) throws before any state changes. The run then behaves
  as if `CheckMatch` had not been called. These paths are not modelled.
- Decks.Deck.TryOpeningCard: requires the card to show Closed and the entry to carry
  the symbol of its slot. Its only caller, the click guard, ensures that the card
  shows Closed. The symbol is read from the page. It equals the slot's symbol only
  once a reset has written the shuffled symbols to the page.
- Decks.Deck.constructor: at page load, each card's symbol and state come from the
  page's markup, which is not part of this model. The model assumes that every card
  is Closed and that the markup lists the symbols in the order of `Deck.cards`. A
  click before the first start or restart is judged by that order. If the markup
  differed, the source would judge by the markup instead.
- That every deal can be won in finitely many clicks is a liveness property and is
  not proved.
- Move, time and star counts are JavaScript numbers. They are modelled as unbounded
  naturals, so no overflow is modelled.
