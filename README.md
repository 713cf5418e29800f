# Memory game board — a Dafny model

This project models the turn-resolution logic of the `GameBoard` component
of a browser memory-matching game (`src/Game/GameBoard.js`).  A deck of
face-down cards is dealt in pairs.  The player reveals two cards at a time.
A pair with equal faces is marked matched, and each comparison counts as one
move once its one-second delay has passed.  A timer counts seconds until the
board is won, and the best (moves, time) result of each difficulty tier is
kept in a ledger.

The component's state becomes one `Session` object (module `GameBoard`)
with a field per piece of state: `cards`, `moves`, `firstCard`,
`secondCard`, the input lock `stopFlip`, `won`, `difficulty`, `time`,
`timerActive`, `bestResults`, and `pending`, the number of delayed
resolutions scheduled and not yet run.  Each event is a method: `StartNewGame`,
`SelectDifficulty`, `Click`, `Resolve` (the delayed `removeSelection`) and
`Tick` (one second of the interval timer).  The component's effects run
inside the event that triggers them.  The match resolver (`ResolveMatch`)
runs at the end of a click that completes a pair.  The win test
(`CheckWin`) runs after the resolver marks cards matched.  It also follows
a new deal in the component, but it cannot pass there because nothing is
matched, so `StartNewGame` does not run it.  `Valid()` is the session
invariant:
- identities are deck positions;
- the selected cards come from the deck;
- input is locked exactly while two cards are selected;
- a locked board has a resolution pending;
- a won board is fully matched and its timer is stopped.

The pure parts are functions.  Module `Deck` holds the difficulty-to-pairs
mapping, the deck construction (sample, double, deal) and match marking.
Module `BestResults` holds the strict lexicographic comparison on
(moves, time) and the ledger update.  Ledger keys are the datatype `Tier`
rather than the label strings "easy", "medium", "hard" and "undefined".  Both random `sort` calls are
parameters: the caller passes the two resulting orders, and the only
requirement is that each is a reordering of its input (`IsShuffleOf`).

The model follows the code, including four behaviours a player may not
expect:
- The delayed resolution is never cancelled.  A new game started during a
  comparison keeps it pending, and when it fires it adds a move to the
  fresh game (`Scenarios.NewGameDuringComparison`).
- The ledger records the moves counted when the last pair is found, which
  is before that comparison's own move is added.  A won game is recorded
  with one move fewer than the board finally shows
  (`Scenarios.SinglePairGame`).
- The deck has 2 × min(pairs, catalog size) cards.  It has 2 × pairs only
  when the catalog is large enough (`Deck.DeckShape`).
- `GameBoard` itself does not refuse clicks on matched or already selected
  cards.  Any such guard would live in the `Card` component, which is not
  part of this model.

## Model

| member | source | states |
|---|---|---|
| `Deck.PairCount` | src/Game/GameBoard.js:44-47 | difficulty 2 gives 8 pairs and 3 gives 12; every other value gives 6, in both directions |
| `Deck.Sample` | src/Game/GameBoard.js:49 | the sample is a prefix of the shuffled catalog, of length min(pairs, catalog size) |
| `Deck.Doubled` | src/Game/GameBoard.js:50 | the doubled sample has twice the length and twice each face's count; position i and i + n show the same face |
| `Deck.DealShape` | src/Game/GameBoard.js:52 | dealing keeps the shuffled faces in order, gives every card its position as identity, and starts unmatched |
| `Deck.DealSize` | src/Game/GameBoard.js:49-52 | a deal from any reordering of the doubled sample has twice as many cards as faces were sampled |
| `Deck.ShuffleKeepsDistinct` | src/Game/GameBoard.js:49 | reordering a duplicate-free catalog leaves it duplicate-free |
| `Deck.DeckShape` | src/Game/GameBoard.js:49-52 | for any two random orders the deck has 2 × min(pairs, catalog size) cards, identities equal positions, nothing is matched, sampled faces come from the catalog, every face on the deck is a sampled one, and with a duplicate-free catalog each sampled face is on exactly two cards and no other face is on any card |
| `Deck.MarkMatched` | src/Game/GameBoard.js:75-83 | exactly the cards with the found face become matched; every other card, the length and the order are unchanged |
| `Deck.MarkEach` | src/Game/GameBoard.js:74-83 | after a sequence of found faces a card is matched iff it was already or its face is among them; identities and faces are kept |
| `Deck.MarkMatchedIdempotent` | src/Game/GameBoard.js:76-82 | finding the same face twice marks nothing more |
| `Deck.MarkMatchedCommutes` | src/Game/GameBoard.js:76-82 | the order in which two pairs are found does not affect the deck |
| `Deck.FindingEveryFaceWins` | src/Game/GameBoard.js:37 | once every face on the board has been found, every card is matched and a non-empty board passes the win test |
| `Deck.WinNeedsEveryFace` | src/Game/GameBoard.js:37 | a face never found leaves a dealt deck not fully matched |
| `BestResults.TierLabel` | src/Game/GameBoard.js:101-104 | 1, 2 and 3 map to the easy, medium and hard keys, in both directions; any other value maps to the "undefined" key |
| `BestResults.BetterIsStrictTotal` | src/Game/GameBoard.js:108 | the "strictly better" test is irreflexive, asymmetric, transitive and total on distinct scores |
| `BestResults.UpdateBest` | src/Game/GameBoard.js:98-113 | the tier's entry is replaced iff it was empty or the new score is strictly better; afterwards it is no worse than the old entry and the new score; other tiers are unchanged |
| `BestResults.ReplayKeepsBest` | src/Game/GameBoard.js:106-112 | after any sequence of wins the tier holds a recorded score that no win beats, and other tiers are unchanged |
| `GameBoard.Session.constructor` | src/Game/GameBoard.js:7-20 | initial state: empty deck, no selection, unlocked, not won, difficulty 1, time 0, timer off, all three tiers empty |
| `GameBoard.Session.CheckWin` | src/Game/GameBoard.js:36-42 | a non-empty, fully matched deck sets won, stops the timer and offers (moves, time) to the active tier's ledger entry; otherwise nothing changes |
| `GameBoard.Session.StartNewGame` | src/Game/GameBoard.js:44-60 | from any state, deals `Deal(deckOrder)` (the deck `DeckShape` describes): twice as many cards as faces sampled, every name on it a sampled face, and, for a duplicate-free catalog, exactly two cards per sampled face; resets moves and time to 0, clears both selections, won and the lock, starts the timer; keeps the ledger and the pending resolutions |
| `GameBoard.Session.SelectDifficulty` | src/Game/GameBoard.js:22-24 | a different difficulty starts a new game for it; the same difficulty changes nothing |
| `GameBoard.Session.Click` | src/Game/GameBoard.js:62-69 | a click on a locked board changes nothing; a card other than the first selected becomes the second and triggers the resolver; otherwise it replaces the first and the second stays empty; matched flags never go back to false |
| `GameBoard.Session.ResolveMatch` | src/Game/GameBoard.js:71-89 | locks input and schedules one resolution; equal faces mark exactly that face's cards and run the win test; different faces leave the deck, won flag, timer and ledger unchanged |
| `GameBoard.Session.Resolve` | src/Game/GameBoard.js:91-96 | clears both selections, unlocks input and adds exactly one move, whatever the comparison's outcome |
| `GameBoard.Session.Tick` | src/Game/GameBoard.js:26-34 | each tick adds exactly one second while the timer is active and nothing otherwise |
| `Scenarios.SinglePairGame` | src/Game/GameBoard.js:98-100 | a one-pair game won after t seconds is recorded as (0 moves, t seconds), while the board then shows 1 move |
| `Scenarios.NewGameDuringComparison` | src/Game/GameBoard.js:84-86 | a resolution scheduled before a new game still fires in the new game and leaves it at 1 move |

## Left out

- Rendering, markup, styling and the `Card` and `DifficultySelector` components (src/Game/GameBoard.js:116-152): presentation only; the components' files are not part of this model.
- Real time: `setInterval` and `setTimeout` become the explicit events `Tick` and `Resolve`. The one-second delay and the interval's phase after a restart are not modelled.
- The distribution of `Math.random()`-driven sorting: a shuffle is any reordering, passed in by the caller.
- The in-place reordering of the shared `Data` catalog by its `sort`: the catalog is a constant sequence of face names. Ids and image references of catalog entries are not modelled. Catalog entries are taken to carry no `matched` flag, so dealt cards start unmatched.
- React's scheduling: effects run synchronously at the end of the event that triggers them. `CheckWin` reads the session's current (moves, time), which are the values of the render in which the win effect runs.
- Clicks are given by deck position (the `Card` component passes the card it renders), so `Click` requires a position inside the deck.
