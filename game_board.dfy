/**
 * The turn-resolution state machine of the memory game board
 * (src/Game/GameBoard.js) as one session object with a method per event:
 * a new game, a difficulty choice, a card click, the delayed resolution of
 * a comparison, and a timer tick.  The reactive effects of the component
 * run inside the event that triggers them: the match resolver and the win
 * test at the end of a click.
 */
module GameBoard {

  import opened Wrappers
  import opened Deck
  import opened BestResults

  class Session {
    /** The face catalog the decks are sampled from (names only). */
    const catalog: seq<string>

    var cards: seq<Card>
    var moves: nat
    var firstCard: Option<Card>
    var secondCard: Option<Card>
    /** Input lock: set while two cards are being compared. */
    var stopFlip: bool
    var won: bool
    var difficulty: int
    var time: nat
    var timerActive: bool
    var bestResults: Ledger
    /** Resolutions scheduled with a one-second delay and not yet run.
        Nothing ever cancels them. */
    var pending: nat

    /** A selected card is a snapshot of the deck card at its identity. */
    ghost predicate OnBoard(c: Option<Card>)
      reads this
    {
      c.Some? ==> c.value.id < |cards| && cards[c.value.id].name == c.value.name
    }

    /** Identities are deck positions. */
    ghost predicate DeckIds()
      reads this
    {
      forall i :: 0 <= i < |cards| ==> cards[i].id == i
    }

    /** At most two cards are selected, both from the deck, the second only
        beside a different first. */
    ghost predicate SelectionOk()
      reads this
    {
      OnBoard(firstCard) && OnBoard(secondCard) &&
      (secondCard.Some? ==> firstCard.Some? && firstCard.value.id != secondCard.value.id)
    }

    /** Input is locked exactly while two cards are selected, and a locked
        board always has a resolution on its way. */
    ghost predicate LockOk()
      reads this
    {
      (stopFlip <==> secondCard.Some?) && (stopFlip ==> pending > 0)
    }

    /** A won session has its timer stopped and its whole deck matched. */
    ghost predicate WinOk()
      reads this
    {
      won ==> !timerActive && IsWon(cards)
    }

    ghost predicate Valid()
      reads this
    {
      DeckIds() && SelectionOk() && LockOk() && WinOk()
    }

    /** The component's state when first rendered, before the mount effect
        deals the first game. */
    constructor (catalog: seq<string>)
      ensures Valid()
      ensures this.catalog == catalog
      ensures cards == [] && moves == 0 && firstCard == None && secondCard == None
      ensures !stopFlip && !won && difficulty == 1 && time == 0 && !timerActive
      ensures bestResults == InitialLedger && pending == 0
    {
      this.catalog := catalog;
      cards := [];
      moves := 0;
      firstCard, secondCard := None, None;
      stopFlip, won := false, false;
      difficulty := 1;
      time := 0;
      timerActive := false;
      bestResults := InitialLedger;
      pending := 0;
    }

    /** The win effect: a non-empty, fully matched deck wins, stops the
        timer and offers the current (moves, time) to the ledger of the
        active tier. */
    method CheckWin()
      requires DeckIds() && SelectionOk() && LockOk() && (won ==> IsWon(cards))
      modifies this`won, this`timerActive, this`bestResults
      ensures Valid()
      ensures IsWon(cards) ==>
        won && !timerActive &&
        bestResults == UpdateBest(old(bestResults), TierLabel(difficulty), Score(moves, time))
      ensures !IsWon(cards) ==>
        won == old(won) && timerActive == old(timerActive) && bestResults == old(bestResults)
    {
      if |cards| > 0 && AllMatched(cards) {
        won := true;
        timerActive := false;
        bestResults := UpdateBest(bestResults, TierLabel(difficulty), Score(moves, time));
      }
    }

    /** `startNewGame`: deals a fresh deck for the current difficulty and
        resets the session, whatever state it was in.  `catalogOrder` and
        `deckOrder` are the outcomes of the two random sorts: any reordering
        of the catalog, and any reordering of the doubled sample; `DeckShape`
        says what such a deck looks like.  The win test that follows a change
        of the deck cannot pass on a fresh deal, where nothing is matched, so
        it is left out here.  Resolutions still pending from the previous
        game are not cancelled. */
    method StartNewGame(catalogOrder: seq<string>, deckOrder: seq<string>)
      requires IsShuffleOf(catalogOrder, catalog)
      requires IsShuffleOf(deckOrder, Doubled(Sample(catalogOrder, PairCount(difficulty))))
      modifies this`cards, this`moves, this`firstCard, this`secondCard, this`stopFlip,
               this`won, this`time, this`timerActive
      ensures Valid()
      ensures cards == Deal(deckOrder)
      ensures |cards| == 2 * |Sample(catalogOrder, PairCount(difficulty))|
      ensures forall x :: x in Names(cards) ==> x in Sample(catalogOrder, PairCount(difficulty))
      ensures Distinct(catalog) ==>
        forall x :: x in Sample(catalogOrder, PairCount(difficulty)) ==> multiset(Names(cards))[x] == 2
      ensures moves == 0 && time == 0 && firstCard == None && secondCard == None
      ensures !won && !stopFlip && timerActive
      ensures pending == old(pending)
    {
      DealSize(catalogOrder, deckOrder, PairCount(difficulty));
      DealShape(deckOrder);
      DeckShape(catalog, catalogOrder, deckOrder, PairCount(difficulty));
      cards := Deal(deckOrder);
      moves := 0;
      firstCard := None;
      secondCard := None;
      won := false;
      time := 0;
      timerActive := true;
      stopFlip := false;
    }

    /** The difficulty selector: a new value starts a new game for it;
        choosing the current value again changes nothing. */
    method SelectDifficulty(d: int, catalogOrder: seq<string>, deckOrder: seq<string>)
      requires Valid()
      requires d != difficulty ==>
        IsShuffleOf(catalogOrder, catalog) &&
        IsShuffleOf(deckOrder, Doubled(Sample(catalogOrder, PairCount(d))))
      modifies this
      ensures Valid()
      ensures d == old(difficulty) ==> unchanged(this)
      ensures difficulty == d
      ensures d != old(difficulty) ==>
        cards == Deal(deckOrder) && moves == 0 && time == 0 &&
        firstCard == None && secondCard == None && !won && !stopFlip && timerActive &&
        bestResults == old(bestResults) && pending == old(pending)
    {
      if d != difficulty {
        difficulty := d;
        StartNewGame(catalogOrder, deckOrder);
      }
    }

    /** The match-resolving effect, run once both cards are selected: input
        is locked and one resolution is scheduled; when the two cards show
        the same face every card of that face is marked matched and the win
        test runs, otherwise the deck is left as it was. */
    method ResolveMatch()
      requires DeckIds() && SelectionOk() && WinOk()
      requires firstCard.Some? && secondCard.Some? && !stopFlip
      modifies this`stopFlip, this`cards, this`pending, this`won, this`timerActive, this`bestResults
      ensures Valid()
      ensures stopFlip && pending == old(pending) + 1
      ensures firstCard.value.name != secondCard.value.name ==>
        cards == old(cards) &&
        won == old(won) && timerActive == old(timerActive) && bestResults == old(bestResults)
      ensures firstCard.value.name == secondCard.value.name ==>
        cards == MarkMatched(old(cards), firstCard.value.name) &&
        (IsWon(cards) ==>
           won && !timerActive &&
           bestResults == UpdateBest(old(bestResults), TierLabel(difficulty), Score(moves, time))) &&
        (!IsWon(cards) ==>
           won == old(won) && timerActive == old(timerActive) && bestResults == old(bestResults))
      ensures |cards| == |old(cards)|
      ensures forall i :: 0 <= i < |old(cards)| && old(cards)[i].matched ==> cards[i].matched
    {
      stopFlip := true;
      pending := pending + 1;
      if firstCard.value.name == secondCard.value.name {
        cards := MarkMatched(cards, firstCard.value.name);
        assert DeckIds() && SelectionOk();
        assert won ==> IsWon(cards);
        CheckWin();
      }
    }

    /** `handleSelectedCards` for the card at position `k`, followed by the
        match resolver when the click completes a pair.  A locked board
        ignores the click.  A card other than the first selected becomes the
        second; otherwise the card (re)takes the first slot and nothing is
        compared (an unlocked board has no second card, so the resolver's
        test for two selected cards fails). */
    method Click(k: nat)
      requires Valid() && k < |cards|
      modifies this`firstCard, this`secondCard, this`stopFlip, this`cards, this`pending,
               this`won, this`timerActive, this`bestResults
      ensures Valid()
      ensures old(stopFlip) ==> unchanged(this)
      ensures !old(stopFlip) && !(old(firstCard).Some? && old(firstCard).value.id != k) ==>
        firstCard == Some(old(cards[k])) && secondCard == None && !stopFlip &&
        pending == old(pending) && cards == old(cards) &&
        won == old(won) && timerActive == old(timerActive) && bestResults == old(bestResults)
      ensures !old(stopFlip) && old(firstCard).Some? && old(firstCard).value.id != k ==>
        firstCard == old(firstCard) && secondCard == Some(old(cards[k])) && stopFlip &&
        pending == old(pending) + 1 &&
        (old(firstCard).value.name != old(cards[k].name) ==>
           cards == old(cards) &&
           won == old(won) && timerActive == old(timerActive) && bestResults == old(bestResults)) &&
        (old(firstCard).value.name == old(cards[k].name) ==>
           cards == MarkMatched(old(cards), old(cards[k].name)) &&
           (IsWon(cards) ==>
              won && !timerActive &&
              bestResults == UpdateBest(old(bestResults), TierLabel(difficulty), Score(moves, time))) &&
           (!IsWon(cards) ==>
              won == old(won) && timerActive == old(timerActive) && bestResults == old(bestResults)))
      ensures |cards| == |old(cards)|
      ensures forall i :: 0 <= i < |old(cards)| && old(cards)[i].matched ==> cards[i].matched
    {
      if stopFlip {
        return;
      }
      var item := cards[k];
      if firstCard.Some? && firstCard.value.id != item.id {
        secondCard := Some(item);
        ResolveMatch();
      } else {
        firstCard := Some(item);
      }
    }

    /** `removeSelection`, run when a scheduled resolution fires: both
        selections are cleared, input is unlocked, and the comparison counts
        as exactly one move, whatever its outcome. */
    method Resolve()
      requires Valid() && pending > 0
      modifies this`firstCard, this`secondCard, this`stopFlip, this`moves, this`pending
      ensures Valid()
      ensures firstCard == None && secondCard == None && !stopFlip
      ensures moves == old(moves) + 1 && pending == old(pending) - 1
    {
      firstCard := None;
      secondCard := None;
      stopFlip := false;
      moves := moves + 1;
      pending := pending - 1;
    }

    /** One second of the interval timer, which runs only while the timer
        is active. */
    method Tick()
      requires Valid()
      modifies this`time
      ensures Valid()
      ensures timerActive ==> time == old(time) + 1
      ensures !timerActive ==> time == old(time)
    {
      if timerActive {
        time := time + 1;
      }
    }
  }
}
