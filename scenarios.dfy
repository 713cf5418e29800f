/**
 * Short event sequences on a session, showing two consequences of the
 * board's code that a player might not expect.
 */
module Scenarios {

  import opened Wrappers
  import opened Deck
  import opened BestResults
  import opened GameBoard

  /** Clicks the cards at positions 0 and 1 of an unlocked board with
      nothing selected. */
  method ClickFirstTwo(s: Session)
    requires s.Valid() && !s.stopFlip && s.firstCard == None && |s.cards| >= 2
    modifies s
    ensures s.Valid() && s.stopFlip && s.pending == old(s.pending) + 1
    ensures s.moves == old(s.moves) && s.time == old(s.time) && s.difficulty == old(s.difficulty)
    ensures old(s.cards[0].name) == old(s.cards[1].name) ==>
      s.cards == MarkMatched(old(s.cards), old(s.cards[0].name)) &&
      (IsWon(s.cards) ==>
         s.won && s.bestResults == UpdateBest(old(s.bestResults), TierLabel(s.difficulty), Score(s.moves, s.time)))
  {
    s.Click(0);
    s.Click(1);
  }

  /** `ticks` seconds of the interval timer. */
  method RunTimer(s: Session, ticks: nat)
    requires s.Valid()
    modifies s`time
    ensures s.Valid()
    ensures s.time == old(s.time) + (if s.timerActive then ticks else 0)
  {
    var i := 0;
    while i < ticks
      invariant 0 <= i <= ticks
      invariant s.Valid()
      invariant s.time == old(s.time) + (if s.timerActive then i else 0)
    {
      s.Tick();
      i := i + 1;
    }
  }

  /** A fresh session on a catalog of one face, dealt on the easy board:
      one pair. */
  method DealOnePair(face: string) returns (s: Session)
    ensures fresh(s) && s.Valid()
    ensures s.cards == [Card(0, face, false), Card(1, face, false)]
    ensures s.moves == 0 && s.time == 0 && s.timerActive && !s.won && !s.stopFlip
    ensures s.firstCard == None && s.pending == 0 && s.difficulty == 1
    ensures s.bestResults == InitialLedger
  {
    s := new Session([face]);
    var deck := [face, face];
    assert Sample([face], PairCount(1)) == [face];
    assert IsShuffleOf(deck, Doubled(Sample([face], PairCount(1))));
    s.StartNewGame([face], deck);
  }

  /** Finding the only pair after `ticks` seconds wins at once, and the
      ledger records the moves counted at that moment -- before the winning
      comparison's delayed resolution adds its move -- so the easy tier
      holds 0 moves while the board goes on to show 1. */
  method SinglePairGame(face: string, ticks: nat) returns (recorded: Option<Score>, shownMoves: nat)
    ensures recorded == Some(Score(0, ticks))
    ensures shownMoves == 1
  {
    var s := DealOnePair(face);
    RunTimer(s, ticks);
    var a, b := Card(0, face, false), Card(1, face, false);
    ClickFirstTwo(s);
    assert s.cards == MarkMatched([a, b], face);
    assert IsWon(s.cards);
    recorded := Current(s.bestResults, Easy);
    s.Resolve();
    shownMoves := s.moves;
  }

  /** A new game on the easy board of a two-face catalog. */
  method DealTwoFaces(s: Session, x: string, y: string)
    requires s.catalog == [x, y] && s.difficulty == 1
    modifies s
    ensures s.Valid() && s.difficulty == 1 && s.catalog == [x, y]
    ensures s.cards == Deal([x, y, x, y])
    ensures s.moves == 0 && !s.stopFlip && s.firstCard == None && s.pending == old(s.pending)
  {
    var deck := [x, y, x, y];
    assert Sample([x, y], PairCount(1)) == [x, y];
    assert IsShuffleOf(deck, Doubled(Sample([x, y], PairCount(1))));
    s.StartNewGame([x, y], deck);
  }

  /** A new game started while a compared pair is still on show does not
      cancel that pair's delayed resolution: when it fires, the fresh game
      counts a move although nothing has been compared in it yet. */
  method NewGameDuringComparison(x: string, y: string) returns (movesAfter: nat)
    ensures movesAfter == 1
  {
    var s := new Session([x, y]);
    DealTwoFaces(s, x, y);
    ClickFirstTwo(s);
    DealTwoFaces(s, x, y);
    assert s.moves == 0 && s.pending == 1;
    s.Resolve();
    movesAfter := s.moves;
  }
}
