/**
 * Cards, deck construction and match marking of the memory game board
 * (src/Game/GameBoard.js).  Everything here is a pure value computation;
 * the session that owns the deck is in module GameBoard.
 */
module Deck {

  /** A card on the board: its positional identity, the face name it shows,
      and whether its pair has been found. */
  datatype Card = Card(id: nat, name: string, matched: bool)

  /** Number of pairs dealt for a difficulty value: 2 is medium, 3 is hard,
      every other value (the default 1 included) deals the easy board. */
  function PairCount(difficulty: int): (n: nat)
    ensures n in {6, 8, 12}
    ensures n == 8 <==> difficulty == 2
    ensures n == 12 <==> difficulty == 3
    ensures n == 6 <==> difficulty != 2 && difficulty != 3
  {
    if difficulty == 2 then 8 else if difficulty == 3 then 12 else 6
  }

  predicate Distinct(s: seq<string>)
  {
    forall i, j :: 0 <= i < j < |s| ==> s[i] != s[j]
  }

  /** `t` is some reordering of `s`: what a random `sort` leaves behind. */
  predicate IsShuffleOf(t: seq<string>, s: seq<string>)
  {
    multiset(t) == multiset(s)
  }

  /** `slice(0, n)` of the shuffled catalog: the first `n` faces, or all of
      them when the catalog is shorter. */
  function Sample(order: seq<string>, n: nat): (r: seq<string>)
    ensures |r| == if n <= |order| then n else |order|
    ensures r <= order
  {
    if n <= |order| then order[..n] else order
  }

  /** The sample followed by a copy of itself. */
  function Doubled(s: seq<string>): (r: seq<string>)
    ensures |r| == 2 * |s|
    ensures multiset(r) == multiset(s) + multiset(s)
    ensures forall i :: 0 <= i < |s| ==> r[i] == r[i + |s|] == s[i]
  {
    s + s
  }

  /** Tags every face of the shuffled deck with its position as identity. */
  function Deal(shuffled: seq<string>): (deck: seq<Card>)
  {
    seq(|shuffled|, i requires 0 <= i < |shuffled| => Card(i, shuffled[i], false))
  }

  function Names(cards: seq<Card>): (names: seq<string>)
  {
    seq(|cards|, i requires 0 <= i < |cards| => cards[i].name)
  }

  predicate AllMatched(cards: seq<Card>)
  {
    forall i :: 0 <= i < |cards| ==> cards[i].matched
  }

  /** The win test of the board: a non-empty deck whose every card is matched. */
  predicate IsWon(cards: seq<Card>)
  {
    |cards| > 0 && AllMatched(cards)
  }

  /** Marks every card showing `name` as matched (the `map` run when the two
      selected cards show the same face).  A card is matched afterwards
      exactly when it was before or shows that face; identities, faces,
      order and length are kept, and a card of another face is untouched. */
  function MarkMatched(cards: seq<Card>, name: string): (r: seq<Card>)
    ensures |r| == |cards|
    ensures forall i :: 0 <= i < |cards| ==>
              r[i].id == cards[i].id && r[i].name == cards[i].name &&
              (r[i].matched <==> cards[i].matched || cards[i].name == name)
    ensures forall i :: 0 <= i < |cards| && cards[i].name != name ==> r[i] == cards[i]
  {
    seq(|cards|, i requires 0 <= i < |cards| =>
      if cards[i].name == name then cards[i].(matched := true) else cards[i])
  }

  /** The deck after the pairs of `faces` have been found, in that order. */
  function MarkEach(cards: seq<Card>, faces: seq<string>): (r: seq<Card>)
    ensures |r| == |cards|
    ensures forall i :: 0 <= i < |cards| ==>
              r[i].id == cards[i].id && r[i].name == cards[i].name &&
              (r[i].matched <==> cards[i].matched || cards[i].name in faces)
    decreases |faces|
  {
    if faces == [] then cards else MarkEach(MarkMatched(cards, faces[0]), faces[1..])
  }

  // ---------------------------------------------------------------------
  // Dealing

  lemma DealShape(shuffled: seq<string>)
    ensures |Deal(shuffled)| == |shuffled|
    ensures Names(Deal(shuffled)) == shuffled
    ensures forall i :: 0 <= i < |shuffled| ==> Deal(shuffled)[i].id == i
    ensures forall i :: 0 <= i < |shuffled| ==> !Deal(shuffled)[i].matched
  {
  }

  /** A value at two positions of a sequence occurs in it at least twice. */
  lemma RepeatCountsTwice(s: seq<string>, i: nat, j: nat)
    requires i < j < |s| && s[i] == s[j]
    ensures multiset(s)[s[i]] >= 2
  {
    var pre := s[..j];
    assert s == pre + [s[j]] + s[j + 1..];
    assert s[i] in pre;
  }

  /** A sequence has no repeated entry exactly when no value occurs in it
      more than once. */
  lemma {:induction false} DistinctIffAtMostOnce(s: seq<string>)
    ensures Distinct(s) <==> forall x :: multiset(s)[x] <= 1
  {
    if s != [] {
      var t := s[1..];
      assert s == [s[0]] + t;
      DistinctIffAtMostOnce(t);
      if Distinct(s) {
        forall j | 0 <= j < |t| ensures t[j] != s[0] {
          assert t[j] == s[j + 1];
        }
        assert multiset(t)[s[0]] == 0;
      }
      forall i, j | 0 <= i < j < |s| && s[i] == s[j] ensures multiset(s)[s[i]] >= 2 {
        RepeatCountsTwice(s, i, j);
      }
    }
  }

  /** A reordering has the length of what it reorders. */
  lemma ShuffleLength(t: seq<string>, s: seq<string>)
    requires IsShuffleOf(t, s)
    ensures |t| == |s|
  {
    assert |multiset(t)| == |multiset(s)|;
  }

  /** A deal from a reordered doubled sample has twice as many cards as
      faces were sampled. */
  lemma DealSize(catalogOrder: seq<string>, deckOrder: seq<string>, pairs: nat)
    requires IsShuffleOf(deckOrder, Doubled(Sample(catalogOrder, pairs)))
    ensures |Deal(deckOrder)| == 2 * |Sample(catalogOrder, pairs)|
  {
    ShuffleLength(deckOrder, Doubled(Sample(catalogOrder, pairs)));
    DealShape(deckOrder);
  }

  lemma ShuffleKeepsDistinct(t: seq<string>, s: seq<string>)
    requires IsShuffleOf(t, s) && Distinct(s)
    ensures Distinct(t)
  {
    DistinctIffAtMostOnce(s);
    DistinctIffAtMostOnce(t);
  }

  /** What `startNewGame` deals from a catalog for `pairs` pairs, whatever
      the two random orders were: twice as many cards as faces sampled
      (2 x pairs when the catalog is large enough), identities equal to
      positions, nothing matched, each sampled face taken from the catalog,
      and -- for a duplicate-free catalog -- every sampled face on exactly
      two cards and no other face on any card. */
  lemma {:induction false} DeckShape(catalog: seq<string>, catalogOrder: seq<string>,
                                     deckOrder: seq<string>, pairs: nat)
    requires IsShuffleOf(catalogOrder, catalog)
    requires IsShuffleOf(deckOrder, Doubled(Sample(catalogOrder, pairs)))
    ensures var deck := Deal(deckOrder);
      |deck| == 2 * |Sample(catalogOrder, pairs)| &&
      |deck| == 2 * (if pairs <= |catalog| then pairs else |catalog|) &&
      (forall i :: 0 <= i < |deck| ==> deck[i].id == i && !deck[i].matched) &&
      multiset(Names(deck)) == multiset(Sample(catalogOrder, pairs)) + multiset(Sample(catalogOrder, pairs))
    ensures forall x :: x in Sample(catalogOrder, pairs) ==> x in catalog
    ensures forall x :: x in Names(Deal(deckOrder)) ==> x in Sample(catalogOrder, pairs)
    ensures Distinct(catalog) ==>
      (forall x :: x in Sample(catalogOrder, pairs) ==> multiset(Names(Deal(deckOrder)))[x] == 2) &&
      (forall x :: x !in Sample(catalogOrder, pairs) ==> multiset(Names(Deal(deckOrder)))[x] == 0)
  {
    var sample := Sample(catalogOrder, pairs);
    var deck := Deal(deckOrder);
    DealShape(deckOrder);
    assert |catalogOrder| == |catalog| by {
      assert |multiset(catalogOrder)| == |multiset(catalog)|;
    }
    assert |deckOrder| == 2 * |sample| by {
      assert |multiset(deckOrder)| == |multiset(Doubled(sample))|;
    }
    forall x | x in sample ensures x in catalog {
      assert x in catalogOrder;
      assert x in multiset(catalogOrder);
    }
    forall x | x in Names(deck) ensures x in sample {
      assert x in multiset(Names(deck));
    }
    if Distinct(catalog) {
      ShuffleKeepsDistinct(catalogOrder, catalog);
      assert Distinct(sample);
      DistinctIffAtMostOnce(sample);
      forall x | x in sample ensures multiset(Names(deck))[x] == 2 {
        assert x in multiset(sample);
      }
    }
  }

  // ---------------------------------------------------------------------
  // Marking

  /** Finding a face again changes nothing. */
  lemma MarkMatchedIdempotent(cards: seq<Card>, name: string)
    ensures MarkMatched(MarkMatched(cards, name), name) == MarkMatched(cards, name)
  {
  }

  /** The order in which two pairs are found does not matter. */
  lemma MarkMatchedCommutes(cards: seq<Card>, a: string, b: string)
    ensures MarkMatched(MarkMatched(cards, a), b) == MarkMatched(MarkMatched(cards, b), a)
  {
  }

  /** Once every face that appears on the board has been found, the board is
      won (provided it is not empty). */
  lemma {:induction false} FindingEveryFaceWins(cards: seq<Card>, faces: seq<string>)
    requires forall i :: 0 <= i < |cards| ==> cards[i].name in faces
    ensures AllMatched(MarkEach(cards, faces))
    ensures |cards| > 0 ==> IsWon(MarkEach(cards, faces))
  {
    var r := MarkEach(cards, faces);
    forall i | 0 <= i < |r| ensures r[i].matched {
      assert cards[i].name in faces;
    }
  }

  /** A board is won only after every face on it has been found: a face
      never found leaves its cards unmatched on a freshly dealt deck. */
  lemma {:induction false} WinNeedsEveryFace(shuffled: seq<string>, faces: seq<string>, x: string)
    requires x in shuffled && x !in faces
    ensures !AllMatched(MarkEach(Deal(shuffled), faces))
  {
    DealShape(shuffled);
    var i :| 0 <= i < |shuffled| && shuffled[i] == x;
    assert Deal(shuffled)[i].name == x && !Deal(shuffled)[i].matched;
    assert !MarkEach(Deal(shuffled), faces)[i].matched;
  }
}
