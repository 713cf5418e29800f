/**
 * The best-results ledger of the memory game (src/Game/GameBoard.js):
 * per difficulty tier, the best completed (moves, time) pair, or none yet.
 */
module BestResults {

  import opened Wrappers

  /** A completed game: how many comparisons were resolved and how many
      seconds had elapsed. */
  datatype Score = Score(moves: nat, time: nat)

  /** The keys of the ledger object: the three tier labels, and the key
      `undefined` becomes when no label is chosen. */
  datatype Tier = Easy | Medium | Hard | Undefined

  /** The ledger object, keyed by tier; a missing key reads as `null`. */
  type Ledger = map<Tier, Option<Score>>

  /** The ledger before any game is won: every tier empty. */
  const InitialLedger: Ledger := map[Easy := None, Medium := None, Hard := None]

  /** `a` is strictly better than `b`: fewer moves, or as many moves in less
      time. */
  predicate Better(a: Score, b: Score)
  {
    a.moves < b.moves || (a.moves == b.moves && a.time < b.time)
  }

  /** The ledger key of a difficulty value.  A value other than 1, 2 or 3
      leaves the label undefined, and the entry is stored under the key
      "undefined". */
  function TierLabel(difficulty: int): (tier: Tier)
    ensures tier == Easy <==> difficulty == 1
    ensures tier == Medium <==> difficulty == 2
    ensures tier == Hard <==> difficulty == 3
    ensures tier == Undefined <==> difficulty !in {1, 2, 3}
  {
    if difficulty == 1 then Easy
    else if difficulty == 2 then Medium
    else if difficulty == 3 then Hard
    else Undefined
  }

  function Current(ledger: Ledger, tier: Tier): (entry: Option<Score>)
  {
    if tier in ledger then ledger[tier] else None
  }

  /** Records the just-won `score` under the tier.  The entry is replaced
      exactly when the tier had no entry or the score is strictly better;
      afterwards the entry is at least as good as both the old entry and
      the score, and every other tier is untouched. */
  function UpdateBest(ledger: Ledger, tier: Tier, score: Score): (r: Ledger)
    ensures Current(r, tier).Some?
    ensures Current(r, tier) != Current(ledger, tier) <==>
              Current(ledger, tier).None? || Better(score, Current(ledger, tier).value)
    ensures Current(r, tier) == Current(ledger, tier) || Current(r, tier) == Some(score)
    ensures !Better(score, Current(r, tier).value)
    ensures Current(ledger, tier).Some? ==>
              !Better(Current(ledger, tier).value, Current(r, tier).value)
    ensures forall k :: k != tier ==> (k in r <==> k in ledger)
    ensures forall k :: k != tier && k in ledger ==> r[k] == ledger[k]
  {
    var currentBest := Current(ledger, tier);
    if currentBest.None? || Better(score, currentBest.value) then
      ledger[tier := Some(score)]
    else
      ledger
  }

  /** The ledger after the wins `scores` of one tier, in order. */
  function Replay(ledger: Ledger, tier: Tier, scores: seq<Score>): (r: Ledger)
    decreases |scores|
  {
    if scores == [] then ledger else Replay(UpdateBest(ledger, tier, scores[0]), tier, scores[1..])
  }

  /** Better is a strict total order on distinct scores. */
  lemma BetterIsStrictTotal(a: Score, b: Score, c: Score)
    ensures !Better(a, a)
    ensures Better(a, b) && Better(b, c) ==> Better(a, c)
    ensures a != b ==> Better(a, b) || Better(b, a)
    ensures !(Better(a, b) && Better(b, a))
  {
  }

  /** After any sequence of wins the tier holds the best of them (and of
      what it held before): some recorded score that no win beats, while
      every other tier is unchanged. */
  lemma {:induction false} ReplayKeepsBest(ledger: Ledger, tier: Tier, scores: seq<Score>)
    ensures var r := Replay(ledger, tier, scores);
      (forall s :: s in scores ==> Current(r, tier).Some? && !Better(s, Current(r, tier).value)) &&
      (Current(ledger, tier).Some? ==>
         Current(r, tier).Some? && !Better(Current(ledger, tier).value, Current(r, tier).value)) &&
      (Current(r, tier) == Current(ledger, tier) ||
         (Current(r, tier).Some? && Current(r, tier).value in scores)) &&
      (forall k :: k != tier ==> (k in r <==> k in ledger)) &&
      (forall k :: k != tier && k in ledger ==> r[k] == ledger[k])
    decreases |scores|
  {
    if scores != [] {
      var next := UpdateBest(ledger, tier, scores[0]);
      ReplayKeepsBest(next, tier, scores[1..]);
      assert scores == [scores[0]] + scores[1..];
    }
  }
}
