/**
 * The live score bookkeeping of one attempt: per-tier counts, the hit order
 * and the bonus, updated once per judged or missed note.
 */
module ScoreCounting {
  import opened ScoreCalculator

  /** Number of occurrences of code k in s. */
  function Occurrences(s: seq<int>, k: int): nat
  {
    multiset(s)[k]
  }

  /** The sum of the six per-tier counts of s. */
  function CountSum(s: seq<int>): int
  {
    Occurrences(s, 0) + Occurrences(s, 1) + Occurrences(s, 2)
      + Occurrences(s, 3) + Occurrences(s, 4) + Occurrences(s, 5)
  }

  /** Every judgement falls in exactly one tier, so the counts add up to the
      number of judged notes. */
  lemma {:induction false} CountSumIsLength(s: seq<int>)
    requires ValidCodes(s)
    ensures CountSum(s) == |s|
  {
    if s != [] {
      var p := s[..|s| - 1];
      var x := s[|s| - 1];
      assert s == p + [x];
      assert ValidCodes(p);
      CountSumIsLength(p);
      OccurrencesSnoc(p, x);
    }
  }

  /** One more code adds one occurrence of itself and none of any other. */
  lemma OccurrencesSnoc(p: seq<int>, x: int)
    ensures forall k :: Occurrences(p + [x], k) == Occurrences(p, k) + (if k == x then 1 else 0)
  {
    assert multiset(p + [x]) == multiset(p) + multiset{x};
  }

  class ScoreCounter {
    /** scores[k] is the number of judgements with code k. */
    const scores: array<int>
    /** The judgement codes in hit order; entries from noteIndex on are still 0. */
    const scoresHitOrder: array<int>
    /** Fixed at construction from the total object count. */
    const halfNoteRatio: Float
    /** The number of notes judged so far. */
    var noteIndex: nat
    /** The live bonus. */
    var bonus: int

    /** The codes judged so far, in order: the filled prefix of scoresHitOrder. */
    ghost var hitOrder: seq<int>

    ghost predicate Valid()
      reads this, scores, scoresHitOrder
    {
      && scores.Length == 6
      && scores != scoresHitOrder
      && noteIndex == |hitOrder| <= scoresHitOrder.Length
      && scoresHitOrder[..noteIndex] == hitOrder
      && ValidCodes(hitOrder)
      && (forall k :: 0 <= k < 6 ==> scores[k] == Occurrences(hitOrder, k))
      && (forall i :: noteIndex <= i < scoresHitOrder.Length ==> scoresHitOrder[i] == 0)
      && bonus == BonusAfter(hitOrder)
      && halfNoteRatio == CalculateHalfNoteRatio(scoresHitOrder.Length)
    }

    /** A counter for a beatmap of totalObjects notes. */
    constructor (totalObjects: nat)
      ensures Valid() && fresh(scores) && fresh(scoresHitOrder)
      ensures scoresHitOrder.Length == totalObjects && noteIndex == 0
      ensures scores[..] == [0, 0, 0, 0, 0, 0] && bonus == 100
      ensures halfNoteRatio == CalculateHalfNoteRatio(totalObjects)
    {
      scores := new int[6](_ => 0);
      scoresHitOrder := new int[totalObjects](_ => 0);
      halfNoteRatio := CalculateHalfNoteRatio(totalObjects);
      noteIndex := 0;
      bonus := 100;
      hitOrder := [];
      new;
      assert scores[..] == [0, 0, 0, 0, 0, 0];
    }

    /** Records one judgement. The hit-order array is sized once, so at most
        scoresHitOrder.Length judgements fit. */
    method Hit(hit: int)
      requires Valid() && IsCode(hit) && noteIndex < scoresHitOrder.Length
      modifies this`noteIndex, this`bonus, this`hitOrder, scores, scoresHitOrder
      ensures Valid()
      ensures noteIndex == old(noteIndex) + 1
      ensures hitOrder == old(hitOrder) + [hit]
      ensures scoresHitOrder[old(noteIndex)] == hit
      ensures forall i :: 0 <= i < scoresHitOrder.Length && i != old(noteIndex) ==> scoresHitOrder[i] == old(scoresHitOrder[i])
      ensures scores[hit] == old(scores[hit]) + 1
      ensures forall k :: 0 <= k < 6 && k != hit ==> scores[k] == old(scores[k])
      ensures bonus == CalculateNewBonus(old(bonus), hit)
      ensures 0 <= bonus <= 100
    {
      var at := noteIndex;
      scoresHitOrder[at] := hit;
      assert scoresHitOrder[..at + 1] == scoresHitOrder[..at] + [hit];
      assert scoresHitOrder[..at] == old(scoresHitOrder[..at]);
      scores[hit] := scores[hit] + 1;
      noteIndex := at + 1;
      hitOrder := hitOrder + [hit];
      assert multiset(hitOrder) == multiset(old(hitOrder)) + multiset{hit};
      bonus := CalculateNewBonus(bonus, hit);
    }

    /** The counts add up to the number of judged notes. */
    lemma CountsAddUp()
      requires Valid()
      ensures scores[0] + scores[1] + scores[2] + scores[3] + scores[4] + scores[5] == noteIndex
    {
      CountSumIsLength(hitOrder);
    }

    /** The end-of-game replay reads the whole hit-order array, and the
        slots of the notes not yet judged hold 0, the Max code: replayed
        before every note is judged, each unjudged note counts as a Max. */
    lemma ReplayCreditsUnjudgedAsMax()
      requires Valid()
      ensures scoresHitOrder[..] == hitOrder + AllMax(scoresHitOrder.Length - noteIndex)
    {
      var tail := scoresHitOrder[noteIndex..];
      assert scoresHitOrder[..] == scoresHitOrder[..noteIndex] + tail;
      assert forall i :: 0 <= i < |tail| ==> tail[i] == scoresHitOrder[noteIndex + i];
      assert tail == AllMax(scoresHitOrder.Length - noteIndex);
    }

    /** Once every note is judged, the end-of-game replay over the whole
        hit-order array gives back the live bonus. */
    lemma ReplayMatchesLive()
      requires Valid() && noteIndex == scoresHitOrder.Length
      ensures ValidCodes(scoresHitOrder[..])
      ensures BonusAfter(scoresHitOrder[..]) == bonus
    {
      assert scoresHitOrder[..] == hitOrder;
    }
  }
}
