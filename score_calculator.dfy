/**
 * The scoring rules of the game: the bonus recurrence, the accuracy ratio,
 * the half note ratio and the per-hit score, plus the end-of-game replay of
 * the hit order. Judgement codes are 0 (Max), 1 (Great), 2 (Cool), 3 (Good),
 * 4 (Bad) and 5 (Poor).
 */
module ScoreCalculator {

  /** A double-precision result: a finite value, or the IEEE value that a
      division by zero yields in the source (+Infinity or NaN). */
  datatype Float = Num(value: real) | Inf | NaN

  /** The score budget of a whole beatmap. */
  const MAX_SCORE: int := 1000000

  /** A judgement code. */
  predicate IsCode(hit: int) { 0 <= hit <= 5 }

  predicate ValidCodes(s: seq<int>) { forall i :: 0 <= i < |s| ==> IsCode(s[i]) }

  /** Base value of each judgement. */
  function HitValue(hit: int): int
    requires IsCode(hit)
  {
    [320, 300, 200, 100, 50, 0][hit]
  }

  /** Weight of the square root of the bonus for each judgement. */
  function HitBonusValue(hit: int): int
    requires IsCode(hit)
  {
    [32, 32, 16, 8, 4, 0][hit]
  }

  /** Step applied to the bonus by each judgement. */
  function HitBonus(hit: int): int
    requires IsCode(hit)
  {
    [2, 1, -8, -24, -44, -100][hit]
  }

  /** Clamps val into [min, max] (min is checked first, as in the source). */
  function Range(min: int, max: int, val: int): (r: int)
    ensures min <= max ==> min <= r <= max
    ensures min <= val <= max ==> r == val
    ensures val < min ==> r == min
    ensures min <= max < val ==> r == max
  {
    if val < min then min else if val > max then max else val
  }

  /** The two examples the source documents for range. */
  lemma RangeExamples()
    ensures Range(0, 10, 29) == 10 && Range(0, 10, 5) == 5
  {
  }

  /** The bonus after one more judgement. */
  function CalculateNewBonus(bonus: int, hit: int): (r: int)
    requires IsCode(hit)
    ensures 0 <= r <= 100
    ensures 0 <= bonus + HitBonus(hit) <= 100 ==> r == bonus + HitBonus(hit)
    ensures hit == 5 && bonus <= 100 ==> r == 0
    ensures hit == 0 && bonus == 100 ==> r == 100
  {
    Range(0, 100, bonus + HitBonus(hit))
  }

  /** The bonus after the judgements s, starting from 100. */
  function BonusAfter(s: seq<int>): int
    requires ValidCodes(s)
  {
    if s == [] then 100 else CalculateNewBonus(BonusAfter(s[..|s| - 1]), s[|s| - 1])
  }

  /** The numerator of the accuracy ratio. */
  function AccuracyTotal(scores: seq<int>): int
    requires |scores| == 6
  {
    300 * (scores[0] + scores[1]) + 200 * scores[2] + 100 * scores[3] + 50 * scores[4]
  }

  /** The denominator of the accuracy ratio: 300 per judged note. */
  function AccuracyDivider(scores: seq<int>): int
    requires |scores| == 6
  {
    300 * (scores[0] + scores[1] + scores[2] + scores[3] + scores[4] + scores[5])
  }

  predicate NonNegative(scores: seq<int>) { forall k :: 0 <= k < |scores| ==> scores[k] >= 0 }

  /** Accuracy from the per-tier counts; 0/0 is NaN when nothing was judged. */
  function CalculateAccuracy(scores: seq<int>): (r: Float)
    requires |scores| == 6 && NonNegative(scores)
    ensures r.NaN? <==> scores == [0, 0, 0, 0, 0, 0]
    ensures !r.Inf?
    ensures r.Num? ==> 0.0 <= r.value <= 1.0
  {
    var total := AccuracyTotal(scores);
    var divider := AccuracyDivider(scores);
    AccuracyBounds(scores);
    if divider == 0 then NaN
    else
      UnitQuotient(total as real, divider as real);
      Num(total as real / divider as real)
  }

  lemma UnitQuotient(t: real, d: real)
    requires 0.0 <= t <= d && d > 0.0
    ensures 0.0 <= t / d <= 1.0
  {
    assert t / d * d == t;
  }

  /** The numerator never exceeds the divider, and the divider is zero exactly
      when no note was judged. */
  lemma AccuracyBounds(scores: seq<int>)
    requires |scores| == 6 && NonNegative(scores)
    ensures 0 <= AccuracyTotal(scores) <= AccuracyDivider(scores)
    ensures AccuracyDivider(scores) == 0 <==> scores == [0, 0, 0, 0, 0, 0]
  {
    if AccuracyDivider(scores) == 0 {
      assert forall k :: 0 <= k < 6 ==> scores[k] == 0;
    }
  }

  /** Max and Great weigh the same, and Poor adds nothing to the numerator. */
  lemma AccuracyWeights(scores: seq<int>)
    requires |scores| == 6
    ensures AccuracyTotal(scores[0 := scores[0] + 1]) == AccuracyTotal(scores[1 := scores[1] + 1])
    ensures AccuracyTotal(scores[5 := scores[5] + 1]) == AccuracyTotal(scores)
    ensures AccuracyDivider(scores[5 := scores[5] + 1]) == AccuracyDivider(scores) + 300
  {
  }

  /** Half of the budget, shared among the notes and scaled by the Max value. */
  function CalculateHalfNoteRatio(totalNotes: int): (r: Float)
    ensures totalNotes == 0 <==> r.Inf?
    ensures totalNotes != 0 ==> r.Num? && r.value * 320.0 * totalNotes as real == MAX_SCORE as real / 2.0
  {
    if totalNotes == 0 then Inf
    else Num(MAX_SCORE as real / 2.0 / totalNotes as real / 320.0)
  }

  /** Score of one hit; rootBonus stands for the square root of the new bonus. */
  function CalculateHitScore(hnr: real, rootBonus: real, hit: int): (r: real)
    requires IsCode(hit)
    ensures hit == 5 ==> r == 0.0
    ensures hnr >= 0.0 && rootBonus >= 0.0 ==> r >= 0.0
    ensures rootBonus == 0.0 ==> r == hnr * HitValue(hit) as real
  {
    hnr * HitValue(hit) as real + hnr * HitBonusValue(hit) as real * rootBonus
  }

  /** The score of the hit order s, replayed from bonus 100, where rootOf
      gives the square root of a bonus. */
  function TotalAfter(hnr: real, rootOf: int -> real, s: seq<int>): real
    requires ValidCodes(s)
  {
    if s == [] then 0.0
    else TotalAfter(hnr, rootOf, s[..|s| - 1]) + CalculateHitScore(hnr, rootOf(BonusAfter(s)), s[|s| - 1])
  }

  /** The base part of the score of the hit order s. */
  function BaseAfter(hnr: real, s: seq<int>): real
    requires ValidCodes(s)
  {
    if s == [] then 0.0 else BaseAfter(hnr, s[..|s| - 1]) + hnr * HitValue(s[|s| - 1]) as real
  }

  /** What one more judgement adds to the replay. */
  lemma ReplayStep(hnr: real, rootOf: int -> real, s: seq<int>, i: nat)
    requires ValidCodes(s) && i < |s|
    ensures BonusAfter(s[..i + 1]) == CalculateNewBonus(BonusAfter(s[..i]), s[i])
    ensures TotalAfter(hnr, rootOf, s[..i + 1])
      == TotalAfter(hnr, rootOf, s[..i]) + CalculateHitScore(hnr, rootOf(BonusAfter(s[..i + 1])), s[i])
  {
    assert s[..i + 1][..i] == s[..i];
  }

  /** Replays the hit order, folding the bonus from 100 and adding up the hit
      scores (the final rounding is not modelled). */
  method CalculateTotal(hitOrder: seq<int>, half: real, rootOf: int -> real)
    returns (totalScore: real, bonus: int)
    requires ValidCodes(hitOrder)
    ensures bonus == BonusAfter(hitOrder) && 0 <= bonus <= 100
    ensures totalScore == TotalAfter(half, rootOf, hitOrder)
  {
    totalScore := 0.0;
    bonus := 100;
    var i := 0;
    while i < |hitOrder|
      invariant 0 <= i <= |hitOrder|
      invariant bonus == BonusAfter(hitOrder[..i])
      invariant totalScore == TotalAfter(half, rootOf, hitOrder[..i])
    {
      var hit := hitOrder[i];
      ReplayStep(half, rootOf, hitOrder, i);
      bonus := CalculateNewBonus(bonus, hit);
      totalScore := totalScore + CalculateHitScore(half, rootOf(bonus), hit);
      i := i + 1;
    }
    assert hitOrder[..i] == hitOrder;
  }

  /** The bonus stays an integer in [0, 100] for any sequence of judgements. */
  lemma {:induction false} BonusInRange(s: seq<int>)
    requires ValidCodes(s)
    ensures 0 <= BonusAfter(s) <= 100
    ensures s != [] && s[|s| - 1] == 5 ==> BonusAfter(s) == 0
    ensures (forall i :: 0 <= i < |s| ==> s[i] == 0) ==> BonusAfter(s) == 100
  {
    if s != [] {
      var p := s[..|s| - 1];
      assert ValidCodes(p);
      BonusInRange(p);
      if forall i :: 0 <= i < |s| ==> s[i] == 0 {
        assert forall i :: 0 <= i < |p| ==> p[i] == 0 by {
          forall i | 0 <= i < |p| ensures p[i] == 0 { assert p[i] == s[i]; }
        }
      }
    }
  }

  /** The sequence of n Max judgements. */
  function AllMax(n: nat): (s: seq<int>)
    ensures |s| == n && ValidCodes(s)
    ensures forall i :: 0 <= i < n ==> s[i] == 0
  {
    seq(n, i => 0)
  }

  /** The base part of an all-Max run of N > 0 notes is exactly half of the budget. */
  lemma AllMaxBaseIsHalfBudget(n: nat)
    requires n > 0
    ensures BaseAfter(CalculateHalfNoteRatio(n).value, AllMax(n)) == MAX_SCORE as real / 2.0
  {
    var hnr := CalculateHalfNoteRatio(n).value;
    BaseOfMaxRun(hnr, n);
    assert hnr * 320.0 * n as real == MAX_SCORE as real / 2.0;
    assert 320.0 * n as real * hnr == hnr * 320.0 * n as real;
  }

  lemma {:induction false} BaseOfMaxRun(hnr: real, n: nat)
    ensures BaseAfter(hnr, AllMax(n)) == 320.0 * n as real * hnr
  {
    if n > 0 {
      assert AllMax(n)[..n - 1] == AllMax(n - 1);
      BaseOfMaxRun(hnr, n - 1);
    }
  }

  /** With a root of 0, the replayed total is the base part alone, so the
      base part is what the replay computes without the bonus term. */
  lemma {:induction false} TotalZeroRootIsBase(hnr: real, rootOf: int -> real, s: seq<int>)
    requires ValidCodes(s)
    requires forall b :: rootOf(b) == 0.0
    ensures TotalAfter(hnr, rootOf, s) == BaseAfter(hnr, s)
  {
    if s != [] {
      var p := s[..|s| - 1];
      assert ValidCodes(p);
      TotalZeroRootIsBase(hnr, rootOf, p);
      assert rootOf(BonusAfter(s)) == 0.0;
    }
  }

  /** Each Max of an all-Max run is replayed at bonus 100, so with a root of
      10 for 100 it scores 320 + 32 * 10 times the ratio. */
  lemma {:induction false} TotalOfMaxRun(hnr: real, rootOf: int -> real, n: nat)
    requires rootOf(100) == 10.0
    ensures TotalAfter(hnr, rootOf, AllMax(n)) == 640.0 * n as real * hnr
  {
    if n > 0 {
      var s := AllMax(n);
      assert s[..n - 1] == AllMax(n - 1);
      TotalOfMaxRun(hnr, rootOf, n - 1);
      MaxRunBonus(n);
      MaxHitScore(hnr);
      assert TotalAfter(hnr, rootOf, s) == TotalAfter(hnr, rootOf, AllMax(n - 1)) + 640.0 * hnr;
      assert 640.0 * (n - 1) as real * hnr + 640.0 * hnr == 640.0 * n as real * hnr;
    }
  }

  /** The bonus stays at 100 along an all-Max run. */
  lemma MaxRunBonus(n: nat)
    ensures BonusAfter(AllMax(n)) == 100
  {
    BonusInRange(AllMax(n));
  }

  /** A Max at a root bonus of 10 scores 640 times the ratio. */
  lemma MaxHitScore(hnr: real)
    ensures CalculateHitScore(hnr, 10.0, 0) == 640.0 * hnr
  {
  }

  /** An all-Max run of N > 0 notes, replayed with the half note ratio of N
      and the square root of 100 being 10, totals exactly MAX_SCORE. */
  lemma AllMaxTotalIsBudget(n: nat, rootOf: int -> real)
    requires n > 0 && rootOf(100) == 10.0
    ensures TotalAfter(CalculateHalfNoteRatio(n).value, rootOf, AllMax(n)) == MAX_SCORE as real
  {
    var hnr := CalculateHalfNoteRatio(n).value;
    TotalOfMaxRun(hnr, rootOf, n);
    assert hnr * 320.0 * n as real == MAX_SCORE as real / 2.0;
    assert 640.0 * n as real * hnr == 2.0 * (hnr * 320.0 * n as real);
  }
}
