/**
 * The player ledger: a player's history of turn scores and the streak of zero-score
 * turns that turns a third consecutive zero into a penalty.
 */
module Ledger {

  /** The entry recorded instead of a third consecutive zero. */
  const Penalty := -300

  /** The number of consecutive zero scores that earns the penalty. */
  const ZilchLimit := 3

  /** The number of zero entries at the end of a history. */
  function TrailingZeros(scores: seq<int>): (n: nat)
    ensures n <= |scores|
  {
    if scores == [] || scores[|scores| - 1] != 0 then 0
    else 1 + TrailingZeros(scores[..|scores| - 1])
  }

  /** Positions `i`, `i + 1` and `i + 2` of the history all hold zero. */
  predicate ZeroRunAt(scores: seq<int>, i: int)
    requires 0 <= i && i + 2 < |scores|
  {
    scores[i] == 0 && scores[i + 1] == 0 && scores[i + 2] == 0
  }

  /** The history never holds three zero entries at consecutive positions. */
  ghost predicate NoZilchRun(scores: seq<int>) {
    forall i | 0 <= i && i + 2 < |scores| :: !ZeroRunAt(scores, i)
  }

  /** A history ending in two zeros has at least two trailing zeros. */
  lemma TwoTrailingZeros(scores: seq<int>)
    ensures |scores| >= 2 && scores[|scores| - 2] == 0 && scores[|scores| - 1] == 0 ==>
      TrailingZeros(scores) >= 2
  {
    if |scores| >= 2 {
      var init := scores[..|scores| - 1];
      assert init[|init| - 1] == scores[|scores| - 2];
    }
  }

  /** A history with `ZilchLimit` trailing zeros ends in a run of three zeros. */
  lemma TrailingZerosRun(scores: seq<int>)
    requires |scores| >= ZilchLimit
    ensures TrailingZeros(scores) >= ZilchLimit ==> ZeroRunAt(scores, |scores| - 3)
  {
    var n := |scores|;
    var s1 := scores[..n - 1];
    var s2 := s1[..n - 2];
    assert s1[n - 2] == scores[n - 2];
    assert s2[n - 3] == scores[n - 3];
    assert TrailingZeros(scores) <= 1 + TrailingZeros(s1) <= 2 + TrailingZeros(s2);
    assert scores[n - 1] != 0 ==> TrailingZeros(scores) == 0;
    assert s1[n - 2] != 0 ==> TrailingZeros(s1) == 0;
    assert s2[n - 3] != 0 ==> TrailingZeros(s2) == 0;
  }

  /**
   * In a history free of zilch runs no prefix ends in `ZilchLimit` zeros: the streak
   * of zeros at every earlier moment was below the limit.
   */
  lemma NoZilchRunPrefixes(scores: seq<int>, k: int)
    requires NoZilchRun(scores)
    requires 0 <= k <= |scores|
    ensures TrailingZeros(scores[..k]) < ZilchLimit
  {
    var prefix := scores[..k];
    if k >= ZilchLimit {
      TrailingZerosRun(prefix);
      assert !ZeroRunAt(scores, k - 3);
      assert ZeroRunAt(prefix, k - 3) == ZeroRunAt(scores, k - 3);
    }
  }

  class Player {
    const name: string
    var scores: seq<int>
    var zilchStreak: int

    /**
     * The streak counts the zeros at the end of the history, and the history never
     * holds three zeros in a row.
     */
    ghost predicate Valid()
      reads this
    {
      zilchStreak == TrailingZeros(scores) && NoZilchRun(scores)
    }

    constructor (name: string)
      ensures Valid()
      ensures this.name == name && scores == [] && zilchStreak == 0
    {
      this.name := name;
      scores := [];
      zilchStreak := 0;
    }

    /**
     * Records the score of one finished turn. A zero extends the streak, anything else
     * ends it; a zero that would be the third in a row is recorded as `Penalty`
     * instead, the streak restarts and the call reports it.
     */
    method AddScore(score: int) returns (penalty: bool)
      requires Valid()
      modifies this
      ensures Valid()
      ensures penalty <==> score == 0 && old(zilchStreak) == ZilchLimit - 1
      ensures scores == old(scores) + [if penalty then Penalty else score]
      ensures zilchStreak == if score == 0 && !penalty then old(zilchStreak) + 1 else 0
      ensures 0 <= zilchStreak < ZilchLimit
    {
      ghost var before := scores;
      NoZilchRunPrefixes(scores, |scores|);
      assert scores[..|scores|] == scores;
      TwoTrailingZeros(scores);
      if score == 0 {
        zilchStreak := zilchStreak + 1;
      } else {
        zilchStreak := 0;
      }

      if zilchStreak < ZilchLimit {
        scores := scores + [score];
        penalty := false;
      } else {
        scores := scores + [Penalty];
        zilchStreak := 0;
        penalty := true;
      }
      assert scores[..|scores| - 1] == before;
      forall i | 0 <= i && i + 2 < |scores| ensures !ZeroRunAt(scores, i) {
        if i + 2 < |before| {
          assert ZeroRunAt(scores, i) == ZeroRunAt(before, i);
        }
      }
    }
  }

  /**
   * Three zero-score turns in a row from a fresh streak leave two zeros and one
   * penalty in the history, and a fresh streak.
   */
  method ThreeZilches(p: Player) returns (penalties: seq<bool>)
    requires p.Valid() && p.zilchStreak == 0
    modifies p
    ensures p.Valid()
    ensures p.scores == old(p.scores) + [0, 0, Penalty]
    ensures p.zilchStreak == 0
    ensures penalties == [false, false, true]
  {
    ghost var history := p.scores;
    var first := p.AddScore(0);
    var second := p.AddScore(0);
    var third := p.AddScore(0);
    penalties := [first, second, third];
    assert p.scores == history + [0] + [0] + [Penalty];
    assert history + [0] + [0] + [Penalty] == history + [0, 0, Penalty];
  }
}
