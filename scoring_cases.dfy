/**
 * Worked hands: the classification the scoring engine gives to particular rolls.
 */
module ScoringCases {
  import opened Sequences
  import opened Combos
  import opened Hands

  /** Six different faces are one of each. */
  lemma OneOfEachCase()
    ensures ScoreHand([3, 5, 1, 4, 2, 6]).combos == [OneOfEach]
  {
    var hand := [3, 5, 1, 4, 2, 6];
    NumFacesOf(hand, hand);
    ScoreHandOneOfEach(hand);
  }

  /** Three different faces twice each are three pairs. */
  lemma ThreePairsCase()
    ensures ScoreHand([2, 2, 4, 4, 6, 6]).combos == [ThreePairs]
  {
    var hand := [2, 2, 4, 4, 6, 6];
    NumFacesOf(hand, [2, 4, 6]);
    ScoreHandThreePairs(hand);
  }

  /** Four of a kind and a pair are not three pairs. */
  lemma FourAndPairCase()
    ensures ScoreHand([4, 4, 4, 4, 6, 6]).combos != [ThreePairs]
  {
    var hand := [4, 4, 4, 4, 6, 6];
    NumFacesOf(hand, [4, 6]);
    ScoreHandThreePairs(hand);
  }

  /** Six dice without a scoring face score as "no scoring dice". */
  lemma NoScoringCase()
    ensures ScoreHand([2, 3, 4, 6, 2, 6]).combos == [NoScoringDice]
  {
    var hand := [2, 3, 4, 6, 2, 6];
    NumFacesOf(hand, [2, 3, 4, 6]);
    var m := multiset(hand);
    assert m[1] == 0 && m[5] == 0 && m[2] == 2 && m[3] == 1 && m[4] == 1 && m[6] == 2;
    forall f | f in m ensures m[f] < 3 {
      assert f in hand;
    }
    ScoreHandNoScoringDice(hand);
  }

  /** Five dice without a scoring face are not "no scoring dice". */
  lemma FiveDiceCase()
    ensures ScoreHand([2, 3, 4, 6, 2]).combos != [NoScoringDice]
  {
    ScoreHandNoScoringDice([2, 3, 4, 6, 2]);
  }

  /** Three of a face form one group of three. */
  lemma GroupOfThreeCase()
    ensures ScoreHand([2, 2, 2, 3, 4, 6]).combos == [Group(2, 3)]
  {
    var hand := [2, 2, 2, 3, 4, 6];
    var counts := multiset(hand);
    NumFacesOf(hand, [2, 3, 4, 6]);
    assert counts[1] == 0 && counts[5] == 0 && counts[2] == 3 && counts[3] == 1 && counts[4] == 1 && counts[6] == 1;
    ScoreHandSoleGroup(hand, 2);
  }

  /** Six of a face form one group of six. */
  lemma GroupOfSixCase()
    ensures ScoreHand([3, 3, 3, 3, 3, 3]).combos == [Group(3, 6)]
  {
    var hand := [3, 3, 3, 3, 3, 3];
    var counts := multiset(hand);
    NumFacesOf(hand, [3]);
    assert counts[3] == 6 && counts[1] == 0 && counts[5] == 0;
    ScoreHandSoleGroup(hand, 3);
  }

  /** Two groups of three are reported separately. */
  lemma TwoGroupsCase()
    ensures Group(1, 3) in ScoreHand([1, 1, 1, 6, 6, 6]).combos
    ensures Group(6, 3) in ScoreHand([1, 1, 1, 6, 6, 6]).combos
  {
    var hand := [1, 1, 1, 6, 6, 6];
    NumFacesOf(hand, [1, 6]);
    assert multiset(hand)[1] == 3 && multiset(hand)[6] == 3;
    ScoreHandGeneral(hand);
  }

  /** Ones and fives occurring once or twice are singles. */
  lemma SinglesCase()
    ensures Singles(1, 2) in ScoreHand([1, 1, 5, 4, 3, 2]).combos
    ensures Singles(5, 1) in ScoreHand([1, 1, 5, 4, 3, 2]).combos
  {
    var hand := [1, 1, 5, 4, 3, 2];
    NumFacesOf(hand, [1, 5, 4, 3, 2]);
    assert multiset(hand)[1] == 2 && multiset(hand)[5] == 1;
    ScoreHandGeneral(hand);
  }

  /** Three ones are a group, not singles, next to singles of fives. */
  lemma SinglesBesideGroupCase()
    ensures Singles(5, 2) in ScoreHand([3, 1, 1, 1, 5, 5]).combos
    ensures Singles(1, 3) !in ScoreHand([3, 1, 1, 1, 5, 5]).combos
  {
    var hand := [3, 1, 1, 1, 5, 5];
    NumFacesOf(hand, [3, 1, 5]);
    assert multiset(hand)[1] == 3 && multiset(hand)[5] == 2;
    ScoreHandGeneral(hand);
  }

  /** A group and singles of both scoring faces together. */
  lemma MixedCase()
    ensures Group(6, 3) in ScoreHand([6, 6, 6, 1, 5, 5]).combos
    ensures Singles(1, 1) in ScoreHand([6, 6, 6, 1, 5, 5]).combos
    ensures Singles(5, 2) in ScoreHand([6, 6, 6, 1, 5, 5]).combos
  {
    var hand := [6, 6, 6, 1, 5, 5];
    NumFacesOf(hand, [6, 1, 5]);
    var counts := multiset(hand);
    assert counts[6] == 3 && counts[1] == 1 && counts[5] == 2;
    assert GeneralMember(counts, Group(6, 3)) && GeneralMember(counts, Singles(1, 1)) && GeneralMember(counts, Singles(5, 2));
    ScoreHandGeneral(hand);
  }

  /** Groups are listed in the order in which their faces first appear, not by face. */
  lemma FirstAppearanceCase()
    ensures ScoreHand([6, 6, 6, 1, 1, 1]).combos == [Group(6, 3), Group(1, 3)]
  {
    var hand := [6, 6, 6, 1, 1, 1];
    var counts := multiset(hand);
    assert forall x | x in hand :: x == 6 || x == 1;
    NumFacesOf(hand, [6, 1]);
    assert counts[6] == 3 && counts[1] == 3 && counts[5] == 0;
    assert IndexOf(hand, 6) == 0 && IndexOf(hand, 1) == 3;
    ScoreHandTwoGroups(hand, 6, 1);
  }
}
