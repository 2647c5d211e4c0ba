/**
 * The scoring engine: classifies a hand of die faces into scoring combinations and
 * a count of dice that score nothing.
 */
module Hands {
  import opened Sequences
  import opened Combos

  /** The combinations found in a hand and the number of dice none of them uses. */
  datatype Scoring = Scoring(combos: seq<Combo>, unused: int)

  /** Every die shows a face from 1 to 6. */
  predicate ValidFaces(hand: seq<int>) {
    forall x | x in hand :: 1 <= x <= 6
  }

  /** The faces of a hand, each once, in the order in which they first appear. */
  function Distinct(hand: seq<int>): (faces: seq<int>)
    ensures forall x :: x in faces <==> x in hand
    ensures NoDup(faces)
    ensures |faces| <= |hand|
  {
    if hand == [] then []
    else
      var faces := Distinct(hand[..|hand| - 1]);
      var last := hand[|hand| - 1];
      assert hand == hand[..|hand| - 1] + [last];
      if last in faces then faces else faces + [last]
  }

  /** `Distinct` lists the faces in the order in which they first appear in the hand. */
  lemma {:induction false} DistinctOrder(hand: seq<int>)
    ensures forall i, j | 0 <= i < j < |Distinct(hand)| ::
      IndexOf(hand, Distinct(hand)[i]) < IndexOf(hand, Distinct(hand)[j])
  {
    if hand != [] {
      var init, last := hand[..|hand| - 1], hand[|hand| - 1];
      assert hand == init + [last];
      DistinctOrder(init);
      IndexOfSnoc(init, last);
    }
  }

  /** The number of different faces in a hand. */
  function NumFaces(hand: seq<int>): nat {
    |Distinct(hand)|
  }

  /** The number of different faces is the length of any duplicate-free list of exactly those faces. */
  lemma NumFacesOf(hand: seq<int>, faces: seq<int>)
    requires NoDup(faces)
    requires forall x :: x in faces <==> x in hand
    ensures NumFaces(hand) == |faces|
  {
    var d := Distinct(hand);
    forall x ensures x in d <==> x in faces {
      assert x in d <==> x in hand;
    }
    SameMembersSameMultiset(d, faces);
  }

  /** Every face present occurs exactly twice. */
  predicate AllPairs(counts: multiset<int>) {
    forall f | f in counts :: counts[f] == 2
  }

  /** A `Group` for each face, in the given order, that occurs at least three times. */
  function Groups(faces: seq<int>, counts: multiset<int>): (groups: seq<Combo>)
    ensures forall c | c in groups :: c.Group? && c.number in faces && c.count == counts[c.number] >= 3
    ensures forall f | f in faces && counts[f] >= 3 :: Group(f, counts[f]) in groups
    ensures NoDup(faces) ==> forall i, j | 0 <= i < j < |groups| :: groups[i].number != groups[j].number
  {
    if faces == [] then []
    else
      var earlier := Groups(faces[..|faces| - 1], counts);
      var f := faces[|faces| - 1];
      assert faces == faces[..|faces| - 1] + [f];
      if counts[f] >= 3 then earlier + [Group(f, counts[f])] else earlier
  }

  /** Groups come in the order of their faces in the list. */
  lemma {:induction false} GroupsInOrder(faces: seq<int>, counts: multiset<int>)
    requires NoDup(faces)
    ensures forall i, j | 0 <= i < j < |Groups(faces, counts)| ::
      IndexOf(faces, Groups(faces, counts)[i].number) < IndexOf(faces, Groups(faces, counts)[j].number)
  {
    if faces != [] {
      var init, f := faces[..|faces| - 1], faces[|faces| - 1];
      var earlier, groups := Groups(init, counts), Groups(faces, counts);
      assert faces == init + [f];
      assert NoDup(init) && f !in init;
      GroupsInOrder(init, counts);
      IndexOfSnoc(init, f);
      forall i, j | 0 <= i < j < |groups|
        ensures IndexOf(faces, groups[i].number) < IndexOf(faces, groups[j].number)
      {
        assert groups[i] == earlier[i] && groups[i].number in init;
        if j < |earlier| {
          assert groups[j] == earlier[j] && groups[j].number in init;
        } else {
          assert groups[j].number == f;
        }
      }
    }
  }

  /** A `Singles` for `face`, with its count, exactly when it occurs once or twice. */
  function SinglesOf(face: int, counts: multiset<int>): (r: seq<Combo>)
    ensures r == [] || r == [Singles(face, counts[face])]
    ensures r != [] <==> face in counts && counts[face] <= 2
  {
    if 1 <= counts[face] <= 2 then [Singles(face, counts[face])] else []
  }

  /**
   * The combinations of a hand that is neither six different faces nor three pairs:
   * each is a group of a face occurring three or more times, or the singles of a 1 or
   * a 5 occurring once or twice, with the face's count.
   */
  function GeneralCombos(hand: seq<int>): (r: seq<Combo>)
    ensures forall c | c in r :: GeneralMember(multiset(hand), c)
  {
    var counts := multiset(hand);
    Groups(Distinct(hand), counts) + SinglesOf(1, counts) + SinglesOf(5, counts)
  }

  /** The scoring of a hand; every combination it reports has a score. */
  function ScoreHand(hand: seq<int>): (r: Scoring)
    ensures forall c | c in r.combos :: Scorable(c) && Score(c).Ok?
  {
    var counts := multiset(hand);
    if NumFaces(hand) == 6 then Scoring([OneOfEach], 0)
    else if NumFaces(hand) == 3 && AllPairs(counts) then Scoring([ThreePairs], 0)
    else
      var combos := GeneralCombos(hand);
      if combos == [] && |hand| == 6 then Scoring([NoScoringDice], 0)
      else Scoring(combos, |hand| - UsedDice(combos))
  }

  // ---------------------------------------------------------------------------
  // Which combinations the general branch emits

  /** The combination the general branch emits for a face, if any. */
  predicate GeneralMember(counts: multiset<int>, c: Combo) {
    || (c.Group? && c.count == counts[c.number] && c.count >= 3)
    || (c.Singles? && (c.number == 1 || c.number == 5) && c.count == counts[c.number] && 1 <= c.count <= 2)
  }

  /**
   * The general branch emits a `Group` for exactly the faces occurring three or more
   * times and a `Singles` for exactly a 1 or a 5 occurring once or twice, and no face
   * yields more than one combination.
   */
  lemma GeneralCombosShape(hand: seq<int>)
    ensures forall c :: c in GeneralCombos(hand) <==> GeneralMember(multiset(hand), c)
    ensures forall c | c in GeneralCombos(hand) :: c.Group? || c.Singles?
    ensures forall i, j | 0 <= i < j < |GeneralCombos(hand)| ::
      GeneralCombos(hand)[i].number != GeneralCombos(hand)[j].number
    ensures NoDup(GeneralCombos(hand))
  {
    GeneralCombosMembers(hand);
    GeneralCombosNumbers(hand);
  }

  /** The general branch emits exactly the combinations `GeneralMember` describes. */
  lemma GeneralCombosMembers(hand: seq<int>)
    ensures forall c :: c in GeneralCombos(hand) <==> GeneralMember(multiset(hand), c)
  {
    var counts := multiset(hand);
    var groups := Groups(Distinct(hand), counts);
    var combos := GeneralCombos(hand);
    assert combos == groups + SinglesOf(1, counts) + SinglesOf(5, counts);
    forall c ensures c in combos <==> GeneralMember(counts, c) {
      if c.Group? && c.count == counts[c.number] && c.count >= 3 {
        assert c.number in multiset(hand);
        assert c == Group(c.number, counts[c.number]);
      }
    }
  }

  /** The singles of a hand are of faces occurring once or twice, and of two different faces. */
  lemma SinglesApart(counts: multiset<int>)
    ensures forall c | c in SinglesOf(1, counts) + SinglesOf(5, counts) ::
      c.Singles? && c.count == counts[c.number] <= 2
    ensures var singles := SinglesOf(1, counts) + SinglesOf(5, counts);
      |singles| <= 2 && (|singles| == 2 ==> singles[0].number != singles[1].number)
  {
  }

  /**
   * Groups of faces occurring at least three times and singles of faces occurring at
   * most twice never share a face.
   */
  lemma FacesApart(groups: seq<Combo>, singles: seq<Combo>, counts: multiset<int>)
    requires forall c | c in groups :: c.Group? && c.count == counts[c.number] >= 3
    requires forall i, j | 0 <= i < j < |groups| :: groups[i].number != groups[j].number
    requires forall c | c in singles :: c.Singles? && c.count == counts[c.number] <= 2
    requires |singles| <= 2 && (|singles| == 2 ==> singles[0].number != singles[1].number)
    ensures forall c | c in groups + singles :: c.Group? || c.Singles?
    ensures forall i, j | 0 <= i < j < |groups + singles| ::
      (groups + singles)[i].number != (groups + singles)[j].number
    ensures NoDup(groups + singles)
  {
    var combos := groups + singles;
    forall i, j | 0 <= i < j < |combos| ensures combos[i].number != combos[j].number {
      if j < |groups| {
        assert combos[i] == groups[i] && combos[j] == groups[j];
      } else if i < |groups| {
        assert combos[i] in groups && combos[j] in singles;
      } else {
        assert combos[i] == singles[i - |groups|] && combos[j] == singles[j - |groups|];
      }
    }
  }

  /** The general branch emits only groups and singles, no two about the same face. */
  lemma GeneralCombosNumbers(hand: seq<int>)
    ensures forall c | c in GeneralCombos(hand) :: c.Group? || c.Singles?
    ensures forall i, j | 0 <= i < j < |GeneralCombos(hand)| ::
      GeneralCombos(hand)[i].number != GeneralCombos(hand)[j].number
    ensures NoDup(GeneralCombos(hand))
  {
    var counts := multiset(hand);
    var groups := Groups(Distinct(hand), counts);
    var combos := GeneralCombos(hand);
    var s1, s5 := SinglesOf(1, counts), SinglesOf(5, counts);
    SinglesApart(counts);
    FacesApart(groups, s1 + s5, counts);
    assert combos == groups + s1 + s5 == groups + (s1 + s5);
  }

  /** With no face three times or more and no 1 or 5, the general branch emits nothing. */
  predicate Scoreless(counts: multiset<int>) {
    counts[1] == 0 && counts[5] == 0 && forall f | f in counts :: counts[f] < 3
  }

  /** The general branch emits nothing exactly when the hand holds no scoring dice. */
  lemma GeneralCombosEmpty(hand: seq<int>)
    ensures GeneralCombos(hand) == [] <==> Scoreless(multiset(hand))
  {
    var counts := multiset(hand);
    GeneralCombosMembers(hand);
    if !Scoreless(counts) {
      var c: Combo;
      if counts[1] != 0 {
        c := if counts[1] >= 3 then Group(1, counts[1]) else Singles(1, counts[1]);
      } else if counts[5] != 0 {
        c := if counts[5] >= 3 then Group(5, counts[5]) else Singles(5, counts[5]);
      } else {
        var f :| f in counts && counts[f] >= 3;
        c := Group(f, counts[f]);
      }
      assert GeneralMember(counts, c);
      assert c in GeneralCombos(hand);
    }
    if GeneralCombos(hand) != [] {
      var c := GeneralCombos(hand)[0];
      assert GeneralMember(counts, c);
      assert c.number in counts;
    }
  }

  // ---------------------------------------------------------------------------
  // Counting the dice the general branch consumes

  /** Whether the dice of face `f` belong to a combination of the general branch. */
  predicate FaceScores(counts: multiset<int>, f: int) {
    counts[f] >= 3 || f == 1 || f == 5
  }

  /** The number of dice in `s` whose face belongs to no combination, under `counts`. */
  function NonScoringDice(s: seq<int>, counts: multiset<int>): (n: nat)
    ensures n <= |s|
  {
    if s == [] then 0
    else NonScoringDice(s[..|s| - 1], counts) + (if FaceScores(counts, s[|s| - 1]) then 0 else 1)
  }

  /** The sum of `m[f]` over the faces `f` of `faces` that score under `counts`. */
  function ScoringCount(faces: seq<int>, m: multiset<int>, counts: multiset<int>): nat {
    if faces == [] then 0
    else
      var f := faces[|faces| - 1];
      ScoringCount(faces[..|faces| - 1], m, counts) + (if FaceScores(counts, f) then m[f] else 0)
  }

  /** Adding one die of face `x` raises the scoring count by one if `x` is listed and scores. */
  lemma {:induction false} ScoringCountAddOne(faces: seq<int>, m: multiset<int>, counts: multiset<int>, x: int)
    requires NoDup(faces)
    ensures ScoringCount(faces, m + multiset{x}, counts)
      == ScoringCount(faces, m, counts) + (if x in faces && FaceScores(counts, x) then 1 else 0)
  {
    if faces != [] {
      var init, y := faces[..|faces| - 1], faces[|faces| - 1];
      assert faces == init + [y];
      assert NoDup(init);
      assert y !in init;
      ScoringCountAddOne(init, m, counts, x);
    }
  }

  /** Summed face by face or counted die by die, the dice of a hand are all accounted for. */
  lemma {:induction false} ScoringCountPartition(hand: seq<int>, counts: multiset<int>)
    ensures ScoringCount(Distinct(hand), multiset(hand), counts) + NonScoringDice(hand, counts) == |hand|
  {
    if hand != [] {
      var init, x := hand[..|hand| - 1], hand[|hand| - 1];
      assert hand == init + [x];
      assert multiset(hand) == multiset(init) + multiset{x};
      ScoringCountPartition(init, counts);
      var faces := Distinct(init);
      ScoringCountAddOne(faces, multiset(init), counts, x);
      if x !in faces {
        assert Distinct(hand) == faces + [x];
        assert (faces + [x])[..|faces|] == faces;
        assert x !in init;
        assert multiset(hand)[x] == 1;
      }
    }
  }

  /** The dice of face `k` that a `Singles` would take, given the faces present. */
  function LowCount(faces: seq<int>, counts: multiset<int>, k: int): nat {
    if k in faces && counts[k] < 3 then counts[k] else 0
  }

  /** The groups, the singles of ones and the singles of fives together take the scoring dice. */
  lemma {:induction false} ScoringCountSplit(faces: seq<int>, counts: multiset<int>)
    requires NoDup(faces)
    ensures ScoringCount(faces, counts, counts)
      == UsedDice(Groups(faces, counts)) + LowCount(faces, counts, 1) + LowCount(faces, counts, 5)
  {
    if faces != [] {
      var init, y := faces[..|faces| - 1], faces[|faces| - 1];
      assert faces == init + [y];
      assert NoDup(init);
      assert y !in init;
      ScoringCountSplit(init, counts);
      if counts[y] >= 3 {
        UsedDiceAppend(Groups(init, counts), [Group(y, counts[y])]);
        assert UsedDice([Group(y, counts[y])]) == counts[y];
      }
    }
  }

  /** A `Singles` of face `k` takes the dice `LowCount` names. */
  lemma SinglesUsedDice(hand: seq<int>, k: int)
    ensures UsedDice(SinglesOf(k, multiset(hand))) == LowCount(Distinct(hand), multiset(hand), k)
  {
    assert k in hand <==> k in multiset(hand);
  }

  /** The dice the general branch consumes are exactly the dice whose face scores. */
  lemma GeneralUsedDice(hand: seq<int>)
    ensures UsedDice(GeneralCombos(hand)) + NonScoringDice(hand, multiset(hand)) == |hand|
  {
    var counts := multiset(hand);
    var faces := Distinct(hand);
    var groups, s1, s5 := Groups(faces, counts), SinglesOf(1, counts), SinglesOf(5, counts);
    ScoringCountSplit(faces, counts);
    ScoringCountPartition(hand, counts);
    UsedDiceAppend(groups + s1, s5);
    UsedDiceAppend(groups, s1);
    SinglesUsedDice(hand, 1);
    SinglesUsedDice(hand, 5);
  }

  // ---------------------------------------------------------------------------
  // Properties of the scoring engine

  /** A hand scores `[OneOfEach]` exactly when it shows six different faces; nothing is left unused. */
  lemma ScoreHandOneOfEach(hand: seq<int>)
    ensures ScoreHand(hand).combos == [OneOfEach] <==> NumFaces(hand) == 6
    ensures NumFaces(hand) == 6 ==> ScoreHand(hand).unused == 0
  {
  }

  /**
   * A hand scores `[ThreePairs]` exactly when it shows three different faces, each
   * twice; nothing is left unused.
   */
  lemma ScoreHandThreePairs(hand: seq<int>)
    ensures ScoreHand(hand).combos == [ThreePairs] <==> NumFaces(hand) == 3 && AllPairs(multiset(hand))
    ensures NumFaces(hand) == 3 && AllPairs(multiset(hand)) ==> ScoreHand(hand).unused == 0
  {
    GeneralCombosShape(hand);
  }

  /** Neither six different faces nor three pairs: the general rules apply. */
  predicate GeneralCase(hand: seq<int>) {
    NumFaces(hand) != 6 && !(NumFaces(hand) == 3 && AllPairs(multiset(hand)))
  }

  /**
   * `[NoScoringDice]` comes back exactly for a hand of six dice without six different
   * faces, without three pairs, and without any 1, 5 or face occurring three times.
   */
  lemma ScoreHandNoScoringDice(hand: seq<int>)
    ensures ScoreHand(hand).combos == [NoScoringDice]
      <==> |hand| == 6 && GeneralCase(hand) && Scoreless(multiset(hand))
    ensures ScoreHand(hand).combos == [NoScoringDice] ==> ScoreHand(hand).unused == 0
  {
    GeneralCombosShape(hand);
    GeneralCombosEmpty(hand);
  }

  /**
   * A hand yields no combination at all exactly when it is a scoreless hand of other
   * than six dice; then every die is unused.
   */
  lemma ScoreHandNothing(hand: seq<int>)
    ensures ScoreHand(hand).combos == []
      <==> |hand| != 6 && GeneralCase(hand) && Scoreless(multiset(hand))
    ensures ScoreHand(hand).combos == [] ==> ScoreHand(hand).unused == |hand|
  {
    GeneralCombosEmpty(hand);
  }

  /** A hand in which every face occurs exactly twice holds two dice per face. */
  lemma PairsSize(hand: seq<int>)
    requires AllPairs(multiset(hand))
    ensures |hand| == 2 * NumFaces(hand)
  {
    var d := Distinct(hand);
    forall x ensures multiset(hand)[x] == (multiset(d) + multiset(d))[x] {
      NoDupMultiplicity(d, x);
    }
    assert multiset(hand) == multiset(d) + multiset(d);
  }

  /**
   * A hand of fewer than six dice, such as the free dice once some are set aside,
   * yields no combination exactly when it holds no 1, no 5 and no face three times.
   */
  lemma ScoreHandShortNothing(hand: seq<int>)
    requires |hand| < 6
    ensures ScoreHand(hand).combos == [] <==> Scoreless(multiset(hand))
  {
    if AllPairs(multiset(hand)) {
      PairsSize(hand);
    }
    ScoreHandNothing(hand);
  }

  /**
   * Outside the three fixed-score cases the result is the general branch: a `Group`
   * for every face occurring three or more times, a `Singles` for a 1 or 5 occurring
   * once or twice, at most one combination per face, and as unused exactly the dice
   * whose face belongs to no combination.
   */
  lemma ScoreHandGeneral(hand: seq<int>)
    requires GeneralCase(hand)
    requires !(|hand| == 6 && Scoreless(multiset(hand)))
    ensures ScoreHand(hand).combos == GeneralCombos(hand)
    ensures forall c :: c in ScoreHand(hand).combos <==> GeneralMember(multiset(hand), c)
    ensures forall c | c in ScoreHand(hand).combos :: c.Group? || c.Singles?
    ensures forall i, j | 0 <= i < j < |ScoreHand(hand).combos| ::
      ScoreHand(hand).combos[i].number != ScoreHand(hand).combos[j].number
    ensures ScoreHand(hand).unused == NonScoringDice(hand, multiset(hand))
  {
    GeneralCombosShape(hand);
    GeneralCombosEmpty(hand);
    GeneralUsedDice(hand);
  }

  /**
   * `a` may come before `b` in the game's listing: groups first, in the order in which
   * their faces first appear in the hand, then singles of ones, then singles of fives.
   */
  predicate InGameOrder(hand: seq<int>, a: Combo, b: Combo) {
    && (b.Group? ==>
      && a.Group? && a.number in hand && b.number in hand
      && IndexOf(hand, a.number) < IndexOf(hand, b.number))
    && (a.Singles? ==> a.number == 1 && b.Singles? && b.number == 5)
  }

  /** Every two combinations of the list are in the game's order. */
  predicate GameOrder(hand: seq<int>, combos: seq<Combo>) {
    forall i, j | 0 <= i < j < |combos| :: InGameOrder(hand, combos[i], combos[j])
  }

  /** The groups of a hand come in the order in which their faces first appear in it. */
  lemma GroupsOrder(hand: seq<int>)
    ensures GameOrder(hand, Groups(Distinct(hand), multiset(hand)))
  {
    var faces := Distinct(hand);
    var groups := Groups(faces, multiset(hand));
    GroupsInOrder(faces, multiset(hand));
    DistinctOrder(hand);
    forall i, j | 0 <= i < j < |groups| ensures InGameOrder(hand, groups[i], groups[j]) {
      var p, q := IndexOf(faces, groups[i].number), IndexOf(faces, groups[j].number);
      assert faces[p] == groups[i].number && faces[q] == groups[j].number && p < q;
    }
  }

  /** Groups in order followed by singles of ones and then of fives are in the game's order. */
  lemma AppendOrder(hand: seq<int>, groups: seq<Combo>, singles: seq<Combo>)
    requires GameOrder(hand, groups) && forall c | c in groups :: c.Group?
    requires forall c | c in singles :: c.Singles?
    requires |singles| <= 2 && (|singles| == 2 ==> singles[0].number == 1 && singles[1].number == 5)
    ensures GameOrder(hand, groups + singles)
  {
    var combos := groups + singles;
    forall i, j | 0 <= i < j < |combos| ensures InGameOrder(hand, combos[i], combos[j]) {
      if j < |groups| {
        assert combos[i] == groups[i] && combos[j] == groups[j];
        assert InGameOrder(hand, groups[i], groups[j]);
      } else if i < |groups| {
        assert combos[i] == groups[i] && combos[j] == singles[j - |groups|];
        assert groups[i] in groups && singles[j - |groups|] in singles;
      } else {
        assert combos[i] == singles[i - |groups|] && combos[j] == singles[j - |groups|];
        assert i - |groups| == 0 && j - |groups| == 1;
        assert singles[0] in singles && singles[1] in singles;
      }
    }
  }

  /** The general branch lists its combinations in the game's order. */
  lemma GeneralCombosOrder(hand: seq<int>)
    ensures GameOrder(hand, GeneralCombos(hand))
  {
    var counts := multiset(hand);
    var groups := Groups(Distinct(hand), counts);
    var singles := SinglesOf(1, counts) + SinglesOf(5, counts);
    assert GeneralCombos(hand) == groups + singles;
    GroupsOrder(hand);
    AppendOrder(hand, groups, singles);
  }

  /** The scoring of every hand lists its combinations in the game's order. */
  lemma ScoreHandOrder(hand: seq<int>)
    ensures GameOrder(hand, ScoreHand(hand).combos)
  {
    if GeneralCase(hand) && !(|hand| == 6 && Scoreless(multiset(hand))) {
      ScoreHandGeneral(hand);
      GeneralCombosOrder(hand);
    }
  }

  /** The unused count is never negative and never exceeds the hand. */
  lemma ScoreHandUnusedBounds(hand: seq<int>)
    ensures 0 <= ScoreHand(hand).unused <= |hand|
  {
    if GeneralCase(hand) && !(|hand| == 6 && Scoreless(multiset(hand))) {
      ScoreHandGeneral(hand);
    }
  }

  /**
   * A hand outside the special cases in which one face occurs three or more times,
   * no other face does, and no other 1 or 5 is present, scores as that one group.
   */
  lemma ScoreHandSoleGroup(hand: seq<int>, f: int)
    requires GeneralCase(hand)
    requires multiset(hand)[f] >= 3
    requires forall g | g in hand && g != f :: multiset(hand)[g] < 3
    requires f != 1 ==> multiset(hand)[1] == 0
    requires f != 5 ==> multiset(hand)[5] == 0
    ensures ScoreHand(hand).combos == [Group(f, multiset(hand)[f])]
  {
    var counts := multiset(hand);
    ScoreHandGeneral(hand);
    forall c ensures GeneralMember(counts, c) <==> c == Group(f, counts[f]) {
      if c.Group? && counts[c.number] >= 3 {
        assert c.number in hand;
      }
    }
    OnlyMember(ScoreHand(hand).combos, Group(f, counts[f]));
  }

  /** A list in the game's order holding exactly two groups, `a` before `b` in that order, is `[a, b]`. */
  lemma TwoGroupsInOrder(hand: seq<int>, combos: seq<Combo>, a: Combo, b: Combo)
    requires NoDup(combos) && GameOrder(hand, combos)
    requires forall c :: c in combos <==> c == a || c == b
    requires a.Group? && b.Group? && a.number in hand && b.number in hand
    requires IndexOf(hand, a.number) < IndexOf(hand, b.number)
    ensures combos == [a, b]
  {
    SameMembersSameMultiset(combos, [a, b]);
    var x, y := combos[0], combos[1];
    assert x in combos && y in combos;
    assert InGameOrder(hand, x, y);
  }

  /**
   * A hand outside the special cases whose only scoring faces are two faces occurring
   * three or more times reports exactly their two groups.
   */
  lemma TwoGroupsReported(hand: seq<int>, f: int, g: int)
    requires GeneralCase(hand)
    requires multiset(hand)[f] >= 3 && multiset(hand)[g] >= 3
    requires forall x | x in hand && x != f && x != g :: multiset(hand)[x] < 3
    requires f != 1 && g != 1 ==> multiset(hand)[1] == 0
    requires f != 5 && g != 5 ==> multiset(hand)[5] == 0
    ensures forall c :: c in ScoreHand(hand).combos <==>
      c == Group(f, multiset(hand)[f]) || c == Group(g, multiset(hand)[g])
  {
    var counts := multiset(hand);
    ScoreHandGeneral(hand);
    forall c ensures c in ScoreHand(hand).combos <==> c == Group(f, counts[f]) || c == Group(g, counts[g]) {
      if c.Group? && counts[c.number] >= 3 {
        assert c.number in hand;
      }
    }
  }

  /**
   * A hand outside the special cases whose only scoring faces are two faces occurring
   * three or more times scores as their two groups, the face that appears first first.
   */
  lemma ScoreHandTwoGroups(hand: seq<int>, f: int, g: int)
    requires GeneralCase(hand)
    requires f in hand && g in hand && IndexOf(hand, f) < IndexOf(hand, g)
    requires multiset(hand)[f] >= 3 && multiset(hand)[g] >= 3
    requires forall x | x in hand && x != f && x != g :: multiset(hand)[x] < 3
    requires f != 1 && g != 1 ==> multiset(hand)[1] == 0
    requires f != 5 && g != 5 ==> multiset(hand)[5] == 0
    ensures ScoreHand(hand).combos == [Group(f, multiset(hand)[f]), Group(g, multiset(hand)[g])]
  {
    var counts := multiset(hand);
    TwoGroupsReported(hand, f, g);
    ScoreHandOrder(hand);
    ScoreHandNoDup(hand);
    TwoGroupsInOrder(hand, ScoreHand(hand).combos, Group(f, counts[f]), Group(g, counts[g]));
  }

  /** No combination is reported twice for a hand. */
  lemma ScoreHandNoDup(hand: seq<int>)
    ensures NoDup(ScoreHand(hand).combos)
  {
    if GeneralCase(hand) && !(|hand| == 6 && Scoreless(multiset(hand))) {
      ScoreHandGeneral(hand);
      GeneralCombosNumbers(hand);
    }
  }

  /** Reordering a hand permutes the general branch's combinations and keeps the dice they take. */
  lemma GeneralCombosPermutation(hand1: seq<int>, hand2: seq<int>)
    requires multiset(hand1) == multiset(hand2)
    ensures multiset(GeneralCombos(hand1)) == multiset(GeneralCombos(hand2))
    ensures UsedDice(GeneralCombos(hand1)) == UsedDice(GeneralCombos(hand2))
  {
    GeneralCombosShape(hand1);
    GeneralCombosShape(hand2);
    SameMembersSameMultiset(GeneralCombos(hand1), GeneralCombos(hand2));
    UsedDicePermutation(GeneralCombos(hand1), GeneralCombos(hand2));
  }

  /** Reordering a hand keeps its number of different faces. */
  lemma NumFacesPermutation(hand1: seq<int>, hand2: seq<int>)
    requires multiset(hand1) == multiset(hand2)
    ensures NumFaces(hand1) == NumFaces(hand2)
  {
    SameMultisetSameMembers(hand1, hand2);
    SameMembersSameMultiset(Distinct(hand1), Distinct(hand2));
  }

  /** Reordering a hand permutes its combinations and keeps its unused count. */
  lemma ScoringPermutation(hand1: seq<int>, hand2: seq<int>)
    requires multiset(hand1) == multiset(hand2)
    ensures multiset(ScoreHand(hand1).combos) == multiset(ScoreHand(hand2).combos)
    ensures ScoreHand(hand1).unused == ScoreHand(hand2).unused
  {
    var m := multiset(hand1);
    assert |hand1| == |m| == |hand2|;
    NumFacesPermutation(hand1, hand2);
    if GeneralCase(hand1) {
      var c1, c2 := GeneralCombos(hand1), GeneralCombos(hand2);
      GeneralCombosPermutation(hand1, hand2);
      assert |c1| == |multiset(c1)| == |multiset(c2)| == |c2|;
      assert c1 == [] <==> c2 == [];
    }
  }

  /**
   * Scoring depends only on the multiset of faces: every ordering of a hand gives the
   * same combinations (up to order), the same unused count and the same score.
   */
  lemma ScoreHandPermutation(hand1: seq<int>, hand2: seq<int>)
    requires multiset(hand1) == multiset(hand2)
    ensures multiset(ScoreHand(hand1).combos) == multiset(ScoreHand(hand2).combos)
    ensures ScoreHand(hand1).unused == ScoreHand(hand2).unused
    ensures TotalScore(ScoreHand(hand1).combos) == TotalScore(ScoreHand(hand2).combos)
  {
    ScoringPermutation(hand1, hand2);
    TotalScorePermutation(ScoreHand(hand1).combos, ScoreHand(hand2).combos);
  }

  /**
   * For real die faces every combination found is worth points: the score of a hand
   * never fails, is never negative, and is zero exactly when nothing was found.
   */
  lemma ScoreHandTotal(hand: seq<int>)
    requires ValidFaces(hand)
    ensures TotalScore(ScoreHand(hand).combos).Ok?
    ensures TotalScore(ScoreHand(hand).combos).value >= 0
    ensures TotalScore(ScoreHand(hand).combos).value == 0 <==> ScoreHand(hand).combos == []
  {
    var combos := ScoreHand(hand).combos;
    GeneralCombosMembers(hand);
    forall c | c in combos ensures Score(c).value > 0 {
      if c.Group? || c.Singles? {
        assert c in GeneralCombos(hand);
        assert c.number in multiset(hand);
      }
      ScorePositive(c);
    }
    TotalScoreOfPositives(combos);
  }

  /** A selection of real faces leaves no die unused and scores nothing only when it is empty. */
  lemma ScoreHandZero(hand: seq<int>)
    requires ValidFaces(hand)
    ensures ScoreHand(hand).unused == 0 && TotalScore(ScoreHand(hand).combos).value == 0 <==> hand == []
  {
    ScoreHandTotal(hand);
    ScoreHandNothing(hand);
    if hand == [] {
      assert NumFaces(hand) == 0;
      assert Scoreless(multiset(hand));
    }
  }
}
