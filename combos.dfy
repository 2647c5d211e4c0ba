/**
 * The closed set of scoring combinations of the dice game, their point values, and
 * the two sums the game takes over a list of combinations: the total score and the
 * number of dice the combinations consume.
 */
module Combos {
  import opened Wrappers
  import opened Sequences

  /** One scoring combination; only `Group` and `Singles` carry a face and a count. */
  datatype Combo =
    | NoScoringDice
    | ThreePairs
    | OneOfEach
    | Group(number: int, count: int)
    | Singles(number: int, count: int)

  /** The error `Singles.score` raises for a face other than 1 and 5. */
  datatype ScoreError = InvalidSingles(number: int)

  function Pow2(k: nat): (r: nat)
    ensures r >= 1
  {
    if k == 0 then 1 else 2 * Pow2(k - 1)
  }

  /**
   * A combination whose score is an integer: a group of fewer than three dice would
   * make the doubling exponent negative. The scoring engine never builds one.
   */
  predicate Scorable(c: Combo) {
    c.Group? ==> c.count >= 3
  }

  /** The value of a group of exactly three dice of face `number`. */
  function GroupBase(number: int): int {
    if number != 1 then number * 100 else 1000
  }

  /** The points of one combination; only a `Singles` of a face other than 1 or 5 fails. */
  function Score(c: Combo): (r: Result<int, ScoreError>)
    requires Scorable(c)
    ensures r.Err? <==> c.Singles? && c.number != 1 && c.number != 5
    ensures r.Err? ==> r.error == InvalidSingles(c.number)
  {
    match c
    case NoScoringDice => Ok(500)
    case ThreePairs => Ok(1500)
    case OneOfEach => Ok(1500)
    case Group(number, count) => Ok(GroupBase(number) * Pow2(count - 3))
    case Singles(number, count) =>
      if number == 1 then Ok(100 * count)
      else if number == 5 then Ok(50 * count)
      else Err(InvalidSingles(number))
  }

  /**
   * The sum of the scores of a list of combinations, evaluated left to right: the
   * first combination that fails makes the whole sum fail with its error.
   */
  function TotalScore(combos: seq<Combo>): (r: Result<int, ScoreError>)
    requires forall c | c in combos :: Scorable(c)
    ensures r.Ok? <==> forall c | c in combos :: Score(c).Ok?
  {
    if combos == [] then Ok(0)
    else
      match Score(combos[0])
      case Err(e) => Err(e)
      case Ok(v) =>
        match TotalScore(combos[1..])
        case Err(e) => Err(e)
        case Ok(rest) => Ok(v + rest)
  }

  /** A failing total carries the error of the first combination that fails. */
  lemma {:induction false} TotalScoreFirstError(combos: seq<Combo>)
    requires forall c | c in combos :: Scorable(c)
    requires TotalScore(combos).Err?
    ensures exists i | 0 <= i < |combos| ::
      Score(combos[i]) == Err(TotalScore(combos).error) && forall j | 0 <= j < i :: Score(combos[j]).Ok?
  {
    if Score(combos[0]).Err? {
      assert Score(combos[0]) == Err(TotalScore(combos).error);
    } else {
      var tail := combos[1..];
      assert forall c | c in tail :: c in combos;
      TotalScoreFirstError(tail);
      var i :| 0 <= i < |tail| && Score(tail[i]) == Err(TotalScore(tail).error)
        && forall j | 0 <= j < i :: Score(tail[j]).Ok?;
      assert Score(combos[i + 1]) == Err(TotalScore(combos).error);
      forall j | 0 <= j < i + 1 ensures Score(combos[j]).Ok? {
        if j > 0 { assert combos[j] == tail[j - 1]; }
      }
    }
  }

  /** The dice a combination consumes: its count for `Group` and `Singles`, else none. */
  function Consumed(c: Combo): int {
    if c.Group? || c.Singles? then c.count else 0
  }

  /** The number of dice the `Group` and `Singles` entries of a list consume: the sum of their counts. */
  function UsedDice(combos: seq<Combo>): int {
    if combos == [] then 0 else Consumed(combos[0]) + UsedDice(combos[1..])
  }

  /**
   * A list without `Group` and `Singles` entries consumes no dice, and when their counts
   * are not negative the list consumes at least each entry's count.
   */
  lemma {:induction false} UsedDiceBounds(combos: seq<Combo>)
    ensures (forall c | c in combos :: !(c.Group? || c.Singles?)) ==> UsedDice(combos) == 0
    ensures (forall c | c in combos && (c.Group? || c.Singles?) :: c.count >= 0) ==>
      && 0 <= UsedDice(combos)
      && forall c | c in combos && (c.Group? || c.Singles?) :: c.count <= UsedDice(combos)
  {
    if combos != [] {
      assert forall c | c in combos[1..] :: c in combos;
      UsedDiceBounds(combos[1..]);
    }
  }

  /** A group scores its base for three dice and doubles with each further die. */
  lemma GroupScoreDoubles(number: int, count: int)
    requires count >= 3
    ensures Score(Group(number, 3)) == Ok(if number == 1 then 1000 else number * 100)
    ensures Score(Group(number, count + 1)).value == 2 * Score(Group(number, count)).value
  {
    assert Pow2(count + 1 - 3) == 2 * Pow2(count - 3);
  }

  /** A group of `count` dice scores `base * 2^(count - 3)`, for every count from three to six. */
  lemma GroupScoreTable(number: int)
    ensures var base := if number == 1 then 1000 else number * 100;
      && Score(Group(number, 3)) == Ok(base)
      && Score(Group(number, 4)) == Ok(2 * base)
      && Score(Group(number, 5)) == Ok(4 * base)
      && Score(Group(number, 6)) == Ok(8 * base)
  {
    assert Pow2(1) == 2 && Pow2(2) == 4 && Pow2(3) == 8;
  }

  /** Singles of ones score 100 per die, of fives 50 per die; every other face fails. */
  lemma SinglesScore(number: int, count: int)
    ensures number == 1 ==> Score(Singles(number, count)) == Ok(100 * count)
    ensures number == 5 ==> Score(Singles(number, count)) == Ok(50 * count)
    ensures number != 1 && number != 5 ==> Score(Singles(number, count)) == Err(InvalidSingles(number))
  {
  }

  /** A group of a real die face, or a non-empty singles, is worth a positive number of points. */
  lemma ScorePositive(c: Combo)
    requires Scorable(c) && Score(c).Ok?
    requires c.Group? ==> c.number >= 1
    requires c.Singles? ==> c.count >= 1
    ensures Score(c).value > 0
  {
    if c.Group? {
      assert GroupBase(c.number) >= 100;
      assert Pow2(c.count - 3) >= 1;
    }
  }

  /** The total splits over concatenation, keeping the first error. */
  lemma {:induction false} TotalScoreAppend(a: seq<Combo>, b: seq<Combo>)
    requires forall c | c in a + b :: Scorable(c)
    ensures TotalScore(a + b) ==
      match TotalScore(a)
      case Err(e) => Err(e)
      case Ok(x) => match TotalScore(b) case Err(e) => Err(e) case Ok(y) => Ok(x + y)
  {
    if a == [] {
      assert a + b == b;
    } else {
      assert (a + b)[0] == a[0];
      assert (a + b)[1..] == a[1..] + b;
      TotalScoreAppend(a[1..], b);
    }
  }

  /** Over combinations that all score, the total of a concatenation is the sum of the totals. */
  lemma TotalScoreAppendOk(a: seq<Combo>, b: seq<Combo>)
    requires forall c | c in a + b :: Scorable(c) && Score(c).Ok?
    ensures TotalScore(a + b) == Ok(TotalScore(a).value + TotalScore(b).value)
  {
    TotalScoreAppend(a, b);
  }

  /** Moving one combination to the front of a list that scores does not change its total. */
  lemma TotalScoreSplice(left: seq<Combo>, x: Combo, right: seq<Combo>)
    requires forall c | c in left + ([x] + right) :: Scorable(c) && Score(c).Ok?
    ensures TotalScore(left + ([x] + right)) == Ok(Score(x).value + TotalScore(left + right).value)
  {
    assert forall c | c in left + right :: c in left + ([x] + right);
    TotalScoreAppendOk(left, right);
    TotalScoreAppendOk(left, [x] + right);
    TotalScoreAppendOk([x], right);
  }

  /** A total that does not fail is the same for every ordering of the list. */
  lemma {:induction false} TotalScorePermutation(a: seq<Combo>, b: seq<Combo>)
    requires forall c | c in a :: Scorable(c) && Score(c).Ok?
    requires multiset(a) == multiset(b)
    ensures forall c | c in b :: Scorable(c)
    ensures TotalScore(b) == TotalScore(a)
    decreases |a|
  {
    SameMultisetSameMembers(a, b);
    if a == [] {
      assert |b| == |multiset(b)| == 0;
    } else {
      var x := a[0];
      assert x in multiset(b);
      var i :| 0 <= i < |b| && b[i] == x;
      var left, right := b[..i], b[i + 1..];
      RemoveMatching(a, b, i);
      var rest := a[1..];
      assert forall c | c in rest :: c in a;
      TotalScorePermutation(rest, left + right);
      TotalScoreSplice(left, x, right);
      calc {
        TotalScore(b);
        TotalScore(left + ([x] + right));
        Ok(Score(x).value + TotalScore(left + right).value);
        Ok(Score(x).value + TotalScore(rest).value);
        TotalScore(a);
      }
    }
  }

  /** The consumed dice of a concatenation add up. */
  lemma {:induction false} UsedDiceAppend(a: seq<Combo>, b: seq<Combo>)
    ensures UsedDice(a + b) == UsedDice(a) + UsedDice(b)
  {
    if a == [] {
      assert a + b == b;
    } else {
      assert (a + b)[1..] == a[1..] + b;
      UsedDiceAppend(a[1..], b);
    }
  }

  /** The consumed dice do not depend on the order of the list. */
  lemma {:induction false} UsedDicePermutation(a: seq<Combo>, b: seq<Combo>)
    requires multiset(a) == multiset(b)
    ensures UsedDice(a) == UsedDice(b)
    decreases |a|
  {
    if a == [] {
      assert |b| == |multiset(b)| == 0;
    } else {
      var x := a[0];
      assert x in multiset(b);
      var i :| 0 <= i < |b| && b[i] == x;
      var rest := b[..i] + b[i + 1..];
      RemoveMatching(a, b, i);
      assert [x][1..] == [];
      UsedDicePermutation(a[1..], rest);
      UsedDiceAppend(b[..i], [x] + b[i + 1..]);
      UsedDiceAppend([x], b[i + 1..]);
      UsedDiceAppend(b[..i], b[i + 1..]);
    }
  }

  /**
   * A list of combinations each worth a positive number of points has a non-negative
   * total, and the total is zero exactly when the list is empty.
   */
  lemma {:induction false} TotalScoreOfPositives(combos: seq<Combo>)
    requires forall c | c in combos :: Scorable(c) && Score(c).Ok? && Score(c).value > 0
    ensures TotalScore(combos).Ok?
    ensures TotalScore(combos).value >= 0
    ensures TotalScore(combos).value == 0 <==> combos == []
  {
    if combos != [] {
      assert combos[0] in combos;
      TotalScoreOfPositives(combos[1..]);
    }
  }
}
