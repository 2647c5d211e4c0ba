/**
 * The turn state machine: six dice, the dice set aside this turn ("used"), the dice
 * currently selected ("picks"), the running score of the turn, and the rotation of
 * players. Randomness is injected: every step receives six candidate faces, of
 * which a roll takes those of the dice that are not used.
 */
module Turns {
  import opened Wrappers
  import opened Sequences
  import opened Combos
  import opened Hands
  import opened Ledger

  datatype State = TurnStart | TurnSelect | TurnResult

  /** The smallest turn total that may be banked. */
  const BankMin := 300

  const DiceCount := 6

  /** The positions of the six dice. */
  const Indices: set<int> := {0, 1, 2, 3, 4, 5}

  /** One key of the step result: absent, present with no value, or present with a number. */
  datatype Slot = Absent | Null | Value(v: int)

  /** The result of one step; each flag is true only when its key is present. */
  datatype StepResult = StepResult(
    zilch: bool,
    score: Slot,
    playerSwitch: bool,
    tripleZilch: bool,
    unused: Option<int>,
    banked: Slot,
    freeroll: bool)

  /** The empty result. */
  const NoResult := StepResult(false, Absent, false, false, None, Absent, false)

  /** How many of the first `n` selectors are true. */
  function SetCount(selectors: seq<bool>, n: nat): (k: nat)
    requires n <= |selectors|
    ensures k <= n
  {
    if n == 0 then 0 else SetCount(selectors, n - 1) + (if selectors[n - 1] then 1 else 0)
  }

  /** Counting from the second selector on leaves out the first selector's share. */
  lemma {:induction false} SetCountTail(selectors: seq<bool>, n: nat)
    requires 0 < n <= |selectors|
    ensures SetCount(selectors, n) == (if selectors[0] then 1 else 0) + SetCount(selectors[1..], n - 1)
  {
    if n > 1 {
      SetCountTail(selectors, n - 1);
    }
  }

  /**
   * The elements of `data` whose selector is true, in order, stopping at the shorter of
   * the two: the element at a selected position `i` lands at the number of selected
   * positions before `i`, and there are as many elements as selected positions.
   */
  function Compress(data: seq<int>, selectors: seq<bool>): (r: seq<int>)
    ensures |r| == SetCount(selectors, if |data| <= |selectors| then |data| else |selectors|)
    ensures forall i | 0 <= i < |data| && i < |selectors| && selectors[i] ::
      SetCount(selectors, i) < |r| && r[SetCount(selectors, i)] == data[i]
    ensures forall x | x in r :: x in data
    ensures r == [] <==> forall i | 0 <= i < |data| && i < |selectors| :: !selectors[i]
  {
    if data == [] || selectors == [] then []
    else
      var rest := Compress(data[1..], selectors[1..]);
      CompressCons(data, selectors, rest);
      (if selectors[0] then [data[0]] else []) + rest
  }

  /** Putting the first element, when selected, before the rest compressed keeps the elements in place. */
  lemma CompressCons(data: seq<int>, selectors: seq<bool>, rest: seq<int>)
    requires data != [] && selectors != []
    requires |rest| == SetCount(selectors[1..],
      if |data[1..]| <= |selectors[1..]| then |data[1..]| else |selectors[1..]|)
    requires forall i | 0 <= i < |data[1..]| && i < |selectors[1..]| && selectors[1..][i] ::
      SetCount(selectors[1..], i) < |rest| && rest[SetCount(selectors[1..], i)] == data[1..][i]
    ensures var r := (if selectors[0] then [data[0]] else []) + rest;
      && |r| == SetCount(selectors, if |data| <= |selectors| then |data| else |selectors|)
      && forall i | 0 <= i < |data| && i < |selectors| && selectors[i] ::
        SetCount(selectors, i) < |r| && r[SetCount(selectors, i)] == data[i]
  {
    var first := if selectors[0] then [data[0]] else [];
    SetCountTail(selectors, if |data| <= |selectors| then |data| else |selectors|);
    forall i | 0 <= i < |data| && i < |selectors| && selectors[i]
      ensures SetCount(selectors, i) < |first + rest| && (first + rest)[SetCount(selectors, i)] == data[i]
    {
      if i > 0 {
        SetCountTail(selectors, i);
        assert selectors[1..][i - 1] && data[1..][i - 1] == data[i];
      }
    }
  }

  /** The selector of each of `n` positions: whether the position is in `s`, or whether it is not. */
  function Mask(s: set<int>, n: nat, member: bool): (m: seq<bool>)
    ensures |m| == n && forall i | 0 <= i < n :: m[i] == (member == (i in s))
  {
    seq(n, i => member == (i in s))
  }

  /** The members of `s` below `n`. */
  function Below(s: set<int>, n: int): set<int> {
    set i | i in s && 0 <= i < n
  }

  /**
   * Among the first `k` positions, as many are selected by membership in `s` as `s` has
   * members below `k`, and the rest are selected by absence from it.
   */
  lemma {:induction false} MaskCount(s: set<int>, n: nat, k: nat)
    requires k <= n
    ensures SetCount(Mask(s, n, true), k) == |Below(s, k)|
    ensures SetCount(Mask(s, n, false), k) == k - |Below(s, k)|
  {
    if k > 0 {
      MaskCount(s, n, k - 1);
      if k - 1 in s {
        assert Below(s, k) == Below(s, k - 1) + {k - 1};
      } else {
        assert Below(s, k) == Below(s, k - 1);
      }
    }
  }

  /** `MaskCount` at every prefix. */
  lemma MaskCounts(s: set<int>, n: nat)
    ensures forall k | 0 <= k <= n :: SetCount(Mask(s, n, true), k) == |Below(s, k)|
    ensures forall k | 0 <= k <= n :: SetCount(Mask(s, n, false), k) == k - |Below(s, k)|
  {
    forall k | 0 <= k <= n
      ensures SetCount(Mask(s, n, true), k) == |Below(s, k)|
      ensures SetCount(Mask(s, n, false), k) == k - |Below(s, k)|
    {
      MaskCount(s, n, k);
    }
  }

  /**
   * The faces of the dice that are not used, in position order: the die at a free
   * position `i` comes after the free dice before it, and there is one face per free die.
   */
  function FreeFaces(dice: seq<int>, used: set<int>): (r: seq<int>)
    ensures |r| == |dice| - |Below(used, |dice|)|
    ensures forall i | 0 <= i < |dice| && i !in used ::
      |Below(used, i)| <= i && i - |Below(used, i)| < |r| && r[i - |Below(used, i)|] == dice[i]
  {
    MaskCounts(used, |dice|);
    Compress(dice, Mask(used, |dice|, false))
  }

  /**
   * The faces of the picked dice, in position order: the die at a picked position `i`
   * comes after the picked dice before it, and there is one face per picked die.
   */
  function PickedFaces(dice: seq<int>, picks: set<int>): (r: seq<int>)
    ensures |r| == |Below(picks, |dice|)|
    ensures forall i | 0 <= i < |dice| && i in picks ::
      |Below(picks, i)| < |r| && r[|Below(picks, i)|] == dice[i]
  {
    MaskCounts(picks, |dice|);
    Compress(dice, Mask(picks, |dice|, true))
  }

  /** Any set of positions holds at most six of them. */
  lemma PositionsBound(s: set<int>)
    requires s <= Indices
    ensures |s| <= DiceCount
    ensures |s| == DiceCount <==> s == Indices
  {
    assert Indices == s + (Indices - s);
    assert |Indices| == 6;
  }

  /**
   * Real faces stay real faces when selected, there is one face per picked die, and
   * nothing is selected only when no position is picked.
   */
  lemma PickedFacesFacts(dice: seq<int>, picks: set<int>)
    requires |dice| == DiceCount && ValidFaces(dice) && picks <= Indices
    ensures ValidFaces(PickedFaces(dice, picks))
    ensures |PickedFaces(dice, picks)| == |picks|
    ensures PickedFaces(dice, picks) == [] <==> picks == {}
  {
    assert Below(picks, DiceCount) == picks;
  }

  /** Real faces stay real faces when free, and there is one face per die not used. */
  lemma FreeFacesFacts(dice: seq<int>, used: set<int>)
    requires |dice| == DiceCount && ValidFaces(dice) && used <= Indices
    ensures ValidFaces(FreeFaces(dice, used))
    ensures |FreeFaces(dice, used)| == DiceCount - |used|
  {
    assert Below(used, DiceCount) == used;
  }

  /**
   * The scoring of a selection of real dice has a non-negative total, and it uses
   * every die and scores nothing exactly when nothing is selected.
   */
  lemma SelectionTotal(dice: seq<int>, picks: set<int>, hand: Scoring)
    requires |dice| == DiceCount && ValidFaces(dice) && picks <= Indices
    requires hand == ScoreHand(PickedFaces(dice, picks))
    ensures TotalScore(hand.combos).Ok? && TotalScore(hand.combos).value >= 0
    ensures hand.unused == 0 && TotalScore(hand.combos).value == 0 <==> picks == {}
  {
    PickedFacesFacts(dice, picks);
    ScoreHandTotal(PickedFaces(dice, picks));
    ScoreHandZero(PickedFaces(dice, picks));
  }

  class Game {
    var dice: seq<int>
    var used: set<int>
    var picks: set<int>
    var state: State
    var cumulativeScore: int
    const players: seq<Player>
    var current: Player
    var previous: Player

    /**
     * Six real dice; used and picked positions are positions; at least one die is
     * never used; the running score is not negative; both player pointers point into
     * the list of players, whose ledgers are consistent.
     */
    ghost predicate Valid()
      reads this, players
    {
      && |dice| == DiceCount && ValidFaces(dice)
      && used <= Indices && picks <= Indices && |used| < DiceCount
      && cumulativeScore >= 0
      && |players| > 0 && current in players && previous in players
      && LedgersValid()
    }

    /** Every player's ledger is consistent. */
    ghost predicate LedgersValid()
      reads players
    {
      forall p | p in players :: p.Valid()
    }

    /**
     * What the scoring `hand` of the picked dice promises: every combination has a
     * score, the total is not negative, no more dice are unused than are picked, and
     * the hand uses every die and scores nothing exactly when nothing is picked.
     */
    ghost predicate ScoresPicks(hand: Scoring)
      reads this
    {
      && (forall c | c in hand.combos :: Scorable(c))
      && TotalScore(hand.combos).Ok? && TotalScore(hand.combos).value >= 0
      && 0 <= hand.unused <= |picks|
      && (hand.unused == 0 && TotalScore(hand.combos).value == 0 <==> picks == {})
    }

    /** The scoring of the picked dice, in position order. */
    function Selection(): (r: Scoring)
      reads this
      ensures |dice| == DiceCount && ValidFaces(dice) && picks <= Indices ==> ScoresPicks(r)
    {
      var hand := ScoreHand(PickedFaces(dice, picks));
      if |dice| == DiceCount && ValidFaces(dice) && picks <= Indices then
        SelectionTotal(dice, picks, hand);
        PickedFacesFacts(dice, picks);
        ScoreHandUnusedBounds(PickedFaces(dice, picks));
        hand
      else hand
    }

    /**
     * The turn busts: dice were already set aside and the free dice score nothing,
     * which happens exactly when they hold no 1, no 5 and no face three times.
     */
    predicate Busted()
      reads this
      ensures |dice| == DiceCount && ValidFaces(dice) && used <= Indices ==>
        (Busted() <==> used != {} && Scoreless(multiset(FreeFaces(dice, used))))
    {
      var busted := used != {} && ScoreHand(FreeFaces(dice, used)).combos == [];
      if |dice| == DiceCount && ValidFaces(dice) && used <= Indices && used != {} then
        FreeFacesFacts(dice, used);
        ScoreHandShortNothing(FreeFaces(dice, used));
        busted
      else busted
    }

    /** The dice, the turn's positions and score, and both players are as they were. */
    twostate predicate TurnHeld()
      reads this, current
    {
      && dice == old(dice) && used == old(used) && picks == old(picks)
      && cumulativeScore == old(cumulativeScore)
      && current == old(current) && previous == old(previous) && unchanged(current)
    }

    /**
     * The turn passed on: the player who had it appended `entry` to their scores, the
     * turn is reset, and the player after them in the list has the turn.
     */
    twostate predicate TurnPassed(entry: int)
      reads this, players
    {
      && old(current) in players
      && old(current).scores == old(current.scores) + [entry]
      && used == {} && picks == {} && cumulativeScore == 0 && state == TurnStart && dice == old(dice)
      && previous == old(current)
      && current == players[(IndexOf(players, old(current)) + 1) % |players|]
    }

    constructor (players: seq<Player>)
      requires |players| > 0
      requires forall p | p in players :: p.Valid()
      ensures Valid()
      ensures dice == [1, 1, 1, 1, 1, 1] && used == {} && picks == {}
      ensures state == TurnStart && cumulativeScore == 0
      ensures this.players == players && current == players[0] && previous == players[|players| - 1]
    {
      dice := [1, 1, 1, 1, 1, 1];
      used := {};
      picks := {};
      state := TurnStart;
      cumulativeScore := 0;
      this.players := players;
      current := players[0];
      previous := players[|players| - 1];
    }

    /** Gives every die that is not used the face `rolls` offers for it; used dice keep theirs. */
    method Roll(rolls: seq<int>)
      requires Valid()
      requires |rolls| == DiceCount && ValidFaces(rolls)
      modifies this`dice
      ensures Valid()
      ensures |dice| == DiceCount
      ensures forall i | 0 <= i < DiceCount :: dice[i] == if i in used then old(dice[i]) else rolls[i]
    {
      var idx := 0;
      while idx < DiceCount
        invariant 0 <= idx <= DiceCount && |dice| == DiceCount
        invariant forall i | 0 <= i < DiceCount ::
          dice[i] == if i < idx && i !in used then rolls[i] else old(dice[i])
      {
        if idx !in used {
          dice := dice[idx := rolls[idx]];
        }
        idx := idx + 1;
      }
      assert forall x | x in dice :: x in old(dice) || x in rolls;
    }

    /** Records the score of the finished turn in the current player's ledger. */
    method Record(score: int) returns (penalty: bool)
      requires Valid()
      modifies current
      ensures Valid()
      ensures penalty <==> score == 0 && old(current.zilchStreak) == ZilchLimit - 1
      ensures current.scores == old(current.scores) + [if penalty then Penalty else score]
      ensures current.zilchStreak == if score == 0 && !penalty then old(current.zilchStreak) + 1 else 0
    {
      penalty := current.AddScore(score);
    }

    /** Passes the turn to the player after the current one, wrapping around. */
    method NextPlayer()
      requires Valid()
      modifies this`current, this`previous
      ensures Valid()
      ensures previous == old(current)
      ensures current == players[(IndexOf(players, old(current)) + 1) % |players|]
    {
      var idx := IndexOf(players, current);
      previous := current;
      current := players[(idx + 1) % |players|];
    }

    /** Adds die `i` to the selection. */
    method Pick(i: int)
      requires Valid() && 0 <= i < DiceCount
      modifies this`picks
      ensures Valid()
      ensures picks == old(picks) + {i}
    {
      picks := picks + {i};
    }

    /** Removes die `i` from the selection; fails, changing nothing, when it is not selected. */
    method Unpick(i: int) returns (ok: bool)
      requires Valid()
      modifies this`picks
      ensures Valid()
      ensures ok <==> i in old(picks)
      ensures picks == old(picks) - {i}
    {
      ok := i in picks;
      if ok {
        picks := picks - {i};
      }
    }

    /** Selects die `i` when it is not selected, and deselects it when it is. */
    method TogglePick(i: int)
      requires Valid() && 0 <= i < DiceCount
      modifies this`picks
      ensures Valid()
      ensures i in picks <==> i !in old(picks)
      ensures picks - {i} == old(picks) - {i}
    {
      if i in picks {
        picks := picks - {i};
      } else {
        picks := picks + {i};
      }
    }

    /**
     * The outcome of `TurnStart`: every die that is not used took the face `rolls`
     * offers for it, the selection is awaited, and nothing else changed.
     */
    twostate predicate Rolled(rolls: seq<int>, r: StepResult)
      reads this, current
    {
      && r == NoResult && state == TurnSelect
      && |dice| == DiceCount && |old(dice)| == DiceCount && |rolls| == DiceCount
      && (forall i | 0 <= i < DiceCount :: dice[i] == if i in used then old(dice[i]) else rolls[i])
      && used == old(used) && picks == old(picks) && cumulativeScore == old(cumulativeScore)
      && current == old(current) && previous == old(previous) && unchanged(current)
    }

    /**
     * The outcome of `TurnSelect`. A bust ends the turn with a zero, or the penalty
     * when it is the player's third zero in a row, and passes the turn on; otherwise
     * the selection is evaluated next and nothing else changed.
     */
    twostate predicate BustChecked(r: StepResult)
      reads this, players, current
    {
      && (old(Busted()) ==>
        && r == NoResult.(zilch := true, score := Value(old(cumulativeScore)), playerSwitch := true,
                          tripleZilch := r.tripleZilch)
        && (r.tripleZilch <==> old(current.zilchStreak) == ZilchLimit - 1)
        && TurnPassed(if r.tripleZilch then Penalty else 0))
      && (!old(Busted()) ==>
        && r == NoResult && state == TurnResult
        && TurnHeld())
    }

    /**
     * The outcome of `TurnResult` for a selection scored as `hand`, when the player
     * asks to bank (`bank`) or to continue.
     */
    twostate predicate SelectionScored(bank: bool, hand: Scoring, r: StepResult)
      reads this, players, current
    {
      && (forall c | c in hand.combos :: Scorable(c))
      && var points := TotalScore(hand.combos);
      && points.Ok?
      // The selection mixes in dice that score nothing: select again.
      && (hand.unused > 0 ==>
        && r == NoResult.(unused := Some(hand.unused)) && state == TurnSelect
        && TurnHeld())
      // Banking below the minimum is refused: select again.
      && (hand.unused == 0 && bank && old(cumulativeScore) + points.value < BankMin ==>
        && r == NoResult.(banked := Null) && state == TurnSelect
        && TurnHeld())
      // Banking: the turn total goes to the player's history and the next player starts.
      && (hand.unused == 0 && bank && old(cumulativeScore) + points.value >= BankMin ==>
        var total := old(cumulativeScore) + points.value;
        && r == NoResult.(banked := Value(total), playerSwitch := true)
        && TurnPassed(total) && old(current).zilchStreak == 0)
      // Continuing with a selection that scores nothing, which happens exactly when
      // nothing is picked: select again.
      && (hand.unused == 0 && !bank && points.value == 0 ==>
        && old(picks) == {}
        && r == NoResult.(score := Null) && state == TurnSelect
        && TurnHeld())
      // Continuing with a scoring selection: add it to the turn and set the picked dice
      // aside; when all six are aside they all come back (hot dice).
      && (hand.unused == 0 && !bank && points.value != 0 ==>
        && old(picks) != {} && points.value > 0
        && r == NoResult.(score := Value(points.value), freeroll := old(used) + old(picks) == Indices)
        && cumulativeScore == old(cumulativeScore) + points.value
        && used == (if r.freeroll then {} else old(used) + old(picks))
        && picks == {} && state == TurnStart && dice == old(dice)
        && current == old(current) && previous == old(previous) && unchanged(current))
    }

    /** `TurnStart`: roll every die that is not used and await the selection. */
    method BeginTurn(rolls: seq<int>) returns (r: StepResult)
      requires Valid()
      requires |rolls| == DiceCount && ValidFaces(rolls)
      modifies this`dice, this`state
      ensures Valid()
      ensures Rolled(rolls, r)
    {
      r := NoResult;
      Roll(rolls);
      state := TurnSelect;
    }

    /**
     * `TurnSelect`: when the turn has set dice aside and the free dice score nothing,
     * the turn busts; otherwise the selection is evaluated next.
     */
    method CheckBust() returns (r: StepResult)
      requires Valid()
      modifies this, current
      ensures Valid()
      ensures BustChecked(r)
    {
      if Busted() {
        r := Bust();
      } else {
        r := NoResult;
        state := TurnResult;
      }
    }

    /**
     * A bust: the turn's score is lost, the player records a zero (or the penalty for a
     * third zero in a row), and the turn passes on.
     */
    method Bust() returns (r: StepResult)
      requires Valid()
      modifies this, current
      ensures Valid()
      ensures r == NoResult.(zilch := true, score := Value(old(cumulativeScore)), playerSwitch := true,
                             tripleZilch := r.tripleZilch)
      ensures r.tripleZilch <==> old(current.zilchStreak) == ZilchLimit - 1
      ensures TurnPassed(if r.tripleZilch then Penalty else 0)
    {
      r := NoResult.(zilch := true, score := Value(cumulativeScore), playerSwitch := true);
      used := {};
      picks := {};
      state := TurnStart;
      cumulativeScore := 0;

      ghost var outgoing, history := current, current.scores;
      var triple := Record(0);
      if triple {
        r := r.(tripleZilch := true);
      }
      assert outgoing.scores == history + [if triple then Penalty else 0];
      NextPlayer();
    }

    /** A successful bank: records the turn total for the player and passes the turn on. */
    method EndTurn(total: int) returns (r: StepResult)
      requires Valid() && total >= BankMin
      modifies this, current
      ensures Valid()
      ensures r == NoResult.(banked := Value(total), playerSwitch := true)
      ensures TurnPassed(total) && old(current).zilchStreak == 0
    {
      r := NoResult.(banked := Value(total), playerSwitch := true);
      picks := {};
      used := {};
      cumulativeScore := 0;
      state := TurnStart;

      ghost var outgoing, history := current, current.scores;
      var _ := Record(total);
      assert outgoing.scores == history + [total] && outgoing.zilchStreak == 0;
      NextPlayer();
    }

    /**
     * A selection worth `points` joins the turn: its dice are set aside, and when all
     * six are aside they all come back for a free roll (hot dice).
     */
    method KeepSelection(points: int) returns (r: StepResult)
      requires Valid() && points > 0
      modifies this`cumulativeScore, this`used, this`picks, this`state
      ensures Valid()
      ensures r == NoResult.(score := Value(points), freeroll := old(used) + old(picks) == Indices)
      ensures cumulativeScore == old(cumulativeScore) + points
      ensures used == (if r.freeroll then {} else old(used) + old(picks))
      ensures picks == {} && state == TurnStart
    {
      r := NoResult.(score := Value(points));
      cumulativeScore := cumulativeScore + points;
      used := used + picks;
      picks := {};

      PositionsBound(used);
      if |used| == DiceCount {
        r := r.(freeroll := true);
        used := {};
      }
      state := TurnStart;
    }

    /**
     * `TurnResult`, given `hand`, the scoring of the picked dice (`Selection()`, of which
     * only what `ScoresPicks` promises is needed): send the player back to the selection,
     * bank the turn, or add the selection to the turn and set its dice aside.
     */
    method ScoreSelection(bank: bool, hand: Scoring) returns (r: StepResult)
      requires Valid() && ScoresPicks(hand)
      modifies this, current
      ensures Valid()
      ensures SelectionScored(bank, hand, r)
    {
      r := NoResult;
      var score := TotalScore(hand.combos).value;

      if hand.unused > 0 {
        r := r.(unused := Some(hand.unused));
        state := TurnSelect;
      } else if bank {
        var newScore := cumulativeScore + score;
        if newScore < BankMin {
          r := r.(banked := Null);
          state := TurnSelect;
        } else {
          ghost var outgoing, history := current, current.scores;
          r := EndTurn(newScore);
          assert outgoing.scores == history + [newScore];
        }
      } else {
        if score == 0 {
          r := r.(score := Null);
          state := TurnSelect;
        } else {
          r := KeepSelection(score);
        }
      }
    }

    /**
     * One transition of the turn state machine; `bank` asks to bank the turn, and
     * `rolls` offers the faces a roll may give.
     */
    method Step(bank: bool, rolls: seq<int>) returns (r: StepResult)
      requires Valid()
      requires |rolls| == DiceCount && ValidFaces(rolls)
      modifies this, current
      ensures Valid()
      ensures old(state) == TurnStart ==> Rolled(rolls, r)
      ensures old(state) == TurnSelect ==> BustChecked(r)
      ensures old(state) == TurnResult ==> SelectionScored(bank, old(Selection()), r)
    {
      match state {
        case TurnStart =>
          r := BeginTurn(rolls);
        case TurnSelect =>
          r := CheckBust();
        case TurnResult =>
          r := ScoreSelection(bank, Selection());
      }
    }
  }
}
