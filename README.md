# Zilch game rules in Dafny

A model of the rules engine of a terminal version of Zilch, a dice game for several
players. A turn throws six dice; the player repeatedly selects scoring dice, sets them
aside and either throws the remaining dice again or banks the points of the turn. A
throw in which the free dice score nothing is a bust ("zilch"): the turn's points are
lost, a zero goes into the player's history, and a third zero in a row is recorded as a
300-point penalty instead.

The model is split into modules that follow the layers of the game:

- `Combos` (combos.dfy): the closed set of scoring combinations (no scoring dice, three
  pairs, one of each face, a group of one face, singles of ones or fives), the points
  of each, the total of a list of combinations evaluated left to right with the error a
  singles of another face raises, and the number of dice a list consumes.
- `Hands` (hands.dfy): the hand classifier. A hand is a `seq<int>` of faces; the face
  counts are `multiset(hand)`, and the order in which the counter first meets each
  face is `Distinct(hand)`, so the list of groups comes out in the same order as in
  the game, which a lemma states outright. The lemmas characterise each branch of the classifier in both directions,
  count the dice left unused, and show that combinations (as a multiset), unused count
  and score depend only on the multiset of faces.
- `Ledger` (ledger.dfy): the `Player` class with its history of turn scores and its
  streak of zero turns. The invariant ties the streak to the zeros at the end of the
  history and states that the history never holds three zeros in a row.
- `Turns` (turns.dfy): the `Game` class, with the six dice, the positions set aside
  this turn (`used`), the selected positions (`picks`), the turn's running score, the
  state (`TurnStart`, `TurnSelect`, `TurnResult`), the list of players and references
  to the current and the previous player. `Step` is the state machine; each state's
  outcome is named by a two-state predicate (`Rolled`, `BustChecked`,
  `SelectionScored`), and the step result is a record whose keys may be absent, present
  without a value, or present with a number. As in the game, a selection may include
  dice already set aside; they are scored again.
- `ScoringCases` (scoring_cases.dfy): the classification of particular hands.
- `Sequences` and `Wrappers`: shared sequence facts and the `Option`/`Result` types.

Randomness is a parameter: `Roll` and `Step` receive six candidate faces in 1..6, and a
roll gives each die that is not set aside the face offered for its position.

## Model

| member | source | states |
|---|---|---|
| Combos.Score | game.py:17-60 | No scoring dice score 500, three pairs and one of each 1500, a group its base doubled per die beyond three, singles 100 or 50 per die; the result fails, with the face as error, exactly for singles of a face other than 1 and 5 |
| Combos.TotalScore | game.py:68-69 | The total of a list succeeds exactly when every combination in it scores |
| Combos.TotalScoreFirstError | game.py:68-69 | A failing total carries the error of the first failing combination, all earlier ones having scored |
| Combos.GroupScoreDoubles | game.py:40-46 | A group of three scores 1000 for ones and face times 100 otherwise, and each further die doubles the score |
| Combos.GroupScoreTable | game.py:40-46 | Groups of 3, 4, 5 and 6 dice score 1, 2, 4 and 8 times the base |
| Combos.SinglesScore | game.py:54-60 | Singles of ones score 100 per die, of fives 50 per die, and every other face fails |
| Combos.ScorePositive | game.py:17-60 | Every combination of a real face or of at least one die is worth a positive number of points |
| Combos.TotalScoreAppend | game.py:68-69 | The total of a concatenation is the sum of the totals, or the first error met |
| Combos.TotalScorePermutation | game.py:68-69 | A total that does not fail is the same for every reordering of the list |
| Combos.UsedDiceBounds | game.py:89-91 | A list without groups or singles consumes no dice; with counts that are not negative it consumes at least each group's or singles' count and never a negative number |
| Combos.UsedDiceAppend | game.py:89-91 | The dice consumed by a concatenation add up |
| Combos.UsedDicePermutation | game.py:89-91 | The dice consumed do not depend on the order of the list |
| Combos.TotalScoreOfPositives | game.py:68-69 | A list of positive-valued combinations has a total that is not negative and is zero exactly when the list is empty |
| Sequences.IndexOf | game.py:251 | The position returned holds the player and no earlier position does |
| Sequences.IndexOfNoDup | game.py:251-253 | With pairwise distinct players the position found for the k-th player is k, so the turn passes from the k-th to the (k+1)-th, circularly |
| Hands.Distinct | game.py:73 | The faces of a hand each once, exactly the faces that occur, no more of them than dice |
| Hands.DistinctOrder | game.py:73 | The faces are listed in the order in which they first appear in the hand, the order in which the counter meets them |
| Hands.NumFacesOf | game.py:76 | The number of different faces equals the length of any repetition-free list of exactly those faces |
| Hands.Groups | game.py:80-81 | A group, with its count, for exactly those listed faces occurring three or more times; no face twice when the list has no repetition |
| Hands.GroupsInOrder | game.py:80-81 | The groups come in the order of their faces in the list |
| Hands.SinglesOf | game.py:82-85 | A singles of the face, with its count, exactly when the face occurs once or twice, and nothing otherwise |
| Hands.GeneralCombos | game.py:80-85 | Every combination the general branch emits is a group of a face occurring three or more times, or the singles of a 1 or a 5 occurring once or twice, with the face's count |
| Hands.ScoreHand | game.py:72-93 | Every combination the classifier reports has a score that does not fail |
| Hands.GeneralCombosShape | game.py:80-85 | The general branch emits a group exactly for faces occurring three times or more and singles exactly for a 1 or 5 occurring once or twice, at most one combination per face |
| Hands.GeneralCombosEmpty | game.py:80-86 | The general branch emits nothing exactly when no 1, no 5 and no face three times is present |
| Hands.GeneralUsedDice | game.py:89-93 | The dice the general branch consumes plus the dice of faces that belong to no combination make up the hand |
| Hands.ScoreHandOneOfEach | game.py:76-77 | The result is one of each exactly for six different faces, with nothing unused |
| Hands.ScoreHandThreePairs | game.py:78-79 | The result is three pairs exactly for three different faces each occurring twice, with nothing unused |
| Hands.ScoreHandNoScoringDice | game.py:86-87 | "No scoring dice" comes back exactly for a six-die hand outside the fixed cases with no 1, no 5 and no face three times, with nothing unused |
| Hands.ScoreHandNothing | game.py:86-93 | No combination at all comes back exactly for such a hand of other than six dice, and then every die is unused |
| Hands.ScoreHandGeneral | game.py:80-93 | Outside the fixed cases the result is the general branch, one combination per face at most, and the unused count is the number of dice whose face scores nothing |
| Hands.ScoreHandUnusedBounds | game.py:89-93 | The unused count lies between zero and the size of the hand |
| Hands.ScoreHandOrder | game.py:73-85 | Every result lists its groups first, in the order in which their faces first appear in the hand, then singles of ones, then singles of fives |
| Hands.ScoreHandNoDup | game.py:72-93 | No combination is reported twice |
| Hands.ScoreHandShortNothing | game.py:80-87 | A hand of fewer than six dice yields no combination exactly when it holds no 1, no 5 and no face three times or more |
| Hands.ScoreHandSoleGroup | game.py:80-85 | A hand with one face three times or more and no other scoring face scores as that single group |
| Hands.ScoreHandTwoGroups | game.py:73-85 | A hand outside the fixed cases whose only scoring faces are two faces occurring three times or more scores as exactly their two groups, the face that appears first first |
| Hands.ScoringPermutation | game.py:72-93 | Reordering a hand permutes its combinations and keeps its unused count |
| Hands.ScoreHandPermutation | game.py:72-93 | Combinations as a multiset, unused count and total score depend only on the multiset of faces |
| Hands.ScoreHandTotal | game.py:68-93 | For real faces the score of a hand never fails, is not negative, and is zero exactly when nothing was found |
| Hands.ScoreHandZero | game.py:72-93 | For real faces a hand leaves nothing unused and scores zero exactly when it is empty |
| Ledger.TrailingZerosRun | game.py:106-118 | A history ending in three zeros ends in a run of three consecutive zero entries |
| Ledger.NoZilchRunPrefixes | game.py:106-118 | In a history with no three zeros in a row, the zero streak at every earlier moment was below three |
| Ledger.Player.constructor | game.py:101-104 | A new player has an empty history and no streak |
| Ledger.Player.AddScore | game.py:106-118 | Appends exactly one entry; a zero extends the streak and anything else resets it; the third zero in a row is recorded as -300, resets the streak and is reported; the streak stays below three and the history never holds three zeros in a row |
| Ledger.ThreeZilches | game.py:106-118 | Three zero turns from a fresh streak append 0, 0 and -300, report only the third, and leave a fresh streak |
| Turns.Compress | game.py:188-191 | Keeps exactly the elements at selected positions, in order, stopping at the shorter input: the element at a selected position lands after the selected ones before it, there are as many elements as selected positions, and none exactly when no selector is set |
| Turns.MaskCount | game.py:188-191 | Among the first positions, as many are selected by membership in a set of positions as it has members there, and the rest by absence from it |
| Turns.FreeFaces | game.py:233-236 | One face per die not set aside, in position order: the face of a free die comes after those of the free dice before it |
| Turns.PickedFaces | game.py:188-191 | One face per picked die, in position order: the face of a picked die comes after those of the picked dice before it |
| Turns.PositionsBound | game.py:225 | A set of dice positions has at most six members, and six exactly when it is all of them |
| Turns.PickedFacesFacts | game.py:188-191 | The picked faces are real faces, as many as picked dice, and there are none exactly when nothing is picked |
| Turns.FreeFacesFacts | game.py:233-236 | The free faces are real faces, one for each of the six dice not set aside |
| Turns.SelectionTotal | game.py:188-216 | The score of the selection never fails, is not negative, and leaves nothing unused with zero points exactly when nothing is picked |
| Turns.Game.Selection | game.py:187-192 | In a consistent game every combination of the scoring of the picked dice has a score, the total never fails and is not negative, the scoring leaves at most as many dice unused as are picked, and uses every die with zero points exactly when nothing is picked |
| Turns.Game.Busted | game.py:166-169 | In a consistent game the turn busts exactly when dice are set aside and the free dice hold no 1, no 5 and no face three times or more |
| Turns.Game.constructor | game.py:141-150 | Six dice showing 1, nothing set aside or picked, state `TurnStart`, no running score, the first player current and the last one previous |
| Turns.Game.Roll | game.py:152-156 | Every die not set aside takes the offered face and every die set aside keeps its face |
| Turns.Game.Record | game.py:179-180 | The current player appends the turn's entry: the score, or -300 when it is the third zero in a row, which is reported |
| Turns.Game.NextPlayer | game.py:250-253 | The old current player becomes previous, and the player after the first occurrence of it in the list, circularly, becomes current |
| Turns.Game.Pick | game.py:238-239 | The die joins the selection and nothing else changes |
| Turns.Game.Unpick | game.py:241-242 | The die leaves the selection; the call fails, changing nothing, exactly when it was not selected |
| Turns.Game.TogglePick | game.py:244-248 | The die's membership in the selection flips and no other die's changes |
| Turns.Game.BeginTurn | game.py:162-164 | `TurnStart` rolls the free dice, moves to `TurnSelect`, and changes nothing else |
| Turns.Game.CheckBust | game.py:166-185 | A bust happens exactly when dice are set aside and the free dice score nothing; otherwise only the state moves to `TurnResult` |
| Turns.Game.Bust | game.py:167-183 | The result carries the lost running score; the player records 0, or -300 on a third zero, flagged; the turn resets and passes to the next player |
| Turns.Game.EndTurn | game.py:203-214 | The bank is reported, the total is recorded for the player, the turn resets and passes to the next player |
| Turns.Game.KeepSelection | game.py:219-229 | The points join the running score, the picked dice are set aside and the selection clears; when all six are aside they come back and a free roll is flagged |
| Turns.Game.ScoreSelection | game.py:192-229 | For any scoring with the properties the selection's scoring has, unused dice or a bank below 300 send the player back to select with nothing else changed; a bank of at least 300 records it and passes the turn; continuing with no points (exactly when nothing is picked) asks for a selection; continuing with points keeps the selection |
| Turns.Game.Step | game.py:158-231 | Each state makes the transition described for it, and the game invariant (six real dice, positions in range, a free die, ledgers consistent) is kept |
| ScoringCases.OneOfEachCase | test_game.py:7-9 | 3, 5, 1, 4, 2, 6 is one of each |
| ScoringCases.ThreePairsCase | test_game.py:11-13 | 2, 2, 4, 4, 6, 6 is three pairs |
| ScoringCases.FourAndPairCase | test_game.py:15-16 | 4, 4, 4, 4, 6, 6 is not three pairs |
| ScoringCases.NoScoringCase | test_game.py:18-20 | 2, 3, 4, 6, 2, 6 is "no scoring dice" |
| ScoringCases.FiveDiceCase | test_game.py:22-23 | 2, 3, 4, 6, 2 is not "no scoring dice" |
| ScoringCases.GroupOfThreeCase | test_game.py:26-27 | 2, 2, 2, 3, 4, 6 is a group of three twos and nothing else |
| ScoringCases.GroupOfSixCase | test_game.py:29-30 | Six threes are a group of six and nothing else |
| ScoringCases.TwoGroupsCase | test_game.py:32-34 | 1, 1, 1, 6, 6, 6 holds a group of ones and a group of sixes |
| ScoringCases.SinglesCase | test_game.py:37-39 | 1, 1, 5, 4, 3, 2 holds two single ones and one single five |
| ScoringCases.SinglesBesideGroupCase | test_game.py:41-43 | 3, 1, 1, 1, 5, 5 holds two single fives and no singles of ones |
| ScoringCases.MixedCase | test_game.py:45-50 | 6, 6, 6, 1, 5, 5 holds a group of sixes, a single one and two single fives |
| ScoringCases.FirstAppearanceCase | game.py:73-81 | 6, 6, 6, 1, 1, 1 scores as a group of sixes followed by a group of ones: groups follow the order of first appearance, not of face |

## Left out

- The terminal interface (zot.py) is not part of this model: widgets, key bindings, messages and the score table hold no rules.
- Random rolls: the faces a roll gives are a parameter of `Roll` and `Step`, required to be in 1..6.
- The unused score limit of 10000 declared on the game is not modelled.
- Combos.Score: a group of fewer than three dice is excluded by a precondition (`Scorable`), since the game computes its score as a float (the power of two has a negative exponent); the classifier never builds one.
- Turns.Game.Pick: the position is required to be 0..5, the positions the interface offers; the game itself accepts any integer, which would then never be scored but could be counted among the dice set aside.
- Turns.Game.TogglePick: the same restriction to positions 0..5.
- Turns.Game.Unpick: removing a die that is not selected raises an error in the game; here it returns `false` and changes nothing.
- Turns.Game.EndTurn: the turn fields are reset before the score is recorded and the player rotates, not after; the fields involved are independent, so the final state is the same.
- The step's input dictionary is reduced to its one key, `bank`, read as a boolean; the result dictionary is the `StepResult` record.
- The free dice are computed as their faces only (`FreeFaces`), since the classifier is applied to the faces alone; the position-face pairs are not modelled.
- The players are references into the list; the game's invariant (`Game.Valid`) also requires at least one player and at least one die not set aside, which every transition keeps.
- The counter is a multiset together with the list of faces in order of first appearance, and the dictionaries are records; `Compress` follows `compress` itself, including stopping at the shorter input.
- Player names are carried but play no part in the rules.
