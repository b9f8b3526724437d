/**
  What the calculators and the reducer guarantee: Half-It sums, Cricket
  openness, the effect of each action, and the invariants the reducer keeps.
 */
module GameContextProofs {
  import opened Decimal
  import opened GameTypes
  import opened GameContext

  // ---------------------------------------------------------------------------
  // Half-It

  /** The per-round score by kind: face value, 2, 3, 41-or-nothing, or 25 per unit of input. */
  lemma HalfItRoundScoreTable(inputs: seq<Option<int>>, i: nat)
    requires i < |inputs| && i < |HalfItRounds| && inputs[i].Some?
    ensures var x, score, kind := inputs[i].value, HalfItRoundScore(inputs, i), HalfItRounds[i].kind;
      && (kind == Number ==>
            IsDecimal(HalfItRounds[i].id) && 13 <= DigitsValue(HalfItRounds[i].id) <= 20 &&
            score == x * DigitsValue(HalfItRounds[i].id))
      && (kind == Doubles ==> score == 2 * x)
      && (kind == Triples ==> score == 3 * x)
      && (kind == Exact ==> score == if x == 1 then 41 else 0)
      && (kind == Bull ==> score == 25 * x)
  {
    if HalfItRounds[i].kind == Number {
      NumberRoundFace(i);
    }
  }

  /** Slots whose inputs are not negative. */
  predicate NonNegativeInputs(inputs: seq<Option<int>>) {
    forall i | 0 <= i < |inputs| :: inputs[i].Some? ==> inputs[i].value >= 0
  }

  lemma {:induction false} HalfItSumNonNegative(inputs: seq<Option<int>>, n: nat)
    requires n <= |inputs| <= |HalfItRounds| && NonNegativeInputs(inputs)
    ensures HalfItSum(inputs, n) >= 0
  {
    if n > 0 {
      HalfItSumNonNegative(inputs, n - 1);
    }
  }

  /** With no negative input a Half-It total is never negative. */
  lemma HalfItTotalNonNegative(inputs: seq<Option<int>>)
    requires |inputs| <= |HalfItRounds| && NonNegativeInputs(inputs)
    ensures HalfItTotal(inputs) >= 0
  {
    HalfItSumNonNegative(inputs, |inputs|);
  }

  lemma {:induction false} HalfItSumOfEmptySlots(inputs: seq<Option<int>>, n: nat)
    requires n <= |inputs| <= |HalfItRounds|
    requires forall i | 0 <= i < |inputs| :: inputs[i].None?
    ensures HalfItSum(inputs, n) == 0
  {
    if n > 0 {
      HalfItSumOfEmptySlots(inputs, n - 1);
    }
  }

  /** A fresh player, with every slot empty, has a Half-It total of 0. */
  lemma HalfItTotalOfEmptySlots(inputs: seq<Option<int>>)
    requires |inputs| <= |HalfItRounds|
    requires forall i | 0 <= i < |inputs| :: inputs[i].None?
    ensures HalfItTotal(inputs) == 0
  {
    HalfItSumOfEmptySlots(inputs, |inputs|);
  }

  lemma {:induction false} HalfItSumSlotUpdate(inputs: seq<Option<int>>, k: nat, v: Option<int>, n: nat)
    requires k < |inputs| <= |HalfItRounds| && n <= |inputs|
    ensures HalfItSum(inputs[k := v], n) ==
      HalfItSum(inputs, n) +
      (if k < n then HalfItRoundScore(inputs[k := v], k) - HalfItRoundScore(inputs, k) else 0)
  {
    if n > 0 {
      HalfItSumSlotUpdate(inputs, k, v, n - 1);
      if n - 1 != k {
        assert HalfItRoundScore(inputs[k := v], n - 1) == HalfItRoundScore(inputs, n - 1);
      }
    }
  }

  /** Writing one slot changes the total by exactly the change in that slot's score. */
  lemma HalfItTotalSlotUpdate(inputs: seq<Option<int>>, k: nat, v: Option<int>)
    requires k < |inputs| <= |HalfItRounds|
    ensures HalfItTotal(inputs[k := v]) ==
      HalfItTotal(inputs) + HalfItRoundScore(inputs[k := v], k) - HalfItRoundScore(inputs, k)
  {
    HalfItSumSlotUpdate(inputs, k, v, |inputs|);
  }

  /** Filling an empty slot with a non-negative input never lowers the total. */
  lemma HalfItFillNeverLowers(inputs: seq<Option<int>>, k: nat, x: int)
    requires k < |inputs| <= |HalfItRounds| && inputs[k].None? && x >= 0
    ensures HalfItTotal(inputs[k := Some(x)]) >= HalfItTotal(inputs)
  {
    HalfItTotalSlotUpdate(inputs, k, Some(x));
  }

  /** A miss (input 0) in an empty slot leaves the total as it was: nothing is halved. */
  lemma HalfItMissKeepsTotal(inputs: seq<Option<int>>, k: nat)
    requires k < |inputs| <= |HalfItRounds| && inputs[k].None?
    ensures HalfItTotal(inputs[k := Some(0)]) == HalfItTotal(inputs)
  {
    HalfItTotalSlotUpdate(inputs, k, Some(0));
    if HalfItRounds[k].kind == Number {
      NumberRoundFace(k);
    }
  }

  // ---------------------------------------------------------------------------
  // Cricket

  lemma {:induction false} TargetsSumNonNegative(p: Player, all: seq<Player>, n: nat)
    requires n <= |CricketTargets|
    ensures TargetsSum(p, all, n) >= 0
  {
    if n > 0 {
      TargetsSumNonNegative(p, all, n - 1);
    }
  }

  lemma CricketScoreNonNegative(p: Player, all: seq<Player>)
    ensures CricketScore(p, all) >= 0
  {
    TargetsSumNonNegative(p, all, |CricketTargets|);
  }

  lemma {:induction false} TargetsSumAllZero(p: Player, all: seq<Player>, n: nat)
    requires n <= |CricketTargets|
    requires forall i | 0 <= i < |CricketTargets| :: TargetPoints(p, all, CricketTargets[i]) == 0
    ensures TargetsSum(p, all, n) == 0
  {
    if n > 0 {
      TargetsSumAllZero(p, all, n - 1);
    }
  }

  /** Once every other player has closed every target, further marks score nothing. */
  lemma ClosedBoardScoresZero(p: Player, all: seq<Player>)
    requires forall i | 0 <= i < |CricketTargets| :: !IsOpen(p, all, CricketTargets[i])
    ensures CricketScore(p, all) == 0
  {
    TargetsSumAllZero(p, all, |CricketTargets|);
  }

  /** A player with nobody else on the roster scores 0, whatever the marks. */
  lemma LonePlayerScoresZero(p: Player, all: seq<Player>)
    requires forall i | 0 <= i < |all| :: all[i].id == p.id
    ensures CricketScore(p, all) == 0
  {
    ClosedBoardScoresZero(p, all);
  }

  /**
    Excess marks on "20" score 20 each while an opponent is still below 3
    there, and nothing once that opponent closes it too.
   */
  lemma CricketOpenThenClosed()
    ensures
      var ann := Player("ann", "Ann", seq(7, _ => None), 0, Some(map["20" := 4]));
      var bo := Player("bo", "Bo", seq(7, _ => None), 0, Some(map["20" := 1]));
      var boClosed := bo.(cricketScores := Some(map["20" := 3]));
      CricketScore(ann, [ann, bo]) == 20 && CricketScore(ann, [ann, boClosed]) == 0
  {
    var ann := Player("ann", "Ann", seq(7, _ => None), 0, Some(map["20" := 4]));
    var bo := Player("bo", "Bo", seq(7, _ => None), 0, Some(map["20" := 1]));
    var boClosed := bo.(cricketScores := Some(map["20" := 3]));
    var open, closed := [ann, bo], [ann, boClosed];
    assert open[1] == bo && closed[0] == ann && closed[1] == boClosed;
    assert IsOpen(ann, open, "20");
    assert !IsOpen(ann, closed, "20");
    assert forall i | 1 <= i < |CricketTargets| :: Marks(ann, CricketTargets[i]) == 0;
    assert TargetsSum(ann, open, 1) == 20;
    assert TargetsSum(ann, open, 2) == 20;
    assert TargetsSum(ann, open, 3) == 20;
    assert TargetsSum(ann, open, 4) == 20;
    assert TargetsSum(ann, open, 5) == 20;
    assert TargetsSum(ann, open, 6) == 20;
    assert TargetsSum(ann, open, 7) == 20;
    TargetsSumAllZero(ann, closed, 7);
  }

  // ---------------------------------------------------------------------------
  // The actions, one at a time

  predicate IdsDistinct(players: seq<Player>) {
    forall i, j | 0 <= i < j < |players| :: players[i].id != players[j].id
  }

  lemma {:induction false} WithoutAbsentPlayer(players: seq<Player>, id: string)
    requires forall i | 0 <= i < |players| :: players[i].id != id
    ensures WithoutPlayer(players, id) == players
  {
    if players != [] {
      WithoutAbsentPlayer(players[1..], id);
    }
  }

  lemma TailIdsDistinct(players: seq<Player>)
    requires players != [] && IdsDistinct(players)
    ensures IdsDistinct(players[1..])
    ensures forall i | 0 <= i < |players| - 1 :: players[1..][i].id != players[0].id
  {
    forall i, j | 0 <= i < j < |players| - 1
      ensures players[1..][i].id != players[1..][j].id
    {
      assert players[1..][i] == players[i + 1] && players[1..][j] == players[j + 1];
    }
  }

  lemma {:induction false} WithoutPlayerAt(players: seq<Player>, id: string, k: nat)
    requires IdsDistinct(players) && k < |players| && players[k].id == id
    ensures WithoutPlayer(players, id) == players[..k] + players[k + 1..]
  {
    var rest := players[1..];
    TailIdsDistinct(players);
    if k == 0 {
      WithoutAbsentPlayer(rest, id);
    } else {
      WithoutPlayerAt(rest, id, k - 1);
      calc {
        WithoutPlayer(players, id);
        [players[0]] + WithoutPlayer(rest, id);
        [players[0]] + (rest[..k - 1] + rest[k..]);
        { assert [players[0]] + rest[..k - 1] == players[..k]; assert rest[k..] == players[k + 1..]; }
        players[..k] + players[k + 1..];
      }
    }
  }

  /**
    With distinct ids, REMOVE_PLAYER on a roster above the minimum drops the
    one player with that id, keeping the others in order and untouched, or
    keeps the roster when no player has the id.
   */
  lemma RemovePlayerEffect(s: GameState, id: string)
    requires IdsDistinct(s.players) && |s.players| > MinPlayers
    ensures var k, r := FindIndex(s.players, id), RemovePlayerState(s, id);
      && (k == -1 ==> r == s)
      && (k >= 0 ==> r.players == s.players[..k] + s.players[k + 1..])
  {
    var k := FindIndex(s.players, id);
    if k == -1 {
      WithoutAbsentPlayer(s.players, id);
    } else {
      WithoutPlayerAt(s.players, id, k);
    }
  }

  /** With distinct ids, REMOVE_PLAYER never takes a roster below the minimum. */
  lemma RemoveKeepsMinimumRoster(s: GameState, id: string)
    requires IdsDistinct(s.players) && |s.players| >= MinPlayers
    ensures |RemovePlayerState(s, id).players| >= MinPlayers
  {
    if |s.players| > MinPlayers {
      RemovePlayerEffect(s, id);
    }
  }

  /**
    The corrected UPDATE_SCORE in Half-It mode changes one slot of one player,
    stores that player's recomputed total, leaves every other player as it
    was, and reports the game complete exactly when that player has filled
    every slot. The source as written does not store the total
    (`HalfItTotalStaleAsWritten`).
   */
  lemma UpdateScoreHalfIt(s: GameState, playerId: string, roundIndex: int, input: Option<int>)
    requires s.gameMode == HalfIt && UpdateInRange(s, playerId, roundIndex)
    requires FindIndex(s.players, playerId) != -1
    ensures var k, r := FindIndex(s.players, playerId), UpdateScoreState(s, playerId, roundIndex, input);
      && |r.players| == |s.players|
      && (forall j | 0 <= j < |s.players| && j != k :: r.players[j] == s.players[j])
      && r.players[k].inputs == s.players[k].inputs[roundIndex := input]
      && r.players[k] == s.players[k].(inputs := r.players[k].inputs, totalScore := r.players[k].totalScore)
      && r.players[k].totalScore == HalfItTotal(r.players[k].inputs)
      && (r.isGameComplete <==> forall i | 0 <= i < |r.players[k].inputs| :: r.players[k].inputs[i].Some?)
  {
  }

  /**
    UPDATE_SCORE under Cricket rules (also in 501 mode) writes one slot of one
    player, sets that player's marks on the slot's target to the input (0 for
    an empty input), leaves all other ids, names, slots and marks alone,
    rescores every player against the new roster, and reports the game
    complete exactly when every recorded mark of that player is at least 3.
   */
  lemma UpdateScoreCricket(s: GameState, playerId: string, roundIndex: int, input: Option<int>)
    requires s.gameMode != HalfIt && UpdateInRange(s, playerId, roundIndex)
    requires FindIndex(s.players, playerId) != -1
    ensures 0 <= roundIndex < |CricketTargets|
    ensures var k, r := FindIndex(s.players, playerId), UpdateScoreState(s, playerId, roundIndex, input);
      var target := CricketTargets[roundIndex];
      && |r.players| == |s.players|
      && (forall j | 0 <= j < |s.players| :: r.players[j].id == s.players[j].id && r.players[j].name == s.players[j].name)
      && (forall j | 0 <= j < |s.players| && j != k ::
            r.players[j].inputs == s.players[j].inputs && r.players[j].cricketScores == s.players[j].cricketScores)
      && r.players[k].inputs == s.players[k].inputs[roundIndex := input]
      && r.players[k].cricketScores.Some?
      && target in r.players[k].cricketScores.value
      && r.players[k].cricketScores.value[target] == OrZero(input)
      && (forall t | t != target ::
            (t in r.players[k].cricketScores.value <==>
               s.players[k].cricketScores.Some? && t in s.players[k].cricketScores.value) &&
            Marks(r.players[k], t) == Marks(s.players[k], t))
      && (forall j | 0 <= j < |r.players| :: r.players[j].totalScore == CricketScore(r.players[j], r.players))
      && (r.isGameComplete <==> forall t | t in r.players[k].cricketScores.value :: r.players[k].cricketScores.value[t] >= 3)
  {
    var k := FindIndex(s.players, playerId);
    var player := s.players[k].(inputs := s.players[k].inputs[roundIndex := input]);
    var marked := RecordMarks(player, CricketTargets[roundIndex], OrZero(input));
    var roster := s.players[k := marked];
    var r := Rescored(roster);
    assert SameMarks(r, roster);
  }

  // ---------------------------------------------------------------------------
  // Invariants the reducer keeps

  /**
    A state the reducer can reach: a bounded roster with distinct ids, slots
    sized for the mode, no marks maps in Half-It and one per player in Cricket.
   */
  predicate WellFormed(s: GameState) {
    && |s.players| <= MaxPlayers
    && IdsDistinct(s.players)
    && (forall i | 0 <= i < |s.players| :: |s.players[i].inputs| == SlotCount(s.gameMode))
    && (s.gameMode == HalfIt ==> forall i | 0 <= i < |s.players| :: s.players[i].cricketScores.None?)
    && (s.gameMode == Cricket ==> forall i | 0 <= i < |s.players| :: s.players[i].cricketScores.Some?)
  }

  /** The id handed to ADD_PLAYER is new, and UPDATE_SCORE names one of the mode's slots. */
  predicate ActionAllowed(s: GameState, action: GameAction, freshId: string) {
    && (action.AddPlayer? ==> forall i | 0 <= i < |s.players| :: s.players[i].id != freshId)
    && (action.UpdateScore? ==> 0 <= action.roundIndex < SlotCount(s.gameMode))
  }

  lemma InitialStateWellFormed()
    ensures WellFormed(InitialState) && InitialState.currentRound == 0
    ensures InitialState.players == [] && !InitialState.isGameComplete && InitialState.gameMode == HalfIt
  {
  }

  lemma {:induction false} WithoutPlayerKeepsDistinct(players: seq<Player>, id: string)
    requires IdsDistinct(players)
    ensures IdsDistinct(WithoutPlayer(players, id))
  {
    var k := FindIndex(players, id);
    if k == -1 {
      WithoutAbsentPlayer(players, id);
    } else {
      WithoutPlayerAt(players, id, k);
      var kept := players[..k] + players[k + 1..];
      forall i, j | 0 <= i < j < |kept|
        ensures kept[i].id != kept[j].id
      {
        var i', j' := if i < k then i else i + 1, if j < k then j else j + 1;
        assert kept[i] == players[i'] && kept[j] == players[j'];
      }
    }
  }

  lemma AddPlayerKeepsWellFormed(s: GameState, name: string, freshId: string)
    requires WellFormed(s)
    requires forall i | 0 <= i < |s.players| :: s.players[i].id != freshId
    ensures WellFormed(AddPlayerState(s, name, freshId))
  {
    if |s.players| < MaxPlayers {
      var r := AddPlayerState(s, name, freshId);
      assert r.players == s.players + [NewPlayer(freshId, name, s.gameMode)];
    }
  }

  lemma RemovePlayerKeepsWellFormed(s: GameState, id: string)
    requires WellFormed(s)
    ensures WellFormed(RemovePlayerState(s, id))
  {
    if |s.players| > MinPlayers {
      var r := RemovePlayerState(s, id);
      WithoutPlayerKeepsDistinct(s.players, id);
      WithoutPlayerMembers(s.players, id);
      forall i | 0 <= i < |r.players|
        ensures r.players[i] in s.players
      {
        assert r.players[i] in r.players;
      }
    }
  }

  lemma UpdateScoreKeepsWellFormed(s: GameState, id: string, roundIndex: int, input: Option<int>)
    requires WellFormed(s) && 0 <= roundIndex < SlotCount(s.gameMode)
    ensures UpdateInRange(s, id, roundIndex)
    ensures WellFormed(UpdateScoreState(s, id, roundIndex, input))
  {
    var k := FindIndex(s.players, id);
    if k != -1 {
      if s.gameMode == HalfIt {
        UpdateScoreHalfIt(s, id, roundIndex, input);
      } else {
        UpdateScoreCricket(s, id, roundIndex, input);
      }
    }
  }

  /** Every allowed action takes a well-formed state to a well-formed state. */
  lemma ReducePreservesWellFormed(s: GameState, action: GameAction, freshId: string)
    requires WellFormed(s) && ActionAllowed(s, action, freshId)
    ensures action.UpdateScore? ==> UpdateInRange(s, action.playerId, action.roundIndex)
    ensures WellFormed(Reduce(s, action, freshId))
  {
    match action
    case AddPlayer(name) => AddPlayerKeepsWellFormed(s, name, freshId);
    case RemovePlayer(id) => RemovePlayerKeepsWellFormed(s, id);
    case UpdateScore(id, roundIndex, input) => UpdateScoreKeepsWellFormed(s, id, roundIndex, input);
    case ResetGame =>
    case SetGameMode(mode) =>
  }

  /** In Half-It mode every player's stored total is the sum of its slot scores. */
  predicate HalfItTotalsCurrent(s: GameState) {
    s.gameMode == HalfIt ==>
      forall i | 0 <= i < |s.players| ::
        |s.players[i].inputs| <= |HalfItRounds| &&
        s.players[i].totalScore == HalfItTotal(s.players[i].inputs)
  }

  /** Every action keeps the stored Half-It totals current. */
  lemma ReduceKeepsHalfItTotals(s: GameState, action: GameAction, freshId: string)
    requires WellFormed(s) && ActionAllowed(s, action, freshId) && HalfItTotalsCurrent(s)
    ensures action.UpdateScore? ==> UpdateInRange(s, action.playerId, action.roundIndex)
    ensures HalfItTotalsCurrent(Reduce(s, action, freshId))
  {
    ReducePreservesWellFormed(s, action, freshId);
    match action
    case AddPlayer(name) =>
      var r := Reduce(s, action, freshId);
      if |s.players| < MaxPlayers && s.gameMode == HalfIt {
        var p := NewPlayer(freshId, name, s.gameMode);
        assert r.players == s.players + [p];
        HalfItTotalOfEmptySlots(p.inputs);
      }
    case RemovePlayer(id) =>
      var r := Reduce(s, action, freshId);
      if |s.players| > MinPlayers {
        WithoutPlayerMembers(s.players, id);
        forall i | 0 <= i < |r.players|
          ensures r.players[i] in s.players
        {
          assert r.players[i] in r.players;
        }
      }
    case UpdateScore(id, roundIndex, input) =>
    case ResetGame =>
    case SetGameMode(mode) =>
  }

  /**
    The Half-It branch as written loses the total: Ann scores 3 on the "13"
    round, her slot shows 3, her totals sum to 39, yet the stored total stays 0.
   */
  lemma HalfItTotalStaleAsWritten()
    ensures
      var s := GameState([NewPlayer("ann", "Ann", HalfIt)], 0, false, HalfIt);
      var written := UpdateHalfItAsWritten(s, "ann", 0, Some(3));
      && WellFormed(s) && HalfItTotalsCurrent(s)
      && written.players[0].inputs[0] == Some(3)
      && HalfItTotal(written.players[0].inputs) == 39
      && written.players[0].totalScore == 0
      && !HalfItTotalsCurrent(written)
  {
    var s := GameState([NewPlayer("ann", "Ann", HalfIt)], 0, false, HalfIt);
    var ann := s.players[0];
    HalfItTotalOfEmptySlots(ann.inputs);
    HalfItTotalSlotUpdate(ann.inputs, 0, Some(3));
    HalfItRoundScoreTable(ann.inputs[0 := Some(3)], 0);
    assert DigitsValue("13") == 13 by {
      assert "13"[..1] == "1" && "1"[..0] == "";
    }
  }

  /** The same update in the corrected reducer stores the total 39. */
  lemma HalfItTotalStoredCorrected(freshId: string)
    ensures
      var s := GameState([NewPlayer("ann", "Ann", HalfIt)], 0, false, HalfIt);
      var r := Reduce(s, UpdateScore("ann", 0, Some(3)), freshId);
      r.players[0].inputs[0] == Some(3) && r.players[0].totalScore == 39 && HalfItTotalsCurrent(r)
  {
    var s := GameState([NewPlayer("ann", "Ann", HalfIt)], 0, false, HalfIt);
    var ann := s.players[0];
    HalfItTotalOfEmptySlots(ann.inputs);
    HalfItTotalSlotUpdate(ann.inputs, 0, Some(3));
    HalfItRoundScoreTable(ann.inputs[0 := Some(3)], 0);
    assert DigitsValue("13") == 13 by {
      assert "13"[..1] == "1" && "1"[..0] == "";
    }
    assert ActionAllowed(s, UpdateScore("ann", 0, Some(3)), freshId);
    ReduceKeepsHalfItTotals(s, UpdateScore("ann", 0, Some(3)), freshId);
  }
}
