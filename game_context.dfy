/**
  The game store: players, the immutable game state, the Half-It and Cricket
  score calculators, and the reducer that applies the five actions.
 */
module GameContext {
  import opened Decimal
  import opened GameTypes

  /**
    A player. `inputs` holds one slot per round or target; `cricketScores`
    is the marks map, absent (`undefined`) until the player plays Cricket rules.
   */
  datatype Player = Player(
    id: string,
    name: string,
    inputs: seq<Option<int>>,
    totalScore: int,
    cricketScores: Option<map<string, int>>)

  datatype GameState = GameState(
    players: seq<Player>,
    currentRound: int,
    isGameComplete: bool,
    gameMode: GameMode)

  datatype GameAction =
    | AddPlayer(name: string)
    | RemovePlayer(playerId: string)
    | UpdateScore(playerId: string, roundIndex: int, input: Option<int>)
    | ResetGame
    | SetGameMode(mode: GameMode)

  const InitialState: GameState := GameState([], 0, false, HalfIt)

  // ---------------------------------------------------------------------------
  // Half-It

  /** The score of one Half-It slot; an empty slot scores nothing. */
  function HalfItRoundScore(inputs: seq<Option<int>>, roundIndex: nat): (score: int)
    requires roundIndex < |inputs| && roundIndex < |HalfItRounds|
    ensures inputs[roundIndex].None? ==> score == 0
    ensures inputs[roundIndex].Some? && inputs[roundIndex].value >= 0 ==> score >= 0
    ensures inputs[roundIndex].Some? && HalfItRounds[roundIndex].kind == Exact ==>
      (score == 41 <==> inputs[roundIndex].value == 1) && (score == 0 <==> inputs[roundIndex].value != 1)
  {
    if inputs[roundIndex].None? then 0
    else
      var round := HalfItRounds[roundIndex];
      var input := inputs[roundIndex].value;
      match round.kind
      case Number =>
        NumberRoundFace(roundIndex);
        input * DigitsValue(round.id)
      case Doubles => input * 2
      case Triples => input * 3
      case Exact => if input == 1 then 41 else 0
      case Bull => input * 25
      case Countdown => 0
  }

  /** The running total after the first `n` slots, as `reduce` builds it. */
  function HalfItSum(inputs: seq<Option<int>>, n: nat): int
    requires n <= |inputs| <= |HalfItRounds|
  {
    if n == 0 then 0 else HalfItSum(inputs, n - 1) + HalfItRoundScore(inputs, n - 1)
  }

  /** A Half-It player's total: the plain sum of the scores of all slots. */
  function HalfItTotal(inputs: seq<Option<int>>): int
    requires |inputs| <= |HalfItRounds|
  {
    HalfItSum(inputs, |inputs|)
  }

  predicate AllSlotsFilled(inputs: seq<Option<int>>) {
    forall i | 0 <= i < |inputs| :: inputs[i].Some?
  }

  // ---------------------------------------------------------------------------
  // Cricket

  /** `cricketScores[target] || 0`: the marks a player holds on a target. */
  function Marks(p: Player, target: string): int {
    if p.cricketScores.Some? && target in p.cricketScores.value then p.cricketScores.value[target] else 0
  }

  /** Some player other than `player` (by id) has no marks map or fewer than 3 marks on `target`. */
  predicate IsOpen(player: Player, allPlayers: seq<Player>, target: string) {
    exists i | 0 <= i < |allPlayers| ::
      allPlayers[i].id != player.id &&
      (allPlayers[i].cricketScores.None? || Marks(allPlayers[i], target) < 3)
  }

  /** What one target adds to a Cricket total. */
  function TargetPoints(player: Player, allPlayers: seq<Player>, target: string): (points: int)
    requires target in CricketPoints
    ensures points >= 0
    ensures points > 0 <==> Marks(player, target) > 3 && IsOpen(player, allPlayers, target)
    ensures points > 0 ==> points == (Marks(player, target) - 3) * CricketPoints[target]
  {
    var marks := Marks(player, target);
    if marks >= 3 && IsOpen(player, allPlayers, target) && marks - 3 > 0 then
      (marks - 3) * CricketPoints[target]
    else 0
  }

  /** The points of the first `n` Cricket targets. */
  function TargetsSum(player: Player, allPlayers: seq<Player>, n: nat): int
    requires n <= |CricketTargets|
  {
    if n == 0 then 0
    else TargetsSum(player, allPlayers, n - 1) + TargetPoints(player, allPlayers, CricketTargets[n - 1])
  }

  /** A player's Cricket total against a roster. */
  function CricketScore(player: Player, allPlayers: seq<Player>): int {
    if player.cricketScores.None? then 0 else TargetsSum(player, allPlayers, |CricketTargets|)
  }

  /** `calculateCricketScore`: the loop over the targets that accumulates the total. */
  method CalculateCricketScore(player: Player, allPlayers: seq<Player>) returns (totalScore: int)
    ensures totalScore == CricketScore(player, allPlayers)
  {
    if player.cricketScores.None? {
      return 0;
    }
    totalScore := 0;
    for k := 0 to |CricketTargets|
      invariant totalScore == TargetsSum(player, allPlayers, k)
    {
      var target := CricketTargets[k];
      var marks := Marks(player, target);
      if marks >= 3 {
        var isOpen := IsOpen(player, allPlayers, target);
        if isOpen {
          var extraMarks := player.cricketScores.value[target] - 3;
          if extraMarks > 0 {
            totalScore := totalScore + extraMarks * CricketPoints[target];
          }
        }
      }
    }
  }

  /** Every recorded mark of a player is at least 3. */
  predicate AllMarksClosed(marks: map<string, int>) {
    forall t | t in marks :: marks[t] >= 3
  }

  // ---------------------------------------------------------------------------
  // The reducer

  /** The number of slots a new player gets in a mode. */
  function SlotCount(mode: GameMode): nat {
    if mode == HalfIt then |HalfItRounds| else |CricketTargets|
  }

  /** `findIndex`: the position of the first player with the id, or -1. */
  function FindIndex(players: seq<Player>, id: string): (k: int)
    ensures -1 <= k < |players|
    ensures k == -1 <==> forall i | 0 <= i < |players| :: players[i].id != id
    ensures k >= 0 ==> players[k].id == id && forall i | 0 <= i < k :: players[i].id != id
  {
    if players == [] then -1
    else if players[0].id == id then 0
    else
      var k := FindIndex(players[1..], id);
      if k == -1 then -1 else k + 1
  }

  /**
    What UPDATE_SCORE needs of its arguments: when the player exists, the
    slot is one of its slots, a Half-It player has no more slots than there
    are Half-It rounds, and under Cricket rules the slot names a target.
   */
  predicate UpdateInRange(s: GameState, playerId: string, roundIndex: int) {
    var k := FindIndex(s.players, playerId);
    k == -1 ||
    (0 <= roundIndex < |s.players[k].inputs| &&
     (s.gameMode == HalfIt ==> |s.players[k].inputs| <= |HalfItRounds|) &&
     (s.gameMode != HalfIt ==> roundIndex < |CricketTargets|))
  }

  function NewPlayer(id: string, name: string, mode: GameMode): Player {
    Player(id, name, seq(SlotCount(mode), _ => None), 0, if mode == Cricket then Some(map[]) else None)
  }

  /** ADD_PLAYER: a no-op on a full roster, otherwise one new player at the end. */
  function AddPlayerState(s: GameState, name: string, freshId: string): (r: GameState)
    ensures |s.players| >= MaxPlayers ==> r == s
    ensures |s.players| < MaxPlayers ==>
      && |r.players| == |s.players| + 1
      && r.players[..|s.players|] == s.players
      && r.players[|s.players|].id == freshId
      && r.players[|s.players|].name == name
      && |r.players[|s.players|].inputs| == (if s.gameMode == HalfIt then 12 else 7)
      && (forall i | 0 <= i < |r.players[|s.players|].inputs| :: r.players[|s.players|].inputs[i].None?)
      && r.players[|s.players|].totalScore == 0
      && (r.players[|s.players|].cricketScores == if s.gameMode == Cricket then Some(map[]) else None)
    ensures r.gameMode == s.gameMode && r.currentRound == s.currentRound
    ensures r.isGameComplete == s.isGameComplete
  {
    if |s.players| >= MaxPlayers then s
    else s.(players := s.players + [NewPlayer(freshId, name, s.gameMode)])
  }

  /** `filter((p) => p.id !== id)` */
  function WithoutPlayer(players: seq<Player>, id: string): (kept: seq<Player>)
    ensures |kept| <= |players|
    ensures forall i | 0 <= i < |kept| :: kept[i].id != id
  {
    if players == [] then []
    else (if players[0].id != id then [players[0]] else []) + WithoutPlayer(players[1..], id)
  }

  /** The filter keeps exactly the players whose id differs. */
  lemma {:induction false} WithoutPlayerMembers(players: seq<Player>, id: string)
    ensures forall p :: p in WithoutPlayer(players, id) <==> p in players && p.id != id
  {
    if players != [] {
      WithoutPlayerMembers(players[1..], id);
      assert players == [players[0]] + players[1..];
    }
  }

  /** REMOVE_PLAYER: a no-op at or below the minimum roster, otherwise the filtered roster. */
  function RemovePlayerState(s: GameState, id: string): (r: GameState)
    ensures |s.players| <= MinPlayers ==> r == s
    ensures |s.players| > MinPlayers ==> r.players == WithoutPlayer(s.players, id)
    ensures r.gameMode == s.gameMode && r.currentRound == s.currentRound
    ensures r.isGameComplete == s.isGameComplete
  {
    if |s.players| <= MinPlayers then s
    else s.(players := WithoutPlayer(s.players, id))
  }

  /** `input ?? 0` */
  function OrZero(input: Option<int>): int {
    if input.Some? then input.value else 0
  }

  /** The player with its marks on `target` set, creating the marks map if it was absent. */
  function RecordMarks(p: Player, target: string, marks: int): (r: Player)
    ensures r.cricketScores.Some? && target in r.cricketScores.value
    ensures r.cricketScores.value[target] == marks
    ensures forall t | t != target ::
      (t in r.cricketScores.value <==> p.cricketScores.Some? && t in p.cricketScores.value) &&
      Marks(r, t) == Marks(p, t)
    ensures r.id == p.id && r.name == p.name && r.inputs == p.inputs && r.totalScore == p.totalScore
  {
    var scores := if p.cricketScores.Some? then p.cricketScores.value else map[];
    p.(cricketScores := Some(scores[target := marks]))
  }

  /**
    Every player's total recomputed by Cricket rules. Only totals change, and
    each new total is the player's score against the rescored roster itself,
    so no total is stale afterwards.
   */
  function Rescored(players: seq<Player>): (r: seq<Player>)
    ensures SameMarks(r, players)
    ensures forall j | 0 <= j < |r| :: r[j] == players[j].(totalScore := r[j].totalScore)
    ensures forall j | 0 <= j < |r| :: r[j].totalScore == CricketScore(r[j], r)
  {
    var r := seq(|players|, j requires 0 <= j < |players| => players[j].(totalScore := CricketScore(players[j], players)));
    RescoredIsFixedPoint(players, r);
    r
  }

  /** Totals computed against the old roster are the totals against the new one. */
  lemma RescoredIsFixedPoint(players: seq<Player>, r: seq<Player>)
    requires |r| == |players|
    requires forall j | 0 <= j < |r| :: r[j] == players[j].(totalScore := CricketScore(players[j], players))
    ensures SameMarks(r, players)
    ensures forall j | 0 <= j < |r| :: r[j].totalScore == CricketScore(r[j], r)
  {
    forall j | 0 <= j < |r|
      ensures r[j].totalScore == CricketScore(r[j], r)
    {
      CricketScoreSameMarks(r[j], players[j], r, players);
    }
  }

  /** Two rosters that agree on every player's id and marks map. */
  predicate SameMarks(a: seq<Player>, b: seq<Player>) {
    |a| == |b| &&
    forall j | 0 <= j < |a| :: a[j].id == b[j].id && a[j].cricketScores == b[j].cricketScores
  }

  lemma {:induction false} TargetsSumSameMarks(p: Player, q: Player, a: seq<Player>, b: seq<Player>, n: nat)
    requires SameMarks(a, b) && p.id == q.id && p.cricketScores == q.cricketScores
    requires n <= |CricketTargets|
    ensures TargetsSum(p, a, n) == TargetsSum(q, b, n)
  {
    if n > 0 {
      TargetsSumSameMarks(p, q, a, b, n - 1);
      var t := CricketTargets[n - 1];
      assert Marks(p, t) == Marks(q, t);
      if IsOpen(p, a, t) {
        var i :| 0 <= i < |a| && a[i].id != p.id && (a[i].cricketScores.None? || Marks(a[i], t) < 3);
        assert b[i].id != q.id && (b[i].cricketScores.None? || Marks(b[i], t) < 3);
      }
      if IsOpen(q, b, t) {
        var i :| 0 <= i < |b| && b[i].id != q.id && (b[i].cricketScores.None? || Marks(b[i], t) < 3);
        assert a[i].id != p.id && (a[i].cricketScores.None? || Marks(a[i], t) < 3);
      }
    }
  }

  /**
    A Cricket total reads only ids and marks, never other totals, so it is
    the same against any roster with the same ids and marks.
   */
  lemma CricketScoreSameMarks(p: Player, q: Player, a: seq<Player>, b: seq<Player>)
    requires SameMarks(a, b) && p.id == q.id && p.cricketScores == q.cricketScores
    ensures CricketScore(p, a) == CricketScore(q, b)
  {
    TargetsSumSameMarks(p, q, a, b, |CricketTargets|);
  }

  /** UPDATE_SCORE, with the recomputed Half-It total stored in the new roster. */
  function UpdateScoreState(s: GameState, playerId: string, roundIndex: int, input: Option<int>): (r: GameState)
    requires UpdateInRange(s, playerId, roundIndex)
    ensures FindIndex(s.players, playerId) == -1 ==> r == s
    ensures r.gameMode == s.gameMode && r.currentRound == s.currentRound
  {
    var k := FindIndex(s.players, playerId);
    if k == -1 then s
    else
      var player := s.players[k].(inputs := s.players[k].inputs[roundIndex := input]);
      if s.gameMode == HalfIt then
        var scored := player.(totalScore := HalfItTotal(player.inputs));
        s.(players := s.players[k := scored], isGameComplete := AllSlotsFilled(scored.inputs))
      else
        var marked := RecordMarks(player, CricketTargets[roundIndex], OrZero(input));
        s.(players := Rescored(s.players[k := marked]),
           isGameComplete := AllMarksClosed(marked.cricketScores.value))
  }

  /**
    The Half-It branch of UPDATE_SCORE as the source writes it: the new
    total goes onto a shallow copy of the player that is never put back into
    the roster, while the slot write reaches the roster's player through the
    `inputs` array the copy shares with it.
   */
  function UpdateHalfItAsWritten(s: GameState, playerId: string, roundIndex: int, input: Option<int>): (r: GameState)
    requires s.gameMode == HalfIt && UpdateInRange(s, playerId, roundIndex)
    ensures |r.players| == |s.players|
    ensures FindIndex(s.players, playerId) == -1 ==> r == s
    ensures FindIndex(s.players, playerId) != -1 ==>
      var k := FindIndex(s.players, playerId);
      r.players[k].totalScore == s.players[k].totalScore
  {
    var k := FindIndex(s.players, playerId);
    if k == -1 then s
    else
      var shared := s.players[k].inputs[roundIndex := input];
      s.(players := s.players[k := s.players[k].(inputs := shared)],
         isGameComplete := AllSlotsFilled(shared))
  }

  /** `gameReducer` as a function of the state, the action and the id a new player would get. */
  function Reduce(s: GameState, action: GameAction, freshId: string): (r: GameState)
    requires action.UpdateScore? ==> UpdateInRange(s, action.playerId, action.roundIndex)
    ensures r.currentRound == if action.ResetGame? || action.SetGameMode? then 0 else s.currentRound
    ensures r.gameMode == match action
      case ResetGame => HalfIt
      case SetGameMode(m) => m
      case _ => s.gameMode
    ensures action.ResetGame? || action.SetGameMode? ==> r.players == [] && !r.isGameComplete
  {
    match action
    case AddPlayer(name) => AddPlayerState(s, name, freshId)
    case RemovePlayer(id) => RemovePlayerState(s, id)
    case UpdateScore(id, roundIndex, input) => UpdateScoreState(s, id, roundIndex, input)
    case ResetGame => InitialState
    case SetGameMode(mode) => InitialState.(gameMode := mode)
  }

  /**
    UPDATE_SCORE step by step: write the slot, then either total the Half-It
    rounds or record the marks and rescore every player in turn. The Cricket
    branch is the source's; the Half-It branch is the corrected one that puts
    the rescored player back into the roster (`UpdateHalfItAsWritten` is the
    branch as the source writes it).
   */
  method ApplyUpdateScore(s: GameState, playerId: string, roundIndex: int, input: Option<int>)
    returns (next: GameState)
    requires UpdateInRange(s, playerId, roundIndex)
    ensures next == UpdateScoreState(s, playerId, roundIndex, input)
  {
    var playerIndex := FindIndex(s.players, playerId);
    if playerIndex == -1 {
      return s;
    }
    var updatedPlayers := s.players;
    var player := updatedPlayers[playerIndex];
    player := player.(inputs := player.inputs[roundIndex := input]);
    var isComplete: bool;
    if s.gameMode == HalfIt {
      player := player.(totalScore := HalfItTotal(player.inputs));
      updatedPlayers := updatedPlayers[playerIndex := player];
      isComplete := AllSlotsFilled(player.inputs);
    } else {
      var scores := if player.cricketScores.Some? then player.cricketScores.value else map[];
      var target := CricketTargets[roundIndex];
      player := player.(cricketScores := Some(scores[target := OrZero(input)]));
      updatedPlayers := updatedPlayers[playerIndex := player];
      ghost var roster := updatedPlayers;
      var j := 0;
      while j < |updatedPlayers|
        invariant 0 <= j <= |updatedPlayers|
        invariant SameMarks(updatedPlayers, roster)
        invariant forall i | 0 <= i < j ::
          updatedPlayers[i] == roster[i].(totalScore := CricketScore(roster[i], roster))
        invariant forall i | j <= i < |updatedPlayers| :: updatedPlayers[i] == roster[i]
      {
        var score := CalculateCricketScore(updatedPlayers[j], updatedPlayers);
        CricketScoreSameMarks(updatedPlayers[j], roster[j], updatedPlayers, roster);
        updatedPlayers := updatedPlayers[j := updatedPlayers[j].(totalScore := score)];
        j := j + 1;
      }
      isComplete := AllMarksClosed(player.cricketScores.value);
    }
    next := s.(players := updatedPlayers, isGameComplete := isComplete);
  }

  /** `gameReducer`: dispatch on the action. */
  method GameReducer(s: GameState, action: GameAction, freshId: string) returns (next: GameState)
    requires action.UpdateScore? ==> UpdateInRange(s, action.playerId, action.roundIndex)
    ensures next == Reduce(s, action, freshId)
  {
    match action {
      case AddPlayer(name) =>
        next := AddPlayerState(s, name, freshId);
      case RemovePlayer(id) =>
        next := RemovePlayerState(s, id);
      case UpdateScore(id, roundIndex, input) =>
        next := ApplyUpdateScore(s, id, roundIndex, input);
      case ResetGame =>
        next := InitialState;
      case SetGameMode(mode) =>
        next := InitialState.(gameMode := mode);
    }
  }
}
