/**
  What the 501 score card derives from the game state: the checkout
  suggestion for a remaining score, how many rounds to show, the remaining
  score of each player, and the winner.
 */
module FiveHundredOneCard {
  import opened Decimal
  import opened GameTypes
  import opened GameContext

  const StartingScore: int := 501

  /** The suggestion shown under a remaining score: a listed checkout, a single double, or none. */
  datatype Checkout = Listed(throws: seq<Throw>) | DoubleOut(segment: int) | NoSuggestion

  /** `getCheckoutSuggestion` */
  function CheckoutSuggestion(remaining: int): (c: Checkout)
    ensures remaining > 170 || remaining < 2 ==> c == NoSuggestion
    ensures c.Listed? <==> 2 <= remaining <= 170 && remaining in CheckoutSuggestions
    ensures c.Listed? ==> c.throws == CheckoutSuggestions[remaining]
    ensures c.DoubleOut? <==>
      2 <= remaining <= 40 && remaining % 2 == 0 && remaining !in CheckoutSuggestions
    ensures c.DoubleOut? ==> 2 * c.segment == remaining
  {
    if remaining > 170 then NoSuggestion
    else if remaining < 2 then NoSuggestion
    else if remaining in CheckoutSuggestions then Listed(CheckoutSuggestions[remaining])
    else if remaining <= 40 && remaining % 2 == 0 then DoubleOut(remaining / 2)
    else NoSuggestion
  }

  /** The darts a suggestion names, in the order shown. */
  function CheckoutThrows(c: Checkout): seq<Throw> {
    match c
    case Listed(throws) => throws
    case DoubleOut(n) => if n >= 0 then [Double(n)] else []
    case NoSuggestion => []
  }

  /** Every suggestion shown finishes the leg: one to three darts, worth exactly the remaining score, ending on a double. */
  lemma CheckoutFinishesExactly(remaining: int)
    ensures var c := CheckoutSuggestion(remaining); var ts := CheckoutThrows(c);
      c != NoSuggestion ==>
        && 1 <= |ts| <= 3
        && ThrowsValue(ts) == remaining
        && IsFinishing(ts[|ts| - 1])
  {
    var c := CheckoutSuggestion(remaining);
    if c.Listed? {
      CheckoutTableSound(remaining);
    } else if c.DoubleOut? {
      var ts := CheckoutThrows(c);
      assert ts == [Double(c.segment)];
      assert ts[..0] == [];
    }
  }

  /** The worked examples: 170, 40, and four scores with no suggestion. */
  lemma CheckoutExamples()
    ensures CheckoutSuggestion(170) == Listed([Triple(20), Triple(20), Bullseye])
    ensures CheckoutSuggestion(160) == Listed([Triple(20), Triple(20), Double(20)])
    ensures CheckoutSuggestion(40) == DoubleOut(20)
    ensures CheckoutSuggestion(171) == NoSuggestion && CheckoutSuggestion(1) == NoSuggestion
    ensures CheckoutSuggestion(41) == NoSuggestion && CheckoutSuggestion(169) == NoSuggestion
    ensures CheckoutSuggestion(-9) == NoSuggestion
  {
    assert 40 !in CheckoutSuggestions && 41 !in CheckoutSuggestions && 169 !in CheckoutSuggestions;
  }

  /** The remaining score shown for a player. */
  function Remaining(p: Player): (r: int)
    ensures r + p.totalScore == StartingScore
  {
    StartingScore - p.totalScore
  }

  /** A suggestion shown under a player's remaining score brings the total to exactly 501. */
  lemma PlayerCheckoutReachesZero(p: Player)
    ensures var ts := CheckoutThrows(CheckoutSuggestion(Remaining(p)));
      CheckoutSuggestion(Remaining(p)) != NoSuggestion ==> p.totalScore + ThrowsValue(ts) == StartingScore
  {
    CheckoutFinishesExactly(Remaining(p));
  }

  // ---------------------------------------------------------------------------
  // The round horizon

  /** The inner `reduce` over a player's slots after its first `n` steps. */
  function LastFilledAfter(inputs: seq<Option<int>>, n: nat): (last: int)
    requires n <= |inputs|
    ensures -1 <= last < n
    ensures last >= 0 ==> inputs[last].Some?
    ensures forall j | last < j < n :: inputs[j].None?
  {
    if n == 0 then -1
    else if inputs[n - 1].Some? then n - 1
    else LastFilledAfter(inputs, n - 1)
  }

  /** The index of a player's last filled slot, or -1 when every slot is empty. */
  function LastFilledIndex(inputs: seq<Option<int>>): (last: int)
    ensures -1 <= last < |inputs|
  {
    LastFilledAfter(inputs, |inputs|)
  }

  /** The outer `reduce` over the first `n` players, starting from -1. */
  function MaxFilledAfter(players: seq<Player>, n: nat): (m: int)
    requires n <= |players|
    ensures m >= -1
    ensures forall i | 0 <= i < n :: LastFilledIndex(players[i].inputs) <= m
    ensures m == -1 || exists i | 0 <= i < n :: m == LastFilledIndex(players[i].inputs)
  {
    if n == 0 then -1
    else
      var before := MaxFilledAfter(players, n - 1);
      var last := LastFilledIndex(players[n - 1].inputs);
      if before >= last then before else last
  }

  /** `Math.max(1, maxFilledRound + 2)`: how many rounds the card shows. */
  function RoundCount(players: seq<Player>): nat {
    var m := MaxFilledAfter(players, |players|);
    if 1 >= m + 2 then 1 else m + 2
  }

  /**
    The rounds the card shows, built by `createRound`: at least one, with
    distinct ids, numbered 1, 2, 3, ... in order, and reaching one round past
    every filled slot.
   */
  function VisibleRounds(players: seq<Player>): (rounds: seq<RoundDef>)
    ensures |rounds| >= 1
    ensures forall i, j | 0 <= i < j < |rounds| :: rounds[i].id != rounds[j].id
    ensures forall i | 0 <= i < |rounds| ::
      && rounds[i].kind == Countdown
      && |rounds[i].id| > 5 && rounds[i].id[..5] == "round" && IsDecimal(rounds[i].id[5..])
      && DigitsValue(rounds[i].id[5..]) == i + 1
    ensures forall i, j | 0 <= i < |players| && 0 <= j < |players[i].inputs| ::
      players[i].inputs[j].Some? ==> j < |rounds| - 1
  {
    RoundHorizon(players);
    seq(RoundCount(players), i requires 0 <= i => CreateRound(i))
  }

  /**
    At least one round is shown; every filled slot of every player lies
    before the last round shown; and when some slot is filled, the round
    just before the last one holds a filled slot, so exactly one empty
    round is shown beyond the furthest filled one.
   */
  lemma RoundHorizon(players: seq<Player>)
    ensures RoundCount(players) >= 1
    ensures forall i, j | 0 <= i < |players| && 0 <= j < |players[i].inputs| ::
      players[i].inputs[j].Some? ==> j < RoundCount(players) - 1
    ensures (exists i, j | 0 <= i < |players| && 0 <= j < |players[i].inputs| :: players[i].inputs[j].Some?) ==>
      exists i | 0 <= i < |players| ::
        RoundCount(players) - 2 < |players[i].inputs| && players[i].inputs[RoundCount(players) - 2].Some?
    ensures (forall i, j | 0 <= i < |players| && 0 <= j < |players[i].inputs| :: players[i].inputs[j].None?) ==>
      RoundCount(players) == 1
  {
    var m := MaxFilledAfter(players, |players|);
    forall i, j | 0 <= i < |players| && 0 <= j < |players[i].inputs| && players[i].inputs[j].Some?
      ensures j < RoundCount(players) - 1
    {
      assert LastFilledIndex(players[i].inputs) >= j;
    }
    if exists i, j | 0 <= i < |players| && 0 <= j < |players[i].inputs| :: players[i].inputs[j].Some? {
      var i, j :| 0 <= i < |players| && 0 <= j < |players[i].inputs| && players[i].inputs[j].Some?;
      assert LastFilledIndex(players[i].inputs) >= j;
      var w :| 0 <= w < |players| && m == LastFilledIndex(players[w].inputs);
      assert players[w].inputs[m].Some?;
    }
  }

  /**
    With seven slots per player, filling the last slot makes the card show
    an eighth round, one past the slots a player has.
   */
  lemma HorizonPassesLastSlot(players: seq<Player>, i: nat)
    requires i < |players| && |players[i].inputs| == 7 && players[i].inputs[6].Some?
    requires forall q | 0 <= q < |players| :: |players[q].inputs| == 7
    ensures RoundCount(players) == 8
  {
    assert LastFilledIndex(players[i].inputs) == 6;
  }

  // ---------------------------------------------------------------------------
  // The winner

  /**
    The `reduce` that names the winner: a player with the highest total,
    and on a tie the last such player in roster order.
   */
  function WinnerIndex(players: seq<Player>): (k: nat)
    requires |players| > 0
    ensures k < |players|
    ensures forall i | 0 <= i < |players| :: players[i].totalScore <= players[k].totalScore
    ensures forall i | k < i < |players| :: players[i].totalScore < players[k].totalScore
  {
    if |players| == 1 then 0
    else
      var prev := WinnerIndex(players[..|players| - 1]);
      if players[prev].totalScore > players[|players| - 1].totalScore then prev else |players| - 1
  }
}
