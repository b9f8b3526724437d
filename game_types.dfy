/**
  The rule catalog: roster bounds, the twelve Half-It rounds, the seven Cricket
  targets and their point values, the 501 round generator and the table of
  known 501 checkouts.
 */
module GameTypes {
  import opened Decimal

  /** A slot that holds either nothing yet (`null`) or a number. */
  datatype Option<T> = None | Some(value: T)

  const MinPlayers: nat := 1
  const MaxPlayers: nat := 8

  datatype GameMode = HalfIt | Cricket | FiveHundredOne

  /** The `type` of a round; `Countdown` is the type "501" of generated rounds. */
  datatype RoundKind = Number | Doubles | Triples | Exact | Bull | Countdown

  datatype RoundDef = RoundDef(id: string, caption: string, kind: RoundKind, maxInput: int)

  const HalfItRounds: seq<RoundDef> := [
    RoundDef("13", "13", Number, 9),
    RoundDef("14", "14", Number, 9),
    RoundDef("D", "Doubles", Doubles, 180),
    RoundDef("15", "15", Number, 9),
    RoundDef("16", "16", Number, 9),
    RoundDef("T", "Triples", Triples, 180),
    RoundDef("17", "17", Number, 9),
    RoundDef("18", "18", Number, 9),
    RoundDef("41", "41", Exact, 1),
    RoundDef("19", "19", Number, 9),
    RoundDef("20", "20", Number, 9),
    RoundDef("B", "Bull", Bull, 3)
  ]

  const CricketTargets: seq<string> := ["20", "19", "18", "17", "16", "15", "B"]

  const CricketPoints: map<string, int> :=
    map["20" := 20, "19" := 19, "18" := 18, "17" := 17, "16" := 16, "15" := 15, "B" := 25]

  /** The largest input each kind of Half-It round accepts. */
  function HalfItMaxInput(kind: RoundKind): int {
    match kind
    case Number => 9
    case Doubles => 180
    case Triples => 180
    case Exact => 1
    case Bull => 3
    case Countdown => 180
  }

  lemma RosterBounds()
    ensures MinPlayers == 1 && MaxPlayers == 8 && MinPlayers <= MaxPlayers
  {
  }

  /** The Half-It layout: twelve rounds, eight numbered ones and one of each special kind. */
  lemma HalfItLayout()
    ensures |HalfItRounds| == 12
    ensures forall i | 0 <= i < |HalfItRounds| ::
      HalfItRounds[i].maxInput == HalfItMaxInput(HalfItRounds[i].kind)
    ensures HalfItRounds[2].kind == Doubles && HalfItRounds[5].kind == Triples
    ensures HalfItRounds[8].kind == Exact && HalfItRounds[11].kind == Bull
    ensures forall i | 0 <= i < |HalfItRounds| :: HalfItRounds[i].kind != Countdown
  {
  }

  /**
    Every numbered Half-It round is named by its face value: the id is a
    decimal number from 13 to 20 and the label is the id.
   */
  lemma NumberRoundFace(i: nat)
    requires i < |HalfItRounds| && HalfItRounds[i].kind == Number
    ensures IsDecimal(HalfItRounds[i].id)
    ensures 13 <= DigitsValue(HalfItRounds[i].id) <= 20
    ensures HalfItRounds[i].caption == HalfItRounds[i].id
  {
    var id := HalfItRounds[i].id;
    assert |id| == 2 && IsDigit(id[0]) && IsDigit(id[1]);
    assert id[..1][..0] == [];
    assert DigitsValue(id) == (id[0] as int - '0' as int) * 10 + (id[1] as int - '0' as int);
  }

  /** The numbered rounds come in increasing face order 13, 14, 15, ..., 20. */
  lemma NumberRoundsAscend(i: nat, j: nat)
    requires i < j < |HalfItRounds|
    requires HalfItRounds[i].kind == Number && HalfItRounds[j].kind == Number
    ensures IsDecimal(HalfItRounds[i].id) && IsDecimal(HalfItRounds[j].id)
    ensures DigitsValue(HalfItRounds[i].id) < DigitsValue(HalfItRounds[j].id)
  {
    NumberRoundFace(i);
    NumberRoundFace(j);
    var a, b := HalfItRounds[i].id, HalfItRounds[j].id;
    assert a[..1][..0] == [] && b[..1][..0] == [];
    assert DigitsValue(a) == (a[0] as int - '0' as int) * 10 + (a[1] as int - '0' as int);
    assert DigitsValue(b) == (b[0] as int - '0' as int) * 10 + (b[1] as int - '0' as int);
  }

  /**
    The seven Cricket targets are distinct, each has a point value, the
    numbered ones score their face value and the bull scores 25.
   */
  lemma CricketCatalog()
    ensures |CricketTargets| == 7
    ensures forall i, j | 0 <= i < j < |CricketTargets| :: CricketTargets[i] != CricketTargets[j]
    ensures CricketPoints.Keys == set t | t in CricketTargets
    ensures CricketPoints["B"] == 25
    ensures forall i | 0 <= i < |CricketTargets| - 1 ::
      IsDecimal(CricketTargets[i]) && CricketPoints[CricketTargets[i]] == DigitsValue(CricketTargets[i])
  {
    forall i | 0 <= i < |CricketTargets| - 1
      ensures IsDecimal(CricketTargets[i]) && CricketPoints[CricketTargets[i]] == DigitsValue(CricketTargets[i])
    {
      var t := CricketTargets[i];
      assert |t| == 2 && t[..1][..0] == [];
      assert DigitsValue(t) == (t[0] as int - '0' as int) * 10 + (t[1] as int - '0' as int);
    }
  }

  /** The round a 501 card shows at position `index` (counting from 0). */
  function CreateRound(index: nat): (r: RoundDef)
    ensures r.kind == Countdown && r.maxInput == 180
    ensures |r.id| > 5 && r.id[..5] == "round" && IsDecimal(r.id[5..])
    ensures DigitsValue(r.id[5..]) == index + 1 && r.id[5] != '0'
    ensures r.caption == "Round " + r.id[5..]
  {
    NatToStringRoundTrip(index + 1);
    var number := NatToString(index + 1);
    var r := RoundDef("round" + number, "Round " + number, Countdown, 180);
    assert r.id[5..] == number;
    r
  }

  /** Generated rounds at different positions have different ids. */
  lemma CreateRoundIdsDistinct(i: nat, j: nat)
    requires i != j
    ensures CreateRound(i).id != CreateRound(j).id
  {
    var a, b := CreateRound(i), CreateRound(j);
    assert DigitsValue(a.id[5..]) != DigitsValue(b.id[5..]);
  }

  /** One dart of a checkout: a treble, a double or the bull. */
  datatype Throw = Triple(segment: nat) | Double(segment: nat) | Bullseye

  function ThrowValue(t: Throw): nat {
    match t
    case Triple(n) => 3 * n
    case Double(n) => 2 * n
    case Bullseye => 50
  }

  function ThrowsValue(ts: seq<Throw>): nat {
    if ts == [] then 0 else ThrowsValue(ts[..|ts| - 1]) + ThrowValue(ts[|ts| - 1])
  }

  /** A leg of 501 must end on a double, and the bull counts as one. */
  predicate IsFinishing(t: Throw) {
    t.Double? || t.Bullseye?
  }

  const CheckoutSuggestions: map<int, seq<Throw>> := map[
    170 := [Triple(20), Triple(20), Bullseye],
    167 := [Triple(20), Triple(19), Bullseye],
    164 := [Triple(20), Triple(18), Bullseye],
    161 := [Triple(20), Triple(17), Bullseye],
    160 := [Triple(20), Triple(20), Double(20)]
  ]

  lemma ThreeThrowsValue(ts: seq<Throw>)
    requires |ts| == 3
    ensures ThrowsValue(ts) == ThrowValue(ts[0]) + ThrowValue(ts[1]) + ThrowValue(ts[2])
  {
    assert ts[..3 - 1] == ts[..2];
    assert ts[..2][..2 - 1] == [ts[0]];
    assert [ts[0]][..0] == [];
    assert ThrowsValue([ts[0]]) == ThrowValue(ts[0]);
    assert ThrowsValue(ts[..2]) == ThrowValue(ts[0]) + ThrowValue(ts[1]);
  }

  /** Every listed checkout is three darts that score exactly its key and end on a double. */
  lemma CheckoutTableSound(r: int)
    requires r in CheckoutSuggestions
    ensures |CheckoutSuggestions[r]| == 3
    ensures ThrowsValue(CheckoutSuggestions[r]) == r
    ensures IsFinishing(CheckoutSuggestions[r][2])
  {
    ThreeThrowsValue(CheckoutSuggestions[r]);
  }
}
