/** The fixed-die engine behind the dice tray and the oracle tables: single
    polyhedral dice with advantage and disadvantage, 4d6, a d100 read from a
    tens die and a ones die, the inline 1d6 + 2d10 challenge rule, and the
    clamped d100 used for table lookups. `draw(k)` is the k-th raw roll,
    `floor(Math.random() * sides) + 1`, before the clamp to the die's faces;
    roll ids are a parameter. */
module DiceEngine {
  import opened Wrappers
  import opened Text
  import DiceRoller

  // ---------------------------------------------------------------------
  // simulateDice

  /** `Math.max(1, Math.min(sides, value))`. */
  function Clamp(sides: int, value: int): (v: int)
    ensures sides >= 1 ==> 1 <= v <= sides
    ensures 1 <= value <= sides ==> v == value
  {
    if value <= sides then (if value >= 1 then value else 1)
    else (if sides >= 1 then sides else 1)
  }

  /** The rolls `simulateDice(count, sides)` produces from the draws. */
  function Simulated(count: int, sides: int, draw: nat -> int): (rolls: seq<int>)
    ensures count <= 0 || sides <= 0 ==> rolls == []
    ensures count > 0 && sides > 0 ==> |rolls| == count
    ensures forall i :: 0 <= i < |rolls| ==> 1 <= rolls[i] <= sides
    ensures forall i :: 0 <= i < |rolls| && 1 <= draw(i) <= sides ==> rolls[i] == draw(i)
  {
    if count <= 0 || sides <= 0 then []
    else
      var rolls := seq(count, i requires 0 <= i < count => Clamp(sides, draw(i)));
      assert forall i :: 0 <= i < count ==> rolls[i] == Clamp(sides, draw(i)) && 1 <= rolls[i] <= sides;
      rolls
  }

  method SimulateDice(count: int, sides: int, draw: nat -> int) returns (rolls: seq<int>)
    ensures rolls == Simulated(count, sides, draw)
  {
    if count <= 0 || sides <= 0 {
      return [];
    }
    rolls := [];
    var i := 0;
    while i < count
      invariant 0 <= i <= count
      invariant |rolls| == i
      invariant forall k :: 0 <= k < i ==> rolls[k] == Clamp(sides, draw(k))
    {
      var value := draw(i);
      rolls := rolls + [Clamp(sides, value)];
      i := i + 1;
    }
  }

  // ---------------------------------------------------------------------
  // Results

  datatype RollMode = Normal | Advantage | Disadvantage

  datatype RollOptions = RollOptions(mode: Option<RollMode>, modifier: Option<int>)

  datatype ResultKind = NumberKind | PercentileKind | ChallengeKind

  datatype Meta =
    | NoMeta
    | SingleMeta(mode: RollMode, rolls: seq<int>, chosen: int, sides: int, modifier: int)
    | ChallengeMeta(
        actionDie: int, baseModifier: int, userModifier: int, actionScore: int,
        challengeDice: seq<int>, outcome: DiceRoller.Outcome, boon: bool, complication: bool)

  datatype EngineResult = EngineResult(
    id: string, kind: ResultKind, rollLabel: string, value: Option<int>, detail: string, meta: Meta)

  /** The six single-die roll types with their sides and labels. */
  function SingleDieConfig(rollType: string): Option<(int, string)>
  {
    if rollType == "d4" then Some((4, "1d4"))
    else if rollType == "d6" then Some((6, "1d6"))
    else if rollType == "d8" then Some((8, "1d8"))
    else if rollType == "d10" then Some((10, "1d10"))
    else if rollType == "d12" then Some((12, "1d12"))
    else if rollType == "d20" then Some((20, "1d20"))
    else None
  }

  /** `values.join(", ")` for numbers. */
  function NumberList(values: seq<int>): string
  {
    Join(seq(|values|, i requires 0 <= i < |values| => IntToString(values[i])), ", ")
  }

  function SumOf(values: seq<int>): int
  {
    if values == [] then 0 else values[0] + SumOf(values[1..])
  }

  function Abs(x: int): nat
  {
    if x < 0 then -x else x
  }

  // ---------------------------------------------------------------------
  // Single dice

  /** `rollSingleDie`: one die, or two for advantage (the higher) and
      disadvantage (the lower), plus the modifier. */
  function RollSingleDie(sides: int, baseLabel: string, options: RollOptions, id: string, draw: nat -> int): (r: EngineResult)
    requires sides >= 1
    ensures r.kind == NumberKind && r.value.Some? && r.meta.SingleMeta?
    ensures r.meta.sides == sides && r.meta.modifier == options.modifier.GetOr(0)
    ensures r.value.value == r.meta.chosen + r.meta.modifier
  {
    var mode := options.mode.GetOr(Normal);
    var modifier := options.modifier.GetOr(0);
    var diceCount := if mode == Normal then 1 else 2;
    var rolls := Simulated(diceCount, sides, draw);
    var chosen :=
      if mode == Advantage then DiceRoller.Max(rolls[0], rolls[1])
      else if mode == Disadvantage then DiceRoller.Min(rolls[0], rolls[1])
      else rolls[0];
    var rollLabel :=
      if mode == Normal then baseLabel
      else baseLabel + " (" + (if mode == Advantage then "Advantage" else "Disadvantage") + ")";
    var detail :=
      if mode == Normal then "Rolled " + baseLabel + " -> " + IntToString(chosen)
      else
        ("Rolled 2d" + IntToString(sides) + " [" + NumberList(rolls[..2]) + "] -> "
        + (if mode == Advantage then "highest" else "lowest") + " " + IntToString(chosen));
    var finalValue := chosen + modifier;
    var detailWithModifier :=
      if modifier != 0 then
        detail + "; modifier " + (if modifier >= 0 then "+" else "-") + " " + IntToString(Abs(modifier))
        + " = " + IntToString(finalValue)
      else detail;
    EngineResult(id, NumberKind, rollLabel, Some(finalValue), detailWithModifier,
      SingleMeta(mode, rolls[..diceCount], chosen, sides, modifier))
  }

  /** Advantage keeps the higher of two rolls, disadvantage the lower and a
      normal roll its only roll; the kept roll is a face of the die. */
  lemma SingleDieChoice(sides: int, baseLabel: string, options: RollOptions, id: string, draw: nat -> int)
    requires sides >= 1
    ensures var r := RollSingleDie(sides, baseLabel, options, id, draw);
      var rolls := r.meta.rolls;
      1 <= r.meta.chosen <= sides &&
      (options.mode.GetOr(Normal) == Normal ==> rolls == [Clamp(sides, draw(0))] && r.meta.chosen == rolls[0]) &&
      (options.mode.GetOr(Normal) == Advantage ==>
        |rolls| == 2 && r.meta.chosen >= rolls[0] && r.meta.chosen >= rolls[1] && r.meta.chosen in rolls) &&
      (options.mode.GetOr(Normal) == Disadvantage ==>
        |rolls| == 2 && r.meta.chosen <= rolls[0] && r.meta.chosen <= rolls[1] && r.meta.chosen in rolls)
  {
  }

  // ---------------------------------------------------------------------
  // Percentile digits

  /** The tens digit read from a d100 result: 0 and 100 are "00", a
      multiple of ten up to 90 is its tens digit, 1..9 is taken as the digit
      itself, and anything else is `floor(value / 10)` clamped to 0..9. */
  function NormalizeTensIndex(value: int): (d: int)
    ensures 0 <= d <= 9
  {
    if value == 0 || value == 100 then 0
    else if DiceRoller.JsRem(value, 10) == 0 && value >= 10 && value <= 90 then value / 10
    else if value >= 1 && value <= 9 then value
    else DiceRoller.Max(0, DiceRoller.Min(9, value / 10))
  }

  /** The ones digit read from a d10 result: 10 and 0 are 0, 1..9 stay, and
      anything else is its last digit made non-negative. */
  function NormalizeOnesIndex(value: int): (d: int)
    ensures 0 <= d <= 9
  {
    if value == 10 || value == 0 then 0
    else if value >= 1 && value <= 9 then value
    else
      var digit := DiceRoller.JsRem(value, 10);
      if digit < 0 then digit + 10 else digit
  }

  /** The ones digit of any integer is its non-negative remainder by ten. */
  lemma OnesIsLastDigit(value: int)
    ensures NormalizeOnesIndex(value) == value % 10
  {
  }

  /** A two-digit d100 result reads as its tens digit, and every result of
      a hundred or more other than 100 reads as 9. */
  lemma TensOfTwoDigits(value: int)
    ensures 10 <= value <= 99 ==> NormalizeTensIndex(value) == value / 10
    ensures value > 100 ==> NormalizeTensIndex(value) == 9
    ensures value < 0 ==> NormalizeTensIndex(value) == 0
  {
  }

  /** `tensIndex * 10 + onesIndex`, with 0 read as 100. */
  function PercentileTotal(tensValue: int, onesValue: int): (total: int)
    ensures 1 <= total <= 100
  {
    var total := NormalizeTensIndex(tensValue) * 10 + NormalizeOnesIndex(onesValue);
    if total == 0 then 100 else total
  }

  /** On the faces the two dice report (tens 1..100, ones 1..10), the engine
      reads the same d100 value as the notation roller's percentile reading. */
  lemma PercentileAgreesWithRoller(tensValue: int, onesValue: int)
    requires 10 <= tensValue <= 100 && 1 <= onesValue <= 10
    ensures PercentileTotal(tensValue, onesValue) == DiceRoller.ComputePercentileValue(tensValue, onesValue)
  {
    var tensDigit := if tensValue == 100 then 0 else tensValue / 10;
    var onesDigit := if onesValue == 10 then 0 else onesValue;
    assert 0 <= tensDigit <= 9;
    assert NormalizeTensIndex(tensValue) == tensDigit;
    assert NormalizeOnesIndex(onesValue) == onesDigit;
    assert DiceRoller.JsRem(onesValue, 10) == onesValue % 10;
    if tensValue != 100 {
      assert DiceRoller.JsRem(tensValue, 100) == tensValue;
    }
  }

  // ---------------------------------------------------------------------
  // The inline challenge rule

  /** Strong Hit when the action score beats both challenge dice, Weak Hit
      when it beats one, Miss otherwise. */
  function Quality(actionScore: int, c1: int, c2: int): DiceRoller.Outcome
  {
    var beats1 := actionScore > c1;
    var beats2 := actionScore > c2;
    if beats1 && beats2 then DiceRoller.StrongHit
    else if beats1 || beats2 then DiceRoller.WeakHit
    else DiceRoller.Miss
  }

  /** The inline rule decides outcome, boon and complication exactly as the
      notation roller does for a challenge with two challenge dice. */
  lemma QualityAgreesWithRoller(actionScore: int, c1: int, c2: int)
    ensures Quality(actionScore, c1, c2) == DiceRoller.ChallengeOutcome(actionScore, [c1, c2])
    ensures (c1 == c2 && Quality(actionScore, c1, c2) == DiceRoller.StrongHit)
      == DiceRoller.CheckBoon(DiceRoller.ChallengeOutcome(actionScore, [c1, c2]), [c1, c2])
    ensures (c1 == c2 && Quality(actionScore, c1, c2) == DiceRoller.Miss)
      == DiceRoller.CheckComplication(DiceRoller.ChallengeOutcome(actionScore, [c1, c2]), [c1, c2])
  {
    var scores := [c1, c2];
    assert (set x | x in scores) == {c1, c2};
    if c1 != c2 {
      assert |{c1, c2}| == 2;
    }
  }

  // ---------------------------------------------------------------------
  // rollDice

  const ChallengeLabel := "Challenge (1d6+2d10, +2)"

  function FourD6(id: string, draw: nat -> int): (r: EngineResult)
  {
    var rolls := Simulated(4, 6, draw);
    var total := SumOf(rolls);
    EngineResult(id, NumberKind, "4d6",
      if |rolls| > 0 then Some(total) else None,
      if |rolls| > 0 then "Rolled 4d6 -> [" + NumberList(rolls) + "], total = " + IntToString(total)
      else "Rolled 4d6 (could not read values)",
      NoMeta)
  }

  function Percentile(id: string, draw: nat -> int): (r: EngineResult)
  {
    var tensValue := Simulated(1, 100, draw)[0];
    var onesValue := Simulated(1, 10, (k: nat) => draw(k + 1))[0];
    var tensIndex := NormalizeTensIndex(tensValue);
    var onesIndex := NormalizeOnesIndex(onesValue);
    var total := PercentileTotal(tensValue, onesValue);
    var d100Face := if tensIndex == 0 then "00" else IntToString(tensIndex * 10);
    EngineResult(id, PercentileKind, "d100", Some(total),
      "d100=" + d100Face + ", d10=" + IntToString(onesIndex) + " -> " + IntToString(total), NoMeta)
  }

  function Challenge(options: RollOptions, id: string, draw: nat -> int): (r: EngineResult)
  {
    var actionDie := Simulated(1, 6, draw)[0];
    var challengeDice := Simulated(2, 10, (k: nat) => draw(k + 1));
    var baseModifier := 0;
    var userModifier := options.modifier.GetOr(0);
    var actionScore := actionDie + baseModifier + userModifier;
    var c1 := challengeDice[0];
    var c2 := challengeDice[1];
    var quality := Quality(actionScore, c1, c2);
    var doubles := c1 == c2;
    var boon := doubles && quality == DiceRoller.StrongHit;
    var complication := doubles && quality == DiceRoller.Miss;
    var detail :=
      "Action: " + IntToString(actionDie)
      + (if baseModifier != 0 then " + " + IntToString(baseModifier) else "")
      + (if userModifier != 0 then " + " + IntToString(userModifier) else "")
      + " = " + IntToString(actionScore) + "; Challenge: [" + NumberList(challengeDice) + "]";
    EngineResult(id, ChallengeKind, ChallengeLabel, Some(actionScore), detail,
      ChallengeMeta(actionDie, baseModifier, userModifier, actionScore, challengeDice, quality, boon, complication))
  }

  /** `rollDice(type, options)`; an unknown type is the error the source
      throws. */
  function RollDice(rollType: string, options: RollOptions, id: string, draw: nat -> int): (r: Result<EngineResult, string>)
    ensures r.Err? <==>
      SingleDieConfig(rollType).None? && rollType != "four_d6" && rollType != "percentile" && rollType != "challenge"
    ensures r.Err? ==> r.error == "Unsupported roll type: " + rollType
    ensures r.Ok? ==> r.value.id == id && r.value.value.Some?
  {
    match SingleDieConfig(rollType)
    case Some(config) => Ok(RollSingleDie(config.0, config.1, options, id, draw))
    case None =>
      if rollType == "four_d6" then Ok(FourD6(id, draw))
      else if rollType == "percentile" then Ok(Percentile(id, draw))
      else if rollType == "challenge" then Ok(Challenge(options, id, draw))
      else Err("Unsupported roll type: " + rollType)
  }

  /** A 4d6 roll sums four faces of a d6, so it lies in 4..24. */
  lemma FourD6Bounds(id: string, draw: nat -> int)
    ensures var r := RollDice("four_d6", RollOptions(None, None), id, draw).value;
      r.kind == NumberKind && 4 <= r.value.value <= 24
  {
    SumBounds(Simulated(4, 6, draw), 1, 6);
  }

  /** A sum of values in lo..hi lies between n * lo and n * hi. */
  lemma {:induction false} SumBounds(values: seq<int>, lo: int, hi: int)
    requires forall i :: 0 <= i < |values| ==> lo <= values[i] <= hi
    ensures |values| * lo <= SumOf(values) <= |values| * hi
  {
    if values != [] {
      SumBounds(values[1..], lo, hi);
    }
  }

  /** A percentile roll is a d100 value in 1..100 whose digits are the
      normalised tens and ones dice. */
  lemma PercentileBounds(id: string, draw: nat -> int)
    ensures var r := RollDice("percentile", RollOptions(None, None), id, draw).value;
      r.kind == PercentileKind && r.rollLabel == "d100" &&
      r.value.value == PercentileTotal(Clamp(100, draw(0)), Clamp(10, draw(1))) &&
      1 <= r.value.value <= 100
  {
  }

  /** A challenge roll's value is the action die plus the modifier; its
      outcome, boon and complication are those of the notation roller for
      the two challenge dice. */
  lemma ChallengeRoll(options: RollOptions, id: string, draw: nat -> int)
    ensures var r := RollDice("challenge", options, id, draw).value;
      var m := r.meta;
      r.kind == ChallengeKind && m.ChallengeMeta? &&
      1 <= m.actionDie <= 6 && |m.challengeDice| == 2 &&
      1 <= m.challengeDice[0] <= 10 && 1 <= m.challengeDice[1] <= 10 &&
      r.value.value == m.actionDie + options.modifier.GetOr(0) &&
      m.outcome == DiceRoller.ChallengeOutcome(m.actionScore, m.challengeDice) &&
      m.boon == DiceRoller.CheckBoon(m.outcome, m.challengeDice) &&
      m.complication == DiceRoller.CheckComplication(m.outcome, m.challengeDice)
  {
    var m := RollDice("challenge", options, id, draw).value.meta;
    QualityAgreesWithRoller(m.actionScore, m.challengeDice[0], m.challengeDice[1]);
    assert m.challengeDice == [m.challengeDice[0], m.challengeDice[1]];
  }

  /** `rollOracleD100`: the percentile value, floored and clamped to 1..100. */
  function RollOracleD100(draw: nat -> int): (v: int)
    ensures 1 <= v <= 100
    ensures v == PercentileTotal(Clamp(100, draw(0)), Clamp(10, draw(1)))
  {
    var res := RollDice("percentile", RollOptions(None, None), "", draw);
    if res.Ok? && res.value.value.Some? then DiceRoller.Max(1, DiceRoller.Min(100, res.value.value.value))
    else assert false; 1
  }

  // ---------------------------------------------------------------------
  // The in-process stand-ins for the 3D dice box

  /** `rollDiceBoxValues(count, sides)`. */
  function RollDiceBoxValues(count: int, sides: int, draw: nat -> int): (rolls: seq<int>)
    ensures count <= 0 || sides <= 0 ==> rolls == []
    ensures count > 0 && sides > 0 ==> |rolls| == count && forall i :: 0 <= i < count ==> 1 <= rolls[i] <= sides
  {
    if count <= 0 || sides <= 0 then [] else Simulated(count, sides, draw)
  }

  datatype Request = Request(count: int, sides: int)

  /** `requests.map(req => simulateDice(req.count, req.sides))`; request `i`
      rolls from the stream `draw(i, _)`. */
  function RollDiceBoxComposite(requests: seq<Request>, draw: (nat, nat) -> int): (groups: seq<seq<int>>)
    ensures |groups| == |requests|
    ensures forall i :: 0 <= i < |requests| ==>
      |groups[i]| == (if requests[i].count <= 0 || requests[i].sides <= 0 then 0 else requests[i].count)
    ensures forall i, k :: 0 <= i < |requests| && 0 <= k < |groups[i]| ==> 1 <= groups[i][k] <= requests[i].sides
  {
    seq(|requests|, i requires 0 <= i < |requests| => Simulated(requests[i].count, requests[i].sides, (k: nat) => draw(i, k)))
  }

  /** A number that may be NaN or infinite. */
  datatype Num = Finite(n: int) | NonFinite

  datatype BoxDie = BoxDie(sides: Num, themeColor: Option<string>)

  predicate Rollable(die: BoxDie)
  {
    die.sides.Finite? && die.sides.n > 0
  }

  /** The dice `rollDiceBoxList` keeps: finite, positive sides. */
  function Rollables(dice: seq<BoxDie>): (kept: seq<BoxDie>)
    ensures |kept| <= |dice|
    ensures forall k :: 0 <= k < |kept| ==> Rollable(kept[k]) && kept[k] in dice
  {
    if dice == [] then []
    else (if Rollable(dice[0]) then [dice[0]] else []) + Rollables(dice[1..])
  }

  /** The filter works die by die: the kept dice of a concatenation are the
      kept dice of each part, in order. */
  lemma {:induction false} RollablesAppend(a: seq<BoxDie>, b: seq<BoxDie>)
    ensures Rollables(a + b) == Rollables(a) + Rollables(b)
    decreases |a|
  {
    if a == [] {
      assert a + b == b;
    } else {
      assert (a + b)[0] == a[0] && (a + b)[1..] == a[1..] + b;
      RollablesAppend(a[1..], b);
      var head := if Rollable(a[0]) then [a[0]] else [];
      var x, y := Rollables(a[1..]), Rollables(b);
      assert Rollables(a + b) == head + (x + y);
      assert Rollables(a) == head + x;
      assert head + (x + y) == (head + x) + y;
    }
  }

  /** A single die is kept exactly when it is rollable. */
  lemma RollablesOne(d: BoxDie)
    ensures Rollables([d]) == if Rollable(d) then [d] else []
  {
    assert [d][1..] == [];
  }

  /** Every rollable die of the input is kept. */
  lemma {:induction false} RollablesKeepAll(dice: seq<BoxDie>)
    ensures forall d :: d in dice && Rollable(d) ==> d in Rollables(dice)
    decreases |dice|
  {
    if dice != [] {
      RollablesKeepAll(dice[1..]);
      assert forall d :: d in dice ==> d == dice[0] || d in dice[1..];
    }
  }

  /** One roll per rollable die, in order; die `k` rolls from `draw(k, _)`. */
  method RollDiceBoxList(dice: seq<BoxDie>, draw: (nat, nat) -> int) returns (values: seq<int>)
    ensures |values| == |Rollables(dice)|
    ensures forall k :: 0 <= k < |values| ==>
      values[k] == Clamp(Rollables(dice)[k].sides.n, draw(k, 0)) &&
      1 <= values[k] <= Rollables(dice)[k].sides.n
  {
    var filtered := Rollables(dice);
    if |filtered| == 0 {
      return [];
    }
    values := [];
    for k := 0 to |filtered|
      invariant |values| == k
      invariant forall j :: 0 <= j < k ==> values[j] == Clamp(filtered[j].sides.n, draw(j, 0))
    {
      var rolled := SimulateDice(1, filtered[k].sides.n, (m: nat) => draw(k, m));
      values := values + rolled;
    }
  }
}
