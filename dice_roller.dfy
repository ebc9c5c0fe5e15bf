/** Evaluating parsed dice notation: supplied die values become kept and
    dropped dice, signed term totals, pool successes, degrade triggers,
    percentile values and challenge outcomes. The random number generator
    is a parameter: `draw(k)` is the k-th die roll it produces, already
    scaled to the die being rolled and before the clamp to its faces. */
module DiceRoller {
  import opened Wrappers
  import opened Sorting
  import opened DiceExpression

  /** One rolled die of a dice term. */
  datatype Die = Die(index: nat, value: int, kept: bool, dropped: bool)

  datatype DiceTermRollResult = DiceTermRollResult(
    term: DiceTerm, dice: seq<Die>, total: int,
    successes: Option<nat>, metTarget: Option<bool>,
    degradeTriggered: Option<bool>, degradeStep: Option<nat>)

  datatype Outcome = StrongHit | WeakHit | Miss

  datatype ChallengeTermRollResult = ChallengeTermRollResult(
    term: Term, actionDie: int, actionModifier: int, actionScore: int,
    signedActionScore: int, challengeDice: seq<int>, challengeModifier: int,
    challengeScore: seq<int>, outcome: Outcome, boon: bool, complication: bool)

  datatype TermRollResult =
    | DiceResult(dice: DiceTermRollResult)
    | ConstantResult(value: int)
    | ChallengeResult(challenge: ChallengeTermRollResult)

  datatype RollResult = RollResult(
    expression: Expression, total: int, successes: Option<int>, terms: seq<TermRollResult>)

  function Min(a: int, b: int): int
  {
    if a <= b then a else b
  }

  function Max(a: int, b: int): int
  {
    if a >= b then a else b
  }

  /** `Math.min(Math.max(roll, 1), sides)`, the clamp of one die roll. */
  function RollSingleDie(sides: nat, roll: int): (v: int)
    ensures sides >= 1 ==> 1 <= v <= sides
    ensures sides >= 1 && 1 <= roll <= sides ==> v == roll
  {
    Min(Max(roll, 1), sides)
  }

  // ---------------------------------------------------------------------
  // Filling a term with dice

  /** The supplied value at `index`, else the last supplied value, else the
      number of sides. */
  function FillValue(values: seq<int>, index: nat, sides: nat): int
  {
    if index < |values| then values[index]
    else if values != [] then values[|values| - 1]
    else sides
  }

  /** `count` kept dice carrying the supplied values. */
  function Filled(values: seq<int>, count: nat, sides: nat): seq<Die>
  {
    seq(count, i requires 0 <= i < count => Die(i, FillValue(values, i, sides), true, false))
  }

  // ---------------------------------------------------------------------
  // Selection: keep or drop the highest or lowest dice

  /** The order of `(a, b) => a.value - b.value`. */
  predicate Lower(a: Die, b: Die)
  {
    a.value < b.value
  }

  /** The order of `(a, b) => b.value - a.value`. */
  predicate Higher(a: Die, b: Die)
  {
    a.value > b.value
  }

  /** The dice sorted by ascending value, ties in their given order. */
  function Ascending(dice: seq<Die>): seq<Die>
  {
    InsertionSort(dice, Lower)
  }

  /** The ascending order re-sorted by descending value. */
  function Descending(dice: seq<Die>): seq<Die>
  {
    InsertionSort(Ascending(dice), Higher)
  }

  predicate TakesHighest(mode: SelectionMode)
  {
    mode == KeepHighest || mode == DropHighest
  }

  predicate Keeps(mode: SelectionMode)
  {
    mode == KeepHighest || mode == KeepLowest
  }

  /** The `target` dice whose indices the selection marks. */
  function Chosen(mode: SelectionMode, dice: seq<Die>, target: nat): seq<Die>
    requires target <= |dice|
  {
    if TakesHighest(mode) then Descending(dice)[..target] else Ascending(dice)[..target]
  }

  function IndexSet(indices: seq<nat>): set<nat>
  {
    set k | k in indices
  }

  function Indices(dice: seq<Die>): seq<nat>
  {
    seq(|dice|, i requires 0 <= i < |dice| => dice[i].index)
  }

  /** Each die is kept exactly when its membership in `indices` agrees with
      `indicesAreKept`, and dropped otherwise. */
  function Marked(dice: seq<Die>, indices: set<nat>, indicesAreKept: bool): seq<Die>
  {
    seq(|dice|, i requires 0 <= i < |dice| =>
      var keep := (dice[i].index in indices) == indicesAreKept;
      dice[i].(kept := keep, dropped := !keep))
  }

  /** The dice after `applySelection`. */
  function Selected(selection: Option<Selection>, dice: seq<Die>): seq<Die>
  {
    match selection
    case None => dice
    case Some(s) =>
      var target := Min(s.count, |dice|);
      if target <= 0 then dice
      else Marked(dice, IndexSet(Indices(Chosen(s.mode, dice, target))), Keeps(s.mode))
  }

  method MarkDice(dice: array<Die>, indices: seq<nat>, indicesAreKept: bool)
    modifies dice
    ensures dice[..] == Marked(old(dice[..]), IndexSet(indices), indicesAreKept)
  {
    var inSet := set k | k in indices;
    ghost var before := dice[..];
    for i := 0 to dice.Length
      invariant forall k :: i <= k < dice.Length ==> dice[k] == before[k]
      invariant forall k :: 0 <= k < i ==> dice[k] == Marked(before, inSet, indicesAreKept)[k]
    {
      var shouldKeep := (dice[i].index in inSet) == indicesAreKept;
      dice[i] := dice[i].(kept := shouldKeep, dropped := !shouldKeep);
    }
  }

  method ApplySelection(term: DiceTerm, dice: array<Die>)
    modifies dice
    ensures dice[..] == Selected(term.selection, old(dice[..]))
  {
    if term.selection.None? {
      return;
    }
    var s := term.selection.value;
    var target := Min(s.count, dice.Length);
    if target <= 0 {
      return;
    }
    var chosen := Chosen(s.mode, dice[..], target);
    MarkDice(dice, Indices(chosen), Keeps(s.mode));
  }

  // ---------------------------------------------------------------------
  // Pools and degrade

  /** `compare(value, comparator, threshold)`. */
  function Compare(value: int, comparator: Comparator, threshold: int): bool
  {
    match comparator
    case Gt => value > threshold
    case Ge => value >= threshold
    case Lt => value < threshold
    case Le => value <= threshold
    case Eq => value == threshold
  }

  /** Positions of the dice, dropped ones included, that meet the rule. */
  function Meeting(dice: seq<Die>, comparator: Comparator, threshold: int): set<nat>
  {
    set k: nat | k < |dice| && Compare(dice[k].value, comparator, threshold)
  }

  datatype PoolInfo = PoolInfo(successes: nat, metTarget: Option<bool>)

  /** Counts every die meeting the success rule; the target is met when the
      count reaches it. */
  method EvaluatePool(pool: PoolRules, dice: seq<Die>) returns (info: PoolInfo)
    ensures info.successes == |Meeting(dice, pool.comparator, pool.threshold)|
    ensures info.successes <= |dice|
    ensures info.metTarget == if pool.target.Some? then Some(info.successes >= pool.target.value) else None
  {
    var successes := 0;
    for i := 0 to |dice|
      invariant successes == |set k: nat | k < i && Compare(dice[k].value, pool.comparator, pool.threshold)|
      invariant successes <= i
    {
      ghost var seen := set k: nat | k < i && Compare(dice[k].value, pool.comparator, pool.threshold);
      ghost var next := set k: nat | k < i + 1 && Compare(dice[k].value, pool.comparator, pool.threshold);
      if Compare(dice[i].value, pool.comparator, pool.threshold) {
        assert next == seen + {i};
        successes := successes + 1;
      } else {
        assert next == seen;
      }
    }
    assert (set k: nat | k < |dice| && Compare(dice[k].value, pool.comparator, pool.threshold))
      == Meeting(dice, pool.comparator, pool.threshold);
    var metTarget := if pool.target.Some? then Some(successes >= pool.target.value) else None;
    info := PoolInfo(successes, metTarget);
  }

  /** `dice.some(die => compare(die.value, comparator, threshold))`. */
  function SomeMeets(dice: seq<Die>, comparator: Comparator, threshold: int): (r: bool)
    ensures r <==> exists k :: 0 <= k < |dice| && Compare(dice[k].value, comparator, threshold)
  {
    if dice == [] then false
    else if Compare(dice[0].value, comparator, threshold) then true
    else
      var r := SomeMeets(dice[1..], comparator, threshold);
      assert forall k :: 1 <= k < |dice| ==> dice[k] == dice[1..][k - 1];
      r
  }

  datatype DegradeInfo = DegradeInfo(triggered: bool, stepAmount: nat)

  function EvaluateDegrade(rule: DegradeRule, dice: seq<Die>): (r: DegradeInfo)
    ensures r.triggered <==> exists k :: 0 <= k < |dice| && Compare(dice[k].value, rule.comparator, rule.threshold)
    ensures r.stepAmount == if rule.step.Some? then rule.step.value else 1
  {
    DegradeInfo(SomeMeets(dice, rule.comparator, rule.threshold), rule.step.GetOr(1))
  }

  // ---------------------------------------------------------------------
  // Dice terms

  /** The sum of the values of the dice not dropped, negated for `-`. */
  function KeptTotal(dice: seq<Die>, op: Operator): int
  {
    if dice == [] then 0
    else
      var last := dice[|dice| - 1];
      KeptTotal(dice[..|dice| - 1], op) + (if last.dropped then 0 else if op == Plus then last.value else -last.value)
  }

  /** The result `evaluateDiceTerm` produces for `term` and `values`. */
  function EvaluatedDice(term: DiceTerm, values: seq<int>): DiceTermRollResult
  {
    var dice := Selected(term.selection, Filled(values, term.count, term.sides));
    var successes := if term.pool.Some? then Some(|Meeting(dice, term.pool.value.comparator, term.pool.value.threshold)|) else None;
    var metTarget :=
      if term.pool.Some? && term.pool.value.target.Some? then Some(successes.value >= term.pool.value.target.value)
      else None;
    var degrade := if term.degrade.Some? then Some(EvaluateDegrade(term.degrade.value, dice)) else None;
    DiceTermRollResult(
      term, dice, KeptTotal(dice, term.op), successes, metTarget,
      if degrade.Some? then Some(degrade.value.triggered) else None,
      if degrade.Some? then Some(degrade.value.stepAmount) else None)
  }

  method EvaluateDiceTerm(term: DiceTerm, values: seq<int>) returns (r: DiceTermRollResult)
    ensures r == EvaluatedDice(term, values)
  {
    var dice := new Die[term.count];
    for index := 0 to term.count
      invariant forall k :: 0 <= k < index ==> dice[k] == Filled(values, term.count, term.sides)[k]
    {
      var value := if index < |values| then values[index] else if values != [] then values[|values| - 1] else term.sides;
      dice[index] := Die(index, value, true, false);
    }
    assert dice[..] == Filled(values, term.count, term.sides);
    ApplySelection(term, dice);
    var marked := dice[..];
    var total := KeptTotal(marked, term.op);
    var successes: Option<nat> := None;
    var metTarget: Option<bool> := None;
    if term.pool.Some? {
      var info := EvaluatePool(term.pool.value, marked);
      successes := Some(info.successes);
      metTarget := info.metTarget;
    }
    var degradeTriggered: Option<bool> := None;
    var degradeStep: Option<nat> := None;
    if term.degrade.Some? {
      var info := EvaluateDegrade(term.degrade.value, marked);
      degradeTriggered := Some(info.triggered);
      degradeStep := Some(info.stepAmount);
    }
    r := DiceTermRollResult(term, marked, total, successes, metTarget, degradeTriggered, degradeStep);
  }

  // ---------------------------------------------------------------------
  // Challenge terms

  /** `beats.every(Boolean)`. */
  function BeatsAll(actionScore: int, scores: seq<int>): (r: bool)
    ensures r <==> forall k :: 0 <= k < |scores| ==> actionScore > scores[k]
  {
    if scores == [] then true
    else
      var r := BeatsAll(actionScore, scores[1..]);
      assert forall k :: 1 <= k < |scores| ==> scores[k] == scores[1..][k - 1];
      actionScore > scores[0] && r
  }

  /** `beats.some(Boolean)`. */
  function BeatsSome(actionScore: int, scores: seq<int>): (r: bool)
    ensures r <==> exists k :: 0 <= k < |scores| && actionScore > scores[k]
  {
    if scores == [] then false
    else
      var r := BeatsSome(actionScore, scores[1..]);
      assert forall k :: 1 <= k < |scores| ==> scores[k] == scores[1..][k - 1];
      actionScore > scores[0] || r
  }

  /** Strong Hit when the action score beats every challenge score, Weak Hit
      when it beats some, Miss otherwise or with fewer than two scores. */
  function ChallengeOutcome(actionScore: int, scores: seq<int>): (o: Outcome)
    ensures |scores| < 2 ==> o == Miss
    ensures |scores| >= 2 ==>
      (o == StrongHit <==> forall k :: 0 <= k < |scores| ==> actionScore > scores[k])
    ensures |scores| >= 2 ==>
      (o == WeakHit <==>
        (exists k :: 0 <= k < |scores| && actionScore > scores[k]) &&
        (exists k :: 0 <= k < |scores| && actionScore <= scores[k]))
    ensures o == Miss <==> |scores| < 2 || forall k :: 0 <= k < |scores| ==> actionScore <= scores[k]
  {
    if |scores| < 2 then Miss
    else if BeatsAll(actionScore, scores) then StrongHit
    else if BeatsSome(actionScore, scores) then WeakHit
    else Miss
  }

  /** `new Set(scores).size`. */
  function DistinctCount(scores: seq<int>): nat
  {
    |set x | x in scores|
  }

  /** Every score is the same, and there is at least one. */
  predicate AllEqual(scores: seq<int>)
  {
    scores != [] && forall i, j :: 0 <= i < |scores| && 0 <= j < |scores| ==> scores[i] == scores[j]
  }

  /** One distinct value exactly when the scores are non-empty and all equal. */
  lemma DistinctCountOne(scores: seq<int>)
    ensures DistinctCount(scores) == 1 <==> AllEqual(scores)
  {
    var values := set x | x in scores;
    if AllEqual(scores) {
      assert values == {scores[0]};
    } else if scores != [] {
      var i, j :| 0 <= i < |scores| && 0 <= j < |scores| && scores[i] != scores[j];
      var pair := {scores[i], scores[j]};
      assert |pair| == 2;
      assert values == pair + (values - pair);
      assert |values| == |pair| + |values - pair|;
    } else {
      assert values == {};
    }
  }

  function CheckBoon(outcome: Outcome, scores: seq<int>): bool
  {
    outcome == StrongHit && DistinctCount(scores) == 1
  }

  function CheckComplication(outcome: Outcome, scores: seq<int>): bool
  {
    outcome == Miss && DistinctCount(scores) == 1
  }

  function AddModifier(values: seq<int>, modifier: int): (r: seq<int>)
    ensures |r| == |values|
    ensures forall k :: 0 <= k < |values| ==> r[k] == values[k] + modifier
  {
    if values == [] then [] else [values[0] + modifier] + AddModifier(values[1..], modifier)
  }

  /** `evaluateChallengeTerm` for a challenge term. */
  function EvaluateChallengeTerm(term: Term, actionDie: int, challengeDice: seq<int>): (r: ChallengeTermRollResult)
    requires term.Challenge?
    ensures r.actionScore == actionDie + term.config.actionModifier
    ensures r.signedActionScore == if term.op == Plus then r.actionScore else -r.actionScore
    ensures |r.challengeScore| == |challengeDice|
    ensures forall k :: 0 <= k < |challengeDice| ==> r.challengeScore[k] == challengeDice[k] + term.config.challengeModifier
    ensures r.outcome == ChallengeOutcome(r.actionScore, r.challengeScore)
    ensures r.boon <==> r.outcome == StrongHit && AllEqual(r.challengeScore)
    ensures r.complication <==> r.outcome == Miss && AllEqual(r.challengeScore)
  {
    var config := term.config;
    var actionScore := actionDie + config.actionModifier;
    var challengeScore := AddModifier(challengeDice, config.challengeModifier);
    var signedActionScore := actionScore * (if term.op == Plus then 1 else -1);
    var outcome := ChallengeOutcome(actionScore, challengeScore);
    DistinctCountOne(challengeScore);
    ChallengeTermRollResult(
      term, actionDie, config.actionModifier, actionScore, signedActionScore,
      challengeDice, config.challengeModifier, challengeScore, outcome,
      CheckBoon(outcome, challengeScore), CheckComplication(outcome, challengeScore))
  }

  // ---------------------------------------------------------------------
  // Percentile values

  /** JavaScript's `%`: the remainder takes the sign of the dividend. */
  function JsRem(a: int, b: int): int
    requires b > 0
  {
    if a >= 0 then a % b else -((-a) % b)
  }

  /** A d100 tens die and a d10 ones die read as 1..100: the tens die
      reports 100 for "00" and the ones die 10 for "0", and "00" with "0"
      is 100. */
  function ComputePercentileValue(tensRaw: int, onesRaw: int): (v: int)
    ensures tensRaw >= 0 && onesRaw >= 0 ==> 1 <= v <= 100
  {
    var sanitizedTens := if tensRaw == 100 then 0 else JsRem(tensRaw, 100);
    var tensNormalized := (sanitizedTens / 10) * 10;
    var onesNormalized := if onesRaw == 10 then 0 else JsRem(onesRaw, 10);
    var total := if tensNormalized == 0 && onesNormalized == 0 then 100 else tensNormalized + onesNormalized;
    if total == 0 then 100 else total
  }

  /** The tens value at `i`, or a fresh d100 roll where the list is short. */
  function TensAt(tens: seq<int>, i: nat, tensFallback: nat -> int): int
  {
    if i < |tens| then tens[i] else RollSingleDie(100, tensFallback(i))
  }

  function OnesAt(ones: seq<int>, i: nat, onesFallback: nat -> int): int
  {
    if i < |ones| then ones[i] else RollSingleDie(10, onesFallback(i))
  }

  /** Pairs the i-th tens and ones values into percentile values, as many
      as the longer list; a missing partner is rolled from the fallback. */
  method CombinePercentileValues(tens: seq<int>, ones: seq<int>, tensFallback: nat -> int, onesFallback: nat -> int)
    returns (combined: seq<int>)
    ensures |combined| == Max(|tens|, |ones|)
    ensures forall i :: 0 <= i < |combined| ==>
      combined[i] == ComputePercentileValue(TensAt(tens, i, tensFallback), OnesAt(ones, i, onesFallback))
    ensures (forall k :: 0 <= k < |tens| ==> tens[k] >= 0) && (forall k :: 0 <= k < |ones| ==> ones[k] >= 0) ==>
      forall i :: 0 <= i < |combined| ==> 1 <= combined[i] <= 100
  {
    combined := [];
    var length := Max(|tens|, |ones|);
    for i := 0 to length
      invariant |combined| == i
      invariant forall j :: 0 <= j < i ==>
        combined[j] == ComputePercentileValue(TensAt(tens, j, tensFallback), OnesAt(ones, j, onesFallback))
    {
      var tensValue := if i < |tens| then tens[i] else RollSingleDie(100, tensFallback(i));
      var onesValue := if i < |ones| then ones[i] else RollSingleDie(10, onesFallback(i));
      combined := combined + [ComputePercentileValue(tensValue, onesValue)];
    }
  }

  // ---------------------------------------------------------------------
  // Rolling an expression

  /** How many rolls of the generator a term consumes. */
  function DrawsFor(t: Term): nat
  {
    match t
    case Constant(_, _, _) => 0
    case Challenge(c, _, _) => 1 + c.challengeCount
    case Dice(d) => if d.sides == 100 then 2 * d.count else d.count
  }

  /** The values `rollDiceTerm` draws, starting at roll `cursor`: a d100
      term takes a tens and a ones roll per die. */
  function DrawnValues(d: DiceTerm, draw: nat -> int, cursor: nat): seq<int>
  {
    if d.sides == 100 then
      seq(d.count, i requires 0 <= i < d.count =>
        ComputePercentileValue(RollSingleDie(100, draw(cursor + 2 * i)), RollSingleDie(10, draw(cursor + 2 * i + 1))))
    else
      seq(d.count, i requires 0 <= i < d.count => RollSingleDie(d.sides, draw(cursor + i)))
  }

  function ChallengeDrawn(c: ChallengeConfig, draw: nat -> int, cursor: nat): seq<int>
  {
    seq(c.challengeCount, i requires 0 <= i < c.challengeCount => RollSingleDie(c.challengeSides, draw(cursor + 1 + i)))
  }

  /** The result of one term, its rolls starting at `cursor`. */
  function RolledTerm(t: Term, draw: nat -> int, cursor: nat): TermRollResult
  {
    match t
    case Constant(v, op, _) => ConstantResult(if op == Plus then v else -v)
    case Challenge(c, _, _) =>
      ChallengeResult(EvaluateChallengeTerm(t, RollSingleDie(c.actionSides, draw(cursor)), ChallengeDrawn(c, draw, cursor)))
    case Dice(d) => DiceResult(EvaluatedDice(d, DrawnValues(d, draw, cursor)))
  }

  /** The rolls consumed by the terms before those that follow `terms`. */
  function DrawsUpTo(terms: seq<Term>): nat
  {
    if terms == [] then 0 else DrawsUpTo(terms[..|terms| - 1]) + DrawsFor(terms[|terms| - 1])
  }

  /** What one term adds to the roll total. */
  function Contribution(r: TermRollResult): int
  {
    match r
    case ConstantResult(v) => v
    case ChallengeResult(c) => c.signedActionScore
    case DiceResult(d) => d.total
  }

  function TotalOf(results: seq<TermRollResult>): int
  {
    if results == [] then 0 else TotalOf(results[..|results| - 1]) + Contribution(results[|results| - 1])
  }

  /** The sum of the pool successes, absent when no term is a pool. */
  function SuccessesOf(results: seq<TermRollResult>): Option<int>
  {
    if results == [] then None
    else
      var prior := SuccessesOf(results[..|results| - 1]);
      var last := results[|results| - 1];
      if last.DiceResult? && last.dice.successes.Some? then Some(prior.GetOr(0) + last.dice.successes.value)
      else prior
  }

  method RollSingle(sides: nat, draw: nat -> int, cursor: nat) returns (v: int, next: nat)
    ensures v == RollSingleDie(sides, draw(cursor)) && next == cursor + 1
  {
    v := Min(Max(draw(cursor), 1), sides);
    next := cursor + 1;
  }

  method RollDiceTerm(term: DiceTerm, draw: nat -> int, cursor: nat) returns (r: DiceTermRollResult, next: nat)
    ensures r == EvaluatedDice(term, DrawnValues(term, draw, cursor))
    ensures next == cursor + DrawsFor(Dice(term))
  {
    var values: seq<int> := [];
    next := cursor;
    if term.sides == 100 {
      for index := 0 to term.count
        invariant next == cursor + 2 * index
        invariant values == DrawnValues(term, draw, cursor)[..index]
      {
        var tens, ones;
        tens, next := RollSingle(100, draw, next);
        ones, next := RollSingle(10, draw, next);
        values := values + [ComputePercentileValue(tens, ones)];
      }
    } else {
      for index := 0 to term.count
        invariant next == cursor + index
        invariant values == DrawnValues(term, draw, cursor)[..index]
      {
        var v;
        v, next := RollSingle(term.sides, draw, next);
        values := values + [v];
      }
    }
    assert values == DrawnValues(term, draw, cursor);
    r := EvaluateDiceTerm(term, values);
  }

  method RollChallengeTerm(term: Term, draw: nat -> int, cursor: nat) returns (r: ChallengeTermRollResult, next: nat)
    requires term.Challenge?
    ensures r == EvaluateChallengeTerm(term, RollSingleDie(term.config.actionSides, draw(cursor)), ChallengeDrawn(term.config, draw, cursor))
    ensures next == cursor + DrawsFor(term)
  {
    var config := term.config;
    var actionDie;
    actionDie, next := RollSingle(config.actionSides, draw, cursor);
    var challengeDice: seq<int> := [];
    for i := 0 to config.challengeCount
      invariant next == cursor + 1 + i
      invariant challengeDice == ChallengeDrawn(config, draw, cursor)[..i]
    {
      var v;
      v, next := RollSingle(config.challengeSides, draw, next);
      challengeDice := challengeDice + [v];
    }
    assert challengeDice == ChallengeDrawn(config, draw, cursor);
    r := EvaluateChallengeTerm(term, actionDie, challengeDice);
  }

  /** One term of `roll`'s loop: a constant is signed, a challenge or dice
      term is rolled from the generator. */
  method RollTerm(term: Term, draw: nat -> int, cursor: nat) returns (result: TermRollResult, next: nat)
    ensures result == RolledTerm(term, draw, cursor)
    ensures next == cursor + DrawsFor(term)
  {
    match term {
      case Constant(v, op, _) =>
        result := ConstantResult(if op == Plus then v else -v);
        next := cursor;
      case Challenge(_, _, _) =>
        var challengeResult;
        challengeResult, next := RollChallengeTerm(term, draw, cursor);
        result := ChallengeResult(challengeResult);
      case Dice(d) =>
        var diceResult;
        diceResult, next := RollDiceTerm(d, draw, cursor);
        result := DiceResult(diceResult);
    }
  }

  /** The results of the terms in order, each drawing from where the
      previous ones stopped. */
  function RolledTerms(terms: seq<Term>, draw: nat -> int): (rs: seq<TermRollResult>)
    ensures |rs| == |terms|
  {
    if terms == [] then []
    else
      var init := terms[..|terms| - 1];
      RolledTerms(init, draw) + [RolledTerm(terms[|terms| - 1], draw, DrawsUpTo(init))]
  }

  /** The i-th result is the i-th term rolled after the draws of the terms
      before it. */
  lemma {:induction false} RolledTermsAt(terms: seq<Term>, draw: nat -> int, i: nat)
    requires i < |terms|
    ensures RolledTerms(terms, draw)[i] == RolledTerm(terms[i], draw, DrawsUpTo(terms[..i]))
  {
    var init := terms[..|terms| - 1];
    if i < |terms| - 1 {
      RolledTermsAt(init, draw, i);
      assert init[..i] == terms[..i];
    }
  }

  lemma RolledTermsStep(terms: seq<Term>, draw: nat -> int, i: nat)
    requires i < |terms|
    ensures RolledTerms(terms[..i + 1], draw) == RolledTerms(terms[..i], draw) + [RolledTerm(terms[i], draw, DrawsUpTo(terms[..i]))]
    ensures DrawsUpTo(terms[..i + 1]) == DrawsUpTo(terms[..i]) + DrawsFor(terms[i])
  {
    assert terms[..i + 1][..i] == terms[..i];
  }

  lemma TotalsSnoc(results: seq<TermRollResult>, last: TermRollResult)
    ensures TotalOf(results + [last]) == TotalOf(results) + Contribution(last)
    ensures SuccessesOf(results + [last]) ==
      if last.DiceResult? && last.dice.successes.Some? then Some(SuccessesOf(results).GetOr(0) + last.dice.successes.value)
      else SuccessesOf(results)
  {
    assert (results + [last])[..|results|] == results;
  }

  /** Adding one term's result to the running total and successes. */
  method Accumulate(prior: seq<TermRollResult>, total: int, successes: Option<int>, result: TermRollResult)
    returns (total': int, successes': Option<int>)
    requires total == TotalOf(prior) && successes == SuccessesOf(prior)
    ensures total' == TotalOf(prior + [result]) && successes' == SuccessesOf(prior + [result])
  {
    TotalsSnoc(prior, result);
    total' := total + Contribution(result);
    successes' := successes;
    if result.DiceResult? && result.dice.successes.Some? {
      successes' := Some(successes.GetOr(0) + result.dice.successes.value);
    }
  }

  /** Rolls every term in order, drawing from the generator from roll 0;
      the total adds up the term contributions and the successes add up
      the pool terms. */
  method Roll(expression: Expression, draw: nat -> int) returns (r: RollResult)
    ensures r.expression == expression
    ensures r.terms == RolledTerms(expression.terms, draw)
    ensures r.total == TotalOf(r.terms)
    ensures r.successes == SuccessesOf(r.terms)
  {
    var total := 0;
    var totalSuccesses: Option<int> := None;
    var termResults: seq<TermRollResult> := [];
    var cursor: nat := 0;
    var terms := expression.terms;
    for i := 0 to |terms|
      invariant cursor == DrawsUpTo(terms[..i])
      invariant termResults == RolledTerms(terms[..i], draw)
      invariant total == TotalOf(termResults)
      invariant totalSuccesses == SuccessesOf(termResults)
    {
      RolledTermsStep(terms, draw, i);
      var result, next := RollTerm(terms[i], draw, cursor);
      total, totalSuccesses := Accumulate(termResults, total, totalSuccesses, result);
      termResults := termResults + [result];
      cursor := next;
    }
    assert terms[..|terms|] == terms;
    r := RollResult(expression, total, totalSuccesses, termResults);
  }
}
