/** Turning domain results into result cards: a dice roll, a table or oracle
    roll and an AI interpretation each become a card with a header, a
    multi-line content text, a result line, a source and display meta.
    Card ids and timestamps are produced elsewhere and arrive as parameters. */
module Converters {
  import opened Wrappers
  import opened Text
  import opened DiceExpression
  import opened DiceRoller

  datatype Source = DiceSource | TableSource | OracleSource | InterpretationSource | SystemSource | OtherSource

  /** The `meta` record of a card, restricted to the keys that are written
      or read anywhere; an absent key is `None`. */
  datatype Meta = Meta(
    resultColor: Option<string>, tableId: Option<string>, tableName: Option<string>,
    roll: Option<int>, category: Option<string>, sourcePath: Option<string>,
    oracleName: Option<string>, personaId: Option<string>, kind: Option<string>)

  const NoMeta := Meta(None, None, None, None, None, None, None, None, None)

  datatype ResultCard = ResultCard(
    id: string, timestamp: string, header: string, result: string, content: string,
    source: Option<Source>, meta: Meta)

  function SourceName(s: Source): string
  {
    match s
    case DiceSource => "dice"
    case TableSource => "table"
    case OracleSource => "oracle"
    case InterpretationSource => "interpretation"
    case SystemSource => "system"
    case OtherSource => "other"
  }

  const Green := "#22c55e"
  const Amber := "#d97706"
  const Red := "#ef4444"

  // ---------------------------------------------------------------------
  // Term helpers
  // ---------------------------------------------------------------------

  /** `getPrimaryTerm`: the position of the first dice or challenge term. */
  function PrimaryIndex(terms: seq<TermRollResult>): (r: Option<nat>)
    ensures r.Some? ==> r.value < |terms| && !terms[r.value].ConstantResult?
    ensures r.Some? ==> forall j :: 0 <= j < r.value ==> terms[j].ConstantResult?
    ensures r.None? <==> forall j :: 0 <= j < |terms| ==> terms[j].ConstantResult?
  {
    if terms == [] then None
    else if !terms[0].ConstantResult? then Some(0)
    else
      match PrimaryIndex(terms[1..])
      case None => None
      case Some(k) => Some(k + 1)
  }

  /** What a term adds to `getConstantSum`. */
  function ConstantPart(t: TermRollResult): int
  {
    if t.ConstantResult? then t.value else 0
  }

  /** `getConstantSum`: the sum of the signed constant terms. */
  function ConstantSum(terms: seq<TermRollResult>): int
  {
    if terms == [] then 0 else ConstantSum(terms[..|terms| - 1]) + ConstantPart(terms[|terms| - 1])
  }

  /** The values of the constant terms, in order: a value is there
      exactly when some constant term carries it. */
  function ConstantValues(terms: seq<TermRollResult>): (r: seq<int>)
    ensures |r| <= |terms|
    ensures forall v :: v in r <==> exists k :: 0 <= k < |terms| && terms[k].ConstantResult? && terms[k].value == v
  {
    if terms == [] then []
    else
      var last := terms[|terms| - 1];
      ConstantValues(terms[..|terms| - 1]) + (if last.ConstantResult? then [last.value] else [])
  }

  /** A dice term with no pool, explode or degrade rule. */
  predicate IsSimple(t: TermRollResult)
  {
    t.DiceResult? && t.dice.term.pool.None? && t.dice.term.explode.None? && t.dice.term.degrade.None?
  }

  /** The simple dice terms, in order: a dice result is there exactly
      when it is a simple term of `terms`. */
  function SimpleDiceTerms(terms: seq<TermRollResult>): (r: seq<DiceTermRollResult>)
    ensures |r| <= |terms|
    ensures forall i :: 0 <= i < |r| ==> IsSimple(DiceResult(r[i])) && DiceResult(r[i]) in terms
    ensures forall d :: d in r <==> DiceResult(d) in terms && IsSimple(DiceResult(d))
  {
    if terms == [] then []
    else
      var last := terms[|terms| - 1];
      var front := terms[..|terms| - 1];
      assert terms == front + [last];
      SimpleDiceTerms(front) + (if IsSimple(last) then [last.dice] else [])
  }

  /** Collecting constants commutes with concatenation, so the values keep
      the order of their terms. */
  lemma {:induction false} ConstantValuesAppend(a: seq<TermRollResult>, b: seq<TermRollResult>)
    ensures ConstantValues(a + b) == ConstantValues(a) + ConstantValues(b)
    decreases |b|
  {
    if b == [] {
      assert a + b == a;
    } else {
      var front := b[..|b| - 1];
      assert (a + b)[..|a + b| - 1] == a + front;
      assert b[..|b| - 1] == front;
      ConstantValuesAppend(a, front);
    }
  }

  /** Collecting simple dice terms commutes with concatenation, so they
      keep the order of their terms. */
  lemma {:induction false} SimpleDiceTermsAppend(a: seq<TermRollResult>, b: seq<TermRollResult>)
    ensures SimpleDiceTerms(a + b) == SimpleDiceTerms(a) + SimpleDiceTerms(b)
    decreases |b|
  {
    if b == [] {
      assert a + b == a;
    } else {
      var front := b[..|b| - 1];
      assert (a + b)[..|a + b| - 1] == a + front;
      SimpleDiceTermsAppend(a, front);
    }
  }

  // ---------------------------------------------------------------------
  // Text pieces
  // ---------------------------------------------------------------------

  /** A selection mode name with its hyphen turned into a space. */
  function ModeWords(m: SelectionMode): string
  {
    match m
    case KeepHighest => "keep highest"
    case KeepLowest => "keep lowest"
    case DropHighest => "drop highest"
    case DropLowest => "drop lowest"
  }

  /** `formatSelectionText`: " (keep highest)" and the like, or nothing. */
  function SelectionText(s: Option<Selection>): string
  {
    if s.None? then "" else " (" + ModeWords(s.value.mode) + ")"
  }

  /** A non-zero number with an explicit sign: "+3", "-2". */
  function SignedText(n: int): string
  {
    if n >= 0 then "+" + IntToString(n) else IntToString(n)
  }

  function DiceName(t: DiceTerm): string
  {
    NatToString(t.count) + "d" + NatToString(t.sides)
  }

  /** One die as shown in a card: a dropped die in parentheses. */
  function DieText(d: Die): string
  {
    if d.dropped then "(" + IntToString(d.value) + ")" else IntToString(d.value)
  }

  function RollsDisplay(dice: seq<Die>): string
  {
    Join(seq(|dice|, i requires 0 <= i < |dice| => DieText(dice[i])), ", ")
  }

  /** Die values only, dropped or not. */
  function ValuesDisplay(dice: seq<Die>): string
  {
    Join(seq(|dice|, i requires 0 <= i < |dice| => IntToString(dice[i].value)), ", ")
  }

  function IntsDisplay(xs: seq<int>): string
  {
    Join(seq(|xs|, i requires 0 <= i < |xs| => IntToString(xs[i])), ", ")
  }

  // ---------------------------------------------------------------------
  // Selection shorthand
  // ---------------------------------------------------------------------

  /** `key` followed by a digit starts at position `k` of `s`. */
  predicate ShorthandAt(s: string, key: string, k: nat)
  {
    OccursAt(s, key, k) && k + |key| < |s| && IsDigit(s[k + |key|])
  }

  /** `s.replace(/<key>(\d+)/g, words + " $1")`: every `key` followed by
      digits, searched left to right, becomes `words`, a space and the digits. */
  function Rewrite(s: string, key: string, words: string): string
    requires |key| > 0
    decreases |s|
  {
    if s == [] then []
    else if ShorthandAt(s, key, 0) then
      var d := LeadingDigits(s[|key|..]);
      assert d != [] by { assert IsDigit(s[|key|..][0]); }
      words + " " + d + Rewrite(s[|key| + |d|..], key, words)
    else [s[0]] + Rewrite(s[1..], key, words)
  }

  /** No `key` followed by a digit anywhere in `s`. */
  predicate NoShorthand(s: string, key: string)
  {
    forall k: nat | k < |s| :: !ShorthandAt(s, key, k)
  }

  /** None of the four selection shorthands. */
  predicate Unabbreviated(s: string)
  {
    NoShorthand(s, "kh") && NoShorthand(s, "kl") && NoShorthand(s, "dh") && NoShorthand(s, "dl")
  }

  /** `humanizeSelectionShorthand`: kh, kl, dh and dl followed by digits
      are spelled out, in that order. The text never gets shorter, gets
      longer when it holds a kh shorthand, and is unchanged when it holds
      none of the four. */
  function Humanize(e: string): (r: string)
    ensures |r| >= |e|
    ensures !NoShorthand(e, "kh") ==> |r| > |e|
    ensures Unabbreviated(e) ==> r == e
  {
    var a := Rewrite(e, "kh", "keep highest");
    var b := Rewrite(a, "kl", "keep lowest");
    var c := Rewrite(b, "dh", "drop highest");
    var d := Rewrite(c, "dl", "drop lowest");
    RewriteGrows(e, "kh", "keep highest");
    RewriteGrows(a, "kl", "keep lowest");
    RewriteGrows(b, "dh", "drop highest");
    RewriteGrows(c, "dl", "drop lowest");
    if Unabbreviated(e) then
      RewriteNoShorthand(e, "kh", "keep highest");
      RewriteNoShorthand(e, "kl", "keep lowest");
      RewriteNoShorthand(e, "dh", "drop highest");
      RewriteNoShorthand(e, "dl", "drop lowest");
      d
    else d
  }

  /** Shorthand found one position further on. */
  lemma ShorthandShift(s: string, key: string, k: nat)
    requires |s| > 0
    ensures ShorthandAt(s, key, k + 1) <==> ShorthandAt(s[1..], key, k)
  {
    if k + 1 + |key| <= |s| {
      assert s[k + 1..k + 1 + |key|] == s[1..][k..k + |key|];
    }
  }

  /** A rewrite never shortens the text, and lengthens it when it holds a
      shorthand. */
  lemma {:induction false} RewriteGrows(s: string, key: string, words: string)
    requires |key| > 0 && |words| + 1 > |key|
    ensures |Rewrite(s, key, words)| >= |s|
    ensures (exists k: nat :: ShorthandAt(s, key, k)) ==> |Rewrite(s, key, words)| > |s|
    decreases |s|
  {
    if s == [] {
    } else if ShorthandAt(s, key, 0) {
      var d := LeadingDigits(s[|key|..]);
      assert IsDigit(s[|key|..][0]);
      var rest := s[|key| + |d|..];
      RewriteGrows(rest, key, words);
      assert |s| == |key| + |d| + |rest|;
    } else {
      RewriteGrows(s[1..], key, words);
      assert Rewrite(s, key, words) == [s[0]] + Rewrite(s[1..], key, words);
      if exists k: nat :: ShorthandAt(s, key, k) {
        var k: nat :| ShorthandAt(s, key, k);
        assert k > 0;
        ShorthandShift(s, key, k - 1);
      }
    }
  }

  /** Without shorthand a rewrite changes nothing. */
  lemma {:induction false} RewriteNoShorthand(s: string, key: string, words: string)
    requires |key| > 0
    requires forall k: nat :: !ShorthandAt(s, key, k)
    ensures Rewrite(s, key, words) == s
    decreases |s|
  {
    if s != [] {
      assert !ShorthandAt(s, key, 0);
      forall k: nat ensures !ShorthandAt(s[1..], key, k) {
        ShorthandShift(s, key, k);
      }
      RewriteNoShorthand(s[1..], key, words);
      assert Rewrite(s, key, words) == [s[0]] + s[1..];
    }
  }

  /** A rewrite leaves the text unchanged exactly when it holds no
      shorthand. */
  lemma RewriteChangesIff(s: string, key: string, words: string)
    requires |key| > 0 && |words| + 1 > |key|
    ensures Rewrite(s, key, words) == s <==> forall k: nat :: !ShorthandAt(s, key, k)
  {
    RewriteGrows(s, key, words);
    if forall k: nat :: !ShorthandAt(s, key, k) {
      RewriteNoShorthand(s, key, words);
    }
  }

  /** A shorthand at the front is spelled out, and the rest is rewritten. */
  lemma RewriteFront(key: string, words: string, d: string, rest: string)
    requires |key| > 0 && |d| > 0 && AllDigits(d)
    requires rest == [] || !IsDigit(rest[0])
    ensures Rewrite(key + d + rest, key, words) == words + " " + d + Rewrite(rest, key, words)
  {
    FrontShorthand(key, d, rest);
  }

  /** The pieces `Rewrite` takes apart at a front shorthand. */
  lemma FrontShorthand(key: string, d: string, rest: string)
    requires |key| > 0 && |d| > 0 && AllDigits(d)
    requires rest == [] || !IsDigit(rest[0])
    ensures ShorthandAt(key + d + rest, key, 0)
    ensures LeadingDigits((key + d + rest)[|key|..]) == d
    ensures (key + d + rest)[|key| + |d|..] == rest
  {
    var s := key + (d + rest);
    assert key + d + rest == s;
    PrefixAndSuffix(key, d, rest);
    LeadingDigitsOfNumeral(d, rest);
    assert s[|key|] == d[0];
    assert OccursAt(s, key, 0);
    assert s[|key|..][|d|..] == rest;
  }

  /** `formatDiceLabel`: the written notation with shorthand spelled out,
      or, without it, the dice, selection and non-zero modifier. */
  function FormatDiceLabel(t: DiceTermRollResult, modifier: int, expression: string): (text: string)
    ensures StartsWith(text, "ROLLED ")
    ensures expression != [] ==> |text| >= 7 + |expression| && (Unabbreviated(expression) ==> text[7..] == expression)
    ensures expression == [] && modifier != 0 ==> EndsWith(text, " " + SignedText(modifier))
  {
    if expression != [] then "ROLLED " + Humanize(expression)
    else
      "ROLLED " + DiceName(t.term) + SelectionText(t.term.selection)
      + (if modifier != 0 then " " + SignedText(modifier) else "")
  }

  // ---------------------------------------------------------------------
  // Challenge cards
  // ---------------------------------------------------------------------

  function OutcomeText(o: Outcome): string
  {
    match o
    case StrongHit => "Strong Hit"
    case WeakHit => "Weak Hit"
    case Miss => "Miss"
  }

  /** `getChallengeOutcomeColor` on the three outcomes there are. */
  function ChallengeOutcomeColor(o: Outcome): string
  {
    match o
    case StrongHit => Green
    case WeakHit => Amber
    case Miss => Red
  }

  /** The outcome followed by the boon and complication flags. */
  function ChallengeResultText(o: Outcome, boon: bool, complication: bool): string
  {
    OutcomeText(o) + (if boon then " (Boon)" else "") + (if complication then " (Complication)" else "")
  }

  datatype Verdict = Verdict(outcome: Outcome, boon: bool, complication: bool)

  /** The outcome a challenge result line starts with. */
  function ReadOutcome(s: string): Option<Outcome>
  {
    if StartsWith(s, "Strong Hit") then Some(StrongHit)
    else if StartsWith(s, "Weak Hit") then Some(WeakHit)
    else if StartsWith(s, "Miss") then Some(Miss)
    else None
  }

  /** The boon and complication flags after the outcome. */
  function ReadFlags(rest: string): Option<(bool, bool)>
  {
    if rest == "" then Some((false, false))
    else if rest == " (Boon)" then Some((true, false))
    else if rest == " (Complication)" then Some((false, true))
    else if rest == " (Boon) (Complication)" then Some((true, true))
    else None
  }

  /** Reading a challenge result line back. */
  function ReadChallengeResult(s: string): Option<Verdict>
  {
    match ReadOutcome(s)
    case None => None
    case Some(o) =>
      match ReadFlags(s[|OutcomeText(o)|..])
      case None => None
      case Some(flags) => Some(Verdict(o, flags.0, flags.1))
  }

  /** The flags after the outcome, as a challenge result line shows them. */
  function FlagsText(boon: bool, complication: bool): string
  {
    (if boon then " (Boon)" else "") + (if complication then " (Complication)" else "")
  }

  /** The outcome named at the front of a challenge result line. */
  lemma OutcomeInFront(o: Outcome, flags: string)
    ensures var s := OutcomeText(o) + flags;
      ReadOutcome(s) == Some(o) && s[|OutcomeText(o)|..] == flags
  {
    var s := OutcomeText(o) + flags;
    assert s[..|OutcomeText(o)|] == OutcomeText(o);
    assert s[0] == OutcomeText(o)[0];
  }

  lemma FlagsReadable(boon: bool, complication: bool)
    ensures ReadFlags(FlagsText(boon, complication)) == Some((boon, complication))
  {
    if boon && complication {
      assert FlagsText(boon, complication) == " (Boon) (Complication)";
    }
  }

  /** The result line of a challenge card states its outcome and flags
      unambiguously. */
  lemma ChallengeResultReadable(o: Outcome, boon: bool, complication: bool)
    ensures ReadChallengeResult(ChallengeResultText(o, boon, complication)) == Some(Verdict(o, boon, complication))
  {
    var flags := FlagsText(boon, complication);
    assert ChallengeResultText(o, boon, complication) == OutcomeText(o) + flags;
    OutcomeInFront(o, flags);
    FlagsReadable(boon, complication);
  }

  /** "Action Roll" text: die, signed modifier when non-zero, and "= score". */
  function ActionText(c: ChallengeTermRollResult): string
  {
    IntToString(c.actionDie)
    + (if c.actionModifier != 0 then " " + SignedText(c.actionModifier) else "")
    + " = " + IntToString(c.actionScore)
  }

  function ChallengeScoresText(scores: seq<int>): string
  {
    if |scores| > 0 then IntsDisplay(scores) else "-"
  }

  /** The challenge card: header "CHALLENGE ROLL", a result line that reads
      back as the outcome and the two flags, and the outcome's colour. */
  function ChallengeCard(c: ChallengeTermRollResult, id: string, timestamp: string): (card: ResultCard)
    ensures card.header == "CHALLENGE ROLL" && card.source == Some(DiceSource)
    ensures ReadChallengeResult(card.result) == Some(Verdict(c.outcome, c.boon, c.complication))
    ensures card.meta.resultColor == Some(ChallengeOutcomeColor(c.outcome))
  {
    ChallengeResultReadable(c.outcome, c.boon, c.complication);
    ResultCard(
      id, timestamp, "CHALLENGE ROLL",
      ChallengeResultText(c.outcome, c.boon, c.complication),
      "Action Roll: " + ActionText(c) + "\nChallenge Roll: " + ChallengeScoresText(c.challengeScore),
      Some(DiceSource), NoMeta.(resultColor := Some(ChallengeOutcomeColor(c.outcome))))
  }

  // ---------------------------------------------------------------------
  // Dice cards
  // ---------------------------------------------------------------------

  /** One line of a several-term card: "2d6 (keep highest): 4, (1) = 4". */
  function DiceLine(t: DiceTermRollResult): string
  {
    var rolls := RollsDisplay(t.dice);
    DiceName(t.term) + SelectionText(t.term.selection) + ": "
    + (if rolls == [] then "-" else rolls) + " = " + IntToString(t.total)
  }

  function ConstantLine(v: int): string
  {
    "Modifier: " + IntToString(v)
  }

  function DiceLines(ts: seq<DiceTermRollResult>): seq<string>
  {
    seq(|ts|, i requires 0 <= i < |ts| => DiceLine(ts[i]))
  }

  function ConstantLines(vs: seq<int>): seq<string>
  {
    seq(|vs|, i requires 0 <= i < |vs| => ConstantLine(vs[i]))
  }

  /** The card for a roll with more than one simple dice term. */
  function MultiDiceCard(r: RollResult, simple: seq<DiceTermRollResult>, id: string, timestamp: string): ResultCard
  {
    var header := if r.expression.original != [] then "ROLLED " + Humanize(r.expression.original) else "ROLL RESULT";
    ResultCard(
      id, timestamp, header, IntToString(r.total),
      Join(DiceLines(simple) + ConstantLines(ConstantValues(r.terms)), "\n"),
      Some(DiceSource), NoMeta)
  }

  /** Whether a pool passed: the roller's verdict when there is one, else
      the successes against the target, else any success at all. */
  function PoolMet(t: DiceTermRollResult, needed: Option<nat>): bool
  {
    if t.metTarget.Some? then t.metTarget.value
    else
      var successes := t.successes.GetOr(0);
      if needed.Some? then successes >= needed.value else successes > 0
  }

  function SuccessLabel(n: nat): string
  {
    NatToString(n) + " success" + (if n == 1 then "" else "es")
  }

  function NeededText(needed: Option<nat>): string
  {
    if needed.Some? then NatToString(needed.value) else "-"
  }

  /** The pool card: its result starts with the success count and ends
      with PASS, coloured green, exactly when the pool is met. */
  function PoolCard(t: DiceTermRollResult, pool: PoolRules, id: string, timestamp: string): (card: ResultCard)
    ensures StartsWith(card.header, "DICE POOL - ")
    ensures ParseInt(card.result) == Some(t.successes.GetOr(0))
    ensures EndsWith(card.result, "PASS") <==> PoolMet(t, pool.target)
    ensures card.meta.resultColor == Some(if PoolMet(t, pool.target) then Green else Red)
  {
    var threshold := NatToString(pool.threshold);
    var met := PoolMet(t, pool.target);
    var header := "DICE POOL - " + (DiceName(t.term) + " T:" + threshold + " S:" + NeededText(pool.target));
    var result := SuccessLabel(t.successes.GetOr(0)) + " - " + (if met then "PASS" else "FAIL");
    assert StartsWith(header, "DICE POOL - ") by {
      Consume("DICE POOL - ", DiceName(t.term) + " T:" + threshold + " S:" + NeededText(pool.target));
    }
    assert ParseInt(result) == Some(t.successes.GetOr(0)) && (EndsWith(result, "PASS") <==> met) by {
      PoolResultText(t.successes.GetOr(0), met);
    }
    ResultCard(
      id, timestamp, header, result,
      "Rolls: " + ValuesDisplay(t.dice) + "\nTarget: " + threshold + "\nSuccesses Needed: " + NeededText(pool.target),
      Some(DiceSource), NoMeta.(resultColor := Some(if met then Green else Red)))
  }

  /** The degrade card: its result reads back as the total and carries
      " - DEGRADE" and the red colour exactly when the rule triggered. */
  function DegradeCard(t: DiceTermRollResult, rule: DegradeRule, id: string, timestamp: string): (card: ResultCard)
    ensures ParseInt(card.result) == Some(t.total)
    ensures EndsWith(card.result, " - DEGRADE") <==> t.degradeTriggered == Some(true)
    ensures card.meta.resultColor == Some(Red) <==> t.degradeTriggered == Some(true)
    ensures card.meta.resultColor.None? <==> t.degradeTriggered != Some(true)
  {
    var threshold := NatToString(rule.threshold);
    var triggered := t.degradeTriggered.GetOr(false);
    assert triggered <==> t.degradeTriggered == Some(true);
    var result := IntToString(t.total) + (if triggered then " - DEGRADE" else "");
    assert ParseInt(result) == Some(t.total) && (EndsWith(result, " - DEGRADE") <==> triggered) by {
      DegradeResultText(t.total, triggered);
    }
    ResultCard(
      id, timestamp,
      "DEGRADATION ROLL " + DiceName(t.term) + " D:" + threshold,
      result,
      "Roll: " + ValuesDisplay(t.dice) + "\nThreshold: " + threshold,
      Some(DiceSource), NoMeta.(resultColor := if triggered then Some(Red) else None))
  }

  function StandardLines(t: DiceTermRollResult, constantTotal: int): seq<string>
  {
    ["Rolls: " + RollsDisplay(t.dice)] + (if constantTotal != 0 then ["Modifier: " + SignedText(constantTotal)] else [])
  }

  /** The card for one simple dice term: the "Rolls:" line, then a
      "Modifier:" line exactly when the constants sum to something other
      than zero, reading back as that sum; the result reads back as the
      roll total. */
  function StandardCard(r: RollResult, t: DiceTermRollResult, id: string, timestamp: string): (card: ResultCard)
    ensures var lines := Split(card.content, '\n');
      var c := ConstantSum(r.terms);
      lines == StandardLines(t, c)
      && (|lines| == 2 <==> c != 0)
      && (c != 0 ==> StartsWith(lines[1], "Modifier: ") && ParseInt(lines[1][10..]) == Some(c))
      && ParseInt(card.result) == Some(r.total)
  {
    var constantTotal := ConstantSum(r.terms);
    StandardLinesShape(t, constantTotal);
    ParseSigned(constantTotal);
    ParsePrinted(r.total);
    ResultCard(
      id, timestamp, FormatDiceLabel(t, constantTotal, r.expression.original),
      IntToString(r.total), Join(StandardLines(t, constantTotal), "\n"),
      Some(DiceSource), NoMeta)
  }

  /** Term `k` is the first term that is not a constant. */
  predicate FirstNonConstant(terms: seq<TermRollResult>, k: int)
  {
    0 <= k < |terms| && !terms[k].ConstantResult? && forall j :: 0 <= j < k ==> terms[j].ConstantResult?
  }

  /** The primary term is the first one that is not a constant. */
  lemma PrimaryIsFirst(terms: seq<TermRollResult>)
    ensures forall k :: FirstNonConstant(terms, k) ==> PrimaryIndex(terms) == Some(k)
  {
    forall k | FirstNonConstant(terms, k) ensures PrimaryIndex(terms) == Some(k) {
      var p := PrimaryIndex(terms);
    }
  }

  /** `convertDiceToCard`: none when the roll has only constants;
      otherwise the card the first non-constant term calls for: the
      challenge card for a challenge, the multi-dice card when there is
      more than one simple dice term, else the pool card, the degrade
      card or the standard card of that term, in that order. */
  function ConvertDiceToCard(r: RollResult, id: string, timestamp: string): (card: Option<ResultCard>)
    ensures card.None? <==> forall j :: 0 <= j < |r.terms| ==> r.terms[j].ConstantResult?
    ensures card.Some? ==> card.value.source == Some(DiceSource) && card.value.id == id && card.value.timestamp == timestamp
    ensures forall k :: FirstNonConstant(r.terms, k) && r.terms[k].ChallengeResult? ==>
      card == Some(ChallengeCard(r.terms[k].challenge, id, timestamp))
    ensures forall k :: FirstNonConstant(r.terms, k) && r.terms[k].DiceResult? ==>
      var t := r.terms[k].dice;
      var simple := SimpleDiceTerms(r.terms);
      (|simple| > 1 ==> card == Some(MultiDiceCard(r, simple, id, timestamp))) &&
      (|simple| <= 1 && t.term.pool.Some? ==> card == Some(PoolCard(t, t.term.pool.value, id, timestamp))) &&
      (|simple| <= 1 && t.term.pool.None? && t.term.degrade.Some? ==>
        card == Some(DegradeCard(t, t.term.degrade.value, id, timestamp))) &&
      (|simple| <= 1 && t.term.pool.None? && t.term.degrade.None? ==> card == Some(StandardCard(r, t, id, timestamp)))
  {
    PrimaryIsFirst(r.terms);
    match PrimaryIndex(r.terms)
    case None => None
    case Some(k) =>
      var term := r.terms[k];
      if term.ChallengeResult? then Some(ChallengeCard(term.challenge, id, timestamp))
      else
        var simple := SimpleDiceTerms(r.terms);
        var t := term.dice;
        if |simple| > 1 then Some(MultiDiceCard(r, simple, id, timestamp))
        else if t.term.pool.Some? then Some(PoolCard(t, t.term.pool.value, id, timestamp))
        else if t.term.degrade.Some? then Some(DegradeCard(t, t.term.degrade.value, id, timestamp))
        else Some(StandardCard(r, t, id, timestamp))
  }

  // ---------------------------------------------------------------------
  // Facts about dice cards
  // ---------------------------------------------------------------------

  /** With only constants, the constant sum is the roll total; with none,
      it is zero. */
  lemma {:induction false} ConstantSumAgainstTotal(terms: seq<TermRollResult>)
    ensures (forall j :: 0 <= j < |terms| ==> terms[j].ConstantResult?) ==> ConstantSum(terms) == TotalOf(terms)
    ensures (forall j :: 0 <= j < |terms| ==> !terms[j].ConstantResult?) ==> ConstantSum(terms) == 0
  {
    if terms != [] {
      ConstantSumAgainstTotal(terms[..|terms| - 1]);
    }
  }

  /** Signed and plain numerals read back as the number. */
  lemma ParseSigned(n: int)
    ensures ParseInt(SignedText(n)) == Some(n)
  {
    if n < 0 {
      ParseIntOfIntToString(n, []);
      assert IntToString(n) + [] == IntToString(n);
    } else {
      var d := NatToString(n);
      DigitsValueOfNatToString(n);
      LeadingDigitsOfNumeral(d, []);
      assert d + [] == d;
      var s := SignedText(n);
      assert s == "+" + d;
      assert !IsSpace(s[0]) by { SignOrDigitNotSpace(s[0]); }
      assert TrimStart(s) == s;
      assert SignStripped(s) == d;
    }
  }

  /** Joined separator-free parts hold no separator character. */
  lemma {:induction false} JoinAvoids(parts: seq<string>, sep: string, c: char)
    requires c !in sep
    requires forall i :: 0 <= i < |parts| ==> c !in parts[i]
    ensures c !in Join(parts, sep)
    decreases |parts|
  {
    if |parts| > 1 {
      JoinAvoids(parts[1..], sep, c);
    }
  }

  lemma NoBreakInNumerals(i: int, n: nat)
    ensures '\n' !in IntToString(i) && '\n' !in NatToString(n)
  {
    IntToStringHasNo(i, '\n');
    assert AllDigits(NatToString(n));
  }

  lemma NoBreakInRolls(dice: seq<Die>)
    ensures '\n' !in RollsDisplay(dice)
  {
    var texts := seq(|dice|, i requires 0 <= i < |dice| => DieText(dice[i]));
    forall i | 0 <= i < |texts| ensures '\n' !in texts[i] {
      NoBreakInNumerals(dice[i].value, 0);
    }
    JoinAvoids(texts, ", ", '\n');
  }

  lemma NoBreakInDiceLine(t: DiceTermRollResult)
    ensures '\n' !in DiceLine(t)
  {
    var rolls := RollsDisplay(t.dice);
    NoBreakInRolls(t.dice);
    var shown := if rolls == [] then "-" else rolls;
    var selection := SelectionText(t.term.selection);
    assert '\n' !in selection by {
      if t.term.selection.Some? {
        assert '\n' !in ModeWords(t.term.selection.value.mode);
      }
    }
    NoBreakInNumerals(t.total, t.term.count);
    NoBreakInNumerals(0, t.term.sides);
    assert DiceLine(t) == DiceName(t.term) + selection + ": " + shown + " = " + IntToString(t.total);
  }

  /** A printed number alone reads back as the number. */
  lemma ParsePrinted(i: int)
    ensures ParseInt(IntToString(i)) == Some(i)
  {
    ParseIntOfIntToString(i, []);
    assert IntToString(i) + [] == IntToString(i);
  }

  /** A several-term card lists one line per simple dice term, then one per
      constant, and its result reads back as the roll total. */
  lemma MultiDiceCardLines(r: RollResult, simple: seq<DiceTermRollResult>, id: string, timestamp: string)
    requires |simple| > 1
    ensures var card := MultiDiceCard(r, simple, id, timestamp);
      Split(card.content, '\n') == DiceLines(simple) + ConstantLines(ConstantValues(r.terms))
      && ParseInt(card.result) == Some(r.total)
  {
    var lines := DiceLines(simple) + ConstantLines(ConstantValues(r.terms));
    forall i | 0 <= i < |lines| ensures '\n' !in lines[i] {
      if i < |simple| {
        NoBreakInDiceLine(simple[i]);
      } else {
        NoBreakInNumerals(ConstantValues(r.terms)[i - |simple|], 0);
      }
    }
    SplitJoin(lines, '\n');
    ParsePrinted(r.total);
  }

  /** A dropped die is shown in parentheses, a kept one bare, and the
      number inside reads back as the die's value. */
  lemma DieTextReadable(d: Die)
    ensures d.dropped <==> |DieText(d)| > 0 && DieText(d)[0] == '('
    ensures ParseInt(if d.dropped then DieText(d)[1..] else DieText(d)) == Some(d.value)
  {
    var v := IntToString(d.value);
    if d.dropped {
      DroppedDieReads(d.value);
    } else {
      ParsePrinted(d.value);
      assert v[0] == '-' || IsDigit(v[0]);
    }
  }

  lemma DroppedDieReads(value: int)
    ensures ParseInt(("(" + IntToString(value) + ")")[1..]) == Some(value)
  {
    assert ("(" + IntToString(value) + ")")[1..] == IntToString(value) + ")";
    ParseIntOfIntToString(value, ")");
  }

  /** The pool verdict, for a die pool the roller evaluated: the target
      reached when there is a target, any success otherwise. */
  lemma PoolMetOfRolled(term: DiceTerm, values: seq<int>)
    requires term.pool.Some?
    ensures var t := EvaluatedDice(term, values);
      var successes := t.successes.GetOr(0);
      PoolMet(t, term.pool.value.target) <==>
        if term.pool.value.target.Some? then successes >= term.pool.value.target.value else successes > 0
  {
  }

  /** A pool result starts with the success count and ends with PASS
      exactly when the pool is met. */
  lemma PoolResultText(n: nat, met: bool)
    ensures var result := SuccessLabel(n) + " - " + (if met then "PASS" else "FAIL");
      ParseInt(result) == Some(n) && (EndsWith(result, "PASS") <==> met)
  {
    var status := if met then "PASS" else "FAIL";
    var tail := " success" + (if n == 1 then "" else "es") + " - " + status;
    var result := SuccessLabel(n) + " - " + status;
    assert IntToString(n) == NatToString(n);
    assert result == IntToString(n) + tail;
    ParseIntOfIntToString(n, tail);
    StatusAtEnd(SuccessLabel(n) + " - ", status);
  }

  lemma StatusAtEnd(front: string, status: string)
    requires status == "PASS" || status == "FAIL"
    ensures EndsWith(front + status, "PASS") <==> status == "PASS"
  {
    assert (front + status)[|front + status| - 4..] == status;
  }

  /** The last character of a numeral is a digit. */
  lemma NumeralEndsInDigit(i: int)
    ensures IsDigit(IntToString(i)[|IntToString(i)| - 1])
  {
    var d := NatToString(if i < 0 then -i else i);
    assert IsDigit(d[|d| - 1]);
    if i < 0 { assert IntToString(i) == "-" + d; }
  }

  /** A degrade result reads back as the total and ends with " - DEGRADE"
      exactly when the rule triggered. */
  lemma DegradeResultText(total: int, triggered: bool)
    ensures var result := IntToString(total) + (if triggered then " - DEGRADE" else "");
      ParseInt(result) == Some(total) && (EndsWith(result, " - DEGRADE") <==> triggered)
  {
    var v := IntToString(total);
    var tail := if triggered then " - DEGRADE" else "";
    ParseIntOfIntToString(total, tail);
    if triggered {
      assert (v + tail)[|v + tail| - 10..] == tail;
    } else {
      NumeralEndsInDigit(total);
      assert v + tail == v;
    }
  }

  /** The "Rolls:" line, then a "Modifier:" line exactly when the constants
      sum to something other than zero. */
  lemma StandardLinesShape(t: DiceTermRollResult, c: int)
    ensures var lines := StandardLines(t, c);
      Split(Join(lines, "\n"), '\n') == lines
      && (|lines| == 2 <==> c != 0)
      && (c != 0 ==> StartsWith(lines[1], "Modifier: ") && lines[1][10..] == SignedText(c))
  {
    var lines := StandardLines(t, c);
    NoBreakInRolls(t.dice);
    assert '\n' !in lines[0];
    if c != 0 {
      NoBreakInNumerals(c, 0);
      assert lines[1] == "Modifier: " + SignedText(c);
      assert '\n' !in lines[1];
    }
    SplitJoin(lines, '\n');
  }

  // ---------------------------------------------------------------------
  // Table and interpretation cards
  // ---------------------------------------------------------------------

  /** The header of a table card: source, category when there is one, and
      table name, in capitals. */
  function TableHeader(tableName: string, category: Option<string>, isOracle: bool): string
  {
    var sourceText := ToUpper(SourceName(if isOracle then OracleSource else TableSource));
    var categoryText := if category.Some? && category.value != [] then ToUpper(category.value) + ", " else "";
    sourceText + ": " + (categoryText + ToUpper(tableName))
  }

  /** `convertTableToCard`. */
  function ConvertTableToCard(
    tableId: string, tableName: string, roll: int, resultText: string,
    category: Option<string>, sourcePath: Option<string>, isOracle: bool,
    id: string, timestamp: string): (card: ResultCard)
    ensures card.source == Some(OracleSource) <==> isOracle
    ensures StartsWith(card.header, if isOracle then "ORACLE: " else "TABLE: ")
    ensures EndsWith(card.header, ToUpper(tableName))
    ensures StartsWith(card.content, "Roll ") && ParseInt(card.content[5..]) == Some(roll)
    ensures EndsWith(card.content, " on " + tableName)
    ensures card.result == resultText
  {
    TableHeaderShape(tableName, category, isOracle);
    RollOnReads(roll, tableName);
    ResultCard(
      id, timestamp, TableHeader(tableName, category, isOracle), resultText,
      "Roll " + IntToString(roll) + " on " + tableName,
      Some(if isOracle then OracleSource else TableSource),
      NoMeta.(tableId := Some(tableId), tableName := Some(tableName), roll := Some(roll),
              category := category, sourcePath := sourcePath))
  }

  lemma RollOnReads(roll: int, tableName: string)
    ensures var content := "Roll " + IntToString(roll) + " on " + tableName;
      StartsWith(content, "Roll ") && ParseInt(content[5..]) == Some(roll)
      && EndsWith(content, " on " + tableName)
  {
    var tail := " on " + tableName;
    var rest := IntToString(roll) + tail;
    var content := "Roll " + IntToString(roll) + " on " + tableName;
    assert content == "Roll " + rest;
    PrefixAndSuffix("Roll ", IntToString(roll), tail);
    ParseIntOfIntToString(roll, tail);
  }

  lemma TableHeaderShape(tableName: string, category: Option<string>, isOracle: bool)
    ensures var header := TableHeader(tableName, category, isOracle);
      StartsWith(header, if isOracle then "ORACLE: " else "TABLE: ")
      && EndsWith(header, ToUpper(tableName))
  {
    var front := if isOracle then "ORACLE: " else "TABLE: ";
    SourceWord(isOracle);
    var middle := if category.Some? && category.value != [] then ToUpper(category.value) + ", " else "";
    PrefixAndSuffix(front, middle, ToUpper(tableName));
  }

  lemma SourceWord(isOracle: bool)
    ensures ToUpper(SourceName(if isOracle then OracleSource else TableSource)) + ": "
      == if isOracle then "ORACLE: " else "TABLE: "
  {
    if isOracle {
      assert ToUpper("oracle") == "ORACLE";
    } else {
      assert ToUpper("table") == "TABLE";
    }
  }

  /** Upper-casing twice is upper-casing once. */
  lemma ToUpperIdempotent(s: string)
    ensures ToUpper(ToUpper(s)) == ToUpper(s)
  {
  }

  /** `convertInterpretationToCard`. */
  function ConvertInterpretationToCard(
    oracleName: string, personaId: string, snapshot: string, interpretation: string,
    id: string, timestamp: string): ResultCard
  {
    ResultCard(
      id, timestamp, "INTERPRETATION: " + ToUpper(oracleName), snapshot, interpretation,
      Some(InterpretationSource), NoMeta.(oracleName := Some(oracleName), personaId := Some(personaId)))
  }

  /** An interpretation card's header is in capitals and ends with the
      oracle's name; its body is the interpretation, its result the snapshot. */
  lemma InterpretationCardShape(
    oracleName: string, personaId: string, snapshot: string, interpretation: string,
    id: string, timestamp: string)
    ensures var card := ConvertInterpretationToCard(oracleName, personaId, snapshot, interpretation, id, timestamp);
      ToUpper(card.header) == card.header
      && StartsWith(card.header, "INTERPRETATION: ")
      && card.header[16..] == ToUpper(oracleName)
      && card.content == interpretation && card.result == snapshot
      && card.source == Some(InterpretationSource)
  {
    var h := "INTERPRETATION: " + ToUpper(oracleName);
    assert ToUpper("INTERPRETATION: ") == "INTERPRETATION: ";
    assert ToUpper(h) == ToUpper("INTERPRETATION: ") + ToUpper(ToUpper(oracleName));
    ToUpperIdempotent(oracleName);
  }
}
