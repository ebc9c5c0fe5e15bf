/** Properties of the dice notation grammar that relate several of its
    operations: tokenizing, parsing fragments and describing terms. */
module DiceExpressionFacts {
  import opened Wrappers
  import opened Text
  import opened DiceExpression

  /** A plain term with no modifiers. */
  function PlainDice(count: nat, sides: nat, op: Operator, source: string): DiceTerm
  {
    DiceTerm(count, sides, None, None, None, None, None, op, source)
  }

  /** The fragment the tokenizer makes of a described term. */
  function AsFragment(text: string, op: Operator): string
  {
    if op == Plus then "+" + text else text
  }

  lemma OpOfSigned(c: char, rest: string)
    ensures OpOf([c] + rest) == if c == '-' then Minus else Plus
  {
    assert ([c] + rest)[..1] == [c];
  }

  lemma NoChallengeHere(body: string)
    requires body != [] && (IsDigit(body[0]) || body[0] == 'd')
    ensures ChallengeMatch(body).None?
  {
    if |body| >= 9 {
      assert ToLower(body[..9])[0] == LowerChar(body[0]);
    }
  }

  /** `NdS`, or `dS` for a single die. */
  function PlainText(count: nat, sides: nat): string
  {
    (if count == 1 then "" else NatToString(count)) + "d" + NatToString(sides)
  }

  lemma DescribePlain(count: nat, sides: nat, op: Operator, source: string)
    ensures DescribeTerm(Dice(PlainDice(count, sides, op, source))) ==
      (if op == Minus then "-" else "") + PlainText(count, sides)
  {
    var d := PlainDice(count, sides, op, source);
    assert DiceBaseText(d) == PlainText(count, sides);
    assert SuffixText(d) == [];
  }

  lemma PlainNotChallenge(count: nat, sides: nat, fragment: string)
    requires |fragment| >= 1 && fragment[1..] == PlainText(count, sides)
    ensures TryParseChallenge(fragment) == None
  {
    var base := PlainText(count, sides);
    assert Body(fragment) == base;
    if count != 1 {
      assert base[0] == NatToString(count)[0];
    }
    NoChallengeHere(base);
  }

  lemma StandardUnmodified(fragment: string, count: nat, sides: nat)
    requires count > 0 && sides > 0
    ensures StandardDice(fragment, count, sides, []) == Some(Dice(PlainDice(count, sides, OpOf(fragment), fragment)))
  {
    assert ParseModifiers([], sides) == Modifiers(None, None, None, None, []);
    assert Trim([]) == [];
  }

  lemma PlainAfterCount(fragment: string, count: nat, sides: nat)
    ensures DiceAfterCount(fragment, count, "d" + NatToString(sides)) == StandardDice(fragment, count, sides, [])
  {
    var sidesText := NatToString(sides);
    var afterCount := "d" + sidesText;
    assert afterCount[1] == sidesText[0];
    assert !IsPercentSign(afterCount[1]);
    LeadingDigitsOfNumeral(sidesText, []);
    assert afterCount[1..] == sidesText + [];
    assert afterCount[1 + |sidesText|..] == [];
    DigitsValueOfNatToString(sides);
  }

  lemma PlainDiceRule(count: nat, sides: nat, fragment: string)
    requires count > 0 && sides > 0
    requires |fragment| >= 1 && fragment[1..] == PlainText(count, sides)
    ensures TryParseDice(fragment) == Some(Dice(PlainDice(count, sides, OpOf(fragment), fragment)))
  {
    var base := PlainText(count, sides);
    assert Body(fragment) == base;
    var countDigits := PlainCountPrefix(count, sides);
    assert TryParseDice(fragment) == DiceAfterCount(fragment, count, "d" + NatToString(sides));
    PlainAfterCount(fragment, count, sides);
    StandardUnmodified(fragment, count, sides);
  }

  /** The count digits of `NdS` are read back as N, and `dS` follows them. */
  lemma PlainCountPrefix(count: nat, sides: nat) returns (countDigits: string)
    requires count > 0
    ensures countDigits == LeadingDigits(PlainText(count, sides))
    ensures (if countDigits == [] then 1 else DigitsValue(countDigits)) == count
    ensures PlainText(count, sides)[|countDigits|..] == "d" + NatToString(sides)
  {
    countDigits := if count == 1 then "" else NatToString(count);
    var afterCount := "d" + NatToString(sides);
    assert PlainText(count, sides) == countDigits + afterCount;
    LeadingDigitsOfNumeral(countDigits, afterCount);
    if count != 1 {
      DigitsValueOfNatToString(count);
    }
  }

  lemma PlainFragment(count: nat, sides: nat, sign: char, fragment: string)
    requires count > 0 && sides > 0
    requires fragment == [sign] + PlainText(count, sides)
    ensures ParseFragment(fragment) == Some(Dice(PlainDice(count, sides, OpOf(fragment), fragment)))
  {
    assert fragment[1..] == PlainText(count, sides);
    PlainNotChallenge(count, sides, fragment);
    PlainDiceRule(count, sides, fragment);
    DiceWins(fragment, Dice(PlainDice(count, sides, OpOf(fragment), fragment)));
  }

  /** A plain `NdS` is described as `NdS` (`dS` when N is 1), and parsing
      the described fragment gives back the term. */
  lemma PlainDiceRoundTrip(count: nat, sides: nat, op: Operator)
    requires count > 0 && sides > 0
    ensures DescribeTerm(Dice(PlainDice(count, sides, op, ""))) == (if op == Minus then "-" else "") + PlainText(count, sides)
    ensures var fragment := AsFragment(DescribeTerm(Dice(PlainDice(count, sides, op, ""))), op);
      ParseFragment(fragment) == Some(Dice(PlainDice(count, sides, op, fragment)))
  {
    DescribePlain(count, sides, op, "");
    var text := DescribeTerm(Dice(PlainDice(count, sides, op, "")));
    var fragment := AsFragment(text, op);
    var sign := if op == Plus then '+' else '-';
    assert fragment == [sign] + PlainText(count, sides);
    OpOfSigned(sign, PlainText(count, sides));
    PlainFragment(count, sides, sign, fragment);
  }

  /** A fragment the challenge rule declines and the dice rule accepts is
      a dice term. */
  lemma DiceWins(fragment: string, term: Term)
    requires TryParseChallenge(fragment) == None
    requires TryParseDice(fragment) == Some(term)
    ensures ParseFragment(fragment) == Some(term)
  {
  }

  lemma PercentileNotChallenge(raw: string)
    requires raw != [] && AllDigits(raw)
    ensures TryParseChallenge("+d%" + raw) == None
  {
    var fragment := "+d%" + raw;
    var body := "d%" + raw;
    assert fragment == ['+'] + body;
    assert Body(fragment) == body;
    NoChallengeHere(body);
  }

  lemma PercentAfterCount(fragment: string, count: nat, raw: string)
    requires raw != [] && AllDigits(raw)
    ensures DiceAfterCount(fragment, count, "d%" + raw) == PercentileDice(fragment, count, raw, [])
  {
    var afterCount := "d%" + raw;
    assert afterCount[0] == 'd' && IsPercentSign(afterCount[1]);
    assert afterCount[2..] == raw + [];
    LeadingDigitsOfNumeral(raw, []);
    assert LeadingDigits(afterCount[2..]) == raw;
    assert afterCount[2 + |raw|..] == [];
    assert NoLineTerminator([]);
  }

  lemma PercentileDiceRule(raw: string)
    requires raw != [] && AllDigits(raw)
    ensures TryParseDice("+d%" + raw) == PercentileDice("+d%" + raw, 1, raw, [])
  {
    var fragment := "+d%" + raw;
    var body := "d%" + raw;
    assert fragment == ['+'] + body;
    assert Body(fragment) == body;
    LeadingDigitsOfNumeral([], body);
    assert body[0..] == body;
    PercentAfterCount(fragment, 1, raw);
  }

  lemma PercentileUnmodified(fragment: string, raw: string)
    requires AllDigits(raw) && (|raw| == 2 || raw == "100")
    ensures PercentileDice(fragment, 1, raw, []) == Some(Dice(DiceTerm(1,
      if raw == "100" then 100 else DigitValue(raw[0]) * 10 + DigitValue(raw[1]),
      if raw == "100" then None else Some(Percentile(DigitValue(raw[0]), DigitValue(raw[1]), raw)),
      None, None, None, None, OpOf(fragment), fragment)))
  {
    assert ParseModifiers([], 10) == Modifiers(None, None, None, None, []);
    assert Trim([]) == [];
  }

  lemma OpOfPlusPercentile(raw: string)
    ensures OpOf("+d%" + raw) == Plus
  {
    assert "+d%" + raw == ['+'] + ("d%" + raw);
    OpOfSigned('+', "d%" + raw);
  }

  /** Two digits after `d%` name the sides of the tens die and of the ones
      die, e.g. `d%66` rolls two six-sided dice read as 11..66. */
  lemma PercentileTwoDigits(raw: string)
    requires |raw| == 2 && AllDigits(raw)
    ensures var tens := DigitValue(raw[0]); var ones := DigitValue(raw[1]);
      ParseFragment("+d%" + raw) == Some(Dice(DiceTerm(1, tens * 10 + ones, Some(Percentile(tens, ones, raw)),
        None, None, None, None, Plus, "+d%" + raw)))
  {
    var fragment := "+d%" + raw;
    OpOfPlusPercentile(raw);
    PercentileNotChallenge(raw);
    PercentileDiceRule(raw);
    PercentileUnmodified(fragment, raw);
    DiceWins(fragment, PercentileDice(fragment, 1, raw, []).value);
  }

  /** `d%100` is an ordinary hundred-sided die. */
  lemma PercentileHundred(raw: string)
    requires raw == "100"
    ensures ParseFragment("+d%" + raw) == Some(Dice(DiceTerm(1, 100, None,
      None, None, None, None, Plus, "+d%" + raw)))
  {
    var fragment := "+d%" + raw;
    OpOfPlusPercentile(raw);
    PercentileNotChallenge(raw);
    PercentileDiceRule(raw);
    PercentileUnmodified(fragment, raw);
    DiceWins(fragment, PercentileDice(fragment, 1, raw, []).value);
  }

  /** A bare `challenge`, in any letter case, is the d6 action die against
      two d10 challenge dice with no modifiers. */
  lemma BareChallenge(fragment: string)
    requires |fragment| == 10 && ToLower(fragment[1..]) == "challenge"
    ensures ParseFragment(fragment) == Some(Challenge(DefaultChallenge, OpOf(fragment), fragment))
  {
    assert Body(fragment)[..9] == Body(fragment);
  }

  /** Zero dice are never a dice term. */
  lemma ZeroCountRejected(fragment: string)
    requires LeadingDigits(Body(fragment)) != [] && DigitsValue(LeadingDigits(Body(fragment))) == 0
    ensures TryParseDice(fragment) == None
  {
  }

  // ---------------------------------------------------------------------
  // The summary text

  /** Every `-` is followed by a character that is not whitespace. */
  predicate MinusGuarded(s: string)
  {
    forall i :: 0 <= i < |s| && s[i] == '-' ==> i + 1 < |s| && !IsSpace(s[i + 1])
  }

  lemma GuardedConcat(a: string, b: string)
    requires MinusGuarded(a) && MinusGuarded(b)
    ensures MinusGuarded(a + b)
  {
    forall i | 0 <= i < |a + b| && (a + b)[i] == '-'
      ensures i + 1 < |a + b| && !IsSpace((a + b)[i + 1])
    {
      if i >= |a| {
        assert (a + b)[i] == b[i - |a|];
      }
    }
  }

  lemma GuardedDigits(s: string)
    requires AllDigits(s)
    ensures MinusGuarded(s)
  {
    forall i | 0 <= i < |s| ensures s[i] != '-' {
      assert IsDigit(s[i]);
    }
  }

  lemma GuardedInt(i: int)
    ensures MinusGuarded(IntToString(i))
  {
    if i < 0 {
      var d := NatToString(-i);
      GuardedDigits(d);
      assert IsDigit(d[0]);
      assert ['-'] + d == IntToString(i);
      forall k | 0 <= k < |IntToString(i)| && IntToString(i)[k] == '-'
        ensures k + 1 < |IntToString(i)| && !IsSpace(IntToString(i)[k + 1])
      {
        if k > 0 {
          assert IntToString(i)[k] == d[k - 1];
        }
      }
    } else {
      GuardedDigits(NatToString(i));
    }
  }

  lemma GuardedModifiedDie(countText: string, sides: nat, modifier: int)
    requires MinusGuarded(countText)
    ensures MinusGuarded(ModifiedDieText(countText, sides, modifier))
  {
    GuardedDigits(NatToString(sides));
    GuardedInt(modifier);
    GuardedConcat(countText, "d");
    GuardedConcat(countText + "d", NatToString(sides));
    var sign := if modifier >= 0 then "+" else "";
    GuardedConcat(sign, IntToString(modifier));
    var tail := if modifier != 0 then sign + IntToString(modifier) else "";
    GuardedConcat(countText + "d" + NatToString(sides), tail);
  }

  lemma GuardedNoMinus(s: string)
    requires '-' !in s
    ensures MinusGuarded(s)
  {
  }

  /** A fixed piece followed by a number. */
  lemma GuardedNumbered(piece: string, n: nat)
    requires '-' !in piece
    ensures MinusGuarded(piece + NatToString(n))
  {
    GuardedNoMinus(piece);
    GuardedDigits(NatToString(n));
    GuardedConcat(piece, NatToString(n));
  }

  lemma GuardedOptionalNumber(piece: string, n: Option<nat>)
    requires '-' !in piece
    ensures MinusGuarded(if n.Some? then piece + NatToString(n.value) else "")
  {
    if n.Some? {
      GuardedNumbered(piece, n.value);
    }
  }

  lemma GuardedComparator(c: Comparator)
    ensures '-' !in ComparatorText(c) && '-' !in "!" + ComparatorText(c)
  {
  }

  lemma GuardedSelection(s: Selection)
    ensures MinusGuarded(SelectionText(s))
  {
    var tag := SelectionText(s)[..2];
    assert tag == "kh" || tag == "kl" || tag == "dh" || tag == "dl";
    GuardedNumbered(tag, s.count);
  }

  lemma GuardedPool(p: PoolRules)
    ensures MinusGuarded(PoolText(p))
  {
    GuardedComparator(p.comparator);
    GuardedNumbered(ComparatorText(p.comparator), p.threshold);
    GuardedOptionalNumber("#", p.target);
    GuardedConcat(ComparatorText(p.comparator) + NatToString(p.threshold),
      if p.target.Some? then "#" + NatToString(p.target.value) else "");
  }

  lemma GuardedExplode(e: ExplodeRule, sides: nat)
    ensures MinusGuarded(ExplodeText(e, sides))
  {
    GuardedNumbered("!", e.threshold);
  }

  lemma GuardedDegrade(r: DegradeRule)
    ensures MinusGuarded(DegradeText(r))
  {
    GuardedComparator(r.comparator);
    GuardedNumbered("!" + ComparatorText(r.comparator), r.threshold);
    GuardedOptionalNumber(":", r.step);
    GuardedConcat("!" + ComparatorText(r.comparator) + NatToString(r.threshold),
      if r.step.Some? then ":" + NatToString(r.step.value) else "");
  }

  lemma GuardedSuffix(d: DiceTerm)
    ensures MinusGuarded(SuffixText(d))
  {
    var a := if d.selection.Some? then SelectionText(d.selection.value) else "";
    var b := if d.pool.Some? then PoolText(d.pool.value) else "";
    var c := if d.explode.Some? then ExplodeText(d.explode.value, d.sides) else "";
    var g := if d.degrade.Some? then DegradeText(d.degrade.value) else "";
    if d.selection.Some? { GuardedSelection(d.selection.value); }
    if d.pool.Some? { GuardedPool(d.pool.value); }
    if d.explode.Some? { GuardedExplode(d.explode.value, d.sides); }
    if d.degrade.Some? { GuardedDegrade(d.degrade.value); }
    GuardedConcat(a, b);
    GuardedConcat(a + b, c);
    GuardedConcat(a + b + c, g);
  }

  lemma GuardedBase(d: DiceTerm)
    requires d.percentile.Some? ==> AllDigits(d.percentile.value.raw)
    ensures MinusGuarded(DiceBaseText(d)) && DiceBaseText(d) != [] && !IsSpace(DiceBaseText(d)[0])
  {
    var countText := if d.count == 1 then "" else NatToString(d.count);
    GuardedDigits(NatToString(d.count));
    GuardedDigits(NatToString(d.sides));
    if d.percentile.Some? {
      GuardedDigits(d.percentile.value.raw);
      GuardedConcat(countText, "d%");
      GuardedConcat(countText + "d%", d.percentile.value.raw);
    } else if d.count == 1 {
      GuardedConcat("d", NatToString(d.sides));
    } else {
      GuardedConcat(countText, "d");
      GuardedConcat(countText + "d", NatToString(d.sides));
    }
    if d.count != 1 {
      assert DiceBaseText(d)[0] == NatToString(d.count)[0];
    }
  }

  lemma GuardedChallenge(c: ChallengeConfig)
    ensures MinusGuarded("challenge(" + ModifiedDieText("", c.actionSides, c.actionModifier) + " vs "
        + ModifiedDieText(NatToString(c.challengeCount), c.challengeSides, c.challengeModifier) + ")")
  {
    GuardedModifiedDie("", c.actionSides, c.actionModifier);
    GuardedDigits(NatToString(c.challengeCount));
    GuardedModifiedDie(NatToString(c.challengeCount), c.challengeSides, c.challengeModifier);
    var action := ModifiedDieText("", c.actionSides, c.actionModifier);
    var challenge := ModifiedDieText(NatToString(c.challengeCount), c.challengeSides, c.challengeModifier);
    GuardedNoMinus("challenge(");
    GuardedNoMinus(" vs ");
    GuardedNoMinus(")");
    GuardedConcat("challenge(", action);
    GuardedConcat("challenge(" + action, " vs ");
    GuardedConcat("challenge(" + action + " vs ", challenge);
    GuardedConcat("challenge(" + action + " vs " + challenge, ")");
  }

  lemma GuardedTermText(t: Term)
    requires WellFormed(t)
    ensures MinusGuarded(TermText(t)) && TermText(t) != [] && !IsSpace(TermText(t)[0])
  {
    match t
    case Constant(v, _, _) =>
      GuardedDigits(NatToString(Abs(v)));
      assert IsDigit(TermText(t)[0]);
    case Challenge(c, _, _) =>
      GuardedChallenge(c);
    case Dice(d) =>
      GuardedBase(d);
      GuardedSuffix(d);
      GuardedConcat(DiceBaseText(d), SuffixText(d));
  }

  lemma GuardedDescribeTerm(t: Term)
    requires WellFormed(t)
    ensures MinusGuarded(DescribeTerm(t))
  {
    GuardedTermText(t);
    var text := TermText(t);
    if t.Op() == Minus {
      forall k | 0 <= k < |DescribeTerm(t)| && DescribeTerm(t)[k] == '-'
        ensures k + 1 < |DescribeTerm(t)| && !IsSpace(DescribeTerm(t)[k + 1])
      {
        assert DescribeTerm(t) == ['-'] + text;
        if k > 0 {
          assert DescribeTerm(t)[k] == text[k - 1];
        }
      }
    } else {
      assert DescribeTerm(t) == text;
    }
  }

  lemma {:induction false} GuardedJoin(parts: seq<string>, sep: string)
    requires forall k :: 0 <= k < |parts| ==> MinusGuarded(parts[k])
    requires MinusGuarded(sep)
    ensures MinusGuarded(Join(parts, sep))
  {
    if |parts| > 1 {
      GuardedJoin(parts[1..], sep);
      GuardedConcat(parts[0], sep);
      GuardedConcat(parts[0] + sep, Join(parts[1..], sep));
    }
  }

  /** The replacement only rewrites a `-` that whitespace follows. */
  lemma {:induction false} ReplaceUnchanged(s: string)
    requires MinusGuarded(s)
    ensures ReplacePlusSpaceMinusSpace(s) == s
  {
    if s != [] {
      assert !(|s| >= 4 && s[2] == '-' && IsSpace(s[3]));
      assert MinusGuarded(s[1..]) by {
        forall i | 0 <= i < |s[1..]| && s[1..][i] == '-'
          ensures i + 1 < |s[1..]| && !IsSpace(s[1..][i + 1])
        {
          assert s[i + 1] == '-';
        }
      }
      ReplaceUnchanged(s[1..]);
    }
  }

  /** As written, `describe` never applies its `+ - ` rewrite: a
      subtracted term is printed `-x`, never with whitespace after the
      `-`, so the summary is exactly the term texts joined by " + ". */
  lemma DescribeIsPlainJoin(e: Expression)
    requires e.terms != []
    requires forall k :: 0 <= k < |e.terms| ==> WellFormed(e.terms[k])
    ensures Describe(e) == Join(DescribeTerms(e.terms), " + ")
  {
    var parts := DescribeTerms(e.terms);
    forall k | 0 <= k < |parts| ensures MinusGuarded(parts[k]) {
      GuardedDescribeTerm(e.terms[k]);
    }
    GuardedJoin(parts, " + ");
    ReplaceUnchanged(Join(parts, " + "));
  }

  lemma DescribeTermsPair(first: Term, second: Term)
    ensures DescribeTerms([first, second]) == [DescribeTerm(first), DescribeTerm(second)]
  {
  }

  lemma JoinPair(a: string, b: string, sep: string)
    ensures Join([a, b], sep) == a + sep + b
  {
    assert [a, b][1..] == [b];
  }

  lemma DescribeConstant(c: nat, op: Operator, source: string)
    ensures DescribeTerm(Constant(c, op, source)) == (if op == Minus then "-" else "") + NatToString(c)
  {
  }

  lemma PlusMinus(a: string, b: string)
    ensures a + " + " + ("-" + b) == a + " + -" + b
  {
    assert " + " + "-" == " + -";
  }

  /** A dice term less a constant, `NdS-c`, is summarised as `NdS + -c`. */
  lemma DiceLessConstantAsWritten(e: Expression, count: nat, sides: nat, c: nat, diceSource: string, constantSource: string)
    requires e.terms == [Dice(PlainDice(count, sides, Plus, diceSource)), Constant(c, Minus, constantSource)]
    ensures Describe(e) == PlainText(count, sides) + " + -" + NatToString(c)
  {
    var first, second := Dice(PlainDice(count, sides, Plus, diceSource)), Constant(c, Minus, constantSource);
    DescribeOfPair(e, first, second);
    DescribePlain(count, sides, Plus, diceSource);
    DescribeConstant(c, Minus, constantSource);
    PlusMinus(PlainText(count, sides), NatToString(c));
  }

  /** Two well-formed terms are summarised as their texts joined by " + ". */
  lemma DescribeOfPair(e: Expression, first: Term, second: Term)
    requires e.terms == [first, second]
    requires WellFormed(first) && WellFormed(second)
    ensures Describe(e) == DescribeTerm(first) + " + " + DescribeTerm(second)
  {
    DescribeIsPlainJoin(e);
    DescribeTermsPair(first, second);
    JoinPair(DescribeTerm(first), DescribeTerm(second), " + ");
  }

  /** The notation `d6-2`, given character by character. */
  predicate IsSubtraction(notation: string)
  {
    |notation| == 4 && notation[0] == 'd' && notation[1] == '6' && notation[2] == '-' && notation[3] == '2'
  }

  /** `d6-2` has no whitespace to trim or remove. */
  lemma SubtractionUntrimmed(notation: string)
    requires IsSubtraction(notation)
    ensures Trim(notation) == notation && RemoveSpaces(notation) == notation
  {
    assert NoSpace(notation) by {
      forall i | 0 <= i < |notation| ensures !IsSpace(notation[i]) {
        assert notation[i] in {'d', '6', '-', '2'};
      }
    }
    assert TrimStart(notation) == notation;
    assert TrimEnd(notation) == notation;
  }

  /** The scan of `d6-2` splits at the `-` only. */
  lemma SubtractionRaw(notation: string)
    requires IsSubtraction(notation)
    ensures RawFragments(notation) == [notation[..2], notation[2..]]
  {
    var d, d6, d6minus := notation[..1], notation[..2], notation[..3];
    RawFragmentsSnoc([], notation[0]);
    assert d == [] + [notation[0]];
    assert RawFragments(d) == [d] && Depth(d) == 0;
    RawFragmentsSnoc(d, notation[1]);
    assert d6 == d + [notation[1]];
    assert RawFragments(d6) == [d6] && Depth(d6) == 0;
    RawFragmentsSnoc(d6, notation[2]);
    assert d6minus == d6 + [notation[2]];
    assert RawFragments(d6minus) == [d6, [notation[2]]];
    RawFragmentsSnoc(d6minus, notation[3]);
    assert notation == d6minus + [notation[3]];
    assert notation[2..] == [notation[2]] + [notation[3]];
  }

  /** `d6-2` needs no trimming and is cut into `+d6` and `-2`. */
  lemma SubtractionCut(notation: string)
    requires IsSubtraction(notation)
    ensures Trim(notation) == notation
    ensures Fragments(notation) == [['+'] + notation[..2], notation[2..]]
  {
    SubtractionUntrimmed(notation);
    SubtractionRaw(notation);
    SignedPair(notation[..2], notation[2..]);
    SubtractionSigned(notation);
    var fragments := Fragments(notation);
  }

  /** `d6` gains a `+`; `-2` keeps its sign. */
  lemma SubtractionSigned(notation: string)
    requires IsSubtraction(notation)
    ensures Signed(notation[..2]) == ['+'] + notation[..2]
    ensures Signed(notation[2..]) == notation[2..]
  {
    assert StartsWith(notation[2..], "-");
    assert !StartsWith(notation[..2], "+") && !StartsWith(notation[..2], "-");
  }

  /** Two raw fragments are signed one by one. */
  lemma SignedPair(a: string, b: string)
    ensures SignAll([a, b]) == [Signed(a), Signed(b)]
  {
  }

  /** `-2` is the constant 2, subtracted. */
  lemma MinusTwoParsed(fragment: string)
    requires |fragment| == 2 && fragment[0] == '-' && fragment[1] == '2'
    ensures ParseFragment(fragment) == Some(Constant(2, Minus, fragment))
  {
    var body := Body(fragment);
    assert |body| == 1 && body[0] == '2';
    NoChallengeHere(body);
    NoDiceInDigit(fragment);
    TwoRead(body);
    OpOfSigned('-', body);
    assert fragment == ['-'] + body;
    ConstantWins(fragment, 2);
  }

  /** A single digit is no dice term. */
  lemma NoDiceInDigit(fragment: string)
    requires |Body(fragment)| == 1 && IsDigit(Body(fragment)[0])
    ensures TryParseDice(fragment).None?
  {
    var body := Body(fragment);
    assert LeadingDigits(body) == body;
    assert body[|body|..] == [];
  }

  /** The digit `2` reads as the number 2. */
  lemma TwoRead(body: string)
    requires |body| == 1 && body[0] == '2'
    ensures ParseInt(body) == Some(2)
  {
    assert body == "2";
    TwoUntrimmed();
    TwoDigits();
    TwoValue();
    var t := TrimStart("2");
    var r := ParseInt("2");
  }

  lemma TwoUntrimmed()
    ensures TrimStart("2") == "2" && SignStripped("2") == "2"
  {
  }

  lemma TwoDigits()
    ensures LeadingDigits("2") == "2"
  {
    assert "2"[1..] == [];
  }

  lemma TwoValue()
    ensures DigitsValue("2") == 2
  {
    assert "2"[..0] == [];
  }

  /** A fragment that is neither a challenge nor dice is the constant its
      body reads as. */
  lemma ConstantWins(fragment: string, v: int)
    requires ChallengeMatch(Body(fragment)).None? && TryParseDice(fragment).None? && ParseInt(Body(fragment)) == Some(v)
    ensures ParseFragment(fragment) == Some(Constant(v, OpOf(fragment), fragment))
  {
  }

  /** Two recognised fragments give their two terms, in order. */
  lemma RecognizedPair(first: Term, second: Term)
    ensures Recognized([Some(first), Some(second)]) == [first, second]
  {
    var parsed := [Some(first), Some(second)];
    assert parsed[..1] == [Some(first)];
    assert [Some(first)][..0] == [];
    assert Recognized([Some(first)]) == [first];
  }

  /** Each of two fragments is parsed on its own. */
  lemma ParseAllPair(a: string, b: string)
    ensures ParseAll([a, b]) == [ParseFragment(a), ParseFragment(b)]
  {
  }

  /** The dice part of `d6-2` is the plain text of one d6. */
  lemma SubtractionDie(notation: string)
    requires IsSubtraction(notation)
    ensures PlainText(1, 6) == notation[..2]
  {
    assert NatToString(6) == "6";
  }

  /** `d6-2` is cut into `+d6` and `-2`, which parse to a d6 added and a
      constant 2 subtracted. */
  lemma SubtractionParsed(notation: string)
    requires IsSubtraction(notation)
    ensures Recognized(ParseAll(Fragments(Trim(notation)))) ==
      [Dice(PlainDice(1, 6, Plus, ['+'] + notation[..2])), Constant(2, Minus, notation[2..])]
  {
    var plus, minus := ['+'] + notation[..2], notation[2..];
    var first, second := Dice(PlainDice(1, 6, Plus, plus)), Constant(2, Minus, minus);
    assert ParseFragment(plus) == Some(first) by {
      SubtractionDie(notation);
      OpOfSigned('+', notation[..2]);
      PlainFragment(1, 6, '+', plus);
    }
    assert ParseFragment(minus) == Some(second) by {
      MinusTwoParsed(minus);
    }
    SubtractionCut(notation);
    ParseAllPair(plus, minus);
    RecognizedPair(first, second);
  }

  lemma SubtractionText()
    ensures PlainText(1, 6) + " + -" + NatToString(2) == "d6 + -2"
  {
    assert NatToString(6) == "6" && NatToString(2) == "2";
    assert PlainText(1, 6) == "d6";
  }

  /** `d6-2` is summarised as `d6 + -2`: the terms `DiceExpression.Parse`
      recognises in `d6-2` are described with the subtraction shown as an
      added negative. */
  lemma SubtractionAsWritten(notation: string, e: Expression)
    requires IsSubtraction(notation)
    requires e.terms == Recognized(ParseAll(Fragments(Trim(notation))))
    ensures Describe(e) == "d6 + -2"
  {
    var plus, minus := ['+'] + notation[..2], notation[2..];
    assert e.terms == [Dice(PlainDice(1, 6, Plus, plus)), Constant(2, Minus, minus)] by {
      SubtractionParsed(notation);
    }
    DiceLessConstantAsWritten(e, 1, 6, 2, plus, minus);
    SubtractionText();
  }

  // ---------------------------------------------------------------------
  // The summary as evidently intended

  /** A later term's operator printed as a binary operator. */
  function Joined(terms: seq<Term>): string
  {
    if terms == [] then []
    else (if terms[0].Op() == Plus then " + " else " - ") + TermText(terms[0]) + Joined(terms[1..])
  }

  /** `describe` with subtraction written `a - b`. */
  function DescribeFixed(e: Expression): string
  {
    if e.terms == [] then "(no dice)" else DescribeTerm(e.terms[0]) + Joined(e.terms[1..])
  }

  /** Each piece led by " + ". */
  function PlusTail(parts: seq<string>): string
  {
    if parts == [] then [] else " + " + parts[0] + PlusTail(parts[1..])
  }

  lemma {:induction false} JoinPlusTail(parts: seq<string>)
    requires parts != []
    ensures Join(parts, " + ") == parts[0] + PlusTail(parts[1..])
  {
    if |parts| > 1 {
      JoinPlusTail(parts[1..]);
      assert parts[1..][1..] == parts[2..];
    }
  }

  lemma {:induction false} JoinedAllPlus(rest: seq<Term>)
    requires forall k :: 0 <= k < |rest| ==> rest[k].Op() == Plus
    ensures Joined(rest) == PlusTail(DescribeTerms(rest))
  {
    if rest != [] {
      JoinedAllPlus(rest[1..]);
      var parts := DescribeTerms(rest);
      DescribeTermsTail(rest);
      PlusDescribed(rest[0]);
      var joined := Joined(rest);
      var tail := PlusTail(parts);
    }
  }

  /** The descriptions of a sequence of terms are its first term's and then
      those of the rest. */
  lemma DescribeTermsTail(terms: seq<Term>)
    requires terms != []
    ensures DescribeTerms(terms)[0] == DescribeTerm(terms[0])
    ensures DescribeTerms(terms)[1..] == DescribeTerms(terms[1..])
  {
    DescribeTermsAfterHead(terms);
  }

  lemma DescribeTermsAfterHead(terms: seq<Term>)
    requires terms != []
    ensures DescribeTerms(terms)[1..] == DescribeTerms(terms[1..])
  {
    var front := DescribeTerms(terms)[1..];
    var back := DescribeTerms(terms[1..]);
    assert |front| == |back|;
    forall k | 0 <= k < |front| ensures front[k] == back[k] {
      assert front[k] == DescribeTerms(terms)[k + 1] == DescribeTerm(terms[k + 1]);
      assert terms[1..][k] == terms[k + 1];
    }
  }

  /** An added term is described by its text alone. */
  lemma PlusDescribed(t: Term)
    requires t.Op() == Plus
    ensures DescribeTerm(t) == TermText(t)
  {
    assert DescribeTerm(t) == "" + TermText(t);
  }

  /** The corrected summary is the same text wherever every later term is
      added. */
  lemma FixedAgreesOnSums(e: Expression)
    requires e.terms != []
    requires forall k :: 0 <= k < |e.terms| ==> WellFormed(e.terms[k])
    requires forall k :: 0 < k < |e.terms| ==> e.terms[k].Op() == Plus
    ensures DescribeFixed(e) == Describe(e)
  {
    DescribeIsPlainJoin(e);
    var parts := DescribeTerms(e.terms);
    JoinPlusTail(parts);
    JoinedAllPlus(e.terms[1..]);
    DescribeTermsTail(e.terms);
    var fixed := DescribeFixed(e);
  }

  /** ... and writes `NdS-c` as `NdS - c`. */
  lemma DiceLessConstantFixed(e: Expression, count: nat, sides: nat, c: nat, diceSource: string, constantSource: string)
    requires e.terms == [Dice(PlainDice(count, sides, Plus, diceSource)), Constant(c, Minus, constantSource)]
    ensures DescribeFixed(e) == PlainText(count, sides) + " - " + NatToString(c)
  {
    var k := Constant(c, Minus, constantSource);
    assert e.terms[1..] == [k];
    JoinedSingle(k);
    var n := NatToString(c);
    assert TermText(k) == n;
    DescribePlain(count, sides, Plus, diceSource);
    var plain := PlainText(count, sides);
    assert DescribeTerm(e.terms[0]) == plain;
    assert DescribeFixed(e) == plain + (" - " + n);
    assert plain + (" - " + n) == plain + " - " + n;
  }

  lemma JoinedSingle(t: Term)
    ensures Joined([t]) == (if t.Op() == Plus then " + " else " - ") + TermText(t)
  {
    assert [t][1..] == [];
    var sign := if t.Op() == Plus then " + " else " - ";
    assert Joined([t]) == sign + TermText(t) + [];
  }

  lemma SubtractionFixedText()
    ensures PlainText(1, 6) + " - " + NatToString(2) == "d6 - 2"
  {
    assert NatToString(6) == "6" && NatToString(2) == "2";
    assert PlainText(1, 6) == "d6";
  }

  /** `d6-2` is summarised as `d6 - 2`. */
  lemma SubtractionFixed(notation: string, e: Expression)
    requires IsSubtraction(notation)
    requires e.terms == Recognized(ParseAll(Fragments(Trim(notation))))
    ensures DescribeFixed(e) == "d6 - 2"
  {
    var plus, minus := ['+'] + notation[..2], notation[2..];
    assert e.terms == [Dice(PlainDice(1, 6, Plus, plus)), Constant(2, Minus, minus)] by {
      SubtractionParsed(notation);
    }
    DiceLessConstantFixed(e, 1, 6, 2, plus, minus);
    SubtractionFixedText();
  }
}
