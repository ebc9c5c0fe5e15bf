/** Highlights drawn from a dice roll for display: one per challenge
    outcome, natural 20s and 1s on d20 terms, pool successes and degrade
    triggers, each tagged with the position of the term it came from. */
module RollHighlights {
  import opened Wrappers
  import opened DiceExpression
  import opened DiceRoller

  datatype Crit = CritSuccess | CritFailure

  datatype Highlight =
    | ChallengeHighlight(outcome: Outcome, boon: bool, complication: bool, termIndex: nat, color: string)
    | CritHighlight(value: int, sides: nat, dieIndex: nat, termIndex: nat, crit: Crit)
    | PoolHighlight(successes: nat, target: Option<nat>, metTarget: Option<bool>, termIndex: nat)
    | DegradeHighlight(step: nat, termIndex: nat)

  /** The colour table for challenge outcomes. Every outcome has an entry,
      so the fallback colour is never used. */
  function ChallengeColor(o: Outcome): string
  {
    match o
    case StrongHit => "#22c55e"
    case WeakHit => "#d97706"
    case Miss => "#ef4444"
  }

  // ---------------------------------------------------------------------
  // Specification
  // ---------------------------------------------------------------------

  /** The crit highlight one die of a d20 term earns, if any. */
  function DieCrit(d: Die, sides: nat, termIndex: nat): seq<Highlight>
  {
    if d.dropped then []
    else if d.value == 20 then [CritHighlight(d.value, sides, d.index, termIndex, CritSuccess)]
    else if d.value == 1 then [CritHighlight(d.value, sides, d.index, termIndex, CritFailure)]
    else []
  }

  /** The crit highlights of a run of dice, in die order. */
  function Crits(dice: seq<Die>, sides: nat, termIndex: nat): seq<Highlight>
  {
    if dice == [] then []
    else Crits(dice[..|dice| - 1], sides, termIndex) + DieCrit(dice[|dice| - 1], sides, termIndex)
  }

  /** Natural 20s and 1s, looked for on d20 terms only. */
  function CritPart(t: DiceTermRollResult, termIndex: nat): seq<Highlight>
  {
    if t.term.sides == 20 then Crits(t.dice, t.term.sides, termIndex) else []
  }

  /** A pool highlight when some success was counted. */
  function PoolPart(t: DiceTermRollResult, termIndex: nat): seq<Highlight>
  {
    if t.successes.Some? && t.successes.value > 0
    then [PoolHighlight(t.successes.value, if t.term.pool.Some? then t.term.pool.value.target else None, t.metTarget, termIndex)]
    else []
  }

  /** A degrade highlight when the rule triggered; the step defaults to 1. */
  function DegradePart(t: DiceTermRollResult, termIndex: nat): seq<Highlight>
  {
    if t.degradeTriggered == Some(true) then [DegradeHighlight(t.degradeStep.GetOr(1), termIndex)] else []
  }

  /** What `annotateDiceTerm` appends for one dice term: crits only on a
      d20, a pool highlight exactly when a success was counted, and a
      degrade highlight, with the step defaulting to 1, exactly when the
      rule triggered. */
  function DiceHighlights(t: DiceTermRollResult, termIndex: nat): (hs: seq<Highlight>)
    ensures (exists h :: h in hs && h.CritHighlight?) ==> t.term.sides == 20
    ensures (exists h :: h in hs && h.PoolHighlight?) <==> t.successes.Some? && t.successes.value > 0
    ensures (exists h :: h in hs && h.DegradeHighlight?) <==> t.degradeTriggered == Some(true)
    ensures forall h :: h in hs && h.DegradeHighlight? ==>
      h.step == (if t.degradeStep.Some? then t.degradeStep.value else 1)
  {
    CritsTagged(t.dice, t.term.sides, termIndex);
    var hs := CritPart(t, termIndex) + PoolPart(t, termIndex) + DegradePart(t, termIndex);
    assert t.successes.Some? && t.successes.value > 0 ==> PoolPart(t, termIndex)[0] in hs;
    assert t.degradeTriggered == Some(true) ==> DegradePart(t, termIndex)[0] in hs;
    hs
  }

  /** What one term contributes, at position `termIndex`. */
  function TermHighlights(r: TermRollResult, termIndex: nat): seq<Highlight>
  {
    match r
    case ChallengeResult(c) => [ChallengeHighlight(c.outcome, c.boon, c.complication, termIndex, ChallengeColor(c.outcome))]
    case DiceResult(d) => DiceHighlights(d, termIndex)
    case ConstantResult(_) => []
  }

  /** The highlights of a run of terms, in term order; each carries the
      position of an existing term. */
  function Highlights(terms: seq<TermRollResult>): (hs: seq<Highlight>)
    ensures forall h :: h in hs ==> h.termIndex < |terms|
  {
    if terms == [] then []
    else
      TermTagged(terms[|terms| - 1], |terms| - 1);
      Highlights(terms[..|terms| - 1]) + TermHighlights(terms[|terms| - 1], |terms| - 1)
  }

  // ---------------------------------------------------------------------
  // The annotators
  // ---------------------------------------------------------------------

  /** `annotateDiceTerm`: appends a dice term's highlights to `highlights`. */
  method AnnotateDiceTerm(t: DiceTermRollResult, termIndex: nat, highlights: seq<Highlight>) returns (out: seq<Highlight>)
    ensures out == highlights + DiceHighlights(t, termIndex)
  {
    out := highlights;
    if t.term.sides == 20 {
      out := AnnotateCrits(t.dice, t.term.sides, termIndex, out);
    }
    assert out == highlights + CritPart(t, termIndex);
    if t.successes.Some? && t.successes.value > 0 {
      var target := if t.term.pool.Some? then t.term.pool.value.target else None;
      out := out + [PoolHighlight(t.successes.value, target, t.metTarget, termIndex)];
    }
    assert out == highlights + CritPart(t, termIndex) + PoolPart(t, termIndex);
    if t.degradeTriggered == Some(true) {
      out := out + [DegradeHighlight(t.degradeStep.GetOr(1), termIndex)];
    }
  }

  /** The `dice.forEach` of `annotateDiceTerm`: a crit highlight for each
      kept 20 or 1. */
  method AnnotateCrits(dice: seq<Die>, sides: nat, termIndex: nat, highlights: seq<Highlight>) returns (out: seq<Highlight>)
    ensures out == highlights + Crits(dice, sides, termIndex)
  {
    out := highlights;
    for i := 0 to |dice|
      invariant out == highlights + Crits(dice[..i], sides, termIndex)
    {
      var die := dice[i];
      CritsStep(dice, i, sides, termIndex);
      if die.dropped {
        continue;
      }
      if die.value == 20 {
        out := out + [CritHighlight(die.value, sides, die.index, termIndex, CritSuccess)];
      } else if die.value == 1 {
        out := out + [CritHighlight(die.value, sides, die.index, termIndex, CritFailure)];
      }
    }
    assert dice[..|dice|] == dice;
  }

  lemma CritsStep(dice: seq<Die>, i: nat, sides: nat, termIndex: nat)
    requires i < |dice|
    ensures Crits(dice[..i + 1], sides, termIndex) == Crits(dice[..i], sides, termIndex) + DieCrit(dice[i], sides, termIndex)
  {
    assert dice[..i + 1][..i] == dice[..i];
  }

  /** `annotateRollResult`: the highlights of every term of a roll. */
  method AnnotateRollResult(result: RollResult) returns (highlights: seq<Highlight>)
    ensures highlights == Highlights(result.terms)
  {
    highlights := [];
    for termIndex := 0 to |result.terms|
      invariant highlights == Highlights(result.terms[..termIndex])
    {
      var termResult := result.terms[termIndex];
      HighlightsStep(result.terms, termIndex);
      if termResult.ChallengeResult? {
        var c := termResult.challenge;
        highlights := highlights + [ChallengeHighlight(c.outcome, c.boon, c.complication, termIndex, ChallengeColor(c.outcome))];
        continue;
      }
      if termResult.DiceResult? {
        highlights := AnnotateDiceTerm(termResult.dice, termIndex, highlights);
      }
    }
    assert result.terms[..|result.terms|] == result.terms;
  }

  /** One more term adds its own highlights at the end. */
  lemma HighlightsStep(terms: seq<TermRollResult>, i: nat)
    requires i < |terms|
    ensures Highlights(terms[..i + 1]) == Highlights(terms[..i]) + TermHighlights(terms[i], i)
  {
    assert terms[..i + 1][..i] == terms[..i];
  }

  /** `extractChallengeResults`: the challenge terms, in order. */
  function ExtractChallengeResults(terms: seq<TermRollResult>): (r: seq<ChallengeTermRollResult>)
    ensures |r| <= |terms|
  {
    if terms == [] then []
    else
      var last := terms[|terms| - 1];
      ExtractChallengeResults(terms[..|terms| - 1]) + (if last.ChallengeResult? then [last.challenge] else [])
  }

  // ---------------------------------------------------------------------
  // Facts
  // ---------------------------------------------------------------------

  /** The highlights carrying a given term position. */
  function ForTerm(hs: seq<Highlight>, termIndex: nat): seq<Highlight>
  {
    if hs == [] then []
    else ForTerm(hs[..|hs| - 1], termIndex) + (if hs[|hs| - 1].termIndex == termIndex then [hs[|hs| - 1]] else [])
  }

  lemma {:induction false} ForTermAppend(a: seq<Highlight>, b: seq<Highlight>, termIndex: nat)
    ensures ForTerm(a + b, termIndex) == ForTerm(a, termIndex) + ForTerm(b, termIndex)
    decreases |b|
  {
    if b == [] {
      assert a + b == a;
    } else {
      assert (a + b)[..|a + b| - 1] == a + b[..|b| - 1];
      assert (a + b)[|a + b| - 1] == b[|b| - 1];
      ForTermAppend(a, b[..|b| - 1], termIndex);
    }
  }

  lemma {:induction false} ForTermAll(hs: seq<Highlight>, termIndex: nat)
    ensures (forall h :: h in hs ==> h.termIndex == termIndex) ==> ForTerm(hs, termIndex) == hs
    ensures (forall h :: h in hs ==> h.termIndex != termIndex) ==> ForTerm(hs, termIndex) == []
  {
    if hs != [] {
      ForTermAll(hs[..|hs| - 1], termIndex);
      assert hs == hs[..|hs| - 1] + [hs[|hs| - 1]];
    }
  }

  /** Crit highlights carry their term's position. */
  lemma {:induction false} CritsTagged(dice: seq<Die>, sides: nat, termIndex: nat)
    ensures forall h :: h in Crits(dice, sides, termIndex) ==> h.CritHighlight? && h.termIndex == termIndex
  {
    if dice != [] {
      CritsTagged(dice[..|dice| - 1], sides, termIndex);
    }
  }

  /** Every highlight of a term carries the term's position, and only a
      challenge term yields a challenge highlight. */
  lemma TermTagged(t: TermRollResult, termIndex: nat)
    ensures forall h :: h in TermHighlights(t, termIndex) ==> h.termIndex == termIndex
    ensures !t.ChallengeResult? ==> forall h :: h in TermHighlights(t, termIndex) ==> !h.ChallengeHighlight?
  {
    if t.DiceResult? {
      var d := t.dice;
      CritsTagged(d.dice, d.term.sides, termIndex);
    }
  }

  /** The highlights tagged with position `i` are exactly those the term at
      `i` produces: one coloured outcome for a challenge, nothing for a
      constant, the dice highlights for a dice term. */
  lemma {:induction false} HighlightsOfTerm(terms: seq<TermRollResult>, i: nat)
    requires i < |terms|
    ensures ForTerm(Highlights(terms), i) == TermHighlights(terms[i], i)
    ensures terms[i].ChallengeResult? ==>
      var c := terms[i].challenge;
      ForTerm(Highlights(terms), i) == [ChallengeHighlight(c.outcome, c.boon, c.complication, i, ChallengeColor(c.outcome))]
    ensures terms[i].ConstantResult? ==> ForTerm(Highlights(terms), i) == []
    decreases |terms|
  {
    var n := |terms| - 1;
    var init := terms[..n];
    ForTermAppend(Highlights(init), TermHighlights(terms[n], n), i);
    TermTagged(terms[n], n);
    ForTermAll(TermHighlights(terms[n], n), i);
    if i == n {
      ForTermAll(Highlights(init), i);
    } else {
      HighlightsOfTerm(init, i);
    }
  }

  /** Crit highlights name a kept 20 (success) or 1 (failure) of the dice,
      and every kept 20 or 1 has one. */
  lemma {:induction false} CritsShape(dice: seq<Die>, sides: nat, termIndex: nat)
    ensures forall h :: h in Crits(dice, sides, termIndex) ==>
      h.CritHighlight? && h.termIndex == termIndex && h.sides == sides && (h.value == 20 || h.value == 1) && (h.crit == CritSuccess <==> h.value == 20)
      && exists k :: 0 <= k < |dice| && !dice[k].dropped && dice[k].index == h.dieIndex && dice[k].value == h.value
    ensures forall k :: 0 <= k < |dice| && !dice[k].dropped && (dice[k].value == 20 || dice[k].value == 1) ==>
      CritHighlight(dice[k].value, sides, dice[k].index, termIndex, if dice[k].value == 20 then CritSuccess else CritFailure)
        in Crits(dice, sides, termIndex)
  {
    CritsTagged(dice, sides, termIndex);
    if dice != [] {
      var n := |dice| - 1;
      CritsShape(dice[..n], sides, termIndex);
      forall h | h in Crits(dice, sides, termIndex)
        ensures h.CritHighlight? && exists k :: 0 <= k < |dice| && !dice[k].dropped && dice[k].index == h.dieIndex && dice[k].value == h.value
      {
        if h in Crits(dice[..n], sides, termIndex) {
          var k :| 0 <= k < n && !dice[..n][k].dropped && dice[..n][k].index == h.dieIndex && dice[..n][k].value == h.value;
          assert dice[k] == dice[..n][k];
        } else {
          assert h in DieCrit(dice[n], sides, termIndex);
        }
      }
      forall k | 0 <= k < |dice| && !dice[k].dropped && (dice[k].value == 20 || dice[k].value == 1)
        ensures CritHighlight(dice[k].value, sides, dice[k].index, termIndex, if dice[k].value == 20 then CritSuccess else CritFailure)
          in Crits(dice, sides, termIndex)
      {
        if k < n {
          assert dice[..n][k] == dice[k];
        }
      }
    }
  }

  /** The challenge outcomes, boons and complications of a run of
      highlights, in order. */
  function ChallengeVerdicts(hs: seq<Highlight>): seq<(Outcome, bool, bool)>
  {
    if hs == [] then []
    else
      var last := hs[|hs| - 1];
      ChallengeVerdicts(hs[..|hs| - 1]) + (if last.ChallengeHighlight? then [(last.outcome, last.boon, last.complication)] else [])
  }

  function VerdictsOf(cs: seq<ChallengeTermRollResult>): seq<(Outcome, bool, bool)>
  {
    seq(|cs|, i requires 0 <= i < |cs| => (cs[i].outcome, cs[i].boon, cs[i].complication))
  }

  lemma {:induction false} ChallengeVerdictsAppend(a: seq<Highlight>, b: seq<Highlight>)
    ensures ChallengeVerdicts(a + b) == ChallengeVerdicts(a) + ChallengeVerdicts(b)
    decreases |b|
  {
    if b == [] {
      assert a + b == a;
    } else {
      assert (a + b)[..|a + b| - 1] == a + b[..|b| - 1];
      assert (a + b)[|a + b| - 1] == b[|b| - 1];
      ChallengeVerdictsAppend(a, b[..|b| - 1]);
    }
  }

  lemma {:induction false} NoVerdictsInDice(hs: seq<Highlight>)
    requires forall h :: h in hs ==> !h.ChallengeHighlight?
    ensures ChallengeVerdicts(hs) == []
  {
    if hs != [] {
      NoVerdictsInDice(hs[..|hs| - 1]);
    }
  }

  /** One term's challenge verdicts: its own when it is a challenge. */
  lemma TermVerdicts(t: TermRollResult, termIndex: nat)
    ensures ChallengeVerdicts(TermHighlights(t, termIndex)) == VerdictsOf(if t.ChallengeResult? then [t.challenge] else [])
  {
    if t.DiceResult? {
      TermTagged(t, termIndex);
      NoVerdictsInDice(DiceHighlights(t.dice, termIndex));
    } else if t.ChallengeResult? {
      var hs := TermHighlights(t, termIndex);
      assert hs[..0] == [];
    }
  }

  /** The challenge highlights of a roll follow its challenge terms one for
      one, in order. */
  lemma {:induction false} ChallengeHighlightsFollowTerms(terms: seq<TermRollResult>)
    ensures ChallengeVerdicts(Highlights(terms)) == VerdictsOf(ExtractChallengeResults(terms))
  {
    if terms != [] {
      var n := |terms| - 1;
      var last := terms[n];
      var prior := ExtractChallengeResults(terms[..n]);
      var mine := if last.ChallengeResult? then [last.challenge] else [];
      ChallengeHighlightsFollowTerms(terms[..n]);
      ChallengeVerdictsAppend(Highlights(terms[..n]), TermHighlights(last, n));
      TermVerdicts(last, n);
      VerdictsOfAppend(prior, mine);
    }
  }

  /** Verdicts keep order across a split of the challenge results. */
  lemma VerdictsOfAppend(a: seq<ChallengeTermRollResult>, b: seq<ChallengeTermRollResult>)
    ensures VerdictsOf(a + b) == VerdictsOf(a) + VerdictsOf(b)
  {
  }

  /** Extraction keeps order across a split of the terms. */
  lemma {:induction false} ExtractAppend(a: seq<TermRollResult>, b: seq<TermRollResult>)
    ensures ExtractChallengeResults(a + b) == ExtractChallengeResults(a) + ExtractChallengeResults(b)
    decreases |b|
  {
    if b == [] {
      assert a + b == a;
    } else {
      assert (a + b)[..|a + b| - 1] == a + b[..|b| - 1];
      assert (a + b)[|a + b| - 1] == b[|b| - 1];
      ExtractAppend(a, b[..|b| - 1]);
    }
  }

  /** Exactly the challenge terms are extracted. */
  lemma {:induction false} ExtractedExactly(terms: seq<TermRollResult>)
    ensures forall c :: c in ExtractChallengeResults(terms) <==> ChallengeResult(c) in terms
  {
    if terms != [] {
      var n := |terms| - 1;
      ExtractedExactly(terms[..n]);
      assert terms == terms[..n] + [terms[n]];
    }
  }
}
