/** Reading back what `describe` writes: each modifier, a modified dice
    term and a challenge term, printed and then parsed again, come back as
    they were. */
module DiceExpressionReadBack {
  import opened Wrappers
  import opened Text
  import opened DiceExpression
  import opened DiceExpressionFacts

  // ---------------------------------------------------------------------
  // Characters

  /** Text with no upper-case letters is its own lower case. */
  lemma LowerOfLower(s: string)
    requires forall i :: 0 <= i < |s| ==> !('A' <= s[i] <= 'Z')
    ensures ToLower(s) == s
  {
  }

  lemma DigitsNoLineTerminator(s: string)
    requires AllDigits(s)
    ensures NoLineTerminator(s)
  {
  }

  lemma ConcatNoLineTerminator(a: string, b: string)
    requires NoLineTerminator(a) && NoLineTerminator(b)
    ensures NoLineTerminator(a + b)
  {
    assert forall i :: 0 <= i < |a + b| ==> (a + b)[i] == if i < |a| then a[i] else b[i - |a|];
  }

  /** A numeral printed before `rest` is read back as its value, and what
      follows it is `rest`. */
  lemma NumeralReadsBack(n: nat, rest: string)
    requires rest == [] || !IsDigit(rest[0])
    ensures LeadingDigits(NatToString(n) + rest) == NatToString(n)
    ensures DigitsValue(NatToString(n)) == n
    ensures (NatToString(n) + rest)[|NatToString(n)|..] == rest
  {
    LeadingDigitsOfNumeral(NatToString(n), rest);
    DigitsValueOfNatToString(n);
  }

  // ---------------------------------------------------------------------
  // One modifier at a time

  lemma TagReadsBack(m: SelectionMode)
    ensures SelectionTag(ModeTag(m)) == Some(m)
  {
    LowerOfLower(ModeTag(m));
  }

  /** A selection, printed before text that does not go on with a digit,
      is read back with that text left over. */
  lemma SelectionReadsBack(s: Selection, rest: string)
    requires s.count > 0
    requires (rest == [] || !IsDigit(rest[0])) && NoLineTerminator(rest)
    ensures ParseSelection(SelectionText(s) + rest) == (Some(s), rest)
  {
    var tag := ModeTag(s.mode);
    var digits := NatToString(s.count);
    var part := SelectionText(s) + rest;
    assert part == tag + (digits + rest);
    assert part[..2] == tag;
    TagReadsBack(s.mode);
    assert part[2..] == digits + rest;
    NumeralReadsBack(s.count, rest);
    assert part[2 + |digits|..] == rest;
  }

  /** A comparator followed by a digit is read as itself. */
  lemma ComparatorReadsBack(c: Comparator, tail: string)
    requires tail != [] && IsDigit(tail[0])
    ensures LeadingComparator(ComparatorText(c) + tail) == Some((c, |ComparatorText(c)|))
  {
    var s := ComparatorText(c) + tail;
    assert s[|ComparatorText(c)|] == tail[0];
    assert s[..|ComparatorText(c)|] == ComparatorText(c);
  }

  function TargetText(target: Option<nat>): string
  {
    if target.Some? then "#" + NatToString(target.value) else ""
  }

  /** `ParsePool`, after the threshold, finds `target` in `remainder` and
      leaves `rest`. */
  predicate TargetPieces(remainder: string, target: Option<nat>, rest: string)
  {
    NoLineTerminator(remainder) && ParseTarget(remainder) == (target, rest)
  }

  /** `#` and a numeral before text that does not go on with a digit are
      read as that target. */
  lemma ParseTargetOf(mid: string, digits: string, rest: string)
    requires |mid| >= 1 && mid[0] == '#' && mid[1..] == digits + rest
    requires digits != [] && AllDigits(digits) && (rest == [] || !IsDigit(rest[0]))
    ensures ParseTarget(mid) == (Some(DigitsValue(digits)), rest)
  {
    LeadingDigitsOfNumeral(digits, rest);
    assert mid[1 + |digits|..] == rest;
    var r := ParseTarget(mid);
  }

  /** `#`, digits and text that starts with no digit hold that target. */
  lemma TargetTextReads(remainder: string, digits: string, rest: string)
    requires remainder == "#" + (digits + rest) && digits != [] && AllDigits(digits)
    requires (rest == [] || !IsDigit(rest[0])) && NoLineTerminator(rest)
    ensures TargetPieces(remainder, Some(DigitsValue(digits)), rest)
  {
    AfterPrefix("#", digits + rest);
    ParseTargetOf(remainder, digits, rest);
    MarkedDigitsNoLineTerminator("#", digits, rest);
  }

  /** A mark, digits and text with no line terminator hold none. */
  lemma MarkedDigitsNoLineTerminator(mark: string, digits: string, rest: string)
    requires NoLineTerminator(mark) && AllDigits(digits) && NoLineTerminator(rest)
    ensures NoLineTerminator(mark + (digits + rest))
  {
    DigitsNoLineTerminator(digits);
    ConcatNoLineTerminator(digits, rest);
    ConcatNoLineTerminator(mark, digits + rest);
  }

  /** Text that does not start with `#` and a digit holds no target. */
  lemma ParseTargetNone(mid: string)
    requires !(|mid| >= 2 && mid[0] == '#' && IsDigit(mid[1]))
    ensures ParseTarget(mid) == (None, mid)
  {
    if |mid| >= 1 {
      assert mid[1..] == [] || mid[1..][0] == mid[1];
    }
    var r := ParseTarget(mid);
  }

  /** What a pool rule reads after its threshold: `#` and the target when
      there is one. */
  lemma TargetReadsBack(target: Option<nat>, rest: string)
    requires (rest == [] || !IsDigit(rest[0])) && NoLineTerminator(rest)
    requires target.None? ==> !(|rest| >= 2 && rest[0] == '#' && IsDigit(rest[1]))
    ensures TargetPieces(TargetText(target) + rest, target, rest)
    ensures var remainder := TargetText(target) + rest; remainder == [] || !IsDigit(remainder[0])
  {
    var remainder := TargetText(target) + rest;
    if target.Some? {
      var digits := NatToString(target.value);
      assert remainder == "#" + (digits + rest);
      DigitsValueOfNatToString(target.value);
      TargetTextReads(remainder, digits, rest);
    } else {
      assert remainder == rest;
      ParseTargetNone(rest);
    }
  }

  /** The pieces `ParsePool` cuts from a comparator, a positive threshold
      and a target: it reads them as a rule with that target. */
  /** ParsePool's accepting branch: a comparator, a positive threshold
      numeral and the target read from what follows it. */
  lemma PoolUnfold(part: string, cmp: Comparator, n: nat, digits: string, after: string, target: Option<nat>, rest: string)
    requires LeadingComparator(part) == Some((cmp, n))
    requires n <= |part| && LeadingDigits(part[n..]) == digits && AfterNumeral(part, n) == after
    requires TargetPieces(after, target, rest) && digits != [] && DigitsValue(digits) != 0
    ensures ParsePool(part) == (Some(PoolRules(cmp, DigitsValue(digits), target)), rest)
  {
    var r := ParsePool(part);
  }

  /** A printed pool rule is cut into its comparator, the threshold digits
      and the text after them. */
  lemma PoolTextPieces(part: string, c: Comparator, th: string, after: string)
    requires part == ComparatorText(c) + (th + after)
    requires th != [] && AllDigits(th) && (after == [] || !IsDigit(after[0]))
    ensures LeadingComparator(part) == Some((c, |ComparatorText(c)|))
    ensures |ComparatorText(c)| <= |part| && LeadingDigits(part[|ComparatorText(c)|..]) == th
    ensures AfterNumeral(part, |ComparatorText(c)|) == after
  {
    var ct := ComparatorText(c);
    ComparatorReadsBack(c, th + after);
    AfterPrefix(ct, th + after);
    DigitsAt(part, |ct|, th, after);
    AfterDigits(part, |ct|, th);
  }

  /** A comparator, threshold digits and the text after them are read as a
      pool rule with the target read from that text. */
  lemma PoolTextReads(part: string, c: Comparator, th: string, v: nat, after: string, target: Option<nat>, rest: string)
    requires part == ComparatorText(c) + (th + after)
    requires th != [] && AllDigits(th) && DigitsValue(th) == v > 0 && (after == [] || !IsDigit(after[0]))
    requires TargetPieces(after, target, rest)
    ensures ParsePool(part) == (Some(PoolRules(c, v, target)), rest)
  {
    PoolTextPieces(part, c, th, after);
    PoolUnfold(part, c, |ComparatorText(c)|, th, after, target, rest);
  }

  lemma PoolTextShape(p: PoolRules, rest: string)
    ensures PoolText(p) + rest == ComparatorText(p.comparator) + (NatToString(p.threshold) + (TargetText(p.target) + rest))
  {
  }

  lemma AfterPrefix(a: string, b: string)
    ensures (a + b)[|a|..] == b
  {
  }

  /** Digits at position `n` of `part`, before text that starts with no
      digit, are the leading digits there, and what follows them is that
      text. */
  lemma DigitsAt(part: string, n: nat, digits: string, rest: string)
    requires n <= |part| && part[n..] == digits + rest
    requires AllDigits(digits) && (rest == [] || !IsDigit(rest[0]))
    ensures n + |digits| <= |part| && LeadingDigits(part[n..]) == digits
    ensures part[n + |digits|..] == rest
  {
    LeadingDigitsOfNumeral(digits, rest);
    assert part[n + |digits|..] == part[n..][|digits|..];
  }

  /** A pool rule, printed before text that does not go on with a digit
      (nor with `#` and a digit when there is no target), is read back. */
  lemma PoolReadsBack(p: PoolRules, rest: string)
    requires p.threshold > 0
    requires (rest == [] || !IsDigit(rest[0])) && NoLineTerminator(rest)
    requires p.target.None? ==> !(|rest| >= 2 && rest[0] == '#' && IsDigit(rest[1]))
    ensures ParsePool(PoolText(p) + rest) == (Some(p), rest)
  {
    var th := NatToString(p.threshold);
    var remainder := TargetText(p.target) + rest;
    var part := PoolText(p) + rest;
    PoolTextShape(p, rest);
    TargetReadsBack(p.target, rest);
    DigitsValueOfNatToString(p.threshold);
    PoolTextReads(part, p.comparator, th, p.threshold, remainder, p.target, rest);
  }

  /** An explode rule, printed for dice of `sides` sides before text that
      starts with no digit and no comparator, is read back, provided a bare
      `!` stands for the default threshold. */
  lemma ExplodeReadsBack(e: ExplodeRule, sides: nat, defaultThreshold: nat, rest: string)
    requires e.threshold > 0 && (e.threshold == sides ==> e.threshold == defaultThreshold)
    requires rest == [] || (!IsDigit(rest[0]) && rest[0] != '>' && rest[0] != '<' && rest[0] != '=')
    requires NoLineTerminator(rest)
    ensures ParseExplode(ExplodeText(e, sides) + rest, defaultThreshold) == (Some(e), rest)
  {
    if e.threshold != sides {
      var th := NatToString(e.threshold);
      assert ExplodeText(e, sides) + rest == "!" + (th + rest);
      NumeralReadsBack(e.threshold, rest);
      ParseExplodeOf("!" + (th + rest), th, rest, defaultThreshold);
    } else {
      assert ExplodeText(e, sides) + rest == "!" + rest;
      ParseExplodeBare("!" + rest, rest, defaultThreshold);
    }
  }

  /** `!` and a positive numeral before text that does not go on with a
      digit are read as an explode rule with that threshold. */
  lemma ParseExplodeOf(part: string, digits: string, rest: string, defaultThreshold: nat)
    requires |part| >= 1 && part[0] == '!' && part[1..] == digits + rest
    requires digits != [] && AllDigits(digits) && DigitsValue(digits) > 0
    requires (rest == [] || !IsDigit(rest[0])) && NoLineTerminator(rest)
    ensures ParseExplode(part, defaultThreshold) == (Some(ExplodeRule(DigitsValue(digits))), rest)
  {
    assert IsDigit(part[1]) by { assert part[1] == (digits + rest)[0] == digits[0]; }
    LeadingDigitsOfNumeral(digits, rest);
    assert part[1 + |digits|..] == rest;
    var r := ParseExplode(part, defaultThreshold);
  }

  /** A bare `!` before text that starts with no digit and no comparator
      is read as an explode rule with the default threshold. */
  lemma ParseExplodeBare(part: string, rest: string, defaultThreshold: nat)
    requires |part| >= 1 && part[0] == '!' && part[1..] == rest && defaultThreshold > 0
    requires rest == [] || (!IsDigit(rest[0]) && rest[0] != '>' && rest[0] != '<' && rest[0] != '=')
    requires NoLineTerminator(rest)
    ensures ParseExplode(part, defaultThreshold) == (Some(ExplodeRule(defaultThreshold)), rest)
  {
    if |part| >= 2 {
      assert part[1] == rest[0];
    }
    var r := ParseExplode(part, defaultThreshold);
  }

  function StepText(step: Option<nat>): string
  {
    if step.Some? then ":" + NatToString(step.value) else ""
  }

  /** A step, printed before text that does not go on with a digit (nor
      with `:` and a digit when there is no step), is read back. */
  lemma StepReadsBack(step: Option<nat>, rest: string)
    requires step.Some? ==> step.value > 0
    requires (rest == [] || !IsDigit(rest[0])) && NoLineTerminator(rest)
    requires step.None? ==> !(|rest| >= 2 && rest[0] == ':' && IsDigit(rest[1]))
    ensures ParseStep(StepText(step) + rest) == (step, rest)
  {
    if step.Some? {
      var digits := NatToString(step.value);
      assert StepText(step) + rest == ":" + (digits + rest);
      NumeralReadsBack(step.value, rest);
      ParseStepOf(":" + (digits + rest), digits, rest);
    } else {
      assert StepText(step) + rest == rest;
      ParseStepNone(rest);
    }
  }

  /** `:` and a numeral before text that does not go on with a digit are
      read as that step, or as none when the numeral is zero. */
  lemma ParseStepOf(after: string, digits: string, rest: string)
    requires |after| >= 1 && after[0] == ':' && after[1..] == digits + rest
    requires digits != [] && AllDigits(digits) && (rest == [] || !IsDigit(rest[0]))
    ensures ParseStep(after) == (if DigitsValue(digits) != 0 then Some(DigitsValue(digits)) else None, rest)
  {
    LeadingDigitsOfNumeral(digits, rest);
    assert after[1 + |digits|..] == rest;
    var r := ParseStep(after);
  }

  /** Text that does not start with `:` and a digit holds no step. */
  lemma ParseStepNone(after: string)
    requires !(|after| >= 2 && after[0] == ':' && IsDigit(after[1]))
    ensures ParseStep(after) == (None, after)
  {
    if |after| >= 1 {
      assert after[1..] == [] || after[1..][0] == after[1];
    }
    var r := ParseStep(after);
  }

  /** ParseDegrade's accepting branch: `!`, a comparator, a positive
      threshold numeral and the step read from what follows it. */
  lemma DegradeUnfold(part: string, cmp: Comparator, n: nat, digits: string, after: string, step: Option<nat>, rest: string)
    requires |part| >= 1 && part[0] == '!' && LeadingComparator(part[1..]) == Some((cmp, n))
    requires 1 + n <= |part| && LeadingDigits(part[1 + n..]) == digits && AfterNumeral(part, 1 + n) == after
    requires ParseStep(after) == (step, rest) && digits != [] && DigitsValue(digits) != 0 && NoLineTerminator(rest)
    ensures ParseDegrade(part) == (Some(DegradeRule(cmp, DigitsValue(digits), step)), rest)
  {
    var r := ParseDegrade(part);
  }

  /** A printed degrade rule is cut into `!`, its comparator, the
      threshold digits and the text after them. */
  lemma DegradeTextPieces(part: string, c: Comparator, th: string, after: string)
    requires part == "!" + (ComparatorText(c) + (th + after))
    requires th != [] && AllDigits(th) && (after == [] || !IsDigit(after[0]))
    ensures |part| >= 1 && part[0] == '!' && LeadingComparator(part[1..]) == Some((c, |ComparatorText(c)|))
    ensures 1 + |ComparatorText(c)| <= |part| && LeadingDigits(part[1 + |ComparatorText(c)|..]) == th
    ensures AfterNumeral(part, 1 + |ComparatorText(c)|) == after
  {
    var ct := ComparatorText(c);
    AfterPrefix("!", ct + (th + after));
    ComparatorReadsBack(c, th + after);
    assert part[1 + |ct|..] == th + after;
    DigitsAt(part, 1 + |ct|, th, after);
    AfterDigits(part, 1 + |ct|, th);
  }

  lemma DegradeTextShape(g: DegradeRule, rest: string)
    ensures DegradeText(g) + rest == "!" + (ComparatorText(g.comparator) + (NatToString(g.threshold) + (StepText(g.step) + rest)))
  {
  }

  /** A step's text, before text that starts with no digit, starts with
      no digit. */
  lemma StepTextStart(step: Option<nat>, rest: string)
    requires rest == [] || !IsDigit(rest[0])
    ensures StepText(step) + rest == [] || !IsDigit((StepText(step) + rest)[0])
  {
  }

  /** A degrade rule, printed before text that does not go on with a digit
      (nor with `:` and a digit when there is no step), is read back. */
  lemma DegradeReadsBack(g: DegradeRule, rest: string)
    requires g.threshold > 0 && (g.step.Some? ==> g.step.value > 0)
    requires (rest == [] || !IsDigit(rest[0])) && NoLineTerminator(rest)
    requires g.step.None? ==> !(|rest| >= 2 && rest[0] == ':' && IsDigit(rest[1]))
    ensures ParseDegrade(DegradeText(g) + rest) == (Some(g), rest)
  {
    var th := NatToString(g.threshold);
    var after := StepText(g.step) + rest;
    var part := DegradeText(g) + rest;
    DegradeTextShape(g, rest);
    StepReadsBack(g.step, rest);
    StepTextStart(g.step, rest);
    DigitsValueOfNatToString(g.threshold);
    DegradeTextReads(part, g.comparator, th, g.threshold, after, g.step, rest);
  }

  /** `!`, a comparator, threshold digits and the text after them are
      read as a rule with the step read from that text. */
  lemma DegradeTextReads(part: string, c: Comparator, th: string, v: nat, after: string, step: Option<nat>, rest: string)
    requires part == "!" + (ComparatorText(c) + (th + after))
    requires th != [] && AllDigits(th) && DigitsValue(th) == v > 0 && (after == [] || !IsDigit(after[0]))
    requires ParseStep(after) == (step, rest) && NoLineTerminator(rest)
    ensures ParseDegrade(part) == (Some(DegradeRule(c, v, step)), rest)
  {
    DegradeTextPieces(part, c, th, after);
    DegradeUnfold(part, c, |ComparatorText(c)|, th, after, step, rest);
  }

  // ---------------------------------------------------------------------
  // All the modifiers of a term

  function SelectionPiece(s: Option<Selection>): string
  {
    if s.Some? then SelectionText(s.value) else ""
  }

  function PoolPiece(p: Option<PoolRules>): string
  {
    if p.Some? then PoolText(p.value) else ""
  }

  function ExplodePiece(e: Option<ExplodeRule>, sides: nat): string
  {
    if e.Some? then ExplodeText(e.value, sides) else ""
  }

  function DegradePiece(g: Option<DegradeRule>): string
  {
    if g.Some? then DegradeText(g.value) else ""
  }

  predicate ExplodeReadable(e: ExplodeRule, sides: nat, explodeDefault: nat)
  {
    e.threshold > 0 && (e.threshold == sides ==> sides == explodeDefault)
  }

  /** The modifiers of `d` are ones the parser produces, and a bare `!`
      (written when the threshold equals the sides) stands for the
      default threshold of that kind of die. */
  predicate ModifiersReadable(d: DiceTerm, explodeDefault: nat)
  {
    && (d.selection.Some? ==> d.selection.value.count > 0)
    && (d.pool.Some? ==> d.pool.value.threshold > 0)
    && (d.explode.Some? ==> ExplodeReadable(d.explode.value, d.sides, explodeDefault))
    && (d.degrade.Some? ==> d.degrade.value.threshold > 0 && (d.degrade.value.step.Some? ==> d.degrade.value.step.value > 0))
  }

  lemma ComparatorTextNoLineTerminator(c: Comparator)
    ensures NoLineTerminator(ComparatorText(c))
  {
  }

  lemma PoolPieceShape(p: Option<PoolRules>)
    ensures NoLineTerminator(PoolPiece(p))
    ensures PoolPiece(p) == [] || PoolPiece(p)[0] in "<>="
  {
    if p.Some? {
      var ct := ComparatorText(p.value.comparator);
      var th := NatToString(p.value.threshold);
      ComparatorTextNoLineTerminator(p.value.comparator);
      DigitsNoLineTerminator(th);
      ConcatNoLineTerminator(ct, th);
      if p.value.target.Some? {
        DigitsNoLineTerminator(NatToString(p.value.target.value));
        ConcatNoLineTerminator("#", NatToString(p.value.target.value));
        ConcatNoLineTerminator(ct + th, "#" + NatToString(p.value.target.value));
      } else {
        assert PoolPiece(p) == ct + th;
      }
    }
  }

  lemma ExplodePieceShape(e: Option<ExplodeRule>, sides: nat)
    ensures NoLineTerminator(ExplodePiece(e, sides))
    ensures ExplodePiece(e, sides) == [] || ExplodePiece(e, sides)[0] == '!'
  {
    if e.Some? && e.value.threshold != 0 && e.value.threshold != sides {
      DigitsNoLineTerminator(NatToString(e.value.threshold));
      ConcatNoLineTerminator("!", NatToString(e.value.threshold));
    }
  }

  lemma DegradePieceShape(g: Option<DegradeRule>)
    ensures NoLineTerminator(DegradePiece(g))
    ensures DegradePiece(g) == [] || (|DegradePiece(g)| >= 2 && DegradePiece(g)[0] == '!' && DegradePiece(g)[1] in "<>=")
  {
    if g.Some? {
      var ct := ComparatorText(g.value.comparator);
      var th := NatToString(g.value.threshold);
      ComparatorTextNoLineTerminator(g.value.comparator);
      DigitsNoLineTerminator(th);
      ConcatNoLineTerminator("!", ct);
      ConcatNoLineTerminator("!" + ct, th);
      if g.value.step.Some? {
        DigitsNoLineTerminator(NatToString(g.value.step.value));
        ConcatNoLineTerminator(":", NatToString(g.value.step.value));
        ConcatNoLineTerminator("!" + ct + th, ":" + NatToString(g.value.step.value));
      } else {
        assert DegradePiece(g) == "!" + ct + th;
      }
    }
  }

  lemma SelectionStep(s: Option<Selection>, tail: string)
    requires s.Some? ==> s.value.count > 0
    requires (tail == [] || tail[0] in "<>=!") && NoLineTerminator(tail)
    ensures ParseSelection(SelectionPiece(s) + tail) == (s, tail)
  {
    if s.Some? {
      SelectionReadsBack(s.value, tail);
    } else if tail != [] {
      assert SelectionPiece(s) + tail == tail;
      if |tail| >= 2 {
        assert ToLower(tail[..2])[0] == LowerChar(tail[0]);
      }
    }
  }

  lemma PoolStep(p: Option<PoolRules>, tail: string)
    requires p.Some? ==> p.value.threshold > 0
    requires (tail == [] || tail[0] == '!') && NoLineTerminator(tail)
    ensures ParsePool(PoolPiece(p) + tail) == (p, tail)
  {
    if p.Some? {
      PoolReadsBack(p.value, tail);
    } else {
      assert PoolPiece(p) + tail == tail;
    }
  }

  lemma ExplodeStep(e: Option<ExplodeRule>, sides: nat, explodeDefault: nat, tail: string)
    requires e.Some? ==> e.value.threshold > 0 && (e.value.threshold == sides ==> sides == explodeDefault)
    requires tail == [] || (|tail| >= 2 && tail[0] == '!' && tail[1] in "<>=")
    requires NoLineTerminator(tail)
    ensures ParseExplode(ExplodePiece(e, sides) + tail, explodeDefault) == (e, tail)
  {
    if e.Some? {
      ExplodeReadsBack(e.value, sides, explodeDefault, tail);
    } else {
      assert ExplodePiece(e, sides) + tail == tail;
    }
  }

  lemma DegradeStep(g: Option<DegradeRule>)
    requires g.Some? ==> g.value.threshold > 0 && (g.value.step.Some? ==> g.value.step.value > 0)
    ensures ParseDegrade(DegradePiece(g)) == (g, [])
  {
    if g.Some? {
      DegradeReadsBack(g.value, []);
      assert DegradeText(g.value) + [] == DegradeText(g.value);
    }
  }

  /** `ParseModifiers` is the four parsers in a row. */
  lemma ModifiersSteps(part: string, explodeDefault: nat, m: Modifiers, r1: string, r2: string, r3: string)
    requires ParseSelection(part) == (m.selection, r1)
    requires ParsePool(r1) == (m.pool, r2)
    requires ParseExplode(r2, explodeDefault) == (m.explode, r3)
    requires ParseDegrade(r3) == (m.degrade, m.rest)
    ensures ParseModifiers(part, explodeDefault) == m
  {
  }

  /** What is left after each modifier of a printed suffix starts the way
      the next parser expects and has no line terminator. */
  lemma TailShapes(d: DiceTerm)
    ensures var e := ExplodePiece(d.explode, d.sides); var g := DegradePiece(d.degrade);
      NoLineTerminator(g) && (g == [] || (|g| >= 2 && g[0] == '!' && g[1] in "<>="))
    ensures var e := ExplodePiece(d.explode, d.sides); var g := DegradePiece(d.degrade);
      NoLineTerminator(e + g) && (e + g == [] || (e + g)[0] == '!')
    ensures var p := PoolPiece(d.pool); var e := ExplodePiece(d.explode, d.sides); var g := DegradePiece(d.degrade);
      NoLineTerminator(p + (e + g)) && (p + (e + g) == [] || (p + (e + g))[0] in "<>=!")
  {
    var p := PoolPiece(d.pool);
    var e := ExplodePiece(d.explode, d.sides);
    var g := DegradePiece(d.degrade);
    DegradePieceShape(d.degrade);
    ExplodePieceShape(d.explode, d.sides);
    ConcatNoLineTerminator(e, g);
    PoolPieceShape(d.pool);
    ConcatNoLineTerminator(p, e + g);
  }

  /** Each parser reads its own piece of a printed suffix. */
  lemma PiecesReadBack(d: DiceTerm, explodeDefault: nat)
    requires ModifiersReadable(d, explodeDefault)
    ensures var s := SelectionPiece(d.selection); var p := PoolPiece(d.pool);
      var e := ExplodePiece(d.explode, d.sides); var g := DegradePiece(d.degrade);
      && ParseSelection(s + (p + (e + g))) == (d.selection, p + (e + g))
      && ParsePool(p + (e + g)) == (d.pool, e + g)
      && ParseExplode(e + g, explodeDefault) == (d.explode, g)
      && ParseDegrade(g) == (d.degrade, [])
  {
    var p := PoolPiece(d.pool);
    var e := ExplodePiece(d.explode, d.sides);
    var g := DegradePiece(d.degrade);
    TailShapes(d);
    SelectionStep(d.selection, p + (e + g));
    PoolStep(d.pool, e + g);
    ExplodeStep(d.explode, d.sides, explodeDefault, g);
    DegradeStep(d.degrade);
  }

  lemma Associate(a: string, b: string, c: string, d: string)
    ensures a + b + c + d == a + (b + (c + d))
  {
  }

  lemma AssociateFront(a: string, b: string, c: string, d: string)
    ensures a + b + c + d == a + (b + c + d)
  {
  }

  /** The suffix of `d`, piece by piece. */
  function Pieces(d: DiceTerm): string
  {
    SelectionPiece(d.selection) + (PoolPiece(d.pool) + (ExplodePiece(d.explode, d.sides) + DegradePiece(d.degrade)))
  }

  lemma PiecesModifiers(d: DiceTerm, explodeDefault: nat)
    requires ModifiersReadable(d, explodeDefault)
    ensures ParseModifiers(Pieces(d), explodeDefault) == Modifiers(d.selection, d.pool, d.explode, d.degrade, [])
  {
    var p := PoolPiece(d.pool);
    var e := ExplodePiece(d.explode, d.sides);
    var g := DegradePiece(d.degrade);
    PiecesReadBack(d, explodeDefault);
    ModifiersSteps(Pieces(d), explodeDefault, Modifiers(d.selection, d.pool, d.explode, d.degrade, []), p + (e + g), e + g, g);
  }

  /** The modifiers `describe` writes for a term are read back as the
      term's own modifiers, with nothing left over. */
  lemma ModifiersReadBack(d: DiceTerm, explodeDefault: nat)
    requires ModifiersReadable(d, explodeDefault)
    ensures ParseModifiers(SuffixText(d), explodeDefault) == Modifiers(d.selection, d.pool, d.explode, d.degrade, [])
  {
    var s, p := SelectionPiece(d.selection), PoolPiece(d.pool);
    var e, g := ExplodePiece(d.explode, d.sides), DegradePiece(d.degrade);
    assert SuffixText(d) == s + p + e + g;
    Associate(s, p, e, g);
    PiecesModifiers(d, explodeDefault);
  }

  lemma SelectionPieceShape(s: Option<Selection>)
    ensures NoLineTerminator(SelectionPiece(s))
    ensures SelectionPiece(s) == [] || SelectionPiece(s)[0] in "kd"
  {
    if s.Some? {
      DigitsNoLineTerminator(NatToString(s.value.count));
      ConcatNoLineTerminator(ModeTag(s.value.mode), NatToString(s.value.count));
    }
  }

  /** A printed suffix has no line terminator and does not start with a
      digit. */
  lemma SuffixShape(d: DiceTerm)
    ensures NoLineTerminator(SuffixText(d))
    ensures SuffixText(d) == [] || !IsDigit(SuffixText(d)[0])
  {
    var s, p := SelectionPiece(d.selection), PoolPiece(d.pool);
    var e, g := ExplodePiece(d.explode, d.sides), DegradePiece(d.degrade);
    assert SuffixText(d) == s + p + e + g;
    Associate(s, p, e, g);
    TailShapes(d);
    SelectionPieceShape(d.selection);
    ConcatNoLineTerminator(s, p + (e + g));
  }

  // ---------------------------------------------------------------------
  // Whole terms

  /** The count printed before a die (none for a single die) is read back
      as that count, and the die follows it. */
  lemma CountReadsBack(fragment: string, count: nat, afterCount: string)
    requires count > 0 && afterCount != [] && afterCount[0] == 'd'
    requires |fragment| >= 1 && Body(fragment) == (if count == 1 then "" else NatToString(count)) + afterCount
    ensures TryParseDice(fragment) == DiceAfterCount(fragment, count, afterCount)
  {
    var countText := if count == 1 then "" else NatToString(count);
    LeadingDigitsOfNumeral(countText, afterCount);
    assert Body(fragment)[|countText|..] == afterCount;
    if count != 1 {
      DigitsValueOfNatToString(count);
    }
  }

  /** How `DiceAfterCount` reads a die that is not `d%`. */
  lemma StandardSteps(fragment: string, count: nat, afterCount: string, sidesDigits: string, suffix: string)
    requires |afterCount| >= 2 && IsD(afterCount[0]) && !IsPercentSign(afterCount[1])
    requires LeadingDigits(afterCount[1..]) == sidesDigits && sidesDigits != []
    requires afterCount[1 + |sidesDigits|..] == suffix && NoLineTerminator(suffix)
    ensures DiceAfterCount(fragment, count, afterCount) == StandardDice(fragment, count, DigitsValue(sidesDigits), suffix)
  {
  }

  /** `dS` and a suffix: the sides and then the modifiers. */
  lemma StandardAfterCount(fragment: string, count: nat, sides: nat, suffix: string)
    requires (suffix == [] || !IsDigit(suffix[0])) && NoLineTerminator(suffix)
    ensures DiceAfterCount(fragment, count, "d" + NatToString(sides) + suffix) == StandardDice(fragment, count, sides, suffix)
  {
    var sidesText := NatToString(sides);
    assert "d" + sidesText + suffix == "d" + (sidesText + suffix);
    DigitsValueOfNatToString(sides);
    StandardTextReads(fragment, count, "d" + (sidesText + suffix), sidesText, suffix);
  }

  /** `d`, the sides digits and a suffix that starts with no digit. */
  lemma StandardTextReads(fragment: string, count: nat, afterCount: string, digits: string, suffix: string)
    requires afterCount == "d" + (digits + suffix) && digits != [] && AllDigits(digits)
    requires (suffix == [] || !IsDigit(suffix[0])) && NoLineTerminator(suffix)
    ensures DiceAfterCount(fragment, count, afterCount) == StandardDice(fragment, count, DigitsValue(digits), suffix)
  {
    AfterPrefix("d", digits + suffix);
    DigitsAt(afterCount, 1, digits, suffix);
    assert afterCount[1] == digits[0];
    StandardSteps(fragment, count, afterCount, digits, suffix);
  }

  /** `d%R` and a suffix: the raw digits and then the modifiers. */
  lemma PercentileAfterCount(fragment: string, count: nat, raw: string, suffix: string)
    requires raw != [] && AllDigits(raw)
    requires (suffix == [] || !IsDigit(suffix[0])) && NoLineTerminator(suffix)
    ensures DiceAfterCount(fragment, count, "d%" + raw + suffix) == PercentileDice(fragment, count, raw, suffix)
  {
    var afterCount := "d%" + raw + suffix;
    assert afterCount[0] == 'd' && IsPercentSign(afterCount[1]);
    assert afterCount[2..] == raw + suffix;
    LeadingDigitsOfNumeral(raw, suffix);
    assert afterCount[2 + |raw|..] == suffix;
  }

  /** A described term, with `+` put back in front of an added one, is
      its text behind its sign. */
  lemma SignedFragment(op: Operator, text: string)
    ensures var fragment := AsFragment((if op == Plus then "" else "-") + text, op);
      |fragment| >= 1 && Body(fragment) == text && OpOf(fragment) == op
  {
    var sign := if op == Plus then '+' else '-';
    assert AsFragment((if op == Plus then "" else "-") + text, op) == [sign] + text;
    OpOfSigned(sign, text);
  }

  /** A dice term the challenge rule declines. */
  lemma NotChallenge(fragment: string)
    requires |fragment| >= 1 && Body(fragment) != [] && (IsDigit(Body(fragment)[0]) || Body(fragment)[0] == 'd')
    ensures TryParseChallenge(fragment).None?
  {
    NoChallengeHere(Body(fragment));
  }

  /** The described text of a dice term is its count text, then the rest. */
  lemma DescribedDice(d: DiceTerm, afterCount: string)
    requires TermText(Dice(d)) == (if d.count == 1 then "" else NatToString(d.count)) + afterCount
    requires afterCount != [] && afterCount[0] == 'd'
    ensures var fragment := AsFragment(DescribeTerm(Dice(d)), d.op);
      && |fragment| >= 1 && OpOf(fragment) == d.op
      && Body(fragment) == (if d.count == 1 then "" else NatToString(d.count)) + afterCount
      && TryParseChallenge(fragment).None?
  {
    var countText := if d.count == 1 then "" else NatToString(d.count);
    var fragment := AsFragment(DescribeTerm(Dice(d)), d.op);
    assert DescribeTerm(Dice(d)) == (if d.op == Plus then "" else "-") + TermText(Dice(d));
    SignedFragment(d.op, TermText(Dice(d)));
    assert Body(fragment)[0] == (countText + afterCount)[0];
    NotChallenge(fragment);
  }

  /** Every standard dice term with a positive count and sides and
      modifiers the parser produces is described as text that parses back
      to the same term. */
  lemma StandardTermReadsBack(d: DiceTerm)
    requires d.percentile.None? && d.count > 0 && d.sides > 0 && ModifiersReadable(d, d.sides)
    ensures var fragment := AsFragment(DescribeTerm(Dice(d)), d.op);
      ParseFragment(fragment) == Some(Dice(d.(source := fragment)))
  {
    var countText := if d.count == 1 then "" else NatToString(d.count);
    var suffix := SuffixText(d);
    var afterCount := "d" + NatToString(d.sides) + suffix;
    var fragment := AsFragment(DescribeTerm(Dice(d)), d.op);
    assert TermText(Dice(d)) == countText + afterCount by {
      assert TermText(Dice(d)) == DiceBaseText(d) + suffix;
      assert DiceBaseText(d) == countText + "d" + NatToString(d.sides);
      AssociateFront(countText, "d", NatToString(d.sides), suffix);
    }
    DescribedDice(d, afterCount);
    assert TryParseDice(fragment) == Some(Dice(d.(source := fragment))) by {
      CountReadsBack(fragment, d.count, afterCount);
      SuffixShape(d);
      StandardAfterCount(fragment, d.count, d.sides, suffix);
      ModifiersReadBack(d, d.sides);
      assert Trim([]) == [];
    }
    DiceWins(fragment, Dice(d.(source := fragment)));
  }

  /** The percentile part of `d` is what `d%` and its raw digits parse to. */
  predicate PercentileReadable(d: DiceTerm)
  {
    && d.percentile.Some?
    && var pc := d.percentile.value;
    && pc.raw != [] && AllDigits(pc.raw) && pc.raw != "100"
    && (|pc.raw| == 2 ==> pc.tensSides == DigitValue(pc.raw[0]) && pc.onesSides == DigitValue(pc.raw[1]))
    && (|pc.raw| != 2 ==> DigitsValue(pc.raw) > 0 && pc.tensSides == DigitsValue(pc.raw) && pc.onesSides == DigitsValue(pc.raw))
    && d.sides == pc.tensSides * 10 + pc.onesSides
  }

  /** `PercentileDice` builds `d` from its raw digits and modifiers. */
  lemma PercentileBuilds(d: DiceTerm, fragment: string, suffix: string)
    requires d.count > 0 && PercentileReadable(d) && d.op == OpOf(fragment)
    requires ParseModifiers(suffix, 10) == Modifiers(d.selection, d.pool, d.explode, d.degrade, [])
    ensures PercentileDice(fragment, d.count, d.percentile.value.raw, suffix) == Some(Dice(d.(source := fragment)))
  {
    var raw := d.percentile.value.raw;
    assert Trim([]) == [];
    assert |raw| != 2 ==> DigitsValue(raw) != 0;
    var r := PercentileDice(fragment, d.count, raw, suffix);
    assert r.Some?;
    assert r.value.dice == d.(source := fragment);
  }

  /** Every `d%` term with a positive count, tens and ones dice that its raw
      digits give, and modifiers the parser produces (a bare `!` standing
      for 10), is described as text that parses back to the same term. */
  lemma PercentileTermReadsBack(d: DiceTerm)
    requires d.count > 0 && PercentileReadable(d) && ModifiersReadable(d, 10)
    ensures var fragment := AsFragment(DescribeTerm(Dice(d)), d.op);
      ParseFragment(fragment) == Some(Dice(d.(source := fragment)))
  {
    var raw := d.percentile.value.raw;
    var countText := if d.count == 1 then "" else NatToString(d.count);
    var suffix := SuffixText(d);
    var afterCount := "d%" + raw + suffix;
    var fragment := AsFragment(DescribeTerm(Dice(d)), d.op);
    assert TermText(Dice(d)) == countText + afterCount by {
      assert TermText(Dice(d)) == DiceBaseText(d) + suffix;
      assert DiceBaseText(d) == countText + "d%" + raw;
      AssociateFront(countText, "d%", raw, suffix);
    }
    DescribedDice(d, afterCount);
    assert TryParseDice(fragment) == Some(Dice(d.(source := fragment))) by {
      CountReadsBack(fragment, d.count, afterCount);
      SuffixShape(d);
      PercentileAfterCount(fragment, d.count, raw, suffix);
      ModifiersReadBack(d, 10);
      PercentileBuilds(d, fragment, suffix);
    }
    DiceWins(fragment, Dice(d.(source := fragment)));
  }

  /** A bare `!` explodes on the sides of a standard die and on 10 for a
      `d%` die, whatever its sides. */
  lemma ExplodeDefaults(fragment: string, count: nat, sides: nat, raw: string)
    requires count > 0 && sides > 0 && raw != [] && AllDigits(raw)
    ensures StandardDice(fragment, count, sides, "!").Some?
    ensures StandardDice(fragment, count, sides, "!").value.dice.explode == Some(ExplodeRule(sides))
    ensures PercentileDice(fragment, count, raw, "!").Some? ==>
      PercentileDice(fragment, count, raw, "!").value.dice.explode == Some(ExplodeRule(10))
  {
    var d := DiceTerm(count, sides, None, None, None, Some(ExplodeRule(sides)), None, Plus, fragment);
    assert SuffixText(d) == "!";
    ModifiersReadBack(d, sides);
    var p := DiceTerm(count, 10, None, None, None, Some(ExplodeRule(10)), None, Plus, fragment);
    assert SuffixText(p) == "!";
    ModifiersReadBack(p, 10);
    assert Trim([]) == [];
  }

  // ---------------------------------------------------------------------
  // Challenge terms

  /** The signed modifier `describe` writes after a die, nothing for 0. */
  function ModifierText(m: int): string
  {
    if m != 0 then (if m >= 0 then "+" else "") + IntToString(m) else ""
  }

  lemma ModifierReadsBack(m: int)
    ensures TrailingModifier(ModifierText(m)) == Some(m)
    ensures ModifierText(m) == [] || ModifierText(m)[0] in "+-"
  {
    ModifierTextOf(m);
    if m > 0 {
      SignedReadsBack('+', m);
    } else if m < 0 {
      SignedReadsBack('-', -m);
    }
  }

  lemma ModifierTextOf(m: int)
    ensures m > 0 ==> ModifierText(m) == "+" + NatToString(m)
    ensures m < 0 ==> ModifierText(m) == "-" + NatToString(-m)
    ensures m == 0 ==> ModifierText(m) == ""
  {
  }

  /** A sign and a numeral are read as the signed value. */
  lemma SignedReadsBack(sign: char, n: nat)
    requires sign == '+' || sign == '-'
    ensures TrailingModifier([sign] + NatToString(n)) == Some(if sign == '-' then -(n as int) else n as int)
  {
    var text := [sign] + NatToString(n);
    assert text[1..] == NatToString(n);
    DigitsValueOfNatToString(n);
  }

  /** Only `d`, digits and signs. */
  predicate DieChars(s: string)
  {
    forall i :: 0 <= i < |s| ==> IsDigit(s[i]) || s[i] in "d+-"
  }

  lemma DieCharsConcat(a: string, b: string)
    requires DieChars(a) && DieChars(b)
    ensures DieChars(a + b)
  {
    assert forall i :: 0 <= i < |a + b| ==> (a + b)[i] == if i < |a| then a[i] else b[i - |a|];
  }

  lemma ModifiedDieShape(countText: string, sides: nat, m: int)
    ensures ModifiedDieText(countText, sides, m) == countText + "d" + NatToString(sides) + ModifierText(m)
  {
  }

  lemma ModifiedDieChars(countText: string, sides: nat, m: int)
    requires AllDigits(countText)
    ensures DieChars(ModifiedDieText(countText, sides, m))
    ensures ModifiedDieText(countText, sides, m) == countText + "d" + NatToString(sides) + ModifierText(m)
  {
    var mt := ModifierText(m);
    if m < 0 {
      assert mt == "-" + NatToString(-m);
    } else if m > 0 {
      assert mt == "+" + NatToString(m);
    }
    assert DieChars(mt);
    DieCharsConcat(countText, "d");
    DieCharsConcat(countText + "d", NatToString(sides));
    DieCharsConcat(countText + "d" + NatToString(sides), mt);
  }

  /** How `ParseSingleDie` reads `d`, the sides and a modifier. */
  lemma SingleDieSteps(part: string, digits: string, after: string, m: int)
    requires part != [] && IsD(part[0]) && LeadingDigits(part[1..]) == digits && digits != [] && DigitsValue(digits) > 0
    requires part[1 + |digits|..] == after && TrailingModifier(after) == Some(m)
    ensures ParseSingleDie(part) == Some((DigitsValue(digits), m))
  {
  }

  /** The action die `describe` writes is read back. */
  lemma SingleDieReadsBack(sides: nat, m: int)
    requires sides > 0
    ensures ParseSingleDie(ModifiedDieText("", sides, m)) == Some((sides, m))
  {
    var digits := NatToString(sides);
    var mt := ModifierText(m);
    var part := ModifiedDieText("", sides, m);
    BareDieShape(sides, m);
    ModifierReadsBack(m);
    DigitsValueOfNatToString(sides);
    SingleDieOf(part, digits, mt, m);
  }

  lemma BareDieShape(sides: nat, m: int)
    ensures ModifiedDieText("", sides, m) == "d" + (NatToString(sides) + ModifierText(m))
  {
    ModifiedDieShape("", sides, m);
  }

  /** `d`, a positive numeral and a modifier's text are read as that die. */
  lemma SingleDieOf(part: string, digits: string, mt: string, m: int)
    requires part == "d" + (digits + mt) && digits != [] && AllDigits(digits) && DigitsValue(digits) > 0
    requires TrailingModifier(mt) == Some(m) && (mt == [] || mt[0] in "+-")
    ensures ParseSingleDie(part) == Some((DigitsValue(digits), m))
  {
    assert part[1..] == digits + mt;
    LeadingDigitsOfNumeral(digits, mt);
    assert part[1 + |digits|..] == mt;
    SingleDieSteps(part, digits, mt, m);
  }

  /** How `ParseDiceWithCount` reads a count and then a single die. */
  lemma CountedDiceSteps(part: string, countDigits: string, die: string, sides: nat, m: int)
    requires LeadingDigits(part) == countDigits && countDigits != [] && DigitsValue(countDigits) > 0
    requires part[|countDigits|..] == die && ParseSingleDie(die) == Some((sides, m))
    ensures ParseDiceWithCount(part) == Some((DigitsValue(countDigits), sides, m))
  {
  }

  /** Counted dice are the count, then the text of a single die. */
  lemma CountedText(countDigits: string, sides: nat, m: int)
    requires AllDigits(countDigits)
    ensures ModifiedDieText(countDigits, sides, m) == countDigits + ModifiedDieText("", sides, m)
    ensures ModifiedDieText("", sides, m)[0] == 'd'
  {
    var rest := "d" + NatToString(sides) + ModifierText(m);
    assert ModifiedDieText("", sides, m) == rest by {
      ModifiedDieShape("", sides, m);
      assert "" + "d" == "d";
    }
    assert ModifiedDieText(countDigits, sides, m) == countDigits + rest by {
      ModifiedDieShape(countDigits, sides, m);
      AssociateFront(countDigits, "d", NatToString(sides), ModifierText(m));
    }
  }

  lemma CountThenDie(count: nat, die: string, sides: nat, m: int)
    requires count > 0 && die != [] && die[0] == 'd' && ParseSingleDie(die) == Some((sides, m))
    ensures ParseDiceWithCount(NatToString(count) + die) == Some((count, sides, m))
  {
    var countDigits := NatToString(count);
    NumeralReadsBack(count, die);
    CountedDiceSteps(countDigits + die, countDigits, die, sides, m);
  }

  /** The challenge dice `describe` writes are read back. */
  lemma CountedDiceReadsBack(count: nat, sides: nat, m: int)
    requires count > 0 && sides > 0
    ensures ParseDiceWithCount(ModifiedDieText(NatToString(count), sides, m)) == Some((count, sides, m))
  {
    CountedText(NatToString(count), sides, m);
    SingleDieReadsBack(sides, m);
    CountThenDie(count, ModifiedDieText("", sides, m), sides, m);
  }

  /** No `v` or `V` anywhere. */
  predicate NoV(s: string)
  {
    forall i :: 0 <= i < |s| ==> LowerChar(s[i]) != 'v'
  }

  lemma DieCharsNoV(s: string)
    requires DieChars(s)
    ensures NoV(s) && NoSpace(s) && NoLineTerminator(s)
  {
    assert forall i :: 0 <= i < |s| ==> LowerChar(s[i]) == s[i];
  }

  /** `VsIndex` finds the first `vs`. */
  lemma FirstVs(s: string, k: nat)
    requires k + 2 <= |s| && VsAt(s, k)
    requires forall i :: 0 <= i < k ==> !VsAt(s, i)
    ensures VsIndex(s) == Some(k)
  {
  }

  lemma NoVsIn(s: string)
    requires NoV(s)
    ensures VsIndex(s).None?
  {
  }

  /** Two pieces with no `v` joined by `vs` split back into those pieces. */
  lemma VsPartsOfPair(a: string, b: string)
    requires NoV(a) && NoV(b)
    ensures VsParts(a + "vs" + b) == (a, b)
  {
    var s := a + "vs" + b;
    assert VsAt(s, |a|);
    assert forall i :: 0 <= i < |a| ==> s[i] == a[i];
    FirstVs(s, |a|);
    assert s[|a| + 2..] == b;
    assert s[..|a|] == a;
    NoVsIn(b);
  }

  lemma {:induction false} RemoveSpacesConcat(a: string, b: string)
    ensures RemoveSpaces(a + b) == RemoveSpaces(a) + RemoveSpaces(b)
  {
    if a == [] {
      assert a + b == b;
    } else {
      assert (a + b)[0] == a[0] && (a + b)[1..] == a[1..] + b;
      RemoveSpacesConcat(a[1..], b);
      if !IsSpace(a[0]) {
        assert RemoveSpaces(a + b) == [a[0]] + (RemoveSpaces(a[1..]) + RemoveSpaces(b));
      }
    }
  }

  lemma RemoveSpacesAroundVs()
    ensures RemoveSpaces(" vs ") == "vs"
  {
    assert IsSpace(' ') && !IsSpace('v') && !IsSpace('s');
    assert " vs "[1..] == "vs " && "vs "[1..] == "s " && "s "[1..] == " " && " "[1..] == [];
    assert RemoveSpaces(" ") == [];
    assert RemoveSpaces("s ") == "s";
    assert RemoveSpaces("vs ") == "vs";
  }

  /** The configuration `describe` writes between the parentheses. */
  function ConfigText(c: ChallengeConfig): string
  {
    ModifiedDieText("", c.actionSides, c.actionModifier) + " vs "
      + ModifiedDieText(NatToString(c.challengeCount), c.challengeSides, c.challengeModifier)
  }

  /** The configuration text, with spaces removed, split at `vs`, gives
      the two dice texts back. */
  lemma ConfigPieces(c: ChallengeConfig)
    ensures var a := ModifiedDieText("", c.actionSides, c.actionModifier);
      var b := ModifiedDieText(NatToString(c.challengeCount), c.challengeSides, c.challengeModifier);
      && VsParts(RemoveSpaces(ConfigText(c))) == (a, b)
      && NoLineTerminator(ConfigText(c)) && ConfigText(c) != [] && ConfigText(c)[0] == 'd'
      && a != [] && b != []
  {
    var a := ModifiedDieText("", c.actionSides, c.actionModifier);
    var b := ModifiedDieText(NatToString(c.challengeCount), c.challengeSides, c.challengeModifier);
    var x := ConfigText(c);
    ModifiedDieChars("", c.actionSides, c.actionModifier);
    ModifiedDieChars(NatToString(c.challengeCount), c.challengeSides, c.challengeModifier);
    DieCharsNoV(a);
    DieCharsNoV(b);
    assert x == a + " vs " + b;
    assert RemoveSpaces(x) == a + "vs" + b by {
      RemoveSpacesConcat(a, " vs ");
      RemoveSpacesConcat(a + " vs ", b);
      RemoveSpacesAroundVs();
    }
    VsPartsOfPair(a, b);
    ConcatNoLineTerminator(a, " vs ");
    ConcatNoLineTerminator(a + " vs ", b);
  }

  /** The configuration text is read back as the configuration. */
  lemma ConfigReadsBack(c: ChallengeConfig)
    requires c.actionSides > 0 && c.challengeSides > 0 && c.challengeCount > 0
    ensures ChallengeConfigOf(Some(ConfigText(c))) == c
    ensures NoLineTerminator(ConfigText(c))
  {
    var a := ModifiedDieText("", c.actionSides, c.actionModifier);
    var b := ModifiedDieText(NatToString(c.challengeCount), c.challengeSides, c.challengeModifier);
    var x := ConfigText(c);
    ConfigPieces(c);
    assert Trim(x) != [] by {
      TrimEmptyIffBlank(x);
    }
    assert ActionRead(a) == (c.actionSides, c.actionModifier) by {
      SingleDieReadsBack(c.actionSides, c.actionModifier);
    }
    assert ChallengeRead(b) == (c.challengeCount, c.challengeSides, c.challengeModifier) by {
      CountedDiceReadsBack(c.challengeCount, c.challengeSides, c.challengeModifier);
    }
  }

  /** `challenge(` the configuration `)` matches the challenge rule. */
  lemma ChallengeTextMatches(c: ChallengeConfig, t: string)
    requires t == "challenge(" + ConfigText(c) + ")" && NoLineTerminator(ConfigText(c))
    ensures ChallengeMatch(t) == Some(Some(ConfigText(c)))
  {
    assert t[..9] == "challenge";
    LowerOfLower("challenge");
    assert t[10..|t| - 1] == ConfigText(c);
  }

  /** Every challenge term with positive sides and count is described as
      text that parses back to the same term. */
  lemma ChallengeTermReadsBack(c: ChallengeConfig, op: Operator, source: string)
    requires c.actionSides > 0 && c.challengeSides > 0 && c.challengeCount > 0
    ensures var fragment := AsFragment(DescribeTerm(Challenge(c, op, source)), op);
      ParseFragment(fragment) == Some(Challenge(c, op, fragment))
  {
    var t := "challenge(" + ConfigText(c) + ")";
    var fragment := AsFragment(DescribeTerm(Challenge(c, op, source)), op);
    ChallengeShape(c, op, source);
    SignedFragment(op, t);
    ConfigReadsBack(c);
    ChallengeTextMatches(c, t);
    ChallengeFragmentParses(fragment, c, op);
  }

  lemma ChallengeShape(c: ChallengeConfig, op: Operator, source: string)
    ensures DescribeTerm(Challenge(c, op, source)) == (if op == Plus then "" else "-") + ("challenge(" + ConfigText(c) + ")")
  {
    ChallengeTermText(c, op, source);
  }

  lemma ChallengeTermText(c: ChallengeConfig, op: Operator, source: string)
    ensures TermText(Challenge(c, op, source)) == "challenge(" + ConfigText(c) + ")"
  {
  }

  /** A fragment whose body matches the challenge rule with the text of
      `c` is read as a challenge term with `c`. */
  lemma ChallengeFragmentParses(fragment: string, c: ChallengeConfig, op: Operator)
    requires |fragment| >= 1 && OpOf(fragment) == op
    requires ChallengeMatch(Body(fragment)) == Some(Some(ConfigText(c))) && ChallengeConfigOf(Some(ConfigText(c))) == c
    ensures ParseFragment(fragment) == Some(Challenge(c, op, fragment))
  {
  }
}
