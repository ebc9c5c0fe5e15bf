/** Dice notation: the tokenizer that cuts notation such as `4d6dl1 + 2 - d4`
    into operator-carrying fragments, the fragment parsers for challenge,
    dice and constant terms with their modifier grammar, and the textual
    summary `describe`. */
module DiceExpression {
  import opened Wrappers
  import opened Text

  datatype Operator = Plus | Minus

  datatype SelectionMode = KeepHighest | KeepLowest | DropHighest | DropLowest

  datatype Selection = Selection(mode: SelectionMode, count: nat)

  datatype Comparator = Ge | Le | Gt | Lt | Eq

  datatype PoolRules = PoolRules(comparator: Comparator, threshold: nat, target: Option<nat>)

  datatype ExplodeRule = ExplodeRule(threshold: nat)

  datatype DegradeRule = DegradeRule(comparator: Comparator, threshold: nat, step: Option<nat>)

  datatype Percentile = Percentile(tensSides: nat, onesSides: nat, raw: string)

  datatype DiceTerm = DiceTerm(
    count: nat, sides: nat, percentile: Option<Percentile>,
    selection: Option<Selection>, pool: Option<PoolRules>,
    explode: Option<ExplodeRule>, degrade: Option<DegradeRule>,
    op: Operator, source: string)

  datatype ChallengeConfig = ChallengeConfig(
    actionSides: nat, actionModifier: int,
    challengeSides: nat, challengeCount: nat, challengeModifier: int)

  datatype Term =
    | Dice(dice: DiceTerm)
    | Constant(value: int, op: Operator, source: string)
    | Challenge(config: ChallengeConfig, op: Operator, source: string)
  {
    function Op(): Operator
    {
      match this
      case Dice(d) => d.op
      case Constant(_, op, _) => op
      case Challenge(_, op, _) => op
    }
  }

  /** The digits after `d%` are kept as they were written. */
  predicate WellFormed(t: Term)
  {
    t.Dice? && t.dice.percentile.Some? ==> AllDigits(t.dice.percentile.value.raw)
  }

  datatype ParseWarning = ParseWarning(fragment: string, reason: string)

  datatype Expression = Expression(original: string, terms: seq<Term>, warnings: seq<ParseWarning>)

  const Unrecognized := "Unrecognized dice/number fragment"

  const DefaultChallenge := ChallengeConfig(6, 0, 10, 2, 0)

  // ---------------------------------------------------------------------
  // Tokenizer

  /** Parenthesis depth after scanning `s`; a `)` never takes it below zero. */
  function Depth(s: string): nat
  {
    if s == [] then 0
    else
      var d := Depth(s[..|s| - 1]);
      var c := s[|s| - 1];
      if c == '(' then d + 1
      else if c == ')' then (if d == 0 then 0 else d - 1)
      else d
  }

  /** A `+` or `-` at a position other than the first, outside parentheses,
      starts a new fragment. */
  predicate SplitsAt(s: string, p: nat)
    requires p < |s|
  {
    0 < p && (s[p] == '+' || s[p] == '-') && Depth(s[..p]) == 0
  }

  /** One more character of scanned text: it opens a new fragment when it
      is a split point or nothing has been collected yet, and otherwise
      joins the last fragment. */
  function Extend(prev: seq<string>, c: char, split: bool): seq<string>
  {
    if split || prev == [] then prev + [[c]]
    else prev[..|prev| - 1] + [prev[|prev| - 1] + [c]]
  }

  lemma ExtendLast(raw: seq<string>, current: string, c: char, split: bool)
    ensures current != [] ==>
      Extend(raw + [current], c, split) == (if split then raw + [current] + [[c]] else raw + [current + [c]])
    ensures Extend([], c, split) == [[c]]
  {
    if current != [] {
      var prev := raw + [current];
      assert prev[..|prev| - 1] == raw;
    }
  }

  /** The fragments of whitespace-free text, cut exactly at the positions
      `SplitsAt` selects. */
  function RawFragments(s: string): seq<string>
  {
    if s == [] then []
    else Extend(RawFragments(s[..|s| - 1]), s[|s| - 1], SplitsAt(s, |s| - 1))
  }

  /** Scanning one more character. */
  lemma RawFragmentsSnoc(s: string, c: char)
    ensures RawFragments(s + [c]) == Extend(RawFragments(s), c, 0 < |s| && (c == '+' || c == '-') && Depth(s) == 0)
    ensures Depth(s + [c]) == if c == '(' then Depth(s) + 1 else if c == ')' then (if Depth(s) == 0 then 0 else Depth(s) - 1) else Depth(s)
  {
    assert (s + [c])[..|s|] == s;
  }

  /** One step of the scan: the character either starts a new fragment or
      extends the current one. */
  lemma ScanOne(s: string, c: char, t: string, raw: seq<string>, current: string)
    requires t == s + [c]
    requires (current == []) == (s == [])
    requires raw + (if current == [] then [] else [current]) == RawFragments(s)
    ensures Depth(t) == if c == '(' then Depth(s) + 1 else if c == ')' then (if Depth(s) == 0 then 0 else Depth(s) - 1) else Depth(s)
    ensures RawFragments(t) ==
      if (c == '+' || c == '-') && |current| > 0 && Depth(s) == 0 then raw + [current] + [[c]] else raw + [current + [c]]
  {
    var split := (c == '+' || c == '-') && |current| > 0 && Depth(s) == 0;
    RawFragmentsSnoc(s, c);
    ExtendLast(raw, current, c, split);
  }

  function Signed(fragment: string): string
  {
    if StartsWith(fragment, "+") || StartsWith(fragment, "-") then fragment else "+" + fragment
  }

  function SignAll(raw: seq<string>): seq<string>
  {
    seq(|raw|, i requires 0 <= i < |raw| => Signed(raw[i]))
  }

  /** The operator-carrying fragments of a notation. */
  function Fragments(notation: string): seq<string>
  {
    SignAll(RawFragments(RemoveSpaces(notation)))
  }

  function Concat(parts: seq<string>): string
  {
    if parts == [] then [] else Concat(parts[..|parts| - 1]) + parts[|parts| - 1]
  }

  /** No empty fragment, and every fragment after the first starts with an operator. */
  predicate WellCut(parts: seq<string>)
  {
    (forall k :: 0 <= k < |parts| ==> parts[k] != []) &&
    (forall k :: 0 < k < |parts| ==> parts[k][0] == '+' || parts[k][0] == '-')
  }

  lemma ExtendShape(prev: seq<string>, c: char, split: bool)
    requires WellCut(prev)
    requires split ==> c == '+' || c == '-'
    ensures WellCut(Extend(prev, c, split))
    ensures Concat(Extend(prev, c, split)) == Concat(prev) + [c]
  {
    var r := Extend(prev, c, split);
    if split || prev == [] {
      assert r[..|prev|] == prev;
    } else {
      var init := prev[..|prev| - 1];
      var last := prev[|prev| - 1];
      assert prev == init + [last];
      assert r[..|init|] == init;
      assert Concat(prev) == Concat(init) + last;
    }
  }

  lemma {:induction false} RawFragmentsShape(s: string)
    ensures WellCut(RawFragments(s))
    ensures Concat(RawFragments(s)) == s
    ensures (RawFragments(s) == []) == (s == [])
  {
    if s != [] {
      var t := s[..|s| - 1];
      RawFragmentsShape(t);
      ExtendShape(RawFragments(t), s[|s| - 1], SplitsAt(s, |s| - 1));
      assert s == t + [s[|s| - 1]];
    }
  }

  lemma {:induction false} ConcatHead(parts: seq<string>)
    requires parts != [] && parts[0] != []
    ensures Concat(parts) != [] && Concat(parts)[0] == parts[0][0]
  {
    if |parts| > 1 {
      ConcatHead(parts[..|parts| - 1]);
    }
  }

  /** Signing a well-cut sequence only ever adds a `+` in front of the first fragment. */
  lemma {:induction false} ConcatSigned(raw: seq<string>)
    requires raw != [] && WellCut(raw)
    ensures Concat(SignAll(raw)) == (if raw[0][0] == '+' || raw[0][0] == '-' then Concat(raw) else "+" + Concat(raw))
  {
    var signed := SignAll(raw);
    if |raw| == 1 {
      assert Concat(raw) == raw[0];
      assert Concat(signed) == signed[0];
    } else {
      var init := raw[..|raw| - 1];
      SignAllInit(raw);
      ConcatSigned(init);
      ConcatLast(raw);
      ConcatLast(signed);
      assert raw[0] == init[0];
      PrefixAssociates(Concat(init), raw[|raw| - 1]);
    }
  }

  lemma ConcatLast(parts: seq<string>)
    requires parts != []
    ensures Concat(parts) == Concat(parts[..|parts| - 1]) + parts[|parts| - 1]
  {
  }

  lemma PrefixAssociates(a: string, b: string)
    ensures "+" + a + b == "+" + (a + b)
  {
  }

  /** Signing the fragments before the last is signing all of them and
      dropping the last, which already carries its operator. */
  lemma SignAllInit(raw: seq<string>)
    requires |raw| > 1 && WellCut(raw)
    ensures WellCut(raw[..|raw| - 1])
    ensures SignAll(raw)[..|raw| - 1] == SignAll(raw[..|raw| - 1])
    ensures SignAll(raw)[|raw| - 1] == raw[|raw| - 1]
  {
    assert SignAll(raw)[|raw| - 1] == Signed(raw[|raw| - 1]);
  }

  /** Tokenizing removes all whitespace, gives every fragment an explicit
      leading operator, and changes nothing else: re-joined, the fragments
      are the whitespace-free notation, with a `+` in front when it did not
      already start with an operator. No fragment is empty. */
  lemma TokenizeShape(notation: string)
    ensures forall k :: 0 <= k < |Fragments(notation)| ==>
      Fragments(notation)[k][0] == '+' || Fragments(notation)[k][0] == '-'
    ensures var s := RemoveSpaces(notation);
      Concat(Fragments(notation)) == (if s == [] || s[0] == '+' || s[0] == '-' then s else "+" + s)
  {
    var s := RemoveSpaces(notation);
    var raw := RawFragments(s);
    RawFragmentsShape(s);
    var f := Fragments(notation);
    forall k | 0 <= k < |f|
      ensures f[k][0] == '+' || f[k][0] == '-'
    {
      assert f[k] == Signed(raw[k]);
    }
    if raw != [] {
      ConcatSigned(raw);
      ConcatHead(raw);
    }
  }

  /** The character loop of the tokenizer. */
  method Tokenize(notation: string) returns (fragments: seq<string>)
    ensures fragments == Fragments(notation)
  {
    var normalized := RemoveSpaces(notation);
    var raw: seq<string> := [];
    var current: string := "";
    var depth: nat := 0;
    var i := 0;
    while i < |normalized|
      invariant 0 <= i <= |normalized|
      invariant depth == Depth(normalized[..i])
      invariant (current == []) == (i == 0)
      invariant raw + (if current == [] then [] else [current]) == RawFragments(normalized[..i])
    {
      var c := normalized[i];
      assert normalized[..i + 1] == normalized[..i] + [c];
      ScanOne(normalized[..i], c, normalized[..i + 1], raw, current);
      if c == '(' {
        depth := depth + 1;
        current := current + [c];
      } else if c == ')' {
        depth := if depth == 0 then 0 else depth - 1;
        current := current + [c];
      } else if (c == '+' || c == '-') && |current| > 0 && depth == 0 {
        raw := raw + [current];
        current := [c];
      } else {
        current := current + [c];
      }
      i := i + 1;
    }
    assert normalized[..i] == normalized;
    if |current| > 0 {
      raw := raw + [current];
    }
    fragments := SignAll(raw);
  }

  // ---------------------------------------------------------------------
  // Fragment parsers

  predicate IsD(c: char) { c == 'd' || c == 'D' }

  function OpOf(fragment: string): Operator
  {
    if StartsWith(fragment, "-") then Minus else Plus
  }

  /** `fragment.slice(1)`. */
  function Body(fragment: string): string
  {
    if fragment == [] then [] else fragment[1..]
  }

  /** The comparator at the front of `s` and its length; `>=` and `<=` win
      over `>` and `<`, as in the alternation `>=|<=|>|<|=`. */
  function LeadingComparator(s: string): (r: Option<(Comparator, nat)>)
    ensures r.Some? ==> r.value.1 == |ComparatorText(r.value.0)| && StartsWith(s, ComparatorText(r.value.0))
  {
    if |s| >= 2 && s[0] == '>' && s[1] == '=' then Some((Ge, 2))
    else if |s| >= 2 && s[0] == '<' && s[1] == '=' then Some((Le, 2))
    else if |s| >= 1 && s[0] == '>' then Some((Gt, 1))
    else if |s| >= 1 && s[0] == '<' then Some((Lt, 1))
    else if |s| >= 1 && s[0] == '=' then Some((Eq, 1))
    else None
  }

  /** The lower-case tag of a selection mode. */
  function ModeTag(m: SelectionMode): string
  {
    match m
    case KeepHighest => "kh"
    case KeepLowest => "kl"
    case DropHighest => "dh"
    case DropLowest => "dl"
  }

  function SelectionTag(tag: string): Option<SelectionMode>
  {
    var t := ToLower(tag);
    if t == "kh" then Some(KeepHighest)
    else if t == "kl" then Some(KeepLowest)
    else if t == "dh" then Some(DropHighest)
    else if t == "dl" then Some(DropLowest)
    else None
  }

  /** `s` is a decimal numeral for `n`, leading zeros allowed. */
  predicate Numeral(s: string, n: nat)
  {
    s != [] && AllDigits(s) && DigitsValue(s) == n
  }

  /** `s` is a numeral for `n` followed by `rest`, which does not go on
      with another digit. */
  predicate NumeralThen(s: string, n: nat, rest: string)
  {
    |rest| < |s| && rest == s[|s| - |rest|..] && Numeral(s[..|s| - |rest|], n)
    && (rest == [] || !IsDigit(rest[0]))
  }

  /** The digits at the front of `s`, when there are some, are a numeral
      followed by the rest of `s`. */
  lemma ReadNumeral(s: string)
    requires LeadingDigits(s) != []
    ensures NumeralThen(s, DigitsValue(LeadingDigits(s)), s[|LeadingDigits(s)|..])
  {
  }

  /** What follows the digits that start at position `n` of `s`. */
  function AfterNumeral(s: string, n: nat): string
    requires n <= |s|
  {
    s[n + |LeadingDigits(s[n..])|..]
  }

  /** The digits at position `n` of `s`, when there are some, are a
      numeral followed by what comes after them. */
  lemma ReadNumeralAt(s: string, n: nat)
    requires n <= |s| && LeadingDigits(s[n..]) != []
    ensures NumeralThen(s[n..], DigitsValue(LeadingDigits(s[n..])), AfterNumeral(s, n))
  {
    ReadNumeral(s[n..]);
    assert s[n..][|LeadingDigits(s[n..])|..] == AfterNumeral(s, n);
  }

  /** What follows known leading digits at position `n`. */
  lemma AfterDigits(s: string, n: nat, digits: string)
    requires n + |digits| <= |s| && LeadingDigits(s[n..]) == digits
    ensures AfterNumeral(s, n) == s[n + |digits|..]
  {
  }

  /** A numeral followed by `rest` is exactly the digits at the front. */
  lemma NumeralFront(s: string, n: nat, rest: string)
    requires NumeralThen(s, n, rest)
    ensures LeadingDigits(s) == s[..|s| - |rest|] && s[|LeadingDigits(s)|..] == rest
  {
    assert s == s[..|s| - |rest|] + rest;
    LeadingDigitsOfNumeral(s[..|s| - |rest|], rest);
  }

  /** `kh|kl|dh|dl` (any case) and a positive count; anything else leaves
      the text as it was. The mode is the tag at the front, the count the
      numeral after it. */
  function ParseSelection(part: string): (r: (Option<Selection>, string))
    ensures r.0.None? ==> r.1 == part
    ensures r.0.Some? ==> |part| >= 3 && ToLower(part[..2]) == ModeTag(r.0.value.mode)
    ensures r.0.Some? ==> r.0.value.count > 0 && NumeralThen(part[2..], r.0.value.count, r.1)
  {
    if part == [] then (None, [])
    else if |part| < 2 || SelectionTag(part[..2]).None? then (None, part)
    else
      var digits := LeadingDigits(part[2..]);
      var rest := part[2 + |digits|..];
      if digits == [] || !NoLineTerminator(rest) || DigitsValue(digits) == 0 then (None, part)
      else
        ReadNumeral(part[2..]);
        (Some(Selection(SelectionTag(part[..2]).value, DigitsValue(digits))), rest)
  }

  /** What a pool rule leaves after its threshold: `#` and the target
      numeral before `rest`, or `rest` itself when there is no target. */
  predicate TargetThen(mid: string, target: Option<nat>, rest: string)
  {
    if target.Some? then |mid| >= 1 && mid[0] == '#' && NumeralThen(mid[1..], target.value, rest)
    else rest == mid && !(|mid| >= 2 && mid[0] == '#' && IsDigit(mid[1]))
  }

  /** `part` holds the comparator of `p`, its positive threshold numeral
      and its target, then `rest`. */
  predicate PoolRead(part: string, p: PoolRules, rest: string)
  {
    var n := |ComparatorText(p.comparator)|;
    StartsWith(part, ComparatorText(p.comparator)) && p.threshold > 0
    && NumeralThen(part[n..], p.threshold, AfterNumeral(part, n)) && TargetThen(AfterNumeral(part, n), p.target, rest)
  }

  /** The optional `#target` after a pool threshold: `#` and the target
      numeral, or nothing read. */
  function ParseTarget(mid: string): (r: (Option<nat>, string))
    ensures TargetThen(mid, r.0, r.1)
  {
    var targetDigits := if |mid| >= 1 then LeadingDigits(mid[1..]) else [];
    if |mid| >= 1 && mid[0] == '#' && targetDigits != [] then
      ReadNumeral(mid[1..]);
      (Some(DigitsValue(targetDigits)), mid[1 + |targetDigits|..])
    else (None, mid)
  }

  /** A success comparator with a positive threshold, then an optional
      `#target`: the comparator at the front, the threshold numeral after
      it, and the target numeral after a `#`. */
  function ParsePool(part: string): (r: (Option<PoolRules>, string))
    ensures r.0.None? ==> r.1 == part
    ensures r.0.Some? ==> PoolRead(part, r.0.value, r.1)
  {
    if part == [] then (None, [])
    else match LeadingComparator(part)
      case None => (None, part)
      case Some((cmp, n)) =>
        var digits := LeadingDigits(part[n..]);
        var (target, rest) := ParseTarget(AfterNumeral(part, n));
        if digits == [] || !NoLineTerminator(AfterNumeral(part, n)) || DigitsValue(digits) == 0 then (None, part)
        else
          ReadNumeralAt(part, n);
          (Some(PoolRules(cmp, DigitsValue(digits), target)), rest)
  }

  /** `!` with an optional threshold; a `!` directly followed by `>`, `<` or
      `=` belongs to a degrade rule instead. The threshold is the numeral
      after `!`, or the default when no digit follows. */
  function ParseExplode(part: string, defaultThreshold: nat): (r: (Option<ExplodeRule>, string))
    ensures r.0.None? ==> r.1 == part
    ensures r.0.Some? ==> part != [] && part[0] == '!' && (|part| == 1 || (part[1] != '>' && part[1] != '<' && part[1] != '='))
    ensures r.0.Some? ==> r.0.value.threshold > 0 && |r.1| + 1 <= |part| && r.1 == part[|part| - |r.1|..]
    ensures r.0.Some? && (|part| == 1 || !IsDigit(part[1])) ==> r.0.value.threshold == defaultThreshold && r.1 == part[1..]
    ensures r.0.Some? && |part| > 1 && IsDigit(part[1]) ==> NumeralThen(part[1..], r.0.value.threshold, r.1)
  {
    if part == [] then (None, [])
    else if part[0] != '!' then (None, part)
    else if |part| >= 2 && (part[1] == '>' || part[1] == '<' || part[1] == '=') then (None, part)
    else
      var digits := LeadingDigits(part[1..]);
      var remainder := part[1 + |digits|..];
      var threshold := if digits != [] then DigitsValue(digits) else defaultThreshold;
      if !NoLineTerminator(remainder) || threshold == 0 then (None, part)
      else
        if digits != [] then
          ReadNumeral(part[1..]);
          (Some(ExplodeRule(threshold)), remainder)
        else (Some(ExplodeRule(threshold)), remainder)
  }

  /** What a degrade rule leaves after its threshold: `:` and the step
      numeral before `rest` (a zero step read as absent), or `rest` itself. */
  predicate StepThen(mid: string, step: Option<nat>, rest: string)
  {
    if step.Some? then
      |mid| >= 1 && mid[0] == ':' && step.value > 0 && NumeralThen(mid[1..], step.value, rest)
    else
      (rest == mid && !(|mid| >= 2 && mid[0] == ':' && IsDigit(mid[1])))
      || (|mid| >= 1 && mid[0] == ':' && NumeralThen(mid[1..], 0, rest))
  }

  /** `part` holds `!`, the comparator of `g`, its positive threshold
      numeral and its step, then `rest`. */
  predicate DegradeRead(part: string, g: DegradeRule, rest: string)
  {
    var n := 1 + |ComparatorText(g.comparator)|;
    |part| >= 1 && part[0] == '!' && StartsWith(part[1..], ComparatorText(g.comparator)) && g.threshold > 0
    && NumeralThen(part[n..], g.threshold, AfterNumeral(part, n)) && StepThen(AfterNumeral(part, n), g.step, rest)
  }

  /** The text after a numeral that starts at `n` is a suffix of `part`,
      shorter than what follows `n`. */
  lemma NumeralSuffix(part: string, n: nat, value: nat, after: string)
    requires n <= |part| && NumeralThen(part[n..], value, after)
    ensures |after| + n < |part| && after == part[|part| - |after|..]
  {
    assert part[n..][|part[n..]| - |after|..] == part[|part| - |after|..];
  }

  /** What a step leaves is a suffix of what it was read from. */
  lemma StepSuffix(mid: string, step: Option<nat>, rest: string)
    requires StepThen(mid, step, rest)
    ensures |rest| <= |mid| && rest == mid[|mid| - |rest|..]
  {
  }

  /** A suffix of a suffix is a suffix. */
  lemma SuffixOfSuffix(a: string, b: string, c: string)
    requires |b| <= |a| && b == a[|a| - |b|..]
    requires |c| <= |b| && c == b[|b| - |c|..]
    ensures c == a[|a| - |c|..]
  {
    assert b[|b| - |c|..] == a[|a| - |c|..];
  }

  lemma DegradeReadOf(part: string, cmp: Comparator, threshold: nat, after: string, step: Option<nat>, rest: string)
    requires |part| >= 1 && part[0] == '!' && StartsWith(part[1..], ComparatorText(cmp)) && threshold > 0
    requires NumeralThen(part[1 + |ComparatorText(cmp)|..], threshold, after)
    requires AfterNumeral(part, 1 + |ComparatorText(cmp)|) == after
    requires StepThen(after, step, rest)
    ensures DegradeRead(part, DegradeRule(cmp, threshold, step), rest)
  {
  }

  /** What a degrade rule leaves is a suffix of its text, at least three
      characters shorter. */
  lemma DegradeRestSuffix(part: string, k: nat, threshold: nat, after: string, step: Option<nat>, rest: string)
    requires 2 <= k <= |part| && NumeralThen(part[k..], threshold, after) && StepThen(after, step, rest)
    ensures |part| >= 3 && |rest| + 3 <= |part| && rest == part[|part| - |rest|..]
  {
    NumeralSuffix(part, k, threshold, after);
    StepSuffix(after, step, rest);
    SuffixOfSuffix(part, after, rest);
  }

  /** The optional `:step` after a degrade threshold; a zero step is
      read and counts as absent. */
  function ParseStep(after: string): (r: (Option<nat>, string))
    ensures StepThen(after, r.0, r.1)
  {
    var stepDigits := if |after| >= 1 then LeadingDigits(after[1..]) else [];
    if |after| >= 1 && after[0] == ':' && stepDigits != [] then
      ReadNumeral(after[1..]);
      var rest := after[1 + |stepDigits|..];
      if DigitsValue(stepDigits) != 0 then (Some(DigitsValue(stepDigits)), rest) else (None, rest)
    else (None, after)
  }

  /** `!`, a comparator, a positive threshold and an optional `:step`:
      the comparator after `!`, the threshold numeral after it, and the
      step numeral after a `:`. */
  function ParseDegrade(part: string): (r: (Option<DegradeRule>, string))
    ensures r.0.None? ==> r.1 == part
    ensures r.0.Some? ==> |part| >= 3 && |r.1| + 3 <= |part| && r.1 == part[|part| - |r.1|..]
    ensures r.0.Some? ==> DegradeRead(part, r.0.value, r.1)
  {
    if part == [] then (None, [])
    else if part[0] != '!' then (None, part)
    else match LeadingComparator(part[1..])
      case None => (None, part)
      case Some((cmp, n)) => ParseDegradeAfter(part, cmp, n)
  }

  /** The rest of a degrade rule once `!` and its comparator are read. */
  function ParseDegradeAfter(part: string, cmp: Comparator, n: nat): (r: (Option<DegradeRule>, string))
    requires |part| >= 1 && part[0] == '!' && LeadingComparator(part[1..]) == Some((cmp, n))
    ensures r.0.None? ==> r.1 == part
    ensures r.0.Some? ==> |part| >= 3 && |r.1| + 3 <= |part| && r.1 == part[|part| - |r.1|..]
    ensures r.0.Some? ==> DegradeRead(part, r.0.value, r.1)
  {
    var digits := LeadingDigits(part[1 + n..]);
    var after := AfterNumeral(part, 1 + n);
    var (step, remainder) := ParseStep(after);
    if digits == [] || !NoLineTerminator(remainder) || DigitsValue(digits) == 0 then (None, part)
    else
      DegradeAccepted(part, cmp, n, digits, after, step, remainder);
      (Some(DegradeRule(cmp, DigitsValue(digits), step)), remainder)
  }

  /** A positive threshold numeral after the comparator, and the step
      read after it, make a degrade rule read from `part`. */
  lemma DegradeAccepted(part: string, cmp: Comparator, n: nat, digits: string, after: string, step: Option<nat>, rest: string)
    requires |part| >= 1 && part[0] == '!' && LeadingComparator(part[1..]) == Some((cmp, n))
    requires digits == LeadingDigits(part[1 + n..]) && digits != [] && DigitsValue(digits) != 0
    requires after == AfterNumeral(part, 1 + n) && StepThen(after, step, rest)
    ensures |part| >= 3 && |rest| + 3 <= |part| && rest == part[|part| - |rest|..]
    ensures DegradeRead(part, DegradeRule(cmp, DigitsValue(digits), step), rest)
  {
    ReadNumeralAt(part, 1 + n);
    DegradeReadOf(part, cmp, DigitsValue(digits), after, step, rest);
    DegradeRestSuffix(part, 1 + n, DigitsValue(digits), after, step, rest);
  }

  /** The optional `[+-]digits` that must end a challenge part: nothing
      reads as 0, a sign and digits as the signed numeral, and anything
      else is refused. */
  function TrailingModifier(after: string): (r: Option<int>)
    ensures r.Some? <==> after == [] || (|after| >= 2 && (after[0] == '+' || after[0] == '-') && AllDigits(after[1..]))
    ensures after == [] && r.Some? ==> r.value == 0
    ensures after != [] && r.Some? ==>
      Numeral(after[1..], Abs(r.value)) && (after[0] == '+' ==> r.value >= 0) && (after[0] == '-' ==> r.value <= 0)
  {
    if after == [] then Some(0)
    else if |after| >= 2 && (after[0] == '+' || after[0] == '-') && AllDigits(after[1..]) then
      var v: int := DigitsValue(after[1..]);
      Some(if after[0] == '-' then -v else v)
    else None
  }

  /** `part` is `d`, the numeral for `sides` and the text of `modifier`. */
  predicate DieRead(part: string, sides: nat, modifier: int)
  {
    |part| >= 2 && IsD(part[0]) && NumeralThen(part[1..], sides, AfterNumeral(part, 1))
    && TrailingModifier(AfterNumeral(part, 1)) == Some(modifier)
  }

  /** `d<sides>[+-mod]`, the action die of a challenge: (sides, modifier),
      read as `DieRead` says. */
  function ParseSingleDie(part: string): (r: Option<(nat, int)>)
    ensures r.Some? ==> r.value.0 > 0 && DieRead(part, r.value.0, r.value.1)
  {
    if part == [] || !IsD(part[0]) then None
    else
      var digits := LeadingDigits(part[1..]);
      var modifier := TrailingModifier(part[1 + |digits|..]);
      if digits == [] || modifier.None? || DigitsValue(digits) == 0 then None
      else
        ReadNumeral(part[1..]);
        Some((DigitsValue(digits), modifier.value))
  }

  /** `[count]d<sides>[+-mod]`, the challenge dice: (count, sides, modifier),
      the count the leading numeral (1 when there is none) and the rest a
      single die. */
  function ParseDiceWithCount(part: string): (r: Option<(nat, nat, int)>)
    ensures r.Some? ==> r.value.0 > 0 && r.value.1 > 0
    ensures r.Some? ==>
      var c := |LeadingDigits(part)|;
      (if c == 0 then r.value.0 == 1 else Numeral(part[..c], r.value.0)) && DieRead(part[c..], r.value.1, r.value.2)
  {
    var countDigits := LeadingDigits(part);
    var count := if countDigits == [] then 1 else DigitsValue(countDigits);
    match ParseSingleDie(part[|countDigits|..])
    case None => None
    case Some((sides, modifier)) => if count == 0 then None else Some((count, sides, modifier))
  }

  /** `vs`, in any case, at position `i` of `s`. */
  predicate VsAt(s: string, i: nat)
    requires i + 2 <= |s|
  {
    LowerChar(s[i]) == 'v' && LowerChar(s[i + 1]) == 's'
  }

  /** Index of the first `vs`, in any case: `None` exactly when there is none. */
  function VsIndex(s: string): (r: Option<nat>)
    ensures r.Some? ==> r.value + 2 <= |s| && VsAt(s, r.value)
    ensures r.Some? ==> forall i :: 0 <= i < r.value ==> !VsAt(s, i)
    ensures r.None? ==> forall i :: 0 <= i && i + 2 <= |s| ==> !VsAt(s, i)
  {
    if |s| < 2 then None
    else if ToLower(s[..2]) == "vs" then Some(0)
    else
      var tail := s[1..];
      assert !VsAt(s, 0);
      assert forall j :: 1 <= j && j + 2 <= |s| ==> (VsAt(s, j) <==> VsAt(tail, j - 1));
      match VsIndex(tail)
      case None => None
      case Some(k) => Some(k + 1)
  }

  /** The first two pieces of `s.split(/vs/i)`, the second "" when absent. */
  function VsParts(s: string): (string, string)
  {
    match VsIndex(s)
    case None => (s, [])
    case Some(k) =>
      var tail := s[k + 2..];
      match VsIndex(tail)
      case None => (s[..k], tail)
      case Some(j) => (s[..k], tail[..j])
  }

  /** The action die read from the part before `vs`: the single die it
      parses as, or the default d6 with no modifier. */
  function ActionRead(actionPart: string): (r: (nat, int))
    ensures r.0 > 0
    ensures actionPart != [] && ParseSingleDie(actionPart).Some? ==> r == ParseSingleDie(actionPart).value
    ensures (actionPart == [] || ParseSingleDie(actionPart).None?) ==> r == (6, 0)
  {
    if actionPart == [] then (6, 0)
    else match ParseSingleDie(actionPart)
      case None => (6, 0)
      case Some(die) => die
  }

  /** The challenge dice read from the part after `vs`: the counted dice it
      parses as, or the default 2d10 with no modifier. */
  function ChallengeRead(challengePart: string): (r: (nat, nat, int))
    ensures r.0 > 0 && r.1 > 0
    ensures challengePart != [] && ParseDiceWithCount(challengePart).Some? ==> r == ParseDiceWithCount(challengePart).value
    ensures (challengePart == [] || ParseDiceWithCount(challengePart).None?) ==> r == (2, 10, 0)
  {
    if challengePart == [] then (2, 10, 0)
    else match ParseDiceWithCount(challengePart)
      case None => (2, 10, 0)
      case Some(dice) => dice
  }

  /** The configuration of a challenge: the defaults when the text is absent
      or blank; otherwise, with spaces removed and split at `vs`, the action
      fields from the first piece and the challenge fields from the second,
      each independently falling back to its defaults. */
  function ChallengeConfigOf(configText: Option<string>): (c: ChallengeConfig)
    ensures c.actionSides > 0 && c.challengeSides > 0 && c.challengeCount > 0
    ensures configText.None? || Trim(configText.value) == [] ==> c == DefaultChallenge
    ensures configText.Some? && Trim(configText.value) != [] ==>
      var parts := VsParts(RemoveSpaces(configText.value));
      (c.actionSides, c.actionModifier) == ActionRead(parts.0)
      && (c.challengeCount, c.challengeSides, c.challengeModifier) == ChallengeRead(parts.1)
  {
    if configText.None? || Trim(configText.value) == [] then DefaultChallenge
    else
      var parts := VsParts(RemoveSpaces(configText.value));
      var (actionSides, actionModifier) := ActionRead(parts.0);
      var (challengeCount, challengeSides, challengeModifier) := ChallengeRead(parts.1);
      ChallengeConfig(actionSides, actionModifier, challengeSides, challengeCount, challengeModifier)
  }

  /** `challenge` or `challenge(<config>)`, in any case: `None` when the body
      does not have that shape, `Some(None)` for a bare `challenge`. */
  function ChallengeMatch(body: string): (r: Option<Option<string>>)
    ensures r.Some? ==> |body| >= 9 && ToLower(body[..9]) == "challenge"
    ensures r == Some(None) <==> |body| == 9 && ToLower(body) == "challenge"
    ensures r.Some? && r.value.Some? ==>
      body == body[..9] + "(" + r.value.value + ")" && NoLineTerminator(r.value.value)
  {
    if |body| < 9 || ToLower(body[..9]) != "challenge" then None
    else if |body| == 9 then Some(None)
    else if |body| >= 11 && body[9] == '(' && body[|body| - 1] == ')' && NoLineTerminator(body[10..|body| - 1]) then
      Some(Some(body[10..|body| - 1]))
    else None
  }

  function TryParseChallenge(fragment: string): (r: Option<Term>)
    ensures r.Some? <==> ChallengeMatch(Body(fragment)).Some?
    ensures r.Some? ==> r.value.Challenge? && r.value.op == OpOf(fragment) && r.value.source == fragment
    ensures r.Some? ==> r.value.config.actionSides > 0 && r.value.config.challengeSides > 0 && r.value.config.challengeCount > 0
    ensures r.Some? ==> r.value.config == ChallengeConfigOf(ChallengeMatch(Body(fragment)).value)
  {
    match ChallengeMatch(Body(fragment))
    case None => None
    case Some(configText) => Some(Challenge(ChallengeConfigOf(configText), OpOf(fragment), fragment))
  }

  datatype Modifiers = Modifiers(
    selection: Option<Selection>, pool: Option<PoolRules>,
    explode: Option<ExplodeRule>, degrade: Option<DegradeRule>, rest: string)

  /** Selection, then pool, then explode, then degrade, each read from what
      the previous one left. */
  function ParseModifiers(part: string, explodeDefault: nat): Modifiers
  {
    var (selection, r1) := ParseSelection(part);
    var (pool, r2) := ParsePool(r1);
    var (explode, r3) := ParseExplode(r2, explodeDefault);
    var (degrade, r4) := ParseDegrade(r3);
    Modifiers(selection, pool, explode, degrade, r4)
  }

  predicate IsPercentSign(c: char) { c == '%' || c == 'p' || c == 'P' }

  /** The term carries the four modifiers that were read. */
  predicate CarriesModifiers(d: DiceTerm, m: Modifiers)
  {
    d.selection == m.selection && d.pool == m.pool && d.explode == m.explode && d.degrade == m.degrade
  }

  /** `^(\d*)d[%pP](\d+)(.*)$` and `^(\d*)d(\d+)(.*)$`, tried in that order,
      with the count already read off. */
  function TryParseDice(fragment: string): (r: Option<Term>)
    ensures r.Some? ==> r.value.Dice? && r.value.dice.op == OpOf(fragment) && r.value.dice.source == fragment
    ensures r.Some? ==> WellFormed(r.value)
    ensures r.Some? ==> r.value.dice.count > 0
    ensures r.Some? && LeadingDigits(Body(fragment)) == [] ==> r.value.dice.count == 1
    ensures r.Some? && LeadingDigits(Body(fragment)) != [] ==> Numeral(LeadingDigits(Body(fragment)), r.value.dice.count)
    ensures r.Some? ==> r == DiceAfterCount(fragment, r.value.dice.count, Body(fragment)[|LeadingDigits(Body(fragment))|..])
    ensures r.Some? && r.value.dice.percentile.None? ==> r.value.dice.sides > 0
    ensures r.Some? && r.value.dice.percentile.Some? ==>
      r.value.dice.sides == r.value.dice.percentile.value.tensSides * 10 + r.value.dice.percentile.value.onesSides
  {
    var body := Body(fragment);
    var countDigits := LeadingDigits(body);
    var count := if countDigits == [] then 1 else DigitsValue(countDigits);
    DiceAfterCount(fragment, count, body[|countDigits|..])
  }

  function DiceAfterCount(fragment: string, count: nat, afterCount: string): (r: Option<Term>)
    ensures r.Some? ==> r.value.Dice? && r.value.dice.op == OpOf(fragment) && r.value.dice.source == fragment
    ensures r.Some? ==> WellFormed(r.value)
    ensures r.Some? ==> r.value.dice.count == count > 0
    ensures r.Some? && r.value.dice.percentile.None? ==> r.value.dice.sides > 0
    ensures r.Some? && r.value.dice.percentile.Some? ==>
      r.value.dice.sides == r.value.dice.percentile.value.tensSides * 10 + r.value.dice.percentile.value.onesSides
    ensures r.Some? ==> |afterCount| >= 2 && IsD(afterCount[0])
    ensures r.Some? && !IsPercentSign(afterCount[1]) ==>
      && r.value.dice.percentile.None?
      && NumeralThen(afterCount[1..], r.value.dice.sides, AfterNumeral(afterCount, 1))
      && CarriesModifiers(r.value.dice, ParseModifiers(AfterNumeral(afterCount, 1), r.value.dice.sides))
    ensures r.Some? && IsPercentSign(afterCount[1]) ==>
      && LeadingDigits(afterCount[2..]) != []
      && r == PercentileDice(fragment, count, LeadingDigits(afterCount[2..]), AfterNumeral(afterCount, 2))
  {
    if |afterCount| >= 2 && IsD(afterCount[0]) && IsPercentSign(afterCount[1])
       && LeadingDigits(afterCount[2..]) != [] && NoLineTerminator(AfterNumeral(afterCount, 2)) then
      PercentileDice(fragment, count, LeadingDigits(afterCount[2..]), AfterNumeral(afterCount, 2))
    else if |afterCount| >= 2 && IsD(afterCount[0]) && LeadingDigits(afterCount[1..]) != []
       && NoLineTerminator(AfterNumeral(afterCount, 1)) then
      var sides := DigitsValue(LeadingDigits(afterCount[1..]));
      var r := StandardDice(fragment, count, sides, AfterNumeral(afterCount, 1));
      assert r.Some? ==> NumeralThen(afterCount[1..], sides, AfterNumeral(afterCount, 1)) by {
        ReadNumeral(afterCount[1..]);
      }
      r
    else None
  }

  /** `NdS` followed by modifiers that must account for all the text. */
  function StandardDice(fragment: string, count: nat, sides: nat, modifierPart: string): (r: Option<Term>)
    ensures r.Some? ==> r.value.Dice? && r.value.dice.op == OpOf(fragment) && r.value.dice.source == fragment
    ensures r.Some? ==> r.value.dice.count == count > 0 && r.value.dice.sides == sides > 0
    ensures r.Some? ==> r.value.dice.percentile.None?
    ensures r.Some? <==> count > 0 && sides > 0 && Trim(ParseModifiers(modifierPart, sides).rest) == []
    ensures r.Some? ==> CarriesModifiers(r.value.dice, ParseModifiers(modifierPart, sides))
  {
    if count == 0 || sides == 0 then None
    else
      var m := ParseModifiers(modifierPart, sides);
      if Trim(m.rest) != [] then None
      else Some(Dice(DiceTerm(count, sides, None, m.selection, m.pool, m.explode, m.degrade, OpOf(fragment), fragment)))
  }

  /** `d%<raw>`: `100` is an ordinary d100, two digits give the tens and
      ones dice, any other raw value `n` gives two dice of `n` sides. */
  function PercentileDice(fragment: string, count: nat, raw: string, modifierPart: string): (r: Option<Term>)
    requires AllDigits(raw)
    ensures r.Some? ==> r.value.Dice? && r.value.dice.op == OpOf(fragment) && r.value.dice.source == fragment
    ensures r.Some? ==> r.value.dice.count == count > 0
    ensures r.Some? ==> (r.value.dice.percentile.None? <==> raw == "100")
    ensures r.Some? && r.value.dice.percentile.Some? ==> r.value.dice.percentile.value.raw == raw
    ensures r.Some? && raw == "100" ==> r.value.dice.sides == 100
    ensures r.Some? && r.value.dice.percentile.Some? ==>
      r.value.dice.sides == r.value.dice.percentile.value.tensSides * 10 + r.value.dice.percentile.value.onesSides
    ensures r.Some? <==>
      count > 0 && Trim(ParseModifiers(modifierPart, 10).rest) == [] && (raw == "100" || |raw| == 2 || DigitsValue(raw) != 0)
    ensures r.Some? ==> CarriesModifiers(r.value.dice, ParseModifiers(modifierPart, 10))
    ensures r.Some? && |raw| == 2 ==> r.value.dice.percentile == Some(Percentile(DigitValue(raw[0]), DigitValue(raw[1]), raw))
    ensures r.Some? && |raw| != 2 && raw != "100" ==> r.value.dice.percentile == Some(Percentile(DigitsValue(raw), DigitsValue(raw), raw))
  {
    if count == 0 then None
    else
      var m := ParseModifiers(modifierPart, 10);
      if Trim(m.rest) != [] then None
      else if raw == "100" then
        Some(Dice(DiceTerm(count, 100, None, m.selection, m.pool, m.explode, m.degrade, OpOf(fragment), fragment)))
      else if |raw| == 2 then
        var tens := DigitValue(raw[0]);
        var ones := DigitValue(raw[1]);
        Some(Dice(DiceTerm(count, tens * 10 + ones, Some(Percentile(tens, ones, raw)),
          m.selection, m.pool, m.explode, m.degrade, OpOf(fragment), fragment)))
      else if DigitsValue(raw) == 0 then None
      else
        var n := DigitsValue(raw);
        Some(Dice(DiceTerm(count, n * 10 + n, Some(Percentile(n, n, raw)),
          m.selection, m.pool, m.explode, m.degrade, OpOf(fragment), fragment)))
  }

  function TryParseConstant(fragment: string): Option<Term>
  {
    match ParseInt(Body(fragment))
    case None => None
    case Some(v) => Some(Constant(v, OpOf(fragment), fragment))
  }

  /** Challenge first, then dice, then constant. */
  function ParseFragment(fragment: string): (r: Option<Term>)
    ensures r.Some? ==> r.value.Op() == OpOf(fragment) && WellFormed(r.value)
    ensures ChallengeMatch(Body(fragment)).Some? ==> r == TryParseChallenge(fragment)
    ensures ChallengeMatch(Body(fragment)).None? && TryParseDice(fragment).Some? ==> r == TryParseDice(fragment)
    ensures ChallengeMatch(Body(fragment)).None? && TryParseDice(fragment).None? ==>
      (r.Some? <==> ParseInt(Body(fragment)).Some?)
      && (r.Some? ==> r == Some(Constant(ParseInt(Body(fragment)).value, OpOf(fragment), fragment)))
  {
    var challenge := TryParseChallenge(fragment);
    if challenge.Some? then challenge
    else
      var dice := TryParseDice(fragment);
      if dice.Some? then dice else TryParseConstant(fragment)
  }

  // ---------------------------------------------------------------------
  // parse

  /** What each fragment parses to under `parse`. */
  function ParseAllWith(fragments: seq<string>, parse: string -> Option<Term>): (parsed: seq<Option<Term>>)
    ensures |parsed| == |fragments|
  {
    seq(|fragments|, k requires 0 <= k < |fragments| => parse(fragments[k]))
  }

  function ParseAll(fragments: seq<string>): (parsed: seq<Option<Term>>)
    ensures |parsed| == |fragments|
  {
    ParseAllWith(fragments, ParseFragment)
  }

  /** The recognised terms, in order. */
  function Recognized(parsed: seq<Option<Term>>): seq<Term>
  {
    if parsed == [] then []
    else
      var init := Recognized(parsed[..|parsed| - 1]);
      var last := parsed[|parsed| - 1];
      if last.Some? then init + [last.value] else init
  }

  /** One warning per unrecognised fragment, in order. */
  function WarningsFor(fragments: seq<string>, parsed: seq<Option<Term>>): seq<ParseWarning>
    requires |fragments| == |parsed|
  {
    if parsed == [] then []
    else
      var init := WarningsFor(fragments[..|fragments| - 1], parsed[..|parsed| - 1]);
      if parsed[|parsed| - 1].Some? then init
      else init + [ParseWarning(fragments[|fragments| - 1], Unrecognized)]
  }

  /** The position of the first unrecognised fragment. */
  function FirstNone(parsed: seq<Option<Term>>): (r: Option<nat>)
    ensures r.Some? ==> r.value < |parsed| && parsed[r.value].None?
    ensures r.Some? ==> forall k :: 0 <= k < r.value ==> parsed[k].Some?
    ensures r.None? ==> forall k :: 0 <= k < |parsed| ==> parsed[k].Some?
  {
    if parsed == [] then None
    else if parsed[0].None? then Some(0)
    else match FirstNone(parsed[1..])
      case None => None
      case Some(k) => Some(k + 1)
  }

  function StrictError(fragment: string, notation: string): string
  {
    "DiceExpression.parse failed: " + Unrecognized + " (\"" + fragment + "\") in \"" + notation + "\""
  }

  /** Exactly one term or one warning per fragment: the warnings name the
      unrecognised fragments, and there are none exactly when every fragment
      was recognised. */
  lemma {:induction false} TermsAndWarningsPartition(fragments: seq<string>, parsed: seq<Option<Term>>)
    requires |fragments| == |parsed|
    ensures |Recognized(parsed)| + |WarningsFor(fragments, parsed)| == |parsed|
    ensures forall k :: 0 <= k < |WarningsFor(fragments, parsed)| ==> WarningsFor(fragments, parsed)[k].reason == Unrecognized
    ensures (WarningsFor(fragments, parsed) == []) == FirstNone(parsed).None?
  {
    if parsed != [] {
      var init := parsed[..|parsed| - 1];
      TermsAndWarningsPartition(fragments[..|fragments| - 1], init);
      assert forall k :: 0 <= k < |init| ==> init[k] == parsed[k];
      if FirstNone(init).Some? {
        assert parsed[FirstNone(init).value].None?;
      }
    }
  }

  lemma {:induction false} FirstNoneAt(parsed: seq<Option<Term>>, i: nat)
    requires i < |parsed| && parsed[i].None?
    requires forall k :: 0 <= k < i ==> parsed[k].Some?
    ensures FirstNone(parsed) == Some(i)
  {
    if i > 0 {
      FirstNoneAt(parsed[1..], i - 1);
    }
  }

  /** `DiceExpression.parse`: blank notation gives the empty expression; an
      error arises only in strict mode, for the first unrecognised fragment;
      otherwise the original notation with the recognised terms and one
      warning per other fragment. */
  method Parse(notation: string, strict: bool) returns (r: Result<Expression, string>)
    ensures Trim(notation) == [] ==> r == Ok(Expression("", [], []))
    ensures Trim(notation) != [] ==>
      var fragments := Fragments(Trim(notation));
      var parsed := ParseAll(fragments);
      if strict && FirstNone(parsed).Some? then
        r == Err(StrictError(fragments[FirstNone(parsed).value], notation))
      else
        r == Ok(Expression(notation, Recognized(parsed), WarningsFor(fragments, parsed)))
  {
    var trimmed := Trim(notation);
    if trimmed == [] {
      return Ok(Expression("", [], []));
    }
    var fragments := Tokenize(trimmed);
    r := CollectTerms(notation, fragments, ParseFragment, strict);
  }

  /** The fragment loop of `parse`, for any fragment parser. */
  method CollectTerms(notation: string, fragments: seq<string>, parse: string -> Option<Term>, strict: bool)
    returns (r: Result<Expression, string>)
    ensures var parsed := ParseAllWith(fragments, parse);
      if strict && FirstNone(parsed).Some? then
        r == Err(StrictError(fragments[FirstNone(parsed).value], notation))
      else
        r == Ok(Expression(notation, Recognized(parsed), WarningsFor(fragments, parsed)))
  {
    ghost var parsedAll := ParseAllWith(fragments, parse);
    var terms: seq<Term> := [];
    var warnings: seq<ParseWarning> := [];
    for i := 0 to |fragments|
      invariant terms == Recognized(parsedAll[..i])
      invariant warnings == WarningsFor(fragments[..i], parsedAll[..i])
      invariant strict ==> forall k :: 0 <= k < i ==> parsedAll[k].Some?
    {
      assert parsedAll[..i + 1][..i] == parsedAll[..i];
      assert fragments[..i + 1][..i] == fragments[..i];
      var parsed := parse(fragments[i]);
      assert parsed == parsedAll[i];
      if parsed.Some? {
        terms := terms + [parsed.value];
      } else {
        warnings := warnings + [ParseWarning(fragments[i], Unrecognized)];
        if strict {
          FirstNoneAt(parsedAll, i);
          return Err(StrictError(fragments[i], notation));
        }
      }
    }
    assert fragments[..|fragments|] == fragments;
    assert parsedAll[..|fragments|] == parsedAll;
    return Ok(Expression(notation, terms, warnings));
  }

  // ---------------------------------------------------------------------
  // describe

  function ComparatorText(c: Comparator): (s: string)
    ensures 1 <= |s| <= 2 && (s[0] == '>' || s[0] == '<' || s[0] == '=')
  {
    match c
    case Ge => ">="
    case Le => "<="
    case Gt => ">"
    case Lt => "<"
    case Eq => "="
  }

  function SelectionText(s: Selection): string
  {
    ModeTag(s.mode) + NatToString(s.count)
  }

  function PoolText(p: PoolRules): string
  {
    ComparatorText(p.comparator) + NatToString(p.threshold)
      + (if p.target.Some? then "#" + NatToString(p.target.value) else "")
  }

  function ExplodeText(e: ExplodeRule, sides: nat): string
  {
    if e.threshold != 0 && e.threshold != sides then "!" + NatToString(e.threshold) else "!"
  }

  function DegradeText(d: DegradeRule): string
  {
    "!" + ComparatorText(d.comparator) + NatToString(d.threshold)
      + (if d.step.Some? then ":" + NatToString(d.step.value) else "")
  }

  /** The modifiers in the order selection, pool, explode, degrade. */
  function SuffixText(d: DiceTerm): string
  {
    (if d.selection.Some? then SelectionText(d.selection.value) else "")
      + (if d.pool.Some? then PoolText(d.pool.value) else "")
      + (if d.explode.Some? then ExplodeText(d.explode.value, d.sides) else "")
      + (if d.degrade.Some? then DegradeText(d.degrade.value) else "")
  }

  function DiceBaseText(d: DiceTerm): string
  {
    if d.percentile.Some? then
      (if d.count == 1 then "" else NatToString(d.count)) + "d%" + d.percentile.value.raw
    else if d.count == 1 then "d" + NatToString(d.sides)
    else NatToString(d.count) + "d" + NatToString(d.sides)
  }

  /** A die with an optional modifier, `+` shown for positive modifiers. */
  function ModifiedDieText(countText: string, sides: nat, modifier: int): string
  {
    countText + "d" + NatToString(sides)
      + (if modifier != 0 then (if modifier >= 0 then "+" else "") + IntToString(modifier) else "")
  }

  function Abs(v: int): nat { if v < 0 then -v else v }

  /** One term of the summary without its sign. */
  function TermText(t: Term): string
  {
    match t
    case Constant(v, _, _) => NatToString(Abs(v))
    case Challenge(c, _, _) =>
      "challenge(" + ModifiedDieText("", c.actionSides, c.actionModifier) + " vs "
        + ModifiedDieText(NatToString(c.challengeCount), c.challengeSides, c.challengeModifier) + ")"
    case Dice(d) => DiceBaseText(d) + SuffixText(d)
  }

  /** One term of the summary, a subtracted term led by `-`. */
  function DescribeTerm(t: Term): string
  {
    (if t.Op() == Plus then "" else "-") + TermText(t)
  }

  function DescribeTerms(terms: seq<Term>): seq<string>
  {
    seq(|terms|, i requires 0 <= i < |terms| => DescribeTerm(terms[i]))
  }

  /** `replace(/\+\s-\s/g, "- ")`. */
  function ReplacePlusSpaceMinusSpace(s: string): string
  {
    if |s| >= 4 && s[0] == '+' && IsSpace(s[1]) && s[2] == '-' && IsSpace(s[3]) then
      "- " + ReplacePlusSpaceMinusSpace(s[4..])
    else if s == [] then []
    else [s[0]] + ReplacePlusSpaceMinusSpace(s[1..])
  }

  /** `describe()` as written: the terms joined with " + ", then the
      replacement above. */
  function Describe(e: Expression): string
  {
    if e.terms == [] then "(no dice)"
    else ReplacePlusSpaceMinusSpace(Join(DescribeTerms(e.terms), " + "))
  }
}
