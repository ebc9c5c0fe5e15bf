# Anvil & Loom core, modelled in Dafny

Anvil & Loom is a desktop journal for solo tabletop role-playing. The player
writes entries in a "Tapestry", a folder of Markdown files. They roll dice and
oracle tables into those entries as result cards. They can also ask a language
model to interpret the results. This project models the logic at the centre of
that application and proves what it promises.

Each module follows one source file or component:

- **Dice notation.**
  - `DiceExpression` models the parser of `src/lib/dice/DiceExpression.ts`:
    tokenising at top-level `+`/`-`, then challenge, dice and constant terms
    with keep/drop, pool, explode and degrade suffixes.
  - `DiceExpression` also models `describe`.
  - `DiceExpressionFacts` holds the round trips and the shape lemmas.
- **Dice rolling.**
  - `DiceRoller` and `DiceRollerFacts` model `DiceRoller.ts`: selection,
    pools, degrade, challenge outcomes, and the combined total.
  - `Sorting` is the insertion sort those rules rely on. It is stable by construction, but stability is not proved.
- **Dice engines.**
  - `DiceEngine` models `src/core/dice/diceEngine.ts` and the identical helpers
    of `src/lib/diceEngine.ts`: simulated dice, single dice with advantage, the
    percentile, challenge and 4d6 rolls, and the oracle d100.
  - `DiceBoxManager` models how values the 3-D dice box reports are handed out
    to requested dice (`src/lib/dice/diceBoxManager.ts`).
  - `DiceAppearanceState.DiceAppearance` is a class whose setters clamp and
    validate the shared appearance settings.
- **Tables.**
  - `TableForge` builds the 50-row range tables of a forged aspect or domain.
  - `AiTableFiller` fills blank rows with generated text.
  - `TableRegistry.Registry` is a class that caches the table descriptors.
  - `TablesPane` models the search, grouping and multi-roll of the tables pane.
- **Result cards.**
  - `Converters` turns a roll, a table roll or an interpretation into a card.
  - `RollHighlights` colours the dice that matter.
  - `HtmlEscape`, `RenderResultCardHtml` and `ResultCardView` render a card to
    HTML, and prove that the escaping and the rendered body read back as the
    card.
- **Interpretation.**
  - `InterpretButton` parses the `forge:oracle` comments of an entry.
  - `OraclePrompts` builds the system and user prompts sent to the model.
- **Table creator relay.**
  - `BatchGenerate` models `handle_batch_generate_api` of
    `table_creator/standalone_server.py`:
    - the API-key headers;
    - the prompt defaults;
    - the model-specific request;
    - the token-exhaustion error;
    - the fence strip and the JSON, bracket and line fallbacks;
    - the bound on the number of entries.
- **Files and the app shell.**
  - `TapestryPaths` models the path helpers of `electron/main.js`: name
    sanitising, unique names, rename rules, the containment check and the
    file tree.
  - `AppTree` models the tree helpers, entry list, dice log and pane widths of
    `src/App.tsx`.
- **Shared helpers.**
  - `Text` holds JavaScript white space (the `\s`/`trim()` set), trimming,
    splitting and joining, decimal printing, and JavaScript `parseInt`.
  - `Wrappers` holds `Option` and `Result`.

Randomness is passed in. A die face is an injected integer: a `draw` function
that stands for `Math.floor(Math.random() * sides) + 1`, and the model clamps
it as the source does. The following are also parameters:

- JSON parsing;
- base64 decoding;
- `localeCompare`;
- the network call;
- the language model.

A `throw` becomes an `Err` carrying the same message.

Where the code and its written description disagree, the model follows the
code:

- The relay's line fallback strips white space and only then `"-,`.
  "- item one" therefore becomes " item one", with the space kept
  (`BatchGenerate.BulletKeepsSpace`).
- `num_entries` is not required to be positive. `BatchGenerate.PyTake` models
  Python slicing with a negative count.
- `normalizeRolls` returns an array reply as it is. It reads `[0].rolls` only
  from a non-array object.

## Model

| member | source | states |
|---|---|---|
| DiceExpression.RawFragmentsSnoc | src/lib/dice/DiceExpression.ts:268-287 | reading one more character either opens a new fragment (a `+`/`-` at depth 0 after a non-empty fragment) or extends the last one; `(` deepens, `)` never goes below 0 |
| DiceExpression.ScanOne | src/lib/dice/DiceExpression.ts:268-287 | one loop step keeps `fragments ++ [current]` equal to the scan of the text read so far |
| DiceExpression.ExtendShape | src/lib/dice/DiceExpression.ts:280-285 | a step keeps every fragment non-empty, every later fragment signed, and the concatenation equal to the text read plus the new character |
| DiceExpression.RawFragmentsShape | src/lib/dice/DiceExpression.ts:264-288 | the raw fragments are well cut, concatenate back to the whitespace-free notation, and are empty only for empty text |
| DiceExpression.ConcatSigned | src/lib/dice/DiceExpression.ts:289-293 | signing only adds a `+` in front of the first fragment when it has no sign |
| DiceExpression.TokenizeShape | src/lib/dice/DiceExpression.ts:264-294 | every fragment starts with `+` or `-`, and the fragments concatenate to the whitespace-free notation, with a `+` added in front when it had no sign |
| DiceExpression.Tokenize | src/lib/dice/DiceExpression.ts:264-294 | the character loop (depth counter, current fragment) returns exactly the fragments of the specification function |
| DiceExpression.ParseSelection | src/lib/dice/DiceExpression.ts:500-520 | no selection leaves the text unchanged; a selection starts with its mode tag (kh, kl, dh, dl in any case), has a positive count read from the digits after it, and leaves the text after those digits |
| DiceExpression.ParsePool | src/lib/dice/DiceExpression.ts:522-548 | no pool leaves the text unchanged; a pool starts with its comparator, has a positive threshold read from the digits after it, a target read after `#` when present, and leaves the rest |
| DiceExpression.ParseExplode | src/lib/dice/DiceExpression.ts:570-592 | an explode starts with `!` not followed by `>`, `<` or `=`; without digits after it the threshold is the default, otherwise it is the positive number those digits spell; the rest follows |
| DiceExpression.ParseDegrade | src/lib/dice/DiceExpression.ts:550-568 | no rule leaves the text unchanged; a degrade rule is `!`, its comparator, a positive threshold read from the digits, and a step after `:` when present; the rest follows |
| DiceExpression.ParseSingleDie | src/lib/dice/DiceExpression.ts:477-486 | an action die read from `d<sides>[±mod]`: positive sides spelled by the digits after `d`, and the modifier read from what follows |
| DiceExpression.ParseDiceWithCount | src/lib/dice/DiceExpression.ts:488-498 | challenge dice read from `[count]d<sides>[±mod]`: the count spelled by the leading digits (1 when there are none), positive sides after `d`, and the modifier |
| DiceExpression.VsIndex | src/lib/dice/DiceExpression.ts:326-327 | the first `vs`, in any case: found exactly at the first position holding it, none only when no position does |
| DiceExpression.ChallengeConfigOf | src/lib/dice/DiceExpression.ts:315-349 | positive sides and count; without a (non-blank) parenthesised part it is d6 against 2d10 with no modifiers; otherwise the action die is read before `vs` and the challenge dice after it |
| DiceExpression.TryParseChallenge | src/lib/dice/DiceExpression.ts:309-361 | a challenge is parsed exactly when the challenge pattern matches; it keeps the fragment's operator and source text and carries the configuration read from the parenthesised part |
| DiceExpression.TryParseDice | src/lib/dice/DiceExpression.ts:363-475 | a parsed dice term keeps operator and source, is well formed, has the count spelled by the leading digits (1 when none), positive sides, and for `d%` the sides `tens*10+ones` |
| DiceExpression.DiceAfterCount | src/lib/dice/DiceExpression.ts:367-475 | after the count comes `d`; `d%` goes to the percentile branch, otherwise the sides are the digits after `d` and the modifiers are those read from what follows; the count is kept and positive |
| DiceExpression.StandardDice | src/lib/dice/DiceExpression.ts:438-474 | a standard term exists exactly when count and sides are positive and nothing but white space follows the modifiers; it carries the given count, sides and the modifiers read, and no percentile |
| DiceExpression.PercentileDice | src/lib/dice/DiceExpression.ts:367-436 | `d%100` is an ordinary 100-sided die; any other raw value gives a percentile with that raw text and sides `tens*10+ones` |
| DiceExpression.ParseFragment | src/lib/dice/DiceExpression.ts:166-169 | the challenge rule is tried first, then the dice rule, then a constant (exactly when the body is an integer); the term keeps the fragment's operator and is well formed |
| DiceExpression.FirstNone | src/lib/dice/DiceExpression.ts:165-186 | the position of the first unrecognised fragment: that one failed and all before it parsed; none means every fragment parsed |
| DiceExpression.TermsAndWarningsPartition | src/lib/dice/DiceExpression.ts:165-186 | every fragment gives a term or a warning, never both; all warnings say "unrecognised"; there are no warnings iff every fragment parsed |
| DiceExpression.FirstNoneAt | src/lib/dice/DiceExpression.ts:165-186 | the first failing index is found exactly |
| DiceExpression.Parse | src/lib/dice/DiceExpression.ts:153-189 | blank notation gives the empty expression; strict mode errors on the first unrecognised fragment, with the message naming it; otherwise the terms and one warning per unrecognised fragment |
| DiceExpression.CollectTerms | src/lib/dice/DiceExpression.ts:165-188 | the fragment loop returns what `Parse` promises, for any fragment parser |
| DiceExpressionFacts.NoChallengeHere | src/lib/dice/DiceExpression.ts:312-313 | a body starting with a digit or `d` is never a challenge |
| DiceExpressionFacts.DescribePlain | src/lib/dice/DiceExpression.ts:215-219 | a plain dice term is summarised as `NdS` (`dS` for one die), with `-` for a minus term |
| DiceExpressionFacts.PlainNotChallenge | src/lib/dice/DiceExpression.ts:309-313 | `NdS` is declined by the challenge rule |
| DiceExpressionFacts.StandardUnmodified | src/lib/dice/DiceExpression.ts:446-474 | `NdS` with no modifier text is the plain term |
| DiceExpressionFacts.PlainAfterCount | src/lib/dice/DiceExpression.ts:438-444 | `dS` after the count is read by the standard pattern |
| DiceExpressionFacts.PlainDiceRule | src/lib/dice/DiceExpression.ts:363-475 | the dice rule reads `NdS` back as the plain term |
| DiceExpressionFacts.PlainCountPrefix | src/lib/dice/DiceExpression.ts:441-442 | the count digits of `NdS` read back as N (1 when omitted), followed by `dS` |
| DiceExpressionFacts.PlainFragment | src/lib/dice/DiceExpression.ts:166-169 | a signed `NdS` fragment parses to the plain dice term |
| DiceExpressionFacts.PlainDiceRoundTrip | src/lib/dice/DiceExpression.ts:195-219 | describing a plain dice term and parsing the text back gives the same term |
| DiceExpressionFacts.DiceWins | src/lib/dice/DiceExpression.ts:166-169 | a fragment the challenge rule declines and the dice rule accepts is a dice term |
| DiceExpressionFacts.PercentileNotChallenge | src/lib/dice/DiceExpression.ts:309-313 | `d%<digits>` is not a challenge |
| DiceExpressionFacts.PercentAfterCount | src/lib/dice/DiceExpression.ts:367-369 | `d%<digits>` after the count is read by the percentile pattern |
| DiceExpressionFacts.PercentileDiceRule | src/lib/dice/DiceExpression.ts:363-370 | `+d%<digits>` has count 1 and goes to the percentile branch |
| DiceExpressionFacts.PercentileUnmodified | src/lib/dice/DiceExpression.ts:390-435 | `d%NN` gives sides `N*10+N` with both digit dice; `d%100` is a plain d100 |
| DiceExpressionFacts.PercentileTwoDigits | src/lib/dice/DiceExpression.ts:405-435 | `d%66` parses to a percentile term of two six-sided dice, sides 66 |
| DiceExpressionFacts.PercentileHundred | src/lib/dice/DiceExpression.ts:390-403 | `d%100` parses to an ordinary 100-sided die |
| DiceExpressionFacts.BareChallenge | src/lib/dice/DiceExpression.ts:309-361 | a bare `challenge`, in any case, is d6 against 2d10 with no modifiers |
| DiceExpressionFacts.ZeroCountRejected | src/lib/dice/DiceExpression.ts:370-371 | zero dice are never a dice term |
| DiceExpressionFacts.GuardedTermText | src/lib/dice/DiceExpression.ts:198-252 | a term's text never has a `-` followed by whitespace, is non-empty and does not start with whitespace |
| DiceExpressionFacts.GuardedDescribeTerm | src/lib/dice/DiceExpression.ts:198-252 | a described term never has a `-` followed by whitespace |
| DiceExpressionFacts.ReplaceUnchanged | src/lib/dice/DiceExpression.ts:255 | the `+ - ` replacement leaves text with no `-` followed by whitespace unchanged |
| DiceExpressionFacts.DescribeIsPlainJoin | src/lib/dice/DiceExpression.ts:195-258 | the summary of well-formed terms is exactly their texts joined by " + ": the replacement never fires |
| DiceExpressionFacts.DescribeConstant | src/lib/dice/DiceExpression.ts:199-202 | a constant is summarised as its absolute value, with `-` for a minus term |
| DiceExpressionFacts.DiceLessConstantAsWritten | src/lib/dice/DiceExpression.ts:195-258 | `NdS-c` is summarised as `NdS + -c` |
| DiceExpressionFacts.DescribeOfPair | src/lib/dice/DiceExpression.ts:195-258 | two well-formed terms are summarised as their texts joined by " + " |
| DiceExpressionFacts.SubtractionAsWritten | src/lib/dice/DiceExpression.ts:195-258 | `d6-2` is summarised as `d6 + -2` |
| DiceExpressionFacts.SubtractionParsed | src/lib/dice/DiceExpression.ts:153-189 | "d6-2" parses to the terms d6 (added) and 2 (subtracted) |
| DiceExpressionFacts.JoinedAllPlus | src/lib/dice/DiceExpression.ts:253-255 | the corrected join of terms that are all added is the " + " join |
| DiceExpressionFacts.FixedAgreesOnSums | src/lib/dice/DiceExpression.ts:195-258 | the corrected summary agrees with the written one whenever every later term is added |
| DiceExpressionFacts.DiceLessConstantFixed | src/lib/dice/DiceExpression.ts:195-258 | the corrected summary writes `NdS-c` as `NdS - c` |
| DiceExpressionFacts.JoinedSingle | src/lib/dice/DiceExpression.ts:253-255 | the corrected join writes a minus term as " - " and its unsigned text |
| DiceExpressionFacts.SubtractionFixed | src/lib/dice/DiceExpression.ts:195-258 | the corrected summary of `d6-2` is `d6 - 2` |
| DiceExpressionReadBack.SelectionReadsBack | src/lib/dice/DiceExpression.ts:221-230 | a selection printed as `kh<n>` (kl, dh, dl) parses back to the same selection, leaving what follows |
| DiceExpressionReadBack.PoolReadsBack | src/lib/dice/DiceExpression.ts:231-237 | a pool printed as comparator, threshold and `#target` parses back to the same pool |
| DiceExpressionReadBack.ExplodeReadsBack | src/lib/dice/DiceExpression.ts:238-245 | an explode printed as `!<n>`, or a bare `!` when the threshold is the default, parses back to the same rule |
| DiceExpressionReadBack.DegradeReadsBack | src/lib/dice/DiceExpression.ts:246-252 | a degrade rule printed as `!`, comparator, threshold and `:step` parses back to the same rule |
| DiceExpressionReadBack.ModifiersReadBack | src/lib/dice/DiceExpression.ts:220-253 | the whole modifier suffix parses back to the same selection, pool, explode and degrade, with nothing left over |
| DiceExpressionReadBack.StandardTermReadsBack | src/lib/dice/DiceExpression.ts:214-254 | a standard dice term, described and parsed again, is the same term with the printed text as source |
| DiceExpressionReadBack.PercentileTermReadsBack | src/lib/dice/DiceExpression.ts:214-254 | a percentile dice term, described and parsed again, is the same term with the printed text as source |
| DiceExpressionReadBack.ExplodeDefaults | src/lib/dice/DiceExpression.ts:372-454 | a bare `!` explodes at the sides on a standard die and at 10 on a percentile die |
| DiceExpressionReadBack.SingleDieReadsBack | src/lib/dice/DiceExpression.ts:205-208 | the action die printed as `d<sides>[±mod]` parses back to its sides and modifier |
| DiceExpressionReadBack.CountedDiceReadsBack | src/lib/dice/DiceExpression.ts:209-212 | the challenge dice printed as `<count>d<sides>[±mod]` parse back to count, sides and modifier |
| DiceExpressionReadBack.ConfigReadsBack | src/lib/dice/DiceExpression.ts:203-213 | a challenge configuration printed as `<action> vs <challenge>` reads back as the same configuration |
| DiceExpressionReadBack.ChallengeTermReadsBack | src/lib/dice/DiceExpression.ts:203-213 | a challenge term, described and parsed again, is the same term with the printed text as source |
| DiceRoller.RollSingleDie | src/lib/dice/DiceRoller.ts:246-249 | the clamp keeps a die in [1, sides] and leaves an in-range roll as it is |
| DiceRoller.MarkDice | src/lib/dice/DiceRoller.ts:283-291 | the dice array is updated in place to the marked dice: listed indices kept (or dropped), the others the opposite |
| DiceRoller.ApplySelection | src/lib/dice/DiceRoller.ts:251-281 | the dice array becomes the selection of the old dice |
| DiceRoller.EvaluatePool | src/lib/dice/DiceRoller.ts:293-306 | successes counts every die meeting the rule, dropped ones included; metTarget is successes ≥ target when a target exists, absent otherwise |
| DiceRoller.SomeMeets | src/lib/dice/DiceRoller.ts:309 | true iff some die meets the comparison |
| DiceRoller.EvaluateDegrade | src/lib/dice/DiceRoller.ts:308-321 | triggers iff some die meets the rule; the step defaults to 1 |
| DiceRoller.EvaluateDiceTerm | src/lib/dice/DiceRoller.ts:212-244 | the push loop gives exactly the evaluated term of the specification function |
| DiceRoller.BeatsAll | src/lib/dice/DiceRoller.ts:407-408 | true iff the action score is above every challenge score |
| DiceRoller.BeatsSome | src/lib/dice/DiceRoller.ts:407-409 | true iff the action score is above some challenge score |
| DiceRoller.ChallengeOutcome | src/lib/dice/DiceRoller.ts:400-411 | Miss with fewer than two scores; otherwise Strong Hit iff above all, Weak Hit iff above some but not all, Miss iff above none |
| DiceRoller.AddModifier | src/lib/dice/DiceRoller.ts:379 | each challenge score is its die plus the modifier |
| DiceRoller.EvaluateChallengeTerm | src/lib/dice/DiceRoller.ts:372-398 | the action score is the die plus its modifier, signed by the operator; each challenge score is its die plus the modifier; the outcome follows the outcome rules; a boon iff a strong hit with all challenge scores equal, a complication iff a miss with all equal |
| DiceRoller.DistinctCountOne | src/lib/dice/DiceRoller.ts:413-421 | a set of challenge scores has size one exactly when all scores are equal |
| DiceRoller.ComputePercentileValue | src/lib/dice/DiceRoller.ts:485-494 | for non-negative inputs the value lies in 1..100 |
| DiceRoller.CombinePercentileValues | src/lib/dice/DiceRoller.ts:474-483 | as many values as the longer list; the i-th pairs the i-th tens and ones, a missing partner drawn from the fallback; all in 1..100 for non-negative input |
| DiceRoller.RollSingle | src/lib/dice/DiceRoller.ts:246-249 | one clamped draw, and the draw cursor advances by one |
| DiceRoller.RollDiceTerm | src/lib/dice/DiceRoller.ts:196-210 | `count` draws evaluated as the term; the cursor advances by the term's draws |
| DiceRoller.RollChallengeTerm | src/lib/dice/DiceRoller.ts:340-348 | one action draw then the challenge draws, evaluated as a challenge term |
| DiceRoller.RollTerm | src/lib/dice/DiceRoller.ts:100-120 | one iteration of the roll loop: a constant is signed, a challenge or dice term is rolled from the draws |
| DiceRoller.RolledTerms | src/lib/dice/DiceRoller.ts:100-120 | one result per term |
| DiceRoller.RolledTermsAt | src/lib/dice/DiceRoller.ts:100-120 | the i-th result is the i-th term rolled after the draws of the terms before it |
| DiceRoller.RolledTermsStep | src/lib/dice/DiceRoller.ts:100-120 | the results and draws of a prefix grow by one term at a time |
| DiceRoller.TotalsSnoc | src/lib/dice/DiceRoller.ts:101-119 | one more result adds its signed contribution to the total, and its successes when it is a pool term |
| DiceRoller.Accumulate | src/lib/dice/DiceRoller.ts:101-119 | the running total and successes stay those of the results so far |
| DiceRoller.Roll | src/lib/dice/DiceRoller.ts:94-128 | the result holds the expression, one result per term, the sum of signed contributions as total, and successes summed over pool terms (absent without one) |
| DiceRollerFacts.MarkedShape | src/lib/dice/DiceRoller.ts:283-291 | marking keeps index and value, sets kept iff the index is listed (or not, for drop), and keeps kept == !dropped |
| DiceRollerFacts.EvaluatedDiceShape | src/lib/dice/DiceRoller.ts:212-244 | exactly `count` dice indexed 0..count-1; a missing value is the last supplied one, or `sides`; kept == !dropped; all kept without a selection |
| DiceRollerFacts.ChosenIsPrefix | src/lib/dice/DiceRoller.ts:256-279 | the chosen dice are a prefix of a permutation of the dice |
| DiceRollerFacts.OrderedSorted | src/lib/dice/DiceRoller.ts:256-266 | the highest modes order by descending value, the lowest by ascending value |
| DiceRollerFacts.PermutationDistinct | src/lib/dice/DiceRoller.ts:256-279 | a reordering of indexed dice never repeats an index |
| DiceRollerFacts.ChosenSet | src/lib/dice/DiceRoller.ts:256-279 | the chosen index set has `target` distinct positions, those of the dice in the prefix |
| DiceRollerFacts.MarkedFlags | src/lib/dice/DiceRoller.ts:283-291 | marking a chosen set keeps (or drops) exactly that set |
| DiceRollerFacts.SelectionCounts | src/lib/dice/DiceRoller.ts:251-281 | keep modes keep and drop modes drop exactly min(k, n) dice |
| DiceRollerFacts.ChosenAgainstRest | src/lib/dice/DiceRoller.ts:256-279 | every chosen die shows at least (highest modes) or at most (lowest modes) what every other die shows |
| DiceRollerFacts.SelectionOrder | src/lib/dice/DiceRoller.ts:256-279 | keep-highest and drop-lowest never keep a die below a dropped one; keep-lowest and drop-highest never keep one above |
| DiceRollerFacts.KeptTotalIsSignedSum | src/lib/dice/DiceRoller.ts:224-228 | a term total is the sum of non-dropped values, negated for a `-` term |
| DiceRollerFacts.UnselectedTotal | src/lib/dice/DiceRoller.ts:224-228 | without a selection the total is the signed sum of all filled values |
| DiceEngine.Clamp | src/core/dice/diceEngine.ts:99 | a clamped roll lies in [1, sides] and an in-range roll is unchanged |
| DiceEngine.Simulated | src/core/dice/diceEngine.ts:94-102 | [] when count ≤ 0 or sides ≤ 0; otherwise `count` values in [1, sides], each the draw itself when that is in range |
| DiceEngine.SimulateDice | src/core/dice/diceEngine.ts:94-102 | the push loop returns exactly the rolls of the specification function |
| DiceEngine.RollSingleDie | src/core/dice/diceEngine.ts:333-393 | a number result whose value is the chosen roll plus the modifier (0 when absent), with the die's sides |
| DiceEngine.SingleDieChoice | src/core/dice/diceEngine.ts:333-393 | normal keeps its one roll, advantage the higher of two, disadvantage the lower; the kept roll is a face of the die |
| DiceEngine.NormalizeTensIndex | src/core/dice/diceEngine.ts:400-410 | the tens digit is always in 0..9 |
| DiceEngine.NormalizeOnesIndex | src/core/dice/diceEngine.ts:417-425 | the ones digit is always in 0..9 |
| DiceEngine.OnesIsLastDigit | src/core/dice/diceEngine.ts:417-425 | the ones digit of any integer is its non-negative remainder by ten |
| DiceEngine.TensOfTwoDigits | src/core/dice/diceEngine.ts:400-410 | a two-digit value reads as its tens digit, any value above 100 as 9, a negative value as 0 |
| DiceEngine.PercentileTotal | src/core/dice/diceEngine.ts:245-249 | `tens*10 + ones` with 0 read as 100 lies in 1..100 |
| DiceEngine.PercentileAgreesWithRoller | src/core/dice/diceEngine.ts:241-249 | on the faces the dice report, the engine's d100 value equals the notation roller's percentile value (src/lib/dice/DiceRoller.ts:485-494) |
| DiceEngine.QualityAgreesWithRoller | src/core/dice/diceEngine.ts:274-291 | the inline challenge rule gives the same outcome, boon and complication as the notation roller for two challenge dice |
| DiceEngine.RollDice | src/core/dice/diceEngine.ts:216-323 | an error, "Unsupported roll type: " plus the type, exactly for types that are neither a single die nor four_d6, percentile or challenge; otherwise a result with the given id and a value |
| DiceEngine.FourD6Bounds | src/core/dice/diceEngine.ts:226-238 | a 4d6 roll is a number in 4..24 |
| DiceEngine.PercentileBounds | src/core/dice/diceEngine.ts:241-260 | a percentile roll is labelled d100 and is the normalised tens and ones total, in 1..100 |
| DiceEngine.ChallengeRoll | src/core/dice/diceEngine.ts:263-318 | a d6 action die and two d10 challenge dice; the value is the action die plus the modifier; outcome, boon and complication are the roller's |
| DiceEngine.RollOracleD100 | src/core/dice/diceEngine.ts:465-474 | the oracle roll is the percentile total, always in 1..100 |
| DiceEngine.RollDiceBoxValues | src/lib/diceEngine.ts:109-112 | [] when count ≤ 0 or sides ≤ 0; otherwise `count` values in [1, sides] |
| DiceEngine.RollDiceBoxComposite | src/lib/diceEngine.ts:114-118 | one list per request, in order, of length `count` (0 when count or sides ≤ 0), every value in [1, sides] |
| DiceEngine.Rollables | src/lib/diceEngine.ts:123 | every kept die has finite positive sides and comes from the input |
| DiceEngine.RollablesAppend | src/lib/diceEngine.ts:123 | the filter works die by die: the kept dice of a concatenation are those of each part, in order |
| DiceEngine.RollablesOne | src/lib/diceEngine.ts:123 | a single die is kept exactly when its sides are finite and positive |
| DiceEngine.RollablesKeepAll | src/lib/diceEngine.ts:123 | every rollable die of the input is kept |
| DiceEngine.RollDiceBoxList | src/lib/diceEngine.ts:120-130 | one value per kept die, in order, each a clamped roll of that die's sides |
| DiceAppearanceState.DiceAppearance.constructor | src/core/dice/diceAppearance.ts:8-15 | the initial settings: fade 3000, colour "#ff7f00", name "default", tens colour "#000000", texture "paper", scale 4; the invariant holds |
| DiceAppearanceState.DiceAppearance.Get | src/core/dice/diceAppearance.ts:88-97 | the snapshot holds exactly the six current settings |
| DiceAppearanceState.DiceAppearance.SetFadeDuration | src/core/dice/diceAppearance.ts:22-26 | a non-finite duration changes nothing; a finite one is stored as max(500, d) and nothing else changes; fade ≥ 500 is kept |
| DiceAppearanceState.DiceAppearance.SetThemeName | src/core/dice/diceAppearance.ts:33-38 | a blank name changes nothing; otherwise only the name changes, to the trimmed input |
| DiceAppearanceState.DiceAppearance.SetThemeColor | src/core/dice/diceAppearance.ts:44-49 | a blank colour changes nothing; otherwise only the colour changes, to the trimmed input |
| DiceAppearanceState.DiceAppearance.SetTensThemeColor | src/core/dice/diceAppearance.ts:55-60 | a blank colour changes nothing; otherwise only the tens colour changes, to the trimmed input |
| DiceAppearanceState.DiceAppearance.SetTexture | src/core/dice/diceAppearance.ts:66-71 | a blank texture changes nothing; otherwise only the texture changes, to the trimmed input |
| DiceAppearanceState.DiceAppearance.SetScale | src/core/dice/diceAppearance.ts:77-81 | a non-finite or non-positive scale changes nothing; otherwise only the scale changes, clamped to [1, 12]; the invariant is kept |
| TableForge.RangeRows | src/lib/tables/tableForge.ts:31-37 | there are 50 rows |
| TableForge.MakeRangeRows | src/lib/tables/tableForge.ts:31-37 | the push loop returns exactly the rows 1-2, 3-4, …, 99-100 of the specification function |
| TableForge.RangeRowsContiguous | src/lib/tables/tableForge.ts:31-37 | the rows start at 1, end at 100, follow each other without gap and have empty results |
| TableForge.RangeRowsCoverOnce | src/lib/tables/tableForge.ts:31-37 | every roll of 1..100 falls in exactly one row, row (roll-1)/2 |
| TableForge.WithMacros | src/lib/tables/tableForge.ts:47-50 | the rewrite keeps the number of rows |
| TableForge.ApplyMacroRows | src/lib/tables/tableForge.ts:39-51 | the dictionary loop and the row map give exactly the rows of the specification function |
| TableForge.MacroRowsFaithful | src/lib/tables/tableForge.ts:39-51 | floors and ceilings are kept; a row changes only when a macro with non-empty text starts at its floor, and then takes that macro's text when it is the last for that start |
| TableForge.LastWins | src/lib/tables/tableForge.ts:43-46 | for a repeated start, the last macro's text is in the dictionary |
| TableForge.ByStartFrom | src/lib/tables/tableForge.ts:43-46 | every dictionary entry comes from some macro |
| TableForge.ActionAspectLayout | src/lib/tables/tableForge.ts:78-85 | row 97 is ACTION + THEME, row 99 ROLL TWICE, row 95 CONNECTION WEB exactly when asked, every other row empty |
| TableForge.DescriptorFocusLayout | src/lib/tables/tableForge.ts:87-94 | row 97 is DESCRIPTOR + FOCUS, row 99 ROLL TWICE, row 95 CONNECTION WEB exactly when asked, every other row empty |
| TableForge.EmptyTables | src/lib/tables/tableForge.ts:96-155 | an Aspect or Domain has six tables |
| TableForge.CreateEmptyAspectTables | src/lib/tables/tableForge.ts:96-125 | an Aspect has six tables |
| TableForge.CreateEmptyDomainTables | src/lib/tables/tableForge.ts:127-155 | a Domain has six tables |
| TableForge.BuildForgeFile | src/lib/tables/tableForge.ts:157-164 | the file carries the given category, name, description and tables |
| TableForge.ForgedFileConsistent | src/lib/tables/tableForge.ts:53-164 | a forged file holds six tables, each carrying the file's category, its description, and the summary "<name> — <table name>" |
| TableForge.EmptyTablesShape | src/lib/tables/tableForge.ts:53-155 | the six tables in order (Manifestations or Locations third), each with the category, maxRoll 100, headers Roll/Result, summary "{name} — {table}", the tags (Objectives with "objective"), and the macro layout: CONNECTION WEB only in the third table and Discoveries, DESCRIPTOR + FOCUS from Discoveries on |
| AiTableFiller.NeedsFillIffBlank | src/lib/tables/aiTableFiller.ts:32-34 | a row needs filling, by the loop's test and by the counter's test, exactly when its result is blank: a blank text is never a macro |
| AiTableFiller.MacroKey | src/lib/tables/aiTableFiller.ts:21-30 | a text without lower-case letters or surrounding whitespace is its own macro key |
| AiTableFiller.ForgeMacrosAreMacros | src/lib/tables/aiTableFiller.ts:21-30 | the four macro texts the forge writes are macros |
| AiTableFiller.MacroUpToCaseAndPadding | src/lib/tables/aiTableFiller.ts:21-30 | a text that upper-cases to a macro text between blanks is a macro |
| AiTableFiller.EmptyIsNoMacro | src/lib/tables/aiTableFiller.ts:22-23 | the empty text is not a macro |
| AiTableFiller.BlanksBefore | src/lib/tables/aiTableFiller.ts:32-34 | there are no more blank rows among the first n than n |
| AiTableFiller.FilterRows | src/lib/tables/aiTableFiller.ts:33 | the filter keeps at most all the rows |
| AiTableFiller.FilterBlankCount | src/lib/tables/aiTableFiller.ts:33 | a filter keeping exactly the blank results keeps as many rows as there are blank rows |
| AiTableFiller.CountEmptyIsBlanks | src/lib/tables/aiTableFiller.ts:32-34 | the rows counted are exactly the blank rows |
| AiTableFiller.MapKindDisplayInjective | src/lib/tables/aiTableFiller.ts:36-53 | the display names of the seven kinds are distinct |
| AiTableFiller.FirstKindIsFirstMatch | src/lib/tables/aiTableFiller.ts:142-152 | the kind chosen is that of the first word the tag contains, discoveries when it contains none |
| AiTableFiller.KindOfTagOrder | src/lib/tables/aiTableFiller.ts:142-152 | objective beats atmosphere, and so on down the list, and a tag naming no word is discoveries |
| AiTableFiller.BuildPrompt | src/lib/tables/aiTableFiller.ts:55-74 | both prompts name the number of blank rows as the number of strings to return |
| AiTableFiller.UserPromptFrame | src/lib/tables/aiTableFiller.ts:67-72 | the user request starts with the Aspect or Domain and ends by asking for n strings |
| AiTableFiller.FilledRows | src/lib/tables/aiTableFiller.ts:117-127 | filling keeps the number of rows |
| AiTableFiller.BlanksMonotone | src/lib/tables/aiTableFiller.ts:117-127 | the cursor never goes back: the blank count grows with the prefix |
| AiTableFiller.NoBlanksAfter | src/lib/tables/aiTableFiller.ts:123 | once every blank row is behind the cursor, no later row needs a result, so the early `break` skips nothing |
| AiTableFiller.FillLeavesNoBlank | src/lib/tables/aiTableFiller.ts:117-127 | filling with non-blank strings leaves no blank row |
| AiTableFiller.FillKeepsOrder | src/lib/tables/aiTableFiller.ts:117-127 | an earlier blank row takes an earlier string, so no string is used twice |
| AiTableFiller.FillKeepsRanges | src/lib/tables/aiTableFiller.ts:117-127 | every row keeps its range, and a non-blank row is untouched |
| AiTableFiller.RowNeedsFill | src/lib/tables/aiTableFiller.ts:120-122 | the loop's test holds exactly for a blank result |
| AiTableFiller.FillRows | src/lib/tables/aiTableFiller.ts:117-127 | the cursor loop with its early exit returns exactly the filled rows: the k-th blank row gets the k-th string |
| AiTableFiller.PartlyFilled | src/lib/tables/aiTableFiller.ts:119-126 | the rows after some steps of the loop keep their number |
| AiTableFiller.PartlyFilledSplit | src/lib/tables/aiTableFiller.ts:119-126 | after i steps the first i rows are filled and the rest untouched |
| AiTableFiller.FillStep | src/lib/tables/aiTableFiller.ts:121-123 | a blank row takes the string at the cursor and moves the cursor on |
| AiTableFiller.KeepStep | src/lib/tables/aiTableFiller.ts:121 | any other row stays as it is and leaves the cursor where it was |
| AiTableFiller.Untouched | src/lib/tables/aiTableFiller.ts:117-127 | a row is untouched before its step |
| AiTableFiller.Finished | src/lib/tables/aiTableFiller.ts:123 | once every string is used, the rows left need nothing, so stopping early gives the filled rows |
| AiTableFiller.RestUnchanged | src/lib/tables/aiTableFiller.ts:123 | the rows after the break are untouched |
| AiTableFiller.FillTableWithAI | src/lib/tables/aiTableFiller.ts:105-128 | nothing to fill returns the table; fewer strings than blank rows is the "insufficient rows" error naming both numbers; otherwise only the rows change, to the filled rows |
| AiTableFiller.FillTablesWithAI | src/lib/tables/aiTableFiller.ts:105-140 | succeeds iff no table's reply is short; then one table per input, in order, each filled as its inferred kind; otherwise the error is the first short table's "AI returned insufficient rows (needed N, got M)" |
| TableRegistry.TitleCase | src/lib/tables/tableRegistry.ts:20-23 | the same length; the first character upper-cased and the rest unchanged; "" stays "" |
| TableRegistry.TitleCaseIdempotent | src/lib/tables/tableRegistry.ts:20-23 | title-casing twice is title-casing once |
| TableRegistry.NormalizeSourcePath | src/lib/tables/tableRegistry.ts:25-30 | a path without "electron" is returned as it is; otherwise the result starts with "/electron" and has no backslash |
| TableRegistry.FileName | src/lib/tables/tableRegistry.ts:59 | the text after the last `/` or `\`: a suffix of the path with no separator, preceded by one when shorter |
| TableRegistry.Slug | src/lib/tables/tableRegistry.ts:60 | a final ".json" in any case is removed, and nothing else |
| TableRegistry.OracleTypeOf | src/lib/tables/tableRegistry.ts:65-66 | the oracle type (oracle_type, else name, else "Table {index+1}") is never empty |
| TableRegistry.Dedup | src/lib/tables/tableRegistry.ts:75-82 | the set conversion has no duplicates and holds exactly the input values |
| TableRegistry.DedupExtends | src/lib/tables/tableRegistry.ts:75-82 | values are kept at their first occurrence: adding values never reorders those kept |
| TableRegistry.DedupOfDistinct | src/lib/tables/tableRegistry.ts:75-82 | a list without repeats is unchanged |
| TableRegistry.MergedTagsShape | src/lib/tables/tableRegistry.ts:75-82 | the tags have no duplicates, are exactly the existing tags and the lower-cased category, parent and oracle type, and keep the existing tags first when they had no repeats |
| TableRegistry.TableEntries | src/lib/tables/tableRegistry.ts:64-105 | one entry per table of a file |
| TableRegistry.Descriptors | src/lib/tables/tableRegistry.ts:95-103 | the list holds each entry's descriptor, in order |
| TableRegistry.ListedIdsAreKeys | src/lib/tables/tableRegistry.ts:89-102 | an id can be fetched exactly when the table list shows it |
| TableRegistry.CategoryOf | src/lib/tables/tableRegistry.ts:47-51 | "/domains/" in the path gives Domain, else "/aspects/" gives Aspect, else the file is skipped |
| TableRegistry.Register | src/lib/tables/tableRegistry.ts:64-100 | the stored table and its descriptor agree on name, category, tags and source path; the id is "<category>:<parent>:<oracle type>"; the tags are the table's own plus the lower-cased category, parent and oracle type, without duplicates |
| TableRegistry.PutAppend | src/lib/tables/tableRegistry.ts:93 | storing two runs of entries is storing the first, then the second |
| TableRegistry.ByIdLast | src/lib/tables/tableRegistry.ts:93 | the lookup holds the table of the last entry with a given id |
| TableRegistry.ByIdKeys | src/lib/tables/tableRegistry.ts:93 | the lookup knows exactly the starting ids and the entries' ids |
| TableRegistry.FileEntriesShape | src/lib/tables/tableRegistry.ts:38-105 | a non-array module or a path under neither /domains/ nor /aspects/ gives no entry; otherwise one entry per table with id "{category}:{Parent}:{oracleType}", name "{Parent}: {name or oracleType}", the merged tags and the shown path |
| TableRegistry.TableEntriesStep | src/lib/tables/tableRegistry.ts:64-104 | registering one more table appends its entry |
| TableRegistry.RegisterTables | src/lib/tables/tableRegistry.ts:64-104 | the loop over a file's tables appends their descriptors to the list and stores their tables under their ids |
| TableRegistry.Registry.constructor | src/lib/tables/tableRegistry.ts:8-18 | the registry starts with its files and no cache |
| TableRegistry.Registry.BuildCaches | src/lib/tables/tableRegistry.ts:32-107 | the cache becomes the one built from the files, and a second call keeps the first call's cache |
| TableRegistry.Registry.FetchTableList | src/lib/tables/tableRegistry.ts:109-112 | every registered table's descriptor, file by file |
| TableRegistry.Registry.FetchTableById | src/lib/tables/tableRegistry.ts:114-121 | the table registered last under the id, or the error "Unknown table id: {id}" |
| TableRegistry.ListedIdsFetchable | src/lib/tables/tableRegistry.ts:93-103 | every id in the table list can be fetched, and gives the table registered last under it |
| TablesPane.PositiveCeilings | src/components/TablesPane.tsx:36-40 | exactly the positive row ceilings |
| TablesPane.MaxOf | src/components/TablesPane.tsx:41 | the maximum is in the list and no element exceeds it |
| TablesPane.MaxRollForTable | src/components/TablesPane.tsx:30-45 | always positive: a positive maxRoll; failing that the largest positive row ceiling; failing that 100 |
| TablesPane.NormalizeRoll | src/components/TablesPane.tsx:142 | the normalised roll lies in [1, max] and is ((r-1) mod max) + 1 for r ≥ 1 |
| TablesPane.NormalizeRollFacts | src/components/TablesPane.tsx:142 | a roll already in range is kept, and rolls one range apart normalise alike |
| TablesPane.FindRow | src/components/TablesPane.tsx:144-150 | the first row covering the roll, or none exactly when no row covers it |
| TablesPane.ResultTextFor | src/components/TablesPane.tsx:144-152 | the first row covering the roll gives the result text ("" when it has none); no covering row gives "" |
| TablesPane.Entries | src/components/TablesPane.tsx:136-162 | one entry per roll |
| TablesPane.PerformRolls | src/components/TablesPane.tsx:124-197 | the roll loop returns exactly the entries, the entry payloads and the result cards of the specification functions |
| TablesPane.EntriesInRange | src/components/TablesPane.tsx:129-158 | every roll lies in [1, max], and its text is that of the first covering row, or "" when none covers it |
| TablesPane.SideEffectsOnlyWithResult | src/components/TablesPane.tsx:164-191 | a card is emitted only for non-empty text, with the oracle source iff the category is neither Aspect nor Domain; a payload only with an open entry, logging on and non-empty text |
| TablesPane.UpdateHistory | src/components/TablesPane.tsx:199 | the history is the new results then the old ones, cut to at most 20 |
| TablesPane.HistoryNewestFirst | src/components/TablesPane.tsx:199 | the newest rolls come first, and older ones follow only while there is room |
| TablesPane.KeepMatchingExactly | src/components/TablesPane.tsx:81-92 | the filter keeps exactly the matching tables |
| TablesPane.Filtered | src/components/TablesPane.tsx:77-93 | a blank query keeps every table; otherwise a table is kept iff its name, a tag, oracle_type, category or parent contains the trimmed, lower-cased query |
| TablesPane.Group | src/components/TablesPane.tsx:96-110 | the grouping loop returns exactly the groups of the specification function |
| TablesPane.Prepared | src/components/TablesPane.tsx:103-104 | after the two guards the bucket of the category and parent exists |
| TablesPane.AddViaPrepared | src/components/TablesPane.tsx:103-106 | preparing the bucket and pushing onto it adds the descriptor to its bucket |
| TablesPane.AddToGroupsFacts | src/components/TablesPane.tsx:100-106 | adding a descriptor creates or extends its own bucket and no other |
| TablesPane.CategoryKeys | src/components/TablesPane.tsx:96-110 | a category is present iff some table has it (or "Other") |
| TablesPane.ParentKeys | src/components/TablesPane.tsx:96-110 | under a category, a parent is present iff some table has both |
| TablesPane.GroupsBuckets | src/components/TablesPane.tsx:96-110 | each bucket lists the tables that belong to it, in list order |
| TablesPane.BucketMembers | src/components/TablesPane.tsx:96-110 | a bucket holds exactly the tables with its category and parent |
| TablesPane.ExactlyOneBucket | src/components/TablesPane.tsx:96-110 | each table sits in exactly one bucket, named by its category (or "Other") and parent (or "Unknown") |
| RollHighlights.AnnotateDiceTerm | src/lib/dice/rollHighlights.ts:68-119 | the pushes append exactly the term's dice highlights |
| RollHighlights.AnnotateCrits | src/lib/dice/rollHighlights.ts:78-99 | the die loop appends one crit highlight per kept 20 or 1 |
| RollHighlights.CritsStep | src/lib/dice/rollHighlights.ts:78-99 | one more die adds its own crit highlight, if any |
| RollHighlights.AnnotateRollResult | src/lib/dice/rollHighlights.ts:44-66 | the term loop returns exactly the highlights of the specification function |
| RollHighlights.ExtractChallengeResults | src/lib/dice/rollHighlights.ts:121-125 | no more results than terms |
| RollHighlights.CritsTagged | src/lib/dice/rollHighlights.ts:78-99 | crit highlights carry their term's position |
| RollHighlights.TermTagged | src/lib/dice/rollHighlights.ts:47-63 | a term's highlights carry its position, and only a challenge term yields a challenge highlight |
| RollHighlights.Highlights | src/lib/dice/rollHighlights.ts:44-66 | every highlight names an existing term |
| RollHighlights.HighlightsOfTerm | src/lib/dice/rollHighlights.ts:44-66 | the highlights of term i are exactly its own: one outcome highlight coloured #22c55e, #d97706 or #ef4444 for a challenge, none for a constant, the dice highlights for a dice term |
| RollHighlights.CritsShape | src/lib/dice/rollHighlights.ts:77-99 | crit highlights name a kept 20 (success) or 1 (failure) of the dice, and every kept 20 or 1 has one |
| RollHighlights.DiceHighlights | src/lib/dice/rollHighlights.ts:76-118 | a crit only on a d20; a pool highlight iff successes > 0; a degrade highlight iff triggered, with step defaulting to 1 |
| RollHighlights.TermVerdicts | src/lib/dice/rollHighlights.ts:47-63 | a term's challenge highlights are its own verdict when it is a challenge, none otherwise |
| RollHighlights.ChallengeHighlightsFollowTerms | src/lib/dice/rollHighlights.ts:44-66 | the challenge highlights follow the challenge terms one for one, in order |
| RollHighlights.ExtractAppend | src/lib/dice/rollHighlights.ts:121-125 | extraction keeps order across a split of the terms |
| RollHighlights.ExtractedExactly | src/lib/dice/rollHighlights.ts:121-125 | exactly the challenge terms are extracted |
| Converters.PrimaryIndex | src/core/results/converters.ts:20-27 | the first dice or challenge term: every term before it is a constant, and none exactly when all terms are constants |
| Converters.ConstantValues | src/core/results/converters.ts:161-176 | a value is listed exactly when some constant term of the roll has it |
| Converters.ConstantValuesAppend | src/core/results/converters.ts:161-176 | the constant values of a concatenation are those of each part, in order |
| Converters.SimpleDiceTerms | src/core/results/converters.ts:154-160 | a dice result is listed exactly when it is one of the roll's terms and has no pool, explode or degrade |
| Converters.SimpleDiceTermsAppend | src/core/results/converters.ts:154-160 | the simple dice terms of a concatenation are those of each part, in order |
| Converters.Humanize | src/core/results/converters.ts:50-56 | spelling out kh/kl/dh/dl only lengthens the text, strictly when a `kh<digits>` shorthand is present; text without shorthand is unchanged |
| Converters.FormatDiceLabel | src/core/results/converters.ts:61-79 | the label starts with "ROLLED "; given an expression it is that expression humanised (as written when it has no shorthand); otherwise it ends with the signed modifier when that is non-zero |
| Converters.ShorthandShift | src/core/results/converters.ts:50-56 | a shorthand found one position on is one found in the rest of the text |
| Converters.RewriteGrows | src/core/results/converters.ts:50-56 | spelling out shorthand never shortens the text, and lengthens it when there is shorthand |
| Converters.RewriteNoShorthand | src/core/results/converters.ts:50-56 | without shorthand the rewrite changes nothing |
| Converters.RewriteChangesIff | src/core/results/converters.ts:50-56 | the rewrite leaves the text unchanged exactly when it holds no shorthand |
| Converters.RewriteFront | src/core/results/converters.ts:50-56 | a shorthand at the front, such as kh2, becomes the words, a space and the digits, and the rest is rewritten |
| Converters.FrontShorthand | src/core/results/converters.ts:50-56 | at a front shorthand the digits read are exactly the count and the rest follows them |
| Converters.OutcomeInFront | src/core/results/converters.ts:135-136 | the outcome heads the challenge result line and reads back |
| Converters.FlagsReadable | src/core/results/converters.ts:135-136 | the " (Boon)" and " (Complication)" suffixes read back as the two flags |
| Converters.ChallengeResultReadable | src/core/results/converters.ts:135-136 | a challenge result line states its outcome and flags unambiguously |
| Converters.ConvertDiceToCard | src/core/results/converters.ts:114-298 | no card exactly when every term is a constant; otherwise a dice card with the given id and timestamp, chosen by the first non-constant term: the challenge card for a challenge; the multi-dice card when there is more than one simple dice term; else that term's pool card, degrade card or standard card, in that order |
| Converters.ConstantSumAgainstTotal | src/core/results/converters.ts:32-36 | with only constants the constant sum is the roll total; with none it is zero |
| Converters.ParseSigned | src/core/results/converters.ts:283 | the signed modifier text reads back as the number |
| Converters.NoBreakInDiceLine | src/core/results/converters.ts:168-175 | a dice line holds no line break, so lines split back apart |
| Converters.ParsePrinted | src/core/results/converters.ts:184 | a printed total reads back as the number |
| Converters.MultiDiceCardLines | src/core/results/converters.ts:164-187 | a several-term card lists one line per simple dice term, then one per constant, and its result reads back as the roll total |
| Converters.DieTextReadable | src/core/results/converters.ts:170 | a dropped die is shown in parentheses, a kept one bare, and the number reads back as the die's value |
| Converters.PoolMetOfRolled | src/core/results/converters.ts:193-198 | for a pool the roller evaluated, met means the target reached when there is one, any success otherwise |
| Converters.PoolCard | src/core/results/converters.ts:190-218 | the header starts with "DICE POOL - "; the result reads back as the success count and ends with PASS, coloured green, exactly when the pool is met; red otherwise |
| Converters.PoolResultText | src/core/results/converters.ts:199-213 | the pool result text reads back as the success count and ends with PASS exactly when the pool is met |
| Converters.DegradeCard | src/core/results/converters.ts:222-241 | the degrade result reads back as the total and carries " - DEGRADE" and the red colour exactly when the rule triggered; no colour otherwise |
| Converters.DegradeResultText | src/core/results/converters.ts:224-225 | the degrade result text reads back as the total and ends with " - DEGRADE" exactly when the rule triggered |
| Converters.StandardLinesShape | src/core/results/converters.ts:277-285 | the "Rolls:" line, then a "Modifier:" line with the signed sum exactly when the constants sum to non-zero |
| Converters.StandardCard | src/core/results/converters.ts:273-294 | the content is the expression line and, exactly when the constant sum is non-zero, a "Modifier: " line reading back as that sum; the result reads back as the roll total |
| Converters.ChallengeCard | src/core/results/converters.ts:121-149 | a challenge card has header "CHALLENGE ROLL", the dice source, a result that reads back as outcome, boon and complication, and the outcome's colour |
| Converters.ConvertTableToCard | src/core/results/converters.ts:335-361 | a table card has the oracle source exactly when isOracle, a header naming source and table in capitals, content "Roll <n> on <table>" reading back as the roll, and the row's text as result |
| Converters.RollOnReads | src/core/results/converters.ts:344 | "Roll {roll} on {table}" reads back as the roll and ends with the table name |
| Converters.TableHeaderShape | src/core/results/converters.ts:336-341 | the header starts with "ORACLE: " or "TABLE: " and ends with the upper-cased table name |
| Converters.InterpretationCardShape | src/core/results/converters.ts:393-410 | the header is in capitals, "INTERPRETATION: " and the upper-cased oracle name; the content is the interpretation and the result the snapshot |
| HtmlEscape.ReplaceAllAppend | src/core/results/renderResultCardHtml.ts:49-53 | a global single-character replace distributes over concatenation |
| HtmlEscape.ReplaceAllAbsent | src/core/results/renderResultCardHtml.ts:49-53 | replacing a character the text lacks changes nothing |
| HtmlEscape.ReplacementsAppend | src/core/results/renderResultCardHtml.ts:48-53 | the five chained replacements distribute over concatenation |
| HtmlEscape.ReplacementsOfAmp | src/core/results/renderResultCardHtml.ts:49 | "&" becomes "&amp;", which the later replacements leave alone |
| HtmlEscape.ReplacementsOfLt | src/core/results/renderResultCardHtml.ts:50 | "<" becomes "&lt;" |
| HtmlEscape.ReplacementsOfGt | src/core/results/renderResultCardHtml.ts:51 | ">" becomes "&gt;" |
| HtmlEscape.ReplacementsOfQuot | src/core/results/renderResultCardHtml.ts:52 | a double quote becomes "&quot;" |
| HtmlEscape.ReplacementsOfApos | src/core/results/renderResultCardHtml.ts:53 | an apostrophe becomes "&#39;" |
| HtmlEscape.ReplacementsOfPlain | src/core/results/renderResultCardHtml.ts:48-53 | any other character passes through unchanged |
| HtmlEscape.ReplacementsOfChar | src/core/results/renderResultCardHtml.ts:48-53 | on one character the chain gives that character's entity: no later replacement touches an earlier entity |
| HtmlEscape.ReplacementsPerChar | src/core/results/renderResultCardHtml.ts:46-54 | because "&" goes first, the five chained replacements equal escaping each character on its own: nothing is escaped twice |
| HtmlEscape.EscapeEachPlain | src/core/results/renderResultCardHtml.ts:46-54 | per-character escaping leaves no raw <, >, " or ' |
| HtmlEscape.EscapeHtml | src/core/results/renderResultCardHtml.ts:46-54 | the escaped text is the per-character escaping, holds no raw <, >, " or ' (so a line cannot open a tag inside its div), and is empty exactly when the input is |
| HtmlEscape.Decode | src/core/results/renderResultCardHtml.ts:49-53 | the reading side of the entities: a front piece of one to six characters |
| HtmlEscape.UnescapeStep | src/core/results/renderResultCardHtml.ts:49-53 | each character's entity (or <br/> for a line break) reads back as the character |
| HtmlEscape.UnescapeEach | src/core/results/renderResultCardHtml.ts:46-54 | per-character escaping reads back as the original |
| HtmlEscape.EscapeHtmlRoundTrip | src/core/results/renderResultCardHtml.ts:46-54 | escaping loses nothing: the escaped text reads back as the original |
| HtmlEscape.BreaksOfEscaped | src/components/InterpretButton.tsx:141 | turning line breaks of escaped text into <br/> is escaping with breaks per character |
| HtmlEscape.EscapeWithBreaksRoundTrip | src/components/InterpretButton.tsx:141 | escaping and then writing line breaks as <br/> reads back as the original text, line breaks included |
| RenderResultCardHtml.KeepNonBlankFacts | src/core/results/renderResultCardHtml.ts:82 | the filter keeps exactly the lines whose trim is non-empty |
| RenderResultCardHtml.NonBlankLinesSpec | src/core/results/renderResultCardHtml.ts:80-82 | the kept lines are the non-blank pieces between line breaks, none holding a break |
| RenderResultCardHtml.NonBlankLinesOfJoin | src/core/results/renderResultCardHtml.ts:80-82 | content assembled from non-blank lines gives those lines back |
| RenderResultCardHtml.KeepAllNonBlank | src/core/results/renderResultCardHtml.ts:82 | the filter keeps every line when none is blank |
| RenderResultCardHtml.ReadDetailOf | src/core/results/renderResultCardHtml.ts:83 | a detail div around escaped text reads back as that text, unescaped |
| RenderResultCardHtml.ReadDetailStep | src/core/results/renderResultCardHtml.ts:83 | a line's detail div reads back as the line |
| RenderResultCardHtml.ReadDetailDivs | src/core/results/renderResultCardHtml.ts:83-84 | the joined detail divs read back as the lines, in order |
| RenderResultCardHtml.DetailDivsEmpty | src/core/results/renderResultCardHtml.ts:83-88 | the divs are empty exactly when there are no lines |
| RenderResultCardHtml.ContentHtmlReadsBack | src/core/results/renderResultCardHtml.ts:79-88 | the body holds one escaped detail div per non-blank content line, in order, and is omitted exactly when there is no such line |
| RenderResultCardHtml.ReadBoldText | src/core/results/renderResultCardHtml.ts:101-102 | a bold result reads back as bold with the original text |
| RenderResultCardHtml.ReadPlainText | src/core/results/renderResultCardHtml.ts:103 | a plain result reads back as not bold with the original text |
| RenderResultCardHtml.ReadStyleOf | src/core/results/renderResultCardHtml.ts:96-97 | the style attribute is present exactly when there is a colour, and reads back as it |
| RenderResultCardHtml.ReadResultSpanOf | src/core/results/renderResultCardHtml.ts:96-103 | the result span reads back as its colour, bold flag and result |
| RenderResultCardHtml.ReadFooterOf | src/core/results/renderResultCardHtml.ts:90-111 | the footer reads back as the label flag, colour, bold flag and result it was built from |
| RenderResultCardHtml.MissingSourceIsOther | src/core/results/renderResultCardHtml.ts:37-40 | a card without a source gets the "other" theme colours |
| RenderResultCardHtml.RenderResultCardHtml | src/core/results/renderResultCardHtml.ts:73-116 | the trimmed output is the card block, starts with the card's opening div and ends with the footer and the closing tag |
| RenderResultCardHtml.RenderedFooter | src/core/results/renderResultCardHtml.ts:91-111 | the footer shows the "Result:" label exactly when the source is not interpretation, bolds exactly dice and table results, and carries the card's colour and result |
| ResultCardView.CardTheme | src/core/results/ResultCard.tsx:104-118 | every theme has white header text; the dice colours exactly when the source is missing, dice or anything other than table, oracle or interpretation |
| ResultCardView.CardDisplay | src/core/results/ResultCard.tsx:123-173 | header and result pass through; the theme class is challenge exactly for challenge dice cards, table for table and oracle cards, interpretation for interpretation cards |
| ResultCardView.ParseContentText | src/core/results/ResultCard.tsx:179-196 | the non-blank lines, each free of line breaks, with every non-blank line of the content kept |
| ResultCardView.ParseContentGuard | src/core/results/ResultCard.tsx:180-182 | the early return on empty content changes nothing: the lines are the standalone renderer's |
| ResultCardView.InterpretationLinesTrimmed | src/core/results/ResultCard.tsx:201-211 | one interpretation line per kept line, each non-empty and free of surrounding whitespace |
| ResultCardView.BulletKept | src/core/results/ResultCard.tsx:205-209 | trimming keeps a leading "-" bullet at the front |
| ResultCardView.OutcomeColor | src/core/results/ResultCard.tsx:216-227 | the main text colour exactly for strings other than the three outcome names |
| ResultCardView.OutcomeColorAgrees | src/core/results/ResultCard.tsx:216-227 | on the outcome names the component's colours are the converter's |
| ResultCardView.CardHtmlPadding | src/core/results/ResultCard.tsx:266-273 | this renderer does not trim: the output keeps the template padding, and trimming leaves exactly the card block |
| ResultCardView.TsxFooterReadsBack | src/core/results/ResultCard.tsx:260-264 | the footer shows the label exactly when the source is not interpretation, bolds exactly dice results (a missing source included), and carries the colour and result |
| ResultCardView.BodyReadsBack | src/core/results/ResultCard.tsx:249-258 | dice, table and oracle bodies read back as the non-blank lines; an interpretation body is always present and reads back as the whole content, line breaks included |
| ResultCardView.InterpretationReadsBack | src/core/results/ResultCard.tsx:255-257 | the interpretation body is never empty and reads back as the content |
| ResultCardView.MissingSourceIsDice | src/core/results/ResultCard.tsx:245-249 | a card without a source renders exactly like a dice card |
| ResultCardView.MissingSourceDisplaysAsDice | src/core/results/ResultCard.tsx:130 | a card without a source is displayed exactly like a dice card |
| InterpretButton.RunOf | src/components/InterpretButton.tsx:10 | the longest run of matching characters: all match, and it ends at the text's end or at a character that does not |
| InterpretButton.MatchCommentAt | src/components/InterpretButton.tsx:10 | a comment match at a position ends after it and captures a non-empty run without '>' or '-' |
| InterpretButton.CaptureFrom | src/components/InterpretButton.tsx:10 | the spaces, capture and closing of the comment pattern end within the text, with a non-empty clean capture |
| InterpretButton.FindComment | src/components/InterpretButton.tsx:10-12 | the next comment match ends after the search start, with a non-empty clean capture |
| InterpretButton.Comments | src/components/InterpretButton.tsx:10-13 | every captured attribute text is non-empty and free of '>' and '-' |
| InterpretButton.ValueAt | src/components/InterpretButton.tsx:16-20 | a value is a slice of the attribute text, double-quoted, single-quoted or bare |
| InterpretButton.MatchPairAt | src/components/InterpretButton.tsx:16 | an attribute match ends after its start and its value is drawn from the text |
| InterpretButton.FindPair | src/components/InterpretButton.tsx:16-18 | the next attribute match ends after the search start |
| InterpretButton.PairsFrom | src/components/InterpretButton.tsx:16-22 | every matched value is drawn from the attribute text |
| InterpretButton.ParseAttributes | src/components/InterpretButton.tsx:14-22 | the inner loop stores exactly the record of all matched pairs |
| InterpretButton.AssignKeys | src/components/InterpretButton.tsx:21 | the record's names are exactly the earlier names and the matched names |
| InterpretButton.AssignLastWins | src/components/InterpretButton.tsx:21 | a name matched several times keeps the value of its last match |
| InterpretButton.AssignUntouched | src/components/InterpretButton.tsx:21 | a name no pair has keeps its value |
| InterpretButton.AssignValues | src/components/InterpretButton.tsx:21 | every stored value was there before or comes from a pair |
| InterpretButton.ValueQuoted | src/components/InterpretButton.tsx:16 | a double-quoted value closing at the end reads as its inside |
| InterpretButton.KeyThenEquals | src/components/InterpretButton.tsx:16 | a name followed by '=' is matched whole |
| InterpretButton.QuotedPairs | src/components/InterpretButton.tsx:16-18 | a double-quoted attribute is the only pair matched |
| InterpretButton.QuotedMatch | src/components/InterpretButton.tsx:16 | a double-quoted attribute matches whole, as its name and value |
| InterpretButton.QuotedPairReadsBack | src/components/InterpretButton.tsx:16-22 | name="value" reads back as exactly that name and value |
| InterpretButton.RunOfAt | src/components/InterpretButton.tsx:10 | a run that stops at the first failing character has that length |
| InterpretButton.NonEmptyTrimmedClean | src/components/InterpretButton.tsx:33 | the comma fallback's tags are non-empty, trimmed pieces without commas |
| InterpretButton.SplitTagsClean | src/components/InterpretButton.tsx:33 | every tag of the comma split is a clean tag |
| InterpretButton.TrimIsPiece | src/components/InterpretButton.tsx:33 | trimming adds no character |
| InterpretButton.RecordsOf | src/components/InterpretButton.tsx:12-22 | one attribute record per comment, in order |
| InterpretButton.PayloadsStep | src/components/InterpretButton.tsx:12-47 | one outer step appends the next comment's payload to those already gathered |
| InterpretButton.PayloadsDone | src/components/InterpretButton.tsx:12 | with no further comment no payload remains |
| InterpretButton.ParseForgeOracleComments | src/components/InterpretButton.tsx:7-49 | the loop returns exactly the payloads of the comments in order |
| InterpretButton.HeadPayload | src/components/InterpretButton.tsx:37-46 | a record gives at most one payload, one exactly when it names a table |
| InterpretButton.CollectNamesTables | src/components/InterpretButton.tsx:37-46 | no more payloads than comments, each with a non-empty table id |
| InterpretButton.CollectEmptyIff | src/components/InterpretButton.tsx:37-46 | there is no payload exactly when no comment names a table |
| InterpretButton.PayloadFields | src/components/InterpretButton.tsx:23-46 | a payload exists exactly for a non-empty tableId; a missing name or result is empty, a roll that does not parse is 0, and the tags are the JSON list or the clean comma pieces |
| InterpretButton.AttributeValuesClean | src/components/InterpretButton.tsx:10-21 | every stored value is free of '>' and '-' |
| InterpretButton.DisabledIff | src/components/InterpretButton.tsx:76-78 | the button is enabled exactly when idle, an entry is open, and some comment names a table |
| OraclePrompts.OracleNameFallback | src/lib/oraclePrompts.ts:5 | the name is the trimmed configured name when that is not blank, "The Loomwright" otherwise, and is never blank nor padded |
| OraclePrompts.PersonaFor | src/lib/oraclePrompts.ts:6 | always a known persona, and the configured one exactly when it is known |
| OraclePrompts.SystemPromptShape | src/lib/oraclePrompts.ts:4-53 | the system prompt opens "You are" and the oracle's name, and ends with the addendum of the persona in use |
| OraclePrompts.Blocks | src/lib/oraclePrompts.ts:57-59 | one block per result |
| OraclePrompts.FormatOracleResults | src/lib/oraclePrompts.ts:55-61 | the fixed "No oracle results were rolled." sentence exactly when there are no results |
| OraclePrompts.ListStartsWithNumber | src/lib/oraclePrompts.ts:57-60 | a non-empty list opens with the number sign of its first block |
| OraclePrompts.UserPromptShape | src/lib/oraclePrompts.ts:63-66 | the user prompt opens by naming the oracle and holds the result list verbatim |
| OraclePrompts.ShownAll | src/lib/oraclePrompts.ts:58 | one shown table name, roll and result per result |
| OraclePrompts.FormatReadsBack | src/lib/oraclePrompts.ts:55-61 | the list read back line by line gives, in order, the table name, roll and result text of every result, numbered from 1 |
| OraclePrompts.BlocksAreLines | src/lib/oraclePrompts.ts:57-60 | blocks joined by a blank line are all their lines joined, with an empty line between blocks |
| OraclePrompts.ReadAllLines | src/lib/oraclePrompts.ts:57-60 | all the block lines read back as every result, in order |
| OraclePrompts.ReadBlockFields | src/lib/oraclePrompts.ts:58 | the four lines of a block read back as its number, table name, roll and result text |
| BatchGenerate.StripStart | table_creator/standalone_server.py:359 | a suffix of the text, with everything removed from the front a stripped character and the rest not starting with one |
| BatchGenerate.StripEnd | table_creator/standalone_server.py:359 | a prefix of the text, with everything removed from the back a stripped character and the rest not ending with one |
| BatchGenerate.StripRules | table_creator/standalone_server.py:302-359 | a stripped string neither starts nor ends with a stripped character, is a piece of the original, and stripping it again changes nothing |
| BatchGenerate.PyTake | table_creator/standalone_server.py:333 | Python's results[:n]: a prefix of length n capped at the list, and a negative n counts from the end |
| BatchGenerate.ApiKeyRules | table_creator/standalone_server.py:120-132 | the encoded header wins over the plain one; only a request with neither gets "API key required" |
| BatchGenerate.GenreKey | table_creator/standalone_server.py:139-166 | a known genre is used as given, anything else falls back to dark-fantasy |
| BatchGenerate.RulesKey | table_creator/standalone_server.py:134-207 | a known table type is used as given, anything else falls back to atmosphere |
| BatchGenerate.Facts | table_creator/standalone_server.py:134-144 | the prompt's facts: the chosen genre and rules, 10 entries by default, and "Unknown", "concept" and "" without a domain context |
| BatchGenerate.BuildRequest | table_creator/standalone_server.py:243-262 | model defaults to gpt-3.5-turbo; system then user message; gpt-5 exactly gets 3000 completion tokens and minimal reasoning, every other model 2000 tokens at temperature 0.9 |
| BatchGenerate.UserPromptNamesRequest | table_creator/standalone_server.py:248 | the user message names the count, the table type as requested (None when absent) and the context |
| BatchGenerate.StripFencesOfBlock | table_creator/standalone_server.py:317-325 | a body fenced as a JSON block comes back as the stripped body |
| BatchGenerate.StripFencesOfPlain | table_creator/standalone_server.py:317-325 | text without backticks at either end is only stripped |
| BatchGenerate.BracketMatch | table_creator/standalone_server.py:344 | the non-greedy match runs from the first '[' to the first ']' after it, and is missing exactly when there is no such pair |
| BatchGenerate.LineEntries | table_creator/standalone_server.py:359-360 | no more fallback entries than lines |
| BatchGenerate.LineEntriesClean | table_creator/standalone_server.py:359-360 | every fallback entry is non-empty, has no '"', '-' or ',' at either end, and starts with no '[', ']' or '{' |
| BatchGenerate.BulletKeepsSpace | table_creator/standalone_server.py:359 | "- item one" becomes " item one": the outer strip keeps the dash, the punctuation strip then removes it and leaves the space |
| BatchGenerate.LineKept | table_creator/standalone_server.py:359-360 | a non-blank line whose cleaned form is an entry is kept as that entry |
| BatchGenerate.Coerce | table_creator/standalone_server.py:328-365 | a JSON array is truncated to num_entries; when the whole answer is not an array but its first bracketed span is, that span's array is truncated the same way; results never exceed a non-negative count; the only error is the parse error, which quotes at most 500 characters of the answer |
| BatchGenerate.CoerceByLines | table_creator/standalone_server.py:358-365 | with neither reading giving an array, the reply is the fallback lines in order, and an error exactly when there are none |
| BatchGenerate.TokenExhaustion | table_creator/standalone_server.py:308-315 | blank content with finish reason 'length' is the token error, whatever the parser |
| BatchGenerate.ReadAnswerRules | table_creator/standalone_server.py:289-368 | an error key wins over any choices; no choices is "No response from OpenAI"; only the first choice is read |
| BatchGenerate.HandleBatchGenerate | table_creator/standalone_server.py:105-391 | without a key the reply is that key error; with one, results never exceed num_entries (10 when absent) |
| BatchGenerate.KeylessSendsNothing | table_creator/standalone_server.py:120-132 | without a key the reply does not depend on the network call: nothing is sent |
| DiceBoxManager.FirstDigitAt | src/lib/dice/diceBoxManager.ts:80 | the position of the first digit: none before it, and a digit there unless it is the end |
| DiceBoxManager.FirstDigitRun | src/lib/dice/diceBoxManager.ts:80 | the first run of digits, missing exactly when the text has no digit |
| DiceBoxManager.CoerceSides | src/lib/dice/diceBoxManager.ts:77-87 | a finite number as it is; text by its first run of digits, undefined exactly when it has none; anything else undefined |
| DiceBoxManager.CoerceSidesReadsBack | src/lib/dice/diceBoxManager.ts:77-87 | a side count written in a label such as "d20" reads back, whatever digit-free text precedes it |
| DiceBoxManager.NormalizeRolls | src/lib/dice/diceBoxManager.ts:89-94 | an array as it is, else the rolls field, else the first element's rolls, else none |
| DiceBoxManager.Reported | src/lib/dice/diceBoxManager.ts:101-109 | no more pooled values than rolls |
| DiceBoxManager.CountOf | src/lib/dice/diceBoxManager.ts:111-113 | at most one per spec |
| DiceBoxManager.Allocation | src/lib/dice/diceBoxManager.ts:111-122 | one value per spec |
| DiceBoxManager.AssignedFromBucket | src/lib/dice/diceBoxManager.ts:112-121 | a spec takes the front of its bucket, or the clamped draw when the bucket is empty |
| DiceBoxManager.ShiftStep | src/lib/dice/diceBoxManager.ts:112-113 | after each shift every bucket is its pool less the values taken so far |
| DiceBoxManager.FillPools | src/lib/dice/diceBoxManager.ts:100-109 | each side count's bucket holds exactly that side count's reported finite values, in reply order |
| DiceBoxManager.AllocateValuesBySpecs | src/lib/dice/diceBoxManager.ts:96-123 | the loop returns exactly the allocation: each spec the next unused reported value of its side count, or a fallback draw |
| DiceBoxManager.AllocatedFromPoolOrFallback | src/lib/dice/diceBoxManager.ts:111-122 | each value was reported for its spec's side count, or lies in 1..sides (1 when sides is below 1) |
| DiceBoxManager.ReportedZero | src/lib/dice/diceBoxManager.ts:104 | nothing is pooled under 0 sides, since the truthiness test rejects 0 |
| DiceBoxManager.SlotsIncrease | src/lib/dice/diceBoxManager.ts:111-113 | two specs for the same side count take different pool positions, so no reported value is handed out twice |
| DiceBoxManager.SlotsCover | src/lib/dice/diceBoxManager.ts:111-113 | every pool position up to the number of specs for that side count is taken by some spec |
| DiceBoxManager.RollDiceBoxValues | src/lib/dice/diceBoxManager.ts:215-222 | no values for a non-positive count or side count; otherwise count values, the reported ones in order then clamped fallback draws in 1..sides |
| DiceBoxManager.Copies | src/lib/dice/diceBoxManager.ts:231-233 | count copies of the side count, none for a count of 0 or less |
| DiceBoxManager.SliceIndex | src/lib/dice/diceBoxManager.ts:239 | a slice index clamped to the array, unchanged when already within it |
| DiceBoxManager.Groups | src/lib/dice/diceBoxManager.ts:236-243 | one group per request |
| DiceBoxManager.BuildSpecs | src/lib/dice/diceBoxManager.ts:229-234 | the nested loop lays out count copies of each request's side count, request after request |
| DiceBoxManager.RollDiceBoxComposite | src/lib/dice/diceBoxManager.ts:224-244 | the groups are the allocation of the reply to the specs, cut by the running cursor |
| DiceBoxManager.GroupSlice | src/lib/dice/diceBoxManager.ts:238-241 | with no negative counts, group i is the values from the cursor before request i for count places |
| DiceBoxManager.GroupsPartition | src/lib/dice/diceBoxManager.ts:236-243 | with no negative counts, each group has exactly its request's count and the groups together are all the values in order |
| DiceBoxManager.SpecsAt | src/lib/dice/diceBoxManager.ts:229-234 | the specs of request i start at the cursor before it and carry its side count |
| DiceBoxManager.CompositeValues | src/lib/dice/diceBoxManager.ts:224-244 | each value of group i was reported for request i's side count or is a fallback within its faces |
| DiceBoxManager.NegativeCountRereads | src/lib/dice/diceBoxManager.ts:238-241 | counts 2, -1 and 1 over [1, 2, 3] give [[1, 2], [], [2]]: a negative count moves the cursor back and a value is handed out twice |
| DiceBoxManager.Filtered | src/lib/dice/diceBoxManager.ts:249-254 | the kept dice are present, listed dice of the input, in order |
| DiceBoxManager.FilteredKeepsListed | src/lib/dice/diceBoxManager.ts:249-254 | every present die with a finite positive numeric or a text side count is kept |
| DiceBoxManager.ListSpecs | src/lib/dice/diceBoxManager.ts:263-265 | one spec per kept die |
| DiceBoxManager.RollDiceBoxList | src/lib/dice/diceBoxManager.ts:246-267 | one value per kept die, allocated against the kept dice's side counts; a missing list counts as empty |
| DiceBoxManager.ListValues | src/lib/dice/diceBoxManager.ts:263-266 | a die whose text has no digits gets 1; a numeric die gets a reported value or one within its faces |
| TapestryPaths.WithoutAvoids | electron/main.js:295 | removing a set of characters leaves none of them |
| TapestryPaths.WithoutKeeps | electron/main.js:295 | removing characters the text lacks changes nothing |
| TapestryPaths.SanitizeName | electron/main.js:294-296 | a sanitised name holds no reserved character and no outer white space |
| TapestryPaths.SanitizeNameIdempotent | electron/main.js:294-296 | sanitising a sanitised name changes nothing |
| TapestryPaths.DashReserved | electron/main.js:126 | dashing the reserved characters keeps the length |
| TapestryPaths.DashReservedRules | electron/main.js:126 | the dashed name has no reserved character, and is all white space exactly when the name is |
| TapestryPaths.SafeTapestryNameRules | electron/main.js:125-129 | "Tapestry name cannot be empty" exactly for an all-white-space name; otherwise a non-empty name without reserved characters or outer white space, no longer than the request |
| TapestryPaths.NormalizeRelative | electron/main.js:290-292 | no backslash remains, the length is kept, and a path without backslashes is unchanged (so normalising twice changes nothing) |
| TapestryPaths.CandidateInjective | electron/main.js:164 | distinct attempts name distinct files, whatever suffix follows |
| TapestryPaths.UniqueName | electron/main.js:161-165 | the loop ends on a name whose file is not in the directory, the first of the candidates base, base-1, base-2, … that is free |
| TapestryPaths.CreateFolderName | electron/main.js:156-172 | the folder name is the first candidate of the sanitised name ("New Folder" when that is empty) that `existsSync` does not find, where "." and ".." are always found; so it is never "." or ".." |
| TapestryPaths.DotsSanitized | electron/main.js:294-296 | "." and ".." pass through sanitising unchanged |
| TapestryPaths.DotFolderSuffixed | electron/main.js:160-165 | a folder asked for as "." or ".." is created as ".-1" or "..-1" when the directory holds no entry of that name |
| TapestryPaths.CreateEntry | electron/main.js:174-191 | the entry name is the first candidate whose .md file `existsSync` does not find, "Untitled Entry" by default, and the new file starts with "# " and the name |
| TapestryPaths.ExtName | electron/main.js:202 | the extension is empty or a final '.'-piece that does not open the name |
| TapestryPaths.RenameRules | electron/main.js:193-212 | "Name cannot be empty" exactly when the new name sanitises to nothing; a target that exists is refused, and "." and ".." always exist, so a folder (or a file without extension) renamed to them is refused as existing; a folder takes the sanitised name, a file keeps its extension |
| TapestryPaths.Kept | electron/main.js:299 | path normalisation keeps no empty or "." segment |
| TapestryPaths.SiblingEscapes | electron/main.js:298-305 | from "/t/a" the written check accepts "../ab" as "/t/ab", a sibling of the Tapestry, and the corrected check refuses it |
| TapestryPaths.WalkDown | electron/main.js:299-300 | without ".." the joined path only appends segments |
| TapestryPaths.ResolveFixedRules | electron/main.js:298-305 | whatever the segment-wise check accepts lies below the Tapestry, and every path without ".." is accepted as the base plus its segments |
| TapestryPaths.ResolveWithinTapestry | electron/main.js:298-305 | a path is accepted exactly when the walked target's text starts with the Tapestry's text, and it is then that target; a refusal is "Path escapes the active Tapestry"; every target inside the Tapestry segment-wise is accepted as it is |
| TapestryPaths.NodeOfDescribes | electron/main.js:255-279 | a shown entry becomes a node of its kind, named without ".md" for files, with the joined relative path |
| TapestryPaths.NodesFromShown | electron/main.js:252-283 | one node per shown entry (not hidden, not an assets folder, a folder or a Markdown file), in listing order |
| TapestryPaths.NodeBeforeStrict | electron/main.js:284-287 | folders first, then by name, is a strict order when the name comparison is |
| TapestryPaths.BuildTreeOrdered | electron/main.js:252-288 | the tree is a permutation of the nodes with one per shown entry, folders before files, and names in order within each kind |
| AppTree.ContainsPathIff | src/App.tsx:70-76 | the search finds exactly the paths held in the tree |
| AppTree.SomeContainsPathIff | src/App.tsx:73 | a search over siblings finds exactly the paths held in any of them |
| AppTree.ParentOfChild | src/App.tsx:78-83 | the parent of "parent/name" is "parent", and a top-level name has the empty parent |
| AppTree.ReplaceAbsent | src/App.tsx:80 | replacing a character the text lacks changes nothing |
| AppTree.ChildPath | src/App.tsx:78-83 | the parent of "parent/name" is "parent" |
| AppTree.TopLevel | src/App.tsx:78-83 | a name without a separator has the empty parent |
| AppTree.FilterNode | src/App.tsx:645-659 | a node survives the filter exactly when its subtree holds a name that contains the query, keeping its kind, name and path; a file survives exactly when it matches, as itself; a surviving folder holds its children filtered |
| AppTree.FilterNodes | src/App.tsx:645-659 | the filtered list is non-empty exactly when some subtree holds a match, and never longer than the input |
| AppTree.FilterNodeIdempotent | src/App.tsx:645-659 | filtering a filtered node again changes nothing |
| AppTree.FilterNodesIdempotent | src/App.tsx:645-659 | filtering a filtered tree again changes nothing |
| AppTree.FilterNodeKeepsPaths | src/App.tsx:645-659 | filtering only removes: every path of the filtered node is a path of the original |
| AppTree.FilterNodesKeepPaths | src/App.tsx:645-659 | every path of the filtered tree is a path of the original tree |
| AppTree.FilterNodeKeepsMatches | src/App.tsx:645-659 | filtering loses no match: every node whose name contains the query survives, with its path, in the filtered node |
| AppTree.FilterNodesKeepMatches | src/App.tsx:645-659 | every matching node of a list survives, with its path, in the filtered list |
| AppTree.FilterNodesAppend | src/App.tsx:645-659 | the filter keeps sibling order: filtering a split list is filtering each part and joining them |
| AppTree.VisibleTree | src/App.tsx:642-659 | a blank search shows the whole tree; any other search shows the tree filtered by the trimmed, lower-cased query, which is non-empty exactly when some name contains it |
| AppTree.ToggleFolder | src/App.tsx:478-485 | the toggle stores a value for the folder and keeps every other stored folder |
| AppTree.ToggleFolderFlips | src/App.tsx:478-485 | a toggle flips what the folder shows (collapsed by default, expanded for a root), leaves other folders alone, and two toggles restore it |
| AppTree.WithoutId | src/App.tsx:462 | exactly the entries with another id |
| AppTree.WithoutIdKeepsUnique | src/App.tsx:462 | removing an id keeps the ids distinct |
| AppTree.OpenEntryRules | src/App.tsx:461-464 | after opening, the new entry is first, the ids stay distinct, and every other entry is kept unless it had the new entry's id |
| AppTree.LoggedSeparator | src/App.tsx:1392-1393 | a blank entry gets the markdown directly, any other one after a blank line |
| AppTree.DiceLogAppends | src/App.tsx:1385-1393 | a roll is logged exactly when an entry is active; the new content starts with the draft (or the saved content when the draft is empty) and ends with the markdown, separated by a blank line unless the base is blank |
| AppTree.PaneWidthsBounded | src/App.tsx:193-203 | the sidebar stays within 260..520 and the tools pane within 320..520, both follow the mouse inside those bounds, and they move monotonically with it |
| Sorting.InsertionSort | src/lib/dice/DiceRoller.ts:257-271 | the sort keeps every element: same length, same multiset |
| Sorting.InsertionSortSorted | src/lib/dice/DiceRoller.ts:257-271 | under a strict order the sorted dice are in order |

## Left out

- JavaScript numbers. Die values, rolls, counts and totals are unbounded integers, so floating-point rounding, `NaN` from arithmetic and overflow to `Infinity` are not modelled. The appearance settings are reals; their `NaN` and infinities are one `NonFinite` value.
- Randomness, the clock and identifiers. `Math.random`, `Date.now`, card ids and timestamps are parameters, so the model proves properties for every value they could produce, not their distribution.
- Exceptions. A `throw` is an `Err` carrying the same message; stack unwinding and `console` logging are not modelled.
- Text.ToUpper, Text.ToLower: only ASCII letters are case-mapped, one character to one. JavaScript's `toUpperCase`/`toLowerCase` use full Unicode mappings: "ß" upper-cases to "SS", "é" to "É", and "ı" to "I".
- TableRegistry.TitleCase: does not capitalise a non-ASCII first letter ("émigré" stays as it is).
- AiTableFiller.IsMacro, AiTableFiller.KindTag, AiTableFiller.InferKind: a macro or kind word spelled with a non-ASCII letter that JavaScript case-maps to ASCII ("roll twıce") is not recognised.
- TableRegistry.MergedTags, TableRegistry.HasJsonSuffix: tags and file suffixes are lower-cased in ASCII only.
- TablesPane.Matches, TablesPane.Filtered, AppTree.Matches, AppTree.VisibleTree: the search compares ASCII lower-case forms, so a query with non-ASCII letters in a different case does not match.
- Converters.TableHeader, Converters.ConvertTableToCard, Converters.ConvertInterpretationToCard: the header upper-cases ASCII letters only ("Straße" gives "STRAßE", not "STRASSE").
- TapestryPaths.Shown: the "assets" and ".md" tests lower-case ASCII letters only.
- DiceExpression.SelectionTag, DiceExpression.ChallengeMatch: the case-insensitive tags compare ASCII case only.
- Object-prototype keys. DiceEngine.RollDice, TableRegistry.Registry.FetchTableById and OraclePrompts.PersonaFor treat a key such as "toString" as absent, whereas a JavaScript object lookup would find the inherited member.
- TablesPane.Group: the groups are a map, so the insertion order that `Object.entries(grouped)` renders (TablesPane.tsx:245) is not modelled.
- OraclePrompts.UserPrompt: the fixed request prose is a parameter. The system prompt's fixed instruction prose is a parameter too; only where the oracle name, result list and persona addendum sit is modelled.
- BatchGenerate.BuildRequest: the system prompt is a parameter applied to the facts it embeds (genre, rules, count, context), not the literal prose of standalone_server's template.
- Converters.ConvertDiceToCard: the exploding-roll branch (src/core/results/converters.ts:244-270) is not modelled. The roller never fills `explosions`, so that branch is unreachable from a roll the model produces.
- ResultCardView.ParseContentText: the label/value spans that `parseContentText` builds for "Label: value" lines are React elements and are not modelled; only the line splitting is (ResultCard.tsx:184-195).
- React state and rendering: `isExpanded`, `variant`, hooks, effects, event handlers and JSX are not modelled. The pure helpers they call are.
- src/lib/diceEngine.ts repeats the roll helpers and appearance setters of src/core/dice/diceEngine.ts and src/core/dice/diceAppearance.ts. It is covered by the same `DiceEngine` and `DiceAppearanceState` members.
- DiceRoller: the asynchronous provider path (`rollWithProvider`, `rollDiceTermWithProvider`, `rollChallengeTermWithProvider`, `prepareCompositeRolls`; DiceRoller.ts:130-173 and 423-472) is not modelled. Its values come from the dice box, whose allocation `DiceBoxManager` models. The rng's float is replaced by injected integer draws.
- src/core/dice/diceEngine.ts's `rollDiceBox*` wrappers (lines 131-185) only delegate to the dice box manager, which `DiceBoxManager` models.
- AiTableFiller.FillTableWithAI: the chat-completion call and the JSON decoding of its reply are the `generate` parameter.
- DiceBoxManager: the dice box itself, its canvas, fade timers and sounds are not modelled. Neither is the payload sent to it; its reply is a parameter.
- DiceBoxManager.GroupsPartition: stated for non-negative counts only. With a negative count the running cursor moves back and values are handed out again (DiceBoxManager.NegativeCountRereads).
- DiceBoxManager.CoerceSides: side counts are integers. A non-integer numeric side count, and a digit run too long to be a finite JavaScript number, are not modelled.
- BatchGenerate: the HTTP plumbing, CORS headers, `Content-Length`, and `json.loads` of the request body are not modelled. The request arrives decoded, with an explicit JSON `null` treated like a missing key.
- BatchGenerate.ReadAnswer: an `error` object or a message `content` that is JSON `null` would raise `AttributeError` in the source. The model does not represent those values.
- BatchGenerate.HandleBatchGenerate: the `details` payloads that accompany error replies are dropped. The body of an HTTP error is not read; only its code is kept. A non-integer `num_entries` is not modelled.
- OraclePrompts.FormatReadsBack: the reader uses a strict decimal reader, not `parseInt`, as the inverse of printing the roll.
- TapestryPaths: file-system effects (`mkdir`, `writeFile`, `rename`, `stat`, the welcome document) are not modelled. A directory appears as the set of names it holds; `existsSync` finds those plus "." and ".." (TapestryPaths.Found), because `path.join` resolves those two to the directory and its parent.
- TapestryPaths: `path.relative`, Windows drive letters and separators, and trailing-slash handling are not modelled. Paths are POSIX segment lists.
- TapestryPaths.RenameRules: `path.extname` is applied to the original's base name; the directories above it are not consulted.
- TapestryPaths.UniqueName: existence is exact-name membership. A case-insensitive file system, where `existsSync` also finds a name in another case, is not modelled.
- Text.ParseInt: `parseInt` of a digit run beyond 2^53 loses precision in JavaScript. The model reads it exactly.
- InterpretButton: the interpretation request, the bridge or network call, and the placeholder and result HTML it appends or replaces are not modelled. The escaping it uses is `HtmlEscape`.
- DiceExpression.Describe: carries no contract of its own. What it prints is stated by DiceExpressionFacts.DescribeIsPlainJoin (the clean-up never fires on well-formed terms), by DiceExpressionFacts.SubtractionAsWritten and by the DiceExpressionReadBack lemmas.
- DiceExpressionReadBack.PercentileTermReadsBack: stated only for an explode threshold other than the sides, or sides of 10. `describe` prints a bare `!` when the threshold equals the sides, and the parser reads a bare `!` on a percentile die as threshold 10, so "d%66!66" comes back with threshold 10.
- Converters.DegradeCard: the header "DEGRADATION ROLL <count>d<sides> D:<threshold>" (converters.ts:226) is built but not stated in the contract; the result text and colour are.
- Sorting.InsertionSort: stated as sorted and a permutation. Stability (ties keep their input order) holds by construction but is not stated as a lemma.

## Findings

| source | as written | input that shows it | evidently intended | confidence | as-written member | corrected member |
|---|---|---|---|---|---|---|
| src/lib/dice/DiceExpression.ts:195-258 | `describe` joins the terms with " + " and prints a subtracted term as "-2". The `/\+\s-\s/` clean-up never matches "+ -2", so a subtraction is shown as an added negative. | "d6-2" is described as "d6 + -2" | "d6 - 2": a subtracted term is shown after " - " | not executed | DiceExpressionFacts.SubtractionAsWritten | DiceExpressionFacts.SubtractionFixed |
| electron/main.js:298-305 | `resolveWithinTapestry` accepts a target whose text starts with the Tapestry's path. A sibling folder whose name extends the Tapestry's name passes. | base "/t/a" with relative path "../ab" resolves to "/t/ab" | only paths inside the Tapestry (segment-wise prefix) are accepted | not executed | TapestryPaths.SiblingEscapes | TapestryPaths.ResolveFixedRules |
