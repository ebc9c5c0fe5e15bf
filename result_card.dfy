/** The pure helpers behind the result card component: the theme and the
    display choices for a card, the two content-line parsers, the outcome
    colours, and the component's own HTML rendering for entry content.
    That rendering shares its pieces with the standalone renderer but
    differs from it in four ways: a missing source counts as dice, only
    dice results are bold, the outer class names only the interpretation
    theme, and the output keeps the template's padding. */
module ResultCardView {
  import opened Wrappers
  import opened Text
  import opened HtmlEscape
  import opened Converters
  import opened RenderResultCardHtml
  import DiceRoller

  /** `card.source || "dice"`. */
  function SourceOrDice(source: Option<Source>): Source
  {
    source.GetOr(DiceSource)
  }

  const DiceColours := Theme("#1e3a5f", "#ffffff")

  /** `getCardTheme`: the table, oracle and interpretation themes for those
      sources, the dice theme for everything else, a missing source
      included. Every theme has white header text. */
  function CardTheme(source: Option<Source>): (t: Theme)
    ensures t.headerFontColor == "#ffffff"
    ensures t == DiceColours <==> SourceOrDice(source) !in {TableSource, OracleSource, InterpretationSource}
  {
    match SourceOrDice(source)
    case DiceSource => DiceColours
    case TableSource => Theme("#255f1e", "#ffffff")
    case OracleSource => Theme("#8b5cf6", "#ffffff")
    case InterpretationSource => Theme("#5f1e56", "#ffffff")
    case _ => DiceColours
  }

  // ---------------------------------------------------------------------
  // Display
  // ---------------------------------------------------------------------

  /** What the component shows. The content lines are the line texts; the
      component's further split of a "label: value" line into two spans is
      presentation only. */
  datatype Display = Display(
    headerText: string, contentLines: seq<string>, resultText: string,
    resultColor: Option<string>, themeClass: string)

  /** A challenge roll: `meta.type` is "challenge" or the header mentions
      CHALLENGE. */
  predicate IsChallenge(card: ResultCard)
  {
    card.meta.kind == Some("challenge") || Contains(card.header, "CHALLENGE")
  }

  /** `getCardDisplay`. */
  function CardDisplay(card: ResultCard): (d: Display)
    ensures d.headerText == card.header && d.resultText == card.result
    ensures d.themeClass == "dice-card--challenge" <==> SourceOrDice(card.source) == DiceSource && IsChallenge(card)
    ensures d.themeClass == "dice-card--table" <==> SourceOrDice(card.source) in {TableSource, OracleSource}
    ensures d.themeClass == "dice-card--interpretation" <==> SourceOrDice(card.source) == InterpretationSource
    ensures d.resultColor.Some? ==> SourceOrDice(card.source) == DiceSource
    ensures d.contentLines ==
      if SourceOrDice(card.source) == InterpretationSource then ParseInterpretationContent(card.content)
      else ParseContentText(card.content)
  {
    match SourceOrDice(card.source)
    case DiceSource =>
      Display(card.header, ParseContentText(card.content), card.result, card.meta.resultColor,
        if IsChallenge(card) then "dice-card--challenge" else "dice-card--dice")
    case TableSource =>
      Display(card.header, ParseContentText(card.content), card.result, None, "dice-card--table")
    case OracleSource =>
      Display(card.header, ParseContentText(card.content), card.result, None, "dice-card--table")
    case InterpretationSource =>
      Display(card.header, ParseInterpretationContent(card.content), card.result, None, "dice-card--interpretation")
    case _ =>
      Display(card.header, ParseContentText(card.content), card.result, None, "dice-card--dice")
  }

  /** `parseContentText`, line splitting only: the non-blank lines, each
      free of line breaks, and every non-blank line of the text kept. */
  function ParseContentText(content: string): (lines: seq<string>)
    ensures forall l :: l in lines ==> Trim(l) != [] && '\n' !in l
    ensures forall l :: l in Split(content, '\n') && Trim(l) != [] ==> l in lines
  {
    NoLinesInEmpty();
    NonBlankLinesSpec(content);
    if content == [] then [] else NonBlankLines(content)
  }

  /** The early return on empty content changes nothing: both parsers
      split and filter exactly like the standalone renderer. */
  lemma ParseContentGuard(content: string)
    ensures ParseContentText(content) == NonBlankLines(content)
  {
    if content == [] {
      NoLinesInEmpty();
    }
  }

  /** `parseInterpretationContent`: the lines `parseContentText` keeps,
      each trimmed. */
  function ParseInterpretationContent(text: string): seq<string>
  {
    var kept := ParseContentText(text);
    seq(|kept|, i requires 0 <= i < |kept| => Trim(kept[i]))
  }

  /** Non-empty, with no whitespace at either end. */
  predicate Trimmed(r: string)
  {
    r != [] && !IsSpace(r[0]) && !IsSpace(r[|r| - 1])
  }

  /** Interpretation lines correspond one to one to the kept lines, and
      each is non-empty and neither starts nor ends with whitespace. */
  lemma InterpretationLinesTrimmed(text: string)
    ensures var lines := ParseInterpretationContent(text);
      |lines| == |ParseContentText(text)| && forall i :: 0 <= i < |lines| ==> Trimmed(lines[i])
  {
    TrimmedEach(ParseContentText(text), ParseInterpretationContent(text));
  }

  lemma TrimmedEach(kept: seq<string>, lines: seq<string>)
    requires forall l :: l in kept ==> Trim(l) != []
    requires |lines| == |kept| && forall i :: 0 <= i < |kept| ==> lines[i] == Trim(kept[i])
    ensures forall i :: 0 <= i < |lines| ==> Trimmed(lines[i])
  {
    forall i | 0 <= i < |lines|
      ensures Trimmed(lines[i])
    {
      var l := kept[i];
      assert l in kept;
      TrimmedOf(l);
    }
  }

  lemma TrimmedOf(l: string)
    requires Trim(l) != []
    ensures Trimmed(Trim(l))
  {
    TrimEnds(l);
  }

  /** Trimming keeps a bullet: a line made of whitespace and then a "-"
      trims to a line that starts with the "-". */
  lemma BulletKept(space: string, bullet: string)
    requires AllSpace(space) && bullet != [] && bullet[0] == '-'
    ensures var r := Trim(space + bullet); r != [] && r[0] == '-'
  {
    SignOrDigitNotSpace('-');
    TrimStartPadded(space, bullet);
    TrimEndEmptyIffBlank(bullet);
    assert !AllSpace(bullet);
  }

  // ---------------------------------------------------------------------
  // Outcome colours
  // ---------------------------------------------------------------------

  const TextMain := "var(--text-main)"

  /** `getChallengeOutcomeColor`: green, amber and red for the three
      outcomes, the main text colour for any other string. */
  function OutcomeColor(outcome: string): (c: string)
    ensures c == TextMain <==> outcome !in {"Strong Hit", "Weak Hit", "Miss"}
  {
    if outcome == "Strong Hit" then Green
    else if outcome == "Weak Hit" then Amber
    else if outcome == "Miss" then Red
    else TextMain
  }

  /** On the outcome names the component's colours are the converter's. */
  lemma OutcomeColorAgrees(o: DiceRoller.Outcome)
    ensures OutcomeColor(OutcomeText(o)) == ChallengeOutcomeColor(o)
  {
  }

  // ---------------------------------------------------------------------
  // The component's HTML rendering
  // ---------------------------------------------------------------------

  /** The escaped content with each line break written as `<br/>`. */
  function BreakLines(content: string): string
  {
    ReplaceAll(EscapeHtml(content), '\n', "<br/>")
  }

  const InterpretationOpen := BodyOpen + DetailOpen
  const InterpretationClose := DivClose + DivClose

  /** The body of an interpretation card: one detail div holding the whole
      text, inside the body div. */
  function InterpretationBody(content: string): string
  {
    InterpretationOpen + (BreakLines(content) + InterpretationClose)
  }

  /** The body by source: per-line detail divs for dice, table and oracle,
      the single interpretation div, and nothing for other sources. */
  function BodyHtml(src: Source, content: string): string
  {
    match src
    case DiceSource => ContentHtml(content)
    case TableSource => ContentHtml(content)
    case OracleSource => ContentHtml(content)
    case InterpretationSource => InterpretationBody(content)
    case _ => ""
  }

  function OuterClass(src: Source): string
  {
    if src == InterpretationSource then "dice-card--interpretation" else ""
  }

  /** The footer: the label for every source but interpretation, bold for
      dice results only (a missing source counts as dice). */
  function TsxFooter(card: ResultCard): string
  {
    var src := SourceOrDice(card.source);
    FooterHtml(src != InterpretationSource, ResultColor(card.meta), src == DiceSource, card.result)
  }

  function TsxMiddle(card: ResultCard): string
  {
    var src := SourceOrDice(card.source);
    OuterClass(src) + "\">"
    + "\n      " + HeaderHtml(CardTheme(card.source), card.header)
    + "\n      " + BodyHtml(src, card.content)
    + "\n      "
  }

  function TsxBlock(card: ResultCard): string
  {
    CardOpen + (TsxMiddle(card) + (TsxFooter(card) + CardClose))
  }

  /** `renderResultCardHtml` of the component: the template as written,
      padding included. */
  function CardHtml(card: ResultCard): string
  {
    "\n    " + TsxBlock(card) + "\n  "
  }

  /** The output is not trimmed: it keeps the template's leading and
      trailing padding, and trimming it leaves exactly the card block. */
  lemma CardHtmlPadding(card: ResultCard)
    ensures var h := CardHtml(card);
      StartsWith(h, "\n    " + CardOpen) && EndsWith(h, CardClose + "\n  ")
      && Trim(h) == TsxBlock(card) && Trim(h) != h
  {
    var b := TsxBlock(card);
    EndsInClose(TsxFooter(card));
    TrimBlock(TsxMiddle(card), TsxFooter(card) + CardClose);
    PaddedBlock(b, CardOpen, TsxFooter(card));
  }

  lemma PaddedBlock(b: string, front: string, footer: string)
    requires StartsWith(b, front) && EndsWith(b, footer + CardClose)
    ensures var h := "\n    " + b + "\n  ";
      StartsWith(h, "\n    " + front) && EndsWith(h, CardClose + "\n  ") && h[0] == '\n' && h != b
  {
    var h := "\n    " + b + "\n  ";
    assert h[..|"\n    " + front|] == "\n    " + b[..|front|];
    assert b[|b| - |CardClose|..] == CardClose;
    assert h[|h| - |CardClose + "\n  "|..] == b[|b| - |CardClose|..] + "\n  ";
    assert |h| > |b|;
  }

  /** The footer reads back as: label exactly when the source is not
      interpretation, the colour of `meta.resultColor` when set, bold
      exactly for dice (a missing source included), and the result. */
  lemma TsxFooterReadsBack(card: ResultCard)
    requires card.meta.resultColor.Some? ==> '"' !in card.meta.resultColor.value
    ensures ReadFooter(TsxFooter(card)) == Some(FooterView(
      SourceOrDice(card.source) != InterpretationSource, ResultColor(card.meta),
      SourceOrDice(card.source) == DiceSource, card.result))
  {
    var src := SourceOrDice(card.source);
    ReadFooterOf(src != InterpretationSource, ResultColor(card.meta), src == DiceSource, card.result);
  }

  /** Reads the interpretation body back: what lies between its opening
      and closing tags, with `<br/>` and the entities decoded. */
  function ReadInterpretationBody(b: string): Option<string>
  {
    if |InterpretationOpen| + |InterpretationClose| <= |b|
      && StartsWith(b, InterpretationOpen) && EndsWith(b, InterpretationClose)
    then Some(Unescape(b[|InterpretationOpen|..|b| - |InterpretationClose|], true))
    else None
  }

  lemma ReadBetween(x: string)
    ensures ReadInterpretationBody(InterpretationOpen + (x + InterpretationClose)) == Some(Unescape(x, true))
  {
    var b := InterpretationOpen + (x + InterpretationClose);
    PrefixAndSuffix(InterpretationOpen, x, InterpretationClose);
    assert b[|InterpretationOpen|..|b| - |InterpretationClose|] == x;
  }

  /** The body reads back as the content: the non-blank lines for dice,
      table and oracle cards, the whole text, line breaks included, for
      interpretation cards, and there is no body for other sources. An
      interpretation card has its body even when the content is empty. */
  lemma BodyReadsBack(src: Source, content: string)
    ensures src in {DiceSource, TableSource, OracleSource} ==>
      ReadBody(BodyHtml(src, content)) == NonBlankLines(content)
    ensures src == InterpretationSource ==>
      BodyHtml(src, content) != [] && ReadInterpretationBody(BodyHtml(src, content)) == Some(content)
    ensures src in {SystemSource, OtherSource} ==> BodyHtml(src, content) == []
  {
    match src
    case DiceSource => ContentHtmlReadsBack(content);
    case TableSource => ContentHtmlReadsBack(content);
    case OracleSource => ContentHtmlReadsBack(content);
    case InterpretationSource => InterpretationReadsBack(content);
    case _ =>
  }

  lemma InterpretationReadsBack(content: string)
    ensures InterpretationBody(content) != []
    ensures ReadInterpretationBody(InterpretationBody(content)) == Some(content)
  {
    ReadBetween(BreakLines(content));
    EscapeWithBreaksRoundTrip(content);
  }

  /** A card without a source renders exactly like a dice card, whereas
      the standalone renderer gives it the "other" theme. */
  lemma MissingSourceIsDice(card: ResultCard)
    ensures CardHtml(card.(source := None)) == CardHtml(card.(source := Some(DiceSource)))
  {
    var a, b := card.(source := None), card.(source := Some(DiceSource));
    assert TsxMiddle(a) == TsxMiddle(b);
    assert TsxFooter(a) == TsxFooter(b);
  }

  /** ... and it is displayed like one. */
  lemma MissingSourceDisplaysAsDice(card: ResultCard)
    ensures CardDisplay(card.(source := None)) == CardDisplay(card.(source := Some(DiceSource)))
  {
  }
}
