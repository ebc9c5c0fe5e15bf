/** The storage form of a result card: a static HTML block with the themed
    header, one escaped detail line per non-blank content line, and a
    footer holding the result. Readers for the body and the footer show
    that the block carries exactly what the card holds. */
module RenderResultCardHtml {
  import opened Wrappers
  import opened Text
  import opened HtmlEscape
  import opened Converters

  // ---------------------------------------------------------------------
  // Content lines
  // ---------------------------------------------------------------------

  /** `filter((line) => line.trim())`. */
  function KeepNonBlank(lines: seq<string>): seq<string>
  {
    if lines == [] then []
    else (if Trim(lines[0]) != [] then [lines[0]] else []) + KeepNonBlank(lines[1..])
  }

  /** `content.split("\n").filter((line) => line.trim())`. */
  function NonBlankLines(content: string): seq<string>
  {
    KeepNonBlank(Split(content, '\n'))
  }

  lemma {:induction false} KeepNonBlankFacts(lines: seq<string>)
    ensures forall l :: l in KeepNonBlank(lines) ==> l in lines && Trim(l) != []
    ensures forall l :: l in lines && Trim(l) != [] ==> l in KeepNonBlank(lines)
  {
    if lines != [] {
      KeepNonBlankFacts(lines[1..]);
      assert lines == [lines[0]] + lines[1..];
    }
  }

  /** The kept lines are the non-blank pieces between line breaks, in
      order; a text assembled from non-blank lines gives them back. */
  lemma NonBlankLinesSpec(content: string)
    ensures forall l :: l in NonBlankLines(content) ==> Trim(l) != [] && '\n' !in l
    ensures forall l :: l in Split(content, '\n') && Trim(l) != [] ==> l in NonBlankLines(content)
  {
    SplitPieces(content, '\n');
    KeepNonBlankFacts(Split(content, '\n'));
  }

  lemma NonBlankLinesOfJoin(lines: seq<string>)
    requires forall i :: 0 <= i < |lines| ==> Trim(lines[i]) != [] && '\n' !in lines[i]
    ensures NonBlankLines(Join(lines, "\n")) == lines
  {
    if lines == [] {
      NoLinesInEmpty();
    } else {
      SplitJoin(lines, '\n');
      assert forall l :: l in lines ==> Trim(l) != [];
      KeepAllNonBlank(lines);
    }
  }

  lemma NoLinesInEmpty()
    ensures NonBlankLines([]) == []
  {
    assert Split([], '\n') == [[]];
    assert Trim([]) == [];
  }

  lemma {:induction false} KeepAllNonBlank(lines: seq<string>)
    requires forall l :: l in lines ==> Trim(l) != []
    ensures KeepNonBlank(lines) == lines
  {
    if lines != [] {
      KeepAllNonBlank(lines[1..]);
      assert lines == [lines[0]] + lines[1..];
    }
  }

  // ---------------------------------------------------------------------
  // The body
  // ---------------------------------------------------------------------

  const DetailOpen := "<div class=\"dice-card-detail\">"
  const DivClose := "</div>"
  const BodyOpen := "<div class=\"dice-card-body dice-log-body\">"

  function DetailDiv(line: string): string
  {
    DetailOpen + (EscapeHtml(line) + DivClose)
  }

  /** The detail divs, concatenated. */
  function DetailDivs(lines: seq<string>): string
  {
    if lines == [] then [] else DetailDiv(lines[0]) + DetailDivs(lines[1..])
  }

  /** The body of the card: the detail divs in a body div, or nothing when
      no line remains. */
  function ContentHtml(content: string): string
  {
    var lines := DetailDivs(NonBlankLines(content));
    if lines == [] then [] else BodyOpen + (lines + DivClose)
  }

  /** Reads detail divs back into their (unescaped) lines. */
  function ReadDetails(s: string): seq<string>
    decreases |s|
  {
    if !StartsWith(s, DetailOpen) then []
    else
      var t := s[|DetailOpen|..];
      if '<' !in t then []
      else
        var k := IndexOf(t, '<');
        [Unescape(t[..k], false)]
        + (if StartsWith(t[k..], DivClose) then ReadDetails(t[k + |DivClose|..]) else [])
  }

  /** Reads the lines of a body div. */
  function ReadBody(s: string): seq<string>
  {
    if StartsWith(s, BodyOpen) then ReadDetails(s[|BodyOpen|..]) else []
  }

  lemma ReadDetailStep(line: string, tail: string)
    ensures ReadDetails(DetailDiv(line) + tail) == [line] + ReadDetails(tail)
  {
    var e := EscapeHtml(line);
    DetailDivThen(e, tail);
    ReadDetailOf(e, tail);
    EscapeHtmlRoundTrip(line);
  }

  lemma DetailDivThen(e: string, tail: string)
    ensures DetailOpen + (e + DivClose) + tail == DetailOpen + (e + (DivClose + tail))
  {
  }

  /** A detail div around text without `<` reads back as that text, unescaped. */
  lemma ReadDetailOf(e: string, tail: string)
    requires '<' !in e
    ensures ReadDetails(DetailOpen + (e + (DivClose + tail))) == [Unescape(e, false)] + ReadDetails(tail)
  {
    var rest := DivClose + tail;
    Consume(DetailOpen, e + rest);
    PieceBefore(e, rest, '<');
    Consume(DivClose, tail);
    SliceOfSlice(e + rest, |e|, |DivClose|);
  }

  lemma SliceOfSlice(s: string, i: nat, j: nat)
    requires i + j <= |s|
    ensures s[i..][j..] == s[i + j..]
  {
  }

  /** Each detail div reads back as its line, and reading stops at the
      first piece that is not a detail div. */
  lemma {:induction false} ReadDetailDivs(lines: seq<string>, tail: string)
    requires !StartsWith(tail, DetailOpen)
    ensures ReadDetails(DetailDivs(lines) + tail) == lines
  {
    if lines == [] {
      assert DetailDivs(lines) + tail == tail;
    } else {
      ReadDetailDivs(lines[1..], tail);
      DivsCons(lines, tail);
      ReadDetailStep(lines[0], DetailDivs(lines[1..]) + tail);
      assert lines == [lines[0]] + lines[1..];
    }
  }

  lemma DivsCons(lines: seq<string>, tail: string)
    requires lines != []
    ensures DetailDivs(lines) + tail == DetailDiv(lines[0]) + (DetailDivs(lines[1..]) + tail)
  {
    Assoc(DetailDiv(lines[0]), DetailDivs(lines[1..]), tail);
  }

  lemma Assoc(a: string, b: string, c: string)
    ensures a + b + c == a + (b + c)
  {
  }

  lemma DetailDivsEmpty(lines: seq<string>)
    ensures DetailDivs(lines) == [] <==> lines == []
  {
    if lines != [] {
      assert |DetailDiv(lines[0])| > 0;
    }
  }

  /** The body holds one escaped detail div per non-blank content line, in
      order, and is left out exactly when no such line exists. */
  lemma ContentHtmlReadsBack(content: string)
    ensures ReadBody(ContentHtml(content)) == NonBlankLines(content)
    ensures ContentHtml(content) == [] <==> NonBlankLines(content) == []
  {
    var lines := NonBlankLines(content);
    var divs := DetailDivs(lines);
    DetailDivsEmpty(lines);
    if divs != [] {
      Consume(BodyOpen, divs + DivClose);
      assert !StartsWith(DivClose, DetailOpen) by {
        assert |DivClose| < |DetailOpen|;
      }
      ReadDetailDivs(lines, DivClose);
    }
  }

  // ---------------------------------------------------------------------
  // The footer
  // ---------------------------------------------------------------------

  const FooterOpen := "<div class=\"dice-card-highlight dice-log-footer\">"
  const LabelHtml := "<span class=\"dice-log-footer-label\">Result:</span>"
  const ResultOpen := "<span class=\"dice-card-inline-result\""
  const StyleOpen := " style=\"color:"
  const FooterClose := "</span></div>"

  /** The colour of the result, when `meta.resultColor` is set. */
  function ResultColor(meta: Meta): Option<string>
  {
    if meta.resultColor.Some? && meta.resultColor.value != [] then meta.resultColor else None
  }

  /** The footer: an optional "Result:" label, then the escaped result in a
      span that is coloured when a colour is given and bold when asked. */
  function FooterHtml(showLabel: bool, color: Option<string>, bold: bool, result: string): string
  {
    FooterOpen + ((if showLabel then LabelHtml else "") + ResultSpan(color, bold, result))
  }

  /** What a footer says. */
  datatype FooterView = FooterView(showLabel: bool, color: Option<string>, bold: bool, result: string)

  function ReadStyle(s: string): (Option<string>, string)
  {
    if StartsWith(s, StyleOpen) && '"' in s[|StyleOpen|..] then
      var t := s[|StyleOpen|..];
      var k := IndexOf(t, '"');
      (Some(t[..k]), t[k + 1..])
    else (None, s)
  }

  function ReadResultText(s: string): Option<(bool, string)>
  {
    var bold := StartsWith(s, "<strong>");
    var t := if bold then s[8..] else s;
    if '<' in t then Some((bold, Unescape(t[..IndexOf(t, '<')], false))) else None
  }

  /** Reads a footer back. */
  function ReadFooter(f: string): Option<FooterView>
  {
    if !StartsWith(f, FooterOpen) then None
    else
      var s1 := f[|FooterOpen|..];
      var showLabel := StartsWith(s1, LabelHtml);
      match ReadResultSpan(if showLabel then s1[|LabelHtml|..] else s1)
      case None => None
      case Some(r) => Some(FooterView(showLabel, r.0, r.1, r.2))
  }

  /** Reads the result span: its colour, whether it is bold, and the text. */
  function ReadResultSpan(s: string): Option<(Option<string>, bool, string)>
  {
    if !StartsWith(s, ResultOpen) then None
    else
      var styled := ReadStyle(s[|ResultOpen|..]);
      var rest := styled.1;
      if rest == [] || rest[0] != '>' then None
      else
        match ReadResultText(rest[1..])
        case None => None
        case Some(r) => Some((styled.0, r.0, r.1))
  }

  /** The result span of a footer. */
  function ResultSpan(color: Option<string>, bold: bool, result: string): string
  {
    ResultOpen + (StyleHtml(color) + (">" + (ResultHtml(bold, result) + FooterClose)))
  }

  /** The escaped result, in bold when asked. */
  function ResultHtml(bold: bool, result: string): string
  {
    if bold then "<strong>" + (EscapeHtml(result) + "</strong>") else EscapeHtml(result)
  }

  /** The first `c` of `e + rest` is the one that starts `rest`. */
  lemma PieceBefore(e: string, rest: string, c: char)
    requires c !in e && rest != [] && rest[0] == c
    ensures var t := e + rest; c in t && IndexOf(t, c) == |e| && t[..|e|] == e && t[|e|..] == rest
  {
    var t := e + rest;
    Consume(e, rest);
    assert t[|e|] == c;
    IndexOfAt(t, c, |e|);
  }

  lemma ReadTextBefore(e: string, rest: string)
    requires '<' !in e && rest != [] && rest[0] == '<'
    ensures var t := e + rest; '<' in t && t[..IndexOf(t, '<')] == e
  {
    PieceBefore(e, rest, '<');
  }

  lemma ReadBoldText(result: string, tail: string)
    requires StartsWith(tail, "</")
    ensures ReadResultText(ResultHtml(true, result) + tail) == Some((true, result))
  {
    var e := EscapeHtml(result);
    EscapeHtmlRoundTrip(result);
    BoldThen(e, tail);
    ReadBoldOf(e, tail);
  }

  lemma BoldThen(e: string, tail: string)
    ensures "<strong>" + (e + "</strong>") + tail == "<strong>" + (e + ("</strong>" + tail))
  {
  }

  lemma ReadBoldOf(e: string, tail: string)
    requires '<' !in e
    ensures ReadResultText("<strong>" + (e + ("</strong>" + tail))) == Some((true, Unescape(e, false)))
  {
    var rest := "</strong>" + tail;
    Consume("<strong>", e + rest);
    ReadTextBefore(e, rest);
  }

  lemma ReadPlainText(result: string, tail: string)
    requires StartsWith(tail, "</")
    ensures ReadResultText(ResultHtml(false, result) + tail) == Some((false, result))
  {
    EscapeHtmlRoundTrip(result);
    ReadPlainOf(EscapeHtml(result), tail);
  }

  lemma ReadPlainOf(e: string, tail: string)
    requires '<' !in e && StartsWith(tail, "</")
    ensures ReadResultText(e + tail) == Some((false, Unescape(e, false)))
  {
    var s := e + tail;
    assert s[0] != "<strong>"[0] || s[1] != "<strong>"[1] by {
      if e == [] {
        assert s == tail;
      } else {
        assert s[0] == e[0];
      }
    }
    assert !StartsWith(s, "<strong>");
    ReadTextBefore(e, tail);
    assert s[..IndexOf(s, '<')] == e;
  }

  /** The colour style of the result span, when a colour is given. */
  function StyleHtml(color: Option<string>): string
  {
    if color.Some? then StyleOpen + (color.value + "\"") else ""
  }

  lemma ReadStyleOf(color: Option<string>, tail: string)
    requires color.Some? ==> '"' !in color.value
    requires tail != [] && tail[0] == '>'
    ensures ReadStyle(StyleHtml(color) + tail) == (color, tail)
  {
    if color.Some? {
      var c := color.value;
      assert StyleHtml(color) + tail == StyleOpen + (c + ("\"" + tail));
      Consume(StyleOpen, c + ("\"" + tail));
      PieceBefore(c, "\"" + tail, '"');
      assert ("\"" + tail)[1..] == tail;
    } else {
      assert StyleHtml(color) + tail == tail;
      assert tail[0] != StyleOpen[0];
    }
  }

  /** A footer reads back as the label flag, the colour, the bold flag and
      the unescaped result it was built from. */
  lemma ReadFooterOf(showLabel: bool, color: Option<string>, bold: bool, result: string)
    requires color.Some? ==> '"' !in color.value
    ensures ReadFooter(FooterHtml(showLabel, color, bold, result)) == Some(FooterView(showLabel, color, bold, result))
  {
    var span := ResultSpan(color, bold, result);
    var s1 := (if showLabel then LabelHtml else "") + span;
    Consume(FooterOpen, s1);
    if showLabel {
      Consume(LabelHtml, span);
    } else {
      assert s1 == span;
      SpanIsNotLabel(span);
    }
    ReadResultSpanOf(color, bold, result);
  }

  lemma SpanIsNotLabel(s: string)
    requires StartsWith(s, ResultOpen)
    ensures !StartsWith(s, LabelHtml)
  {
    assert s[18] == ResultOpen[18];
  }

  lemma ReadResultSpanOf(color: Option<string>, bold: bool, result: string)
    requires color.Some? ==> '"' !in color.value
    ensures ReadResultSpan(ResultSpan(color, bold, result)) == Some((color, bold, result))
  {
    var text := ResultHtml(bold, result);
    ReadStyleOf(color, ">" + (text + FooterClose));
    ResultTextOf(bold, result);
    ReadSpanParts(StyleHtml(color), color, text, bold, result);
  }

  lemma ResultTextOf(bold: bool, result: string)
    ensures ReadResultText(ResultHtml(bold, result) + FooterClose) == Some((bold, result))
  {
    if bold {
      ReadBoldText(result, FooterClose);
    } else {
      ReadPlainText(result, FooterClose);
    }
  }

  /** A result span reads back as what its style and its text read back as. */
  lemma ReadSpanParts(style: string, color: Option<string>, text: string, bold: bool, result: string)
    requires ReadStyle(style + (">" + (text + FooterClose))) == (color, ">" + (text + FooterClose))
    requires ReadResultText(text + FooterClose) == Some((bold, result))
    ensures ReadResultSpan(ResultOpen + (style + (">" + (text + FooterClose)))) == Some((color, bold, result))
  {
    Consume(ResultOpen, style + (">" + (text + FooterClose)));
    Consume(">", text + FooterClose);
  }

  // ---------------------------------------------------------------------
  // The card
  // ---------------------------------------------------------------------

  datatype Theme = Theme(headerBgColor: string, headerFontColor: string)

  /** `SOURCE_THEMES[card.source || "other"]`. */
  function SourceTheme(source: Option<Source>): Theme
  {
    match source.GetOr(OtherSource)
    case DiceSource => Theme("#1e3a5f", "#ffffff")
    case TableSource => Theme("#255f1e", "#ffffff")
    case OracleSource => Theme("#8ed8df", "#1e293b")
    case InterpretationSource => Theme("#5f1e56", "#ffffff")
    case SystemSource => Theme("#475569", "#ffffff")
    case OtherSource => Theme("#1e3a5f", "#ffffff")
  }

  /** A card without a source is drawn in the colours of the "other" theme. */
  lemma MissingSourceIsOther()
    ensures SourceTheme(None) == SourceTheme(Some(OtherSource)) == Theme("#1e3a5f", "#ffffff")
  {
  }

  function HeaderStyle(theme: Theme): string
  {
    "background-color: " + theme.headerBgColor + "; color: " + theme.headerFontColor
    + "; padding: 0.35rem 0.5rem; display: block; font-weight: 600;"
  }

  function ThemeClass(source: Option<Source>): string
  {
    if source.Some? then "dice-card--" + SourceName(source.value) else ""
  }

  const CardOpen := "<div class=\"dice-card " + "dice-card-inline dice-log-card "
  const CardClose := "\n    </div>"

  /** The footer of this renderer: the label for every source but
      interpretation, bold for dice and table results. */
  function CardFooter(card: ResultCard): string
  {
    FooterHtml(
      card.source != Some(InterpretationSource), ResultColor(card.meta),
      card.source == Some(DiceSource) || card.source == Some(TableSource), card.result)
  }

  /** The header label with the escaped header text. */
  function HeaderHtml(theme: Theme, header: string): string
  {
    "<label class=\"dice-card-title dice-log-header\" style=\"" + HeaderStyle(theme)
    + "\"><span>" + EscapeHtml(header) + "</span></label>"
  }

  /** Everything between the card's opening and its footer. */
  function CardMiddle(card: ResultCard): string
  {
    ThemeClass(card.source) + "\" data-result-id=\"" + card.id + "\">"
    + "\n      " + HeaderHtml(SourceTheme(card.source), card.header)
    + "\n      " + ContentHtml(card.content)
    + "\n      "
  }

  /** The block between the template's padding. */
  function CardBlock(card: ResultCard): string
  {
    CardOpen + (CardMiddle(card) + (CardFooter(card) + CardClose))
  }

  /** `renderResultCardHtml`: the template, trimmed. Trimming removes
      exactly the template's padding, so the output opens the card div and
      ends with the footer and the card's closing tag. */
  function RenderResultCardHtml(card: ResultCard): (html: string)
    ensures html == CardBlock(card)
    ensures StartsWith(html, CardOpen)
    ensures EndsWith(html, CardFooter(card) + CardClose)
  {
    EndsInClose(CardFooter(card));
    TrimBlock(CardMiddle(card), CardFooter(card) + CardClose);
    Trim("\n    " + CardBlock(card) + "\n  ")
  }

  lemma EndsInClose(x: string)
    ensures var s := x + CardClose; s != [] && s[|s| - 1] == '>'
  {
  }

  lemma TrimBlock(middle: string, back: string)
    requires back != [] && back[|back| - 1] == '>'
    ensures var b := CardOpen + (middle + back);
      Trim("\n    " + b + "\n  ") == b && StartsWith(b, CardOpen) && EndsWith(b, back)
  {
    var b := CardOpen + (middle + back);
    PrefixAndSuffix(CardOpen, middle, back);
    assert b[0] == CardOpen[0] == "<div class=\"dice-card "[0] == '<';
    assert b[|b| - 1] == back[|back| - 1] == '>';
    assert !IsSpace('<') && !IsSpace('>');
    assert AllSpace("\n    ") && AllSpace("\n  ");
    TrimPadded("\n    ", b, "\n  ");
  }

  /** The footer of the rendered card carries the "Result:" label exactly
      when the source is not "interpretation", a colour exactly when
      `meta.resultColor` is set, bold exactly for dice and table results,
      and the result itself. */
  lemma RenderedFooter(card: ResultCard)
    requires card.meta.resultColor.Some? ==> '"' !in card.meta.resultColor.value
    ensures ReadFooter(CardFooter(card)) == Some(FooterView(
      card.source != Some(InterpretationSource), ResultColor(card.meta),
      card.source == Some(DiceSource) || card.source == Some(TableSource), card.result))
  {
    ReadFooterOf(
      card.source != Some(InterpretationSource), ResultColor(card.meta),
      card.source == Some(DiceSource) || card.source == Some(TableSource), card.result);
  }
}
