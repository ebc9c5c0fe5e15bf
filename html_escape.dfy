/** HTML escaping shared by the result-card renderers and the interpret
    button: five global replacements, ampersand first, and a decoder that
    reads the escaped text back. */
module HtmlEscape {
  import opened Text

  /** `s.replace(/c/g, r)` for a one-character pattern. */
  function ReplaceAll(s: string, c: char, r: string): string
  {
    if s == [] then [] else (if s[0] == c then r else [s[0]]) + ReplaceAll(s[1..], c, r)
  }

  lemma {:induction false} ReplaceAllAppend(a: string, b: string, c: char, r: string)
    ensures ReplaceAll(a + b, c, r) == ReplaceAll(a, c, r) + ReplaceAll(b, c, r)
  {
    if a == [] {
      assert a + b == b;
    } else {
      assert (a + b)[1..] == a[1..] + b;
      ReplaceAllAppend(a[1..], b, c, r);
    }
  }

  lemma {:induction false} ReplaceAllAbsent(s: string, c: char, r: string)
    requires c !in s
    ensures ReplaceAll(s, c, r) == s
  {
    if s != [] {
      assert c !in s[1..];
      ReplaceAllAbsent(s[1..], c, r);
    }
  }

  /** The five replacements of `escapeHtml`, in their order. */
  function Replacements(s: string): string
  {
    ReplaceAll(ReplaceAll(ReplaceAll(ReplaceAll(ReplaceAll(s, '&', "&amp;"), '<', "&lt;"), '>', "&gt;"), '"', "&quot;"), '\'', "&#39;")
  }

  /** `escapeHtml`: empty text gives "", anything else goes through the
      replacements. The result is the text escaped character by character
      (nothing is escaped twice), holds no raw `<`, `>`, `"` or `'`, and is
      empty exactly when the text is. */
  function EscapeHtml(text: string): (r: string)
    ensures r == EscapeEach(text)
    ensures Plain(r)
    ensures text == [] <==> r == []
  {
    if text == [] then []
    else
      ReplacementsPerChar(text);
      EscapeEachPlain(text);
      assert EscapeEach(text) == EscapeChar(text[0]) + EscapeEach(text[1..]);
      Replacements(text)
  }

  /** What one character escapes to. */
  function EscapeChar(c: char): string
  {
    match c
    case '&' => "&amp;"
    case '<' => "&lt;"
    case '>' => "&gt;"
    case '"' => "&quot;"
    case '\'' => "&#39;"
    case _ => [c]
  }

  /** Escaping character by character, in one pass. */
  function EscapeEach(s: string): string
  {
    if s == [] then [] else EscapeChar(s[0]) + EscapeEach(s[1..])
  }

  lemma ReplacementsAppend(a: string, b: string)
    ensures Replacements(a + b) == Replacements(a) + Replacements(b)
  {
    var r1a, r1b := ReplaceAll(a, '&', "&amp;"), ReplaceAll(b, '&', "&amp;");
    ReplaceAllAppend(a, b, '&', "&amp;");
    var r2a, r2b := ReplaceAll(r1a, '<', "&lt;"), ReplaceAll(r1b, '<', "&lt;");
    ReplaceAllAppend(r1a, r1b, '<', "&lt;");
    var r3a, r3b := ReplaceAll(r2a, '>', "&gt;"), ReplaceAll(r2b, '>', "&gt;");
    ReplaceAllAppend(r2a, r2b, '>', "&gt;");
    var r4a, r4b := ReplaceAll(r3a, '"', "&quot;"), ReplaceAll(r3b, '"', "&quot;");
    ReplaceAllAppend(r3a, r3b, '"', "&quot;");
    ReplaceAllAppend(r4a, r4b, '\'', "&#39;");
  }

  lemma ReplaceAllOne(c: char, x: char, r: string)
    ensures ReplaceAll([c], x, r) == if c == x then r else [c]
  {
    assert [c][1..] == [];
  }

  /** The replacements after the first leave `&amp;` alone. */
  lemma ReplacementsOfAmp()
    ensures Replacements("&") == "&amp;"
  {
    var e := "&amp;";
    ReplaceAllOne('&', '&', e);
    AmpHasNoSpecial();
    ReplaceAllAbsent(e, '<', "&lt;");
    ReplaceAllAbsent(e, '>', "&gt;");
    ReplaceAllAbsent(e, '"', "&quot;");
    ReplaceAllAbsent(e, '\'', "&#39;");
  }

  lemma AmpHasNoSpecial()
    ensures forall c :: IsSpecial(c) ==> c !in "&amp;"
  {
  }

  lemma ReplacementsOfLt()
    ensures Replacements("<") == "&lt;"
  {
    ReplaceAllOne('<', '&', "&amp;");
    ReplaceAllOne('<', '<', "&lt;");
    LtHasNoLaterSpecial();
    ReplaceAllAbsent("&lt;", '>', "&gt;");
    ReplaceAllAbsent("&lt;", '"', "&quot;");
    ReplaceAllAbsent("&lt;", '\'', "&#39;");
  }

  lemma LtHasNoLaterSpecial()
    ensures '>' !in "&lt;" && '"' !in "&lt;" && '\'' !in "&lt;"
  {
  }

  lemma ReplacementsOfGt()
    ensures Replacements(">") == "&gt;"
  {
    ReplaceAllOne('>', '&', "&amp;");
    ReplaceAllOne('>', '<', "&lt;");
    ReplaceAllOne('>', '>', "&gt;");
    GtHasNoLaterSpecial();
    ReplaceAllAbsent("&gt;", '"', "&quot;");
    ReplaceAllAbsent("&gt;", '\'', "&#39;");
  }

  lemma GtHasNoLaterSpecial()
    ensures '"' !in "&gt;" && '\'' !in "&gt;"
  {
  }

  lemma ReplacementsOfQuot()
    ensures Replacements("\"") == "&quot;"
  {
    ReplaceAllOne('"', '&', "&amp;");
    ReplaceAllOne('"', '<', "&lt;");
    ReplaceAllOne('"', '>', "&gt;");
    ReplaceAllOne('"', '"', "&quot;");
    QuotHasNoApostrophe();
    ReplaceAllAbsent("&quot;", '\'', "&#39;");
  }

  lemma QuotHasNoApostrophe()
    ensures '\'' !in "&quot;"
  {
  }

  lemma ReplacementsOfApos()
    ensures Replacements("'") == "&#39;"
  {
    ReplaceAllOne('\'', '&', "&amp;");
    ReplaceAllOne('\'', '<', "&lt;");
    ReplaceAllOne('\'', '>', "&gt;");
    ReplaceAllOne('\'', '"', "&quot;");
    ReplaceAllOne('\'', '\'', "&#39;");
  }

  lemma ReplacementsOfPlain(c: char)
    requires c != '&' && !IsSpecial(c)
    ensures Replacements([c]) == [c]
  {
    ReplaceAllOne(c, '&', "&amp;");
    ReplaceAllOne(c, '<', "&lt;");
    ReplaceAllOne(c, '>', "&gt;");
    ReplaceAllOne(c, '"', "&quot;");
    ReplaceAllOne(c, '\'', "&#39;");
  }

  /** On a single character the replacements give its entity: a later
      replacement never touches the entity an earlier one produced. */
  lemma ReplacementsOfChar(c: char)
    ensures Replacements([c]) == EscapeChar(c)
  {
    if c == '&' {
      ReplacementsOfAmp();
    } else if c == '<' {
      ReplacementsOfLt();
    } else if c == '>' {
      ReplacementsOfGt();
    } else if c == '"' {
      ReplacementsOfQuot();
    } else if c == '\'' {
      ReplacementsOfApos();
    } else {
      ReplacementsOfPlain(c);
    }
  }

  /** Because `&` is replaced first, the chain of replacements escapes each
      character on its own: no entity is escaped twice. */
  lemma {:induction false} ReplacementsPerChar(s: string)
    ensures Replacements(s) == EscapeEach(s)
  {
    if s != [] {
      ReplacementsPerChar(s[1..]);
      assert s == [s[0]] + s[1..];
      ReplacementsAppend([s[0]], s[1..]);
      ReplacementsOfChar(s[0]);
    }
  }

  predicate IsSpecial(c: char)
  {
    c == '<' || c == '>' || c == '"' || c == '\''
  }

  /** No raw `<`, `>`, `"` or `'`. */
  predicate Plain(s: string)
  {
    '<' !in s && '>' !in s && '"' !in s && '\'' !in s
  }

  lemma {:induction false} EscapeEachPlain(s: string)
    ensures Plain(EscapeEach(s))
  {
    if s != [] {
      EscapeEachPlain(s[1..]);
      var e := EscapeChar(s[0]);
      assert Plain(e);
    }
  }

  /** Reads escaped text back: the five entities become their characters
      and, when `breaks` is set, `<br/>` becomes a line break. */
  function Unescape(s: string, breaks: bool): string
    decreases |s|
  {
    if s == [] then []
    else
      var (c, n) := Decode(s, breaks);
      [c] + Unescape(s[n..], breaks)
  }

  /** The character at the front of escaped text and how many characters
      spell it. */
  function Decode(s: string, breaks: bool): (r: (char, nat))
    requires s != []
    ensures 1 <= r.1 <= |s|
  {
    if breaks && StartsWith(s, "<br/>") then ('\n', 5)
    else if StartsWith(s, "&amp;") then ('&', 5)
    else if StartsWith(s, "&lt;") then ('<', 4)
    else if StartsWith(s, "&gt;") then ('>', 4)
    else if StartsWith(s, "&quot;") then ('"', 6)
    else if StartsWith(s, "&#39;") then ('\'', 5)
    else (s[0], 1)
  }

  /** What one character becomes when line breaks are also turned into
      `<br/>`. */
  function EscapeCharBr(c: char): string
  {
    if c == '\n' then "<br/>" else EscapeChar(c)
  }

  function EscapeEachBr(s: string): string
  {
    if s == [] then [] else EscapeCharBr(s[0]) + EscapeEachBr(s[1..])
  }

  /** A piece at the front that decodes to `c` reads back as `c`. */
  lemma UnescapeFront(e: string, c: char, rest: string, breaks: bool)
    requires e != [] && Decode(e + rest, breaks) == (c, |e|)
    ensures Unescape(e + rest, breaks) == [c] + Unescape(rest, breaks)
  {
    Consume(e, rest);
  }

  /** Text that differs from `p` at index `i` does not start with `p`. */
  lemma DiffersAt(s: string, p: string, i: nat)
    requires i < |p| && i < |s| && s[i] != p[i]
    ensures !StartsWith(s, p)
  {
    if |p| <= |s| {
      assert s[..|p|][i] != p[i];
    }
  }

  lemma DecodeAmp(rest: string, breaks: bool)
    ensures Decode("&amp;" + rest, breaks) == ('&', 5)
  {
    var s := "&amp;" + rest;
    Consume("&amp;", rest);
    DiffersAt(s, "<br/>", 0);
  }

  lemma DecodeLt(rest: string, breaks: bool)
    ensures Decode("&lt;" + rest, breaks) == ('<', 4)
  {
    var s := "&lt;" + rest;
    Consume("&lt;", rest);
    DiffersAt(s, "<br/>", 0);
    DiffersAt(s, "&amp;", 1);
  }

  lemma DecodeGt(rest: string, breaks: bool)
    ensures Decode("&gt;" + rest, breaks) == ('>', 4)
  {
    var s := "&gt;" + rest;
    Consume("&gt;", rest);
    DiffersAt(s, "<br/>", 0);
    DiffersAt(s, "&amp;", 1);
    DiffersAt(s, "&lt;", 1);
  }

  lemma DecodeQuot(rest: string, breaks: bool)
    ensures Decode("&quot;" + rest, breaks) == ('"', 6)
  {
    var s := "&quot;" + rest;
    Consume("&quot;", rest);
    DiffersAt(s, "<br/>", 0);
    DiffersAt(s, "&amp;", 1);
    DiffersAt(s, "&lt;", 1);
    DiffersAt(s, "&gt;", 1);
  }

  lemma DecodeApos(rest: string, breaks: bool)
    ensures Decode("&#39;" + rest, breaks) == ('\'', 5)
  {
    var s := "&#39;" + rest;
    Consume("&#39;", rest);
    DiffersAt(s, "<br/>", 0);
    DiffersAt(s, "&amp;", 1);
    DiffersAt(s, "&lt;", 1);
    DiffersAt(s, "&gt;", 1);
    DiffersAt(s, "&quot;", 1);
  }

  lemma DecodeBreak(rest: string)
    ensures Decode("<br/>" + rest, true) == ('\n', 5)
  {
    Consume("<br/>", rest);
  }

  /** A character that is not escaped reads back as itself. */
  lemma DecodePlain(c: char, rest: string, breaks: bool)
    requires c != '&' && !(breaks && c == '<')
    ensures Decode([c] + rest, breaks) == (c, 1)
  {
    var s := [c] + rest;
    assert s[0] == c;
    if breaks {
      DiffersAt(s, "<br/>", 0);
    }
    DiffersAt(s, "&amp;", 0);
    DiffersAt(s, "&lt;", 0);
    DiffersAt(s, "&gt;", 0);
    DiffersAt(s, "&quot;", 0);
    DiffersAt(s, "&#39;", 0);
  }

  lemma UnescapeStep(c: char, rest: string, breaks: bool)
    ensures Unescape((if breaks then EscapeCharBr(c) else EscapeChar(c)) + rest, breaks) == [c] + Unescape(rest, breaks)
  {
    var e := if breaks then EscapeCharBr(c) else EscapeChar(c);
    if breaks && c == '\n' {
      assert e == "<br/>";
      DecodeBreak(rest);
    } else if c == '&' {
      assert e == "&amp;";
      DecodeAmp(rest, breaks);
    } else if c == '<' {
      assert e == "&lt;";
      DecodeLt(rest, breaks);
    } else if c == '>' {
      assert e == "&gt;";
      DecodeGt(rest, breaks);
    } else if c == '"' {
      assert e == "&quot;";
      DecodeQuot(rest, breaks);
    } else if c == '\'' {
      assert e == "&#39;";
      DecodeApos(rest, breaks);
    } else {
      assert e == [c];
      DecodePlain(c, rest, breaks);
    }
    UnescapeFront(e, c, rest, breaks);
  }

  lemma {:induction false} UnescapeEach(s: string)
    ensures Unescape(EscapeEach(s), false) == s
  {
    if s != [] {
      UnescapeEach(s[1..]);
      UnescapeStep(s[0], EscapeEach(s[1..]), false);
      assert s == [s[0]] + s[1..];
    }
  }

  lemma {:induction false} UnescapeEachBr(s: string)
    ensures Unescape(EscapeEachBr(s), true) == s
  {
    if s != [] {
      UnescapeEachBr(s[1..]);
      UnescapeStep(s[0], EscapeEachBr(s[1..]), true);
      assert s == [s[0]] + s[1..];
    }
  }

  /** Escaping loses nothing: the escaped text reads back as the original. */
  lemma EscapeHtmlRoundTrip(s: string)
    ensures Unescape(EscapeHtml(s), false) == s
  {
    UnescapeEach(s);
  }

  lemma {:induction false} BreaksOfEscaped(s: string)
    ensures ReplaceAll(EscapeEach(s), '\n', "<br/>") == EscapeEachBr(s)
  {
    if s != [] {
      BreaksOfEscaped(s[1..]);
      ReplaceAllAppend(EscapeChar(s[0]), EscapeEach(s[1..]), '\n', "<br/>");
      if s[0] == '\n' {
        ReplaceAllOne('\n', '\n', "<br/>");
      } else {
        ReplaceAllAbsent(EscapeChar(s[0]), '\n', "<br/>");
      }
    }
  }

  /** Escaping and then turning line breaks into `<br/>` reads back as the
      original text, line breaks included. */
  lemma EscapeWithBreaksRoundTrip(s: string)
    ensures Unescape(ReplaceAll(EscapeHtml(s), '\n', "<br/>"), true) == s
  {
    BreaksOfEscaped(s);
    UnescapeEachBr(s);
  }
}
