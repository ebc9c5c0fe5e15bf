/** The table-creator server's batch endpoint: it picks the API key from
    the request headers, fills in defaults for the requested table, builds
    one chat-completion request, and turns the model's answer into a list
    of table entries through a chain of ever looser readings (a JSON array,
    the first bracketed span, then one entry per line). The HTTP plumbing,
    the network call, base64 and JSON decoding and the system prompt's
    prose are parameters. */
module BatchGenerate {
  import opened Wrappers
  import opened Text

  // ---------------------------------------------------------------------
  // Python string helpers

  /** The characters Python's `str.strip()` removes. */
  const PyWhitespace: set<char> := {
    '\t', '\n', '\U{000B}', '\U{000C}', '\r', '\U{001C}', '\U{001D}', '\U{001E}',
    '\U{001F}', ' ', '\U{0085}', '\U{00A0}', '\U{1680}', '\U{2000}', '\U{2001}',
    '\U{2002}', '\U{2003}', '\U{2004}', '\U{2005}', '\U{2006}', '\U{2007}',
    '\U{2008}', '\U{2009}', '\U{200A}', '\U{2028}', '\U{2029}', '\U{202F}',
    '\U{205F}', '\U{3000}'}

  /** The characters of `cs` removed from the front of `s`. */
  function StripStart(s: string, cs: set<char>): (r: string)
    ensures |r| <= |s| && r == s[|s| - |r|..]
    ensures forall i :: 0 <= i < |s| - |r| ==> s[i] in cs
    ensures r == [] || r[0] !in cs
  {
    if s == [] || s[0] !in cs then s
    else
      var r := StripStart(s[1..], cs);
      assert s[1..][|s| - 1 - |r|..] == s[|s| - |r|..];
      r
  }

  /** The characters of `cs` removed from the back of `s`. */
  function StripEnd(s: string, cs: set<char>): (r: string)
    ensures |r| <= |s| && r == s[..|r|]
    ensures forall i :: |r| <= i < |s| ==> s[i] in cs
    ensures r == [] || r[|r| - 1] !in cs
  {
    if s == [] || s[|s| - 1] !in cs then s
    else
      var r := StripEnd(s[..|s| - 1], cs);
      assert s[..|s| - 1][..|r|] == s[..|r|];
      r
  }

  /** `s.strip(chars)`; with `PyWhitespace`, `s.strip()`. */
  function Strip(s: string, cs: set<char>): (r: string)
    ensures |r| <= |s|
  {
    StripEnd(StripStart(s, cs), cs)
  }

  /** A stripped string neither starts nor ends with a stripped character,
      and is a piece of the original; stripping twice changes nothing. */
  lemma StripRules(s: string, cs: set<char>)
    ensures var r := Strip(s, cs);
      (r == [] || (r[0] !in cs && r[|r| - 1] !in cs)) &&
      Contains(s, r) &&
      Strip(r, cs) == r
  {
    var t := StripStart(s, cs);
    var r := StripEnd(t, cs);
    var a := |s| - |t|;
    assert StartsWith(s[a..], r);
    if r != [] {
      assert r[0] == t[0];
    }
  }

  /** `xs[:n]` in Python: a negative `n` counts from the end. */
  function PyTake<T>(xs: seq<T>, n: int): (r: seq<T>)
    ensures |r| <= |xs| && r == xs[..|r|]
    ensures n >= 0 ==> |r| == (if n <= |xs| then n else |xs|)
    ensures n < 0 ==> |r| == (if |xs| + n >= 0 then |xs| + n else 0)
  {
    if n >= 0 then (if n <= |xs| then xs[..n] else xs)
    else if |xs| + n >= 0 then xs[..|xs| + n]
    else []
  }

  // ---------------------------------------------------------------------
  // The API key

  /** The key: the `X-API-Key-Encoded` header decoded, else `X-API-Key`;
      an absent or empty header does not count. A failed decode ends the
      request like every other unexpected exception. */
  function ApiKey(encoded: Option<string>, regular: Option<string>, decode: string -> Result<string, string>): (r: Result<string, string>)
  {
    if encoded.Some? && encoded.value != [] then
      (match decode(encoded.value)
       case Ok(key) => Ok(key)
       case Err(e) => Err("Batch generation failed: " + e))
    else if regular.Some? && regular.value != [] then Ok(regular.value)
    else Err("API key required")
  }

  /** The encoded header wins over the plain one, and only a request with
      neither is refused for a missing key. */
  lemma ApiKeyRules(encoded: Option<string>, regular: Option<string>, decode: string -> Result<string, string>)
    ensures var r := ApiKey(encoded, regular, decode);
      (r == Err("API key required") <==> (encoded.None? || encoded.value == []) && (regular.None? || regular.value == [])) &&
      (encoded.Some? && encoded.value != [] && decode(encoded.value).Ok? ==> r == Ok(decode(encoded.value).value)) &&
      ((encoded.None? || encoded.value == []) && regular.Some? && regular.value != [] ==> r == Ok(regular.value))
  {
    var r := ApiKey(encoded, regular, decode);
    if encoded.Some? && encoded.value != [] && decode(encoded.value).Err? {
      var e := decode(encoded.value).error;
      assert r.error == "Batch generation failed: " + e;
      assert r.error[0] == 'B';
    }
  }

  // ---------------------------------------------------------------------
  // Defaults

  /** The request's `domain_context`; each field may be missing. */
  datatype DomainContext = DomainContext(name: Option<string>, kind: Option<string>, description: Option<string>)

  /** The JSON body of the request; a missing key is `None`. */
  datatype BatchRequest = BatchRequest(
    tableType: Option<string>,
    tableName: Option<string>,
    model: Option<string>,
    domainContext: Option<DomainContext>,
    numEntries: Option<int>,
    genre: Option<string>)

  const Genres: set<string> := {"dark-fantasy", "fantasy", "sci-fi", "starforged"}

  const TableTypes: set<string> := {"objective", "atmosphere", "manifestation", "location", "discovery", "bane", "boon"}

  /** The genre whose style the prompt uses. */
  function GenreKey(genre: Option<string>): (g: string)
    ensures g in Genres
    ensures genre.Some? && genre.value in Genres ==> g == genre.value
    ensures genre.None? || genre.value !in Genres ==> g == "dark-fantasy"
  {
    var requested := genre.GetOr("dark-fantasy");
    if requested in Genres then requested else "dark-fantasy"
  }

  /** The table type whose rules the prompt uses. */
  function RulesKey(tableType: Option<string>): (t: string)
    ensures t in TableTypes
    ensures tableType.Some? && tableType.value in TableTypes ==> t == tableType.value
    ensures tableType.None? || tableType.value !in TableTypes ==> t == "atmosphere"
  {
    if tableType.Some? && tableType.value in TableTypes then tableType.value else "atmosphere"
  }

  /** The length each entry should have, by table type. */
  function WordCount(rulesKey: string): string
  {
    if rulesKey == "objective" then "6-10 words" else "4-10 words"
  }

  /** What the prompts are built from, once the defaults are filled in. */
  datatype PromptFacts = PromptFacts(
    genre: string,
    rules: string,
    contextName: string,
    contextType: string,
    contextDescription: string,
    numEntries: int,
    tableType: Option<string>)

  /** The defaults: model gpt-3.5-turbo, 10 entries, the dark-fantasy
      style, the atmosphere rules, and a context named 'Unknown' of type
      'concept' with no description. */
  function Facts(data: BatchRequest): (f: PromptFacts)
    ensures f.genre == GenreKey(data.genre) && f.rules == RulesKey(data.tableType)
    ensures f.numEntries == data.numEntries.GetOr(10)
    ensures data.domainContext.None? ==> f.contextName == "Unknown" && f.contextType == "concept" && f.contextDescription == ""
    ensures data.domainContext.Some? ==>
      f.contextName == data.domainContext.value.name.GetOr("Unknown") &&
      f.contextType == data.domainContext.value.kind.GetOr("concept") &&
      f.contextDescription == data.domainContext.value.description.GetOr("")
  {
    var context := data.domainContext.GetOr(DomainContext(None, None, None));
    PromptFacts(
      GenreKey(data.genre),
      RulesKey(data.tableType),
      context.name.GetOr("Unknown"),
      context.kind.GetOr("concept"),
      context.description.GetOr(""),
      data.numEntries.GetOr(10),
      data.tableType)
  }

  // ---------------------------------------------------------------------
  // The chat request

  datatype Message = Message(role: string, content: string)

  /** The model-specific limits of the request. */
  datatype Limits =
    | ReasoningLimits(maxCompletionTokens: int, reasoningEffort: string)
    | SampledLimits(maxTokens: int, temperature: real)

  datatype ChatRequest = ChatRequest(model: string, messages: seq<Message>, limits: Limits)

  /** The user message; Python prints a missing table type as `None`. */
  function UserPrompt(f: PromptFacts): string
  {
    "Generate " + IntToString(f.numEntries) + " " + f.tableType.GetOr("None") +
    " entries for the " + f.contextType + " '" + f.contextName + "'."
  }

  /** The request: a system message then a user message; gpt-5 gets a
      completion-token budget and minimal reasoning, every other model a
      token budget and temperature 0.9. */
  function BuildRequest(data: BatchRequest, systemPrompt: PromptFacts -> string): (r: ChatRequest)
    ensures r.model == data.model.GetOr("gpt-3.5-turbo")
    ensures |r.messages| == 2 && r.messages[0].role == "system" && r.messages[1].role == "user"
    ensures r.messages[0].content == systemPrompt(Facts(data))
    ensures r.model == "gpt-5" <==> r.limits == ReasoningLimits(3000, "minimal")
    ensures r.model != "gpt-5" <==> r.limits == SampledLimits(2000, 0.9)
  {
    var f := Facts(data);
    var model := data.model.GetOr("gpt-3.5-turbo");
    var messages := [Message("system", systemPrompt(f)), Message("user", UserPrompt(f))];
    var limits := if model == "gpt-5" then ReasoningLimits(3000, "minimal") else SampledLimits(2000, 0.9);
    ChatRequest(model, messages, limits)
  }

  /** The user message names the count, the table type as requested and
      the context, whatever the defaults did to the rules. */
  lemma UserPromptNamesRequest(data: BatchRequest, systemPrompt: PromptFacts -> string)
    ensures var f := Facts(data);
      BuildRequest(data, systemPrompt).messages[1].content ==
        "Generate " + IntToString(data.numEntries.GetOr(10)) + " " + data.tableType.GetOr("None") +
        " entries for the " + f.contextType + " '" + f.contextName + "'."
  {
  }

  // ---------------------------------------------------------------------
  // Reading the answer

  /** A decoded JSON value, as far as the endpoint looks at it. */
  datatype Json = JArray(items: seq<Json>) | JString(text: string) | JOther

  /** What the endpoint writes back. */
  datatype Reply = Results(items: seq<Json>) | ErrorReply(error: string)

  /** The fences removed in order: a leading ```` ```json ````, then a
      leading ```` ``` ````, then a trailing ```` ``` ````, then
      surrounding whitespace. */
  function StripFences(content: string): string
  {
    var a := if StartsWith(content, "```json") then content[7..] else content;
    var b := if StartsWith(a, "```") then a[3..] else a;
    var c := if EndsWith(b, "```") then b[..|b| - 3] else b;
    Strip(c, PyWhitespace)
  }

  /** A body fenced as a JSON block comes back as the body, stripped. */
  lemma StripFencesOfBlock(body: string)
    requires body == [] || body[0] != '`'
    ensures StripFences("```json" + body + "```") == Strip(body, PyWhitespace)
  {
    var s := "```json" + body + "```";
    assert StartsWith(s, "```json");
    var a := s[7..];
    assert a == body + "```";
    if body == [] {
      assert StartsWith(a, "```");
      assert a[3..] == [];
    } else {
      assert a[0] == body[0];
      assert !StartsWith(a, "```");
      assert EndsWith(a, "```");
      assert a[..|a| - 3] == body;
    }
  }

  /** Text without backticks at either end is only stripped. */
  lemma StripFencesOfPlain(content: string)
    requires content == [] || (content[0] != '`' && content[|content| - 1] != '`')
    ensures StripFences(content) == Strip(content, PyWhitespace)
  {
    Unfenced(content);
  }

  lemma Unfenced(content: string)
    requires content == [] || (content[0] != '`' && content[|content| - 1] != '`')
    ensures !StartsWith(content, "```json") && !StartsWith(content, "```") && !EndsWith(content, "```")
  {
    if content != [] {
      assert content[0] != "```"[0];
    }
  }

  /** What `\[.*?\]` matches with `re.DOTALL`: from the first `[` to the
      first `]` after it. */
  function BracketMatch(s: string): (m: Option<string>)
    ensures m.Some? ==> (|m.value| >= 2 && m.value[0] == '[' && m.value[|m.value| - 1] == ']' &&
      ']' !in m.value[1..|m.value| - 1] && Contains(s, m.value))
    ensures m.None? <==> '[' !in s || ']' !in s[IndexOf(s, '[') + 1..]
  {
    if '[' !in s then None
    else
      var i := IndexOf(s, '[');
      var rest := s[i + 1..];
      if ']' !in rest then None
      else
        var j := IndexOf(rest, ']');
        var m := s[i..i + j + 2];
        assert m == ['['] + rest[..j] + [']'];
        assert m[1..|m| - 1] == rest[..j];
        assert StartsWith(s[i..], m);
        Some(m)
  }

  /** The characters the line fallback strips from each line. */
  const Punctuation: set<char> := {'"', '-', ','}

  /** A line the fallback keeps: not empty and not starting with `[`, `]`
      or `{`. */
  predicate Entry(line: string)
  {
    line != [] && line[0] != '[' && line[0] != ']' && line[0] != '{'
  }

  /** A line as the fallback cleans it: whitespace stripped, then quotes,
      dashes and commas. */
  function Cleaned(line: string): string
  {
    Strip(Strip(line, PyWhitespace), Punctuation)
  }

  /** The fallback readings of the lines: each non-blank line cleaned,
      keeping the entries. */
  function LineEntries(lines: seq<string>): (entries: seq<string>)
    ensures |entries| <= |lines|
  {
    if lines == [] then []
    else
      (if Strip(lines[0], PyWhitespace) != [] && Entry(Cleaned(lines[0])) then [Cleaned(lines[0])] else []) + LineEntries(lines[1..])
  }

  /** A fallback entry: kept, with no quote, dash or comma at either end. */
  predicate CleanEntry(e: string)
  {
    Entry(e) && e[0] !in Punctuation && e[|e| - 1] !in Punctuation
  }

  lemma CleanedLine(line: string)
    ensures Entry(Cleaned(line)) ==> CleanEntry(Cleaned(line))
  {
    StripRules(Strip(line, PyWhitespace), Punctuation);
  }

  /** Every fallback entry is clean. */
  lemma {:induction false} LineEntriesClean(lines: seq<string>)
    ensures forall k :: 0 <= k < |LineEntries(lines)| ==> CleanEntry(LineEntries(lines)[k])
  {
    if lines != [] {
      LineEntriesClean(lines[1..]);
      CleanedLine(lines[0]);
      var head := if Strip(lines[0], PyWhitespace) != [] && Entry(Cleaned(lines[0])) then [Cleaned(lines[0])] else [];
      var rest := LineEntries(lines[1..]);
      assert LineEntries(lines) == head + rest;
      AllClean(head, rest);
    }
  }

  lemma AllClean(head: seq<string>, rest: seq<string>)
    requires forall k :: 0 <= k < |head| ==> CleanEntry(head[k])
    requires forall k :: 0 <= k < |rest| ==> CleanEntry(rest[k])
    ensures forall k :: 0 <= k < |head + rest| ==> CleanEntry((head + rest)[k])
  {
    forall k | 0 <= k < |head + rest| ensures CleanEntry((head + rest)[k]) {
      if k >= |head| {
        assert (head + rest)[k] == rest[k - |head|];
      }
    }
  }

  /** Stripping leaves a string that already has no stripped character
      at either end as it is. */
  lemma StripUnchanged(s: string, cs: set<char>)
    requires s == [] || (s[0] !in cs && s[|s| - 1] !in cs)
    ensures Strip(s, cs) == s
  {
  }

  /** Only the quote, dash and comma characters are stripped after the
      whitespace: a bulleted line such as "- item one" keeps the space after
      its dash, giving " item one". */
  lemma BulletKeepsSpace(rest: string)
    requires rest != [] && rest[0] == ' '
    requires rest[|rest| - 1] !in PyWhitespace && rest[|rest| - 1] !in Punctuation
    ensures LineEntries(["-" + rest]) == [rest]
  {
    BulletCleaned(rest);
    BulletUnstripped(rest);
    LineKept("-" + rest, rest);
  }

  lemma BulletCleaned(rest: string)
    requires rest != [] && rest[0] == ' '
    requires rest[|rest| - 1] !in PyWhitespace && rest[|rest| - 1] !in Punctuation
    ensures Cleaned("-" + rest) == rest
  {
    DashNotWhitespace();
    StripBullet(rest, PyWhitespace, Punctuation);
  }

  lemma BulletUnstripped(rest: string)
    requires rest != [] && rest[0] == ' '
    requires rest[|rest| - 1] !in PyWhitespace && rest[|rest| - 1] !in Punctuation
    ensures Strip("-" + rest, PyWhitespace) != []
  {
    DashNotWhitespace();
    StripBullet(rest, PyWhitespace, Punctuation);
  }

  lemma DashNotWhitespace()
    ensures '-' !in PyWhitespace && '-' in Punctuation && ' ' !in Punctuation
  {
  }

  /** A leading dash that is stripped by one set and not by the other. */
  lemma StripBullet(rest: string, ws: set<char>, ps: set<char>)
    requires rest != [] && rest[0] !in ps && '-' !in ws && '-' in ps
    requires rest[|rest| - 1] !in ws && rest[|rest| - 1] !in ps
    ensures Strip("-" + rest, ws) == "-" + rest
    ensures Strip("-" + rest, ps) == rest
  {
    var line := "-" + rest;
    assert line[0] == '-' && line[|line| - 1] == rest[|rest| - 1] && line[1..] == rest;
    StripUnchanged(line, ws);
    StripUnchanged(rest, ps);
  }

  lemma LineKept(line: string, entry: string)
    requires Strip(line, PyWhitespace) != [] && Cleaned(line) == entry && Entry(entry)
    ensures LineEntries([line]) == [entry]
  {
    assert [line][1..] == [];
  }

  /** The error text: the cleaned answer's first 500 characters between a
      fixed head and `...`. */
  function ParseError(cleaned: string): string
  {
    "Could not parse AI response: " + PyTake(cleaned, 500) + "..."
  }

  /** The error text starts with its head, ends with `...` and is at most
      500 characters longer than both. */
  lemma ParseErrorShape(cleaned: string)
    ensures var e := ParseError(cleaned);
      StartsWith(e, "Could not parse AI response: ") && EndsWith(e, "...") && |e| <= 29 + 500 + 3
  {
    var middle := PyTake(cleaned, 500);
    assert ParseError(cleaned) == "Could not parse AI response: " + (middle + "...");
    PrefixAndSuffix("Could not parse AI response: ", middle, "...");
  }

  /** The parsing chain, run on the cleaned answer. `parse` is `json.loads`,
      `None` standing for a decode error. A JSON array is taken first, then
      the first bracketed span; a success never holds more than
      `numEntries` items (for a non-negative count); the only error is the
      parse error, which quotes at most 500 characters of the answer. */
  function Coerce(cleaned: string, numEntries: int, parse: string -> Option<Json>): (reply: Reply)
    ensures parse(cleaned).Some? && parse(cleaned).value.JArray? ==>
      reply == Results(PyTake(parse(cleaned).value.items, numEntries))
    ensures (!(parse(cleaned).Some? && parse(cleaned).value.JArray?) && BracketMatch(cleaned).Some? &&
             parse(BracketMatch(cleaned).value).Some? && parse(BracketMatch(cleaned).value).value.JArray?) ==>
      reply == Results(PyTake(parse(BracketMatch(cleaned).value).value.items, numEntries))
    ensures numEntries >= 0 && reply.Results? ==> |reply.items| <= numEntries
    ensures reply.ErrorReply? ==>
      reply.error == ParseError(cleaned) && StartsWith(reply.error, "Could not parse AI response: ") &&
      EndsWith(reply.error, "...") && |reply.error| <= 29 + 500 + 3
  {
    var direct := parse(cleaned);
    if direct.Some? && direct.value.JArray? then Results(PyTake(direct.value.items, numEntries))
    else
      var span := BracketMatch(cleaned);
      if span.Some? && parse(span.value).Some? && parse(span.value).value.JArray? then
        Results(PyTake(parse(span.value).value.items, numEntries))
      else
        var entries := PyTake(LineEntries(Split(cleaned, '\n')), numEntries);
        if entries != [] then Results(seq(|entries|, k requires 0 <= k < |entries| => JString(entries[k])))
        else
          ParseErrorShape(cleaned);
          ErrorReply(ParseError(cleaned))
  }

  /** When neither the whole answer nor its first bracketed span (if any)
      decodes to an array, the entries are the fallback lines, in order, as
      strings. */
  lemma CoerceByLines(cleaned: string, numEntries: int, parse: string -> Option<Json>)
    requires !(parse(cleaned).Some? && parse(cleaned).value.JArray?)
    requires !(BracketMatch(cleaned).Some? && parse(BracketMatch(cleaned).value).Some?
      && parse(BracketMatch(cleaned).value).value.JArray?)
    ensures var entries := PyTake(LineEntries(Split(cleaned, '\n')), numEntries);
      var reply := Coerce(cleaned, numEntries, parse);
      (reply.Results? <==> entries != []) &&
      (reply.Results? ==> |reply.items| == |entries| && forall k :: 0 <= k < |entries| ==> reply.items[k] == JString(entries[k]))
  {
  }

  /** The first choice of the answer. */
  datatype Choice = Choice(content: string, finishReason: Option<string>)

  /** The decoded answer: its `error` object's message (when there is an
      `error` key) and its `choices` (when there is a `choices` key). */
  datatype ApiAnswer = ApiAnswer(error: Option<Option<string>>, choices: Option<seq<Choice>>)

  const TokensExhausted := "GPT-5 used all tokens for reasoning. Try reducing reasoning_effort or increasing max_completion_tokens."

  /** One choice read: blank content cut off by the token limit is its own
      error; anything else goes through the fences and the chain. */
  function ReadChoice(choice: Choice, numEntries: int, parse: string -> Option<Json>): Reply
  {
    var content := Strip(choice.content, PyWhitespace);
    var finishReason := choice.finishReason.GetOr("unknown");
    if content == [] && finishReason == "length" then ErrorReply(TokensExhausted)
    else Coerce(StripFences(content), numEntries, parse)
  }

  /** Blank content with finish reason 'length' is the token error, and no
      parsing is involved: any decoder gives the same reply. */
  lemma TokenExhaustion(choice: Choice, numEntries: int, parse: string -> Option<Json>, other: string -> Option<Json>)
    requires AllSpaceIn(choice.content, PyWhitespace) && choice.finishReason == Some("length")
    ensures ReadChoice(choice, numEntries, parse) == ErrorReply(TokensExhausted)
    ensures ReadChoice(choice, numEntries, parse) == ReadChoice(choice, numEntries, other)
  {
  }

  predicate AllSpaceIn(s: string, cs: set<char>)
  {
    forall i :: 0 <= i < |s| ==> s[i] in cs
  }

  /** The answer read: an `error` key is reported with the HTTP status, the
      first choice is read, and an answer with neither is an error of its
      own. */
  function ReadAnswer(answer: ApiAnswer, status: int, numEntries: int, parse: string -> Option<Json>): (reply: Reply)
  {
    if answer.error.Some? then
      ErrorReply("OpenAI API error " + IntToString(status) + ": " + answer.error.value.GetOr("Unknown error"))
    else if answer.choices.Some? && |answer.choices.value| > 0 then
      ReadChoice(answer.choices.value[0], numEntries, parse)
    else ErrorReply("No response from OpenAI")
  }

  /** An `error` key wins over any choices; only the first choice is
      read. */
  lemma ReadAnswerRules(answer: ApiAnswer, status: int, numEntries: int, parse: string -> Option<Json>)
    ensures var reply := ReadAnswer(answer, status, numEntries, parse);
      (answer.error.Some? ==> reply.ErrorReply? && StartsWith(reply.error, "OpenAI API error ")) &&
      (answer.error.None? && (answer.choices.None? || answer.choices.value == []) ==> reply == ErrorReply("No response from OpenAI")) &&
      (answer.error.None? && answer.choices.Some? && answer.choices.value != [] ==>
        reply == ReadChoice(answer.choices.value[0], numEntries, parse))
  {
    if answer.error.Some? {
      var head := "OpenAI API error ";
      var tail := IntToString(status) + ": " + answer.error.value.GetOr("Unknown error");
      assert ReadAnswer(answer, status, numEntries, parse).error == head + tail;
    }
  }

  // ---------------------------------------------------------------------
  // The endpoint

  /** How the call to the chat-completion service ends: an answer with its
      HTTP status, an HTTP error with its code, or another exception. */
  datatype Outcome = Answered(status: int, answer: ApiAnswer) | HttpFailure(code: int) | Raised(message: string)

  /** `handle_batch_generate_api`, from the decoded request body on:
      `send(key, request)` stands for the network call. Without a key the
      reply is the key error; with one, a success holds at most
      `num_entries` items (10 when absent). */
  function HandleBatchGenerate(
    encoded: Option<string>, regular: Option<string>, data: BatchRequest,
    decode: string -> Result<string, string>, systemPrompt: PromptFacts -> string,
    send: (string, ChatRequest) -> Outcome, parse: string -> Option<Json>): (reply: Reply)
    ensures ApiKey(encoded, regular, decode).Err? ==> reply == ErrorReply(ApiKey(encoded, regular, decode).error)
    ensures data.numEntries.GetOr(10) >= 0 && reply.Results? ==> |reply.items| <= data.numEntries.GetOr(10)
  {
    match ApiKey(encoded, regular, decode)
    case Err(e) => ErrorReply(e)
    case Ok(key) =>
      var request := BuildRequest(data, systemPrompt);
      match send(key, request)
      case HttpFailure(code) => ErrorReply("OpenAI API error: " + IntToString(code))
      case Raised(message) => ErrorReply("Batch generation failed: " + message)
      case Answered(status, answer) => ReadAnswer(answer, status, data.numEntries.GetOr(10), parse)
  }

  /** Without a key nothing is sent: the reply does not depend on the
      network call at all. */
  lemma KeylessSendsNothing(
    encoded: Option<string>, regular: Option<string>, data: BatchRequest,
    decode: string -> Result<string, string>, systemPrompt: PromptFacts -> string,
    send: (string, ChatRequest) -> Outcome, parse: string -> Option<Json>, other: (string, ChatRequest) -> Outcome)
    requires ApiKey(encoded, regular, decode).Err?
    ensures HandleBatchGenerate(encoded, regular, data, decode, systemPrompt, send, parse) ==
      HandleBatchGenerate(encoded, regular, data, decode, systemPrompt, other, parse)
  {
  }
}
