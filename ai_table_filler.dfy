/** Filling the blank rows of forged tables with generated results: the
    macro test, the count of rows to fill, the prompt that asks for exactly
    that many strings, the table kind guessed from the table's name, and
    the loop that writes the k-th generated string into the k-th blank row.
    The generated strings are a parameter (the chat-completion call and its
    JSON decoding are not part of this model). */
module AiTableFiller {
  import opened Wrappers
  import opened Text
  import opened TableForge

  datatype TableKind = Objectives | Atmosphere | Locations | Manifestations | Discoveries | Banes | Boons

  datatype TableContext = TableContext(
    name: string, contextType: string, description: string, genre: string, model: string, apiKey: string)

  datatype Prompt = Prompt(system: string, user: string)

  // ---------------------------------------------------------------------
  // Macros and blank rows

  /** The four macro texts the Table Forge writes. */
  const MacroTexts: seq<string> := [ActionTheme, DescriptorFocus, ConnectionWeb, RollTwice]

  /** `isMacro`: the text, upper-cased and trimmed, is one of the four macro
      texts. */
  predicate IsMacro(text: string)
  {
    var v := Trim(ToUpper(text));
    v != "" && v in MacroTexts
  }

  /** `!current.trim() && !isMacro(current)`: the row still needs a result. */
  predicate NeedsFill(result: string)
  {
    Trim(result) == [] && !IsMacro(result)
  }

  /** The row filter of `countEmptyNonMacroRows`. */
  predicate CountedEmpty(result: string)
  {
    result == [] || (Trim(result) == [] && !IsMacro(result))
  }

  lemma UpperOfBlank(s: string)
    requires AllSpace(s)
    ensures ToUpper(s) == s
  {
  }

  /** A blank text is never a macro, so both filters are exactly "blank". */
  lemma NeedsFillIffBlank(result: string)
    ensures NeedsFill(result) <==> AllSpace(result)
    ensures CountedEmpty(result) <==> AllSpace(result)
  {
    TrimEmptyIffBlank(result);
    if AllSpace(result) {
      UpperOfBlank(result);
    }
  }

  /** A text with no lower-case letter and no surrounding whitespace is its
      own macro key. */
  lemma MacroKey(m: string)
    requires m != [] && !IsSpace(m[0]) && !IsSpace(m[|m| - 1])
    requires forall i :: 0 <= i < |m| ==> !('a' <= m[i] <= 'z')
    ensures Trim(ToUpper(m)) == m
  {
    assert ToUpper(m) == m;
    TrimPadded([], m, []);
    assert [] + m + [] == m;
  }

  /** The macro texts the Table Forge writes are recognised as macros. */
  lemma ForgeMacrosAreMacros(m: string)
    requires m in MacroTexts
    ensures IsMacro(m)
  {
    MacroKey(m);
  }

  /** Case and surrounding whitespace do not matter: a text that
      upper-cases to a macro text between blanks is a macro. */
  lemma MacroUpToCaseAndPadding(text: string, a: string, m: string, b: string)
    requires m in MacroTexts && AllSpace(a) && AllSpace(b)
    requires ToUpper(text) == a + m + b
    ensures IsMacro(text)
  {
    MacroKey(m);
    TrimPadded(a, m, b);
  }

  /** The empty text is not a macro. */
  lemma EmptyIsNoMacro()
    ensures !IsMacro("")
  {
  }

  /** Number of blank rows among the first `n`. */
  function BlanksBefore(rows: seq<Row>, n: nat): (c: nat)
    requires n <= |rows|
    ensures c <= n
  {
    if n == 0 then 0 else BlanksBefore(rows, n - 1) + (if AllSpace(rows[n - 1].result) then 1 else 0)
  }

  /** The rows whose result passes `keep`, in their order. */
  function FilterRows(rows: seq<Row>, keep: string -> bool): (r: seq<Row>)
    ensures |r| <= |rows|
  {
    if rows == [] then []
    else
      var last := rows[|rows| - 1];
      FilterRows(rows[..|rows| - 1], keep) + (if keep(last.result) then [last] else [])
  }

  /** `countEmptyNonMacroRows`. */
  function CountEmptyNonMacroRows(table: ForgeTable): nat
  {
    |FilterRows(table.tableData, CountedEmpty)|
  }

  /** A filter that keeps exactly the blank results keeps as many rows as
      there are blank rows. */
  lemma {:induction false} FilterBlankCount(rows: seq<Row>, keep: string -> bool, n: nat)
    requires n <= |rows|
    requires forall s :: keep(s) == AllSpace(s)
    ensures |FilterRows(rows[..n], keep)| == BlanksBefore(rows, n)
  {
    if n > 0 {
      FilterBlankCount(rows, keep, n - 1);
      assert rows[..n][..n - 1] == rows[..n - 1];
    }
  }

  /** The rows counted are exactly the blank rows. */
  lemma CountEmptyIsBlanks(table: ForgeTable)
    ensures CountEmptyNonMacroRows(table) == BlanksBefore(table.tableData, |table.tableData|)
  {
    forall s ensures CountedEmpty(s) == AllSpace(s) {
      NeedsFillIffBlank(s);
    }
    FilterBlankCount(table.tableData, CountedEmpty, |table.tableData|);
    assert table.tableData[..|table.tableData|] == table.tableData;
  }

  // ---------------------------------------------------------------------
  // Kinds and prompts

  function MapKindDisplay(kind: TableKind): string
  {
    match kind
    case Objectives => "Objectives"
    case Atmosphere => "Atmosphere"
    case Locations => "Locations"
    case Manifestations => "Manifestations"
    case Discoveries => "Discoveries"
    case Banes => "Banes"
    case Boons => "Boons"
  }

  /** The display names of the kinds are distinct. */
  lemma MapKindDisplayInjective(a: TableKind, b: TableKind)
    requires MapKindDisplay(a) == MapKindDisplay(b)
    ensures a == b
  {
  }

  /** `oracle_type || name || ""`, lower-cased. */
  function KindTag(table: ForgeTable): string
  {
    ToLower(
      if table.oracleType.Some? && table.oracleType.value != "" then table.oracleType.value
      else table.name)
  }

  /** The words `inferKind` looks for, in priority order, with the kind
      each one selects. */
  const KindWords: seq<(string, TableKind)> := [
    ("objective", Objectives), ("atmosphere", Atmosphere), ("manifestation", Manifestations),
    ("location", Locations), ("discover", Discoveries), ("bane", Banes), ("boon", Boons)]

  /** The kind of the first word the tag contains; discoveries when it
      contains none. */
  function FirstKind(tag: string, words: seq<(string, TableKind)>): TableKind
  {
    if words == [] then Discoveries
    else if Contains(tag, words[0].0) then words[0].1
    else FirstKind(tag, words[1..])
  }

  /** The kind chosen is that of the first word the tag contains; with no
      word contained it is discoveries. */
  lemma {:induction false} FirstKindIsFirstMatch(tag: string, words: seq<(string, TableKind)>)
    ensures (forall j :: 0 <= j < |words| ==> !Contains(tag, words[j].0)) ==> FirstKind(tag, words) == Discoveries
    ensures forall j :: (0 <= j < |words| && Contains(tag, words[j].0) &&
      (forall l :: 0 <= l < j ==> !Contains(tag, words[l].0))) ==> FirstKind(tag, words) == words[j].1
  {
    if words != [] {
      FirstKindIsFirstMatch(tag, words[1..]);
      assert forall j :: 1 <= j < |words| ==> words[j] == words[1..][j - 1];
    }
  }

  /** The kind a lower-cased tag selects. */
  function KindOfTag(tag: string): TableKind
  {
    FirstKind(tag, KindWords)
  }

  /** Objectives whenever the tag names an objective; atmosphere when it
      names an atmosphere but no objective; banes when it names a bane and
      none of the five earlier words; discoveries when it names no word. */
  lemma KindOfTagOrder(tag: string)
    ensures Contains(tag, "objective") ==> KindOfTag(tag) == Objectives
    ensures !Contains(tag, "objective") && Contains(tag, "atmosphere") ==> KindOfTag(tag) == Atmosphere
    ensures (!Contains(tag, "objective") && !Contains(tag, "atmosphere") && !Contains(tag, "manifestation") &&
      !Contains(tag, "location") && !Contains(tag, "discover") && Contains(tag, "bane")) ==> KindOfTag(tag) == Banes
    ensures (!Contains(tag, "objective") && !Contains(tag, "atmosphere") && !Contains(tag, "manifestation") &&
      !Contains(tag, "location") && !Contains(tag, "discover") && !Contains(tag, "bane") && !Contains(tag, "boon"))
      ==> KindOfTag(tag) == Discoveries
  {
    var w := KindWords;
    assert w[0].0 == "objective" && w[1].0 == "atmosphere" && w[2].0 == "manifestation";
    assert w[3].0 == "location" && w[4].0 == "discover" && w[5] == ("bane", Banes);
    FirstKindIsFirstMatch(tag, w);
  }

  /** `inferKind`. */
  function InferKind(table: ForgeTable): TableKind
  {
    KindOfTag(KindTag(table))
  }

  /** The system rules of `buildPrompt`, `n` being the number of rows to
      fill. */
  function SystemPrompt(context: TableContext, n: string): string
  {
    "You are an assistant that writes evocative, concise " + context.genre + " oracle/table results for solo RPG play.\n"
    + "Follow these rules strictly:\n"
    + "- Write short, punchy results (4–10 words). No punctuation at the end unless essential.\n"
    + "- No duplicates or near-duplicates. Each line must be distinct.\n"
    + "- Avoid proper nouns. Focus on mood, texture, action.\n"
    + "- Maintain the theme of the " + context.contextType + " \"" + context.name + "\".\n"
    + "- Do NOT include any macros like \"ACTION + THEME\", \"DESCRIPTOR + FOCUS\", \"CONNECTION WEB\", or \"ROLL TWICE\".\n"
    + "- Output only JSON: a plain array of " + n + " strings. No comments, markdown, or extra fields.\n"
  }

  /** The user request of `buildPrompt`: the Aspect or Domain, the
      details, and the request for `n` strings. */
  function UserPrompt(context: TableContext, kind: TableKind, n: string): string
  {
    UserHead(context)
    + ("Description: " + context.description + "\n"
      + "Table: " + MapKindDisplay(kind) + "\n"
      + "Genre: " + context.genre + "\n"
      + "Rows needed: " + n + "\n")
    + ReturnLine(n)
  }

  function UserHead(context: TableContext): string
  {
    "Aspect/Domain: " + context.name + " (" + context.contextType + ")\n"
  }

  function ReturnLine(n: string): string
  {
    "Return: JSON array of " + n + " strings."
  }

  /** `buildPrompt`: the system rules and the user request, both naming the
      number of blank rows as the number of strings to return. */
  function BuildPrompt(table: ForgeTable, kind: TableKind, context: TableContext): (p: Prompt)
    ensures var n := IntToString(BlanksBefore(table.tableData, |table.tableData|));
      p == Prompt(SystemPrompt(context, n), UserPrompt(context, kind, n))
  {
    CountEmptyIsBlanks(table);
    var n := IntToString(CountEmptyNonMacroRows(table));
    Prompt(SystemPrompt(context, n), UserPrompt(context, kind, n))
  }

  lemma EndsWithConcat(a: string, b: string)
    ensures EndsWith(a + b, b)
  {
    assert (a + b)[|a + b| - |b|..] == b;
  }

  lemma StartsWithConcat(a: string, b: string)
    ensures StartsWith(a + b, a)
  {
    assert (a + b)[..|a|] == a;
  }

  /** The user request starts with the Aspect or Domain and ends by asking
      for `n` strings. */
  lemma UserPromptFrame(context: TableContext, kind: TableKind, n: string)
    ensures EndsWith(UserPrompt(context, kind, n), ReturnLine(n))
    ensures StartsWith(UserPrompt(context, kind, n), UserHead(context))
  {
    var user := UserPrompt(context, kind, n);
    EndsWithConcat(user[..|user| - |ReturnLine(n)|], ReturnLine(n));
    StartsWithConcat(UserHead(context), user[|UserHead(context)|..]);
  }

  // ---------------------------------------------------------------------
  // Filling

  /** The rows after filling: the k-th row that needs a result gets the
      k-th generated string. */
  function FilledRows(rows: seq<Row>, generated: seq<string>): (r: seq<Row>)
    requires BlanksBefore(rows, |rows|) <= |generated|
    ensures |r| == |rows|
  {
    seq(|rows|, i requires 0 <= i < |rows| => FilledRow(rows, generated, i))
  }

  /** Row `i` after filling. */
  function FilledRow(rows: seq<Row>, generated: seq<string>, i: nat): Row
    requires i < |rows| && BlanksBefore(rows, |rows|) <= |generated|
  {
    if AllSpace(rows[i].result) then
      BlanksMonotone(rows, i + 1, |rows|);
      rows[i].(result := generated[BlanksBefore(rows, i)])
    else rows[i]
  }

  lemma {:induction false} BlanksMonotone(rows: seq<Row>, m: nat, n: nat)
    requires m <= n <= |rows|
    ensures BlanksBefore(rows, m) <= BlanksBefore(rows, n)
    decreases n - m
  {
    if m < n {
      BlanksMonotone(rows, m, n - 1);
    }
  }

  /** When the first `m` rows already hold every blank row, none of the
      later rows needs a result. */
  lemma {:induction false} NoBlanksAfter(rows: seq<Row>, m: nat, k: nat)
    requires m <= k < |rows|
    requires BlanksBefore(rows, m) == BlanksBefore(rows, |rows|)
    ensures !AllSpace(rows[k].result)
  {
    BlanksMonotone(rows, m, k);
    BlanksMonotone(rows, k + 1, |rows|);
  }

  /** Filling with non-blank strings leaves no blank row behind. */
  lemma {:induction false} FillLeavesNoBlank(rows: seq<Row>, generated: seq<string>, n: nat)
    requires n <= |rows| && BlanksBefore(rows, |rows|) <= |generated|
    requires forall j :: 0 <= j < |generated| ==> !AllSpace(generated[j])
    ensures BlanksBefore(FilledRows(rows, generated), n) == 0
  {
    if n > 0 {
      FillLeavesNoBlank(rows, generated, n - 1);
      BlanksMonotone(rows, n, |rows|);
      assert FilledRows(rows, generated)[n - 1] == FilledRow(rows, generated, n - 1);
    }
  }

  /** Blank rows take the generated strings in order: an earlier blank row
      takes an earlier string, so no string is used twice. */
  lemma FillKeepsOrder(rows: seq<Row>, i: nat, j: nat)
    requires i < j < |rows| && AllSpace(rows[i].result)
    ensures BlanksBefore(rows, i) < BlanksBefore(rows, j)
  {
    BlanksMonotone(rows, i + 1, j);
  }

  /** Filling changes results only: every row keeps its range. */
  lemma FillKeepsRanges(rows: seq<Row>, generated: seq<string>, i: nat)
    requires i < |rows| && BlanksBefore(rows, |rows|) <= |generated|
    ensures FilledRows(rows, generated)[i].floor == rows[i].floor
    ensures FilledRows(rows, generated)[i].ceiling == rows[i].ceiling
    ensures !AllSpace(rows[i].result) ==> FilledRows(rows, generated)[i] == rows[i]
  {
  }

  /** The test `fillTableWithAI` applies to each row's result: it is blank
      and not a macro, which comes down to its being blank. */
  method RowNeedsFill(current: string) returns (b: bool)
    ensures b <==> AllSpace(current)
  {
    NeedsFillIffBlank(current);
    b := Trim(current) == [] && !IsMacro(current);
  }

  /** The loop of `fillTableWithAI`: walks the rows, writing the next
      generated string into each row that still needs a result, and stops
      once the strings run out. */
  method FillRows(rows: seq<Row>, generated: seq<string>) returns (filled: seq<Row>)
    requires 0 < BlanksBefore(rows, |rows|) <= |generated|
    ensures filled == FilledRows(rows, generated)
  {
    filled := rows;
    var cursor := 0;
    for i := 0 to |rows|
      invariant cursor == BlanksBefore(rows, i) && cursor < |generated|
      invariant filled == PartlyFilled(rows, generated, i)
    {
      Untouched(rows, generated, i);
      var row := filled[i];
      var needsFill := RowNeedsFill(row.result);
      if needsFill {
        FillStep(rows, generated, i);
        filled := filled[i := row.(result := generated[cursor])];
        cursor := cursor + 1;
        if cursor >= |generated| {
          Finished(rows, generated, i + 1);
          return;
        }
      } else {
        KeepStep(rows, generated, i);
      }
    }
    Finished(rows, generated, |rows|);
  }

  /** The rows after the first `i` steps of the loop: each of those rows
      replaced by its filled form, the rest as they were. */
  function PartlyFilled(rows: seq<Row>, generated: seq<string>, i: nat): (r: seq<Row>)
    requires i <= |rows| && BlanksBefore(rows, |rows|) <= |generated|
    ensures |r| == |rows|
  {
    if i == 0 then rows
    else PartlyFilled(rows, generated, i - 1)[i - 1 := FilledRow(rows, generated, i - 1)]
  }

  /** After `i` steps the first `i` rows are filled and the rest untouched. */
  lemma {:induction false} PartlyFilledSplit(rows: seq<Row>, generated: seq<string>, i: nat)
    requires i <= |rows| && BlanksBefore(rows, |rows|) <= |generated|
    ensures PartlyFilled(rows, generated, i) == FilledRows(rows, generated)[..i] + rows[i..]
  {
    if i > 0 {
      PartlyFilledSplit(rows, generated, i - 1);
    }
  }

  /** A blank row takes the next string and moves the cursor on. */
  lemma FillStep(rows: seq<Row>, generated: seq<string>, i: nat)
    requires i < |rows| && BlanksBefore(rows, |rows|) <= |generated|
    requires AllSpace(rows[i].result)
    ensures BlanksBefore(rows, i + 1) == BlanksBefore(rows, i) + 1 <= |generated|
    ensures FilledRow(rows, generated, i) == rows[i].(result := generated[BlanksBefore(rows, i)])
  {
    BlanksMonotone(rows, i + 1, |rows|);
  }

  /** Any other row stays as it is and leaves the cursor where it was. */
  lemma KeepStep(rows: seq<Row>, generated: seq<string>, i: nat)
    requires i < |rows| && BlanksBefore(rows, |rows|) <= |generated|
    requires !AllSpace(rows[i].result)
    ensures BlanksBefore(rows, i + 1) == BlanksBefore(rows, i)
    ensures FilledRow(rows, generated, i) == rows[i]
  {
  }

  /** Row `i` is untouched before step `i`. */
  lemma Untouched(rows: seq<Row>, generated: seq<string>, i: nat)
    requires i < |rows| && BlanksBefore(rows, |rows|) <= |generated|
    ensures PartlyFilled(rows, generated, i)[i] == rows[i]
  {
    PartlyFilledSplit(rows, generated, i);
    assert (FilledRows(rows, generated)[..i] + rows[i..])[i] == rows[i..][0];
  }

  /** Once every string is used the remaining rows need nothing, so the
      partly filled rows are the filled rows. */
  lemma Finished(rows: seq<Row>, generated: seq<string>, m: nat)
    requires m <= |rows| && BlanksBefore(rows, |rows|) <= |generated|
    requires m == |rows| || BlanksBefore(rows, m) == |generated|
    ensures PartlyFilled(rows, generated, m) == FilledRows(rows, generated)
  {
    var expected := FilledRows(rows, generated);
    PartlyFilledSplit(rows, generated, m);
    RestUnchanged(rows, generated, m);
    assert expected == expected[..m] + expected[m..];
  }

  /** The rows from `m` on are untouched by the fill. */
  lemma RestUnchanged(rows: seq<Row>, generated: seq<string>, m: nat)
    requires m <= |rows| && BlanksBefore(rows, |rows|) <= |generated|
    requires m == |rows| || BlanksBefore(rows, m) == |generated|
    ensures FilledRows(rows, generated)[m..] == rows[m..]
  {
    if m < |rows| {
      BlanksMonotone(rows, m, |rows|);
      forall k | m <= k < |rows| ensures FilledRows(rows, generated)[k] == rows[k] {
        NoBlanksAfter(rows, m, k);
      }
    }
  }

  /** The error `fillTableWithAI` raises when the reply is short. */
  function InsufficientRows(needed: nat, got: nat): string
  {
    "AI returned insufficient rows (needed " + IntToString(needed) + ", got " + IntToString(got) + ")"
  }

  /** `fillTableWithAI`, the model's reply to a prompt being `generate`.
      Nothing to fill returns the table as it is; fewer strings than blank
      rows is an error; otherwise only the blank rows change, the k-th of
      them taking the k-th string. */
  method FillTableWithAI(table: ForgeTable, kind: TableKind, context: TableContext, generate: (ForgeTable, TableKind, TableContext) -> seq<string>)
    returns (r: Result<ForgeTable, string>)
    ensures var needed := BlanksBefore(table.tableData, |table.tableData|);
      var generated := generate(table, kind, context);
      (needed == 0 ==> r == Ok(table)) &&
      (needed > 0 && |generated| < needed ==>
        r == Err(InsufficientRows(needed, |generated|))) &&
      (0 < needed <= |generated| ==> r == Ok(table.(tableData := FilledRows(table.tableData, generated))))
  {
    var rows := table.tableData;
    var needed := CountEmptyNonMacroRows(table);
    CountEmptyIsBlanks(table);
    if needed <= 0 {
      return Ok(table);
    }
    var generated := generate(table, kind, context);
    if |generated| < needed {
      return Err(InsufficientRows(needed, |generated|));
    }
    var filled := FillRows(rows, generated);
    r := Ok(table.(tableData := filled));
  }

  /** The table a successful fill returns for `table`. */
  function FilledTable(table: ForgeTable, context: TableContext, generate: (ForgeTable, TableKind, TableContext) -> seq<string>): ForgeTable
    requires BlanksBefore(table.tableData, |table.tableData|) <= |generate(table, InferKind(table), context)|
  {
    if BlanksBefore(table.tableData, |table.tableData|) == 0 then table
    else table.(tableData := FilledRows(table.tableData, generate(table, InferKind(table), context)))
  }

  /** Some table has fewer generated strings than blank rows. */
  predicate Short(table: ForgeTable, context: TableContext, generate: (ForgeTable, TableKind, TableContext) -> seq<string>)
  {
    BlanksBefore(table.tableData, |table.tableData|) > |generate(table, InferKind(table), context)|
  }

  /** `tables[i]` is the first table whose reply is short. */
  predicate FirstShort(tables: seq<ForgeTable>, i: nat, context: TableContext, generate: (ForgeTable, TableKind, TableContext) -> seq<string>)
  {
    i < |tables| && Short(tables[i], context, generate) &&
    forall k :: 0 <= k < i ==> !Short(tables[k], context, generate)
  }

  /** The error the fill of a short table raises. */
  function ShortError(table: ForgeTable, context: TableContext, generate: (ForgeTable, TableKind, TableContext) -> seq<string>): string
  {
    InsufficientRows(BlanksBefore(table.tableData, |table.tableData|), |generate(table, InferKind(table), context)|)
  }

  /** `fillTablesWithAI`: each table filled as the kind its name suggests,
      in the input order; the first short reply stops the run with its
      error. */
  method FillTablesWithAI(tables: seq<ForgeTable>, context: TableContext, generate: (ForgeTable, TableKind, TableContext) -> seq<string>)
    returns (r: Result<seq<ForgeTable>, string>)
    ensures r.Ok? <==> forall i :: 0 <= i < |tables| ==> !Short(tables[i], context, generate)
    ensures r.Ok? ==> (|r.value| == |tables| &&
      forall i :: 0 <= i < |tables| ==> r.value[i] == FilledTable(tables[i], context, generate))
    ensures r.Err? ==>
      exists i: nat :: FirstShort(tables, i, context, generate) && r.error == ShortError(tables[i], context, generate)
  {
    var results: seq<ForgeTable> := [];
    for i := 0 to |tables|
      invariant |results| == i
      invariant forall k :: 0 <= k < i ==>
        !Short(tables[k], context, generate) && results[k] == FilledTable(tables[k], context, generate)
    {
      var kind := InferKind(tables[i]);
      var one := FillTableWithAI(tables[i], kind, context, generate);
      if one.Err? {
        assert Short(tables[i], context, generate);
        assert FirstShort(tables, i, context, generate);
        assert one.error == ShortError(tables[i], context, generate);
        return Err(one.error);
      }
      assert !Short(tables[i], context, generate);
      assert one.value == FilledTable(tables[i], context, generate);
      results := results + [one.value];
    }
    r := Ok(results);
  }
}
