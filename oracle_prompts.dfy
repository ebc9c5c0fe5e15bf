/** The prompts sent to the language model when the oracle interprets the
    table results logged in a journal entry: the oracle name and persona
    fallbacks, the numbered result list, and where that list sits in the user
    prompt. The fixed instruction prose of both prompts is a parameter. */
module OraclePrompts {
  import opened Wrappers
  import opened Text

  /** One rolled table result logged in an entry. */
  datatype OracleResult = OracleResult(
    tableId: string, tableName: string, roll: int, resultText: string,
    tags: seq<string>, sourcePath: string)

  /** What the prompt shows of a result: table name, roll and result text. */
  datatype Shown = Shown(tableName: string, roll: int, resultText: string)

  const DefaultOracleName := "The Loomwright"
  const DefaultPersona := "loomwright"
  const NoResults := "No oracle results were rolled."
  const PersonaIds: set<string> :=
    {"loomwright", "archivist", "trickster", "veilkeeper", "harrower", "architect"}

  /** The configured oracle name, trimmed; a missing or blank one becomes
      "The Loomwright". */
  function OracleName(name: Option<string>): string
  {
    if name.Some? && Trim(name.value) != [] then Trim(name.value) else DefaultOracleName
  }

  /** The name used is the trimmed configured name when that is not blank,
      the default otherwise, and is never blank nor padded with whitespace. */
  lemma OracleNameFallback(name: Option<string>)
    ensures var r := OracleName(name);
      r != [] && !IsSpace(r[0]) && !IsSpace(r[|r| - 1])
      && (name.None? || Trim(name.value) == [] ==> r == DefaultOracleName)
      && (name.Some? && Trim(name.value) != [] ==> r == Trim(name.value))
  {
    if name.Some? {
      TrimEnds(name.value);
    }
  }

  /** The persona whose addendum is used: the configured one when it exists,
      the Loomwright otherwise. */
  function PersonaFor(id: string): (p: string)
    ensures p in PersonaIds
    ensures p == id <==> id in PersonaIds
  {
    if id in PersonaIds then id else DefaultPersona
  }

  /** The system prompt: the oracle introduced by name, the fixed
      instructions, then the chosen persona's addendum. */
  function SystemPrompt(name: Option<string>, personaId: string, instructions: string,
                        addenda: map<string, string>): string
    requires PersonaIds <= addenda.Keys
  {
    "You are " + OracleName(name) + ", "
      + ("the in-app oracle interpreter for the Anvil & Loom TTRPG.\n" + instructions
      + addenda[PersonaFor(personaId)])
  }

  /** The system prompt opens by naming the oracle and closes with the
      addendum of the persona in use. */
  lemma SystemPromptShape(name: Option<string>, personaId: string, instructions: string,
                          addenda: map<string, string>)
    requires PersonaIds <= addenda.Keys
    ensures StartsWith(SystemPrompt(name, personaId, instructions, addenda), "You are " + OracleName(name) + ", ")
    ensures EndsWith(SystemPrompt(name, personaId, instructions, addenda), addenda[PersonaFor(personaId)])
  {
    var opening := "You are " + OracleName(name) + ", ";
    var addendum := addenda[PersonaFor(personaId)];
    PrefixAndSuffix(opening, "the in-app oracle interpreter for the Anvil & Loom TTRPG.\n" + instructions, addendum);
    assert SystemPrompt(name, personaId, instructions, addenda)
      == opening + (("the in-app oracle interpreter for the Anvil & Loom TTRPG.\n" + instructions) + addendum);
  }

  /** The four lines describing the result numbered `n`. */
  function BlockLines(n: nat, r: OracleResult): seq<string>
  {
    ["#" + NatToString(n), "TABLE: " + r.tableName, "ROLL: " + IntToString(r.roll),
     "RESULT: " + r.resultText]
  }

  /** One text block per result, numbered from `n`. */
  function Blocks(rs: seq<OracleResult>, n: nat): (bs: seq<string>)
    ensures |bs| == |rs|
  {
    if rs == [] then [] else [Join(BlockLines(n, rs[0]), "\n")] + Blocks(rs[1..], n + 1)
  }

  /** The result list of the user prompt: numbered blocks separated by a
      blank line, or a fixed sentence when nothing was rolled. */
  function FormatOracleResults(rs: seq<OracleResult>): (r: string)
    ensures r == NoResults <==> rs == []
  {
    if rs == [] then NoResults
    else
      ListStartsWithNumber(rs);
      Join(Blocks(rs, 1), "\n\n")
  }

  /** A non-empty list opens with the number sign of its first block. */
  lemma ListStartsWithNumber(rs: seq<OracleResult>)
    requires rs != []
    ensures var s := Join(Blocks(rs, 1), "\n\n"); |s| > 0 && s[0] == '#'
  {
    var bs := Blocks(rs, 1);
    var lines := BlockLines(1, rs[0]);
    JoinCons(lines[0], lines[1..], "\n");
    assert lines == [lines[0]] + lines[1..];
    if |bs| > 1 {
      JoinCons(bs[0], bs[1..], "\n\n");
      assert bs == [bs[0]] + bs[1..];
    }
  }

  /** The user prompt: who is speaking, then the result list verbatim, then
      the fixed request text. */
  function UserPrompt(rs: seq<OracleResult>, oracleName: string, request: string): string
  {
    UserIntro(oracleName) + (ListHeading + (FormatOracleResults(rs) + request))
  }

  function UserIntro(oracleName: string): string
  {
    "You are " + oracleName + " inside the Anvil & Loom app.\n"
  }

  const ListHeading := "Here are the oracle results for the current journal entry:\n"

  /** The user prompt opens by naming the oracle and holds the result list
      verbatim. */
  lemma UserPromptShape(rs: seq<OracleResult>, oracleName: string, request: string)
    ensures StartsWith(UserPrompt(rs, oracleName, request), UserIntro(oracleName))
    ensures Contains(UserPrompt(rs, oracleName, request), FormatOracleResults(rs))
  {
    var intro := UserIntro(oracleName);
    var list := FormatOracleResults(rs);
    var r := UserPrompt(rs, oracleName, request);
    PrefixAndSuffix(intro, ListHeading, list + request);
    PrefixAndSuffix(ListHeading, list, request);
    var k := |intro| + |ListHeading|;
    assert r[k..] == list + request;
    Consume(list, request);
    assert StartsWith(r[k..], list);
  }

  // Reading the result list back.

  /** What a prompt shows of each result. */
  function ShownAll(rs: seq<OracleResult>): (s: seq<Shown>)
    ensures |s| == |rs|
  {
    if rs == [] then [] else [Shown(rs[0].tableName, rs[0].roll, rs[0].resultText)] + ShownAll(rs[1..])
  }

  /** Reads the lines of a result list numbered from `n`: four lines per
      result, a blank line between results. */
  function ReadBlocks(lines: seq<string>, n: nat): Option<seq<Shown>>
    decreases |lines|
  {
    if |lines| < 4 then None
    else match ReadBlock(lines, n)
      case None => None
      case Some(here) =>
        if |lines| == 4 then Some([here])
        else if |lines| == 5 || |lines[4]| != 0 then None
        else match ReadBlocks(lines[5..], n + 1)
          case None => None
          case Some(more) => Some([here] + more)
  }

  /** Reads the four lines of the block numbered `n`. */
  function ReadBlock(lines: seq<string>, n: nat): Option<Shown>
    requires |lines| >= 4
  {
    if lines[0] != "#" + NatToString(n)
      || !StartsWith(lines[1], "TABLE: ") || !StartsWith(lines[2], "ROLL: ")
      || !StartsWith(lines[3], "RESULT: ")
    then None
    else match ReadInt(lines[2][6..])
      case None => None
      case Some(roll) => Some(Shown(lines[1][7..], roll, lines[3][8..]))
  }

  /** A printed integer: an optional '-' and at least one digit, nothing else. */
  function ReadInt(s: string): Option<int>
  {
    if s != [] && s[0] == '-' then
      (if |s| > 1 && AllDigits(s[1..]) then Some(0 - DigitsValue(s[1..]) as int) else None)
    else if s != [] && AllDigits(s) then Some(DigitsValue(s) as int)
    else None
  }

  lemma ReadIntOfIntToString(i: int)
    ensures ReadInt(IntToString(i)) == Some(i)
  {
    var s := IntToString(i);
    if i < 0 {
      assert s[1..] == NatToString(-i);
      DigitsValueOfNatToString(-i);
    } else {
      DigitsValueOfNatToString(i);
      assert IsDigit(s[0]);
    }
  }

  /** No displayed field of any result spans more than one line. */
  predicate SingleLine(rs: seq<OracleResult>)
  {
    forall r :: r in rs ==> '\n' !in r.tableName && '\n' !in r.resultText
  }

  /** Every line of the list, blank separators included. */
  function AllLines(rs: seq<OracleResult>, n: nat): seq<string>
    requires rs != []
  {
    BlockLines(n, rs[0]) + (if |rs| == 1 then [] else [""] + AllLines(rs[1..], n + 1))
  }

  /** The list read back line by line gives, in order, the table name, roll
      and result text of every result, so it holds one block per result. */
  lemma FormatReadsBack(rs: seq<OracleResult>)
    requires rs != [] && SingleLine(rs)
    ensures ReadBlocks(Split(FormatOracleResults(rs), '\n'), 1) == Some(ShownAll(rs))
  {
    BlocksAreLines(rs, 1);
    LinesAreSingle(rs, 1);
    var lines := AllLines(rs, 1);
    assert forall i :: 0 <= i < |lines| ==> '\n' !in lines[i] by {
      forall i | 0 <= i < |lines| ensures '\n' !in lines[i] {
        assert lines[i] in lines;
      }
    }
    SplitJoin(lines, '\n');
    ReadAllLines(rs, 1);
  }

  lemma {:induction false} BlocksAreLines(rs: seq<OracleResult>, n: nat)
    requires rs != []
    ensures Join(Blocks(rs, n), "\n\n") == Join(AllLines(rs, n), "\n")
    decreases |rs|
  {
    var lines := BlockLines(n, rs[0]);
    if |rs| == 1 {
      assert AllLines(rs, n) == lines;
    } else {
      BlocksAreLines(rs[1..], n + 1);
      JoinStep(lines, AllLines(rs[1..], n + 1), Blocks(rs[1..], n + 1));
    }
  }

  /** A block joined, then the rest after a blank line, is all the lines
      joined. */
  lemma JoinStep(lines: seq<string>, tail: seq<string>, rest: seq<string>)
    requires lines != [] && tail != [] && rest != []
    requires Join(rest, "\n\n") == Join(tail, "\n")
    ensures Join([Join(lines, "\n")] + rest, "\n\n") == Join(lines + ([""] + tail), "\n")
  {
    JoinCons(Join(lines, "\n"), rest, "\n\n");
    JoinAppend(lines, [""] + tail, "\n");
    JoinCons("", tail, "\n");
  }

  lemma {:induction false} LinesAreSingle(rs: seq<OracleResult>, n: nat)
    requires rs != [] && SingleLine(rs)
    ensures forall l :: l in AllLines(rs, n) ==> '\n' !in l
    decreases |rs|
  {
    BlockSingle(n, rs[0]);
    if |rs| > 1 {
      assert forall r :: r in rs[1..] ==> r in rs;
      LinesAreSingle(rs[1..], n + 1);
    }
  }

  lemma BlockSingle(n: nat, r: OracleResult)
    requires '\n' !in r.tableName && '\n' !in r.resultText
    ensures forall l :: l in BlockLines(n, r) ==> '\n' !in l
  {
    IntToStringHasNo(r.roll, '\n');
    assert AllDigits(NatToString(n));
    assert '\n' !in NatToString(n);
  }

  lemma {:induction false} ReadAllLines(rs: seq<OracleResult>, n: nat)
    requires rs != []
    ensures ReadBlocks(AllLines(rs, n), n) == Some(ShownAll(rs))
    decreases |rs|
  {
    var r := rs[0];
    var block := BlockLines(n, r);
    var head := Shown(r.tableName, r.roll, r.resultText);
    if |rs| == 1 {
      ReadBlockFields(n, r, []);
      assert block + [] == block;
      ReadOnly(block, n);
      assert ShownAll(rs) == [head];
    } else {
      var tail := AllLines(rs[1..], n + 1);
      ReadAllLines(rs[1..], n + 1);
      ReadBlockFields(n, r, [""] + tail);
      var lines := block + ([""] + tail);
      assert lines[4..] == [""] + tail;
      ReadThen(lines, n, tail);
      assert AllLines(rs, n) == lines;
      assert ShownAll(rs) == [head] + ShownAll(rs[1..]);
    }
  }

  lemma ReadOnly(lines: seq<string>, n: nat)
    requires |lines| == 4 && ReadBlock(lines, n).Some?
    ensures ReadBlocks(lines, n) == Some([ReadBlock(lines, n).value])
  {
  }

  lemma ReadThen(lines: seq<string>, n: nat, tail: seq<string>)
    requires |lines| >= 4 && lines[4..] == [""] + tail && ReadBlock(lines, n).Some?
    requires ReadBlocks(tail, n + 1).Some?
    ensures ReadBlocks(lines, n) == Some([ReadBlock(lines, n).value] + ReadBlocks(tail, n + 1).value)
  {
    ReadBlocksLength(tail, n + 1);
    DropHead(lines, 4, "", tail);
  }

  lemma ReadBlocksLength(lines: seq<string>, n: nat)
    requires ReadBlocks(lines, n).Some?
    ensures |lines| >= 4
  {
  }

  lemma DropHead<T>(xs: seq<T>, k: nat, x: T, tail: seq<T>)
    requires k <= |xs| && xs[k..] == [x] + tail
    ensures k < |xs| && xs[k] == x && xs[k + 1..] == tail
  {
    assert xs[k..][0] == xs[k] && xs[k..][1..] == xs[k + 1..];
  }

  /** The four lines of a block read back as the result they describe,
      whatever follows them. */
  lemma ReadBlockFields(n: nat, r: OracleResult, rest: seq<string>)
    ensures var lines := BlockLines(n, r) + rest;
      |lines| >= 4 && ReadBlock(lines, n) == Some(Shown(r.tableName, r.roll, r.resultText))
  {
    var lines := BlockLines(n, r) + rest;
    assert lines[1] == "TABLE: " + r.tableName && lines[2] == "ROLL: " + IntToString(r.roll)
      && lines[3] == "RESULT: " + r.resultText;
    Consume("TABLE: ", r.tableName);
    Consume("ROLL: ", IntToString(r.roll));
    Consume("RESULT: ", r.resultText);
    ReadIntOfIntToString(r.roll);
  }
}
