/** The Table Forge: empty d100 oracle tables for a new Aspect or Domain.
    Every table has 50 two-number rows covering 1..100, and the top rows
    carry the macro texts (ACTION + THEME, DESCRIPTOR + FOCUS, CONNECTION
    WEB, ROLL TWICE) that send the reader to other tables. */
module TableForge {
  import opened Wrappers

  datatype Category = Aspect | Domain

  datatype Row = Row(floor: int, ceiling: int, result: string)

  datatype ForgeTable = ForgeTable(
    sourcePath: string, category: Category, name: string, tags: seq<string>,
    summary: Option<string>, description: Option<string>, headers: seq<string>,
    tableData: seq<Row>, maxRoll: int, oracleType: Option<string>)

  datatype ForgeFile = ForgeFile(category: Category, name: string, description: string, tables: seq<ForgeTable>)

  datatype Macro = Macro(start: int, end: int, text: string)

  const ConnectionWeb := "CONNECTION WEB"
  const ActionTheme := "ACTION + THEME"
  const DescriptorFocus := "DESCRIPTOR + FOCUS"
  const RollTwice := "ROLL TWICE"

  // ---------------------------------------------------------------------
  // Rows

  /** The 50 empty rows 1-2, 3-4, ..., 99-100. */
  function RangeRows(): (rows: seq<Row>)
    ensures |rows| == 50
  {
    seq(50, k requires 0 <= k < 50 => Row(2 * k + 1, 2 * k + 2, ""))
  }

  method MakeRangeRows() returns (rows: seq<Row>)
    ensures rows == RangeRows()
  {
    rows := [];
    var i := 1;
    while i <= 100
      invariant 1 <= i <= 101 && i % 2 == 1
      invariant |rows| == (i - 1) / 2
      invariant forall k :: 0 <= k < |rows| ==> rows[k] == Row(2 * k + 1, 2 * k + 2, "")
    {
      rows := rows + [Row(i, i + 1, "")];
      i := i + 2;
    }
  }

  /** The row ranges are contiguous, start at 1, end at 100 and are empty. */
  lemma RangeRowsContiguous()
    ensures RangeRows()[0].floor == 1 && RangeRows()[49].ceiling == 100
    ensures forall k :: 0 <= k < 49 ==> RangeRows()[k + 1].floor == RangeRows()[k].ceiling + 1
    ensures forall k :: 0 <= k < 50 ==> RangeRows()[k].floor < RangeRows()[k].ceiling && RangeRows()[k].result == ""
  {
  }

  /** Every roll of 1..100 falls in exactly one row. */
  lemma RangeRowsCoverOnce(roll: int)
    requires 1 <= roll <= 100
    ensures var k := (roll - 1) / 2; RangeRows()[k].floor <= roll <= RangeRows()[k].ceiling
    ensures forall k :: 0 <= k < 50 && RangeRows()[k].floor <= roll <= RangeRows()[k].ceiling ==> k == (roll - 1) / 2
  {
  }

  // ---------------------------------------------------------------------
  // Macros

  /** The `byStart` dictionary: each macro's text under its first number,
      later macros overwriting earlier ones. */
  function ByStart(macros: seq<Macro>): map<int, string>
  {
    if macros == [] then map[]
    else
      var last := macros[|macros| - 1];
      ByStart(macros[..|macros| - 1])[last.start := last.text]
  }

  /** The rows with every row whose floor starts a macro with non-empty text
      rewritten to that text. */
  function WithMacros(rows: seq<Row>, byStart: map<int, string>): (r: seq<Row>)
    ensures |r| == |rows|
  {
    seq(|rows|, k requires 0 <= k < |rows| =>
      var row := rows[k];
      if row.floor in byStart && byStart[row.floor] != "" then row.(result := byStart[row.floor]) else row)
  }

  method ApplyMacroRows(rows: seq<Row>, macros: seq<Macro>) returns (r: seq<Row>)
    ensures r == WithMacros(rows, ByStart(macros))
  {
    var byStart: map<int, string> := map[];
    for i := 0 to |macros|
      invariant byStart == ByStart(macros[..i])
    {
      assert macros[..i + 1][..i] == macros[..i];
      byStart := byStart[macros[i].start := macros[i].text];
    }
    assert macros[..|macros|] == macros;
    r := seq(|rows|, k requires 0 <= k < |rows| =>
      var row := rows[k];
      if row.floor in byStart && byStart[row.floor] != "" then row.(result := byStart[row.floor]) else row);
  }

  /** Macros keep every row's range; a row changes only when its floor
      starts a macro with text, and then takes the text of the last such
      macro. */
  lemma {:induction false} MacroRowsFaithful(rows: seq<Row>, macros: seq<Macro>, k: nat)
    requires k < |rows|
    ensures var r := WithMacros(rows, ByStart(macros));
      r[k].floor == rows[k].floor && r[k].ceiling == rows[k].ceiling &&
      (r[k] != rows[k] ==> exists i :: 0 <= i < |macros| && macros[i].start == rows[k].floor && macros[i].text != "") &&
      (forall i ::
        (0 <= i < |macros| && macros[i].start == rows[k].floor && macros[i].text != "" &&
         (forall j :: i < j < |macros| ==> macros[j].start != rows[k].floor))
        ==> r[k].result == macros[i].text)
  {
    forall i | 0 <= i < |macros| && macros[i].start == rows[k].floor &&
        (forall j :: i < j < |macros| ==> macros[j].start != rows[k].floor)
      ensures rows[k].floor in ByStart(macros) && ByStart(macros)[rows[k].floor] == macros[i].text
    {
      LastWins(macros, i);
    }
    var byStart := ByStart(macros);
    if rows[k].floor in byStart && byStart[rows[k].floor] != "" {
      ByStartFrom(macros, rows[k].floor);
    }
  }

  /** The last macro for a start provides its text. */
  lemma {:induction false} LastWins(macros: seq<Macro>, i: nat)
    requires i < |macros|
    requires forall j :: i < j < |macros| ==> macros[j].start != macros[i].start
    ensures macros[i].start in ByStart(macros) && ByStart(macros)[macros[i].start] == macros[i].text
  {
    if i < |macros| - 1 {
      LastWins(macros[..|macros| - 1], i);
    }
  }

  /** Every entry of the dictionary comes from some macro. */
  lemma {:induction false} ByStartFrom(macros: seq<Macro>, start: int)
    requires start in ByStart(macros)
    ensures exists i :: 0 <= i < |macros| && macros[i].start == start && macros[i].text == ByStart(macros)[start]
  {
    var last := macros[|macros| - 1];
    if start != last.start {
      ByStartFrom(macros[..|macros| - 1], start);
      var i :| 0 <= i < |macros| - 1 && macros[..|macros| - 1][i].start == start
        && macros[..|macros| - 1][i].text == ByStart(macros[..|macros| - 1])[start];
      assert macros[i] == macros[..|macros| - 1][i];
    }
  }

  lemma ByStartSmall(macros: seq<Macro>)
    requires 2 <= |macros| <= 3
    ensures |macros| == 2 ==> ByStart(macros) == map[macros[0].start := macros[0].text][macros[1].start := macros[1].text]
    ensures |macros| == 3 ==>
      ByStart(macros) == map[macros[0].start := macros[0].text][macros[1].start := macros[1].text][macros[2].start := macros[2].text]
  {
    var one := macros[..1];
    assert one[..0] == [];
    assert ByStart(one) == map[macros[0].start := macros[0].text];
    var two := macros[..2];
    assert two[..1] == one;
    assert ByStart(two) == map[macros[0].start := macros[0].text][macros[1].start := macros[1].text];
    if |macros| == 2 {
      assert macros == two;
    } else {
      assert macros[..|macros| - 1] == two;
    }
  }

  function Optional(flag: bool, macro: Macro): seq<Macro>
  {
    if flag then [macro] else []
  }

  function ActionAspectMacros(includeConnectionWeb: bool): seq<Macro>
  {
    Optional(includeConnectionWeb, Macro(95, 96, ConnectionWeb))
      + [Macro(97, 98, ActionTheme), Macro(99, 100, RollTwice)]
  }

  function DescriptorFocusMacros(includeConnectionWeb: bool): seq<Macro>
  {
    Optional(includeConnectionWeb, Macro(95, 96, ConnectionWeb))
      + [Macro(97, 98, DescriptorFocus), Macro(99, 100, RollTwice)]
  }

  /** The texts a fresh table carries: rows 97-98 take `middle` (ACTION +
      THEME or DESCRIPTOR + FOCUS), rows 99-100 ROLL TWICE, rows 95-96
      CONNECTION WEB when asked for, and every other row stays empty. */
  predicate MacroLayout(rows: seq<Row>, middle: string, includeConnectionWeb: bool)
  {
    |rows| == 50 &&
    (forall k :: 0 <= k < 50 ==> rows[k].floor == 2 * k + 1 && rows[k].ceiling == 2 * k + 2) &&
    rows[48].result == middle && rows[49].result == RollTwice &&
    rows[47].result == (if includeConnectionWeb then ConnectionWeb else "") &&
    (forall k :: 0 <= k < 47 ==> rows[k].result == "")
  }

  lemma ActionAspectLayout(includeConnectionWeb: bool)
    ensures MacroLayout(WithMacros(RangeRows(), ByStart(ActionAspectMacros(includeConnectionWeb))), ActionTheme, includeConnectionWeb)
  {
    var byStart := ByStart(ActionAspectMacros(includeConnectionWeb));
    ByStartSmall(ActionAspectMacros(includeConnectionWeb));
    assert byStart == if includeConnectionWeb then map[95 := ConnectionWeb, 97 := ActionTheme, 99 := RollTwice]
      else map[97 := ActionTheme, 99 := RollTwice];
  }

  lemma DescriptorFocusLayout(includeConnectionWeb: bool)
    ensures MacroLayout(WithMacros(RangeRows(), ByStart(DescriptorFocusMacros(includeConnectionWeb))), DescriptorFocus, includeConnectionWeb)
  {
    var byStart := ByStart(DescriptorFocusMacros(includeConnectionWeb));
    ByStartSmall(DescriptorFocusMacros(includeConnectionWeb));
    assert byStart == if includeConnectionWeb then map[95 := ConnectionWeb, 97 := DescriptorFocus, 99 := RollTwice]
      else map[97 := DescriptorFocus, 99 := RollTwice];
  }

  // ---------------------------------------------------------------------
  // Tables

  function BaseTable(category: Category, tableName: string, tags: seq<string>, description: Option<string>, oracleType: Option<string>): ForgeTable
  {
    ForgeTable("forge", category, tableName, tags, None, description, ["Roll", "Result"], RangeRows(), 100, oracleType)
  }

  /** One table of a new Aspect or Domain, with its macros, summary and the
      parent's description. */
  function ForgeOne(category: Category, parentName: string, description: string, tableName: string, tags: seq<string>, descriptorMacros: bool, connectionWeb: bool): ForgeTable
  {
    var t := BaseTable(category, tableName, tags, None, Some(tableName));
    var macros := if descriptorMacros then DescriptorFocusMacros(connectionWeb) else ActionAspectMacros(connectionWeb);
    t.(tableData := WithMacros(t.tableData, ByStart(macros)), summary := Some(parentName + " — " + tableName), description := Some(description))
  }

  function Tag(category: Category): string
  {
    if category == Aspect then "aspect" else "domain"
  }

  /** The six tables of an Aspect (third table Manifestations) or a Domain
      (third table Locations). */
  function EmptyTables(category: Category, name: string, description: string): (tables: seq<ForgeTable>)
    ensures |tables| == 6
  {
    var base := [Tag(category)];
    var third := if category == Aspect then "Manifestations" else "Locations";
    [ ForgeOne(category, name, description, "Objectives", base + ["objective"], false, false),
      ForgeOne(category, name, description, "Atmosphere", base, false, false),
      ForgeOne(category, name, description, third, base, false, true),
      ForgeOne(category, name, description, "Discoveries", base, true, true),
      ForgeOne(category, name, description, "Banes", base, true, false),
      ForgeOne(category, name, description, "Boons", base, true, false) ]
  }

  function CreateEmptyAspectTables(name: string, description: string): (tables: seq<ForgeTable>)
    ensures |tables| == 6
  {
    EmptyTables(Aspect, name, description)
  }

  function CreateEmptyDomainTables(name: string, description: string): (tables: seq<ForgeTable>)
    ensures |tables| == 6
  {
    EmptyTables(Domain, name, description)
  }

  function BuildForgeFile(category: Category, name: string, description: string, tables: seq<ForgeTable>): (f: ForgeFile)
    ensures f.category == category && f.name == name && f.description == description && f.tables == tables
  {
    ForgeFile(category, name, description, tables)
  }

  /** The six tables come in the order Objectives, Atmosphere,
      Manifestations or Locations, Discoveries, Banes, Boons; they share the
      category, the d100 shape, the headers and the parent's description,
      and each is summarised as "{name} — {table}". Only the third table and
      Discoveries carry CONNECTION WEB, only Discoveries, Banes and Boons
      use DESCRIPTOR + FOCUS, and only Objectives has the extra tag. */
  lemma EmptyTablesShape(category: Category, name: string, description: string)
    ensures var tables := EmptyTables(category, name, description);
      [tables[0].name, tables[1].name, tables[2].name, tables[3].name, tables[4].name, tables[5].name]
        == ["Objectives", "Atmosphere", if category == Aspect then "Manifestations" else "Locations", "Discoveries", "Banes", "Boons"] &&
      (forall k :: 0 <= k < 6 ==>
        var t := tables[k];
        t.category == category && t.maxRoll == 100 && t.headers == ["Roll", "Result"] &&
        t.sourcePath == "forge" && t.oracleType == Some(t.name) &&
        t.summary == Some(name + " — " + t.name) && t.description == Some(description) &&
        t.tags == (if k == 0 then [Tag(category), "objective"] else [Tag(category)]) &&
        MacroLayout(t.tableData, if k >= 3 then DescriptorFocus else ActionTheme, k == 2 || k == 3))
  {
    ActionAspectLayout(false);
    ActionAspectLayout(true);
    DescriptorFocusLayout(false);
    DescriptorFocusLayout(true);
  }

  /** A forge file built around freshly forged tables is consistent: its
      six tables carry the file's own category and description, and each
      summary names the file. */
  lemma ForgedFileConsistent(category: Category, name: string, description: string)
    ensures var f := BuildForgeFile(category, name, description, EmptyTables(category, name, description));
      |f.tables| == 6 &&
      forall k :: 0 <= k < |f.tables| ==>
        f.tables[k].category == f.category && f.tables[k].description == Some(f.description) &&
        f.tables[k].summary == Some(f.name + " — " + f.tables[k].name)
  {
    EmptyTablesShape(category, name, description);
  }
}
