/** The oracle tables pane: the largest roll a table allows, rolls
    normalised into that range and looked up in the table's rows, the cards
    and entry payloads a roll produces, the search filter over the table
    list, the grouping by category and parent, and the capped roll history.
    The dice, the clock and card ids come in as parameters. */
module TablesPane {
  import opened Wrappers
  import opened Text
  import opened TableRegistry
  import Converters
  import DiceRoller

  // ---------------------------------------------------------------------
  // The range of a table
  // ---------------------------------------------------------------------

  /** The row ceilings that are positive numbers, in row order. */
  function PositiveCeilings(rows: seq<StoredRow>): (r: seq<int>)
    ensures forall c :: c in r ==> c > 0
    ensures forall k :: 0 <= k < |rows| && rows[k].ceiling.Some? && rows[k].ceiling.value > 0 ==> rows[k].ceiling.value in r
    ensures forall c :: c in r ==> exists k :: 0 <= k < |rows| && rows[k].ceiling == Some(c)
  {
    if rows == [] then []
    else
      var last := rows[|rows| - 1];
      var init := rows[..|rows| - 1];
      assert forall k :: 0 <= k < |init| ==> init[k] == rows[k];
      PositiveCeilings(init) + (if last.ceiling.Some? && last.ceiling.value > 0 then [last.ceiling.value] else [])
  }

  /** `Math.max(...xs)` for a non-empty list. */
  function MaxOf(xs: seq<int>): (m: int)
    requires |xs| > 0
    ensures m in xs && forall x :: x in xs ==> x <= m
  {
    if |xs| == 1 then xs[0]
    else
      var m := MaxOf(xs[1..]);
      assert xs == [xs[0]] + xs[1..];
      if xs[0] > m then xs[0] else m
  }

  /** `getMaxRollForTable`: a positive `maxRoll`; failing that the largest
      positive row ceiling; failing that 100. */
  function MaxRollForTable(t: Table): (m: int)
    ensures m > 0
    ensures t.maxRoll.Some? && t.maxRoll.value > 0 ==> m == t.maxRoll.value
    ensures !(t.maxRoll.Some? && t.maxRoll.value > 0) ==>
      if PositiveCeilings(t.tableData) == [] then m == 100
      else
        (exists k :: 0 <= k < |t.tableData| && t.tableData[k].ceiling == Some(m))
        && forall k :: 0 <= k < |t.tableData| && t.tableData[k].ceiling.Some? ==> t.tableData[k].ceiling.value <= m
  {
    if t.maxRoll.Some? && t.maxRoll.value > 0 then t.maxRoll.value
    else
      var ceilings := PositiveCeilings(t.tableData);
      if |ceilings| > 0 then
        var m := MaxOf(ceilings);
        assert forall k :: 0 <= k < |t.tableData| && t.tableData[k].ceiling.Some? ==> t.tableData[k].ceiling.value <= m by {
          forall k | 0 <= k < |t.tableData| && t.tableData[k].ceiling.Some?
            ensures t.tableData[k].ceiling.value <= m
          {
            if t.tableData[k].ceiling.value > 0 {
              assert t.tableData[k].ceiling.value in ceilings;
            }
          }
        }
        m
      else 100
  }

  // ---------------------------------------------------------------------
  // Normalising a roll and finding its row
  // ---------------------------------------------------------------------

  /** `Math.max(1, Math.min(max, ((r - 1) % max) + 1))`. */
  function NormalizeRoll(r: int, max: int): (n: int)
    requires max >= 1
    ensures 1 <= n <= max
    ensures r >= 1 ==> n == (r - 1) % max + 1
  {
    DiceRoller.Max(1, DiceRoller.Min(max, DiceRoller.JsRem(r - 1, max) + 1))
  }

  /** A roll already in range is kept, and rolls one full range apart
      land on the same value. */
  lemma {:induction false} NormalizeRollFacts(r: int, max: int)
    requires max >= 1
    ensures 1 <= r <= max ==> NormalizeRoll(r, max) == r
    ensures r >= 1 ==> NormalizeRoll(r + max, max) == NormalizeRoll(r, max)
  {
    if 1 <= r <= max {
      ModOfSmall(r - 1, max, 0, r - 1);
    }
    if r >= 1 {
      ModOfSmall(r - 1 + max, max, (r - 1) / max + 1, (r - 1) % max);
    }
  }

  /** Euclidean remainders are unique. */
  lemma {:induction false} ModOfSmall(x: int, b: int, q: int, r: int)
    requires b >= 1 && 0 <= r < b && x == q * b + r
    ensures x % b == r
  {
    var d := q - x / b;
    assert d * b == x % b - r;
    if d >= 1 { MulAtLeast(d, b); }
    if d <= -1 { MulAtLeast(-d, b); }
  }

  lemma MulAtLeast(d: int, b: int)
    requires d >= 1 && b >= 1
    ensures d * b >= b
  {
  }

  /** A row with numeric floor and ceiling that covers `n`. */
  predicate Covers(row: StoredRow, n: int)
  {
    row.floor.Some? && row.ceiling.Some? && row.floor.value <= n <= row.ceiling.value
  }

  /** The position of the first row covering `n`. */
  function FindRow(rows: seq<StoredRow>, n: int): (k: Option<nat>)
    ensures k.Some? ==>
      k.value < |rows| && Covers(rows[k.value], n) && forall j :: 0 <= j < k.value ==> !Covers(rows[j], n)
    ensures k.None? <==> forall j :: 0 <= j < |rows| ==> !Covers(rows[j], n)
  {
    if rows == [] then None
    else if Covers(rows[0], n) then Some(0)
    else
      match FindRow(rows[1..], n)
      case None => None
      case Some(j) => Some(j + 1)
  }

  /** `row?.result ?? ""`: the result of the first row covering the roll,
      "" when that row has none or no row covers it. */
  function ResultTextFor(rows: seq<StoredRow>, n: int): (text: string)
    ensures (forall j :: 0 <= j < |rows| ==> !Covers(rows[j], n)) ==> text == ""
    ensures forall k :: 0 <= k < |rows| && Covers(rows[k], n) && (forall j :: 0 <= j < k ==> !Covers(rows[j], n)) ==>
      text == rows[k].result.GetOr("")
  {
    match FindRow(rows, n)
    case None => ""
    case Some(k) => rows[k].result.GetOr("")
  }

  // ---------------------------------------------------------------------
  // Rolling
  // ---------------------------------------------------------------------

  datatype RollEntry = RollEntry(
    tableId: string, tableName: string, roll: int, resultText: string,
    timestamp: int, category: Option<string>)

  /** What is sent to the open entry for a roll. */
  datatype Payload = Payload(
    tableId: string, tableName: string, roll: int, resultText: string,
    tags: seq<string>, sourcePath: string, category: string)

  /** Where the pane's callbacks go: whether results are logged to the
      entry, the open entry, and whether the results pane takes cards. */
  datatype Sinks = Sinks(logToEntry: bool, activeEntryId: Option<string>, takesCards: bool)

  function TableName(t: Table, tableId: string): string
  {
    if t.name != [] then t.name else tableId
  }

  /** Aspect and Domain tables are tables; every other category is an oracle. */
  predicate IsOracle(category: string)
  {
    category != "Aspect" && category != "Domain"
  }

  /** The `i`-th roll of a batch: `rolls(i)` normalised into the table's range. */
  function EntryAt(t: Table, tableId: string, i: nat, rolls: nat -> int, clock: nat -> int): RollEntry
  {
    var max := DiceRoller.Max(1, MaxRollForTable(t));
    var n := NormalizeRoll(rolls(i), max);
    RollEntry(tableId, TableName(t, tableId), n, ResultTextFor(t.tableData, n), clock(i),
              if t.category != [] then Some(t.category) else None)
  }

  function Entries(t: Table, tableId: string, count: nat, rolls: nat -> int, clock: nat -> int): (r: seq<RollEntry>)
    ensures |r| == count
  {
    seq(count, i requires 0 <= i < count => EntryAt(t, tableId, i, rolls, clock))
  }

  /** One more roll adds its entry at the end. */
  lemma EntriesStep(t: Table, tableId: string, i: nat, rolls: nat -> int, clock: nat -> int)
    ensures Entries(t, tableId, i + 1, rolls, clock) == Entries(t, tableId, i, rolls, clock) + [EntryAt(t, tableId, i, rolls, clock)]
  {
    var a := Entries(t, tableId, i + 1, rolls, clock);
    var b := Entries(t, tableId, i, rolls, clock) + [EntryAt(t, tableId, i, rolls, clock)];
    assert |a| == |b|;
    forall k | 0 <= k < |a| ensures a[k] == b[k] {
      if k < i {
        assert b[k] == Entries(t, tableId, i, rolls, clock)[k];
      }
    }
  }

  predicate LogsToEntry(sinks: Sinks)
  {
    sinks.logToEntry && sinks.activeEntryId.Some? && sinks.activeEntryId.value != []
  }

  /** The payloads of the first `count` rolls: one per roll with a result,
      when results are logged to an open entry. */
  function Payloads(t: Table, tableId: string, count: nat, rolls: nat -> int, clock: nat -> int, sinks: Sinks): seq<Payload>
  {
    if count == 0 then []
    else
      var e := EntryAt(t, tableId, count - 1, rolls, clock);
      Payloads(t, tableId, count - 1, rolls, clock, sinks)
      + (if LogsToEntry(sinks) && e.resultText != []
         then [Payload(tableId, e.tableName, e.roll, e.resultText, t.tags, t.sourcePath, t.category)]
         else [])
  }

  /** One more roll adds its entry, and its payload and card when it
      makes them, at the end of each list. */
  lemma RollStep(
    t: Table, tableId: string, i: nat, rolls: nat -> int, clock: nat -> int, sinks: Sinks,
    cardIds: nat -> string, cardTimes: nat -> string, e: RollEntry)
    requires e == EntryAt(t, tableId, i, rolls, clock)
    ensures Entries(t, tableId, i + 1, rolls, clock) == Entries(t, tableId, i, rolls, clock) + [e]
    ensures Payloads(t, tableId, i + 1, rolls, clock, sinks) == Payloads(t, tableId, i, rolls, clock, sinks)
      + (if LogsToEntry(sinks) && e.resultText != []
         then [Payload(tableId, e.tableName, e.roll, e.resultText, t.tags, t.sourcePath, t.category)]
         else [])
    ensures Cards(t, tableId, i + 1, rolls, clock, sinks, cardIds, cardTimes) == Cards(t, tableId, i, rolls, clock, sinks, cardIds, cardTimes)
      + (if sinks.takesCards && e.resultText != [] then [CardFor(t, tableId, e, cardIds(i), cardTimes(i))] else [])
  {
    EntriesStep(t, tableId, i, rolls, clock);
  }

  /** The card of one roll. */
  function CardFor(t: Table, tableId: string, e: RollEntry, id: string, timestamp: string): Converters.ResultCard
  {
    Converters.ConvertTableToCard(
      tableId, e.tableName, e.roll, e.resultText, Some(t.category), Some(t.sourcePath),
      IsOracle(t.category), id, timestamp)
  }

  /** The cards of the first `count` rolls: one per roll with a result,
      when the results pane takes cards. */
  function Cards(
    t: Table, tableId: string, count: nat, rolls: nat -> int, clock: nat -> int, sinks: Sinks,
    cardIds: nat -> string, cardTimes: nat -> string): seq<Converters.ResultCard>
  {
    if count == 0 then []
    else
      var e := EntryAt(t, tableId, count - 1, rolls, clock);
      Cards(t, tableId, count - 1, rolls, clock, sinks, cardIds, cardTimes)
      + (if sinks.takesCards && e.resultText != []
         then [CardFor(t, tableId, e, cardIds(count - 1), cardTimes(count - 1))]
         else [])
  }

  /** `performRolls`: `times` rolls on a table, with the entries, entry
      payloads and result cards they produce. */
  method PerformRolls(
    t: Table, tableId: string, times: nat, rolls: nat -> int, clock: nat -> int, sinks: Sinks,
    cardIds: nat -> string, cardTimes: nat -> string)
    returns (newResults: seq<RollEntry>, payloads: seq<Payload>, cards: seq<Converters.ResultCard>)
    ensures newResults == Entries(t, tableId, times, rolls, clock)
    ensures payloads == Payloads(t, tableId, times, rolls, clock, sinks)
    ensures cards == Cards(t, tableId, times, rolls, clock, sinks, cardIds, cardTimes)
  {
    var max := DiceRoller.Max(1, MaxRollForTable(t));
    var tableName := TableName(t, tableId);
    newResults, payloads, cards := [], [], [];
    for i := 0 to times
      invariant newResults == Entries(t, tableId, i, rolls, clock)
      invariant payloads == Payloads(t, tableId, i, rolls, clock, sinks)
      invariant cards == Cards(t, tableId, i, rolls, clock, sinks, cardIds, cardTimes)
    {
      var r := rolls(i);
      var normalized := NormalizeRoll(r, max);
      var resultText := ResultTextFor(t.tableData, normalized);
      var entry := RollEntry(tableId, tableName, normalized, resultText, clock(i),
                             if t.category != [] then Some(t.category) else None);
      assert entry == EntryAt(t, tableId, i, rolls, clock);
      RollStep(t, tableId, i, rolls, clock, sinks, cardIds, cardTimes, entry);
      newResults := newResults + [entry];
      if sinks.logToEntry && sinks.activeEntryId.Some? && sinks.activeEntryId.value != [] && resultText != [] {
        payloads := payloads + [Payload(tableId, tableName, normalized, resultText, t.tags, t.sourcePath, t.category)];
      }
      if sinks.takesCards && resultText != [] {
        var card := Converters.ConvertTableToCard(
          tableId, tableName, normalized, resultText, Some(t.category), Some(t.sourcePath),
          t.category != "Aspect" && t.category != "Domain", cardIds(i), cardTimes(i));
        cards := cards + [card];
      }
    }
  }

  /** Every roll lands in the table's range, and its text is that of the
      first covering row, or empty when no row covers it. */
  lemma EntriesInRange(t: Table, tableId: string, count: nat, rolls: nat -> int, clock: nat -> int)
    ensures forall i :: 0 <= i < count ==>
      var e := Entries(t, tableId, count, rolls, clock)[i];
      1 <= e.roll <= MaxRollForTable(t)
      && (FindRow(t.tableData, e.roll).None? ==> e.resultText == "")
      && (FindRow(t.tableData, e.roll).Some? ==>
            e.resultText == t.tableData[FindRow(t.tableData, e.roll).value].result.GetOr(""))
  {
  }

  /** Cards and payloads are only made for rolls with a result; a card is
      an oracle card exactly when the table is neither an Aspect nor a
      Domain; nothing is logged without an open entry. */
  lemma {:induction false} SideEffectsOnlyWithResult(
    t: Table, tableId: string, count: nat, rolls: nat -> int, clock: nat -> int, sinks: Sinks,
    cardIds: nat -> string, cardTimes: nat -> string)
    ensures forall c :: c in Cards(t, tableId, count, rolls, clock, sinks, cardIds, cardTimes) ==>
      c.result != [] && (c.source == Some(Converters.OracleSource) <==> IsOracle(t.category))
    ensures forall p :: p in Payloads(t, tableId, count, rolls, clock, sinks) ==> p.resultText != []
    ensures !LogsToEntry(sinks) ==> Payloads(t, tableId, count, rolls, clock, sinks) == []
    ensures !sinks.takesCards ==> Cards(t, tableId, count, rolls, clock, sinks, cardIds, cardTimes) == []
    ensures |Cards(t, tableId, count, rolls, clock, sinks, cardIds, cardTimes)| <= count
  {
    if count > 0 {
      SideEffectsOnlyWithResult(t, tableId, count - 1, rolls, clock, sinks, cardIds, cardTimes);
    }
  }

  // ---------------------------------------------------------------------
  // History
  // ---------------------------------------------------------------------

  const HistoryLimit := 20

  /** `[...newResults, ...prev].slice(0, 20)`. */
  function UpdateHistory<T>(newResults: seq<T>, prev: seq<T>): (r: seq<T>)
    ensures |r| == if |newResults| + |prev| < HistoryLimit then |newResults| + |prev| else HistoryLimit
    ensures r == (newResults + prev)[..|r|]
  {
    var all := newResults + prev;
    if |all| <= HistoryLimit then all else all[..HistoryLimit]
  }

  /** The newest rolls come first, and older ones follow only while there
      is room. */
  lemma HistoryNewestFirst<T>(newResults: seq<T>, prev: seq<T>)
    ensures var r := UpdateHistory(newResults, prev);
      (|newResults| >= HistoryLimit ==> r == newResults[..HistoryLimit])
      && (|newResults| < HistoryLimit ==> r[..|newResults|] == newResults && r[|newResults|..] == prev[..|r| - |newResults|])
  {
    var r := UpdateHistory(newResults, prev);
    if |newResults| >= HistoryLimit {
      assert r == (newResults + prev)[..HistoryLimit];
    }
  }

  // ---------------------------------------------------------------------
  // Search
  // ---------------------------------------------------------------------

  /** A table matches a lower-cased query through its name, a tag, its
      oracle type, its category or its parent. */
  predicate Matches(d: Descriptor, q: string)
  {
    Contains(ToLower(d.name), q)
    || (exists tag :: tag in d.tags && Contains(ToLower(tag), q))
    || (d.oracleType.Some? && Contains(ToLower(d.oracleType.value), q))
    || Contains(ToLower(d.category), q)
    || Contains(ToLower(d.parentName), q)
  }

  function KeepMatching(list: seq<Descriptor>, q: string): seq<Descriptor>
  {
    if list == [] then []
    else
      var last := list[|list| - 1];
      KeepMatching(list[..|list| - 1], q) + (if Matches(last, q) then [last] else [])
  }

  /** `filtered`: every table for a blank query; otherwise a table is kept
      exactly when it matches the trimmed, lower-cased query. */
  function Filtered(list: seq<Descriptor>, query: string): (kept: seq<Descriptor>)
    ensures Trim(query) == [] ==> kept == list
    ensures Trim(query) != [] ==> forall d :: d in kept <==> d in list && Matches(d, ToLower(Trim(query)))
  {
    var q := ToLower(Trim(query));
    KeepMatchingExactly(list, q);
    if q == [] then list else KeepMatching(list, q)
  }

  lemma {:induction false} KeepMatchingExactly(list: seq<Descriptor>, q: string)
    ensures forall d :: d in KeepMatching(list, q) <==> d in list && Matches(d, q)
    ensures |KeepMatching(list, q)| <= |list|
  {
    if list != [] {
      KeepMatchingExactly(list[..|list| - 1], q);
      assert list == list[..|list| - 1] + [list[|list| - 1]];
    }
  }

  // ---------------------------------------------------------------------
  // Grouping
  // ---------------------------------------------------------------------

  type Groups = map<string, map<string, seq<Descriptor>>>

  function CategoryKey(d: Descriptor): string
  {
    if d.category != [] then d.category else "Other"
  }

  function ParentKey(d: Descriptor): string
  {
    if d.parentName != [] then d.parentName else "Unknown"
  }

  /** One descriptor pushed onto the end of its bucket. */
  function AddToGroups(g: Groups, d: Descriptor): Groups
  {
    var c := CategoryKey(d);
    var p := ParentKey(d);
    var inner := if c in g then g[c] else map[];
    var bucket := if p in inner then inner[p] else [];
    g[c := inner[p := bucket + [d]]]
  }

  function GroupsOf(ds: seq<Descriptor>): Groups
  {
    if ds == [] then map[] else AddToGroups(GroupsOf(ds[..|ds| - 1]), ds[|ds| - 1])
  }

  /** The descriptors of one bucket, in list order. */
  function Bucket(ds: seq<Descriptor>, c: string, p: string): seq<Descriptor>
  {
    if ds == [] then []
    else
      var last := ds[|ds| - 1];
      Bucket(ds[..|ds| - 1], c, p) + (if CategoryKey(last) == c && ParentKey(last) == p then [last] else [])
  }

  /** `grouped`: the filtered tables by category, then by parent. */
  method Group(filtered: seq<Descriptor>) returns (groups: Groups)
    ensures groups == GroupsOf(filtered)
  {
    groups := map[];
    for i := 0 to |filtered|
      invariant groups == GroupsOf(filtered[..i])
    {
      var td := filtered[i];
      ghost var before := groups;
      var category := if td.category != [] then td.category else "Other";
      var parent := if td.parentName != [] then td.parentName else "Unknown";
      if category !in groups {
        groups := groups[category := map[]];
      }
      if parent !in groups[category] {
        groups := groups[category := groups[category][parent := []]];
      }
      assert groups == Prepared(before, category, parent);
      ghost var prepared := groups;
      groups := groups[category := groups[category][parent := groups[category][parent] + [td]]];
      AddViaPrepared(before, prepared, td);
      assert filtered[..i + 1] == filtered[..i] + [td];
    }
    assert filtered[..|filtered|] == filtered;
  }

  /** The groups once the bucket of `c` and `p` exists. */
  function Prepared(g: Groups, c: string, p: string): (r: Groups)
    ensures c in r && p in r[c]
  {
    var g1 := if c !in g then g[c := map[]] else g;
    if p !in g1[c] then g1[c := g1[c][p := []]] else g1
  }

  /** Preparing the bucket and pushing onto it adds the descriptor. */
  lemma AddViaPrepared(before: Groups, prepared: Groups, d: Descriptor)
    requires prepared == Prepared(before, CategoryKey(d), ParentKey(d))
    ensures var c := CategoryKey(d);
      var p := ParentKey(d);
      prepared[c := prepared[c][p := prepared[c][p] + [d]]] == AddToGroups(before, d)
  {
    var c := CategoryKey(d);
    var p := ParentKey(d);
    var inner := if c in before then before[c] else map[];
    var bucket := if p in inner then inner[p] else [];
    PreparedIs(before, c, p);
    var pushed := inner[p := bucket + [d]];
    assert prepared[c][p := prepared[c][p] + [d]] == pushed;
    assert before[c := inner[p := bucket]][c := pushed] == before[c := pushed];
  }

  lemma PreparedIs(g: Groups, c: string, p: string)
    ensures var inner := if c in g then g[c] else map[];
      Prepared(g, c, p) == g[c := inner[p := if p in inner then inner[p] else []]]
  {
    var inner := if c in g then g[c] else map[];
    if c in g {
      assert g == g[c := inner];
    }
    if p in inner {
      assert inner == inner[p := inner[p]];
    }
  }

  predicate InBucket(d: Descriptor, c: string, p: string)
  {
    CategoryKey(d) == c && ParentKey(d) == p
  }

  /** Adding a descriptor creates or extends its own bucket only. */
  lemma AddToGroupsFacts(g: Groups, d: Descriptor)
    ensures var g' := AddToGroups(g, d);
      var c0 := CategoryKey(d);
      var p0 := ParentKey(d);
      (forall c :: c in g' <==> c in g || c == c0)
      && (forall c :: c in g && c != c0 ==> g'[c] == g[c])
      && (forall p :: p in g'[c0] <==> (c0 in g && p in g[c0]) || p == p0)
      && (forall p :: c0 in g && p in g[c0] && p != p0 ==> g'[c0][p] == g[c0][p])
      && g'[c0][p0] == (if c0 in g && p0 in g[c0] then g[c0][p0] else []) + [d]
  {
  }

  /** A category is present exactly when some descriptor has it. */
  lemma {:induction false} CategoryKeys(ds: seq<Descriptor>)
    ensures forall c :: c in GroupsOf(ds) <==> exists k :: 0 <= k < |ds| && CategoryKey(ds[k]) == c
  {
    if ds != [] {
      var n := |ds| - 1;
      var init := ds[..n];
      CategoryKeys(init);
      AddToGroupsFacts(GroupsOf(init), ds[n]);
      forall c ensures c in GroupsOf(ds) <==> exists k :: 0 <= k < |ds| && CategoryKey(ds[k]) == c {
        if c in GroupsOf(init) {
          var k :| 0 <= k < |init| && CategoryKey(init[k]) == c;
          assert ds[k] == init[k];
        }
        if exists k :: 0 <= k < |ds| && CategoryKey(ds[k]) == c {
          var k :| 0 <= k < |ds| && CategoryKey(ds[k]) == c;
          if k < n {
            assert init[k] == ds[k];
          }
        }
      }
    }
  }

  /** Under a present category, a parent is present exactly when some
      descriptor has both. */
  lemma {:induction false} ParentKeys(ds: seq<Descriptor>, c: string, p: string)
    requires c in GroupsOf(ds)
    ensures p in GroupsOf(ds)[c] <==> exists k :: 0 <= k < |ds| && InBucket(ds[k], c, p)
  {
    var n := |ds| - 1;
    var init := ds[..n];
    var d := ds[n];
    AddToGroupsFacts(GroupsOf(init), d);
    var before := exists k :: 0 <= k < n && InBucket(init[k], c, p);
    if c in GroupsOf(init) {
      ParentKeys(init, c, p);
    } else {
      CategoryKeys(init);
      assert !before;
    }
    if before {
      var k :| 0 <= k < n && InBucket(init[k], c, p);
      assert ds[k] == init[k];
    }
    if exists k :: 0 <= k < |ds| && InBucket(ds[k], c, p) {
      var k :| 0 <= k < |ds| && InBucket(ds[k], c, p);
      if k < n {
        assert init[k] == ds[k];
      }
    }
  }

  /** Each bucket lists the descriptors that belong to it, in list order. */
  lemma {:induction false} GroupsBuckets(ds: seq<Descriptor>)
    ensures forall c, p :: c in GroupsOf(ds) && p in GroupsOf(ds)[c] ==> GroupsOf(ds)[c][p] == Bucket(ds, c, p)
  {
    if ds != [] {
      var n := |ds| - 1;
      var init := ds[..n];
      var d := ds[n];
      var g := GroupsOf(init);
      GroupsBuckets(init);
      AddToGroupsFacts(g, d);
      forall c, p | c in GroupsOf(ds) && p in GroupsOf(ds)[c]
        ensures GroupsOf(ds)[c][p] == Bucket(ds, c, p)
      {
        if InBucket(d, c, p) && !(c in g && p in g[c]) {
          if c in g {
            ParentKeys(init, c, p);
          } else {
            CategoryKeys(init);
          }
          assert forall k :: 0 <= k < |init| ==> !InBucket(init[k], c, p);
          BucketEmpty(init, c, p);
        }
      }
    }
  }

  /** A bucket no descriptor belongs to is empty. */
  lemma {:induction false} BucketEmpty(ds: seq<Descriptor>, c: string, p: string)
    requires forall k :: 0 <= k < |ds| ==> !InBucket(ds[k], c, p)
    ensures Bucket(ds, c, p) == []
  {
    if ds != [] {
      BucketEmpty(ds[..|ds| - 1], c, p);
    }
  }

  lemma {:induction false} BucketMembers(ds: seq<Descriptor>, c: string, p: string)
    ensures forall x :: x in Bucket(ds, c, p) <==> x in ds && InBucket(x, c, p)
  {
    if ds != [] {
      BucketMembers(ds[..|ds| - 1], c, p);
      assert ds == ds[..|ds| - 1] + [ds[|ds| - 1]];
    }
  }

  /** Each grouped table sits in exactly one bucket: the one named by its
      category (or "Other") and parent (or "Unknown"). */
  lemma ExactlyOneBucket(ds: seq<Descriptor>, d: Descriptor, c: string, p: string)
    requires d in ds
    ensures (c in GroupsOf(ds) && p in GroupsOf(ds)[c] && d in GroupsOf(ds)[c][p]) <==> InBucket(d, c, p)
  {
    CategoryKeys(ds);
    if c in GroupsOf(ds) {
      ParentKeys(ds, c, p);
    }
    GroupsBuckets(ds);
    BucketMembers(ds, c, p);
  }
}
