/** The table registry: the bundled table files under the `aspects` and
    `domains` folders become a list of table descriptors and a lookup from
    table id to table. The registry reads the files once, on first use, and
    keeps the result. Which files are bundled is fixed when the application
    is built, so here they are the registry's constructor argument. */
module TableRegistry {
  import opened Wrappers
  import opened Text

  /** A row as a table file stores it; floor and ceiling are `None` where the
      file does not give them as numbers. */
  datatype StoredRow = StoredRow(floor: Option<int>, ceiling: Option<int>, result: Option<string>)

  /** A table as a bundled file holds it. */
  datatype RawTable = RawTable(
    name: Option<string>, oracleType: Option<string>, tags: Option<seq<string>>,
    maxRoll: Option<int>, tableData: seq<StoredRow>)

  /** A file's default export: an array of tables, or the old object format. */
  datatype FileValue = TableArray(tables: seq<RawTable>) | OldFormat

  datatype TableFile = TableFile(path: string, value: FileValue)

  /** A table as the registry hands it out: the stored table with its
      display name, category, merged tags and source path. */
  datatype Table = Table(
    name: string, category: string, tags: seq<string>, sourcePath: string,
    oracleType: Option<string>, maxRoll: Option<int>, tableData: seq<StoredRow>)

  /** What the table list shows for one table. */
  datatype Descriptor = Descriptor(
    id: string, name: string, category: string, oracleType: Option<string>,
    tags: seq<string>, sourcePath: string, parentName: string)

  datatype Entry = Entry(descriptor: Descriptor, table: Table)

  datatype Cache = Cache(list: seq<Descriptor>, byId: map<string, Table>)

  // ---------------------------------------------------------------------
  // Names and paths

  /** `titleCase`: the first character upper-cased, the rest as it was. */
  function TitleCase(slug: string): (r: string)
    ensures |r| == |slug|
    ensures slug != [] ==> r[0] == UpperChar(slug[0]) && r[1..] == slug[1..]
  {
    if slug == [] then slug else [UpperChar(slug[0])] + slug[1..]
  }

  /** Title-casing a title-cased name changes nothing. */
  lemma TitleCaseIdempotent(slug: string)
    ensures TitleCase(TitleCase(slug)) == TitleCase(slug)
  {
    if slug != [] {
      var t := TitleCase(slug);
      assert UpperChar(t[0]) == t[0];
      assert t == [t[0]] + t[1..];
    }
  }

  /** `normalizeSourcePath`: the path from its last `electron` on, with
      forward slashes and a leading `/`; a path without `electron` is kept.
      A path mentioning `electron` thus starts with "/electron" and has no
      backslash left. */
  function NormalizeSourcePath(path: string): (r: string)
    ensures (forall k: nat :: !OccursAt(path, "electron", k)) ==> r == path
    ensures (exists k: nat :: OccursAt(path, "electron", k)) ==> StartsWith(r, "/electron") && '\\' !in r
  {
    match LastOccurrence(path, "electron")
    case None => path
    case Some(i) =>
      assert OccursAt(path, "electron", i);
      assert path[i..][..8] == path[i..i + 8];
      ReplaceKeepsPrefix(path[i..], '\\', '/', "electron");
      "/" + ReplaceChar(path[i..], '\\', '/')
  }

  /** Replacing a character the prefix does not hold keeps the prefix and
      leaves none of that character. */
  lemma ReplaceKeepsPrefix(s: string, a: char, b: char, prefix: string)
    requires StartsWith(s, prefix) && a !in prefix && a != b && a != '/'
    ensures var r := "/" + ReplaceChar(s, a, b); StartsWith(r, "/" + prefix) && a !in r
  {
    var t := ReplaceChar(s, a, b);
    assert forall k :: 0 <= k < |t| ==> t[k] != a;
    assert t[..|prefix|] == prefix by {
      forall k | 0 <= k < |prefix| ensures t[k] == prefix[k] {
        assert s[k] == prefix[k];
      }
    }
    assert ("/" + t)[..|prefix| + 1] == "/" + t[..|prefix|];
  }

  predicate IsPathSeparator(c: char) { c == '/' || c == '\\' }

  /** `path.split(/[/\\]/).pop()`: the text after the last separator. */
  function FileName(path: string): (r: string)
    ensures |r| <= |path| && r == path[|path| - |r|..]
    ensures forall i :: 0 <= i < |r| ==> !IsPathSeparator(r[i])
    ensures |r| < |path| ==> IsPathSeparator(path[|path| - |r| - 1])
  {
    if path == [] || IsPathSeparator(path[|path| - 1]) then []
    else FileName(path[..|path| - 1]) + [path[|path| - 1]]
  }

  predicate HasJsonSuffix(fileName: string)
  {
    |fileName| >= 5 && ToLower(fileName[|fileName| - 5..]) == ".json"
  }

  /** The file name without a final `.json`, in any letter case. */
  function Slug(fileName: string): (r: string)
    ensures r <= fileName
    ensures HasJsonSuffix(fileName) ==> |r| == |fileName| - 5
    ensures !HasJsonSuffix(fileName) ==> r == fileName
  {
    if HasJsonSuffix(fileName) then fileName[..|fileName| - 5] else fileName
  }

  /** The parent's display name: the title-cased slug of the file name. */
  function ParentName(path: string): string
  {
    TitleCase(Slug(FileName(path)))
  }

  /** Files under `/domains/` are Domain tables, files under `/aspects/`
      Aspect tables, and any other file is not registered. */
  function CategoryOf(path: string): (r: Option<string>)
    ensures r == Some("Domain") <==> Contains(path, "/domains/")
    ensures r == Some("Aspect") <==> !Contains(path, "/domains/") && Contains(path, "/aspects/")
    ensures r.None? <==> !Contains(path, "/domains/") && !Contains(path, "/aspects/")
  {
    if Contains(path, "/domains/") then Some("Domain")
    else if Contains(path, "/aspects/") then Some("Aspect")
    else None
  }

  /** JavaScript truthiness of an optional string. */
  predicate Truthy(s: Option<string>) { s.Some? && s.value != [] }

  /** `oracle_type || name || "Table {index + 1}"`. */
  function OracleTypeOf(t: RawTable, index: nat): (r: string)
    ensures r != []
  {
    if Truthy(t.oracleType) then t.oracleType.value
    else if Truthy(t.name) then t.name.value
    else "Table " + NatToString(index + 1)
  }

  // ---------------------------------------------------------------------
  // Tags

  predicate NoDuplicates(s: seq<string>)
  {
    forall i, j :: 0 <= i < j < |s| ==> s[i] != s[j]
  }

  /** `Array.from(new Set(s))`: each value once, at its first occurrence. */
  function Dedup(s: seq<string>): (r: seq<string>)
    ensures NoDuplicates(r)
    ensures forall x :: x in r <==> x in s
  {
    if s == [] then []
    else
      var d := Dedup(s[..|s| - 1]);
      if s[|s| - 1] in d then d else d + [s[|s| - 1]]
  }

  /** Adding values at the end never reorders the values already kept. */
  lemma {:induction false} DedupExtends(a: seq<string>, b: seq<string>)
    ensures Dedup(a) <= Dedup(a + b)
    decreases |b|
  {
    if b == [] {
      assert a + b == a;
    } else {
      var b' := b[..|b| - 1];
      DedupExtends(a, b');
      assert (a + b)[..|a + b| - 1] == a + b';
    }
  }

  /** A list without repeats is its own de-duplication. */
  lemma {:induction false} DedupOfDistinct(s: seq<string>)
    requires NoDuplicates(s)
    ensures Dedup(s) == s
  {
    if s != [] {
      var init := s[..|s| - 1];
      assert NoDuplicates(init);
      DedupOfDistinct(init);
      assert s[|s| - 1] !in init;
      assert init + [s[|s| - 1]] == s;
    }
  }

  /** The stored tags followed by the lower-cased category, parent name and
      oracle type, each kept once. */
  function MergedTags(existing: Option<seq<string>>, category: string, parentName: string, oracleType: string): seq<string>
  {
    Dedup(existing.GetOr([]) + [ToLower(category), ToLower(parentName), ToLower(oracleType)])
  }

  /** The merged tags hold no repeats, begin with the stored tags when those
      are distinct, and are exactly the stored tags plus the three
      lower-cased names. */
  lemma MergedTagsShape(existing: Option<seq<string>>, category: string, parentName: string, oracleType: string)
    ensures var tags := MergedTags(existing, category, parentName, oracleType);
      NoDuplicates(tags) &&
      (forall x :: x in tags <==> x in existing.GetOr([]) || x == ToLower(category) || x == ToLower(parentName) || x == ToLower(oracleType)) &&
      (NoDuplicates(existing.GetOr([])) ==> existing.GetOr([]) <= tags)
  {
    var stored := existing.GetOr([]);
    var added := [ToLower(category), ToLower(parentName), ToLower(oracleType)];
    if NoDuplicates(stored) {
      DedupOfDistinct(stored);
      DedupExtends(stored, added);
    }
  }

  // ---------------------------------------------------------------------
  // Registration

  /** The descriptor and the normalised table for the `index`-th table of a
      file: the two agree on name, category, tags and source path; the id
      extends "{category}:{parent}:" with a non-empty oracle type; the tags
      have no duplicates and are exactly the table's own tags plus the
      lower-cased category, parent and oracle type. */
  function Register(category: string, parentName: string, sourcePath: string, t: RawTable, index: nat): (e: Entry)
    ensures e.table == Table(e.descriptor.name, category, e.descriptor.tags, sourcePath, t.oracleType, t.maxRoll, t.tableData)
    ensures e.descriptor.category == category && e.descriptor.sourcePath == sourcePath && e.descriptor.parentName == parentName
    ensures |e.descriptor.id| > |category + ":" + parentName + ":"| && StartsWith(e.descriptor.id, category + ":" + parentName + ":")
    ensures NoDuplicates(e.descriptor.tags)
    ensures forall x :: x in e.descriptor.tags <==>
      x in t.tags.GetOr([]) || x == ToLower(category) || x == ToLower(parentName) || x == ToLower(OracleTypeOf(t, index))
  {
    var oracleType := OracleTypeOf(t, index);
    var id := category + ":" + parentName + ":" + oracleType;
    var fullName := parentName + ": " + (if Truthy(t.name) then t.name.value else oracleType);
    var tags := MergedTags(t.tags, category, parentName, oracleType);
    MergedTagsShape(t.tags, category, parentName, oracleType);
    Entry(
      Descriptor(id, fullName, category, t.oracleType, tags, sourcePath, parentName),
      Table(fullName, category, tags, sourcePath, t.oracleType, t.maxRoll, t.tableData))
  }

  /** The entries of the first `n` tables of a file. */
  function TableEntries(category: string, parentName: string, sourcePath: string, tables: seq<RawTable>, n: nat): (entries: seq<Entry>)
    requires n <= |tables|
    ensures |entries| == n
  {
    seq(n, k requires 0 <= k < n => Register(category, parentName, sourcePath, tables[k], k))
  }

  /** The entries one file contributes: one per table, or none for a file
      in the old format or outside `aspects` and `domains`. */
  function FileEntries(f: TableFile): seq<Entry>
  {
    match f.value
    case OldFormat => []
    case TableArray(tables) =>
      match CategoryOf(f.path)
      case None => []
      case Some(category) => TableEntries(category, ParentName(f.path), NormalizeSourcePath(f.path), tables, |tables|)
  }

  /** Every file's entries, file by file. */
  function AllEntries(files: seq<TableFile>): seq<Entry>
  {
    if files == [] then [] else AllEntries(files[..|files| - 1]) + FileEntries(files[|files| - 1])
  }

  function Descriptors(entries: seq<Entry>): (list: seq<Descriptor>)
    ensures |list| == |entries| && forall i :: 0 <= i < |entries| ==> list[i] == entries[i].descriptor
  {
    seq(|entries|, i requires 0 <= i < |entries| => entries[i].descriptor)
  }

  /** `byId[id] = normalized` for each entry in turn, starting from `m`: a
      later table with the same id replaces an earlier one. */
  function Put(m: map<string, Table>, entries: seq<Entry>): map<string, Table>
  {
    if entries == [] then m
    else Put(m, entries[..|entries| - 1])[entries[|entries| - 1].descriptor.id := entries[|entries| - 1].table]
  }

  function ById(entries: seq<Entry>): map<string, Table>
  {
    Put(map[], entries)
  }

  function Built(files: seq<TableFile>): Cache
  {
    var entries := AllEntries(files);
    Cache(Descriptors(entries), ById(entries))
  }

  /** Storing two runs of entries is storing the first, then the second. */
  lemma {:induction false} PutAppend(m: map<string, Table>, a: seq<Entry>, b: seq<Entry>)
    ensures Put(m, a + b) == Put(Put(m, a), b)
    decreases |b|
  {
    if b == [] {
      assert a + b == a;
    } else {
      var init := b[..|b| - 1];
      PutAppend(m, a, init);
      assert (a + b)[..|a + b| - 1] == a + init;
    }
  }

  lemma DescriptorsAppend(a: seq<Entry>, b: seq<Entry>)
    ensures Descriptors(a + b) == Descriptors(a) + Descriptors(b)
  {
  }

  /** The lookup returns the table of the last entry with a given id. */
  lemma {:induction false} ByIdLast(m: map<string, Table>, entries: seq<Entry>, k: nat)
    requires k < |entries|
    requires forall j :: k < j < |entries| ==> entries[j].descriptor.id != entries[k].descriptor.id
    ensures entries[k].descriptor.id in Put(m, entries)
    ensures Put(m, entries)[entries[k].descriptor.id] == entries[k].table
  {
    if k < |entries| - 1 {
      ByIdLast(m, entries[..|entries| - 1], k);
    }
  }

  /** The lookup knows exactly the starting ids and the entries' ids. */
  lemma {:induction false} ByIdKeys(m: map<string, Table>, entries: seq<Entry>)
    ensures forall id :: id in Put(m, entries) <==> id in m || exists k :: 0 <= k < |entries| && entries[k].descriptor.id == id
  {
    if entries != [] {
      var init := entries[..|entries| - 1];
      ByIdKeys(m, init);
      forall id | id in Put(m, entries) && id !in m
        ensures exists k :: 0 <= k < |entries| && entries[k].descriptor.id == id
      {
        if id != entries[|entries| - 1].descriptor.id {
          assert id in Put(m, init);
          var k :| 0 <= k < |init| && init[k].descriptor.id == id;
          assert entries[k] == init[k];
        }
      }
      forall id | exists k :: 0 <= k < |entries| && entries[k].descriptor.id == id
        ensures id in Put(m, entries)
      {
        var k :| 0 <= k < |entries| && entries[k].descriptor.id == id;
        if k < |entries| - 1 {
          assert init[k] == entries[k];
        }
      }
    }
  }

  /** The table list and the lookup agree: an id is listed exactly when
      the lookup knows it. */
  lemma ListedIdsAreKeys(entries: seq<Entry>)
    ensures forall id :: id in ById(entries) <==> exists i :: 0 <= i < |Descriptors(entries)| && Descriptors(entries)[i].id == id
  {
    ByIdKeys(map[], entries);
    var list := Descriptors(entries);
    forall id | id in ById(entries)
      ensures exists i :: 0 <= i < |list| && list[i].id == id
    {
      var k :| 0 <= k < |entries| && entries[k].descriptor.id == id;
      assert list[k].id == id;
    }
    forall id | exists i :: 0 <= i < |list| && list[i].id == id
      ensures id in ById(entries)
    {
      var i :| 0 <= i < |list| && list[i].id == id;
      assert entries[i].descriptor.id == id;
    }
  }

  /** A file in the old format, or outside `aspects` and `domains`,
      registers nothing; any other file registers one entry per table, with
      the id `{category}:{parent}:{oracle type}`, the name `{parent}: {name
      or oracle type}` and the same name, category, tags and source path on
      the descriptor and the table. */
  lemma FileEntriesShape(f: TableFile)
    ensures (f.value.OldFormat? || CategoryOf(f.path).None?) ==> FileEntries(f) == []
    ensures f.value.TableArray? && CategoryOf(f.path).Some? ==>
      var c := CategoryOf(f.path).value;
      var entries := FileEntries(f);
      |entries| == |f.value.tables| &&
      forall k :: 0 <= k < |entries| ==>
        var t := f.value.tables[k];
        var d := entries[k].descriptor;
        var oracleType := OracleTypeOf(t, k);
        d.id == c + ":" + ParentName(f.path) + ":" + oracleType &&
        d.name == ParentName(f.path) + ": " + (if Truthy(t.name) then t.name.value else oracleType) &&
        d.parentName == ParentName(f.path) && d.sourcePath == NormalizeSourcePath(f.path) &&
        d.oracleType == t.oracleType &&
        entries[k].table == Table(d.name, c, d.tags, d.sourcePath, t.oracleType, t.maxRoll, t.tableData) &&
        d.tags == MergedTags(t.tags, c, d.parentName, oracleType)
  {
  }

  /** Registering one more table of a file. */
  lemma TableEntriesStep(m: map<string, Table>, category: string, parentName: string, sourcePath: string, tables: seq<RawTable>, index: nat)
    requires index < |tables|
    ensures var e := Register(category, parentName, sourcePath, tables[index], index);
      var now := TableEntries(category, parentName, sourcePath, tables, index);
      var next := TableEntries(category, parentName, sourcePath, tables, index + 1);
      Descriptors(next) == Descriptors(now) + [e.descriptor] &&
      Put(m, next) == Put(m, now)[e.descriptor.id := e.table]
  {
    var e := Register(category, parentName, sourcePath, tables[index], index);
    var now := TableEntries(category, parentName, sourcePath, tables, index);
    var next := TableEntries(category, parentName, sourcePath, tables, index + 1);
    assert next == now + [e];
    assert next[..|next| - 1] == now;
  }

  /** The `forEach` over one file's tables: each table's descriptor is
      appended to the list and its table stored under its id. */
  method RegisterTables(list: seq<Descriptor>, byId: map<string, Table>, category: string, parentName: string, sourcePath: string, tables: seq<RawTable>)
    returns (list': seq<Descriptor>, byId': map<string, Table>)
    ensures list' == list + Descriptors(TableEntries(category, parentName, sourcePath, tables, |tables|))
    ensures byId' == Put(byId, TableEntries(category, parentName, sourcePath, tables, |tables|))
  {
    list', byId' := list, byId;
    for index := 0 to |tables|
      invariant list' == list + Descriptors(TableEntries(category, parentName, sourcePath, tables, index))
      invariant byId' == Put(byId, TableEntries(category, parentName, sourcePath, tables, index))
    {
      var e := Register(category, parentName, sourcePath, tables[index], index);
      TableEntriesStep(byId, category, parentName, sourcePath, tables, index);
      byId' := byId'[e.descriptor.id := e.table];
      list' := list' + [e.descriptor];
    }
  }

  // ---------------------------------------------------------------------
  // The registry

  class Registry {
    const files: seq<TableFile>
    var cache: Option<Cache>

    /** The cache is either not built yet or built from the files. */
    predicate Valid()
      reads this
    {
      cache.None? || cache == Some(Built(files))
    }

    constructor(files: seq<TableFile>)
      ensures this.files == files && cache == None
      ensures Valid()
    {
      this.files := files;
      cache := None;
    }

    /** `buildCaches`: a second call keeps the first call's cache. */
    method BuildCaches()
      requires Valid()
      modifies this
      ensures Valid()
      ensures cache == Some(Built(files))
      ensures old(cache).Some? ==> cache == old(cache)
    {
      if cache.Some? {
        return;
      }
      var list: seq<Descriptor> := [];
      var byId: map<string, Table> := map[];
      for i := 0 to |files|
        invariant list == Descriptors(AllEntries(files[..i]))
        invariant byId == ById(AllEntries(files[..i]))
      {
        var f := files[i];
        assert files[..i + 1][..i] == files[..i];
        ghost var before := AllEntries(files[..i]);
        assert AllEntries(files[..i + 1]) == before + FileEntries(f);
        if f.value.OldFormat? {
          assert before + FileEntries(f) == before;
          continue;
        }
        var category := CategoryOf(f.path);
        if category.None? {
          assert before + FileEntries(f) == before;
          continue;
        }
        DescriptorsAppend(before, FileEntries(f));
        PutAppend(map[], before, FileEntries(f));
        list, byId := RegisterTables(list, byId, category.value, ParentName(f.path), NormalizeSourcePath(f.path), f.value.tables);
      }
      assert files[..|files|] == files;
      cache := Some(Cache(list, byId));
    }

    /** `fetchTableList`: every registered table, file by file. */
    method FetchTableList() returns (list: seq<Descriptor>)
      requires Valid()
      modifies this
      ensures Valid() && cache == Some(Built(files))
      ensures list == Descriptors(AllEntries(files))
    {
      BuildCaches();
      list := cache.value.list;
    }

    /** `fetchTableById`: the table registered last under `id`, or the
        error "Unknown table id: {id}". */
    method FetchTableById(id: string) returns (r: Result<Table, string>)
      requires Valid()
      modifies this
      ensures Valid() && cache == Some(Built(files))
      ensures r == if id in ById(AllEntries(files)) then Ok(ById(AllEntries(files))[id]) else Err("Unknown table id: " + id)
    {
      BuildCaches();
      var byId := cache.value.byId;
      if id !in byId {
        return Err("Unknown table id: " + id);
      }
      r := Ok(byId[id]);
    }
  }

  /** Every id in the table list can be fetched, and fetching it gives the
      table registered last under that id. */
  lemma ListedIdsFetchable(files: seq<TableFile>, k: nat)
    requires k < |AllEntries(files)|
    ensures var entries := AllEntries(files);
      var id := Built(files).list[k].id;
      id in Built(files).byId &&
      ((forall j :: k < j < |entries| ==> entries[j].descriptor.id != id) ==> Built(files).byId[id] == entries[k].table)
  {
    var entries := AllEntries(files);
    var id := entries[k].descriptor.id;
    ByIdKeys(map[], entries);
    if forall j :: k < j < |entries| ==> entries[j].descriptor.id != id {
      ByIdLast(map[], entries, k);
    }
  }
}
