/** The desktop shell's Tapestry storage rules (electron/main.js): how
    user-chosen names are cleaned, how separators are normalised, how a
    relative path is kept inside the active Tapestry, how new folders and
    entries get names no sibling holds, how renaming keeps a file's
    extension, and how a directory listing becomes the sorted Tapestry
    tree. The file system appears only as the names a directory holds and
    as a listing value; creating, renaming and writing files is not part
    of the model. */
module TapestryPaths {
  import opened Wrappers
  import opened Text
  import opened Sorting

  /** The characters `sanitizeName` deletes and a new Tapestry's name has
      replaced by '-': the two character classes of the source list the
      same nine characters. */
  const Reserved: set<char> := {'<', '>', ':', '"', '/', '\\', '|', '?', '*'}

  predicate Avoids(s: string, cs: set<char>)
  {
    forall i :: 0 <= i < |s| ==> s[i] !in cs
  }

  /** `s` with every character of `cs` deleted. */
  function Without(s: string, cs: set<char>): string
  {
    if s == [] then [] else (if s[0] in cs then [] else [s[0]]) + Without(s[1..], cs)
  }

  lemma {:induction false} WithoutAvoids(s: string, cs: set<char>)
    ensures Avoids(Without(s, cs), cs)
    decreases |s|
  {
    if s != [] {
      WithoutAvoids(s[1..], cs);
      var h: string := if s[0] in cs then [] else [s[0]];
      var r := Without(s[1..], cs);
      forall i | 0 <= i < |h + r| ensures (h + r)[i] !in cs {
        if i >= |h| {
          assert (h + r)[i] == r[i - |h|];
        }
      }
    }
  }

  lemma {:induction false} WithoutKeeps(s: string, cs: set<char>)
    requires Avoids(s, cs)
    ensures Without(s, cs) == s
    decreases |s|
  {
    if s != [] {
      assert Avoids(s[1..], cs) by {
        forall i | 0 <= i < |s[1..]| ensures s[1..][i] !in cs {
          assert s[1..][i] == s[i + 1];
        }
      }
      WithoutKeeps(s[1..], cs);
      assert s == [s[0]] + s[1..];
    }
  }

  lemma AvoidsPiece(s: string, cs: set<char>, a: nat, b: nat)
    requires Avoids(s, cs) && a <= b <= |s|
    ensures Avoids(s[a..b], cs)
  {
    forall i | 0 <= i < b - a ensures s[a..b][i] !in cs {
      assert s[a..b][i] == s[a + i];
    }
  }

  lemma TrimAvoids(s: string, cs: set<char>)
    requires Avoids(s, cs)
    ensures Avoids(Trim(s), cs)
  {
    var t := TrimStart(s);
    assert t == s[|s| - |t|..|s|];
    AvoidsPiece(s, cs, |s| - |t|, |s|);
    var r := TrimEnd(t);
    AvoidsPiece(t, cs, 0, |r|);
  }

  /** `sanitizeName`: the reserved characters deleted, then the outer
      white space trimmed. A sanitised name holds no reserved character and
      no outer white space, and sanitising it again changes nothing. */
  function SanitizeName(name: string): (r: string)
    ensures Avoids(r, Reserved) && (r == [] || (!IsSpace(r[0]) && !IsSpace(r[|r| - 1])))
  {
    var w := Without(name, Reserved);
    WithoutAvoids(name, Reserved);
    TrimAvoids(w, Reserved);
    TrimEnds(w);
    Trim(w)
  }

  /** Sanitising is idempotent. */
  lemma SanitizeNameIdempotent(name: string)
    ensures SanitizeName(SanitizeName(name)) == SanitizeName(name)
  {
    var w := Without(name, Reserved);
    assert SanitizeName(name) == Trim(w);
    WithoutKeeps(Trim(w), Reserved);
    TrimIdempotent(w);
  }

  /** Every reserved character replaced by '-' (the first step of
      `createTapestryOnDisk`). */
  function DashReserved(name: string): (r: string)
    ensures |r| == |name|
  {
    seq(|name|, i requires 0 <= i < |name| => if name[i] in Reserved then '-' else name[i])
  }

  /** The name a new Tapestry gets, or the error for a name with nothing
      left after trimming. */
  function SafeTapestryName(name: string): Result<string, string>
  {
    var safe := Trim(DashReserved(name));
    if safe == [] then Err("Tapestry name cannot be empty") else Ok(safe)
  }

  /** Dashing keeps white space where it was and leaves no reserved
      character. */
  lemma DashReservedRules(name: string)
    ensures Avoids(DashReserved(name), Reserved)
    ensures AllSpace(DashReserved(name)) <==> AllSpace(name)
  {
    var d := DashReserved(name);
    forall i | 0 <= i < |name| ensures IsSpace(d[i]) <==> IsSpace(name[i]) {
      assert name[i] in Reserved ==> !IsSpace(name[i]);
    }
  }

  /** A Tapestry name is refused exactly when the requested name is blank;
      an accepted one holds no reserved character and no outer white
      space, and is as long as the requested name at most. */
  lemma SafeTapestryNameRules(name: string)
    ensures SafeTapestryName(name).Err? <==> AllSpace(name)
    ensures SafeTapestryName(name).Ok? ==>
      var s := SafeTapestryName(name).value;
      s != [] && Avoids(s, Reserved) && !IsSpace(s[0]) && !IsSpace(s[|s| - 1]) && |s| <= |name|
  {
    DashReservedRules(name);
    TrimmedClean(DashReserved(name));
  }

  lemma TrimmedClean(d: string)
    requires Avoids(d, Reserved)
    ensures var t := Trim(d);
      (t == [] <==> AllSpace(d)) && Avoids(t, Reserved) && (t != [] ==> !IsSpace(t[0]) && !IsSpace(t[|t| - 1]))
  {
    TrimAvoids(d, Reserved);
    TrimEnds(d);
    TrimEmptyIffBlank(d);
  }

  /** `normalizeRelative`: every backslash turned into '/'. A normalised
      path holds no backslash and has the length of its input, and a path
      without backslashes is already normal. */
  function NormalizeRelative(v: string): (r: string)
    ensures '\\' !in r && |r| == |v|
    ensures '\\' !in v ==> r == v
  {
    ReplaceChar(v, '\\', '/')
  }

  // Unique names

  /** The `k`-th name tried for a new item: the base name, then
      `base-1`, `base-2`, and so on. */
  function Candidate(base: string, k: nat): string
  {
    if k == 0 then base else base + "-" + NatToString(k)
  }

  /** Distinct attempts name distinct files, whatever suffix follows. */
  lemma CandidateInjective(base: string, suffix: string, j: nat, k: nat)
    requires Candidate(base, j) + suffix == Candidate(base, k) + suffix
    ensures j == k
  {
    var x := Candidate(base, j);
    var y := Candidate(base, k);
    assert |x| == |y|;
    assert x == (x + suffix)[..|x|] == (y + suffix)[..|y|] == y;
    if j != 0 && k != 0 {
      assert NatToString(j) == x[|base| + 1..];
      assert NatToString(k) == y[|base| + 1..];
      NatToStringInjective(j, k);
    }
  }

  /** `name` is the first candidate whose file, `name + suffix`, the
      directory does not hold. */
  ghost predicate FirstFree(name: string, base: string, suffix: string, existing: set<string>)
  {
    name + suffix !in existing &&
    exists k: nat :: name == Candidate(base, k) && forall j :: 0 <= j < k ==> Candidate(base, j) + suffix in existing
  }

  /** The loop of `createTapestryFolder` and `createTapestryEntry`: try the
      candidates in order until `name + suffix` is not among the names the
      parent directory holds. The result is the first such candidate. */
  method UniqueName(existing: set<string>, base: string, suffix: string) returns (name: string)
    ensures name + suffix !in existing
    ensures FirstFree(name, base, suffix, existing)
  {
    name := base;
    var counter: nat := 1;
    ghost var unseen := existing;
    while name + suffix in existing
      invariant name == Candidate(base, counter - 1)
      invariant forall j :: 0 <= j < counter - 1 ==> Candidate(base, j) + suffix in existing
      invariant unseen <= existing
      invariant forall x :: x in existing && x !in unseen ==>
        exists j :: 0 <= j < counter - 1 && x == Candidate(base, j) + suffix
      decreases |unseen|
    {
      if name + suffix !in unseen {
        var j :| 0 <= j < counter - 1 && name + suffix == Candidate(base, j) + suffix;
        CandidateInjective(base, suffix, j, counter - 1);
        assert false;
      }
      unseen := unseen - {name + suffix};
      name := base + "-" + NatToString(counter);
      counter := counter + 1;
    }
  }

  /** The name `createTapestryFolder` starts from. */
  function FolderBase(folderName: string): string
  {
    if SanitizeName(folderName) == [] then "New Folder" else SanitizeName(folderName)
  }

  /** The name `createTapestryEntry` starts from. */
  function EntryBase(entryName: string): string
  {
    if SanitizeName(entryName) == [] then "Untitled Entry" else SanitizeName(entryName)
  }

  /** The names `existsSync(path.join(dir, n))` finds in a directory that
      holds `entries`: `path.join` resolves "." to the directory itself
      and ".." to its parent, and both always exist. */
  function Found(entries: set<string>): set<string>
  {
    entries + {".", ".."}
  }

  /** The folder `createTapestryFolder` makes among `existing`: the first
      candidate from the sanitised name (or "New Folder") that
      `existsSync` does not find, so never "." or "..". */
  method CreateFolderName(existing: set<string>, folderName: string) returns (name: string)
    ensures name !in existing && name != "." && name != ".."
    ensures FirstFree(name, FolderBase(folderName), "", Found(existing))
  {
    var safe := SanitizeName(folderName);
    if safe == [] {
      safe := "New Folder";
    }
    assert safe == FolderBase(folderName);
    name := UniqueName(Found(existing), safe, "");
    assert name + "" == name;
  }

  /** "." and ".." pass through sanitising unchanged. */
  lemma DotsSanitized()
    ensures SanitizeName(".") == "." && SanitizeName("..") == ".."
  {
    var one: string := ".";
    var two: string := "..";
    WithoutKeeps(one, Reserved);
    WithoutKeeps(two, Reserved);
    TrimOfTrimmed(one);
    TrimOfTrimmed(two);
  }

  /** A folder asked for as "." or ".." is created as ".-1" or "..-1"
      when the directory holds no entry of that name: the bare name is
      always found. */
  lemma DotFolderSuffixed(existing: set<string>, base: string, name: string)
    requires base == "." || base == ".."
    requires FirstFree(name, base, "", Found(existing))
    requires base + "-1" !in existing
    ensures name == base + "-1"
  {
    var k: nat :| name == Candidate(base, k) &&
      forall j :: 0 <= j < k ==> Candidate(base, j) + "" in Found(existing);
    BareNameFound(existing, base);
    SecondCandidateFree(existing, base);
  }

  lemma BareNameFound(existing: set<string>, base: string)
    requires base == "." || base == ".."
    ensures Candidate(base, 0) + "" in Found(existing)
  {
    assert base + "" == base;
  }

  lemma SecondCandidateFree(existing: set<string>, base: string)
    requires base == "." || base == ".."
    requires base + "-1" !in existing
    ensures Candidate(base, 1) == base + "-1"
    ensures Candidate(base, 1) + "" !in Found(existing)
  {
    assert NatToString(1) == "1";
    var c := base + "-1";
    assert c + "" == c;
    assert |c| > 2;
  }

  /** The entry `createTapestryEntry` makes: the first candidate whose
      `.md` file the parent directory does not hold, and the heading the
      new file starts with. */
  method CreateEntry(existing: set<string>, entryName: string) returns (name: string, content: string)
    ensures name + ".md" !in existing
    ensures FirstFree(name, EntryBase(entryName), ".md", Found(existing))
    ensures content == "# " + name + "\n\n"
  {
    var safe := SanitizeName(entryName);
    if safe == [] {
      safe := "Untitled Entry";
    }
    assert safe == EntryBase(entryName);
    name := UniqueName(Found(existing), safe, ".md");
    content := "# " + name + "\n\n";
  }

  // Renaming

  /** `path.extname` of a base name: from the last '.' on, or nothing
      when there is no '.' or the only one opens the name. */
  function ExtName(base: string): (e: string)
    ensures e == [] || (e[0] == '.' && '.' !in e[1..] && EndsWith(base, e) && |e| < |base|)
  {
    if '.' !in base then []
    else
      var k := LastIndexOf(base, '.');
      if k == 0 then [] else base[k..]
  }

  datatype Kind = Folder | File

  /** `renameTapestryPath`: the new name of the item called `original`
      (its base name) inside a directory holding `siblings`, or the error
      the source throws. "." and ".." always exist, as in CreateFolderName. */
  function RenameTarget(kind: Kind, original: string, newName: string, siblings: set<string>): Result<string, string>
  {
    var safe := SanitizeName(newName);
    if safe == [] then Err("Name cannot be empty")
    else
      var target := safe + (if kind == Folder then [] else ExtName(original));
      if target in Found(siblings) then Err("A file or folder with that name already exists.") else Ok(target)
  }

  /** Renaming a file keeps its extension; a renamed folder, or a file
      without extension, takes the sanitised name as it is; a rename never lands on a sibling's name,
      nor on "." or ".."; only a name that sanitises to nothing is refused as empty. */
  lemma RenameRules(kind: Kind, original: string, newName: string, siblings: set<string>)
    ensures var r := RenameTarget(kind, original, newName, siblings);
      (r == Err("Name cannot be empty") <==> SanitizeName(newName) == []) &&
      (r.Ok? ==> r.value !in siblings && r.value != "." && r.value != ".." && StartsWith(r.value, SanitizeName(newName))) &&
      ((SanitizeName(newName) == "." || SanitizeName(newName) == "..") && (kind == Folder || ExtName(original) == []) ==>
        r == Err("A file or folder with that name already exists.")) &&
      (r.Ok? && kind == Folder ==> r.value == SanitizeName(newName)) &&
      (r.Ok? && kind == File && ExtName(original) != [] ==> ExtName(r.value) == ExtName(original)) &&
      (r.Ok? && ExtName(original) == [] ==> r.value == SanitizeName(newName))
  {
    var r := RenameTarget(kind, original, newName, siblings);
    var safe := SanitizeName(newName);
    if r.Ok? && kind == File {
      var e := ExtName(original);
      var t := safe + e;
      assert t[..|safe|] == safe;
      if e != [] {
        assert t[|safe|] == '.';
        assert t[|safe| + 1..] == e[1..];
        LastIndexOfAt(t, '.', |safe|);
        assert t[|safe|..] == e;
      }
    }
  }

  // Staying inside the Tapestry

  /** The segments of a path that `path.normalize` keeps: empty and "."
      segments vanish. */
  function Segments(p: string): seq<string>
  {
    Kept(Split(p, '/'))
  }

  function Kept(parts: seq<string>): (r: seq<string>)
    ensures forall i :: 0 <= i < |r| ==> r[i] != [] && r[i] != "."
  {
    if parts == [] then []
    else (if parts[0] == [] || parts[0] == "." then [] else [parts[0]]) + Kept(parts[1..])
  }

  /** Walking from the directory `stack` along `segs`: ".." climbs one
      level, and climbing above the root stays at the root. */
  function Walk(stack: seq<string>, segs: seq<string>): seq<string>
    decreases |segs|
  {
    if segs == [] then stack
    else if segs[0] == ".." then Walk(if stack == [] then [] else stack[..|stack| - 1], segs[1..])
    else Walk(stack + [segs[0]], segs[1..])
  }

  /** The absolute path text of a list of segments. */
  function PathText(segs: seq<string>): string
  {
    "/" + Join(segs, "/")
  }

  /** A normalised absolute directory: no empty, "." or ".." segment and
      no '/' inside a segment. The active Tapestry's directory is built by
      `path.join` and so has this form. */
  predicate NormalDir(segs: seq<string>)
  {
    segs != [] && forall i :: 0 <= i < |segs| ==> segs[i] != [] && segs[i] != "." && segs[i] != ".." && '/' !in segs[i]
  }

  /** `resolveWithinTapestry` as written: `path.join` of the Tapestry
      directory and the relative path, accepted when its text starts with
      the directory's text. */
  function ResolveWithinTapestry(base: seq<string>, rel: string): (r: Result<seq<string>, string>)
    requires NormalDir(base)
    ensures r.Ok? ==> r.value == Walk(base, Segments(rel)) && StartsWith(PathText(r.value), PathText(base))
    ensures r.Err? ==> r.error == "Path escapes the active Tapestry"
    ensures var t := Walk(base, Segments(rel)); |base| <= |t| && t[..|base|] == base ==> r == Ok(t)
    ensures StartsWith(PathText(Walk(base, Segments(rel))), PathText(base)) ==> r.Ok?
  {
    var target := Walk(base, Segments(rel));
    assert |base| <= |target| && target[..|base|] == base ==> StartsWith(PathText(target), PathText(base)) by {
      if |target| > |base| && target[..|base|] == base {
        var rest := target[|base|..];
        assert target == base + rest;
        JoinAppend(base, rest, "/");
        assert PathText(target) == PathText(base) + ("/" + Join(rest, "/"));
      } else if |base| == |target| && target[..|base|] == base {
        assert target == base;
      }
    }
    if StartsWith(PathText(target), PathText(base)) then Ok(target)
    else Err("Path escapes the active Tapestry")
  }

  /** The check as intended: the resolved path is the Tapestry directory
      or lies below it. */
  function ResolveWithinTapestryFixed(base: seq<string>, rel: string): Result<seq<string>, string>
    requires NormalDir(base)
  {
    var target := Walk(base, Segments(rel));
    if |base| <= |target| && target[..|base|] == base then Ok(target)
    else Err("Path escapes the active Tapestry")
  }

  /** The textual check lets "../ab" through from "/t/a": the result
      "/t/ab" is a sibling of the Tapestry, not inside it. */
  lemma SplitPair(a: string, b: string)
    requires '/' !in a && '/' !in b
    ensures Split(a + "/" + b, '/') == [a, b]
  {
    var s := a + "/" + b;
    assert s[|a|] == '/' && s[..|a|] == a && s[|a| + 1..] == b;
    assert IndexOf(s, '/') == |a|;
    SplitAtFirst(s, '/');
    assert Split(b, '/') == [b];
  }

  lemma ParentSiblingSegments()
    ensures Segments("../ab") == ["..", "ab"]
  {
    assert "../ab" == ".." + "/" + "ab";
    SplitPair("..", "ab");
    assert Kept(["..", "ab"]) == ["..", "ab"] by {
      assert ["..", "ab"][1..] == ["ab"];
      assert Kept(["ab"]) == ["ab"] + Kept([]);
    }
  }

  lemma SiblingWalk()
    ensures Walk(["t", "a"], ["..", "ab"]) == ["t", "ab"]
  {
    assert ["t", "a"][..1] == ["t"];
    assert ["..", "ab"][1..] == ["ab"];
    assert Walk(["t"], ["ab"]) == Walk(["t", "ab"], []);
  }

  lemma SiblingTexts()
    ensures PathText(["t", "ab"]) == "/t/ab"
    ensures PathText(["t", "a"]) == "/t/a"
    ensures StartsWith("/t/ab", "/t/a")
  {
    assert ["t", "ab"][1..] == ["ab"];
    assert ["t", "a"][1..] == ["a"];
    assert "/t/ab"[..4] == "/t/a";
  }

  lemma SiblingEscapes()
    ensures ResolveWithinTapestry(["t", "a"], "../ab") == Ok(["t", "ab"])
    ensures ResolveWithinTapestryFixed(["t", "a"], "../ab").Err?
  {
    ParentSiblingSegments();
    SiblingWalk();
    SiblingTexts();
    assert ["t", "ab"][..2] != ["t", "a"] by {
      assert ["t", "ab"][..2][1] == "ab";
    }
  }

  /** Walking down never climbs: without ".." the walk only appends. */
  lemma {:induction false} WalkDown(stack: seq<string>, segs: seq<string>)
    requires ".." !in segs
    ensures Walk(stack, segs) == stack + segs
    decreases |segs|
  {
    if segs != [] {
      assert segs[0] != ".." && ".." !in segs[1..];
      WalkDown(stack + [segs[0]], segs[1..]);
      assert stack + [segs[0]] + segs[1..] == stack + segs;
    }
  }

  /** Whatever the corrected check accepts lies below the Tapestry, and it
      accepts every path that has no ".." segment. */
  lemma ResolveFixedRules(base: seq<string>, rel: string)
    requires NormalDir(base)
    ensures ResolveWithinTapestryFixed(base, rel).Ok? ==>
      var t := ResolveWithinTapestryFixed(base, rel).value;
      |base| <= |t| && t[..|base|] == base
    ensures ".." !in Segments(rel) ==>
      ResolveWithinTapestryFixed(base, rel) == Ok(base + Segments(rel))
  {
    if ".." !in Segments(rel) {
      WalkDown(base, Segments(rel));
      assert (base + Segments(rel))[..|base|] == base;
    }
  }

  // The Tapestry tree

  /** What `readdir` reports for one name: a directory with its own
      listing, a regular file, or anything else (a link, a socket). */
  datatype Dirent = Dirent(name: string, entry: Entry)
  datatype Entry = Directory(listing: seq<Dirent>) | RegularFile | OtherEntry

  /** A node of the Tapestry tree. */
  datatype TreeNode = TreeNode(kind: Kind, name: string, path: string, children: seq<TreeNode>)

  /** The entries `buildTree` shows: no dot-names, no `assets` directory
      in any letter case, and of the non-directories only regular files
      whose name ends in ".md" in any letter case. */
  predicate Shown(d: Dirent)
  {
    !StartsWith(d.name, ".") &&
    match d.entry
    case Directory(_) => ToLower(d.name) != "assets"
    case RegularFile => EndsWith(ToLower(d.name), ".md")
    case OtherEntry => false
  }

  /** The relative path of an entry below `relativeBase`. */
  function NextRelative(relativeBase: string, name: string): string
  {
    if relativeBase == [] then name else relativeBase + "/" + name
  }

  /** The order of the tree: folders before files, names in
      `nameBefore`'s order within each kind (the collation of
      `localeCompare`, which the model takes as a parameter). */
  function NodeBefore(nameBefore: (string, string) -> bool): (TreeNode, TreeNode) -> bool
  {
    (a: TreeNode, b: TreeNode) =>
      (a.kind == Folder && b.kind == File) || (a.kind == b.kind && nameBefore(a.name, b.name))
  }

  /** `buildTree` for one listing: the shown entries in listing order,
      each turned into its node, then sorted. */
  function BuildTree(listing: seq<Dirent>, relativeBase: string, nameBefore: (string, string) -> bool): (r: seq<TreeNode>)
    decreases listing, 1
  {
    InsertionSort(Nodes(listing, relativeBase, nameBefore), NodeBefore(nameBefore))
  }

  function Nodes(listing: seq<Dirent>, relativeBase: string, nameBefore: (string, string) -> bool): (r: seq<TreeNode>)
    decreases listing, 0
  {
    if listing == [] then []
    else
      (if Shown(listing[0]) then [NodeOf(listing[0], relativeBase, nameBefore)] else []) +
      Nodes(listing[1..], relativeBase, nameBefore)
  }

  function NodeOf(d: Dirent, relativeBase: string, nameBefore: (string, string) -> bool): TreeNode
    requires Shown(d)
    decreases d, 2
  {
    var next := NextRelative(relativeBase, d.name);
    match d.entry
    case Directory(listing) => TreeNode(Folder, d.name, NormalizeRelative(next), BuildTree(listing, next, nameBefore))
    case RegularFile => TreeNode(File, d.name[..|d.name| - 3], NormalizeRelative(next), [])
  }

  /** The shown entries of a listing. */
  function ShownOf(listing: seq<Dirent>): seq<Dirent>
  {
    if listing == [] then [] else (if Shown(listing[0]) then [listing[0]] else []) + ShownOf(listing[1..])
  }

  /** Node `n` stands for entry `d`: the path joins the base and the
      name, a folder keeps the directory's name, and a file loses its last
      three characters (the ".md" in whatever case). */
  predicate Describes(n: TreeNode, d: Dirent, relativeBase: string)
  {
    n.path == NormalizeRelative(NextRelative(relativeBase, d.name)) &&
    (n.kind == Folder <==> d.entry.Directory?) &&
    (n.kind == Folder ==> n.name == d.name) &&
    (n.kind == File ==> 3 <= |d.name| && n.name + d.name[|d.name| - 3..] == d.name)
  }

  predicate DescribesAll(ns: seq<TreeNode>, ds: seq<Dirent>, relativeBase: string)
  {
    |ns| == |ds| && forall i :: 0 <= i < |ns| ==> Describes(ns[i], ds[i], relativeBase)
  }

  lemma NodeOfDescribes(d: Dirent, relativeBase: string, nameBefore: (string, string) -> bool)
    requires Shown(d)
    ensures Describes(NodeOf(d, relativeBase, nameBefore), d, relativeBase)
  {
    if d.entry.RegularFile? {
      assert d.name[..|d.name| - 3] + d.name[|d.name| - 3..] == d.name;
    }
  }

  lemma DescribesAllConcat(ns: seq<TreeNode>, ds: seq<Dirent>, ms: seq<TreeNode>, es: seq<Dirent>, relativeBase: string)
    requires DescribesAll(ns, ds, relativeBase) && DescribesAll(ms, es, relativeBase)
    ensures DescribesAll(ns + ms, ds + es, relativeBase)
  {
    forall i | 0 <= i < |ns + ms| ensures Describes((ns + ms)[i], (ds + es)[i], relativeBase) {
      if i >= |ns| {
        assert (ns + ms)[i] == ms[i - |ns|] && (ds + es)[i] == es[i - |ds|];
      }
    }
  }

  /** Each shown entry gives one node, in listing order, and each node
      describes its entry. */
  lemma {:induction false} NodesFromShown(listing: seq<Dirent>, relativeBase: string, nameBefore: (string, string) -> bool)
    ensures DescribesAll(Nodes(listing, relativeBase, nameBefore), ShownOf(listing), relativeBase)
    decreases |listing|
  {
    if listing != [] {
      NodesFromShown(listing[1..], relativeBase, nameBefore);
      var d := listing[0];
      var ns: seq<TreeNode> := if Shown(d) then [NodeOf(d, relativeBase, nameBefore)] else [];
      var ds: seq<Dirent> := if Shown(d) then [d] else [];
      if Shown(d) {
        NodeOfDescribes(d, relativeBase, nameBefore);
      }
      assert DescribesAll(ns, ds, relativeBase);
      DescribesAllConcat(ns, ds, Nodes(listing[1..], relativeBase, nameBefore), ShownOf(listing[1..]), relativeBase);
    }
  }

  lemma NodeBeforeStrict(nameBefore: (string, string) -> bool)
    requires StrictOrder(nameBefore)
    ensures StrictOrder(NodeBefore(nameBefore))
  {
    var before := NodeBefore(nameBefore);
    forall a ensures !before(a, a) {
      assert !nameBefore(a.name, a.name);
    }
    forall a, b, c | before(a, b) && before(b, c) ensures before(a, c) {
      if a.kind == b.kind && b.kind == c.kind {
        assert nameBefore(a.name, b.name) && nameBefore(b.name, c.name);
      }
    }
  }

  /** The tree's listing holds every shown entry's node once, folders come
      before files, and within each kind the names are in collation
      order. */
  lemma BuildTreeOrdered(listing: seq<Dirent>, relativeBase: string, nameBefore: (string, string) -> bool)
    requires StrictOrder(nameBefore)
    ensures var r := BuildTree(listing, relativeBase, nameBefore);
      multiset(r) == multiset(Nodes(listing, relativeBase, nameBefore)) &&
      |r| == |ShownOf(listing)| &&
      (forall i, j :: 0 <= i < j < |r| && r[j].kind == Folder ==> r[i].kind == Folder) &&
      (forall i, j :: 0 <= i < j < |r| && r[i].kind == r[j].kind ==> !nameBefore(r[j].name, r[i].name))
  {
    var before := NodeBefore(nameBefore);
    NodeBeforeStrict(nameBefore);
    InsertionSortSorted(Nodes(listing, relativeBase, nameBefore), before);
    NodesFromShown(listing, relativeBase, nameBefore);
    var r := BuildTree(listing, relativeBase, nameBefore);
    forall i, j | 0 <= i < j < |r| && r[j].kind == Folder ensures r[i].kind == Folder {
      assert !before(r[j], r[i]);
    }
    forall i, j | 0 <= i < j < |r| && r[i].kind == r[j].kind ensures !nameBefore(r[j].name, r[i].name) {
      assert !before(r[j], r[i]);
    }
  }
}
