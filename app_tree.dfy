/** The Tapestry tree as the application window handles it (App.tsx): the
    search filter, the path questions asked of the tree, the expanded-folder
    map, the list of open entries, the dice log appended to the active
    entry, and the clamps on the resizable panes. React state, rendering and
    the calls into the desktop shell are not part of the model. */
module AppTree {
  import opened Wrappers
  import opened Text

  datatype NodeType = Folder | File

  /** A node of the tree the shell lists; a node without children carries
      the empty sequence. */
  datatype TapestryNode = TapestryNode(kind: NodeType, name: string, path: string, children: seq<TapestryNode>)

  // Path questions

  /** `containsPath`: the node or some node below it has path `target`. */
  function ContainsPath(node: TapestryNode, target: string): bool
    decreases node, 1
  {
    node.path == target || SomeContainsPath(node.children, target)
  }

  /** `nodes.some((child) => containsPath(child, target))`. */
  function SomeContainsPath(nodes: seq<TapestryNode>, target: string): bool
    decreases nodes, 0
  {
    nodes != [] && (ContainsPath(nodes[0], target) || SomeContainsPath(nodes[1..], target))
  }

  /** Every path held in a tree. */
  function Paths(node: TapestryNode): set<string>
    decreases node, 1
  {
    {node.path} + PathsIn(node.children)
  }

  function PathsIn(nodes: seq<TapestryNode>): set<string>
    decreases nodes, 0
  {
    if nodes == [] then {} else Paths(nodes[0]) + PathsIn(nodes[1..])
  }

  /** The search finds exactly the paths held in the tree. */
  lemma {:induction false} ContainsPathIff(node: TapestryNode, target: string)
    ensures ContainsPath(node, target) <==> target in Paths(node)
    decreases node, 1
  {
    SomeContainsPathIff(node.children, target);
  }

  lemma {:induction false} SomeContainsPathIff(nodes: seq<TapestryNode>, target: string)
    ensures SomeContainsPath(nodes, target) <==> target in PathsIn(nodes)
    decreases nodes, 0
  {
    if nodes != [] {
      ContainsPathIff(nodes[0], target);
      SomeContainsPathIff(nodes[1..], target);
    }
  }

  /** `getParentFolderPath`: backslashes read as '/', then everything
      before the last '/'; a path without one lies at the top. */
  function GetParentFolderPath(relativePath: string): string
  {
    if relativePath == [] then []
    else
      var normalized := ReplaceChar(relativePath, '\\', '/');
      if '/' in normalized then normalized[..LastIndexOf(normalized, '/')] else []
  }

  /** The parent of `parent/name` is `parent` when neither part uses a
      backslash and the name holds no '/'; a name alone has the empty
      parent. */
  lemma ParentOfChild(parent: string, name: string)
    requires '\\' !in parent && '\\' !in name && '/' !in name
    ensures GetParentFolderPath(parent + "/" + name) == parent
    ensures GetParentFolderPath(name) == []
  {
    ChildPath(parent, name);
    TopLevel(name);
  }

  lemma ReplaceAbsent(s: string, a: char, b: char)
    requires a !in s
    ensures ReplaceChar(s, a, b) == s
  {
  }

  lemma ChildPath(parent: string, name: string)
    requires '\\' !in parent && '\\' !in name && '/' !in name
    ensures GetParentFolderPath(parent + "/" + name) == parent
  {
    var p := parent + "/" + name;
    assert p[|parent|] == '/' && p[|parent| + 1..] == name && p[..|parent|] == parent;
    assert '\\' !in p;
    ReplaceAbsent(p, '\\', '/');
    LastIndexOfAt(p, '/', |parent|);
  }

  lemma TopLevel(name: string)
    requires '\\' !in name && '/' !in name
    ensures GetParentFolderPath(name) == []
  {
    ReplaceAbsent(name, '\\', '/');
  }

  // Search

  /** A node matches a lower-cased query when its lower-cased name
      contains it. */
  predicate Matches(node: TapestryNode, query: string)
  {
    Contains(ToLower(node.name), query)
  }

  /** Some node of the tree matches (a file counts only by itself). */
  predicate AnyMatch(node: TapestryNode, query: string)
    decreases node, 1
  {
    Matches(node, query) || (node.kind == Folder && AnyMatchIn(node.children, query))
  }

  predicate AnyMatchIn(nodes: seq<TapestryNode>, query: string)
    decreases nodes, 0
  {
    nodes != [] && (AnyMatch(nodes[0], query) || AnyMatchIn(nodes[1..], query))
  }

  /** `filterNodes` for one node: a file survives when it matches; a
      folder survives, holding its surviving children, when it matches or
      some child survives. A node stays exactly when it or some node below
      it matches, and it stays as the same kind, name and path. */
  function FilterNode(node: TapestryNode, query: string): (r: Option<TapestryNode>)
    ensures r.Some? <==> AnyMatch(node, query)
    ensures r.Some? ==> r.value.kind == node.kind && r.value.name == node.name && r.value.path == node.path
    ensures node.kind == File ==> r == (if Matches(node, query) then Some(node) else None)
    ensures r.Some? && node.kind == Folder ==> r.value.children == FilterNodes(node.children, query)
    decreases node, 1
  {
    if node.kind == File then (if Matches(node, query) then Some(node) else None)
    else
      var children := FilterNodes(node.children, query);
      if Matches(node, query) || children != [] then Some(node.(children := children)) else None
  }

  /** A list filters to nothing exactly when none of its trees holds a
      match. */
  function FilterNodes(nodes: seq<TapestryNode>, query: string): (r: seq<TapestryNode>)
    ensures r != [] <==> AnyMatchIn(nodes, query)
    ensures |r| <= |nodes|
    decreases nodes, 0
  {
    if nodes == [] then []
    else
      (match FilterNode(nodes[0], query) case Some(n) => [n] case None => []) +
      FilterNodes(nodes[1..], query)
  }

  /** The tree shown under a search box holding `searchQuery`: all of it
      while the box is blank, otherwise something exactly when some node
      matches the trimmed, lower-cased query. */
  function VisibleTree(tree: seq<TapestryNode>, searchQuery: string): (r: seq<TapestryNode>)
    ensures AllSpace(searchQuery) ==> r == tree
    ensures !AllSpace(searchQuery) ==> r == FilterNodes(tree, ToLower(Trim(searchQuery)))
    ensures !AllSpace(searchQuery) ==> (r != [] <==> AnyMatchIn(tree, ToLower(Trim(searchQuery))))
  {
    TrimEmptyIffBlank(searchQuery);
    var query := ToLower(Trim(searchQuery));
    if query == [] then tree else FilterNodes(tree, query)
  }

  /** Filtering a filtered tree again changes nothing. */
  lemma {:induction false} FilterNodeIdempotent(node: TapestryNode, query: string)
    requires FilterNode(node, query).Some?
    ensures FilterNode(FilterNode(node, query).value, query) == FilterNode(node, query)
    decreases node, 1
  {
    if node.kind == Folder {
      FilterNodesIdempotent(node.children, query);
    }
  }

  lemma {:induction false} FilterNodesIdempotent(nodes: seq<TapestryNode>, query: string)
    ensures FilterNodes(FilterNodes(nodes, query), query) == FilterNodes(nodes, query)
    decreases nodes, 0
  {
    if nodes != [] {
      FilterNodesIdempotent(nodes[1..], query);
      var rest := FilterNodes(nodes[1..], query);
      match FilterNode(nodes[0], query)
      case None =>
        assert FilterNodes(nodes, query) == rest by {
          assert [] + rest == rest;
        }
      case Some(n) =>
        FilterNodeIdempotent(nodes[0], query);
        assert ([n] + rest)[1..] == rest;
    }
  }

  /** Filtering only removes: a path found in the filtered tree is found
      in the original one. */
  lemma {:induction false} FilterNodeKeepsPaths(node: TapestryNode, query: string)
    requires FilterNode(node, query).Some?
    ensures Paths(FilterNode(node, query).value) <= Paths(node)
    decreases node, 1
  {
    if node.kind == Folder {
      FilterNodesKeepPaths(node.children, query);
    }
  }

  lemma {:induction false} FilterNodesKeepPaths(nodes: seq<TapestryNode>, query: string)
    ensures PathsIn(FilterNodes(nodes, query)) <= PathsIn(nodes)
    decreases nodes, 0
  {
    if nodes != [] {
      FilterNodesKeepPaths(nodes[1..], query);
      var rest := FilterNodes(nodes[1..], query);
      match FilterNode(nodes[0], query)
      case None =>
        assert FilterNodes(nodes, query) == rest by {
          assert [] + rest == rest;
        }
      case Some(n) =>
        FilterNodeKeepsPaths(nodes[0], query);
        assert ([n] + rest)[1..] == rest;
    }
  }

  /** The paths of the nodes that match by themselves: the node when its
      name matches, and, in a folder, the matches below it. */
  function MatchedPaths(node: TapestryNode, query: string): set<string>
    decreases node, 1
  {
    (if Matches(node, query) then {node.path} else {})
    + (if node.kind == Folder then MatchedPathsIn(node.children, query) else {})
  }

  function MatchedPathsIn(nodes: seq<TapestryNode>, query: string): set<string>
    decreases nodes, 0
  {
    if nodes == [] then {} else MatchedPaths(nodes[0], query) + MatchedPathsIn(nodes[1..], query)
  }

  /** Filtering loses no match: every node that matches survives, with its
      path, in the filtered tree. */
  lemma {:induction false} FilterNodeKeepsMatches(node: TapestryNode, query: string)
    ensures forall p :: p in MatchedPaths(node, query) ==>
      FilterNode(node, query).Some? && p in Paths(FilterNode(node, query).value)
    decreases node, 1
  {
    if node.kind == Folder {
      FilterNodesKeepMatches(node.children, query);
      var children := FilterNodes(node.children, query);
      forall p | p in MatchedPaths(node, query)
        ensures FilterNode(node, query).Some? && p in Paths(FilterNode(node, query).value)
      {
        if !Matches(node, query) {
          assert p in PathsIn(children);
          assert children != [];
        }
      }
    }
  }

  lemma {:induction false} FilterNodesKeepMatches(nodes: seq<TapestryNode>, query: string)
    ensures forall p :: p in MatchedPathsIn(nodes, query) ==> p in PathsIn(FilterNodes(nodes, query))
    decreases nodes, 0
  {
    if nodes != [] {
      FilterNodeKeepsMatches(nodes[0], query);
      FilterNodesKeepMatches(nodes[1..], query);
      var rest := FilterNodes(nodes[1..], query);
      match FilterNode(nodes[0], query)
      case None =>
        assert FilterNodes(nodes, query) == rest by {
          assert [] + rest == rest;
        }
      case Some(n) =>
        PathsInCons(n, rest);
    }
  }

  lemma PathsInCons(n: TapestryNode, rest: seq<TapestryNode>)
    ensures PathsIn([n] + rest) == Paths(n) + PathsIn(rest)
  {
    assert ([n] + rest)[1..] == rest;
  }

  /** Filtering keeps the order of the siblings: it works on each part of a
      split list separately. */
  lemma {:induction false} FilterNodesAppend(a: seq<TapestryNode>, b: seq<TapestryNode>, query: string)
    ensures FilterNodes(a + b, query) == FilterNodes(a, query) + FilterNodes(b, query)
  {
    if a != [] {
      assert (a + b)[0] == a[0];
      assert (a + b)[1..] == a[1..] + b;
      FilterNodesAppend(a[1..], b, query);
      var head := match FilterNode(a[0], query) case Some(n) => [n] case None => [];
      assert FilterNodes(a + b, query) == head + (FilterNodes(a[1..], query) + FilterNodes(b, query));
      assert FilterNodes(a, query) == head + FilterNodes(a[1..], query);
    } else {
      assert a + b == b;
    }
  }

  // Expanded folders

  /** Whether a folder is drawn open: its stored flag, or else open only
      when it is the root. */
  function Expanded(expanded: map<string, bool>, path: string, isRoot: Option<bool>): bool
  {
    if path in expanded then expanded[path] else isRoot.GetOr(false)
  }

  /** `toggleFolder`: store the opposite of what the folder shows. */
  function ToggleFolder(expanded: map<string, bool>, path: string, isRoot: Option<bool>): (r: map<string, bool>)
    ensures r.Keys == expanded.Keys + {path}
  {
    expanded[path := !Expanded(expanded, path, isRoot)]
  }

  /** A toggle flips the folder it is for, leaves every other folder as it
      was, and two toggles show the folder as before. */
  lemma ToggleFolderFlips(expanded: map<string, bool>, path: string, isRoot: Option<bool>, other: string, otherRoot: Option<bool>)
    ensures Expanded(ToggleFolder(expanded, path, isRoot), path, isRoot) == !Expanded(expanded, path, isRoot)
    ensures other != path ==>
      Expanded(ToggleFolder(expanded, path, isRoot), other, otherRoot) == Expanded(expanded, other, otherRoot)
    ensures Expanded(ToggleFolder(ToggleFolder(expanded, path, isRoot), path, isRoot), path, isRoot) ==
      Expanded(expanded, path, isRoot)
  {
  }

  // Open entries

  /** An open entry: its id is the Tapestry path. */
  datatype Entry = Entry(id: string, title: string, content: string)

  predicate UniqueIds(entries: seq<Entry>)
  {
    forall i, j :: 0 <= i < j < |entries| ==> entries[i].id != entries[j].id
  }

  function WithoutId(entries: seq<Entry>, id: string): (r: seq<Entry>)
    ensures forall e :: e in r <==> e in entries && e.id != id
  {
    if entries == [] then []
    else (if entries[0].id == id then [] else [entries[0]]) + WithoutId(entries[1..], id)
  }

  /** Opening a file puts its entry first and drops any older entry with
      the same path. */
  function OpenEntry(entries: seq<Entry>, entry: Entry): seq<Entry>
  {
    [entry] + WithoutId(entries, entry.id)
  }

  lemma {:induction false} WithoutIdKeepsUnique(entries: seq<Entry>, id: string)
    requires UniqueIds(entries)
    ensures UniqueIds(WithoutId(entries, id))
    decreases |entries|
  {
    if entries != [] {
      WithoutIdKeepsUnique(entries[1..], id);
      var rest := WithoutId(entries[1..], id);
      if entries[0].id != id {
        var r := [entries[0]] + rest;
        forall j | 1 <= j < |r| ensures r[0].id != r[j].id {
          assert r[j] in rest;
          var k :| 0 <= k < |entries[1..]| && entries[1..][k] == r[j];
          assert entries[k + 1] == r[j];
        }
        forall i, j | 0 <= i < j < |r| ensures r[i].id != r[j].id {
          if i > 0 {
            assert r[i] == rest[i - 1] && r[j] == rest[j - 1];
          }
        }
      }
    }
  }

  /** After opening, the new entry is first, the ids stay distinct, and
      every other entry is kept unless it had the new entry's id. */
  lemma OpenEntryRules(entries: seq<Entry>, entry: Entry)
    requires UniqueIds(entries)
    ensures var r := OpenEntry(entries, entry);
      r[0] == entry && UniqueIds(r) &&
      forall e :: e in r <==> e == entry || (e in entries && e.id != entry.id)
  {
    var rest := WithoutId(entries, entry.id);
    WithoutIdKeepsUnique(entries, entry.id);
    var r := [entry] + rest;
    forall i, j | 0 <= i < j < |r| ensures r[i].id != r[j].id {
      if i == 0 {
        assert r[j] in rest;
      } else {
        assert r[i] == rest[i - 1] && r[j] == rest[j - 1];
      }
    }
  }

  // Dice log

  /** `handleDiceRollLog`: with no active entry nothing changes; otherwise
      the new content is the draft (or the saved content when the draft is
      empty), a blank line when that text is not blank, and the roll's
      Markdown. */
  function DiceLogContent(activeEntryId: Option<string>, draft: string, saved: Option<string>, markdown: string): Option<string>
  {
    if activeEntryId.None? || activeEntryId.value == [] then None
    else
      var base := if |draft| > 0 then draft else saved.GetOr([]);
      Some(Logged(base, markdown))
  }

  /** The roll appended to `base`, after a blank line unless `base` is blank. */
  function Logged(base: string, markdown: string): string
  {
    var separator := if Trim(base) != [] then "\n\n" else "";
    base + separator + markdown
  }

  lemma LoggedEnds(base: string, markdown: string)
    ensures StartsWith(Logged(base, markdown), base) && EndsWith(Logged(base, markdown), markdown)
  {
    Joined(base, if Trim(base) != [] then "\n\n" else "", markdown);
  }

  lemma LoggedSeparator(base: string, markdown: string)
    ensures AllSpace(base) ==> Logged(base, markdown) == base + markdown
    ensures !AllSpace(base) ==> Logged(base, markdown) == base + "\n\n" + markdown
  {
    TrimEmptyIffBlank(base);
    if AllSpace(base) {
      assert base + [] == base;
    }
  }

  /** The logged text keeps what was there in front and ends with the
      roll; the separating blank line appears exactly when that text is not
      blank. */
  lemma DiceLogAppends(activeEntryId: Option<string>, draft: string, saved: Option<string>, markdown: string)
    ensures var r := DiceLogContent(activeEntryId, draft, saved, markdown);
      var base := if |draft| > 0 then draft else saved.GetOr([]);
      (r.Some? <==> activeEntryId.Some? && activeEntryId.value != []) &&
      (r.Some? ==> StartsWith(r.value, base) && EndsWith(r.value, markdown)) &&
      (r.Some? && AllSpace(base) ==> r.value == base + markdown) &&
      (r.Some? && !AllSpace(base) ==> r.value == base + "\n\n" + markdown)
  {
    if activeEntryId.Some? && activeEntryId.value != [] {
      var base := if |draft| > 0 then draft else saved.GetOr([]);
      assert DiceLogContent(activeEntryId, draft, saved, markdown) == Some(Logged(base, markdown));
      LoggedEnds(base, markdown);
      LoggedSeparator(base, markdown);
    }
  }

  lemma Joined(front: string, middle: string, back: string)
    ensures StartsWith(front + middle + back, front) && EndsWith(front + middle + back, back)
  {
    assert front + middle + back == front + (middle + back);
    PrefixAndSuffix(front, middle, back);
  }

  // Pane widths

  function Min(a: real, b: real): real { if a <= b then a else b }
  function Max(a: real, b: real): real { if a >= b then a else b }

  /** The sidebar's width while dragging its edge to `clientX`. */
  function SidebarWidth(clientX: real): real
  {
    Min(Max(clientX, 260.0), 520.0)
  }

  /** The tools pane's width while dragging its edge to `clientX` in a
      window `total` wide. */
  function ToolsWidth(total: real, clientX: real): real
  {
    Min(Max(total - clientX, 320.0), 520.0)
  }

  /** Both panes stay within their bounds, follow the mouse exactly
      inside them, and grow as the mouse moves outward. */
  lemma PaneWidthsBounded(total: real, x: real, y: real)
    ensures 260.0 <= SidebarWidth(x) <= 520.0
    ensures 320.0 <= ToolsWidth(total, x) <= 520.0
    ensures 260.0 <= x <= 520.0 ==> SidebarWidth(x) == x
    ensures 320.0 <= total - x <= 520.0 ==> ToolsWidth(total, x) == total - x
    ensures x <= y ==> SidebarWidth(x) <= SidebarWidth(y) && ToolsWidth(total, y) <= ToolsWidth(total, x)
  {
  }
}
