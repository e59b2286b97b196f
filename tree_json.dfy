/** `generate_tree_map_json`: build the node tree with `walk_dir_json`,
    print it with `print_tree`, and hand back the document that is saved
    when a path is given. */
module TreeJson {
  import opened Wrappers
  import opened Names
  import opened FileSystem
  import opened Comments
  import opened Tree

  /** The tree `walk_dir_json` builds for directory `dir`: one node per kept
      entry, in the kept order. */
  function WalkJson(dir: FsEntry): (r: seq<Node>)
    requires dir.Dir?
    ensures |r| == |Kept(dir)|
    ensures forall i :: 0 <= i < |r| ==> r[i].name == Kept(dir)[i].name && (r[i].Directory? <==> Kept(dir)[i].Dir?)
    decreases dir, 0
  {
    var kept := Kept(dir);
    seq(|kept|, i requires 0 <= i < |kept| => assert kept[i] in kept; JsonNode(kept[i]))
  }

  /** The node for one kept entry. */
  function JsonNode(e: FsEntry): (n: Node)
    decreases e, 1
  {
    match e
    case Dir(name, _) => Directory(name, WalkJson(e))
    case File(name) => FileNode(name, JsonComment(name))
  }

  /** `walk_dir_json`: sorts and filters the listing, then appends one node
      per entry, recursing into directories. */
  method WalkDirJson(dir: FsEntry) returns (tree: seq<Node>)
    requires dir.Dir?
    ensures tree == WalkJson(dir)
    decreases dir
  {
    var entries := SortByName(dir.entries);
    entries := Visible(entries);
    tree := [];
    for i := 0 to |entries|
      invariant entries == Kept(dir)
      invariant tree == WalkJson(dir)[..i]
    {
      var entry := entries[i];
      WalkJsonGrows(dir, i);
      if entry.Dir? {
        var subtree := WalkDirJson(entry);
        tree := tree + [Directory(entry.name, subtree)];
      } else {
        tree := tree + [FileNode(entry.name, JsonComment(entry.name))];
      }
    }
  }

  /** The tree for the first `i + 1` kept entries extends the tree for the
      first `i` by the node of entry `i`, which lies inside `dir`. */
  lemma WalkJsonGrows(dir: FsEntry, i: nat)
    requires dir.Dir? && i < |Kept(dir)|
    ensures Kept(dir)[i] in dir.entries
    ensures WalkJson(dir)[..i + 1] == WalkJson(dir)[..i] + [JsonNode(Kept(dir)[i])]
  {
    WalkJsonAt(dir, i);
    PrefixStep(WalkJson(dir), i);
  }

  /** Node `i` of the tree is the node of kept entry `i`. */
  lemma WalkJsonAt(dir: FsEntry, i: nat)
    requires dir.Dir? && i < |Kept(dir)|
    ensures Kept(dir)[i] in dir.entries
    ensures WalkJson(dir)[i] == JsonNode(Kept(dir)[i])
  {
    assert Kept(dir)[i] in Kept(dir);
  }

  /** Taking one more element of a sequence appends that element. */
  lemma PrefixStep<T>(s: seq<T>, i: nat)
    requires i < |s|
    ensures s[..i + 1] == s[..i] + [s[i]]
  {
  }

  /** Each kept directory becomes a directory node holding the tree built
      for it, each other kept entry a file node holding the table comment. */
  lemma WalkJsonNodes(dir: FsEntry)
    requires dir.Dir?
    ensures forall i :: 0 <= i < |WalkJson(dir)| && Kept(dir)[i].Dir? ==>
      WalkJson(dir)[i].children == WalkJson(Kept(dir)[i])
    ensures forall i :: 0 <= i < |WalkJson(dir)| && Kept(dir)[i].File? ==>
      WalkJson(dir)[i].comment == JsonComment(Kept(dir)[i].name)
  {
  }

  /** At every level of a tree the sibling names ascend (strictly, when
      `strict`) and none is hidden. */
  ghost predicate Ascending(tree: seq<Node>, strict: bool)
  {
    && (forall i, j :: 0 <= i < j < |tree| ==> NameLe(tree[i].name, tree[j].name) && (strict ==> tree[i].name != tree[j].name))
    && (forall i :: 0 <= i < |tree| ==> !IsHidden(tree[i].name))
    && (forall i :: 0 <= i < |tree| && tree[i].Directory? ==> Ascending(tree[i].children, strict))
  }

  /** The top level of the built tree: names ascend (strictly when the
      listing has distinct names) and none is hidden. */
  lemma WalkJsonTopLevel(dir: FsEntry)
    requires dir.Dir?
    ensures forall i, j :: 0 <= i < j < |WalkJson(dir)| ==> NameLe(WalkJson(dir)[i].name, WalkJson(dir)[j].name)
    ensures DistinctNames(dir.entries) ==>
      forall i, j :: 0 <= i < j < |WalkJson(dir)| ==> WalkJson(dir)[i].name != WalkJson(dir)[j].name
    ensures forall i :: 0 <= i < |WalkJson(dir)| ==> !IsHidden(WalkJson(dir)[i].name)
  {
    var kept := Kept(dir);
    KeptOrder(dir);
    forall i | 0 <= i < |kept|
      ensures !IsHidden(kept[i].name)
    {
      assert kept[i] in kept;
    }
  }

  /** Because each listing is sorted before it is filtered, the built tree
      is in ascending name order at every level. */
  lemma {:induction false} WalkJsonAscending(dir: FsEntry)
    requires dir.Dir?
    ensures Ascending(WalkJson(dir), false)
    decreases dir
  {
    var kept := Kept(dir);
    var tree := WalkJson(dir);
    WalkJsonTopLevel(dir);
    forall i | 0 <= i < |tree| && tree[i].Directory?
      ensures Ascending(tree[i].children, false)
    {
      var e := kept[i];
      assert e in dir.entries;
      assert tree[i] == JsonNode(e);
      assert tree[i].children == WalkJson(e);
      WalkJsonAscending(e);
    }
    assert forall i :: 0 <= i < |tree| && tree[i].Directory? ==> Ascending(tree[i].children, false);
    assert forall i :: 0 <= i < |tree| ==> !IsHidden(tree[i].name);
    assert forall i, j :: 0 <= i < j < |tree| ==> NameLe(tree[i].name, tree[j].name);
  }

  /** In a real directory tree, where the names in one directory are
      distinct, the order is strict at every level. */
  lemma {:induction false} WalkJsonStrictlyAscending(dir: FsEntry)
    requires dir.Dir? && WellFormed(dir)
    ensures Ascending(WalkJson(dir), true)
    decreases dir
  {
    var kept := Kept(dir);
    var tree := WalkJson(dir);
    WalkJsonTopLevel(dir);
    forall i | 0 <= i < |tree| && tree[i].Directory?
      ensures Ascending(tree[i].children, true)
    {
      var e := kept[i];
      assert e in dir.entries;
      var k :| 0 <= k < |dir.entries| && dir.entries[k] == e;
      assert tree[i] == JsonNode(e);
      assert tree[i].children == WalkJson(e);
      WalkJsonStrictlyAscending(e);
    }
    assert forall i :: 0 <= i < |tree| && tree[i].Directory? ==> Ascending(tree[i].children, true);
    assert forall i :: 0 <= i < |tree| ==> !IsHidden(tree[i].name);
    assert forall i, j :: 0 <= i < j < |tree| ==> NameLe(tree[i].name, tree[j].name);
    assert forall i, j :: 0 <= i < j < |tree| ==> tree[i].name != tree[j].name;
  }

  /** `path` names an entry that can be reached from `dir` through
      non-hidden names only. */
  ghost predicate Reaches(dir: FsEntry, path: seq<string>)
    requires dir.Dir?
    decreases dir
  {
    && path != []
    && (exists e :: e in dir.entries && e.name == path[0] && !IsHidden(e.name) &&
          (|path| == 1 || (e.Dir? && Reaches(e, path[1..]))))
  }

  /** `path` names a node of `tree`. */
  ghost predicate HasPath(tree: seq<Node>, path: seq<string>)
  {
    && path != []
    && (exists i :: 0 <= i < |tree| && tree[i].name == path[0] &&
          (|path| == 1 || (tree[i].Directory? && HasPath(tree[i].children, path[1..]))))
  }

  /** The built tree names exactly the entries reachable through non-hidden
      names: nothing visible is missed, nothing hidden is entered. */
  lemma WalkJsonPaths(dir: FsEntry, path: seq<string>)
    requires dir.Dir?
    ensures HasPath(WalkJson(dir), path) <==> Reaches(dir, path)
  {
    if HasPath(WalkJson(dir), path) {
      WalkJsonPathsSound(dir, path);
    }
    if Reaches(dir, path) {
      WalkJsonPathsComplete(dir, path);
    }
  }

  /** Every path of the tree leads to a non-hidden entry. */
  lemma {:induction false} WalkJsonPathsSound(dir: FsEntry, path: seq<string>)
    requires dir.Dir? && HasPath(WalkJson(dir), path)
    ensures Reaches(dir, path)
    decreases dir
  {
    var tree := WalkJson(dir);
    var i :| 0 <= i < |tree| && tree[i].name == path[0] &&
      (|path| == 1 || (tree[i].Directory? && HasPath(tree[i].children, path[1..])));
    WalkJsonAt(dir, i);
    var e := Kept(dir)[i];
    assert e in Kept(dir);
    if |path| > 1 {
      var rest := path[1..];
      WalkJsonPathsSound(e, rest);
    }
  }

  /** Every non-hidden entry has its path in the tree. */
  lemma {:induction false} WalkJsonPathsComplete(dir: FsEntry, path: seq<string>)
    requires dir.Dir? && Reaches(dir, path)
    ensures HasPath(WalkJson(dir), path)
    decreases dir
  {
    var e :| e in dir.entries && e.name == path[0] && !IsHidden(e.name) &&
      (|path| == 1 || (e.Dir? && Reaches(e, path[1..])));
    var kept := Kept(dir);
    assert e in kept;
    var i :| 0 <= i < |kept| && kept[i] == e;
    WalkJsonAt(dir, i);
    if |path| > 1 {
      var rest := path[1..];
      WalkJsonPathsComplete(e, rest);
    }
    assert WalkJson(dir)[i].name == path[0];
  }

  /** The lines `print_tree(tree, prefix)` prints. */
  function Render(tree: seq<Node>, prefix: string): seq<string>
    decreases tree, |tree| + 1
  {
    RenderPart(tree, prefix, |tree|)
  }

  /** The lines printed for the first `k` siblings of `tree`. */
  function RenderPart(tree: seq<Node>, prefix: string, k: nat): seq<string>
    requires k <= |tree|
    decreases tree, k
  {
    if k == 0 then [] else RenderPart(tree, prefix, k - 1) + RenderNode(tree[k - 1], prefix, k == |tree|)
  }

  /** The lines printed for one node: its own line, then its children's. */
  function RenderNode(node: Node, prefix: string, isLast: bool): seq<string>
    decreases node
  {
    var line := prefix + Branch(DefaultGlyphs, isLast) + node.name;
    match node
    case Directory(_, children) => [line + "/"] + Render(children, prefix + SpacerFor(DefaultGlyphs, isLast))
    case FileNode(_, comment) => [line + (if comment != "" then " " + comment else "")]
  }

  /** `print_tree`: one line per node, depth first, with the connector of
      each sibling decided by its position. */
  method PrintTree(tree: seq<Node>, prefix: string) returns (lines: seq<string>)
    ensures lines == Render(tree, prefix)
    decreases tree
  {
    lines := [];
    for idx := 0 to |tree|
      invariant lines == RenderPart(tree, prefix, idx)
    {
      var node := tree[idx];
      var isLast := idx == |tree| - 1;
      var branch := if isLast then "└── " else "├── ";
      var nextPrefix := prefix + (if isLast then "    " else "│   ");
      if node.Directory? {
        lines := lines + [prefix + branch + node.name + "/"];
        var sub := PrintTree(node.children, nextPrefix);
        lines := lines + sub;
      } else {
        var comment := if node.comment != "" then " " + node.comment else "";
        lines := lines + [prefix + branch + node.name + comment];
      }
    }
  }

  /** `{"root": ..., "structure": [...]}`. */
  datatype Document = Document(root: string, structure: seq<Node>)

  datatype Error = InvalidArgument(message: string)

  /** What a successful call leaves behind: the printed lines (one per
      `print` call) and, when a path was given, the path and the document
      written there. */
  datatype JsonRun = JsonRun(printed: seq<string>, saved: Option<(string, Document)>)

  /** The confirmation printed after the document is saved. */
  function SavedMessage(path: string): string
  {
    "\n✅ Tree structure saved to " + path
  }

  function NotADirectoryMessage(rootPath: string): string
  {
    "'" + rootPath + "' is not a valid directory."
  }

  /** `generate_tree_map_json(root_path, output_json_path)`. `root` is the
      file-system entry at `rootPath`; `rootName` is the base name of its
      absolute path. */
  method GenerateTreeMapJson(root: FsEntry, rootPath: string, rootName: string, outputPath: Option<string>)
    returns (r: Result<JsonRun, Error>)
    ensures root.File? <==> r.Failure?
    ensures root.File? ==> r.error == InvalidArgument(NotADirectoryMessage(rootPath))
    ensures root.Dir? && outputPath.Some? && outputPath.value != "" ==>
      r.value.saved == Some((outputPath.value, Document(rootName, WalkJson(root))))
      && r.value.printed == [rootName + "/"] + Render(WalkJson(root), "") + [SavedMessage(outputPath.value)]
    ensures root.Dir? && (outputPath.None? || outputPath.value == "") ==>
      r.value.saved == None && r.value.printed == [rootName + "/"] + Render(WalkJson(root), "")
  {
    if !root.Dir? {
      return Failure(InvalidArgument(NotADirectoryMessage(rootPath)));
    }
    var treeStructure := WalkDirJson(root);
    var printed := [rootName + "/"];
    var lines := PrintTree(treeStructure, "");
    printed := printed + lines;
    var saved := None;
    if outputPath.Some? && outputPath.value != "" {
      saved := Some((outputPath.value, Document(rootName, treeStructure)));
      printed := printed + [SavedMessage(outputPath.value)];
    }
    r := Success(JsonRun(printed, saved));
  }
}
