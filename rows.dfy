/** A reference description of what both renderers print: the forest
    flattened in pre-order into rows, each row knowing its node, whether the
    node is the last of its siblings, and the same fact for every ancestor.
    A row becomes a line by drawing one spacer per ancestor, the branch, and
    the node's label; the two output modes differ only in the label. */
module Rows {
  import opened FileSystem
  import opened Comments
  import opened Tree
  import opened TreeJson
  import opened TreeText

  /** `ancestry[k]` tells whether the ancestor at depth `k` (outermost
      first) was the last of its siblings. */
  datatype Row = Row(ancestry: seq<bool>, isLast: bool, node: Node)

  datatype Mode = JsonMode | TextMode

  function Flatten(tree: seq<Node>): seq<Row>
    decreases tree, |tree| + 1
  {
    FlattenPart(tree, |tree|)
  }

  function FlattenPart(tree: seq<Node>, k: nat): seq<Row>
    requires k <= |tree|
    decreases tree, k
  {
    if k == 0 then [] else FlattenPart(tree, k - 1) + FlattenNode(tree[k - 1], k == |tree|)
  }

  /** A node's row, followed by its children's rows one level deeper. */
  function FlattenNode(n: Node, isLast: bool): seq<Row>
    decreases n
  {
    [Row([], isLast, n)] + match n
      case Directory(_, children) => Nest(Flatten(children), isLast)
      case FileNode(_, _) => []
  }

  /** The rows of a directory's children, seen from the directory's parent. */
  function Nest(rows: seq<Row>, parentLast: bool): seq<Row>
  {
    seq(|rows|, i requires 0 <= i < |rows| => Row([parentLast] + rows[i].ancestry, rows[i].isLast, rows[i].node))
  }

  /** The spacers that the ancestors of a row contribute to its prefix. */
  function Spacers(g: Glyphs, ancestry: seq<bool>): string
  {
    if ancestry == [] then "" else SpacerFor(g, ancestry[0]) + Spacers(g, ancestry[1..])
  }

  /** Everything in front of a row's name. */
  function Lead(g: Glyphs, prefix: string, row: Row): string
  {
    prefix + Spacers(g, row.ancestry) + Branch(g, row.isLast)
  }

  /** The name and its suffix: a directory gets `/`; in JSON mode a file
      gets `" " + comment` only when the comment is not empty, in text mode
      a file always gets a space and the text-mode comment. */
  function Label(n: Node, mode: Mode): string
  {
    match n
    case Directory(name, _) => name + "/"
    case FileNode(name, comment) =>
      if mode == JsonMode then name + (if comment != "" then " " + comment else "")
      else name + " " + TextComment(name)
  }

  function Line(g: Glyphs, prefix: string, row: Row, mode: Mode): string
  {
    Lead(g, prefix, row) + Label(row.node, mode)
  }

  function Lines(g: Glyphs, prefix: string, rows: seq<Row>, mode: Mode): seq<string>
  {
    seq(|rows|, i requires 0 <= i < |rows| => Line(g, prefix, rows[i], mode))
  }

  lemma LinesAppend(g: Glyphs, prefix: string, a: seq<Row>, b: seq<Row>, mode: Mode)
    ensures Lines(g, prefix, a + b, mode) == Lines(g, prefix, a, mode) + Lines(g, prefix, b, mode)
  {
  }

  /** Handing `SpacerFor(g, l)` down in the prefix is the same as recording
      `l` as the outermost ancestor. */
  lemma LinesNest(g: Glyphs, prefix: string, rows: seq<Row>, l: bool, mode: Mode)
    ensures Lines(g, prefix + SpacerFor(g, l), rows, mode) == Lines(g, prefix, Nest(rows, l), mode)
  {
    forall i | 0 <= i < |rows|
      ensures Line(g, prefix + SpacerFor(g, l), rows[i], mode) == Line(g, prefix, Nest(rows, l)[i], mode)
    {
      LineNest(g, prefix, rows[i], l, mode);
    }
  }

  lemma LineNest(g: Glyphs, prefix: string, row: Row, l: bool, mode: Mode)
    ensures Line(g, prefix + SpacerFor(g, l), row, mode) == Line(g, prefix, Row([l] + row.ancestry, row.isLast, row.node), mode)
  {
    var a := row.ancestry;
    var s := SpacerFor(g, l);
    assert ([l] + a)[1..] == a;
    assert Spacers(g, [l] + a) == s + Spacers(g, a);
    assert (prefix + s) + Spacers(g, a) == prefix + (s + Spacers(g, a));
  }

  /** A row with no ancestors prints as the prefix, the branch and the
      label. */
  lemma HeadLine(g: Glyphs, prefix: string, isLast: bool, n: Node, mode: Mode)
    ensures Lines(g, prefix, [Row([], isLast, n)], mode) == [prefix + Branch(g, isLast) + Label(n, mode)]
  {
    assert Spacers(g, []) == "";
    assert prefix + "" == prefix;
  }

  /** `print_tree` prints exactly the JSON-mode lines of the pre-order
      rows. */
  lemma {:induction false} RenderIsPreOrder(tree: seq<Node>, prefix: string)
    ensures Render(tree, prefix) == Lines(DefaultGlyphs, prefix, Flatten(tree), JsonMode)
    decreases tree, |tree| + 1
  {
    RenderPartIsPreOrder(tree, prefix, |tree|);
  }

  lemma {:induction false} RenderPartIsPreOrder(tree: seq<Node>, prefix: string, k: nat)
    requires k <= |tree|
    ensures RenderPart(tree, prefix, k) == Lines(DefaultGlyphs, prefix, FlattenPart(tree, k), JsonMode)
    decreases tree, k
  {
    if k > 0 {
      RenderPartIsPreOrder(tree, prefix, k - 1);
      RenderNodeIsPreOrder(tree[k - 1], prefix, k == |tree|);
      LinesAppend(DefaultGlyphs, prefix, FlattenPart(tree, k - 1), FlattenNode(tree[k - 1], k == |tree|), JsonMode);
    }
  }

  lemma {:induction false} RenderNodeIsPreOrder(n: Node, prefix: string, isLast: bool)
    ensures RenderNode(n, prefix, isLast) == Lines(DefaultGlyphs, prefix, FlattenNode(n, isLast), JsonMode)
    decreases n
  {
    var g := DefaultGlyphs;
    var head := [Row([], isLast, n)];
    HeadLine(g, prefix, isLast, n, JsonMode);
    match n
    case Directory(name, children) =>
      assert prefix + Branch(g, isLast) + name + "/" == prefix + Branch(g, isLast) + Label(n, JsonMode);
      RenderIsPreOrder(children, prefix + SpacerFor(g, isLast));
      LinesNest(g, prefix, Flatten(children), isLast, JsonMode);
      LinesAppend(g, prefix, head, Nest(Flatten(children), isLast), JsonMode);
    case FileNode(name, comment) =>
      assert prefix + Branch(g, isLast) + name + (if comment != "" then " " + comment else "")
        == prefix + Branch(g, isLast) + Label(n, JsonMode);
      assert FlattenNode(n, isLast) == head;
  }

  /** `walk_dir` prints exactly the text-mode lines of the pre-order rows of
      the tree `walk_dir_json` builds for the same directory. */
  lemma {:induction false} TextWalkIsPreOrder(g: Glyphs, dir: FsEntry, prefix: string)
    requires dir.Dir?
    ensures TextWalk(g, dir, prefix) == Lines(g, prefix, Flatten(WalkJson(dir)), TextMode)
    decreases dir, 1
  {
    TextPartIsPreOrder(g, dir, prefix, |Kept(dir)|);
  }

  lemma {:induction false} TextPartIsPreOrder(g: Glyphs, dir: FsEntry, prefix: string, k: nat)
    requires dir.Dir? && k <= |Kept(dir)|
    ensures TextPart(g, dir, prefix, k) == Lines(g, prefix, FlattenPart(WalkJson(dir), k), TextMode)
    decreases dir, 0, k
  {
    if k > 0 {
      var j := k - 1;
      var e := Kept(dir)[j];
      var isLast := k == |Kept(dir)|;
      TextPartIsPreOrder(g, dir, prefix, j);
      WalkJsonAt(dir, j);
      TextEntryIsPreOrder(g, e, prefix, isLast);
      TextPartGrows(g, dir, prefix, j);
      FlattenWalkStep(dir, k);
      LinesAppend(g, prefix, FlattenPart(WalkJson(dir), j), FlattenNode(JsonNode(e), isLast), TextMode);
    }
  }

  /** The rows of the first `k` kept entries extend those of the first
      `k - 1` by the rows of entry `k - 1`. */
  lemma FlattenWalkStep(dir: FsEntry, k: nat)
    requires dir.Dir? && 0 < k <= |Kept(dir)|
    ensures FlattenPart(WalkJson(dir), k)
      == FlattenPart(WalkJson(dir), k - 1) + FlattenNode(JsonNode(Kept(dir)[k - 1]), k == |Kept(dir)|)
  {
    var j := k - 1;
    WalkJsonAt(dir, j);
    FlattenPartLast(WalkJson(dir), k);
  }

  lemma {:induction false} TextEntryIsPreOrder(g: Glyphs, e: FsEntry, prefix: string, isLast: bool)
    ensures TextEntry(g, e, prefix, isLast) == Lines(g, prefix, FlattenNode(JsonNode(e), isLast), TextMode)
    decreases e, 2
  {
    var n := JsonNode(e);
    var head := [Row([], isLast, n)];
    HeadLine(g, prefix, isLast, n, TextMode);
    match e
    case Dir(name, _) =>
      assert prefix + Branch(g, isLast) + name + "/" == prefix + Branch(g, isLast) + Label(n, TextMode);
      TextWalkIsPreOrder(g, e, prefix + SpacerFor(g, isLast));
      LinesNest(g, prefix, Flatten(WalkJson(e)), isLast, TextMode);
      LinesAppend(g, prefix, head, Nest(Flatten(WalkJson(e)), isLast), TextMode);
    case File(name) =>
      assert prefix + Branch(g, isLast) + name + " " + TextComment(name) == prefix + Branch(g, isLast) + Label(n, TextMode);
      assert FlattenNode(n, isLast) == head;
  }

  lemma FlattenPartLast(tree: seq<Node>, k: nat)
    requires 0 < k <= |tree|
    ensures FlattenPart(tree, k) == FlattenPart(tree, k - 1) + FlattenNode(tree[k - 1], k == |tree|)
  {
  }

  /** One row per node. */
  lemma {:induction false} FlattenCount(tree: seq<Node>)
    ensures |Flatten(tree)| == Count(tree)
    decreases tree, |tree| + 1
  {
    FlattenPartCount(tree, |tree|);
    assert tree[..|tree|] == tree;
  }

  lemma {:induction false} FlattenPartCount(tree: seq<Node>, k: nat)
    requires k <= |tree|
    ensures |FlattenPart(tree, k)| == Count(tree[..k])
    decreases tree, k
  {
    if k > 0 {
      FlattenPartCount(tree, k - 1);
      FlattenNodeCount(tree[k - 1], k == |tree|);
      assert tree[..k][..k - 1] == tree[..k - 1];
    }
  }

  lemma {:induction false} FlattenNodeCount(n: Node, isLast: bool)
    ensures |FlattenNode(n, isLast)| == NodeCount(n)
    decreases n
  {
    if n.Directory? {
      FlattenCount(n.children);
    }
  }

  /** `print_tree` prints one line per node of the tree. */
  lemma RenderCount(tree: seq<Node>, prefix: string)
    ensures |Render(tree, prefix)| == Count(tree)
  {
    RenderIsPreOrder(tree, prefix);
    FlattenCount(tree);
  }

  /** With the default glyphs every ancestor contributes one four-character
      group: `"    "` below a last sibling and `"│   "` below any other. */
  lemma {:induction false} SpacerGroups(ancestry: seq<bool>, k: nat)
    requires k < |ancestry|
    ensures |Spacers(DefaultGlyphs, ancestry)| == 4 * |ancestry|
    ensures Spacers(DefaultGlyphs, ancestry)[4 * k..4 * k + 4] == if ancestry[k] then "    " else "│   "
  {
    var head := SpacerFor(DefaultGlyphs, ancestry[0]);
    var rest := Spacers(DefaultGlyphs, ancestry[1..]);
    SpacersLength(ancestry);
    SpacersLength(ancestry[1..]);
    assert Spacers(DefaultGlyphs, ancestry) == head + rest;
    if k == 0 {
      assert (head + rest)[0..4] == head;
    } else {
      var tail := ancestry[1..];
      var m := k - 1;
      SpacerGroups(tail, m);
      var j := 4 * m;
      assert 4 * k == j + 4;
      GroupAfterHead(head, rest, j);
    }
  }

  /** Slicing past a four-element head reads from the tail. */
  lemma GroupAfterHead<T>(head: seq<T>, rest: seq<T>, j: nat)
    requires |head| == 4 && j + 4 <= |rest|
    ensures (head + rest)[j + 4..j + 8] == rest[j..j + 4]
  {
  }

  lemma {:induction false} SpacersLength(ancestry: seq<bool>)
    ensures |Spacers(DefaultGlyphs, ancestry)| == 4 * |ancestry|
  {
    if ancestry != [] {
      SpacersLength(ancestry[1..]);
    }
  }

  /** A line at depth `d` is the inherited prefix, then `d` four-character
      spacer groups, then the four-character branch: `"└── "` exactly for a
      last sibling. */
  lemma LineShape(prefix: string, row: Row, mode: Mode)
    ensures var line := Line(DefaultGlyphs, prefix, row, mode);
      var d := |row.ancestry|;
      && |line| >= |prefix| + 4 * d + 4
      && line[..|prefix|] == prefix
      && (forall k :: 0 <= k < d ==> line[|prefix| + 4 * k..|prefix| + 4 * k + 4] == if row.ancestry[k] then "    " else "│   ")
      && line[|prefix| + 4 * d..|prefix| + 4 * d + 4] == if row.isLast then "└── " else "├── "
  {
    var line := Line(DefaultGlyphs, prefix, row, mode);
    var sp := Spacers(DefaultGlyphs, row.ancestry);
    var d := |row.ancestry|;
    SpacersLength(row.ancestry);
    assert line == prefix + sp + Branch(DefaultGlyphs, row.isLast) + Label(row.node, mode);
    forall k | 0 <= k < d
      ensures line[|prefix| + 4 * k..|prefix| + 4 * k + 4] == if row.ancestry[k] then "    " else "│   "
    {
      SpacerGroups(row.ancestry, k);
      assert line[|prefix| + 4 * k..|prefix| + 4 * k + 4] == sp[4 * k..4 * k + 4];
    }
  }

  /** The rows without ancestors: the rows of the top-level nodes. */
  function TopRows(rows: seq<Row>): seq<Row>
  {
    if rows == [] then [] else (if rows[0].ancestry == [] then [rows[0]] else []) + TopRows(rows[1..])
  }

  lemma {:induction false} TopRowsAppend(a: seq<Row>, b: seq<Row>)
    ensures TopRows(a + b) == TopRows(a) + TopRows(b)
  {
    if a == [] {
      assert a + b == b;
    } else {
      assert (a + b)[1..] == a[1..] + b;
      TopRowsAppend(a[1..], b);
    }
  }

  lemma {:induction false} TopRowsNest(rows: seq<Row>, l: bool)
    ensures TopRows(Nest(rows, l)) == []
  {
    if rows != [] {
      assert Nest(rows, l)[1..] == Nest(rows[1..], l);
      TopRowsNest(rows[1..], l);
    }
  }

  /** In a sibling group the nodes appear in order, and only the last one
      is drawn with the last-sibling branch; an empty group has no rows. */
  lemma TopLevelRows(tree: seq<Node>)
    ensures TopRows(Flatten(tree)) == seq(|tree|, i requires 0 <= i < |tree| => Row([], i == |tree| - 1, tree[i]))
  {
    TopLevelRowsPart(tree, |tree|);
  }

  lemma {:induction false} TopLevelRowsPart(tree: seq<Node>, k: nat)
    requires k <= |tree|
    ensures TopRows(FlattenPart(tree, k)) == seq(k, i requires 0 <= i < k => Row([], i == |tree| - 1, tree[i]))
  {
    if k > 0 {
      var n := tree[k - 1];
      var isLast := k == |tree|;
      TopLevelRowsPart(tree, k - 1);
      var nested := if n.Directory? then Nest(Flatten(n.children), isLast) else [];
      assert FlattenNode(n, isLast) == [Row([], isLast, n)] + nested;
      TopRowsAppend(FlattenPart(tree, k - 1), FlattenNode(n, isLast));
      TopRowsAppend([Row([], isLast, n)], nested);
      if n.Directory? {
        TopRowsNest(Flatten(n.children), isLast);
      }
    }
  }

  /** Every file node carries the JSON-mode comment for its name. */
  ghost predicate TableComments(tree: seq<Node>)
  {
    forall i :: 0 <= i < |tree| ==>
      match tree[i]
      case FileNode(name, comment) => comment == JsonComment(name)
      case Directory(_, children) => TableComments(children)
  }

  lemma {:induction false} WalkJsonTableComments(dir: FsEntry)
    requires dir.Dir?
    ensures TableComments(WalkJson(dir))
    decreases dir
  {
    var kept := Kept(dir);
    forall i | 0 <= i < |kept| && kept[i].Dir?
      ensures TableComments(WalkJson(kept[i]))
    {
      assert kept[i] in dir.entries;
      WalkJsonTableComments(kept[i]);
    }
  }

  lemma {:induction false} FlattenTableComments(tree: seq<Node>)
    requires TableComments(tree)
    ensures forall r :: r in Flatten(tree) && r.node.FileNode? ==> r.node.comment == JsonComment(r.node.name)
    decreases tree, |tree| + 1
  {
    FlattenPartTableComments(tree, |tree|);
  }

  lemma {:induction false} FlattenPartTableComments(tree: seq<Node>, k: nat)
    requires k <= |tree| && TableComments(tree)
    ensures forall r :: r in FlattenPart(tree, k) && r.node.FileNode? ==> r.node.comment == JsonComment(r.node.name)
    decreases tree, k
  {
    if k > 0 {
      var n := tree[k - 1];
      var isLast := k == |tree|;
      FlattenPartTableComments(tree, k - 1);
      var nested := if n.Directory? then Nest(Flatten(n.children), isLast) else [];
      assert FlattenPart(tree, k) == FlattenPart(tree, k - 1) + ([Row([], isLast, n)] + nested);
      if n.Directory? {
        assert TableComments(n.children);
        FlattenTableComments(n.children);
        var rows := Flatten(n.children);
        forall r | r in nested && r.node.FileNode?
          ensures r.node.comment == JsonComment(r.node.name)
        {
          var i :| 0 <= i < |nested| && nested[i] == r;
          assert rows[i] in rows;
        }
      }
    }
  }

  /** The labels of the two modes: equal for a directory; for a file, the
      text label has one more space when there is no comment, and two more
      characters (the second marker) when there is one. */
  lemma LabelModes(n: Node)
    requires n.FileNode? ==> n.comment == JsonComment(n.name)
    ensures n.Directory? ==> Label(n, TextMode) == Label(n, JsonMode)
    ensures n.FileNode? && n.comment == "" ==> Label(n, TextMode) == Label(n, JsonMode) + " "
    ensures n.FileNode? && n.comment != "" ==>
      Label(n, JsonMode) == n.name + " " + n.comment && Label(n, TextMode) == n.name + " ◀ " + n.comment
  {
    if n.FileNode? {
      TextCommentIsMarkedJsonComment(n.name);
      if n.comment == "" {
        assert n.name + " " + "" == n.name + " ";
        assert n.name + "" == n.name;
      } else {
        assert n.name + " " + ("◀ " + n.comment) == n.name + " ◀ " + n.comment;
      }
    }
  }

  /** The two printers draw the same line for a directory and a different
      one for every file: text mode always adds a space after the name and,
      for a labelled file, a second marker. */
  lemma LineModes(prefix: string, row: Row)
    requires row.node.FileNode? ==> row.node.comment == JsonComment(row.node.name)
    ensures Line(DefaultGlyphs, prefix, row, TextMode) == Line(DefaultGlyphs, prefix, row, JsonMode) <==> row.node.Directory?
    ensures row.node.FileNode? && row.node.comment == "" ==>
      Line(DefaultGlyphs, prefix, row, TextMode) == Line(DefaultGlyphs, prefix, row, JsonMode) + " "
  {
    var lead := Lead(DefaultGlyphs, prefix, row);
    var n := row.node;
    LabelModes(n);
    var text, json := Label(n, TextMode), Label(n, JsonMode);
    if n.FileNode? {
      if n.comment == "" {
        assert lead + text == (lead + json) + " ";
      } else {
        assert |text| == |json| + 2;
      }
      assert |lead + text| != |lead + json|;
    }
  }

  /** With the default glyphs, `generate_tree_map` and
      `generate_tree_map_json` print the same number of lines for a
      directory, in the same order, and agree exactly on the directory
      lines. */
  lemma ModesAgreeExactlyOnDirectories(dir: FsEntry, prefix: string)
    requires dir.Dir?
    ensures |TextWalk(DefaultGlyphs, dir, prefix)| == |Render(WalkJson(dir), prefix)| == |Flatten(WalkJson(dir))|
    ensures forall i :: 0 <= i < |Flatten(WalkJson(dir))| ==>
      (TextWalk(DefaultGlyphs, dir, prefix)[i] == Render(WalkJson(dir), prefix)[i] <==> Flatten(WalkJson(dir))[i].node.Directory?)
  {
    var rows := Flatten(WalkJson(dir));
    TextWalkIsPreOrder(DefaultGlyphs, dir, prefix);
    RenderIsPreOrder(WalkJson(dir), prefix);
    WalkJsonTableComments(dir);
    FlattenTableComments(WalkJson(dir));
    forall i | 0 <= i < |rows|
      ensures Line(DefaultGlyphs, prefix, rows[i], TextMode) == Line(DefaultGlyphs, prefix, rows[i], JsonMode) <==> rows[i].node.Directory?
    {
      assert rows[i] in rows;
      LineModes(prefix, rows[i]);
    }
  }
}
