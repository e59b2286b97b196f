/** The behaviour on small concrete directory trees, line for line. */
module Scenarios {
  import opened Names
  import opened FileSystem
  import opened Comments
  import opened Tree
  import opened TreeJson
  import opened TreeText

  const Lib := Dir("lib", [File("helper.py")])
  const Main := File("main.py")
  const Util := File("util.py")

  /** A directory holding `main.py`, `util.py` and `lib/helper.py`, listed
      out of order. */
  ghost predicate IsProject(root: FsEntry)
  {
    root.Dir? && root.entries == [Util, Lib, Main]
  }

  lemma LibBeforeMain()
    ensures NameLe("lib", "main.py")
  {
  }

  lemma UtilAfterLib()
    ensures !NameLe("util.py", "lib")
  {
  }

  lemma UtilAfterMain()
    ensures !NameLe("util.py", "main.py")
  {
  }

  lemma SortTail()
    ensures SortByName([Lib, Main]) == [Lib, Main]
  {
    LibBeforeMain();
    assert SortByName([Main]) == [Main];
    assert Insert(Lib, [Main]) == [Lib, Main];
    assert [Lib, Main][1..] == [Main];
  }

  lemma InsertUtil()
    ensures Insert(Util, [Lib, Main]) == [Lib, Main, Util]
  {
    UtilAfterLib();
    UtilAfterMain();
    assert Insert(Util, [Main]) == [Main, Util];
    assert [Lib, Main][1..] == [Main];
  }

  lemma SortProject()
    ensures SortByName([Util, Lib, Main]) == [Lib, Main, Util]
  {
    SortTail();
    InsertUtil();
    assert [Util, Lib, Main][1..] == [Lib, Main];
  }

  lemma NoneHidden()
    ensures Visible([Lib, Main, Util]) == [Lib, Main, Util]
  {
    assert [Lib, Main, Util][1..] == [Main, Util];
    assert [Main, Util][1..] == [Util];
  }

  /** The walkers visit `lib`, `main.py`, `util.py` in this order. */
  lemma ProjectKept(root: FsEntry)
    requires IsProject(root)
    ensures Kept(root) == [Lib, Main, Util]
  {
    SortProject();
    NoneHidden();
  }

  lemma LibKept()
    ensures Kept(Lib) == [File("helper.py")]
  {
  }

  lemma LibTree()
    ensures WalkJson(Lib) == [FileNode("helper.py", "")]
  {
    LibKept();
    var w := WalkJson(Lib);
    assert |w| == 1;
    assert w[0] == JsonNode(File("helper.py"));
  }

  lemma ProjectNodes()
    ensures JsonNode(Lib) == Directory("lib", [FileNode("helper.py", "")])
    ensures JsonNode(Main) == FileNode("main.py", "◀ CLI entry point")
    ensures JsonNode(Util) == FileNode("util.py", "")
  {
    LibTree();
  }

  /** The tree for any directory whose kept listing is that of `Project`. */
  lemma TreeOfProjectListing(root: FsEntry)
    requires root.Dir? && Kept(root) == [Lib, Main, Util]
    ensures WalkJson(root) ==
      [Directory("lib", [FileNode("helper.py", "")]), FileNode("main.py", "◀ CLI entry point"), FileNode("util.py", "")]
  {
    ProjectNodes();
    WalkJsonAt(root, 0);
    WalkJsonAt(root, 1);
    WalkJsonAt(root, 2);
    ThreeElements(WalkJson(root), JsonNode(Lib), JsonNode(Main), JsonNode(Util));
  }

  lemma ThreeElements<T>(s: seq<T>, a: T, b: T, c: T)
    requires |s| == 3 && s[0] == a && s[1] == b && s[2] == c
    ensures s == [a, b, c]
  {
  }

  lemma ProjectTree(root: FsEntry)
    requires IsProject(root)
    ensures WalkJson(root) ==
      [Directory("lib", [FileNode("helper.py", "")]), FileNode("main.py", "◀ CLI entry point"), FileNode("util.py", "")]
  {
    ProjectKept(root);
    TreeOfProjectListing(root);
  }

  lemma JsonStrings()
    ensures "│   " + "└── " + "helper.py" + "" == "│   └── helper.py"
    ensures "" + "├── " + "lib" + "/" == "├── lib/"
    ensures "" + "├── " + "main.py" + (" " + "◀ CLI entry point") == "├── main.py ◀ CLI entry point"
    ensures "" + "└── " + "util.py" + "" == "└── util.py"
    ensures "" + "│   " == "│   "
  {
  }

  lemma RenderProjectTree(tree: seq<Node>)
    requires tree == [Directory("lib", [FileNode("helper.py", "")]), FileNode("main.py", "◀ CLI entry point"), FileNode("util.py", "")]
    ensures Render(tree, "") == ["├── lib/", "│   └── helper.py", "├── main.py ◀ CLI entry point", "└── util.py"]
  {
    JsonStrings();
    var helper := [FileNode("helper.py", "")];
    assert RenderNode(helper[0], "│   ", true) == ["│   └── helper.py"];
    assert Render(helper, "│   ") == ["│   └── helper.py"];
    assert RenderNode(tree[0], "", false) == ["├── lib/", "│   └── helper.py"];
    assert RenderNode(tree[1], "", false) == ["├── main.py ◀ CLI entry point"];
    assert RenderNode(tree[2], "", true) == ["└── util.py"];
    assert RenderPart(tree, "", 1) == ["├── lib/", "│   └── helper.py"];
    assert RenderPart(tree, "", 2) == ["├── lib/", "│   └── helper.py", "├── main.py ◀ CLI entry point"];
    assert RenderPart(tree, "", 3) == ["├── lib/", "│   └── helper.py", "├── main.py ◀ CLI entry point", "└── util.py"];
  }

  /** JSON mode: one marker, no trailing space. */
  lemma ProjectJsonLines(root: FsEntry)
    requires IsProject(root)
    ensures Render(WalkJson(root), "") ==
      ["├── lib/", "│   └── helper.py", "├── main.py ◀ CLI entry point", "└── util.py"]
  {
    ProjectTree(root);
    RenderProjectTree(WalkJson(root));
  }

  lemma TextStrings()
    ensures "│   " + "└── " + "helper.py" + " " + "" == "│   └── helper.py "
    ensures "" + "├── " + "lib" + "/" == "├── lib/"
    ensures "" + "├── " + "main.py" + " " + "◀ ◀ CLI entry point" == "├── main.py ◀ ◀ CLI entry point"
    ensures "" + "└── " + "util.py" + " " + "" == "└── util.py "
    ensures "" + "│   " == "│   "
  {
  }

  lemma ProjectTextEntries() returns (a: seq<string>, b: seq<string>, c: seq<string>)
    ensures a == TextEntry(DefaultGlyphs, Lib, "", false) && a == ["├── lib/", "│   └── helper.py "]
    ensures b == TextEntry(DefaultGlyphs, Main, "", false) && b == ["├── main.py ◀ ◀ CLI entry point"]
    ensures c == TextEntry(DefaultGlyphs, Util, "", true) && c == ["└── util.py "]
  {
    LibKept();
    TextCommentLabels();
    TextStrings();
    assert TextEntry(DefaultGlyphs, File("helper.py"), "│   ", true) == ["│   └── helper.py "];
    assert TextPart(DefaultGlyphs, Lib, "│   ", 1) == ["│   └── helper.py "];
    assert TextWalk(DefaultGlyphs, Lib, "│   ") == ["│   └── helper.py "];
    a, b, c := TextEntry(DefaultGlyphs, Lib, "", false), TextEntry(DefaultGlyphs, Main, "", false), TextEntry(DefaultGlyphs, Util, "", true);
  }

  /** A directory with three kept entries prints their lines in order. */
  lemma TextOfThreeEntries(root: FsEntry, a: FsEntry, b: FsEntry, c: FsEntry)
    requires root.Dir? && Kept(root) == [a, b, c]
    ensures TextWalk(DefaultGlyphs, root, "") ==
      TextEntry(DefaultGlyphs, a, "", false) + TextEntry(DefaultGlyphs, b, "", false) + TextEntry(DefaultGlyphs, c, "", true)
  {
    assert TextPart(DefaultGlyphs, root, "", 1) == TextEntry(DefaultGlyphs, a, "", false);
    assert TextPart(DefaultGlyphs, root, "", 2) == TextEntry(DefaultGlyphs, a, "", false) + TextEntry(DefaultGlyphs, b, "", false);
  }

  /** Text mode: the labelled file gets two markers and every file line
      ends in a space after its name or comment. */
  lemma ProjectTextLines(root: FsEntry)
    requires IsProject(root)
    ensures TextWalk(DefaultGlyphs, root, "") ==
      ["├── lib/", "│   └── helper.py ", "├── main.py ◀ ◀ CLI entry point", "└── util.py "]
  {
    ProjectKept(root);
    TextOfThreeEntries(root, Lib, Main, Util);
    var a, b, c := ProjectTextEntries();
    JoinThree(TextWalk(DefaultGlyphs, root, ""), a, b, c);
  }

  /** Joins the three entry blocks of the project's text listing. */
  lemma JoinThree(x: seq<string>, a: seq<string>, b: seq<string>, c: seq<string>)
    requires x == a + b + c
    requires a == ["├── lib/", "│   └── helper.py "]
    requires b == ["├── main.py ◀ ◀ CLI entry point"]
    requires c == ["└── util.py "]
    ensures x == ["├── lib/", "│   └── helper.py ", "├── main.py ◀ ◀ CLI entry point", "└── util.py "]
  {
  }

  /** A directory holding only hidden entries prints nothing below its root
      line and builds an empty structure. */
  lemma OnlyHiddenEntries()
    ensures WalkJson(Dir("root", [File(".hidden"), Dir(".git", [File("HEAD")])])) == []
    ensures TextWalk(DefaultGlyphs, Dir("root", [File(".hidden"), Dir(".git", [File("HEAD")])]), "") == []
  {
  }

  /** An empty directory prints nothing below its root line and builds an
      empty structure, whatever the glyphs. */
  lemma EmptyDirectory(g: Glyphs, name: string)
    ensures WalkJson(Dir(name, [])) == []
    ensures TextWalk(g, Dir(name, []), "") == []
  {
  }
}
