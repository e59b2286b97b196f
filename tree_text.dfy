/** `generate_tree_map`: the text-only generator, which walks the file
    system and prints as it goes, with no node tree in between. */
module TreeText {
  import opened Wrappers
  import opened FileSystem
  import opened Comments
  import opened Tree

  /** The lines `walk_dir(curr_path, prefix)` prints for directory `dir`. */
  function TextWalk(g: Glyphs, dir: FsEntry, prefix: string): seq<string>
    requires dir.Dir?
    decreases dir, 1
  {
    TextPart(g, dir, prefix, |Kept(dir)|)
  }

  /** The lines printed for the first `k` kept entries of `dir`. */
  function TextPart(g: Glyphs, dir: FsEntry, prefix: string, k: nat): seq<string>
    requires dir.Dir? && k <= |Kept(dir)|
    decreases dir, 0, k
  {
    if k == 0 then []
    else
      var kept := Kept(dir);
      assert kept[k - 1] in dir.entries;
      TextPart(g, dir, prefix, k - 1) + TextEntry(g, kept[k - 1], prefix, k == |kept|)
  }

  /** The lines printed for one kept entry: a directory's line and then its
      contents, or a file's line, which always has a space after the name. */
  function TextEntry(g: Glyphs, e: FsEntry, prefix: string, isLast: bool): seq<string>
    decreases e, 2
  {
    var linePrefix := prefix + Branch(g, isLast);
    match e
    case Dir(name, _) => [linePrefix + name + "/"] + TextWalk(g, e, prefix + SpacerFor(g, isLast))
    case File(name) => [linePrefix + name + " " + TextComment(name)]
  }

  /** `walk_dir`: sorts and filters the listing and prints one line per
      entry, recursing into a directory right after its line. The unused
      `is_last` parameter of the source is dropped. */
  method WalkDirText(g: Glyphs, dir: FsEntry, prefix: string) returns (lines: seq<string>)
    requires dir.Dir?
    ensures lines == TextWalk(g, dir, prefix)
    decreases dir
  {
    var entries := SortByName(dir.entries);
    entries := Visible(entries);
    lines := [];
    for index := 0 to |entries|
      invariant entries == Kept(dir)
      invariant lines == TextPart(g, dir, prefix, index)
    {
      var entry := entries[index];
      TextPartGrows(g, dir, prefix, index);
      var isEntryLast := index == |entries| - 1;
      var branch := if isEntryLast then g.lastIndent else g.indent;
      var linePrefix := prefix + branch;
      var nextPrefix := prefix + (if isEntryLast then g.finalSpacer else g.spacer);
      var block;
      if entry.Dir? {
        var sub := WalkDirText(g, entry, nextPrefix);
        block := [linePrefix + entry.name + "/"] + sub;
      } else {
        var comment := TextComment(entry.name);
        block := [linePrefix + entry.name + " " + comment];
      }
      assert block == TextEntry(g, entry, prefix, isEntryLast);
      lines := lines + block;
    }
  }

  /** The lines for the first `i + 1` kept entries extend those for the
      first `i` by the lines of entry `i`, which lies inside `dir`. */
  lemma TextPartGrows(g: Glyphs, dir: FsEntry, prefix: string, i: nat)
    requires dir.Dir? && i < |Kept(dir)|
    ensures Kept(dir)[i] in dir.entries
    ensures TextPart(g, dir, prefix, i + 1) == TextPart(g, dir, prefix, i) + TextEntry(g, Kept(dir)[i], prefix, i == |Kept(dir)| - 1)
  {
    assert Kept(dir)[i] in Kept(dir);
  }

  datatype Error = ListingFailed(path: string)

  /** What a call leaves behind: the printed lines and the error that ended
      it, if any. */
  datatype TextRun = TextRun(printed: seq<string>, error: Option<Error>)

  /** `generate_tree_map(root_path, indent, last_indent, spacer,
      final_spacer)`. The root line is printed before the root is listed, so
      a root that is not a directory still gets its line before listing it
      fails. */
  method GenerateTreeMap(g: Glyphs, root: FsEntry, rootPath: string, rootName: string) returns (run: TextRun)
    ensures |run.printed| >= 1 && run.printed[0] == rootName + "/"
    ensures run.error.Some? <==> root.File?
    ensures root.File? ==> run == TextRun([rootName + "/"], Some(ListingFailed(rootPath)))
    ensures root.Dir? ==> run.printed == [rootName + "/"] + TextWalk(g, root, "")
  {
    var printed := [rootName + "/"];
    if !root.Dir? {
      return TextRun(printed, Some(ListingFailed(rootPath)));
    }
    var lines := WalkDirText(g, root, "");
    run := TextRun(printed + lines, None);
  }
}
