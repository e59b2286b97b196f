# Directory tree map, modelled in Dafny

`generate_tree_map.py` prints a directory as a tree. It has two
generators:

- `generate_tree_map` walks the file system and prints each entry as it
  reaches it (text mode).
- `generate_tree_map_json` first builds a nested node structure, with one
  object per directory or file. It then prints that structure and, when
  asked, saves it as a JSON document (JSON mode).

Both generators work the same way on each directory:

- They sort the listing by name and drop names that start with `.`.
- They draw each entry behind a branch glyph: `├── `, or `└── ` for the
  last sibling.
- They hand a spacer down to the entry's children: `│   `, or four blanks
  below a last sibling.
- They attach a fixed label to `main.py` and `pyproject.toml`.

The model has these modules:

- `Names`: Python's string order and the hidden-name test.
- `FileSystem`: the host's directory tree as a value, plus the sort and the
  filter.
- `Comments`: the two label lookups.
- `Tree`: JSON-mode nodes and the glyphs.
- `TreeJson`: `walk_dir_json`, `print_tree` and the JSON-mode generator.
- `TreeText`: `walk_dir` and the text-mode generator.
- `Rows`: a reference description of both outputs as pre-order rows, which
  ties the two generators together.
- `Scenarios`: concrete trees, line for line.

## How the model is shaped

- **Walkers and printer.** The walkers and the printer are loops that append
  to a list or print line by line, so each is a `method` with a loop. The
  loop's invariants tie it to a recursive specification function: `WalkJson`,
  `Render` or `TextWalk`. The properties are then proved about those
  functions.
- **Printing.** Printing becomes a returned `seq<string>` with one element
  per `print` call.
- **File system.** The file system is a value,
  `FsEntry = Dir(name, entries) | File(name)`:
  - `entries` is the raw `os.listdir` result, in whatever order the host
    returns it.
  - `Dir` is a name for which `os.path.isdir` is true. `File` is every other
    name.
- **Text-mode labels.** The code adds a second `◀ ` in front of the table
  value, and it always puts a space after a file name. For `main.py` it
  therefore prints `main.py ◀ ◀ CLI entry point`. For an unlabelled file it
  prints the name followed by a trailing space. The model follows the code
  (`Comments.TextComment`, `Scenarios.ProjectTextLines`). A single marker and
  no trailing space, as the JSON-mode printer draws them, is the intended
  look described for the tool. The JSON-mode lookup (lines 94-99) and
  `print_tree` (line 91) do produce exactly that (`Scenarios.ProjectJsonLines`).
- **Sort, then filter.** Both walkers sort first and filter second. That
  gives the same listing as filtering first, and the model keeps the code's
  order.

## Model

| member | source | states |
|---|---|---|
| Names.NameLeTotal | generate_tree_map.py:13 | Python's string `<=`, which `sorted` uses, is total: of any two names one sorts first |
| Names.NameLeTransitive | generate_tree_map.py:13 | the string order is transitive |
| Names.NameLeAntisymmetric | generate_tree_map.py:13 | two names that each sort no later than the other are equal |
| Names.NameLeReflexive | generate_tree_map.py:13 | every name sorts no later than itself |
| FileSystem.Insert | generate_tree_map.py:13 | inserting an entry into a sorted listing keeps it sorted and adds exactly that entry; the result is strictly ordered if the listing was and the name is new |
| FileSystem.SortByName | generate_tree_map.py:13 | `sorted(os.listdir(...))`: the result is in name order, is a permutation of the listing, and is strictly ordered when the names are distinct |
| FileSystem.Visible | generate_tree_map.py:14 | the filter keeps exactly the entries whose name does not start with `.`, and never lengthens the listing |
| FileSystem.VisibleAppend | generate_tree_map.py:14 | the filter works entry by entry: filtering a concatenation concatenates the filtered parts, so relative order is kept |
| FileSystem.VisibleKeepsOrder | generate_tree_map.py:13-14 | filtering a sorted listing leaves it sorted, and strictly sorted if it was |
| FileSystem.Kept | generate_tree_map.py:13-14 | the listing a walker visits holds exactly the directory's non-hidden entries |
| FileSystem.KeptOrder | generate_tree_map.py:66-67 | the visited listing is in name order, and strictly so when the directory's names are distinct |
| Comments.JsonComment | generate_tree_map.py:94-99 | `main.py` and `pyproject.toml` get their fixed labels; every other name, including other cases of those names, gets `""` |
| Comments.TextComment | generate_tree_map.py:31-37 | the text lookup is non-empty exactly for the two table names, and is then `"◀ "` followed by the table label |
| Comments.TextCommentLabels | generate_tree_map.py:31-37 | the text-mode labels as written: `◀ ◀ CLI entry point` and `◀ ◀ For installability (recommended)` |
| Comments.TextCommentIsMarkedJsonComment | generate_tree_map.py:31-37 | the two lookups label the same names; the text one puts an extra `◀ ` in front of the label, which itself starts with `◀ ` |
| TreeJson.WalkJson | generate_tree_map.py:65-79 | one node per visited entry, in the visited order, with the entry's name, and a directory node exactly for a directory entry |
| TreeJson.WalkDirJson | generate_tree_map.py:65-79 | the loop builds exactly the tree `WalkJson` describes |
| TreeJson.WalkJsonNodes | generate_tree_map.py:72-78 | a directory node holds the tree built for that directory; a file node holds the JSON-mode label of its name |
| TreeJson.WalkJsonTopLevel | generate_tree_map.py:66-67 | the top level of the tree is in name order, is strictly ordered for distinct names, and has no hidden name |
| TreeJson.WalkJsonAscending | generate_tree_map.py:65-79 | at every depth, sibling names ascend and none is hidden |
| TreeJson.WalkJsonStrictlyAscending | generate_tree_map.py:65-79 | in a tree whose directories list distinct names, siblings strictly ascend at every depth |
| TreeJson.WalkJsonPaths | generate_tree_map.py:65-79 | a path of names is in the built tree exactly when it reaches an entry through non-hidden names only: nothing visible is missed and nothing hidden is entered |
| TreeJson.WalkJsonPathsSound | generate_tree_map.py:65-79 | every path in the tree leads to a non-hidden entry |
| TreeJson.WalkJsonPathsComplete | generate_tree_map.py:65-79 | every entry reachable through non-hidden names is in the tree |
| TreeJson.PrintTree | generate_tree_map.py:81-92 | the loop prints exactly the lines `Render` describes |
| TreeJson.GenerateTreeMapJson | generate_tree_map.py:101-115 | a root that is not a directory fails with the not-a-directory message and nothing else happens. Otherwise: the root line, then the printed tree, then the saved-to line and the saved `{root, structure}` document when the path is non-empty, and neither when it is absent or empty |
| TreeText.WalkDirText | generate_tree_map.py:12-29 | the loop prints exactly the lines `TextWalk` describes |
| TreeText.GenerateTreeMap | generate_tree_map.py:39-41 | the root's name and `/` always come first; the listing fails exactly when the root is not a directory, and then nothing else is printed; otherwise the walk's lines follow the root line |
| Rows.RenderIsPreOrder | generate_tree_map.py:81-92 | `print_tree` prints one line per node in pre-order; each line is the prefix, one spacer per ancestor, the branch and the label |
| Rows.TextWalkIsPreOrder | generate_tree_map.py:12-29 | `walk_dir` prints, with any glyphs, the text-mode lines of the pre-order rows of the tree `walk_dir_json` builds for the same directory |
| Rows.LinesNest | generate_tree_map.py:22 | handing a spacer down in the prefix draws the same lines as recording one more ancestor |
| Rows.RenderCount | generate_tree_map.py:81-92 | `print_tree` prints exactly one line per node |
| Rows.FlattenCount | generate_tree_map.py:81-92 | the pre-order has one row per node |
| Rows.SpacerGroups | generate_tree_map.py:85 | with the default glyphs each ancestor contributes one four-character group: blanks below a last sibling, `│   ` below any other |
| Rows.LineShape | generate_tree_map.py:84-92 | a line at depth d is the prefix, then d spacer groups that spell out the ancestry, then `└── ` exactly for a last sibling and `├── ` otherwise |
| Rows.TopLevelRows | generate_tree_map.py:82-84 | the top-level rows are the siblings in order, and only the last one is marked last |
| Rows.WalkJsonTableComments | generate_tree_map.py:76-77 | every file node at any depth carries the JSON-mode label of its name |
| Rows.FlattenTableComments | generate_tree_map.py:76-77 | every file row of the pre-order carries the JSON-mode label of its name |
| Rows.LabelModes | generate_tree_map.py:29 | the two modes label a directory the same way. For a file, text mode adds a trailing space when there is no label, and a second marker when there is one |
| Rows.LineModes | generate_tree_map.py:29 | a text-mode line equals the JSON-mode line for the same row exactly when the row is a directory |
| Rows.ModesAgreeExactlyOnDirectories | generate_tree_map.py:12-29 | with the default glyphs, the two generators print the same number of lines in the same order. The lines are equal exactly at the directories |
| Scenarios.ProjectKept | generate_tree_map.py:13-14 | a directory listed as `util.py`, `lib`, `main.py` is visited as `lib`, `main.py`, `util.py` |
| Scenarios.ProjectTree | generate_tree_map.py:65-79 | the node tree for that directory, where `lib` holds `helper.py` |
| Scenarios.ProjectJsonLines | generate_tree_map.py:81-92 | the JSON-mode lines for that directory: `├── lib/`, `│   └── helper.py`, `├── main.py ◀ CLI entry point`, `└── util.py` |
| Scenarios.ProjectTextLines | generate_tree_map.py:12-29 | the text-mode lines for that directory, with the doubled marker and the trailing spaces the code prints |
| Scenarios.OnlyHiddenEntries | generate_tree_map.py:14 | a directory holding only `.hidden` and `.git/` prints no line below the root and builds an empty structure |
| Scenarios.EmptyDirectory | generate_tree_map.py:16 | an empty directory prints no line below the root and builds an empty structure |

## Left out

- Host access is an input, not a call. `os.listdir`, `os.path.isdir` and `os.path.join` are replaced by the `FsEntry` value. A symlink is whatever the host reports. A cyclic tree cannot be written as a finite value, so the unbounded recursion it causes is not modelled.
- `os.path.basename(os.path.abspath(root_path))` (lines 39 and 107) needs the working directory. Its result is the `rootName` parameter. The `name` field of the root entry is not used.
- Listing failures (permissions, a path that disappears) are not modelled below the root. The model's listing always succeeds. At the root, text mode reports the listing of a non-directory as `ListingFailed` after the root line is printed. A path that does not exist at all is not an `FsEntry`: JSON mode reports it like a file (line 101), and text mode is modelled only for an entry that exists.
- `json.dump` and the file write (lines 113-114) are not modelled. The document that would be written is returned, and write failures are left out. The 4-space JSON indentation and the encoding are not modelled.
- The command-line block (lines 44-53) is left out: `argparse` and the process entry point are outside the core.
- The `is_last` parameter of `walk_dir` (line 12) is never read, so it is dropped.
- Python raises exceptions where the model returns values: `ValueError` becomes `Failure(InvalidArgument(...))`, and the failed listing becomes `ListingFailed`.
- Text and JSON round-trip: no parser of the text output is written. What the model proves instead:
  - `Rows.LineShape`: every line spells out its node's ancestry and sibling position in fixed four-character groups.
  - `Rows.TextWalkIsPreOrder` and `Rows.RenderIsPreOrder`: both outputs are the pre-order rows of the same node tree.
  - `TreeJson.WalkJsonPaths`: that tree holds exactly the reachable non-hidden paths.
- Two calls on an unchanged directory give identical output because every member is a function of its inputs. This is not stated as a separate lemma.
