/** The node tree that the JSON-mode walker builds (one JSON object per
    node) and the connector glyphs that both renderers draw with. */
module Tree {

  /** `{"type": "directory", "name": ..., "children": [...]}` or
      `{"type": "file", "name": ..., "comment": ...}`. */
  datatype Node = Directory(name: string, children: seq<Node>) | FileNode(name: string, comment: string)

  /** The four strings the text-mode generator takes as parameters: the
      branch for a middle sibling, the branch for the last sibling, and the
      spacers handed down below each of them. */
  datatype Glyphs = Glyphs(indent: string, lastIndent: string, spacer: string, finalSpacer: string)

  /** The parameters' default values; the JSON-mode printer always uses
      these. */
  const DefaultGlyphs := Glyphs("├── ", "└── ", "│   ", "    ")

  /** The branch drawn in front of an entry. */
  function Branch(g: Glyphs, isLast: bool): string
  {
    if isLast then g.lastIndent else g.indent
  }

  /** What an entry adds to the prefix of its children. */
  function SpacerFor(g: Glyphs, isLast: bool): string
  {
    if isLast then g.finalSpacer else g.spacer
  }

  /** The number of nodes in a forest. */
  function Count(tree: seq<Node>): nat
  {
    if tree == [] then 0 else Count(tree[..|tree| - 1]) + NodeCount(tree[|tree| - 1])
  }

  function NodeCount(n: Node): nat
  {
    1 + if n.Directory? then Count(n.children) else 0
  }
}
