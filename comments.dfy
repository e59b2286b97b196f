/** The two `comment_for_file` lookups: one inside the text-mode generator,
    one inside the JSON-mode generator. Both look the file name up in the
    same two-entry table by exact, case-sensitive match. */
module Comments {

  const MainLabel := "◀ CLI entry point"
  const ProjectLabel := "◀ For installability (recommended)"

  /** The `special_comments` table. */
  const SpecialComments: map<string, string> := map["main.py" := MainLabel, "pyproject.toml" := ProjectLabel]

  /** The JSON-mode lookup: `special_comments.get(filename, "")`. */
  function JsonComment(filename: string): (r: string)
    ensures filename == "main.py" ==> r == "◀ CLI entry point"
    ensures filename == "pyproject.toml" ==> r == "◀ For installability (recommended)"
    ensures filename != "main.py" && filename != "pyproject.toml" ==> r == ""
  {
    if filename in SpecialComments then SpecialComments[filename] else ""
  }

  /** The text-mode lookup, which formats the table value behind a second
      marker. */
  function TextComment(filename: string): (r: string)
    ensures r != "" <==> filename == "main.py" || filename == "pyproject.toml"
    ensures r != "" ==> r == "◀ " + JsonComment(filename)
  {
    if filename in SpecialComments then "◀ " + SpecialComments[filename] else ""
  }

  /** A labelled name gets its label behind two markers in text mode. */
  lemma TextCommentLabels()
    ensures TextComment("main.py") == "◀ ◀ CLI entry point"
    ensures TextComment("pyproject.toml") == "◀ ◀ For installability (recommended)"
  {
    assert "◀ " + MainLabel == "◀ ◀ CLI entry point";
    ProjectTextLabel();
  }

  lemma ProjectTextLabel()
    ensures "◀ " + ProjectLabel == "◀ ◀ For installability (recommended)"
  {
  }

  /** The two lookups label the same names; the text one adds the marker
      `"◀ "` in front of every label. */
  lemma TextCommentIsMarkedJsonComment(filename: string)
    ensures JsonComment(filename) == "" <==> TextComment(filename) == ""
    ensures JsonComment(filename) != "" ==> TextComment(filename) == "◀ " + JsonComment(filename)
    ensures JsonComment(filename) != "" ==> JsonComment(filename)[..2] == "◀ "
  {
  }
}
