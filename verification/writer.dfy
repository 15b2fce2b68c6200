/** The printer of src/writer.rs: renders a document back to text. */
module Writer {
  import opened Wrappers
  import opened Text
  import opened Ast

  /**
   * `write`: the rendered lines joined by line feeds, plus one final line
   * feed, which is there even when the document has no lines.
   */
  function Write(ast: AST): (r: string)
    ensures |r| > 0 && r[|r| - 1] == '\n'
  {
    Join(RenderLines(ast.lines), "\n") + "\n"
  }

  function RenderLines(lines: seq<Line>): seq<string> {
    seq(|lines|, i requires 0 <= i < |lines| => Render(lines[i]))
  }

  /**
   * `Line::to_string`. An invalid line prints its raw text and never its
   * error.
   */
  function Render(line: Line): string {
    match line
    case ToolDefinition(name, versions, whitespace, comment) =>
      name.value + RenderVersions(versions.value) + RenderWhitespace(whitespace) + RenderComment(comment)
    case Empty(whitespace, comment) =>
      RenderWhitespace(whitespace) + RenderComment(comment)
    case Invalid(_, unparsed) =>
      unparsed.value
  }

  /** Each version as its padding followed by its value, in order. */
  function RenderVersions(versions: seq<(Whitespace, Version)>): string {
    if |versions| == 0 then ""
    else RenderVersions(versions[..|versions| - 1]) + RenderVersion(versions[|versions| - 1])
  }

  function RenderVersion(version: (Whitespace, Version)): string {
    version.0.value + version.1.value
  }

  function RenderWhitespace(whitespace: Option<Whitespace>): string {
    if whitespace.Some? then whitespace.value.value else ""
  }

  function RenderComment(comment: Option<Unparsed>): string {
    if comment.Some? then "#" + comment.value.value else ""
  }

  /** Rendering distributes over concatenation of version lists. */
  lemma {:induction false} RenderVersionsAppend(a: seq<(Whitespace, Version)>, b: seq<(Whitespace, Version)>)
    ensures RenderVersions(a + b) == RenderVersions(a) + RenderVersions(b)
    decreases |b|
  {
    if |b| > 0 {
      var b' := b[..|b| - 1];
      assert (a + b)[..|a + b| - 1] == a + b';
      RenderVersionsAppend(a, b');
    } else {
      assert a + b == a;
    }
  }
}
