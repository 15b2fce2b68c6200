/**
 * The lossless document model of a tool-versions file (src/ast.rs), and the
 * well-formedness predicates that the parser establishes for the nodes it
 * builds. The string wrappers themselves validate nothing: any string,
 * empty or outside the grammar's character classes, can be wrapped.
 */
module Ast {
  import opened Wrappers
  import opened Scanner

  datatype Identifier = Identifier(value: string)
  datatype Version = Version(value: string)
  datatype Whitespace = Whitespace(value: string)
  datatype Unparsed = Unparsed(value: string)

  /** The versions of a definition: each value with the whitespace before it. */
  datatype Versions = Versions(value: seq<(Whitespace, Version)>)

  datatype SyntaxError =
    | UnexpectedToken(token: char, expected: string)
    | UnexpectedEOL(expected: string)
    | DuplicateIdentifier(name: Identifier)

  datatype Line =
    | ToolDefinition(name: Identifier, versions: Versions, whitespace: Option<Whitespace>, comment: Option<Unparsed>)
    | Empty(whitespace: Option<Whitespace>, comment: Option<Unparsed>)
    | Invalid(error: SyntaxError, unparsed: Unparsed)

  datatype AST = AST(lines: seq<Line>)

  /**
   * `value(new(s)) == s` for every wrapper, for every string, and wrappers
   * are equal exactly when the wrapped strings are (so tool names are
   * compared case-sensitively and without normalisation).
   */
  lemma WrappersAreTransparent(s: string, t: string, vs: seq<(Whitespace, Version)>)
    ensures Identifier(s).value == s && Version(s).value == s
    ensures Whitespace(s).value == s && Unparsed(s).value == s
    ensures Versions(vs).value == vs
    ensures Identifier(s) == Identifier(t) <==> s == t
  {
  }

  predicate IsDefinitionOf(line: Line, name: Identifier) {
    line.ToolDefinition? && line.name == name
  }

  /** No two tool definitions share a name. */
  predicate UniqueDefinitions(lines: seq<Line>) {
    forall i, j ::
      0 <= i < j < |lines| && lines[i].ToolDefinition? && lines[j].ToolDefinition? ==>
        lines[i].name != lines[j].name
  }

  predicate WellFormedName(name: Identifier) {
    |name.value| > 0 && AllIn(IdentifierChars, name.value)
  }

  predicate WellFormedPadding(padding: Whitespace) {
    |padding.value| > 0 && AllIn(WhitespaceChars, padding.value)
  }

  predicate WellFormedValue(version: Version) {
    |version.value| > 0 && AllIn(VersionChars, version.value)
  }

  predicate WellFormedVersions(versions: seq<(Whitespace, Version)>) {
    forall i :: 0 <= i < |versions| ==> WellFormedPadding(versions[i].0) && WellFormedValue(versions[i].1)
  }

  /**
   * The shape of every valid line the parser builds: a definition has a name
   * over `[0-9A-Za-z._-]`, at least one version, non-empty all-whitespace
   * paddings and non-empty values free of whitespace and `#`; whitespace that
   * is present is never empty. An `Invalid` line has no shape to keep.
   */
  predicate WellFormedLine(line: Line) {
    match line
    case ToolDefinition(name, versions, whitespace, _) =>
      && WellFormedName(name)
      && |versions.value| > 0
      && WellFormedVersions(versions.value)
      && (whitespace.Some? ==> WellFormedPadding(whitespace.value))
    case Empty(whitespace, _) =>
      whitespace.Some? ==> WellFormedPadding(whitespace.value)
    case Invalid(_, _) => false
  }
}
