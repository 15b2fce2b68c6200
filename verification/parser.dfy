/**
 * The error-recovering parser of src/parser.rs: every line of the input
 * becomes exactly one `Line`, valid or `Invalid`, and the names of the tools
 * seen so far are threaded from line to line to detect duplicates.
 */
module Parser {
  import opened Wrappers
  import opened Scanner
  import opened Text
  import opened Ast

  const ExpectedIdentifierWhitespaceComment := "Identifier,Whitespace,Comment"
  const ExpectedEolComment := "EOL,Comment"
  const ExpectedWhitespace := "Whitespace"
  const ExpectedVersion := "Version"

  /** A parsed line together with the set of names registered after it. */
  datatype Parsed = Parsed(line: Line, seen: set<Identifier>)

  /** `parse`: one `Line` per line of `input`, in order. */
  function Parse(input: string): (r: AST)
    ensures |r.lines| == |Lines(input)|
    ensures forall i :: 0 <= i < |r.lines| && r.lines[i].Invalid? ==>
              r.lines[i].unparsed.value == Lines(input)[i]
    ensures forall i :: 0 <= i < |r.lines| && !r.lines[i].Invalid? ==> WellFormedLine(r.lines[i])
    ensures UniqueDefinitions(r.lines)
  {
    AST(ParseLines(Lines(input), {}))
  }

  /** The fold of `parse_line` over the lines, threading the seen names. */
  function ParseLines(lines: seq<string>, seen: set<Identifier>): (r: seq<Line>)
    ensures |r| == |lines|
    ensures forall i :: 0 <= i < |r| && r[i].Invalid? ==> r[i].unparsed.value == lines[i]
    ensures forall i :: 0 <= i < |r| && !r[i].Invalid? ==> WellFormedLine(r[i])
    ensures forall i :: 0 <= i < |r| && r[i].ToolDefinition? ==> r[i].name !in seen
    ensures UniqueDefinitions(r)
    decreases |lines|
  {
    if |lines| == 0 then
      []
    else
      var p := ParseLine(lines[0], seen);
      var rest := ParseLines(lines[1..], p.seen);
      assert forall i :: 1 <= i < |rest| + 1 ==> ([p.line] + rest)[i] == rest[i - 1];
      [p.line] + rest
  }

  /**
   * `parse_line`: dispatch on the first character. A tool name starts a
   * definition; whitespace may only be followed by a comment; `#` starts a
   * comment; anything else makes the whole line invalid.
   */
  function ParseLine(line: string, seen: set<Identifier>): (r: Parsed)
    ensures r.line.Invalid? ==> r.line.unparsed.value == line
    ensures !r.line.Invalid? ==> WellFormedLine(r.line)
    ensures r.line.ToolDefinition? ==> r.line.name !in seen && r.seen == seen + {r.line.name}
    ensures seen <= r.seen
  {
    if |line| == 0 then
      Parsed(Empty(None, None), seen)
    else
      var first := line[0];
      if IsIdentifierChar(first) then
        ParseDefinition(line, first, line[1..], seen)
      else if IsWhitespace(first) then
        ConsumeToken(WhitespaceChars, first, line[1..]);
        var ws := Consume(WhitespaceChars, first, line[1..]);
        match ws.next
        case None => Parsed(Empty(Some(Whitespace(ws.token)), None), seen)
        case Some(c) =>
          if c == '#' then
            Parsed(Empty(Some(Whitespace(ws.token)), Some(Unparsed(ws.rest))), seen)
          else
            Parsed(Invalid(UnexpectedToken(c, ExpectedEolComment), Unparsed(line)), seen)
      else if first == '#' then
        Parsed(Empty(None, Some(Unparsed(line[1..]))), seen)
      else
        Parsed(Invalid(UnexpectedToken(first, ExpectedIdentifierWhitespaceComment), Unparsed(line)), seen)
  }

  /**
   * `parse_definition`: read the tool name; it must be followed by
   * whitespace. The name is registered as soon as that whitespace is seen,
   * before any version has been read, unless it was registered already, in
   * which case the line is a duplicate.
   */
  function ParseDefinition(line: string, first: char, chars: string, seen: set<Identifier>): (r: Parsed)
    ensures r.line.Invalid? ==> r.line.unparsed.value == line
    ensures IsIdentifierChar(first) && !r.line.Invalid? ==> WellFormedLine(r.line)
    ensures r.line.ToolDefinition? ==> r.line.name !in seen && r.seen == seen + {r.line.name}
    ensures !r.line.Empty?
    ensures seen <= r.seen
  {
    ConsumeToken(IdentifierChars, first, chars);
    var id := Consume(IdentifierChars, first, chars);
    var name := Identifier(id.token);
    match id.next
    case None =>
      Parsed(Invalid(UnexpectedEOL(ExpectedWhitespace), Unparsed(line)), seen)
    case Some(c) =>
      if !IsWhitespace(c) then
        Parsed(Invalid(UnexpectedToken(c, ExpectedWhitespace), Unparsed(line)), seen)
      else if name in seen then
        Parsed(Invalid(DuplicateIdentifier(name), Unparsed(line)), seen)
      else
        Parsed(ParseVersions(line, name, [], c, id.rest), seen + {name})
  }

  /**
   * The version loop of `parse_definition`: `first` is the whitespace
   * character that stopped the previous token. Read a padding, then stop at
   * the end of the line or at `#` (an error while no version has been read),
   * or read a version and go round again.
   */
  function ParseVersions(line: string, name: Identifier, versions: seq<(Whitespace, Version)>,
                         first: char, chars: string): (r: Line)
    ensures r.Invalid? ==> r.unparsed.value == line && |versions| == 0
    ensures r.Invalid? ==> r.error in {UnexpectedEOL(ExpectedVersion), UnexpectedToken('#', ExpectedVersion)}
    ensures r.ToolDefinition? ==> r.name == name
    ensures !r.Empty?
    ensures WellFormedName(name) && WellFormedVersions(versions) && IsWhitespace(first) && !r.Invalid? ==>
              WellFormedLine(r)
    decreases |chars|
  {
    ConsumeToken(WhitespaceChars, first, chars);
    var ws := Consume(WhitespaceChars, first, chars);
    var padding := Whitespace(ws.token);
    match ws.next
    case None =>
      if |versions| == 0 then Invalid(UnexpectedEOL(ExpectedVersion), Unparsed(line))
      else ToolDefinition(name, Versions(versions), Some(padding), None)
    case Some(c) =>
      if c == '#' then
        if |versions| == 0 then Invalid(UnexpectedToken('#', ExpectedVersion), Unparsed(line))
        else ToolDefinition(name, Versions(versions), Some(padding), Some(Unparsed(ws.rest)))
      else
        ConsumeToken(VersionChars, c, ws.rest);
        var v := Consume(VersionChars, c, ws.rest);
        var versions' := versions + [(padding, Version(v.token))];
        match v.next
        case None => ToolDefinition(name, Versions(versions'), None, None)
        case Some(n) =>
          if n == '#' then ToolDefinition(name, Versions(versions'), None, Some(Unparsed(v.rest)))
          else ParseVersions(line, name, versions', n, v.rest)
  }
}
