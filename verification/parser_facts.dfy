/**
 * What `parse_line` makes of a line, stated over the character classes of
 * the line's text rather than through the scanner: where the leading run of
 * name or whitespace characters stops, and what follows it. Also which
 * names a line registers, and how duplicates are found across a document.
 */
module ParserFacts {
  import opened Wrappers
  import opened Scanner
  import opened Ast
  import opened Parser
  import opened Text

  /**
   * The leading run of `cls` characters of `s` is exactly `s[..k]`: it is
   * not empty, and `s[k]`, if any, is outside the class.
   */
  predicate StopsAt(cls: Class, s: string, k: nat) {
    && 0 < k <= |s|
    && AllIn(cls, s[..k])
    && (k < |s| ==> !IsConsumable(cls, s[k]))
  }

  /** The scanner reads exactly the leading run of its class. */
  lemma ScanStopsAt(cls: Class, s: string)
    requires |s| > 0 && IsConsumable(cls, s[0])
    ensures var r := Consume(cls, s[0], s[1..]);
            var k := |r.token|;
            && StopsAt(cls, s, k)
            && r.token == s[..k]
            && (r.next.None? <==> k == |s|)
            && (k < |s| ==> r.next == Some(s[k]) && r.rest == s[k + 1..])
  {
    var r := Consume(cls, s[0], s[1..]);
    var k := |r.token|;
    ConsumeToken(cls, s[0], s[1..]);
    assert [s[0]] + s[1..] == s;
    if r.next.Some? {
      assert s == r.token + ([r.next.value] + r.rest);
      assert s[..k] == r.token;
      assert s[k] == r.next.value;
      assert s[k + 1..] == r.rest;
    } else {
      assert s[..k] == s;
    }
  }

  /** A leading run has one end. */
  lemma StopsAtUnique(cls: Class, s: string, k: nat, m: nat)
    requires StopsAt(cls, s, k) && StopsAt(cls, s, m)
    ensures k == m
  {
  }

  /** Every string that starts with a character of the class has a leading run. */
  lemma RunEnd(cls: Class, s: string) returns (k: nat)
    requires |s| > 0 && IsConsumable(cls, s[0])
    ensures StopsAt(cls, s, k)
  {
    ScanStopsAt(cls, s);
    k := |Consume(cls, s[0], s[1..]).token|;
  }

  /**
   * A line that starts with neither a name character nor whitespace: empty,
   * a comment, or an invalid first character. It registers no name.
   */
  lemma UnindentedLine(line: string, seen: set<Identifier>)
    requires |line| == 0 || (!IsIdentifierChar(line[0]) && !IsWhitespace(line[0]))
    ensures ParseLine(line, seen)
            == if |line| == 0 then Parsed(Empty(None, None), seen)
               else if line[0] == '#' then Parsed(Empty(None, Some(Unparsed(line[1..]))), seen)
               else Parsed(Invalid(UnexpectedToken(line[0], ExpectedIdentifierWhitespaceComment), Unparsed(line)), seen)
  {
  }

  /**
   * A line that starts with whitespace ending at `m`: blank, indented
   * comment, or an error naming the first character after the
   * indentation. It registers no name.
   */
  lemma IndentedLine(line: string, seen: set<Identifier>, m: nat)
    requires StopsAt(WhitespaceChars, line, m)
    ensures ParseLine(line, seen)
            == if m == |line| then Parsed(Empty(Some(Whitespace(line)), None), seen)
               else if line[m] == '#' then Parsed(Empty(Some(Whitespace(line[..m])), Some(Unparsed(line[m + 1..]))), seen)
               else Parsed(Invalid(UnexpectedToken(line[m], ExpectedEolComment), Unparsed(line)), seen)
  {
    ScanStopsAt(WhitespaceChars, line);
    var k := |Consume(WhitespaceChars, line[0], line[1..]).token|;
    StopsAtUnique(WhitespaceChars, line, k, m);
    ClassFacts(line[0]);
    if m == |line| {
      assert line[..m] == line;
    }
  }

  /**
   * A line whose name ends at `k`: without whitespace after the name it is
   * an error naming what is there instead; a name seen before makes it a
   * duplicate; otherwise the name is registered and the version loop reads
   * the rest.
   */
  lemma NamedLine(line: string, seen: set<Identifier>, k: nat)
    requires StopsAt(IdentifierChars, line, k)
    ensures var name := Identifier(line[..k]);
            ParseLine(line, seen)
            == if k == |line| then Parsed(Invalid(UnexpectedEOL(ExpectedWhitespace), Unparsed(line)), seen)
               else if !IsWhitespace(line[k]) then
                 Parsed(Invalid(UnexpectedToken(line[k], ExpectedWhitespace), Unparsed(line)), seen)
               else if name in seen then Parsed(Invalid(DuplicateIdentifier(name), Unparsed(line)), seen)
               else Parsed(ParseVersions(line, name, [], line[k], line[k + 1..]), seen + {name})
  {
    ScanRun(IdentifierChars, line, k);
    assert line[..k][0] == line[0] && IsIdentifierChar(line[0]);
    assert ParseLine(line, seen) == ParseDefinition(line, line[0], line[1..], seen);
    var id := Consume(IdentifierChars, line[0], line[1..]);
    if k < |line| && IsWhitespace(line[k]) && Identifier(line[..k]) !in seen {
      assert id.token == line[..k] && id.next == Some(line[k]) && id.rest == line[k + 1..];
    }
  }

  /** The scanner's result, given where the leading run ends. */
  lemma ScanRun(cls: Class, s: string, k: nat)
    requires StopsAt(cls, s, k)
    ensures Consume(cls, s[0], s[1..])
            == if k == |s| then Scan(s, None, []) else Scan(s[..k], Some(s[k]), s[k + 1..])
  {
    ScanStopsAt(cls, s);
    var j := |Consume(cls, s[0], s[1..]).token|;
    StopsAtUnique(cls, s, j, k);
    if k == |s| {
      assert s[..k] == s;
    }
  }

  /**
   * What follows a registered name, starting with the whitespace run that
   * ends at `m`: nothing or a comment before any version is an error;
   * anything else starts the first version and the line is a definition.
   */
  lemma AfterRegisteredName(line: string, name: Identifier, rest: string, m: nat)
    requires StopsAt(WhitespaceChars, rest, m)
    ensures var r := ParseVersions(line, name, [], rest[0], rest[1..]);
            if m == |rest| then r == Invalid(UnexpectedEOL(ExpectedVersion), Unparsed(line))
            else if rest[m] == '#' then r == Invalid(UnexpectedToken('#', ExpectedVersion), Unparsed(line))
            else r.ToolDefinition? && r.name == name
  {
    ScanStopsAt(WhitespaceChars, rest);
    var j := |Consume(WhitespaceChars, rest[0], rest[1..]).token|;
    StopsAtUnique(WhitespaceChars, rest, j, m);
  }

  /**
   * `line` declares `name`: the line starts with the name, the name is the
   * whole leading run of name characters, and whitespace follows it. This
   * is all `parse_definition` needs to see to register the name, whatever
   * comes after.
   */
  predicate Declares(line: string, name: Identifier) {
    var k := |name.value|;
    StopsAt(IdentifierChars, line, k) && k < |line| && IsWhitespace(line[k]) && line[..k] == name.value
  }

  /** The first character of a line that declares a name is a name character. */
  lemma DeclarationStart(line: string, name: Identifier)
    requires Declares(line, name)
    ensures IsIdentifierChar(line[0])
  {
    assert line[..|name.value|][0] == line[0];
  }

  /**
   * A line registers exactly the name it declares, and only when that name
   * is new; a declared name is registered even if the rest of the line
   * turns out to be invalid.
   */
  lemma Registers(line: string, seen: set<Identifier>, name: Identifier)
    ensures name in ParseLine(line, seen).seen <==> name in seen || Declares(line, name)
  {
    if Declares(line, name) {
      DeclarationStart(line, name);
    }
    if |line| == 0 || (!IsIdentifierChar(line[0]) && !IsWhitespace(line[0])) {
      UnindentedLine(line, seen);
    } else if !IsIdentifierChar(line[0]) {
      var m := RunEnd(WhitespaceChars, line);
      IndentedLine(line, seen, m);
    } else {
      var k := RunEnd(IdentifierChars, line);
      NamedLine(line, seen, k);
      if Declares(line, name) {
        StopsAtUnique(IdentifierChars, line, k, |name.value|);
      }
    }
  }

  /**
   * A line is reported as a duplicate of `name` exactly when it declares
   * `name` and `name` was registered before.
   */
  lemma DuplicateOfLine(line: string, seen: set<Identifier>, name: Identifier)
    ensures var r := ParseLine(line, seen).line;
            r.Invalid? && r.error == DuplicateIdentifier(name) <==> Declares(line, name) && name in seen
  {
    if Declares(line, name) {
      DeclarationStart(line, name);
    }
    if |line| == 0 || (!IsIdentifierChar(line[0]) && !IsWhitespace(line[0])) {
      UnindentedLine(line, seen);
    } else if !IsIdentifierChar(line[0]) {
      var m := RunEnd(WhitespaceChars, line);
      IndentedLine(line, seen, m);
    } else {
      var k := RunEnd(IdentifierChars, line);
      NamedLine(line, seen, k);
      if Declares(line, name) {
        StopsAtUnique(IdentifierChars, line, k, |name.value|);
      }
    }
  }

  /** The names registered after reading `lines`, starting from `seen`. */
  function SeenAfter(lines: seq<string>, seen: set<Identifier>): set<Identifier>
    decreases |lines|
  {
    if |lines| == 0 then seen else SeenAfter(lines[1..], ParseLine(lines[0], seen).seen)
  }

  /** The names registered after some lines are the names those lines declare. */
  lemma {:induction false} SeenAfterNames(lines: seq<string>, seen: set<Identifier>, name: Identifier)
    ensures name in SeenAfter(lines, seen) <==> name in seen || exists j :: 0 <= j < |lines| && Declares(lines[j], name)
    decreases |lines|
  {
    if |lines| > 0 {
      var seen' := ParseLine(lines[0], seen).seen;
      SeenAfterNames(lines[1..], seen', name);
      Registers(lines[0], seen, name);
      if exists j :: 0 <= j < |lines| && Declares(lines[j], name) {
        var j :| 0 <= j < |lines| && Declares(lines[j], name);
        if j > 0 {
          assert lines[1..][j - 1] == lines[j];
        }
      }
      if exists j :: 0 <= j < |lines[1..]| && Declares(lines[1..][j], name) {
        var j :| 0 <= j < |lines[1..]| && Declares(lines[1..][j], name);
        assert lines[j + 1] == lines[1..][j];
      }
    }
  }

  /** The `i`-th parsed line is `parse_line` of the `i`-th text line, given the names registered before it. */
  lemma {:induction false} ParseLinesAt(lines: seq<string>, seen: set<Identifier>, i: nat)
    requires i < |lines|
    ensures ParseLines(lines, seen)[i] == ParseLine(lines[i], SeenAfter(lines[..i], seen)).line
    decreases i
  {
    if i > 0 {
      var seen' := ParseLine(lines[0], seen).seen;
      ParseLinesAt(lines[1..], seen', i - 1);
      assert lines[..i][1..] == lines[1..][..i - 1];
      assert lines[..i][0] == lines[0];
    }
  }

  /**
   * Line `i` of a document is reported as a duplicate of `name` exactly
   * when it declares `name` and an earlier line declares it too, whether
   * or not that earlier line is valid.
   */
  lemma DuplicateIff(input: string, i: nat, name: Identifier)
    requires i < |Lines(input)|
    ensures var r := Parse(input).lines[i];
            r.Invalid? && r.error == DuplicateIdentifier(name)
            <==> Declares(Lines(input)[i], name) && exists j :: 0 <= j < i && Declares(Lines(input)[j], name)
  {
    var lines := Lines(input);
    ParseLinesAt(lines, {}, i);
    SeenAfterNames(lines[..i], {}, name);
    DuplicateOfLine(lines[i], SeenAfter(lines[..i], {}), name);
    if exists j :: 0 <= j < i && Declares(lines[j], name) {
      var j :| 0 <= j < i && Declares(lines[j], name);
      assert lines[..i][j] == lines[j];
    }
    if exists j :: 0 <= j < |lines[..i]| && Declares(lines[..i][j], name) {
      var j :| 0 <= j < |lines[..i]| && Declares(lines[..i][j], name);
      assert lines[j] == lines[..i][j];
    }
  }
}
