/**
 * The parser and the printer are inverse to each other: printing the parse
 * of any text without carriage returns gives the text back (with a final
 * line feed), and parsing the print of a document gives the document back
 * when it has at least one line, every line is valid, no tool is defined
 * twice and no printed line holds a line feed or a carriage return.
 */
module RoundTrip {
  import opened Wrappers
  import opened Scanner
  import opened Text
  import opened Ast
  import opened Parser
  import opened Writer
  import opened ParserFacts

  /** The version loop loses nothing of the characters it reads. */
  lemma {:induction false} ParseVersionsLossless(line: string, name: Identifier,
                                                 versions: seq<(Whitespace, Version)>,
                                                 first: char, chars: string)
    requires line == name.value + RenderVersions(versions) + [first] + chars
    ensures Render(ParseVersions(line, name, versions, first, chars)) == line
    decreases |chars|, 1
  {
    var ws := Consume(WhitespaceChars, first, chars);
    if ws.next.None? || ws.next.value == '#' {
      PaddingEndLossless(line, name, versions, first, chars);
    } else {
      VersionStepLossless(line, name, versions, first, chars);
    }
  }

  /** The loop stops after a padding: at the end of the line or at a comment. */
  lemma PaddingEndLossless(line: string, name: Identifier, versions: seq<(Whitespace, Version)>,
                           first: char, chars: string)
    requires line == name.value + RenderVersions(versions) + [first] + chars
    requires var ws := Consume(WhitespaceChars, first, chars); ws.next.None? || ws.next.value == '#'
    ensures Render(ParseVersions(line, name, versions, first, chars)) == line
  {
    if |versions| > 0 {
      var ws := Consume(WhitespaceChars, first, chars);
      var comment := if ws.next.None? then None else Some(Unparsed(ws.rest));
      ParseVersionsStops(line, name, versions, first, chars);
      RenderStoppedDefinition(line, name, versions, first, chars, ws, comment);
    }
  }

  lemma RenderStoppedDefinition(line: string, name: Identifier, versions: seq<(Whitespace, Version)>,
                                first: char, chars: string, ws: Scan, comment: Option<Unparsed>)
    requires line == name.value + RenderVersions(versions) + [first] + chars
    requires ws == Consume(WhitespaceChars, first, chars)
    requires ws.next.None? || ws.next.value == '#'
    requires comment == if ws.next.None? then None else Some(Unparsed(ws.rest))
    ensures Render(ToolDefinition(name, Versions(versions), Some(Whitespace(ws.token)), comment)) == line
  {
    PaddingText(first, chars, ws, comment);
    RegroupStopped(line, name.value + RenderVersions(versions), first, chars, ws.token, RenderComment(comment));
  }

  lemma RegroupStopped(line: string, prefix: string, first: char, chars: string, token: string, c: string)
    requires line == prefix + [first] + chars
    requires [first] + chars == token + c
    ensures line == prefix + token + c
  {
    calc {
      line;
      prefix + ([first] + chars);
      prefix + (token + c);
      prefix + token + c;
    }
  }

  /** The text after the last version: a padding, then the comment if any. */
  lemma PaddingText(first: char, chars: string, ws: Scan, comment: Option<Unparsed>)
    requires ws == Consume(WhitespaceChars, first, chars)
    requires ws.next.None? || ws.next.value == '#'
    requires comment == if ws.next.None? then None else Some(Unparsed(ws.rest))
    ensures [first] + chars == ws.token + RenderComment(comment)
  {
  }

  /** What the loop builds when it stops after a padding. */
  lemma ParseVersionsStops(line: string, name: Identifier, versions: seq<(Whitespace, Version)>,
                           first: char, chars: string)
    requires |versions| > 0
    requires var ws := Consume(WhitespaceChars, first, chars); ws.next.None? || ws.next.value == '#'
    ensures var ws := Consume(WhitespaceChars, first, chars);
            ParseVersions(line, name, versions, first, chars)
            == ToolDefinition(name, Versions(versions), Some(Whitespace(ws.token)),
                              if ws.next.None? then None else Some(Unparsed(ws.rest)))
  {
  }

  /** One version read by the loop, then the loop's next round or its end. */
  lemma {:induction false} VersionStepLossless(line: string, name: Identifier,
                                               versions: seq<(Whitespace, Version)>,
                                               first: char, chars: string)
    requires line == name.value + RenderVersions(versions) + [first] + chars
    requires Consume(WhitespaceChars, first, chars).next.Some?
    requires Consume(WhitespaceChars, first, chars).next.value != '#'
    ensures Render(ParseVersions(line, name, versions, first, chars)) == line
    decreases |chars|, 0
  {
    var ws := Consume(WhitespaceChars, first, chars);
    var v := Consume(VersionChars, ws.next.value, ws.rest);
    var versions' := versions + [(Whitespace(ws.token), Version(v.token))];
    VersionStepText(line, name, versions, first, chars);
    VersionStepShape(line, name, versions, first, chars);
    if v.next.Some? && v.next.value != '#' {
      ParseVersionsLossless(line, name, versions', v.next.value, v.rest);
    }
  }

  /** What the loop does after reading one version. */
  lemma VersionStepShape(line: string, name: Identifier, versions: seq<(Whitespace, Version)>,
                         first: char, chars: string)
    requires Consume(WhitespaceChars, first, chars).next.Some?
    requires Consume(WhitespaceChars, first, chars).next.value != '#'
    ensures var ws := Consume(WhitespaceChars, first, chars);
            var v := Consume(VersionChars, ws.next.value, ws.rest);
            var versions' := versions + [(Whitespace(ws.token), Version(v.token))];
            ParseVersions(line, name, versions, first, chars)
            == if v.next.None? then ToolDefinition(name, Versions(versions'), None, None)
               else if v.next.value == '#' then ToolDefinition(name, Versions(versions'), None, Some(Unparsed(v.rest)))
               else ParseVersions(line, name, versions', v.next.value, v.rest)
  {
  }

  /** The text of a line, split after the version the loop has just read. */
  lemma VersionStepText(line: string, name: Identifier, versions: seq<(Whitespace, Version)>,
                        first: char, chars: string)
    requires line == name.value + RenderVersions(versions) + [first] + chars
    requires Consume(WhitespaceChars, first, chars).next.Some?
    ensures var ws := Consume(WhitespaceChars, first, chars);
            var v := Consume(VersionChars, ws.next.value, ws.rest);
            var prefix := name.value + RenderVersions(versions + [(Whitespace(ws.token), Version(v.token))]);
            && (v.next.None? ==> line == prefix)
            && (v.next.Some? ==> line == prefix + [v.next.value] + v.rest)
  {
    var ws := Consume(WhitespaceChars, first, chars);
    var c := ws.next.value;
    var v := Consume(VersionChars, c, ws.rest);
    var entry := (Whitespace(ws.token), Version(v.token));
    RenderVersionsSnoc(versions, entry);
    if v.next.Some? {
      Regroup(name.value, RenderVersions(versions), first, chars, ws.token, c, ws.rest, v.token, v.next.value, v.rest);
    } else {
      RegroupEnd(name.value, RenderVersions(versions), first, chars, ws.token, c, ws.rest, v.token);
    }
  }

  lemma RenderVersionsSnoc(versions: seq<(Whitespace, Version)>, entry: (Whitespace, Version))
    ensures RenderVersions(versions + [entry]) == RenderVersions(versions) + (entry.0.value + entry.1.value)
  {
    assert (versions + [entry])[..|versions|] == versions;
  }

  lemma Regroup(n: string, r: string, f: char, chars: string, w: string, c: char, wr: string,
                v: string, x: char, t: string)
    requires [f] + chars == w + [c] + wr
    requires [c] + wr == v + [x] + t
    ensures n + r + [f] + chars == n + (r + (w + v)) + [x] + t
  {
    calc {
      n + r + [f] + chars;
      { Assoc(n + r, [f], chars); }
      (n + r) + ([f] + chars);
      { Assoc(w, [c], wr); }
      (n + r) + (w + ([c] + wr));
      { Assoc(v, [x], t); }
      (n + r) + (w + (v + ([x] + t)));
      { Assoc(w, v, [x] + t); }
      (n + r) + ((w + v) + ([x] + t));
      { Assoc(n + r, w + v, [x] + t); }
      (n + r + (w + v)) + ([x] + t);
      { Assoc(n, r, w + v); }
      (n + (r + (w + v))) + ([x] + t);
      { Assoc(n + (r + (w + v)), [x], t); }
      n + (r + (w + v)) + [x] + t;
    }
  }

  lemma RegroupEnd(n: string, r: string, f: char, chars: string, w: string, c: char, wr: string, v: string)
    requires [f] + chars == w + [c] + wr
    requires [c] + wr == v
    ensures n + r + [f] + chars == n + (r + (w + v))
  {
    calc {
      n + r + [f] + chars;
      (n + r) + ([f] + chars);
      (n + r) + (w + ([c] + wr));
      n + (r + (w + v));
    }
  }

  /** Per-line losslessness: the printer gives back every line the parser reads. */
  lemma ParseLineLossless(line: string, seen: set<Identifier>)
    ensures Render(ParseLine(line, seen).line) == line
  {
    if |line| > 0 && IsIdentifierChar(line[0]) {
      assert ParseLine(line, seen) == ParseDefinition(line, line[0], line[1..], seen);
      DefinitionLossless(line, seen);
    } else if |line| > 0 && IsWhitespace(line[0]) {
      IndentedLossless(line, seen);
    } else if |line| > 0 {
      assert line == [line[0]] + line[1..];
    }
  }

  /** The case of `ParseLineLossless` for a line that starts with whitespace. */
  lemma IndentedLossless(line: string, seen: set<Identifier>)
    requires |line| > 0 && !IsIdentifierChar(line[0]) && IsWhitespace(line[0])
    ensures Render(ParseLine(line, seen).line) == line
  {
    var m := RunEnd(WhitespaceChars, line);
    IndentedLine(line, seen, m);
    var p := ParseLine(line, seen).line;
    if m == |line| {
      assert p == Empty(Some(Whitespace(line)), None);
    } else if line[m] == '#' {
      assert p == Empty(Some(Whitespace(line[..m])), Some(Unparsed(line[m + 1..])));
      assert line == line[..m] + ("#" + line[m + 1..]);
    } else {
      assert p.Invalid? && p.unparsed.value == line;
    }
  }

  /** The definition case of `ParseLineLossless`. */
  lemma DefinitionLossless(line: string, seen: set<Identifier>)
    requires |line| > 0
    ensures Render(ParseDefinition(line, line[0], line[1..], seen).line) == line
  {
    var id := Consume(IdentifierChars, line[0], line[1..]);
    if id.next.Some? && IsWhitespace(id.next.value) && Identifier(id.token) !in seen {
      assert line == [line[0]] + line[1..];
      ParseVersionsLossless(line, Identifier(id.token), [], id.next.value, id.rest);
    }
  }

  /** Losslessness carries over to the fold over all lines. */
  lemma {:induction false} ParseLinesLossless(lines: seq<string>, seen: set<Identifier>)
    ensures RenderLines(ParseLines(lines, seen)) == lines
    decreases |lines|
  {
    if |lines| > 0 {
      var p := ParseLine(lines[0], seen);
      ParseLineLossless(lines[0], seen);
      ParseLinesLossless(lines[1..], p.seen);
      RenderedParseCons(lines, seen);
    }
  }

  /** The inductive step of `ParseLinesLossless`. */
  lemma RenderedParseCons(lines: seq<string>, seen: set<Identifier>)
    requires |lines| > 0
    requires var p := ParseLine(lines[0], seen);
             && Render(p.line) == lines[0]
             && RenderLines(ParseLines(lines[1..], p.seen)) == lines[1..]
    ensures RenderLines(ParseLines(lines, seen)) == lines
  {
    var p := ParseLine(lines[0], seen);
    var rest := ParseLines(lines[1..], p.seen);
    var r := ParseLines(lines, seen);
    assert r == [p.line] + rest;
    assert forall i :: 1 <= i < |r| ==> r[i] == rest[i - 1];
  }

  /**
   * The document round trip: printing the parse of a text without carriage
   * returns gives the text back, with one line feed added when it did not
   * end in one (so the empty text prints as a single line feed).
   */
  lemma WriteOfParse(s: string)
    requires '\r' !in s
    ensures Write(Parse(s)) == Completed(s)
  {
    ParseLinesLossless(Lines(s), {});
    JoinOfLines(s);
  }

  /**
   * An empty document prints as one line feed, which parses back as one empty
   * line: the empty document is not reproduced by a round trip.
   */
  lemma EmptyDocumentRoundTrip()
    ensures Write(AST([])) == "\n"
    ensures Parse(Write(AST([]))) == AST([Empty(None, None)])
  {
    assert LineBreakAt("\n") == 0;
    assert Lines("\n") == [""] by {
      assert "\n"[1..] == [];
      assert "\n"[..0] == "";
    }
  }

  /** Printing a version list splits off its `j`-th version. */
  lemma RenderVersionsFrom(versions: seq<(Whitespace, Version)>, j: nat)
    requires j < |versions|
    ensures RenderVersions(versions[j..])
            == versions[j].0.value + versions[j].1.value + RenderVersions(versions[j + 1..])
  {
    assert versions[j..] == [versions[j]] + versions[j + 1..];
    RenderVersionsAppend([versions[j]], versions[j + 1..]);
    assert [versions[j]][..0] == [];
  }

  /**
   * The characters that follow the `j`-th version of a well-formed
   * definition in its printed form: nothing, `#` and the comment, or
   * whitespace.
   */
  lemma AfterVersion(def: Line, j: nat)
    requires WellFormedLine(def) && def.ToolDefinition?
    requires j < |def.versions.value|
    ensures var vs := def.versions.value;
            var t := RenderVersions(vs[j + 1..]) + RenderWhitespace(def.whitespace) + RenderComment(def.comment);
            && (|t| == 0 ==> j + 1 == |vs| && def.whitespace.None? && def.comment.None?)
            && (|t| > 0 ==> !IsVersionChar(t[0]))
            && (|t| > 0 && t[0] == '#' ==> j + 1 == |vs| && def.whitespace.None? && t == "#" + def.comment.value.value)
            && (|t| > 0 && t[0] != '#' ==> j + 1 < |vs| || def.whitespace.Some?)
  {
    var vs := def.versions.value;
    var w := RenderWhitespace(def.whitespace);
    var c := RenderComment(def.comment);
    if j + 1 < |vs| {
      RenderVersionsFrom(vs, j + 1);
      var p := vs[j + 1].0.value;
      assert IsWhitespace(p[0]);
      var t := RenderVersions(vs[j + 1..]) + w + c;
      assert t[0] == p[0];
    } else {
      assert vs[j + 1..] == [];
      if def.whitespace.Some? {
        assert IsWhitespace(w[0]);
        assert (w + c)[0] == w[0];
      }
    }
  }

  /**
   * The version loop reads back the versions from the `j`-th on, the
   * trailing whitespace and the comment of a well-formed definition from
   * their printed form.
   */
  lemma {:induction false} ParseVersionsOfRendered(line: string, def: Line, j: nat, first: char, chars: string)
    requires WellFormedLine(def) && def.ToolDefinition?
    requires j <= |def.versions.value|
    requires j == |def.versions.value| ==> def.whitespace.Some?
    requires [first] + chars
             == RenderVersions(def.versions.value[j..]) + RenderWhitespace(def.whitespace) + RenderComment(def.comment)
    ensures ParseVersions(line, def.name, def.versions.value[..j], first, chars) == def
    decreases |def.versions.value| - j, 1
  {
    var vs := def.versions.value;
    if j == |vs| {
      assert vs[..j] == vs && vs[j..] == [];
      TrailingOfRendered(line, def, first, chars);
    } else {
      VersionOfRendered(line, def, j, first, chars);
    }
  }

  /** The loop reads back the `j`-th version and continues with the rest. */
  lemma {:induction false} VersionOfRendered(line: string, def: Line, j: nat, first: char, chars: string)
    requires WellFormedLine(def) && def.ToolDefinition?
    requires j < |def.versions.value|
    requires [first] + chars
             == RenderVersions(def.versions.value[j..]) + RenderWhitespace(def.whitespace) + RenderComment(def.comment)
    ensures ParseVersions(line, def.name, def.versions.value[..j], first, chars) == def
    decreases |def.versions.value| - j, 0
  {
    var vs := def.versions.value;
    var t := RenderVersions(vs[j + 1..]) + RenderWhitespace(def.whitespace) + RenderComment(def.comment);
    PiecesOfRendered(def, j, first, chars);
    ReadOneVersion(line, def.name, vs[..j], first, chars, vs[j].0.value, vs[j].1.value, t);
    PrefixSnoc(vs, j);
    if |t| > 0 && t[0] != '#' {
      HeadTail(t);
      ParseVersionsOfRendered(line, def, j + 1, t[0], t[1..]);
    } else {
      LastVersionRendered(def, j, t);
    }
  }

  lemma PrefixSnoc<T>(s: seq<T>, j: nat)
    requires j < |s|
    ensures s[..j] + [s[j]] == s[..j + 1]
  {
  }

  lemma HeadTail(t: string)
    requires |t| > 0
    ensures [t[0]] + t[1..] == t
  {
  }

  /** The printed definition from its `j`-th version on, cut into the pieces the loop reads. */
  lemma PiecesOfRendered(def: Line, j: nat, first: char, chars: string)
    requires WellFormedLine(def) && def.ToolDefinition?
    requires j < |def.versions.value|
    requires [first] + chars
             == RenderVersions(def.versions.value[j..]) + RenderWhitespace(def.whitespace) + RenderComment(def.comment)
    ensures var vs := def.versions.value;
            var t := RenderVersions(vs[j + 1..]) + RenderWhitespace(def.whitespace) + RenderComment(def.comment);
            && |vs[j].0.value| > 0 && AllIn(WhitespaceChars, vs[j].0.value)
            && |vs[j].1.value| > 0 && AllIn(VersionChars, vs[j].1.value)
            && [first] + chars == vs[j].0.value + (vs[j].1.value + t)
            && (|t| > 0 ==> !IsVersionChar(t[0]))
            && vs[j] == (Whitespace(vs[j].0.value), Version(vs[j].1.value))
  {
    var vs := def.versions.value;
    assert WellFormedPadding(vs[j].0) && WellFormedValue(vs[j].1);
    RenderVersionsFrom(vs, j);
    RegroupVersion(first, chars, vs[j].0.value, vs[j].1.value, RenderVersions(vs[j + 1..]),
                   RenderWhitespace(def.whitespace), RenderComment(def.comment));
    AfterVersion(def, j);
  }

  /** When nothing but a comment follows the `j`-th version, it is the definition's last. */
  lemma LastVersionRendered(def: Line, j: nat, t: string)
    requires WellFormedLine(def) && def.ToolDefinition?
    requires j < |def.versions.value|
    requires t == RenderVersions(def.versions.value[j + 1..]) + RenderWhitespace(def.whitespace)
                  + RenderComment(def.comment)
    requires |t| == 0 || t[0] == '#'
    ensures var versions := Versions(def.versions.value[..j + 1]);
            def == if |t| == 0 then ToolDefinition(def.name, versions, None, None)
                   else ToolDefinition(def.name, versions, None, Some(Unparsed(t[1..])))
  {
    var vs := def.versions.value;
    AfterVersion(def, j);
    assert vs[..j + 1] == vs;
    if |t| > 0 {
      assert t == "#" + def.comment.value.value;
      assert t[1..] == def.comment.value.value;
    }
  }

  /** The printed `j`-th version and what follows it, as one padding, one value and a tail. */
  lemma RegroupVersion(first: char, chars: string, p: string, v: string, r: string, w: string, c: string)
    requires [first] + chars == (p + v + r) + w + c
    ensures [first] + chars == p + (v + (r + w + c))
  {
    calc {
      (p + v + r) + w + c;
      p + (v + (r + w + c));
    }
  }

  /**
   * The loop over a text that starts with a whitespace run `p` and a value
   * `v` followed by a character that is not a version character: it records
   * the pair and stops or goes on as that character says.
   */
  lemma ReadOneVersion(line: string, name: Identifier, versions: seq<(Whitespace, Version)>,
                       first: char, chars: string, p: string, v: string, t: string)
    requires |p| > 0 && AllIn(WhitespaceChars, p)
    requires |v| > 0 && AllIn(VersionChars, v)
    requires [first] + chars == p + (v + t)
    requires |t| > 0 ==> !IsVersionChar(t[0])
    ensures var versions' := versions + [(Whitespace(p), Version(v))];
            ParseVersions(line, name, versions, first, chars)
            == if |t| == 0 then ToolDefinition(name, Versions(versions'), None, None)
               else if t[0] == '#' then ToolDefinition(name, Versions(versions'), None, Some(Unparsed(t[1..])))
               else ParseVersions(line, name, versions', t[0], t[1..])
  {
    SplitHead(first, chars, p, v + t);
    SplitHead(v[0], v[1..] + t, v, t);
    assert !IsWhitespace(v[0]);
    ConsumeRun(WhitespaceChars, p, v + t);
    ConsumeRun(VersionChars, v, t);
    VersionStepShape(line, name, versions, first, chars);
  }

  /** Splitting the first character off a concatenation. */
  lemma SplitHead(first: char, chars: string, p: string, rest: string)
    requires |p| > 0
    requires [first] + chars == p + rest
    ensures first == p[0] && chars == p[1..] + rest
    ensures (p + rest)[0] == p[0] && (p + rest)[1..] == p[1..] + rest
  {
    assert ([first] + chars)[0] == first && ([first] + chars)[1..] == chars;
    assert (p + rest)[0] == p[0] && (p + rest)[1..] == p[1..] + rest;
  }

  /** After the last version: the trailing whitespace, then the comment. */
  lemma TrailingOfRendered(line: string, def: Line, first: char, chars: string)
    requires WellFormedLine(def) && def.ToolDefinition? && def.whitespace.Some?
    requires [first] + chars == RenderVersions([]) + RenderWhitespace(def.whitespace) + RenderComment(def.comment)
    ensures ParseVersions(line, def.name, def.versions.value, first, chars) == def
  {
    var w := def.whitespace.value.value;
    var c := RenderComment(def.comment);
    assert RenderVersions([]) == [];
    assert [first] + chars == w + c;
    SplitHead(first, chars, w, c);
    ConsumeRun(WhitespaceChars, w, c);
    ParseVersionsStops(line, def.name, def.versions.value, first, chars);
  }

  /**
   * Reading back a printed valid line gives the line itself, and a
   * definition registers its name.
   */
  lemma ParseOfRenderedLine(line: Line, seen: set<Identifier>)
    requires WellFormedLine(line)
    requires line.ToolDefinition? ==> line.name !in seen
    ensures ParseLine(Render(line), seen)
            == Parsed(line, if line.ToolDefinition? then seen + {line.name} else seen)
  {
    if line.ToolDefinition? {
      DefinitionOfRendered(line, seen);
    } else {
      EmptyOfRendered(line, seen);
    }
  }

  lemma DefinitionOfRendered(def: Line, seen: set<Identifier>)
    requires WellFormedLine(def) && def.ToolDefinition?
    requires def.name !in seen
    ensures ParseLine(Render(def), seen) == Parsed(def, seen + {def.name})
  {
    var rest := RenderVersions(def.versions.value) + RenderWhitespace(def.whitespace) + RenderComment(def.comment);
    RenderedDefinitionText(def);
    DefinitionOfText(Render(def), def, rest, seen);
  }

  /** A printed definition is its name followed by everything after it. */
  lemma RenderedDefinitionText(def: Line)
    requires def.ToolDefinition?
    ensures Render(def)
            == def.name.value + (RenderVersions(def.versions.value) + RenderWhitespace(def.whitespace)
                                 + RenderComment(def.comment))
  {
    var n, v, w, c := def.name.value, RenderVersions(def.versions.value),
                      RenderWhitespace(def.whitespace), RenderComment(def.comment);
    assert Render(def) == n + v + w + c;
    calc {
      n + v + w + c;
      { Assoc(n + v, w, c); }
      (n + v) + (w + c);
      { Assoc(n, v, w + c); }
      n + (v + (w + c));
      { Assoc(v, w, c); }
      n + (v + w + c);
    }
  }

  /** Concatenation regroups freely. */
  lemma Assoc(a: string, b: string, c: string)
    ensures a + b + c == a + (b + c)
  {
  }

  /** `DefinitionOfRendered` for a text spelled as the name and the rest. */
  lemma DefinitionOfText(text: string, def: Line, rest: string, seen: set<Identifier>)
    requires WellFormedLine(def) && def.ToolDefinition?
    requires def.name !in seen
    requires rest == RenderVersions(def.versions.value) + RenderWhitespace(def.whitespace) + RenderComment(def.comment)
    requires text == def.name.value + rest
    ensures ParseLine(text, seen) == Parsed(def, seen + {def.name})
  {
    assert Identifier(def.name.value) == def.name;
    AfterName(def);
    DefinitionShape(text, def.name.value, rest, seen);
    VersionsOfRenderedDefinition(text, def);
  }

  /** The version loop reads back everything a printed definition has after its name. */
  lemma VersionsOfRenderedDefinition(line: string, def: Line)
    requires WellFormedLine(def) && def.ToolDefinition?
    ensures var rest := RenderVersions(def.versions.value) + RenderWhitespace(def.whitespace)
                        + RenderComment(def.comment);
            |rest| > 0 && ParseVersions(line, def.name, [], rest[0], rest[1..]) == def
  {
    var rest := RenderVersions(def.versions.value) + RenderWhitespace(def.whitespace) + RenderComment(def.comment);
    AfterName(def);
    assert def.versions.value[..0] == [];
    ParseVersionsOfRendered(line, def, 0, rest[0], rest[1..]);
  }

  /** What `parse_line` does with a name followed by whitespace. */
  lemma DefinitionShape(text: string, n: string, rest: string, seen: set<Identifier>)
    requires |n| > 0 && AllIn(IdentifierChars, n)
    requires |rest| > 0 && IsWhitespace(rest[0]) && !IsIdentifierChar(rest[0])
    requires text == n + rest
    requires Identifier(n) !in seen
    ensures ParseLine(text, seen)
            == Parsed(ParseVersions(text, Identifier(n), [], rest[0], rest[1..]), seen + {Identifier(n)})
  {
    SplitHead(text[0], text[1..], n, rest) by {
      assert [text[0]] + text[1..] == text;
    }
    ConsumeRun(IdentifierChars, n, rest);
  }

  /** The printed definition after its name starts with whitespace. */
  lemma AfterName(def: Line)
    requires WellFormedLine(def) && def.ToolDefinition?
    ensures var rest := RenderVersions(def.versions.value) + RenderWhitespace(def.whitespace)
                        + RenderComment(def.comment);
            && |rest| > 0 && IsWhitespace(rest[0]) && !IsIdentifierChar(rest[0])
            && [rest[0]] + rest[1..]
               == RenderVersions(def.versions.value[0..]) + RenderWhitespace(def.whitespace)
                  + RenderComment(def.comment)
  {
    var vs := def.versions.value;
    var w, c := RenderWhitespace(def.whitespace), RenderComment(def.comment);
    var p := vs[0].0.value;
    var rv := RenderVersions(vs);
    assert vs[0..] == vs;
    assert WellFormedPadding(vs[0].0);
    RenderVersionsFrom(vs, 0);
    HeadOfConcat(p, vs[0].1.value);
    HeadOfConcat(p + vs[0].1.value, RenderVersions(vs[1..]));
    HeadOfConcat(rv, w);
    HeadOfConcat(rv + w, c);
    assert IsConsumable(WhitespaceChars, p[0]);
    ClassFacts(p[0]);
    assert [(rv + w + c)[0]] + (rv + w + c)[1..] == rv + w + c;
  }

  lemma HeadOfConcat(a: string, b: string)
    requires |a| > 0
    ensures |a + b| > 0 && (a + b)[0] == a[0]
  {
  }

  lemma EmptyOfRendered(line: Line, seen: set<Identifier>)
    requires WellFormedLine(line) && line.Empty?
    ensures ParseLine(Render(line), seen) == Parsed(line, seen)
  {
    var text := Render(line);
    var c := RenderComment(line.comment);
    if line.whitespace.Some? {
      var w := line.whitespace.value.value;
      assert text == w + c;
      SplitHead(text[0], text[1..], w, c) by {
        assert [text[0]] + text[1..] == text;
      }
      ConsumeRun(WhitespaceChars, w, c);
      assert IsConsumable(WhitespaceChars, w[0]);
      ClassFacts(w[0]);
      if line.comment.Some? {
        assert c[1..] == line.comment.value.value;
      }
    } else if line.comment.Some? {
      assert text == "#" + line.comment.value.value;
      assert text[1..] == line.comment.value.value;
    }
  }

  /**
   * The inductive step of `ParseOfRenderedLines`: the first printed line
   * reads back, and so do the others with the names it registers.
   */
  lemma ParsedCons(lines: seq<Line>, seen: set<Identifier>, seen': set<Identifier>)
    requires |lines| > 0
    requires ParseLine(Render(lines[0]), seen) == Parsed(lines[0], seen')
    requires ParseLines(RenderLines(lines[1..]), seen') == lines[1..]
    ensures ParseLines(RenderLines(lines), seen) == lines
  {
    var text := RenderLines(lines);
    RenderLinesCons(lines);
    assert ParseLines(text, seen) == [lines[0]] + ParseLines(text[1..], seen');
    assert [lines[0]] + lines[1..] == lines;
  }

  lemma RenderLinesCons(lines: seq<Line>)
    requires |lines| > 0
    ensures var text := RenderLines(lines);
            |text| > 0 && text[0] == Render(lines[0]) && text[1..] == RenderLines(lines[1..])
  {
  }

  /** The preconditions of `ParseOfRenderedLines` carry over to the tail. */
  lemma RenderedTail(lines: seq<Line>, seen: set<Identifier>)
    requires |lines| > 0
    requires forall i :: 0 <= i < |lines| && lines[i].ToolDefinition? ==> lines[i].name !in seen
    requires forall i :: 0 <= i < |lines| ==> WellFormedLine(lines[i])
    requires UniqueDefinitions(lines)
    ensures var seen' := if lines[0].ToolDefinition? then seen + {lines[0].name} else seen;
            && (forall i :: 0 <= i < |lines[1..]| && lines[1..][i].ToolDefinition? ==> lines[1..][i].name !in seen')
            && (forall i :: 0 <= i < |lines[1..]| ==> WellFormedLine(lines[1..][i]))
            && UniqueDefinitions(lines[1..])
  {
    assert forall i :: 0 <= i < |lines[1..]| ==> lines[1..][i] == lines[i + 1];
  }

  /** Reading back the printed lines of a document with unique definitions. */
  lemma {:induction false} ParseOfRenderedLines(lines: seq<Line>, seen: set<Identifier>)
    requires forall i :: 0 <= i < |lines| ==> WellFormedLine(lines[i])
    requires UniqueDefinitions(lines)
    requires forall i :: 0 <= i < |lines| && lines[i].ToolDefinition? ==> lines[i].name !in seen
    ensures ParseLines(RenderLines(lines), seen) == lines
    decreases |lines|
  {
    if |lines| > 0 {
      var head := lines[0];
      var seen' := if head.ToolDefinition? then seen + {head.name} else seen;
      ParseOfRenderedLine(head, seen);
      RenderedTail(lines, seen);
      ParseOfRenderedLines(lines[1..], seen');
      ParsedCons(lines, seen, seen');
    }
  }

  /**
   * Writing a document and reading it back gives the same document when
   * every line is valid, no tool is defined twice, no printed line holds a
   * line feed or a carriage return (a valid padding, trailing whitespace or
   * comment may hold one, since a line feed is whitespace), and there is at
   * least one line (an empty document writes as one empty line).
   */
  lemma ParseOfWrite(ast: AST)
    requires |ast.lines| > 0
    requires forall i :: 0 <= i < |ast.lines| ==> WellFormedLine(ast.lines[i])
    requires UniqueDefinitions(ast.lines)
    requires forall i :: 0 <= i < |ast.lines| ==> LineBreakFree(Render(ast.lines[i]))
    ensures Parse(Write(ast)) == ast
  {
    var parts := RenderLines(ast.lines);
    LinesOfJoin(parts);
    ParseOfRenderedLines(ast.lines, {});
  }
}
