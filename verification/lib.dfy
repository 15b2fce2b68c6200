/**
 * The public facade of src/lib.rs: a `ToolVersions` value owns a document
 * and offers reading (`from`), error listing, version lookup, editing and
 * printing. The methods that change `self` in place are modelled as
 * functions returning the new value.
 */
module ToolVersionsApi {
  import opened Wrappers
  import opened Text
  import opened Ast
  import Parser
  import Writer
  import Transformer
  import Scanner

  datatype ToolVersions = ToolVersions(ast: AST)

  /** `new`: a value with an empty document. */
  function New(): (r: ToolVersions)
    ensures |r.ast.lines| == 0
    ensures Errors(r) == [] && forall name :: VersionsOf(r, name).None?
  {
    ToolVersions(AST([]))
  }

  /** `from`: parse a text; a text that does not follow the grammar still gives a value. */
  function From(s: string): (r: ToolVersions)
    ensures |r.ast.lines| == |Lines(s)|
    ensures UniqueDefinitions(r.ast.lines)
  {
    ToolVersions(Parser.Parse(s))
  }

  /** `errors`: the syntax errors of the invalid lines, in line order. */
  function Errors(t: ToolVersions): (r: seq<SyntaxError>)
    ensures |r| <= |t.ast.lines|
    ensures forall e :: e in r <==> exists i :: 0 <= i < |t.ast.lines| && IsErrorOf(t.ast.lines[i], e)
  {
    CollectErrors(t.ast.lines)
  }

  predicate IsErrorOf(line: Line, error: SyntaxError) {
    line.Invalid? && line.error == error
  }

  /** The `filter_map` of `errors` over a list of lines. */
  function CollectErrors(lines: seq<Line>): (r: seq<SyntaxError>)
    ensures |r| <= |lines|
    ensures forall e :: e in r <==> exists i :: 0 <= i < |lines| && IsErrorOf(lines[i], e)
    decreases |lines|
  {
    if |lines| == 0 then
      []
    else
      var rest := CollectErrors(lines[1..]);
      assert forall e, i :: 1 <= i < |lines| && IsErrorOf(lines[i], e) ==> IsErrorOf(lines[1..][i - 1], e);
      if lines[0].Invalid? then [lines[0].error] + rest else rest
  }

  /** The error list of two documents put one after the other. */
  lemma {:induction false} CollectErrorsAppend(a: seq<Line>, b: seq<Line>)
    ensures CollectErrors(a + b) == CollectErrors(a) + CollectErrors(b)
    decreases |a|
  {
    if |a| > 0 {
      assert (a + b)[0] == a[0];
      assert (a + b)[1..] == a[1..] + b;
      CollectErrorsAppend(a[1..], b);
    } else {
      assert a + b == b;
    }
  }

  /** The values of a version list, as strings. */
  function ValueStrings(versions: seq<(Whitespace, Version)>): (r: seq<string>)
    ensures |r| == |versions|
    ensures forall i :: 0 <= i < |r| ==> r[i] == versions[i].1.value
  {
    var values := Transformer.ValuesOf(versions);
    seq(|values|, i requires 0 <= i < |values| => values[i].value)
  }

  /**
   * `versions`: the version values of the first definition of the tool, or
   * nothing when no line defines it.
   */
  function VersionsOf(t: ToolVersions, toolName: string): (r: Option<seq<string>>)
    ensures r.None? <==> !Transformer.HasDefinition(t.ast.lines, Identifier(toolName))
    ensures r.Some? ==>
              exists i :: 0 <= i < |t.ast.lines| && IsFirstDefinition(t.ast.lines, i, Identifier(toolName))
                          && r.value == ValueStrings(t.ast.lines[i].versions.value)
  {
    FindVersions(t.ast.lines, toolName)
  }

  /** Line `i` is the first line that defines `name`. */
  predicate IsFirstDefinition(lines: seq<Line>, i: nat, name: Identifier)
    requires i < |lines|
  {
    IsDefinitionOf(lines[i], name) && forall j :: 0 <= j < i ==> !IsDefinitionOf(lines[j], name)
  }

  /** The `find_map` of `versions` over a list of lines. */
  function FindVersions(lines: seq<Line>, toolName: string): (r: Option<seq<string>>)
    ensures r.None? <==> !Transformer.HasDefinition(lines, Identifier(toolName))
    ensures r.Some? ==>
              exists i :: 0 <= i < |lines| && IsFirstDefinition(lines, i, Identifier(toolName))
                          && r.value == ValueStrings(lines[i].versions.value)
    decreases |lines|
  {
    if |lines| == 0 then
      None
    else if lines[0].ToolDefinition? && lines[0].name.value == toolName then
      assert IsFirstDefinition(lines, 0, Identifier(toolName));
      Some(ValueStrings(lines[0].versions.value))
    else
      var r := FindVersions(lines[1..], toolName);
      assert Transformer.HasDefinition(lines, Identifier(toolName))
             <==> Transformer.HasDefinition(lines[1..], Identifier(toolName)) by {
        var name := Identifier(toolName);
        if Transformer.HasDefinition(lines, name) {
          var i :| 0 <= i < |lines| && IsDefinitionOf(lines[i], name);
          assert lines[1..][i - 1] == lines[i];
        }
        if Transformer.HasDefinition(lines[1..], name) {
          var i :| 0 <= i < |lines[1..]| && IsDefinitionOf(lines[1..][i], name);
          assert lines[i + 1] == lines[1..][i];
        }
      }
      if r.Some? then
        var i :| 0 <= i < |lines[1..]| && IsFirstDefinition(lines[1..], i, Identifier(toolName))
                 && r.value == ValueStrings(lines[1..][i].versions.value);
        assert IsFirstDefinition(lines, i + 1, Identifier(toolName)) by {
          forall j | 1 <= j < i + 1
            ensures !IsDefinitionOf(lines[j], Identifier(toolName))
          {
            assert lines[j] == lines[1..][j - 1];
          }
        }
        r
      else
        r
  }

  /** `set_versions`: wrap the strings and run the transformer. */
  function SetVersions(t: ToolVersions, toolName: string, versions: seq<string>): ToolVersions {
    ToolVersions(Transformer.SetVersions(t.ast, Identifier(toolName), Wrap(versions)))
  }

  function Wrap(versions: seq<string>): (r: seq<Version>)
    ensures |r| == |versions|
    ensures forall i :: 0 <= i < |r| ==> r[i].value == versions[i]
  {
    seq(|versions|, i requires 0 <= i < |versions| => Version(versions[i]))
  }

  /** `write`: print the document. */
  function Write(t: ToolVersions): (r: string)
    ensures |r| > 0 && r[|r| - 1] == '\n'
  {
    Writer.Write(t.ast)
  }

  /** Looking a tool up in two lists of lines put one after the other. */
  lemma {:induction false} FindVersionsAppend(a: seq<Line>, b: seq<Line>, toolName: string)
    ensures FindVersions(a + b, toolName)
            == if FindVersions(a, toolName).Some? then FindVersions(a, toolName) else FindVersions(b, toolName)
    decreases |a|
  {
    if |a| > 0 {
      assert (a + b)[0] == a[0];
      assert (a + b)[1..] == a[1..] + b;
      FindVersionsAppend(a[1..], b, toolName);
    } else {
      assert a + b == b;
    }
  }

  /** Rewriting the definitions of one tool leaves the lookup of every other tool alone. */
  lemma {:induction false} RewriteKeepsOtherLookups(lines: seq<Line>, name: Identifier,
                                                    versions: seq<(Whitespace, Version)>, other: string)
    requires Identifier(other) != name
    ensures FindVersions(Transformer.RewriteLines(lines, name, versions), other) == FindVersions(lines, other)
    decreases |lines|
  {
    if |lines| > 0 {
      RewriteKeepsOtherLookups(lines[1..], name, versions, other);
      var head := Transformer.Rewrite(lines[0], name, versions);
      var rest := Transformer.RewriteLines(lines[1..], name, versions);
      if head.Some? {
        assert ([head.value] + rest)[0] == head.value && ([head.value] + rest)[1..] == rest;
      }
    }
  }

  /** Rewriting the definitions of one tool keeps every error, in order. */
  lemma {:induction false} RewriteKeepsErrors(lines: seq<Line>, name: Identifier, versions: seq<(Whitespace, Version)>)
    ensures CollectErrors(Transformer.RewriteLines(lines, name, versions)) == CollectErrors(lines)
    decreases |lines|
  {
    if |lines| > 0 {
      RewriteKeepsErrors(lines[1..], name, versions);
      var head := Transformer.Rewrite(lines[0], name, versions);
      var rest := Transformer.RewriteLines(lines[1..], name, versions);
      if head.Some? {
        assert ([head.value] + rest)[0] == head.value && ([head.value] + rest)[1..] == rest;
      }
    }
  }

  /**
   * After setting versions, looking the tool up gives exactly those
   * versions, or nothing when they were none.
   */
  lemma VersionsAfterSet(t: ToolVersions, toolName: string, versions: seq<string>)
    ensures VersionsOf(SetVersions(t, toolName, versions), toolName)
            == if |versions| == 0 then None else Some(versions)
  {
    var name := Identifier(toolName);
    var wrapped := Wrap(versions);
    var r := SetVersions(t, toolName, versions);
    if |versions| == 0 {
      Transformer.SetVersionsRemoves(t.ast, name);
      assert wrapped == [];
    } else if !Transformer.HasDefinition(t.ast.lines, name) {
      var def := Transformer.NewDefinition(name, wrapped);
      FindVersionsAppend(t.ast.lines, [def], toolName);
      assert [def][1..] == [];
      assert ValueStrings(def.versions.value) == versions;
    } else {
      ReplacedLookup(t, toolName, versions);
    }
  }

  lemma ReplacedLookup(t: ToolVersions, toolName: string, versions: seq<string>)
    requires Transformer.HasDefinition(t.ast.lines, Identifier(toolName)) && |versions| > 0
    ensures VersionsOf(SetVersions(t, toolName, versions), toolName) == Some(versions)
  {
    var padded := Transformer.Pad(Wrap(versions));
    RewriteLookup(t.ast.lines, toolName, padded);
    assert ValueStrings(padded) == versions;
  }

  /** Looking up the rewritten tool gives the new values. */
  lemma {:induction false} RewriteLookup(lines: seq<Line>, toolName: string, versions: seq<(Whitespace, Version)>)
    requires |versions| > 0
    ensures FindVersions(Transformer.RewriteLines(lines, Identifier(toolName), versions), toolName)
            == if Transformer.HasDefinition(lines, Identifier(toolName)) then Some(ValueStrings(versions)) else None
    decreases |lines|
  {
    var name := Identifier(toolName);
    if |lines| > 0 {
      RewriteLookup(lines[1..], toolName, versions);
      var r := Transformer.RewriteLines(lines, name, versions);
      RewriteLinesCons(lines, name, versions);
      FindVersionsCons(r, toolName);
      if IsDefinitionOf(lines[0], name) {
        assert ValueStrings(r[0].versions.value) == ValueStrings(versions);
      } else {
        HasDefinitionTail(lines, name);
      }
    }
  }

  /** With versions, the rewrite handles the first line and then the others. */
  lemma RewriteLinesCons(lines: seq<Line>, name: Identifier, versions: seq<(Whitespace, Version)>)
    requires |lines| > 0 && |versions| > 0
    ensures var r := Transformer.RewriteLines(lines, name, versions);
            && |r| > 0
            && Transformer.Rewrite(lines[0], name, versions) == Some(r[0])
            && r[1..] == Transformer.RewriteLines(lines[1..], name, versions)
  {
  }

  /** The lookup takes the first line when it defines the tool, and looks further otherwise. */
  lemma FindVersionsCons(lines: seq<Line>, toolName: string)
    requires |lines| > 0
    ensures FindVersions(lines, toolName)
            == if IsDefinitionOf(lines[0], Identifier(toolName)) then Some(ValueStrings(lines[0].versions.value))
               else FindVersions(lines[1..], toolName)
  {
  }

  /** A first line that does not define the tool does not decide whether it is defined. */
  lemma HasDefinitionTail(lines: seq<Line>, name: Identifier)
    requires |lines| > 0 && !IsDefinitionOf(lines[0], name)
    ensures Transformer.HasDefinition(lines, name) <==> Transformer.HasDefinition(lines[1..], name)
  {
    if Transformer.HasDefinition(lines, name) {
      var i :| 0 <= i < |lines| && IsDefinitionOf(lines[i], name);
      assert lines[1..][i - 1] == lines[i];
    }
    if Transformer.HasDefinition(lines[1..], name) {
      var i :| 0 <= i < |lines[1..]| && IsDefinitionOf(lines[1..][i], name);
      assert lines[i + 1] == lines[1..][i];
    }
  }

  /** Setting the versions of one tool does not change the lookup of another. */
  lemma OtherVersionsUnchanged(t: ToolVersions, toolName: string, versions: seq<string>, other: string)
    requires other != toolName
    ensures VersionsOf(SetVersions(t, toolName, versions), other) == VersionsOf(t, other)
  {
    var name := Identifier(toolName);
    var wrapped := Wrap(versions);
    if !Transformer.HasDefinition(t.ast.lines, name) {
      if |versions| > 0 {
        var def := Transformer.NewDefinition(name, wrapped);
        FindVersionsAppend(t.ast.lines, [def], other);
        assert [def][1..] == [];
      } else {
        assert wrapped == [];
      }
    } else {
      RewriteKeepsOtherLookups(t.ast.lines, name, Transformer.Pad(wrapped), other);
    }
  }

  /** Setting versions never adds, drops or reorders a syntax error. */
  lemma ErrorsUnchangedBySet(t: ToolVersions, toolName: string, versions: seq<string>)
    ensures Errors(SetVersions(t, toolName, versions)) == Errors(t)
  {
    var name := Identifier(toolName);
    var wrapped := Wrap(versions);
    if !Transformer.HasDefinition(t.ast.lines, name) {
      if |versions| > 0 {
        var def := Transformer.NewDefinition(name, wrapped);
        CollectErrorsAppend(t.ast.lines, [def]);
        assert [def][1..] == [];
      } else {
        assert wrapped == [];
        assert t.ast.lines + [] == t.ast.lines;
      }
    } else {
      RewriteKeepsErrors(t.ast.lines, name, Transformer.Pad(wrapped));
    }
  }
  /**
   * `set_versions` takes its strings unchecked: an empty value writes a
   * definition with nothing after its padding, which reads back as an error.
   */
  lemma EmptyValueDoesNotReadBack()
    ensures Write(SetVersions(New(), "node", [""])) == "node \n"
    ensures From("node \n").ast.lines == [Invalid(UnexpectedEOL(Parser.ExpectedVersion), Unparsed("node "))]
  {
    EmptyValueWritten();
    EmptyValueRead();
  }

  lemma EmptyValueWritten()
    ensures Write(SetVersions(New(), "node", [""])) == "node \n"
  {
    var def := ToolDefinition(Identifier("node"), Versions([(Whitespace(" "), Version(""))]), None, None);
    assert Wrap([""]) == [Version("")];
    assert Transformer.Pad([Version("")]) == [(Whitespace(" "), Version(""))];
    assert SetVersions(New(), "node", [""]).ast.lines == [def];
    assert Writer.RenderVersions([(Whitespace(" "), Version(""))]) == " ";
    assert Writer.Render(def) == "node ";
    assert Writer.RenderLines([def]) == ["node "];
  }

  lemma EmptyValueRead()
    ensures From("node \n").ast.lines == [Invalid(UnexpectedEOL(Parser.ExpectedVersion), Unparsed("node "))]
  {
    NodeLines();
    NodeLine();
  }

  lemma NodeLines()
    ensures Lines("node \n") == ["node "]
  {
    assert LineBreakAt("node \n") == 5;
    assert "node \n"[..5] == "node ";
    assert "node \n"[6..] == [];
  }

  lemma NodeLine()
    ensures Parser.ParseLine("node ", {}).line == Invalid(UnexpectedEOL(Parser.ExpectedVersion), Unparsed("node "))
  {
    NodeScan();
    assert Scanner.Consume(Scanner.WhitespaceChars, ' ', []) == Scanner.Scan(" ", None, []);
  }

  lemma NodeScan()
    ensures Scanner.Consume(Scanner.IdentifierChars, 'n', "ode ") == Scanner.Scan("node", Some(' '), [])
  {
    assert Scanner.Consume(Scanner.IdentifierChars, 'e', " ") == Scanner.Scan("e", Some(' '), []);
    assert "de "[1..] == "e ";
    assert Scanner.Consume(Scanner.IdentifierChars, 'd', "e ") == Scanner.Scan("de", Some(' '), []);
    assert "ode "[1..] == "de ";
  }
  /**
   * `set_versions` keeps every other line as it is, invalid lines included:
   * removing a tool whose second definition was a duplicate leaves that
   * line, which now reads back as the tool's definition.
   */
  lemma RemovalRevivesDuplicate()
    ensures var t := ToolVersions(AST([GoOne(), GoTwice()]));
            Write(SetVersions(t, "go", [])) == "go 2\n"
    ensures From("go 2\n").ast.lines
            == [ToolDefinition(Identifier("go"), Versions([(Whitespace(" "), Version("2"))]), None, None)]
    ensures Parser.ParseLine("go 2", {Identifier("go")}).line == GoTwice()
  {
    RemovalWritten();
    GoLines();
    GoLine();
    GoDuplicate();
  }

  /** The definition `go 1`. */
  function GoOne(): Line {
    ToolDefinition(Identifier("go"), Versions([(Whitespace(" "), Version("1"))]), None, None)
  }

  /** The line `go 2` as the parser reports it after `go 1`. */
  function GoTwice(): Line {
    Invalid(DuplicateIdentifier(Identifier("go")), Unparsed("go 2"))
  }

  lemma RemovalWritten()
    ensures Write(SetVersions(ToolVersions(AST([GoOne(), GoTwice()])), "go", [])) == "go 2\n"
  {
    var lines := [GoOne(), GoTwice()];
    assert Wrap([]) == [];
    assert IsDefinitionOf(lines[0], Identifier("go"));
    assert Transformer.HasDefinition(lines, Identifier("go"));
    Transformer.SetVersionsRemoves(AST(lines), Identifier("go"));
    var r := Transformer.RewriteLines(lines, Identifier("go"), []);
    assert r == [GoTwice()] by {
      assert lines[1..] == [GoTwice()];
      assert lines[1..][1..] == [];
    }
    assert Writer.RenderLines([GoTwice()]) == ["go 2"];
  }

  lemma GoLines()
    ensures Lines("go 2\n") == ["go 2"]
  {
    assert LineBreakAt("go 2\n") == 4;
    assert "go 2\n"[..4] == "go 2";
    assert "go 2\n"[5..] == [];
  }

  lemma GoName()
    ensures Scanner.Consume(Scanner.IdentifierChars, 'g', "o 2") == Scanner.Scan("go", Some(' '), "2")
  {
    assert "o 2"[1..] == " 2";
    assert Scanner.Consume(Scanner.IdentifierChars, 'o', " 2") == Scanner.Scan("o", Some(' '), "2");
  }

  lemma GoDuplicate()
    ensures Parser.ParseLine("go 2", {Identifier("go")}).line == GoTwice()
  {
    GoName();
  }

  lemma GoLine()
    ensures Parser.ParseLine("go 2", {}).line
            == ToolDefinition(Identifier("go"), Versions([(Whitespace(" "), Version("2"))]), None, None)
  {
    GoName();
    assert Scanner.Consume(Scanner.WhitespaceChars, ' ', "2") == Scanner.Scan(" ", Some('2'), []);
    assert Scanner.Consume(Scanner.VersionChars, '2', []) == Scanner.Scan("2", None, []);
  }
}
