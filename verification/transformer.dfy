/**
 * The editing operation of src/transformer.rs: set the versions of one tool,
 * adding a definition for a tool that has none, removing the definitions of a
 * tool given no versions, and otherwise rewriting the versions in place while
 * keeping the layout (paddings, trailing whitespace, comment) of the line.
 */
module Transformer {
  import opened Wrappers
  import opened Scanner
  import opened Ast

  /** The padding put before a version that has no old padding to reuse. */
  const DefaultPadding := Whitespace(" ")

  /** Every version with the default single-space padding before it. */
  function Pad(versions: seq<Version>): (r: seq<(Whitespace, Version)>)
    ensures |r| == |versions|
    ensures forall i :: 0 <= i < |r| ==> r[i].0 == DefaultPadding && r[i].1 == versions[i]
  {
    seq(|versions|, i requires 0 <= i < |versions| => (DefaultPadding, versions[i]))
  }

  /** The values of a version list, without their paddings. */
  function ValuesOf(versions: seq<(Whitespace, Version)>): (r: seq<Version>)
    ensures |r| == |versions|
    ensures forall i :: 0 <= i < |r| ==> r[i] == versions[i].1
  {
    seq(|versions|, i requires 0 <= i < |versions| => versions[i].1)
  }

  /**
   * The new versions of a rewritten definition: the `i`-th new value keeps
   * the `i`-th old padding when the old line had that many versions, and
   * gets the default padding otherwise. The paddings of `versions` are
   * ignored.
   */
  function Repad(previous: seq<(Whitespace, Version)>, versions: seq<(Whitespace, Version)>): (r: seq<(Whitespace, Version)>)
    ensures ValuesOf(r) == ValuesOf(versions)
    ensures PaddingsKept(previous, r)
  {
    seq(|versions|, i requires 0 <= i < |versions| =>
      (if i < |previous| then previous[i].0 else DefaultPadding, versions[i].1))
  }

  /** `any`: some line of the document defines `name`. */
  predicate HasDefinition(lines: seq<Line>, name: Identifier) {
    exists i :: 0 <= i < |lines| && IsDefinitionOf(lines[i], name)
  }

  /** The definition appended for a tool the document does not mention yet. */
  function NewDefinition(name: Identifier, versions: seq<Version>): Line {
    ToolDefinition(name, Versions(Pad(versions)), None, None)
  }

  /**
   * The closure given to `filter_map`: drop a definition of `name` when
   * there are no versions, rewrite it otherwise, and keep every other line.
   */
  function Rewrite(line: Line, name: Identifier, versions: seq<(Whitespace, Version)>): (r: Option<Line>)
    ensures r.None? <==> IsDefinitionOf(line, name) && |versions| == 0
    ensures r.Some? ==> RewrittenAs(line, r.value, name, ValuesOf(versions))
  {
    if line.ToolDefinition? && line.name == name then
      if |versions| == 0 then None
      else Some(ToolDefinition(line.name, Versions(Repad(line.versions.value, versions)), line.whitespace, line.comment))
    else
      Some(line)
  }

  /** `filter_map` of `Rewrite` over the lines, in order. */
  function RewriteLines(lines: seq<Line>, name: Identifier, versions: seq<(Whitespace, Version)>): (r: seq<Line>)
    ensures |r| <= |lines|
    ensures |versions| > 0 ==>
              |r| == |lines| && forall i :: 0 <= i < |r| ==> Rewrite(lines[i], name, versions) == Some(r[i])
    ensures |versions| == 0 ==>
              forall line :: line in r <==> line in lines && !IsDefinitionOf(line, name)
    ensures forall line :: line in r && line.ToolDefinition? ==> HasDefinition(lines, line.name)
    decreases |lines|
  {
    if |lines| == 0 then
      []
    else
      var rest := RewriteLines(lines[1..], name, versions);
      var head := Rewrite(lines[0], name, versions);
      assert forall line :: line in lines <==> line == lines[0] || line in lines[1..];
      if head.Some? then [head.value] + rest else rest
  }

  /** `set_versions`, branch for branch. */
  function SetVersions(ast: AST, toolName: Identifier, versions: seq<Version>): (r: AST)
    ensures !HasDefinition(ast.lines, toolName) ==>
              r.lines == ast.lines + (if |versions| == 0 then [] else [NewDefinition(toolName, versions)])
  {
    var padded := Pad(versions);
    if |ast.lines| == 0 then
      if |padded| == 0 then AST([])
      else AST([NewDefinition(toolName, versions)])
    else if !HasDefinition(ast.lines, toolName) then
      if |padded| == 0 then AST(ast.lines)
      else AST(ast.lines + [NewDefinition(toolName, versions)])
    else
      AST(RewriteLines(ast.lines, toolName, padded))
  }

  /**
   * Given no versions, every definition of the tool is removed and every
   * other line is kept.
   */
  lemma SetVersionsRemoves(ast: AST, toolName: Identifier)
    ensures var r := SetVersions(ast, toolName, []);
            && !HasDefinition(r.lines, toolName)
            && forall line :: line in r.lines <==> line in ast.lines && !IsDefinitionOf(line, toolName)
  {
    var r := SetVersions(ast, toolName, []);
    if !HasDefinition(ast.lines, toolName) {
      assert r.lines == ast.lines;
    }
    forall i | 0 <= i < |r.lines|
      ensures !IsDefinitionOf(r.lines[i], toolName)
    {
      assert r.lines[i] in r.lines;
    }
  }

  /**
   * Given versions for a tool that is defined, the document keeps its
   * length, every definition of the tool gets exactly the new values with
   * the old paddings where there are old versions to take them from, and
   * keeps its trailing whitespace and comment; every other line is kept.
   */
  lemma SetVersionsReplaces(ast: AST, toolName: Identifier, versions: seq<Version>)
    requires HasDefinition(ast.lines, toolName)
    requires |versions| > 0
    ensures var r := SetVersions(ast, toolName, versions);
            && |r.lines| == |ast.lines|
            && forall i :: 0 <= i < |r.lines| ==> RewrittenAs(ast.lines[i], r.lines[i], toolName, versions)
  {
    var r := SetVersions(ast, toolName, versions);
    forall i | 0 <= i < |r.lines|
      ensures RewrittenAs(ast.lines[i], r.lines[i], toolName, versions)
    {
      assert Rewrite(ast.lines[i], toolName, Pad(versions)) == Some(r.lines[i]);
    }
  }

  /**
   * `after` is what setting `versions` for `name` makes of `before`: a
   * definition of `name` gets exactly the new values, the old paddings
   * where there are old versions to take them from, and its old trailing
   * whitespace and comment; any other line stays as it is.
   */
  predicate RewrittenAs(before: Line, after: Line, name: Identifier, versions: seq<Version>) {
    if IsDefinitionOf(before, name) then
      && after.ToolDefinition?
      && after.name == name
      && ValuesOf(after.versions.value) == versions
      && after.whitespace == before.whitespace
      && after.comment == before.comment
      && PaddingsKept(before.versions.value, after.versions.value)
    else
      after == before
  }

  /** Each new version keeps the padding of the old version at its place, if any. */
  predicate PaddingsKept(previous: seq<(Whitespace, Version)>, versions: seq<(Whitespace, Version)>) {
    forall k :: 0 <= k < |versions| ==>
      versions[k].0 == if k < |previous| then previous[k].0 else DefaultPadding
  }

  /** Setting the same versions twice is the same as setting them once. */
  lemma SetVersionsIdempotent(ast: AST, toolName: Identifier, versions: seq<Version>)
    ensures SetVersions(SetVersions(ast, toolName, versions), toolName, versions)
            == SetVersions(ast, toolName, versions)
  {
    var once := SetVersions(ast, toolName, versions);
    if |versions| == 0 {
      SetVersionsRemoves(ast, toolName);
      assert SetVersions(once, toolName, versions).lines == once.lines;
    } else if !HasDefinition(ast.lines, toolName) {
      AppendedThenReplaced(ast, toolName, versions);
    } else {
      ReplacedTwice(ast, toolName, versions);
    }
  }

  lemma AppendedThenReplaced(ast: AST, toolName: Identifier, versions: seq<Version>)
    requires !HasDefinition(ast.lines, toolName) && |versions| > 0
    ensures SetVersions(SetVersions(ast, toolName, versions), toolName, versions)
            == SetVersions(ast, toolName, versions)
  {
    var once := SetVersions(ast, toolName, versions);
    var twice := SetVersions(once, toolName, versions);
    assert IsDefinitionOf(once.lines[|once.lines| - 1], toolName);
    SetVersionsReplaces(once, toolName, versions);
    assert Repad(Pad(versions), Pad(versions)) == Pad(versions);
    assert twice.lines == once.lines;
  }

  lemma ReplacedTwice(ast: AST, toolName: Identifier, versions: seq<Version>)
    requires HasDefinition(ast.lines, toolName) && |versions| > 0
    ensures SetVersions(SetVersions(ast, toolName, versions), toolName, versions)
            == SetVersions(ast, toolName, versions)
  {
    var once := SetVersions(ast, toolName, versions);
    RewriteLinesDefines(ast.lines, toolName, Pad(versions));
    RewriteLinesTwice(ast.lines, toolName, Pad(versions));
    assert once.lines == RewriteLines(ast.lines, toolName, Pad(versions));
  }

  /** Rewriting with at least one version keeps the tool defined. */
  lemma RewriteLinesDefines(lines: seq<Line>, name: Identifier, versions: seq<(Whitespace, Version)>)
    requires |versions| > 0 && HasDefinition(lines, name)
    ensures HasDefinition(RewriteLines(lines, name, versions), name)
  {
    var r := RewriteLines(lines, name, versions);
    var i :| 0 <= i < |lines| && IsDefinitionOf(lines[i], name);
    assert Rewrite(lines[i], name, versions) == Some(r[i]);
    assert IsDefinitionOf(r[i], name);
  }

  /** A second rewrite with the same versions changes nothing. */
  lemma {:induction false} RewriteLinesTwice(lines: seq<Line>, name: Identifier, versions: seq<(Whitespace, Version)>)
    ensures RewriteLines(RewriteLines(lines, name, versions), name, versions) == RewriteLines(lines, name, versions)
    decreases |lines|
  {
    if |lines| > 0 {
      var head := Rewrite(lines[0], name, versions);
      var rest := RewriteLines(lines[1..], name, versions);
      RewriteLinesTwice(lines[1..], name, versions);
      if head.Some? {
        var r := [head.value] + rest;
        assert r[0] == head.value && r[1..] == rest;
        if IsDefinitionOf(lines[0], name) {
          assert Repad(head.value.versions.value, versions) == head.value.versions.value;
        }
      }
    }
  }

  /** `filter_map` keeps the order of the lines: it distributes over concatenation. */
  lemma {:induction false} RewriteLinesAppend(a: seq<Line>, b: seq<Line>, name: Identifier,
                                              versions: seq<(Whitespace, Version)>)
    ensures RewriteLines(a + b, name, versions) == RewriteLines(a, name, versions) + RewriteLines(b, name, versions)
    decreases |a|
  {
    if |a| > 0 {
      assert (a + b)[0] == a[0];
      assert (a + b)[1..] == a[1..] + b;
      RewriteLinesAppend(a[1..], b, name, versions);
    } else {
      assert a + b == b;
    }
  }

  /** Rewriting the lines of a document with unique definitions keeps them unique. */
  lemma {:induction false} RewriteLinesUnique(lines: seq<Line>, name: Identifier, versions: seq<(Whitespace, Version)>)
    requires UniqueDefinitions(lines)
    ensures UniqueDefinitions(RewriteLines(lines, name, versions))
    decreases |lines|
  {
    if |lines| > 0 {
      var tail := lines[1..];
      var rest := RewriteLines(tail, name, versions);
      var head := Rewrite(lines[0], name, versions);
      assert UniqueDefinitions(tail) by {
        forall i, j | 0 <= i < j < |tail| && tail[i].ToolDefinition? && tail[j].ToolDefinition?
          ensures tail[i].name != tail[j].name
        {
          assert tail[i] == lines[i + 1] && tail[j] == lines[j + 1];
        }
      }
      RewriteLinesUnique(tail, name, versions);
      if head.Some? && head.value.ToolDefinition? {
        var r := [head.value] + rest;
        forall j | 0 < j < |r| && r[j].ToolDefinition?
          ensures r[j].name != head.value.name
        {
          assert r[j] == rest[j - 1] && rest[j - 1] in rest;
          var k :| 0 <= k < |tail| && IsDefinitionOf(tail[k], r[j].name);
          assert tail[k] == lines[k + 1];
        }
      }
    }
  }

  /**
   * Setting well-formed versions for a well-formed name keeps every valid
   * line well formed and the definitions unique. It does not make the
   * document read back as itself: invalid lines are kept as they are, and
   * removing the last definition can leave no lines at all.
   */
  lemma SetVersionsKeepsShape(ast: AST, toolName: Identifier, versions: seq<Version>)
    requires WellFormedName(toolName)
    requires forall k :: 0 <= k < |versions| ==> WellFormedValue(versions[k])
    requires forall i :: 0 <= i < |ast.lines| && !ast.lines[i].Invalid? ==> WellFormedLine(ast.lines[i])
    requires UniqueDefinitions(ast.lines)
    ensures var r := SetVersions(ast, toolName, versions);
            && (forall i :: 0 <= i < |r.lines| && !r.lines[i].Invalid? ==> WellFormedLine(r.lines[i]))
            && UniqueDefinitions(r.lines)
  {
    var r := SetVersions(ast, toolName, versions);
    if !HasDefinition(ast.lines, toolName) {
      if |versions| > 0 {
        NewDefinitionWellFormed(toolName, versions);
      }
    } else if |versions| == 0 {
      RewriteLinesUnique(ast.lines, toolName, Pad(versions));
      forall i | 0 <= i < |r.lines| && !r.lines[i].Invalid?
        ensures WellFormedLine(r.lines[i])
      {
        assert r.lines[i] in r.lines;
      }
    } else {
      RewriteLinesUnique(ast.lines, toolName, Pad(versions));
      SetVersionsReplaces(ast, toolName, versions);
      forall i | 0 <= i < |r.lines| && !r.lines[i].Invalid?
        ensures WellFormedLine(r.lines[i])
      {
        assert RewrittenAs(ast.lines[i], r.lines[i], toolName, versions);
        if IsDefinitionOf(ast.lines[i], toolName) {
          RepaddedWellFormed(ast.lines[i], r.lines[i], versions);
        }
      }
    }
  }

  lemma NewDefinitionWellFormed(name: Identifier, versions: seq<Version>)
    requires WellFormedName(name) && |versions| > 0
    requires forall k :: 0 <= k < |versions| ==> WellFormedValue(versions[k])
    ensures WellFormedLine(NewDefinition(name, versions))
  {
    assert WellFormedPadding(DefaultPadding) by {
      assert IsWhitespace(' ');
    }
  }

  lemma RepaddedWellFormed(previous: Line, line: Line, versions: seq<Version>)
    requires WellFormedLine(previous) && previous.ToolDefinition?
    requires forall k :: 0 <= k < |versions| ==> WellFormedValue(versions[k])
    requires |versions| > 0
    requires line.ToolDefinition? && line.name == previous.name
    requires ValuesOf(line.versions.value) == versions
    requires line.whitespace == previous.whitespace
    requires PaddingsKept(previous.versions.value, line.versions.value)
    ensures WellFormedLine(line)
  {
    var vs := line.versions.value;
    assert WellFormedPadding(DefaultPadding) by {
      assert IsWhitespace(' ');
    }
    forall k | 0 <= k < |vs|
      ensures WellFormedPadding(vs[k].0) && WellFormedValue(vs[k].1)
    {
      assert ValuesOf(vs)[k] == vs[k].1;
    }
  }

  /** No definition loses its last version: removal drops the line instead. */
  lemma SetVersionsKeepsVersionsNonEmpty(ast: AST, toolName: Identifier, versions: seq<Version>)
    requires forall i :: 0 <= i < |ast.lines| && ast.lines[i].ToolDefinition? ==> |ast.lines[i].versions.value| > 0
    ensures var r := SetVersions(ast, toolName, versions);
            forall i :: 0 <= i < |r.lines| && r.lines[i].ToolDefinition? ==> |r.lines[i].versions.value| > 0
  {
    var r := SetVersions(ast, toolName, versions);
    if HasDefinition(ast.lines, toolName) {
      if |versions| == 0 {
        SetVersionsRemoves(ast, toolName);
        forall i | 0 <= i < |r.lines| && r.lines[i].ToolDefinition?
          ensures |r.lines[i].versions.value| > 0
        {
          assert r.lines[i] in ast.lines;
        }
      } else {
        SetVersionsReplaces(ast, toolName, versions);
        forall i | 0 <= i < |r.lines| && r.lines[i].ToolDefinition?
          ensures |r.lines[i].versions.value| > 0
        {
          assert RewrittenAs(ast.lines[i], r.lines[i], toolName, versions);
          if IsDefinitionOf(ast.lines[i], toolName) {
            assert |ValuesOf(r.lines[i].versions.value)| == |versions|;
          }
        }
      }
    }
  }
}
