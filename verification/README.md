# tool-versions in Dafny

A model of the Rust library `tool-versions`. The library reads, edits and writes
`.tool-versions` files. Each line of such a file names a tool, then lists versions
separated by whitespace, optionally followed by a `#` comment. The library is a
lossless pipeline:

- **parse**: text to a document of lines. A line that breaks the grammar becomes an
  `Invalid` line that keeps its raw text, and parsing goes on.
- **edit**: `set_versions` adds, replaces or removes the versions of one tool.
- **write**: the document back to text.

The model follows the library's layout:

| file | module | models |
|---|---|---|
| `wrappers.dfy` | `Wrappers` | `Option` |
| `scanner.dfy` | `Scanner` | the three `is_consumable` character classes and the maximal-munch `consume` |
| `text.dfy` | `Text` | `str::lines` and `join("\n")` |
| `ast.dfy` | `Ast` | the document types of `src/ast.rs`, and the well-formedness the parser establishes |
| `parser.dfy` | `Parser` | `parse`, `parse_line`, `parse_definition` and its version loop |
| `parser_facts.dfy` | `ParserFacts` | `parse_line` stated over the line's characters: the error for every malformed shape, name registration, duplicates across a document |
| `writer.dfy` | `Writer` | `write` and `Line::to_string` |
| `roundtrip.dfy` | `RoundTrip` | parse-then-print and print-then-parse theorems |
| `transformer.dfy` | `Transformer` | `set_versions` and its four cases |
| `lib.dfy` | `ToolVersionsApi` | the `ToolVersions` facade: `new`, `from`, `errors`, `versions`, `set_versions`, `write` |

Everything is a pure function over immutable datatypes:

- The `HashSet` of names seen so far is a `set<Identifier>`, threaded through the
  fold over the lines.
- The facade's `&mut self` methods return a new value.
- Rust's `char::is_whitespace` is the Unicode White_Space property, written out as
  its 25 code points.

The main results:

- **Text round trip.** For every input without `'\r'`, printing the parse of a text
  gives the text back, with a final line feed added when the text lacks one
  (`RoundTrip.WriteOfParse`). This holds line by line for every line, invalid lines
  included (`RoundTrip.ParseLineLossless`).
- **Document round trip.** Parsing the printed form of a document gives the document
  back, provided that:
  - every line is valid;
  - no tool is defined twice;
  - no printed line holds a line feed or a carriage return;
  - the document has at least one line.

  The third condition is not implied by validity: `'\n'` is whitespace, so a
  valid padding, trailing whitespace or comment may hold one.

  This is `RoundTrip.ParseOfWrite`.
- **Parser facts.** The parser's errors are characterised exactly, as is the set of
  names it registers. A name is registered as soon as whitespace follows it, even when
  the line is then invalid. So a later line declaring the same name is a duplicate
  (`ParserFacts.DuplicateIff`).
- **Editing.** Looking a tool up after setting its versions gives exactly those
  versions, or nothing when they were none. Setting is idempotent. It leaves other
  tools and all syntax errors alone. It keeps the lines of a document well formed
  when the tool name is a well-formed name and every value is a non-empty run of
  version characters (`Transformer.SetVersionsKeepsShape`). `set_versions` checks
  neither: an empty value writes `node \n`, which reads back as the error
  `UnexpectedEOL("Version")` (`ToolVersionsApi.EmptyValueDoesNotReadBack`).
  Removing a tool keeps its duplicate definitions, which are invalid lines. After
  `go 1` and a duplicate `go 2`, removing `go` writes `go 2\n`, and that text reads
  back as `go`'s definition (`ToolVersionsApi.RemovalRevivesDuplicate`).

Where the sources disagree with each other, the model follows the code:

- **Error label after a bare name.** `src/parser.rs` reports the label `"Whitespace"`
  for a name that is not followed by whitespace, as in `rust# comment` or `rust`.
  `tests/transformer_test.rs` expects `"Version"` for these lines, but it is written
  against a different API (`Line::Definition`, `Tool`, `StringValue`). The model uses
  `"Whitespace"`.
- **Writer field names.** `src/writer.rs` reads `ast.0`, `version.left_padding` and
  `version.value`. `src/ast.rs` declares `AST { lines }` and version pairs
  `(Whitespace, Version)`. The model reads the writer against the shapes of
  `src/ast.rs`.
- **Empty document.** An empty document writes as `"\n"`, one line feed, and not as
  the empty string. That text parses back to one empty line
  (`RoundTrip.EmptyDocumentRoundTrip`).
- **Every match is edited.** `set_versions` rewrites or removes every definition of
  the tool, not only the first. A parsed document has at most one definition per tool,
  so this shows only on documents built by hand.

## Model

| member | source | states |
|---|---|---|
| Scanner.IsIdentifierChar | src/parser.rs:180-184 | the characters of a tool name: ASCII digits and letters, `.`, `-` and `_`; `Scanner.ClassFacts` states that none is whitespace and each may be part of a version |
| Scanner.IsVersionChar | src/parser.rs:186-190 | every character that is neither whitespace nor `#` |
| Scanner.IsWhitespace | src/parser.rs:192-196 | Rust's `char::is_whitespace`, the 25 code points of the Unicode White_Space property |
| Scanner.Consume | src/parser.rs:198-209 | the token starts with the first character; the token, the character that stopped the scan and the rest put back together give exactly the input; the stopping character is outside the class; at end of input nothing is left |
| Scanner.ConsumeClass | src/parser.rs:198-209 | every character the scanner appends after the first is in the scanned class |
| Scanner.ConsumeToken | src/parser.rs:176-209 | when the first character is in the class, the whole token is |
| Scanner.ConsumeRun | src/parser.rs:198-209 | scanning a run of the class followed by a character outside it returns exactly that run, that character and what follows; at end of input it returns the whole run |
| Text.Lines | src/parser.rs:15-16 | splitting gives no lines exactly for the empty text, and no line holds a line feed |
| Text.Join | src/writer.rs:11 | the parts with the separator between consecutive ones; `Text.JoinOfLines` and `Text.LinesOfJoin` state that it inverts `Text.Lines` |
| Text.LineBreakAt | src/parser.rs:15-16 | the position of the first line feed, or the length when there is none; no line feed comes before it |
| Text.JoinOfLines | src/writer.rs:8-16 | for text without carriage returns, joining its lines with line feeds and adding one final line feed gives the text back, with a line feed added when the text lacked a final one |
| Text.LinesOfJoin | src/writer.rs:8-16 | splitting the line-feed join of a non-empty list of break-free lines, plus a final line feed, gives the list back |
| Parser.Parse | src/parser.rs:11-20 | one line per text line; an invalid line keeps its text line verbatim; every valid line is well formed; no two definitions share a name |
| Parser.ParseLines | src/parser.rs:11-20 | the fold over the lines: one result per line, invalid lines keep their text, valid lines are well formed, names are unique and none was already registered |
| Parser.ParseLine | src/parser.rs:22-66 | an invalid line keeps the whole line; a valid line is well formed; a definition's name was not registered before and is the only name added; names are never unregistered |
| Parser.ParseDefinition | src/parser.rs:68-99 | never an empty line; an invalid line keeps the whole line; a definition has a new name, which is registered |
| Parser.ParseVersions | src/parser.rs:100-172 | errors only while no version has been read, and only `UnexpectedEOL("Version")` or `UnexpectedToken('#', "Version")`, keeping the whole line; a definition keeps the name, and is well formed when what was read so far is |
| ParserFacts.ScanStopsAt | src/parser.rs:198-209 | the scanner's token is exactly the leading run of the class; it stops at the first character outside the class, and reports it with the rest of the line |
| ParserFacts.ScanRun | src/parser.rs:198-209 | given where the leading run ends, the scanner's result is the run, then the next character and the rest (or nothing at the end of the line) |
| ParserFacts.RunEnd | src/parser.rs:198-209 | every text that starts with a character of the class has a leading run |
| ParserFacts.UnindentedLine | src/parser.rs:50-65 | an empty line is `Empty`; `#` starts a comment line; any other character that is neither a name character nor whitespace gives `UnexpectedToken(c, "Identifier,Whitespace,Comment")`; no name is registered |
| ParserFacts.IndentedLine | src/parser.rs:29-49 | a line of whitespace is blank; whitespace then `#` is an indented comment; whitespace then any other character gives `UnexpectedToken(c, "EOL,Comment")`; no name is registered |
| ParserFacts.NamedLine | src/parser.rs:68-99 | a name at the end of the line gives `UnexpectedEOL("Whitespace")`; a name followed by anything but whitespace (`#` included) gives `UnexpectedToken(c, "Whitespace")`; a registered name gives `DuplicateIdentifier`; otherwise the name is registered before any version is read |
| ParserFacts.AfterRegisteredName | src/parser.rs:100-139 | after the name and its whitespace, the end of the line gives `UnexpectedEOL("Version")`, `#` gives `UnexpectedToken('#', "Version")`, and any other character makes the line a definition of that name |
| ParserFacts.DeclarationStart | src/parser.rs:22-28 | a line that declares a name starts with a name character |
| ParserFacts.Registers | src/parser.rs:90-98 | a line registers exactly the name it declares, whether or not the rest of the line is valid |
| ParserFacts.DuplicateOfLine | src/parser.rs:90-96 | a line is a duplicate of a name exactly when it declares that name and the name was registered before |
| ParserFacts.SeenAfterNames | src/parser.rs:11-20 | the names registered after some lines are the starting names plus the names those lines declare |
| ParserFacts.ParseLinesAt | src/parser.rs:11-20 | the `i`-th parsed line is `parse_line` of the `i`-th text line, given the names registered by the lines before it |
| ParserFacts.DuplicateIff | src/parser.rs:90-98 | line `i` of a document is a duplicate of a name exactly when it declares the name and some earlier line, valid or not, declares it too |
| Writer.Write | src/writer.rs:8-16 | the output always ends with a line feed, even for an empty document |
| Writer.Render | src/writer.rs:18-73 | printing one line; it has no contract of its own: `RoundTrip.ParseLineLossless` states that it gives back every line `parse_line` reads, and `RoundTrip.ParseOfRenderedLine` that `parse_line` reads back every printed well-formed line |
| Writer.RenderVersions | src/writer.rs:29-40 | each padding then its value, in order; its contract is `Writer.RenderVersionsAppend` |
| Writer.RenderVersionsAppend | src/writer.rs:29-40 | printing a list of versions is printing its parts one after the other |
| RoundTrip.ParseVersionsLossless | src/parser.rs:100-172 | the version loop, printed, gives back the line it was reading |
| RoundTrip.VersionStepLossless | src/parser.rs:140-167 | one round of the loop that reads a version keeps the printed text equal to the line |
| RoundTrip.PaddingEndLossless | src/parser.rs:104-139 | a round of the loop that ends on trailing whitespace or a comment keeps the printed text equal to the line |
| RoundTrip.ParseLineLossless | src/writer.rs:18-73 | printing what `parse_line` makes of any line, valid or not, gives back the line |
| RoundTrip.ParseLinesLossless | src/parser.rs:11-20 | printing the parsed lines gives back every text line |
| RoundTrip.WriteOfParse | src/writer.rs:8-16 | for text without carriage returns, printing the parse gives back the text, with a final line feed added when missing |
| RoundTrip.EmptyDocumentRoundTrip | src/writer.rs:8-16 | the empty document writes as one line feed, which parses to one empty line |
| RoundTrip.ParseVersionsOfRendered | src/parser.rs:100-172 | the loop reads back the remaining versions, the trailing whitespace and the comment of a printed well-formed definition |
| RoundTrip.VersionOfRendered | src/parser.rs:140-167 | the loop reads back the next printed version with its padding, then continues or stops as the printed text says |
| RoundTrip.ReadOneVersion | src/parser.rs:140-167 | a whitespace run, a value and a character outside the value class are read as one version, and the loop then stops at the end of the line, stops at `#`, or goes on |
| RoundTrip.TrailingOfRendered | src/parser.rs:104-139 | after the last version the loop reads back the trailing whitespace and the comment |
| RoundTrip.DefinitionShape | src/parser.rs:68-99 | a new name followed by whitespace is registered, and the rest of the line goes to the version loop |
| RoundTrip.ParseOfRenderedLine | src/writer.rs:18-73 | reading back a printed well-formed line gives the line, and a definition registers its name |
| RoundTrip.ParseOfRenderedLines | src/parser.rs:11-20 | reading back the printed lines of well-formed lines with unique names gives the lines |
| RoundTrip.ParseOfWrite | src/writer.rs:8-16 | parsing a written document gives it back when it has lines, they are all valid, names are unique and no printed line holds a line feed or a carriage return |
| Transformer.Pad | src/transformer.rs:4-7 | one pair per version, in order, each keeping its version behind a single-space padding |
| Transformer.ValuesOf | src/transformer.rs:59-62 | the values of a version list in order, without their paddings |
| Transformer.Repad | src/transformer.rs:59-72 | the new values in order; at each index the old padding when the old line had a version there, and a single space otherwise |
| Transformer.Rewrite | src/transformer.rs:48-82 | a line is dropped exactly when it defines the tool and there are no versions; a kept definition of the tool gets the new values, the old paddings where there are any, and its trailing whitespace and comment; every other line is kept as it is |
| Transformer.HasDefinition | src/transformer.rs:24-27 | some line defines the tool; `Transformer.SetVersions` appends a definition exactly when none does, and `ToolVersionsApi.VersionsOf` finds nothing exactly then |
| Transformer.RewriteLines | src/transformer.rs:44-84 | with versions, every line is kept or rewritten at its place; without, exactly the lines that do not define the tool remain; every definition left names a tool the input defines |
| Transformer.SetVersions | src/transformer.rs:3-42 | when no line defines the tool, the document is unchanged if there are no versions, and otherwise gets one new definition at the end, with single-space paddings and no trailing whitespace or comment |
| Transformer.SetVersionsRemoves | src/transformer.rs:44-57 | with no versions, no definition of the tool is left, and every other line is kept |
| Transformer.SetVersionsReplaces | src/transformer.rs:59-81 | with versions for a defined tool, the line count is kept; each definition of the tool gets exactly the new values, the old padding at each index that had one and a single space after that, and keeps its trailing whitespace and comment; every other line is unchanged |
| Transformer.SetVersionsIdempotent | src/transformer.rs:3-85 | setting the same versions twice gives the same document as setting them once |
| Transformer.RewriteLinesDefines | src/transformer.rs:59-79 | rewriting with at least one version keeps the tool defined |
| Transformer.RewriteLinesTwice | src/transformer.rs:44-84 | a second rewrite with the same versions changes nothing |
| Transformer.RewriteLinesAppend | src/transformer.rs:44-84 | the rewrite keeps the order of the lines: rewriting two parts and putting the results together is the same as rewriting the whole |
| Transformer.RewriteLinesUnique | src/transformer.rs:44-84 | rewriting keeps tool names unique |
| Transformer.SetVersionsKeepsShape | src/transformer.rs:3-85 | with a well-formed name and values, every valid line stays well formed and names stay unique |
| Transformer.SetVersionsKeepsVersionsNonEmpty | src/transformer.rs:9-57 | if every definition has a version before, every definition has one after; a definition given no versions is removed, not emptied |
| ToolVersionsApi.New | src/lib.rs:14-18 | a new value has no lines, no errors, and no versions for any tool |
| ToolVersionsApi.From | src/lib.rs:20-24 | one line per text line, and no two definitions share a name |
| ToolVersionsApi.Errors | src/lib.rs:31-40 | an error is listed exactly when some invalid line carries it, and there are at most as many errors as lines |
| ToolVersionsApi.CollectErrors | src/lib.rs:31-40 | the errors listed are exactly those of the invalid lines |
| ToolVersionsApi.CollectErrorsAppend | src/lib.rs:31-40 | errors come in line order: the errors of two parts put together are the errors of the whole |
| ToolVersionsApi.VersionsOf | src/lib.rs:42-53 | nothing exactly when no line defines the tool; otherwise the values, without paddings and in order, of the first line that defines it |
| ToolVersionsApi.FindVersions | src/lib.rs:42-53 | the first-match lookup over a list of lines, as for `VersionsOf` |
| ToolVersionsApi.FindVersionsAppend | src/lib.rs:43-52 | the lookup in two parts put together finds the first part's match if it has one, and otherwise the second part's |
| ToolVersionsApi.Write | src/lib.rs:66-68 | the output ends with a line feed |
| ToolVersionsApi.SetVersions | src/lib.rs:55-64 | the facade's setter: the strings become versions unchecked, then `Transformer.SetVersions` runs; its effect is stated by `ToolVersionsApi.VersionsAfterSet`, `ToolVersionsApi.OtherVersionsUnchanged` and `ToolVersionsApi.ErrorsUnchangedBySet` |
| ToolVersionsApi.Wrap | src/lib.rs:59-62 | one version per string, in order, holding that string unchanged |
| ToolVersionsApi.EmptyValueDoesNotReadBack | src/lib.rs:55-64 | setting the empty value `""` for `node` on a new value writes `node \n`, and that text reads back as one invalid line with `UnexpectedEOL("Version")` |
| ToolVersionsApi.RemovalRevivesDuplicate | src/transformer.rs:50-81 | removing `go` from `go 1` followed by the duplicate `go 2` drops the definition but keeps the invalid duplicate line, which writes as `go 2\n` and reads back as `go`'s only definition; read after a `go` definition, the same line is the duplicate |
| ToolVersionsApi.ValueStrings | src/lib.rs:45-49 | one string per version, in order, each the value of that version |
| ToolVersionsApi.VersionsAfterSet | src/lib.rs:55-64 | after setting versions for a tool, looking it up gives exactly those versions, or nothing when there were none |
| ToolVersionsApi.ReplacedLookup | src/lib.rs:55-64 | after setting versions for a tool that is already defined, looking it up gives exactly those versions |
| ToolVersionsApi.RewriteLookup | src/transformer.rs:44-84 | after a rewrite, looking up the tool gives the new values when the tool was defined, and nothing otherwise |
| ToolVersionsApi.RewriteKeepsOtherLookups | src/transformer.rs:44-84 | rewriting one tool does not change the lookup of any other tool |
| ToolVersionsApi.RewriteKeepsErrors | src/transformer.rs:81 | rewriting keeps every error line, in order |
| ToolVersionsApi.OtherVersionsUnchanged | src/lib.rs:55-64 | setting versions for one tool does not change the lookup of any other tool |
| ToolVersionsApi.ErrorsUnchangedBySet | src/lib.rs:55-64 | setting versions never adds, drops or reorders a syntax error |

## Left out

- File input and output: `parse_file`, `write_file`, `from_file` and the facade's
  `write_file` read or write files through `fs`, with no logic of their own.
- Carriage returns. `Text.Lines` drops a `'\r'` that comes just before a `'\n'`, as
  `str::lines` does. The round-trip theorems assume the text has no `'\r'`, because
  a dropped `"\r\n"` cannot be restored by the writer.
- `Line`, `SyntaxError` and the wrapper types are Dafny datatypes. Their
  closedness (three variants each) and the transparency of `new`/`value`
  (`Ast.WrappersAreTransparent`) hold by construction.
- `HashSet` hashing and `Clone` are not modelled; the set of names is a
  mathematical set, and values are immutable.
- The alternative API used by `tests/transformer_test.rs` is not modelled (see the
  drift notes above).
