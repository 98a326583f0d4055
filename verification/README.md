# rex: a Dafny model of the documentation parser, the type resolver and the viewer helpers

`rex` reads the Go packages of a Kubernetes-style API and turns their types into a browsable reference. This project models the pure core of three of its parts and proves properties of that model:

- **The doc-comment parser** (`parseGoDocString` in `rex/pkg/godoc.go`). A comment is split into lines. One forward cursor walks them. Each step either skips a blank line or emits one typed element: a list, an indented code block, a `+` directive, a `#` heading or a paragraph. Lines are byte sequences, so the list-indent arithmetic counts bytes. The bullet `•` is three bytes.
- **Type resolution and struct processing** (`rex/pkg/parse.go`):
  - `resolveTypeRecursive` works over an abstract type expression. It yields a base type name, a decorator list and the external packages it records.
  - The pure parts of `processStruct`:
    - the import map;
    - the file lookup and its error;
    - skipping unresolved fields and reversing the decorators;
    - the exported-name filter;
    - naming embedded fields;
    - the root rule.
  - `processType`: the export check and the no-overwrite registration.
  - The standard-library path test of `ParsePackages`.
- **The viewer's string helpers** (`rex/pkg/app.js`): `splitTypeName`, `formatDecorators`, and `hashToParts` on the already decoded hash.

Modules:

| file | module | contents |
|---|---|---|
| `wrappers.dfy` | `Wrappers` | `Option`, `Result` |
| `seqs.dfy` | `Seqs` | `Split`/`Join` as in Go and JavaScript; counting, reversing, last segment |
| `bytes.dfy` | `Bytes` | ASCII `TrimSpace`/`TrimLeft`, blank lines, leading indent, `unicode.IsLetter`/`IsDigit` on one byte |
| `godoc.dfy` | `GoDoc` | the parser: line classification, the five element builders, the cursor loop |
| `godoc_props.dfy`, `godoc_lines.dfy`, `godoc_blocks.dfy`, `godoc_reparse.dfy` | `GoDocProps`, `GoDocLines`, `GoDocBlocks`, `GoDocReparse` | properties of the parser |
| `godoc_findings.dfy` | `GoDocFindings` | the code-block dedent as the source writes it, next to the corrected one |
| `typeexpr.dfy` | `TypeExpr` | type expressions and `resolveTypeRecursive` |
| `structs.dfy` | `Structs` | `TypeInfo`/`FieldInfo`/`EnumInfo`, the import map, `processStruct` |
| `packages.dfy` | `Packages` | `processType` on a registry of types, the standard-library test |
| `viewer.dfy` | `Viewer` | `splitTypeName`, `formatDecorators`, `hashToParts` |

Go maps and slices are immutable Dafny values here. The `allTypes` map and the `externalPkgs` set become a `Registry` value that `ProcessType` returns. The files of a package are a sequence, searched in order. The parser's `*GoDocString` is a sequence of `Elem` values. Each `Elem` has a kind (`Paragraph`, `Heading`, `List`, `Code`, `Directive`) whose tags `"p" "h" "l" "c" "d"` are kept.

## Model

| member | source | states |
|---|---|---|
| Seqs.Split | rex/pkg/godoc.go:43 | `strings.Split`: at least one part, no part holds the separator, joining the parts gives the input back |
| Seqs.SplitJoin | rex/pkg/godoc.go:43 | splitting a join of separator-free parts gives those parts back |
| Seqs.LastIndexOf | rex/pkg/app.js:12 | `lastIndexOf`: -1 exactly when absent; otherwise the element is there and not after it |
| Seqs.LastPart | rex/pkg/parse.go:207-208 | the last `/` (or `.`) segment is a separator-free suffix of the input, preceded by the separator unless it is the whole input |
| Seqs.Reverse | rex/pkg/parse.go:230-233 | the in-place swap loop: same length, element i is element n-1-i of the input |
| Seqs.ReverseReverse | rex/pkg/parse.go:230-233 | reversing twice gives the list back |
| Bytes.TrimLeft | rex/pkg/godoc.go:188 | `strings.TrimLeft`: a suffix of the input, everything cut is in the cut set, the first kept byte is not |
| Bytes.TrimRight | rex/pkg/godoc.go:51 | the right half of `strings.TrimSpace`: a prefix, everything cut is in the set, the last kept byte is not |
| Bytes.TrimSpaceEmptyIff | rex/pkg/godoc.go:51 | a line trims to empty exactly when every byte is ASCII white space |
| Bytes.LeadingIndent | rex/pkg/godoc.go:151-158 | the count of leading spaces and tabs: those bytes are blanks, and the next byte is not |
| GoDoc.SplitLines | rex/pkg/godoc.go:43 | at least one line, none holds a newline, and joining with newlines gives the comment back |
| GoDoc.AlnumEnd | rex/pkg/godoc.go:249-252 | the letter/digit run starting at i: every byte in it is a letter or digit, the byte after it is not |
| GoDoc.MarkerEnd | rex/pkg/godoc.go:189-201 | the marker end lies within the trimmed line; it is 1 after `*`, `+` or `-` and 3 after `•` |
| GoDoc.MarkerEndCases | rex/pkg/godoc.go:189-201 | the marker is 1 byte after `*`, `+` or `-`, the 3 bytes of `•`, otherwise a run of letters and digits with the `.` or `)` after it; 0 exactly when no prefix of the trimmed line is such a run |
| GoDoc.ItemText | rex/pkg/godoc.go:203 | the item text is a suffix of the line that does not start with a blank; `GoDocLines.ItemLayoutOf` and `ItemLayoutUnique` show it is what follows the marker and its blanks |
| GoDoc.TextIndent | rex/pkg/godoc.go:205 | `len(line) - len(textPart)`: cutting that many bytes leaves exactly the item text; `GoDocLines.ItemLayoutOf` gives its value as indent plus marker plus blanks |
| GoDoc.Continuation | rex/pkg/godoc.go:208-227 | continuation lines run while they are non-blank, not list items and indented at least `textIndent`; the first line that fails stops the run, unconsumed |
| GoDoc.ContinuationParts | rex/pkg/godoc.go:217-223 | each continuation line has at least `textIndent` leading blanks and contributes exactly `line[textIndent:]` |
| GoDoc.ListItem | rex/pkg/godoc.go:184-228 | an item consumes its own line and possibly more, never past the end |
| GoDoc.ListItems | rex/pkg/godoc.go:181-232 | a list stops only at the end or at a line that is not a list item, and has at least one item when it starts on one |
| GoDoc.CodeEnd | rex/pkg/godoc.go:160-167 | a code block runs over blank or indented lines and stops at the first non-blank line not starting with a space or tab |
| GoDoc.Dedent | rex/pkg/godoc.go:169-176 | corrected dedent: a line with at least `indent` leading blanks loses exactly `indent` of them, any other line is kept verbatim, and only blanks are ever removed |
| GoDoc.DedentAsWritten | rex/pkg/godoc.go:169-176 | the dedent as written: a line of length at least `indent` loses its first `indent` bytes, whatever they are; a shorter line is kept |
| GoDoc.CodeBlock | rex/pkg/godoc.go:147-178 | a code block starting on an indented line consumes at least that line |
| GoDoc.CodeLines | rex/pkg/godoc.go:169-176 | one dedented line per consumed line |
| GoDoc.HeadingText | rex/pkg/godoc.go:80 | heading content neither starts nor ends with white space; `GoDocLines.HeadingLayoutOf` and `HeadingLayoutUnique` show it is the line without its `#` run and the white space around the text |
| GoDoc.ParagraphEnd | rex/pkg/godoc.go:136-143 | a paragraph runs over non-blank lines not starting with `+` and stops, unconsumed, at the first blank or `+` line |
| GoDoc.ParagraphBlock | rex/pkg/godoc.go:134-145 | a paragraph started on a non-blank, non-`+` line consumes at least that line |
| GoDoc.Step | rex/pkg/godoc.go:47-88 | one loop iteration, with the corrected code-block dedent: the cursor always advances; it skips exactly the blank lines, by one; every element but a list has one content string; a list has between one item and one item per consumed line |
| GoDoc.Blocks | rex/pkg/godoc.go:47-88 | every emitted element covers a non-empty range of lines inside the comment |
| GoDoc.BlocksAreSteps | rex/pkg/godoc.go:47-88 | every emitted element is what one step produces at its start line, ending where that step stops |
| GoDoc.BlocksCount | rex/pkg/godoc.go:47-88 | there are never more elements than lines |
| GoDoc.Parse | rex/pkg/godoc.go:41-91 | `parseGoDocString` with the corrected code-block dedent is total: at most one element per line, one content string for every non-list element, at least one item in every list |
| GoDocProps.BlocksOrdered | rex/pkg/godoc.go:47-88 | elements appear in the order of their lines, and their line ranges do not overlap |
| GoDocProps.BlocksCover | rex/pkg/godoc.go:47-88 | every non-blank line belongs to some element |
| GoDocProps.BlocksEmptyIff | rex/pkg/godoc.go:47-88 | no element is emitted exactly when every remaining line is blank |
| GoDocProps.ParseEmptyIff | rex/pkg/godoc.go:41-91 | a comment parses to no element exactly when it consists of white space only, the empty comment included |
| GoDocLines.BulletIff | rex/pkg/godoc.go:241-246 | the bullet test holds exactly for `*`, `+`, `-` or the 3-byte `•` followed by a space or tab |
| GoDocLines.NumberedIff | rex/pkg/godoc.go:249-257 | the numbered test holds exactly for a non-empty letter/digit run, then `.` or `)`, then a space or tab |
| GoDocLines.ListItemIff | rex/pkg/godoc.go:234-260 | `isListItem` holds exactly when the left-trimmed line starts with a bullet marker or a numbered marker |
| GoDocLines.MarkerEndBlank | rex/pkg/godoc.go:189-201 | on a list item, the marker is at least one byte wide and is followed by a blank |
| GoDocLines.ItemLayoutOf | rex/pkg/godoc.go:181-205 | a list item's first line is its indentation, a bullet (`*`, `+`, `-`, or the three bytes of `•`) or letters and digits with `.` or `)`, one or more blanks, then the item text; `textIndent` equals indentation plus marker plus blanks |
| GoDocLines.ItemLayoutUnique | rex/pkg/godoc.go:181-205 | conversely, any line laid out that way is a list item, and its marker, blanks and text are the ones the parser reads off it |
| GoDocLines.PlusLine | rex/pkg/godoc.go:56-72 | a `+` line is a list item exactly when its second byte is a space or tab, so `+ x` is a list item, not a directive |
| GoDocLines.ClassifyDirective | rex/pkg/godoc.go:56-72 | a line is classified as a directive exactly when it starts with `+` and is not a `+` bullet |
| GoDocLines.StepDirective | rex/pkg/godoc.go:67-71 | a directive is emitted exactly for such a line; its content is the line verbatim and it consumes that line only |
| GoDocLines.HeadingLayoutOf | rex/pkg/godoc.go:74-84 | a heading line is its `#` run, white space starting with a space, the heading text, and trailing white space |
| GoDocLines.HashLineLayout | rex/pkg/godoc.go:74-84 | the same layout for every line passing the line tests of `isHeading` (starts with `#`, is not the bare `#`, has a space after the `#` run) |
| GoDocLines.HeadingLayoutUnique | rex/pkg/godoc.go:74-84 | conversely, a line laid out that way passes the line tests of `isHeading`, and its heading text is that text |
| GoDocLines.HeadingIff | rex/pkg/godoc.go:105-132 | `isHeading` holds exactly for a line that is neither first nor last, between two blank lines, and made of a `#` run followed by a space |
| GoDocLines.PlusStart | rex/pkg/godoc.go:61-67 | a `+` line is neither blank nor indented, so it is never taken for code |
| GoDocLines.HashStart | rex/pkg/godoc.go:61-74 | a `#` line is not blank, not code and not a directive |
| GoDocLines.HashNotItem | rex/pkg/godoc.go:234-260 | a `#` line is never a list item |
| GoDocLines.ClassifyHeading | rex/pkg/godoc.go:74-84 | a line is classified as a heading exactly when `isHeading` holds, because nothing before the heading test accepts a `#` line |
| GoDocBlocks.SplitLinesSingle | rex/pkg/godoc.go:43 | lines split from a comment hold no newline |
| GoDocBlocks.ParagraphStep | rex/pkg/godoc.go:134-145 | a paragraph is the consumed lines joined by single spaces; each consumed line is non-blank and does not start with `+`, and the line after is blank, a `+` line or the end |
| GoDocBlocks.CodeStep | rex/pkg/godoc.go:147-178 | a code block has one content string; its lines are the dedented consumed lines; every consumed line is blank or indented, and the next line is neither |
| GoDocBlocks.ItemNotBlank | rex/pkg/godoc.go:234-260 | a list item is never a blank line |
| GoDocBlocks.ItemPiecesShape | rex/pkg/godoc.go:203-227 | an item has one piece per consumed line, and each continuation piece is the line with its first `textIndent` blanks removed |
| GoDocBlocks.ListItemShape | rex/pkg/godoc.go:181-232 | an item's text splits on newlines into its first-line text followed by one dedented piece per continuation line; the line after the item does not continue it |
| GoDocBlocks.ItemSpanNotBlank | rex/pkg/godoc.go:208-212 | an item never consumes a blank line |
| GoDocBlocks.ContinuationNotItems | rex/pkg/godoc.go:213-215 | no continuation line is a list item |
| GoDocBlocks.ItemSpanCount | rex/pkg/godoc.go:184-229 | the lines of one item hold exactly one list-item line, its first |
| GoDocBlocks.ListItemsNotBlank | rex/pkg/godoc.go:208-212 | a blank line ends the whole list: no consumed line is blank |
| GoDocBlocks.ListItemsCount | rex/pkg/godoc.go:181-232 | a list has exactly one item per list-item line it consumes |
| GoDocBlocks.ListStep | rex/pkg/godoc.go:56-59 | a list step emits the items of `parseList`: at least one, one per item line, with no blank line consumed |
| GoDocReparse.SingleLineParagraph | rex/pkg/godoc.go:134-145 | a single non-blank line that is not a list item, not indented and not a `+` line parses to exactly one paragraph holding it |
| GoDocReparse.ParagraphText | rex/pkg/godoc.go:144 | a paragraph's text has no newline and starts with its first line |
| GoDocReparse.ParagraphReparse | rex/pkg/godoc.go:134-145 | a paragraph's text parses back to that same single paragraph, unless the joined text reads as a list item |
| GoDocReparse.ParagraphReparseCounter | rex/pkg/godoc.go:134-145 | the lines `1.` and `x` form a paragraph whose text `1. x` is a list item, so the condition above is needed |
| GoDocReparse.HeadingReparse | rex/pkg/godoc.go:74-84 | a heading's non-empty text parses back to one paragraph, unless it reads as a list item or starts with `+` |
| GoDocReparse.HeadingReparseCounter | rex/pkg/godoc.go:74-84 | `# +x` between blank lines is a heading whose text `+x` parses as a directive |
| GoDocFindings.CodeBlockAsWritten | rex/pkg/godoc.go:147-178 | the code block as written consumes the same lines as the corrected one |
| GoDocFindings.CodeLinesAsWritten | rex/pkg/godoc.go:169-176 | one line per consumed line |
| GoDocFindings.DedentAgree | rex/pkg/godoc.go:169-176 | the two dedents agree exactly on lines that are shorter than the indent or have at least that many leading blanks |
| GoDocFindings.DedentLosesOnlyBlanks | rex/pkg/godoc.go:169-176 | the corrected dedent splits a line into blanks that are cut and a kept rest |
| GoDocFindings.CodeLinesAgree | rex/pkg/godoc.go:169-176 | the two dedented line lists are equal exactly when no consumed line would have non-blank bytes cut |
| GoDocFindings.CodeBlockAgree | rex/pkg/godoc.go:147-178 | the two code-block texts are equal exactly when no consumed line would have non-blank bytes cut |
| GoDocFindings.StepAsWritten | rex/pkg/godoc.go:47-88 | the loop iteration as written: it consumes the same lines as `Step` and emits the same kind; anything but a code block is emitted unchanged |
| GoDocFindings.BlocksAsWritten | rex/pkg/godoc.go:47-88 | the loop as written emits as many blocks as `Blocks`, with the same extents and kinds |
| GoDocFindings.ParseAsWritten | rex/pkg/godoc.go:41-91 | `parseGoDocString` as written: element for element the same kinds as `GoDoc.Parse` |
| GoDocFindings.StepAgree | rex/pkg/godoc.go:47-88 | one step as written equals the corrected step exactly when the block it emits has no code line the dedent as written cuts into |
| GoDocFindings.BlocksAgree | rex/pkg/godoc.go:47-88 | the blocks as written equal the corrected blocks exactly when every code block is clean in that sense |
| GoDocFindings.ParseAgree | rex/pkg/godoc.go:41-91 | `parseGoDocString` as written and `GoDoc.Parse` give the same elements exactly when no code block of the comment has a line long enough yet indented less deeply than its first line |
| GoDocFindings.CodeDedentCounter | rex/pkg/godoc.go:169-176 | for `    a` then `  bcd`, the code as written gives `a\nd`; the corrected one gives `a\n  bcd` |
| TypeExpr.Resolve | rex/pkg/parse.go:136-178 | one decorator per pointer, slice or map layer; every recorded external package is an import path of the file |
| TypeExpr.ExternalIff | rex/pkg/parse.go:164-171 | the recorded packages are exactly the import paths of the selector qualifiers the file imports, map keys included; an unknown qualifier records nothing |
| TypeExpr.BaseFromCore | rex/pkg/parse.go:144-156 | the base name comes from the innermost non-wrapper type alone; a map follows its value, not its key |
| TypeExpr.UnresolvedIff | rex/pkg/parse.go:157-177 | a type resolves to `""` exactly when its innermost type is not an identifier or a selector on an identifier, or is an unnamed identifier with no object |
| TypeExpr.DecoratorsOutsideIn | rex/pkg/parse.go:144-156 | reversed, the decorators list the layers from the outside in: `Ptr`, `List`, `Map[<key base>]` per layer |
| Structs.LeadingQuotes | rex/pkg/parse.go:203 | the run of leading `"` bytes, and the byte after it is not one |
| Structs.TrailingQuotes | rex/pkg/parse.go:203 | the run of trailing `"` bytes, and the byte before it is not one |
| Structs.TrimQuotes | rex/pkg/parse.go:203 | `strings.Trim(path, "\"")`: a slice of the path with no quote at either end |
| Structs.ImportMapKeys | rex/pkg/parse.go:201-210 | the import map's keys are exactly the keys of the imports: the explicit name, else the last `/` segment of the unquoted path |
| Structs.ImportMapLast | rex/pkg/parse.go:201-210 | an import that no later import shadows maps its key to its unquoted path |
| Structs.UnnamedImportKey | rex/pkg/parse.go:206-208 | an unnamed import's key is a `/`-free suffix of its path, preceded by `/` unless it is the whole path |
| Structs.FindFile | rex/pkg/parse.go:189-196 | no file is found exactly when no file's range holds the position; a found file is one of the files and holds it |
| Structs.Exported | rex/pkg/parse.go:241-245 | the exported names, in order: every kept name is exported and declared, every exported name is kept, and their number is the count of exported names |
| Structs.ExternalsOf | rex/pkg/parse.go:224 | the packages the fields record are import paths of the file |
| Structs.HasField | rex/pkg/parse.go:277-284 | true exactly when some field has that name |
| Structs.ProcessStruct | rex/pkg/parse.go:180-293 | fails, with `file not found for type <name>`, exactly when no file holds the position; otherwise keeps every other attribute, appends after the existing fields, and sets `IsRoot` exactly when it was already set or the root rule holds |
| Structs.FieldsInOrder | rex/pkg/parse.go:212-269 | the fields of two consecutive runs of declarations are the fields of the first, then those of the second |
| Structs.NamedFieldEntries | rex/pkg/parse.go:240-255 | a named declaration gives one record per exported name in order, each with the outside-in decorators, or none if its type is unresolved |
| Structs.EmbeddedFieldEntry | rex/pkg/parse.go:256-268 | an embedded field gives one record named by the last `.` segment of its resolved type, with the outside-in decorators |
| Structs.UnnamedFieldSkipped | rex/pkg/parse.go:224-228 | a field whose type cannot be named gives no record |
| Structs.EntriesWellFormed | rex/pkg/parse.go:224-268 | every record has a non-empty type name, an empty package, and a doc parsed from its own doc string |
| Packages.Outcome | rex/pkg/parse.go:526-550 | a processed type keeps its package, its name, its trimmed doc and the doc parsed from the untrimmed comment |
| Packages.ProcessType | rex/pkg/parse.go:500-558 | no existing entry is changed and no external package is lost; nothing changes unless the type is exported, new and processed; then exactly its qualified name is added, with its package, name and docs |
| Packages.ProcessTypeIdempotent | rex/pkg/parse.go:520-524 | processing a type twice is processing it once |
| Packages.RegisteredStruct | rex/pkg/parse.go:537-557 | a new exported struct is registered with its fields in declaration order, no enum values, `IsRoot` exactly by the root rule, and the packages its fields record; if its file is not found nothing changes |
| Packages.InsertCommutes | rex/pkg/parse.go:552-557 | insertions under different names commute |
| Packages.ProcessTypeCommutes | rex/pkg/parse.go:500-558 | two types with different names can be processed in either order |
| Packages.QualifiedInjective | rex/pkg/parse.go:520 | different type names give different qualified names |
| Packages.StdLibIff | rex/pkg/parse.go:60-63 | a path counts as standard library exactly when every `.` in it comes after some `/` |
| Viewer.Substring | rex/pkg/app.js:16-17 | JavaScript `substring`: never longer than the string, and the plain slice when the bounds are in order and in range |
| Viewer.SplitTypeName | rex/pkg/app.js:11-19 | no dot: empty package and the whole name; otherwise `pkg + "." + type` is the input and the type has no dot |
| Viewer.SplitQualified | rex/pkg/app.js:11-19 | splitting `pkg + "." + name` for a dot-free name gives back `pkg` and `name` |
| Viewer.SplitTypeMatchesEmbedded | rex/pkg/app.js:11-19 | the viewer's type part is the same last `.` segment the parser names an embedded field by |
| Viewer.FormatDecorators | rex/pkg/app.js:21-24 | a missing or empty list gives `""` |
| Viewer.RenderAppend | rex/pkg/app.js:25-36 | tokens render left to right: the rendering of a concatenation is the concatenation of the renderings |
| Viewer.UnknownTokenIgnored | rex/pkg/app.js:26-35 | a token other than `Ptr`, `List` and `Map[...]` contributes nothing wherever it stands |
| Viewer.MapTokenRoundTrip | rex/pkg/app.js:31-33 | the token the parser writes for a map renders as `map[<key>]` with the same key |
| Viewer.DecoratorsRenderPrefix | rex/pkg/app.js:21-37 | the decorators the parser stores for a field render as the Go prefix of the field's type, outermost layer first |
| Viewer.LayersRender | rex/pkg/app.js:21-37 | the outside-in layers render as the Go prefix of the type |
| Viewer.LastDotted | rex/pkg/app.js:457-462 | the index of the last segment holding a dot: -1 exactly when none does |
| Viewer.HashToParts | rex/pkg/app.js:444-477 | empty hash exactly when there is no root, with no fields; otherwise root and fields joined by `/` give the path back; a dotted root leaves only dot-free fields; with no dotted segment the root is the first segment and the fields are the rest |
| Viewer.HashRoundTrip | rex/pkg/app.js:417-477 | a hash built from a qualified type name and dot-free field names splits back into that type name and those fields |
| Viewer.QualifiedLastSegment | rex/pkg/app.js:457-462 | the last `/` segment of a qualified name holds a dot |

## Left out

- Process and file-system plumbing are not modelled. This covers `go list` (`getPkgPathFromDir`, `resolvePkgDir`), `parser.ParseDir`, `go/doc`, and the `ParsePackages` worklist. Only the path test that decides which external packages are followed is modelled.
- `processEnum` and `findConstantsByType` work on `go/doc` and `go/ast` values. Their outcome is a parameter of `ProcessType`: `IdentBody(enumValues)` is `None` when the type is not an enum.
- `Field.doc` is the text of a field's comment group. `ast.CommentGroup.Text` (removing comment markers) is not modelled.
- JSON output (`json.go`), the HTML template (`html.go`), `generate.go` and `main.go` are not modelled. Neither is the sort that orders the output.
- The DOM code of `app.js` is not modelled: rendering, search, key handling, linkifying, `updateHash` and `restoreFromHash` (which use `window.location`), and `getFirstSentence` (a regular expression).
- Viewer.HashToParts takes the hash after `decodeURIComponent`. The branch that reports a decoding failure is not modelled.
- Logging (`log.Printf`, `console.log`) is not modelled.
- Bytes.TrimSpace: white space is ASCII only (tab, newline, vertical tab, form feed, carriage return, space). Go's `strings.TrimSpace` also trims Unicode spaces such as U+0085 and U+00A0.
- Bytes.IsLetterOrDigit: `unicode.IsLetter`/`IsDigit` on a single byte read as a rune is modelled by its Latin-1 table.
- Structs.IsExported: only an ASCII upper-case first letter counts. Go's `ast.IsExported` accepts any Unicode upper-case letter.
- Structs.FindFile: `pkg.Files` is a Go map, so the file found is whichever the iteration reaches first. The model searches a sequence in order. Files do not overlap, so at most one can match.
- Structs.FieldEntries: `FieldInfo.Package` stays empty on every entry, named and embedded alike, as `rex/pkg/parse.go:246-262` leaves it. The struct test (`rex/pkg/parse_test.go:564-586`) expects the package part of the type name there. `Structs.EntriesWellFormed` states the empty package.
- TypeExpr.Resolve: a nil decorator slice and an empty one are both the empty sequence.
- GoDocReparse.ParagraphReparse and GoDocReparse.HeadingReparse hold only under the stated conditions. The counterexample lemmas show that the unconditional "text re-parses to one paragraph" is false.
- GoDoc.Parse / GoDoc.Step: code blocks use the corrected dedent of the Findings row, not the one in `rex/pkg/godoc.go:169-176`. So on a comment such as `    a` newline `  bcd` they give `a` newline `  bcd` where the source gives `a` newline `d`. `GoDocFindings.ParseAsWritten` is the parser as written, and `GoDocFindings.ParseAgree` states exactly when the two agree.
- Viewer.Substring models the swap-and-clamp rule of JavaScript `substring`. So the bare token `Map[` renders as `map[[]`, as the code does.

## Findings

| source | as written | input that shows it | evidently intended | confidence | as-written member | corrected member |
|---|---|---|---|---|---|---|
| rex/pkg/godoc.go:169-176 | every consumed code line at least `indent` long loses its first `indent` bytes, blanks or not | the comment `    a` newline `  bcd` (indent 4; the second line is indented, so it is in the block) gives the code `a` newline `d`, dropping `bc` | remove only leading blanks, and keep a line with fewer than `indent` leading blanks as it is | not executed | GoDocFindings.CodeBlockAsWritten, GoDocFindings.ParseAsWritten, GoDocFindings.CodeDedentCounter | GoDoc.Dedent, GoDoc.CodeBlock, GoDoc.Parse, GoDocFindings.CodeBlockAgree, GoDocFindings.ParseAgree |

`GoDoc.Parse` uses the corrected dedent. `GoDocFindings.CodeBlockAgree` proves the two code blocks agree exactly when no consumed line has non-blank bytes within the first `indent` bytes, and `GoDocFindings.ParseAgree` lifts this to whole comments. That covers every comment whose code lines are indented at least as deeply as the first line of their block.
