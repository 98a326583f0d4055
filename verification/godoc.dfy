/** The doc-comment parser (rex/pkg/godoc.go). A comment is split into lines and scanned
    with one forward cursor; at each position the parser either skips a blank line or
    emits one element (list, code block, directive, heading or paragraph) and moves past
    the lines that element consumed. */
module GoDoc {
  import opened Bytes
  import opened Seqs

  /** GoDocElemType. */
  datatype ElemKind = Paragraph | Heading | List | Code | Directive
  {
    /** The one-letter tag the element carries in the JSON output. */
    function Tag(): string
    {
      match this
      case Paragraph => "p"
      case Heading => "h"
      case List => "l"
      case Code => "c"
      case Directive => "d"
    }
  }

  /** GoDocElem: one content string per item for a list, a single string otherwise. */
  datatype Elem = Elem(kind: ElemKind, content: seq<Bytes>)

  type Lines = seq<Bytes>

  /** Several strings taken from the lines, and the cursor position after them. */
  datatype Run = Run(parts: seq<Bytes>, end: nat)

  /** One string taken from the lines, and the cursor position after it. */
  datatype Cut = Cut(text: Bytes, end: nat)

  /** One step of the main loop: skip a blank line, or emit an element. */
  datatype Move = Skip(next: nat) | Emit(elem: Elem, next: nat)

  /** The element emitted by one step together with the lines `[start, end)` it consumed. */
  datatype Block = Block(start: nat, end: nat, elem: Elem)

  /** `strings.Split(comment, "\n")`. */
  function SplitLines(comment: Bytes): (lines: Lines)
    ensures |lines| >= 1
    ensures forall i :: 0 <= i < |lines| ==> NL !in lines[i]
    ensures Join(lines, NL) == comment
  {
    Split(comment, NL)
  }

  /** `docParser.peek`: the line under the cursor, or "" past the end. */
  function Peek(lines: Lines, pos: nat): Bytes
  {
    if pos >= |lines| then [] else lines[pos]
  }

  predicate StartsIndented(line: Bytes)
  {
    |line| > 0 && line[0] in Indent
  }

  predicate StartsWithPlus(line: Bytes)
  {
    |line| > 0 && line[0] == PLUS
  }

  // ---------------------------------------------------------------------------
  // List items

  /** The end of the run of letters and digits in `t` that starts at `i`. */
  function AlnumEnd(t: Bytes, i: nat): (j: nat)
    requires i <= |t|
    ensures i <= j <= |t|
    ensures forall k :: i <= k < j ==> IsLetterOrDigit(t[k])
    ensures j < |t| ==> !IsLetterOrDigit(t[j])
    decreases |t| - i
  {
    if i < |t| && IsLetterOrDigit(t[i]) then AlnumEnd(t, i + 1) else i
  }

  /** `isListItem`: after the leading spaces and tabs, a bullet marker or a numbered
      marker. */
  predicate IsListItem(line: Bytes)
  {
    var t := TrimLeft(line, Indent);
    if |t| == 0 then false
    else if BulletItem(t) then true
    else NumberedItem(t)
  }

  /** A line that does not start with a blank is a list item exactly when it starts with
      a bullet or a numbered marker. */
  lemma UnindentedItem(line: Bytes)
    requires |line| > 0 && line[0] !in Indent
    ensures IsListItem(line) <==> BulletItem(line) || NumberedItem(line)
  {
    TrimLeftNone(line, Indent);
  }

  /** A bullet `*`, `+`, `-` or `•` followed by a space or tab. */
  predicate BulletItem(t: Bytes)
  {
    || (|t| >= 2 && (t[0] == STAR || t[0] == PLUS || t[0] == DASH) && t[1] in Indent)
    || (|t| >= 4 && t[..3] == BULLET && t[3] in Indent)
  }

  /** Letters or digits, then `.` or `)`, then a space or tab. */
  predicate NumberedItem(t: Bytes)
  {
    var i := AlnumEnd(t, 0);
    && i > 0 && i < |t| && (t[i] == DOT || t[i] == RPAREN)
    && i + 1 < |t| && (t[i + 1] == SPACE || t[i + 1] == TAB)
  }

  /** A numbered marker: a run of letters and digits, then `.` or `)`. */
  predicate NumberMarker(m: Bytes)
  {
    && |m| >= 1
    && (forall k :: 0 <= k < |m| - 1 ==> IsLetterOrDigit(m[k]))
    && (m[|m| - 1] == DOT || m[|m| - 1] == RPAREN)
  }

  /** No prefix of `t` is a numbered marker. */
  predicate NoNumberMarker(t: Bytes)
  {
    forall i :: 0 < i <= |t| ==> !NumberMarker(t[..i])
  }

  /** Where the marker of a list item ends in its left-trimmed line `t`. The marker is
      read as `utf8.DecodeRuneInString` reads it: one byte for `*`, `+` and `-`, three
      for `•`; otherwise the run of letters and digits and the `.` or `)` after it. */
  function MarkerEnd(t: Bytes): (m: nat)
    ensures m <= |t|
    ensures |t| > 0 && t[0] in {STAR, PLUS, DASH} ==> m == 1
    ensures BULLET <= t ==> m == 3
  {
    if |t| > 0 && (t[0] == STAR || t[0] == PLUS || t[0] == DASH) then 1
    else if BULLET <= t then 3
    else
      var i := AlnumEnd(t, 0);
      if i < |t| && (t[i] == DOT || t[i] == RPAREN) then i + 1 else 0
  }

  /** The three cases of `MarkerEnd`: a one-byte bullet, the three bytes of `•`, or else
      the numbered marker the line starts with, and 0 when it starts with none. */
  lemma MarkerEndCases(t: Bytes)
    ensures |t| > 0 && t[0] in {STAR, PLUS, DASH} ==> MarkerEnd(t) == 1
    ensures BULLET <= t ==> MarkerEnd(t) == 3
    ensures !(|t| > 0 && t[0] in {STAR, PLUS, DASH}) && !(BULLET <= t) ==>
      && (MarkerEnd(t) > 0 ==> NumberMarker(t[..MarkerEnd(t)]))
      && (MarkerEnd(t) == 0 ==> NoNumberMarker(t))
  {
  }

  /** The text of a list item's first line: what follows the marker, left-trimmed. */
  function ItemText(line: Bytes): (text: Bytes)
    ensures |text| <= |line| && text == line[|line| - |text|..]
    ensures |text| > 0 ==> text[0] !in Indent
  {
    var t := TrimLeft(line, Indent);
    TrimLeft(t[MarkerEnd(t)..], Indent)
  }

  /** `textIndent`: the byte column where an item's text starts. */
  function TextIndent(line: Bytes): (n: nat)
    ensures n <= |line| && line[n..] == ItemText(line)
  {
    |line| - |ItemText(line)|
  }

  /** A line that continues the current list item: not blank, not itself an item, and
      indented at least as deep as the item's text. */
  predicate Continues(line: Bytes, textIndent: nat)
  {
    !IsBlank(line) && !IsListItem(line) && LeadingIndent(line) >= textIndent
  }

  /** The continuation lines of a list item from line `i` on, each without its first
      `textIndent` bytes; they stop at the first line that does not continue the item. */
  function Continuation(lines: Lines, i: nat, textIndent: nat): (r: Run)
    requires i <= |lines|
    ensures i <= r.end <= |lines| && |r.parts| == r.end - i
    ensures forall k :: i <= k < r.end ==> Continues(lines[k], textIndent)
    ensures r.end < |lines| ==> !Continues(lines[r.end], textIndent)
    decreases |lines| - i
  {
    if i < |lines| && Continues(lines[i], textIndent) then
      var rest := Continuation(lines, i + 1, textIndent);
      Run([lines[i][textIndent..]] + rest.parts, rest.end)
    else
      Run([], i)
  }

  /** Each continuation line is the item's indentation followed by the part kept. */
  lemma {:induction false} ContinuationParts(lines: Lines, i: nat, textIndent: nat)
    requires i <= |lines|
    ensures var r := Continuation(lines, i, textIndent);
      forall k :: i <= k < r.end ==>
        && LeadingIndent(lines[k]) >= textIndent
        && AllIn(lines[k][..textIndent], Indent)
        && r.parts[k - i] == lines[k][textIndent..]
    decreases |lines| - i
  {
    var r := Continuation(lines, i, textIndent);
    if i < |lines| && Continues(lines[i], textIndent) {
      ContinuationParts(lines, i + 1, textIndent);
      var rest := Continuation(lines, i + 1, textIndent);
      assert r.parts == [lines[i][textIndent..]] + rest.parts;
      forall k | i <= k < r.end
        ensures LeadingIndent(lines[k]) >= textIndent
        ensures AllIn(lines[k][..textIndent], Indent)
        ensures r.parts[k - i] == lines[k][textIndent..]
      {
        assert Continues(lines[k], textIndent);
        AllInIff(lines[k][..textIndent], Indent);
        if k > i {
          assert r.parts[k - i] == rest.parts[k - (i + 1)];
        }
      }
    }
  }

  /** One list item starting at line `pos`: its text, then a newline and the dedented
      text of each continuation line. */
  function ListItem(lines: Lines, pos: nat): (r: Cut)
    requires pos < |lines|
    ensures pos < r.end <= |lines|
  {
    var line := lines[pos];
    var more := Continuation(lines, pos + 1, TextIndent(line));
    Cut(Join([ItemText(line)] + more.parts, NL), more.end)
  }

  /** `parseList`: consecutive items, as long as the cursor is on a list item. */
  function ListItems(lines: Lines, pos: nat): (r: Run)
    requires pos <= |lines|
    ensures pos <= r.end <= |lines| && |r.parts| <= r.end - pos
    ensures r.end < |lines| ==> !IsListItem(lines[r.end])
    ensures pos < |lines| && IsListItem(lines[pos]) ==> |r.parts| >= 1
    decreases |lines| - pos
  {
    if pos < |lines| && IsListItem(lines[pos]) then
      var item := ListItem(lines, pos);
      var rest := ListItems(lines, item.end);
      Run([item.text] + rest.parts, rest.end)
    else
      Run([], pos)
  }

  // ---------------------------------------------------------------------------
  // Code blocks

  /** A line a code block consumes: blank, or starting with a space or tab. */
  predicate InCodeBlock(line: Bytes)
  {
    IsBlank(line) || StartsIndented(line)
  }

  /** The first line at or after `i` that is neither blank nor indented. */
  function CodeEnd(lines: Lines, i: nat): (j: nat)
    requires i <= |lines|
    ensures i <= j <= |lines|
    ensures forall k :: i <= k < j ==> InCodeBlock(lines[k])
    ensures j < |lines| ==> !InCodeBlock(lines[j])
    decreases |lines| - i
  {
    if i < |lines| && InCodeBlock(lines[i]) then CodeEnd(lines, i + 1) else i
  }

  /** Removes a code block's indentation from one of its lines: the first `indent` bytes
      go when they are all spaces or tabs, and any other line is kept as it is. This is
      the corrected dedent (see `DedentAsWritten` for the one in the source). */
  function Dedent(line: Bytes, indent: nat): (r: Bytes)
    ensures |r| <= |line| && r == line[|line| - |r|..]
    ensures forall k :: 0 <= k < |line| - |r| ==> line[k] in Indent
    ensures LeadingIndent(line) >= indent ==> |r| == |line| - indent
    ensures LeadingIndent(line) < indent ==> r == line
  {
    if LeadingIndent(line) >= indent then line[indent..] else line
  }

  /** The dedent of `parseCodeBlock` as written: any line at least `indent` bytes long
      loses its first `indent` bytes, whatever they are. */
  function DedentAsWritten(line: Bytes, indent: nat): (r: Bytes)
    ensures |line| >= indent ==> line == line[..indent] + r
    ensures |line| < indent ==> r == line
  {
    if |line| >= indent then line[indent..] else line
  }

  /** `parseCodeBlock`: the indentation width is measured on the first line; the block
      runs up to the first line that is neither blank nor indented, and its lines, each
      dedented, are joined with newlines. */
  function CodeBlock(lines: Lines, pos: nat): (r: Cut)
    requires pos <= |lines|
    ensures pos <= r.end <= |lines|
    ensures pos < |lines| && InCodeBlock(lines[pos]) ==> pos < r.end
  {
    var end := CodeEnd(lines, pos);
    Cut(Join(CodeLines(lines, pos, end, LeadingIndent(Peek(lines, pos))), NL), end)
  }

  /** The dedented lines of a code block from `pos` to `end`. */
  function CodeLines(lines: Lines, pos: nat, end: nat, indent: nat): (r: Lines)
    requires pos <= end <= |lines|
    ensures |r| == end - pos
  {
    seq(end - pos, k requires 0 <= k < end - pos => Dedent(lines[pos + k], indent))
  }

  // ---------------------------------------------------------------------------
  // Headings and paragraphs

  /** `docParser.isHeading`: not the first or last line, blank lines on both sides, not
      the bare "#", and after its leading `#` run the line goes on with a space. */
  predicate IsHeading(lines: Lines, pos: nat)
    requires pos < |lines|
  {
    if pos == 0 || pos == |lines| - 1 then false
    else if !(IsBlank(lines[pos - 1]) && IsBlank(lines[pos + 1])) then false
    else if lines[pos] == [HASH] then false
    else if !([HASH] <= lines[pos]) then false
    else [SPACE] <= TrimLeft(lines[pos], {HASH})
  }

  /** A heading's text: the line without its `#` run and surrounding white space. */
  function HeadingText(line: Bytes): (text: Bytes)
    ensures |text| > 0 ==> text[0] !in Space && text[|text| - 1] !in Space
  {
    TrimSpace(TrimLeft(line, {HASH}))
  }

  /** The first line at or after `i` that is blank or starts with `+`. */
  function ParagraphEnd(lines: Lines, i: nat): (j: nat)
    requires i <= |lines|
    ensures i <= j <= |lines|
    ensures forall k :: i <= k < j ==> !IsBlank(lines[k]) && !StartsWithPlus(lines[k])
    ensures j < |lines| ==> IsBlank(lines[j]) || StartsWithPlus(lines[j])
    decreases |lines| - i
  {
    if i < |lines| && !IsBlank(lines[i]) && !StartsWithPlus(lines[i]) then ParagraphEnd(lines, i + 1)
    else i
  }

  /** `parseParagraph`: the lines up to the next blank or `+` line, joined with spaces. */
  function ParagraphBlock(lines: Lines, pos: nat): (r: Cut)
    requires pos <= |lines|
    ensures pos <= r.end <= |lines|
    ensures pos < |lines| && !IsBlank(lines[pos]) && !StartsWithPlus(lines[pos]) ==> pos < r.end
  {
    var end := ParagraphEnd(lines, pos);
    Cut(Join(lines[pos..end], SPACE), end)
  }

  // ---------------------------------------------------------------------------
  // The main loop

  /** How the loop in `parseGoDocString` reads the line under the cursor. */
  datatype LineKind = BlankLine | ItemLine | CodeLine | DirectiveLine | HeadingLine | TextLine

  /** The tests of the loop in `parseGoDocString`, in its order: blank, list item,
      indented, `+`, heading, and otherwise paragraph text. */
  function Classify(lines: Lines, pos: nat): LineKind
    requires pos < |lines|
  {
    var line := lines[pos];
    if IsBlank(line) then BlankLine
    else if IsListItem(line) then ItemLine
    else if StartsIndented(line) then CodeLine
    else if StartsWithPlus(line) then DirectiveLine
    else if IsHeading(lines, pos) then HeadingLine
    else TextLine
  }

  /** One iteration of the loop in `parseGoDocString`: skip a blank line, or parse the
      element the line under the cursor starts. */
  function Step(lines: Lines, pos: nat): (m: Move)
    requires pos < |lines|
    ensures pos < m.next <= |lines|
    ensures m.Skip? <==> IsBlank(lines[pos])
    ensures m.Skip? ==> m.next == pos + 1
    ensures m.Emit? && m.elem.kind != List ==> |m.elem.content| == 1
    ensures m.Emit? && m.elem.kind == List ==> 1 <= |m.elem.content| <= m.next - pos
  {
    match Classify(lines, pos)
    case BlankLine => Skip(pos + 1)
    case ItemLine =>
      var r := ListItems(lines, pos);
      Emit(Elem(List, r.parts), r.end)
    case CodeLine =>
      var r := CodeBlock(lines, pos);
      Emit(Elem(Code, [r.text]), r.end)
    case DirectiveLine => Emit(Elem(Directive, [lines[pos]]), pos + 1)
    case HeadingLine => Emit(Elem(Heading, [HeadingText(lines[pos])]), pos + 1)
    case TextLine =>
      var r := ParagraphBlock(lines, pos);
      Emit(Elem(Paragraph, [r.text]), r.end)
  }

  /** The elements emitted from line `pos` to the end, each with the lines it consumed. */
  function Blocks(lines: Lines, pos: nat): (bs: seq<Block>)
    requires pos <= |lines|
    ensures forall b :: b in bs ==> pos <= b.start < b.end <= |lines|
    decreases |lines| - pos
  {
    if pos == |lines| then []
    else
      var m := Step(lines, pos);
      if m.Skip? then Blocks(lines, m.next)
      else [Block(pos, m.next, m.elem)] + Blocks(lines, m.next)
  }

  /** `b` is what one step emits at line `b.start`. */
  predicate Emitted(lines: Lines, b: Block)
  {
    b.start < |lines| && Step(lines, b.start) == Emit(b.elem, b.end)
  }

  /** Every block is what one step emits at its first line. */
  lemma {:induction false} BlocksAreSteps(lines: Lines, pos: nat)
    requires pos <= |lines|
    ensures forall b :: b in Blocks(lines, pos) ==> Emitted(lines, b)
    decreases |lines| - pos
  {
    if pos < |lines| {
      BlocksAreSteps(lines, Step(lines, pos).next);
    }
  }

  /** The elements of a list of blocks, in order. */
  function Elems(bs: seq<Block>): seq<Elem>
  {
    seq(|bs|, i requires 0 <= i < |bs| => bs[i].elem)
  }

  /** `parseGoDocString`: never fails; at most one element per line, one content string
      per element except lists, which hold at least one item. */
  function Parse(comment: Bytes): (doc: seq<Elem>)
    ensures |doc| <= |SplitLines(comment)|
    ensures forall i :: 0 <= i < |doc| && doc[i].kind != List ==> |doc[i].content| == 1
    ensures forall i :: 0 <= i < |doc| && doc[i].kind == List ==> |doc[i].content| >= 1
  {
    var lines := SplitLines(comment);
    var bs := Blocks(lines, 0);
    BlocksCount(lines, 0);
    BlocksAreSteps(lines, 0);
    assert forall i :: 0 <= i < |bs| ==> Emitted(lines, bs[i]);
    Elems(bs)
  }

  /** There are no more blocks from `pos` than lines left. */
  lemma {:induction false} BlocksCount(lines: Lines, pos: nat)
    requires pos <= |lines|
    ensures |Blocks(lines, pos)| <= |lines| - pos
    decreases |lines| - pos
  {
    if pos < |lines| {
      BlocksCount(lines, Step(lines, pos).next);
    }
  }
}
