/** Feeding a paragraph's or a heading's text back to the doc-comment parser
    (rex/pkg/godoc.go): it comes back as one paragraph holding the same text, provided the
    text does not itself read as a list item or a directive. */
module GoDocReparse {
  import opened Bytes
  import opened Seqs
  import opened GoDoc
  import opened GoDocBlocks
  import opened GoDocLines

  /** A one-line comment that is not blank, not indented, not a `+` line and not a list
      item parses to a single paragraph holding exactly that line: a lone line is never a
      heading, having no neighbours. */
  lemma SingleLineParagraph(text: Bytes)
    requires NL !in text && !IsBlank(text)
    requires !IsListItem(text) && !StartsIndented(text) && !StartsWithPlus(text)
    ensures Parse(text) == [Elem(Paragraph, [text])]
  {
    var lines := SplitLines(text);
    assert Join([text], NL) == text;
    SplitJoin([text], NL);
    assert lines == [text];
    assert Classify(lines, 0) == TextLine;
    assert lines[0..1] == [text];
    assert Join(lines[0..1], SPACE) == text;
    var m := Step(lines, 0);
    assert m == Emit(Elem(Paragraph, [text]), 1);
    assert Blocks(lines, 0) == [Block(0, 1, Elem(Paragraph, [text]))];
  }

  lemma JoinStartsWith(parts: Lines, sep: byte)
    requires |parts| >= 1
    ensures parts[0] <= Join(parts, sep)
  {
  }

  /** A line read as paragraph text is not blank, not indented and not a `+` line. */
  lemma ClassifyText(lines: Lines, pos: nat)
    requires pos < |lines| && Classify(lines, pos) == TextLine
    ensures !IsBlank(lines[pos]) && !StartsIndented(lines[pos]) && !StartsWithPlus(lines[pos])
  {
  }

  /** A text that starts with a non-blank line is not blank. */
  lemma PrefixNotBlank(a: Bytes, b: Bytes)
    requires a <= b && !IsBlank(a)
    ensures !IsBlank(b)
  {
    AllInIff(a, Space);
    AllInIff(b, Space);
  }

  /** A paragraph's text holds no newline and starts with the paragraph's first line. */
  lemma ParagraphText(lines: Lines, pos: nat)
    requires pos < |lines| && Classify(lines, pos) == TextLine && SingleLines(lines)
    ensures var text := Step(lines, pos).elem.content[0];
      NL !in text && lines[pos] <= text
  {
    ParagraphStep(lines, pos);
    var m := Step(lines, pos);
    var parts := lines[pos..m.next];
    JoinElements(parts, SPACE, (b: byte) => b != NL);
    JoinStartsWith(parts, SPACE);
  }

  /** A paragraph's text, parsed again, is one paragraph with the same text, unless that
      text reads as a list item: joining can complete a marker, as "1." followed by a line
      "x" gives "1. x". */
  lemma ParagraphReparse(lines: Lines, pos: nat)
    requires pos < |lines| && Classify(lines, pos) == TextLine && SingleLines(lines)
    requires !IsListItem(Step(lines, pos).elem.content[0])
    ensures var text := Step(lines, pos).elem.content[0];
      Parse(text) == [Elem(Paragraph, [text])]
  {
    var text := Step(lines, pos).elem.content[0];
    ParagraphText(lines, pos);
    ClassifyText(lines, pos);
    var first := lines[pos];
    PrefixNotBlank(first, text);
    assert text[0] == first[0];
    SingleLineParagraph(text);
  }

  /** "1." then "x" is a paragraph whose text "1. x" is a list item. */
  lemma ParagraphReparseCounter()
    ensures var lines := [[0x31, DOT], [0x78]];
      && Classify(lines, 0) == TextLine
      && Step(lines, 0) == Emit(Elem(Paragraph, [[0x31, DOT, SPACE, 0x78]]), 2)
      && IsListItem([0x31, DOT, SPACE, 0x78])
  {
    var one: Bytes := [0x31, DOT];
    var x: Bytes := [0x78];
    var lines: Lines := [one, x];
    OneDotIsText(one);
    NotBlankAt(x, 0);
    assert ParagraphEnd(lines, 0) == 2;
    assert lines[0..2] == lines;
    assert Join(lines, SPACE) == one + [SPACE] + x;
    assert one + [SPACE] + x == [0x31, DOT, SPACE, 0x78];
    OneDotXIsItem([0x31, DOT, SPACE, 0x78]);
  }

  /** "1." alone is plain text: the marker is not followed by a blank. */
  lemma OneDotIsText(t: Bytes)
    requires t == [0x31, DOT]
    ensures !IsBlank(t) && !IsListItem(t) && !StartsIndented(t) && !StartsWithPlus(t)
  {
    NotBlankAt(t, 0);
    UnindentedItem(t);
    assert AlnumEnd(t, 1) == 1;
  }

  /** "1. x" is a numbered list item. */
  lemma OneDotXIsItem(t: Bytes)
    requires t == [0x31, DOT, SPACE, 0x78]
    ensures IsListItem(t)
  {
    UnindentedItem(t);
    assert AlnumEnd(t, 1) == 1;
    assert NumberedItem(t);
  }

  /** A heading's text, parsed again, is one paragraph with the same text, unless it is
      empty or reads as a list item or a directive. */
  lemma HeadingReparse(lines: Lines, pos: nat)
    requires pos < |lines| && IsHeading(lines, pos) && SingleLines(lines)
    requires var text := HeadingText(lines[pos]);
      |text| > 0 && !IsListItem(text) && !StartsWithPlus(text)
    ensures var text := HeadingText(lines[pos]);
      Parse(text) == [Elem(Paragraph, [text])]
  {
    var text := HeadingText(lines[pos]);
    HeadingTextSingle(lines[pos]);
    HeadingTextSolid(text);
    SingleLineParagraph(text);
  }

  /** A heading's text holds no newline when its line holds none. */
  lemma HeadingTextSingle(line: Bytes)
    requires NL !in line
    ensures NL !in HeadingText(line)
  {
    var u := TrimLeft(line, {HASH});
    var v := TrimLeft(u, Space);
    SuffixSingle(line, |line| - |u|);
    SuffixSingle(u, |u| - |v|);
  }

  /** A non-empty heading text starts with a byte outside the white space, so it is
      neither blank nor indented. */
  lemma HeadingTextSolid(text: Bytes)
    requires |text| > 0 && text[0] !in Space
    ensures !IsBlank(text) && !StartsIndented(text)
  {
    NotBlankAt(text, 0);
  }

  /** The heading "# +x" has the text "+x", which parses again as a directive. */
  lemma HeadingReparseCounter()
    ensures var lines: Lines := [[], [HASH, SPACE, PLUS, 0x78], []];
      && IsHeading(lines, 1)
      && HeadingText(lines[1]) == [PLUS, 0x78]
      && Classify([[PLUS, 0x78]], 0) == DirectiveLine
  {
    var lines: Lines := [[], [HASH, SPACE, PLUS, 0x78], []];
    HashSpaceLine(lines);
    HashSpaceText();
    ClassifyDirective([[PLUS, 0x78]], 0);
  }

  lemma HashSpaceLine(lines: Lines)
    requires lines == [[], [HASH, SPACE, PLUS, 0x78], []]
    ensures IsHeading(lines, 1)
  {
    var line: Bytes := [HASH, SPACE, PLUS, 0x78];
    assert line[1..] == [SPACE, PLUS, 0x78];
    TrimLeftOne(line, {HASH});
  }

  lemma HashSpaceText()
    ensures HeadingText([HASH, SPACE, PLUS, 0x78]) == [PLUS, 0x78]
  {
    var line: Bytes := [HASH, SPACE, PLUS, 0x78];
    var rest: Bytes := [SPACE, PLUS, 0x78];
    var text: Bytes := [PLUS, 0x78];
    assert line[1..] == rest && rest[1..] == text;
    TrimLeftOne(line, {HASH});
    TrimLeftOne(rest, Space);
    TrimRightNone(text, Space);
  }

  /** Trimming a line whose first byte alone is in the cut set drops that byte. */
  lemma TrimLeftOne(s: Bytes, cut: set<byte>)
    requires |s| >= 2 && s[0] in cut && s[1] !in cut
    ensures TrimLeft(s, cut) == s[1..]
  {
    assert s[1..][0] == s[1];
  }

  /** Trimming the right of a line whose last byte is not in the cut set keeps it. */
  lemma TrimRightNone(s: Bytes, cut: set<byte>)
    requires |s| >= 1 && s[|s| - 1] !in cut
    ensures TrimRight(s, cut) == s
  {
  }
}
