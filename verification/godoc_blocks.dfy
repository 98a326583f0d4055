/** The shape of each kind of element the doc-comment parser emits (rex/pkg/godoc.go):
    which lines a paragraph, a code block and a list consume, and what their content is. */
module GoDocBlocks {
  import opened Bytes
  import opened Seqs
  import opened GoDoc

  /** No line holds a newline byte: true of every line `SplitLines` produces. */
  predicate SingleLines(lines: Lines)
  {
    forall k :: 0 <= k < |lines| ==> NL !in lines[k]
  }

  lemma SplitLinesSingle(comment: Bytes)
    ensures SingleLines(SplitLines(comment))
  {
  }

  lemma SuffixSingle(line: Bytes, i: nat)
    requires i <= |line| && NL !in line
    ensures NL !in line[i..]
  {
  }

  // ---------------------------------------------------------------------------
  // Paragraphs

  /** A paragraph runs from its first line up to, and not including, the next blank or
      `+` line; every line in between, list-like or indented, is absorbed, and the content
      is those lines joined by single spaces. */
  lemma ParagraphStep(lines: Lines, pos: nat)
    requires pos < |lines| && Classify(lines, pos) == TextLine
    ensures var m := Step(lines, pos);
      && m.Emit? && m.elem.kind == Paragraph
      && (forall k :: pos <= k < m.next ==> !IsBlank(lines[k]) && !StartsWithPlus(lines[k]))
      && (m.next == |lines| || IsBlank(lines[m.next]) || StartsWithPlus(lines[m.next]))
      && m.elem.content == [Join(lines[pos..m.next], SPACE)]
  {
  }

  // ---------------------------------------------------------------------------
  // Code blocks

  lemma CodeLinesSingle(lines: Lines, pos: nat, end: nat, indent: nat)
    requires pos <= end <= |lines| && SingleLines(lines)
    ensures forall k :: 0 <= k < end - pos ==> NL !in CodeLines(lines, pos, end, indent)[k]
  {
    var r := CodeLines(lines, pos, end, indent);
    forall k | 0 <= k < end - pos ensures NL !in r[k] {
      var line := lines[pos + k];
      assert r[k] == Dedent(line, indent);
      SuffixSingle(line, |line| - |r[k]|);
    }
  }

  /** A code block takes the indentation width from its first line and consumes every
      following blank or indented line, interior and trailing blank lines included; its
      one content string splits back on newlines into exactly those lines, dedented. */
  lemma CodeStep(lines: Lines, pos: nat)
    requires pos < |lines| && Classify(lines, pos) == CodeLine && SingleLines(lines)
    ensures var m := Step(lines, pos);
      && m.Emit? && m.elem.kind == Code && |m.elem.content| == 1
      && (forall k :: pos <= k < m.next ==> InCodeBlock(lines[k]))
      && (m.next == |lines| || !InCodeBlock(lines[m.next]))
      && Split(m.elem.content[0], NL) == CodeLines(lines, pos, m.next, LeadingIndent(lines[pos]))
  {
    var m := Step(lines, pos);
    var parts := CodeLines(lines, pos, m.next, LeadingIndent(lines[pos]));
    CodeLinesSingle(lines, pos, m.next, LeadingIndent(lines[pos]));
    assert m.elem.content[0] == Join(parts, NL);
    SplitJoin(parts, NL);
  }

  // ---------------------------------------------------------------------------
  // Lists

  /** A line with a byte outside the white space is not blank. */
  lemma NotBlankAt(line: Bytes, i: nat)
    requires i < |line| && line[i] !in Space
    ensures !IsBlank(line)
  {
    AllInIff(line, Space);
  }

  /** After its indentation a list item starts with a bullet byte, a letter or a digit,
      none of which is white space. */
  lemma ItemFirst(line: Bytes)
    requires IsListItem(line)
    ensures var i := LeadingIndent(line);
      i < |line| && (line[i] in {STAR, PLUS, DASH, 0xE2} || IsLetterOrDigit(line[i]))
  {
    var t := TrimLeft(line, Indent);
    assert t[0] == line[LeadingIndent(line)];
    if !BulletItem(t) {
      assert AlnumEnd(t, 0) > 0;
    }
  }

  lemma SolidByte(b: byte)
    requires b in {STAR, PLUS, DASH, 0xE2} || IsLetterOrDigit(b)
    ensures b !in Space
  {
  }

  /** A list item is never a blank line. */
  lemma ItemNotBlank(line: Bytes)
    requires IsListItem(line)
    ensures !IsBlank(line)
  {
    ItemFirst(line);
    SolidByte(line[LeadingIndent(line)]);
    NotBlankAt(line, LeadingIndent(line));
  }

  /** The pieces an item's text is joined from: the text after the marker, then the kept
      part of each continuation line. */
  function ItemPieces(lines: Lines, pos: nat): Lines
    requires pos < |lines|
  {
    [ItemText(lines[pos])] + Continuation(lines, pos + 1, TextIndent(lines[pos])).parts
  }

  lemma ItemPiecesShape(lines: Lines, pos: nat)
    requires pos < |lines| && SingleLines(lines)
    ensures var pieces := ItemPieces(lines, pos);
      var textIndent := TextIndent(lines[pos]);
      var end := Continuation(lines, pos + 1, textIndent).end;
      && |pieces| == end - pos
      && (forall k :: 0 <= k < |pieces| ==> NL !in pieces[k])
      && (forall k :: pos < k < end ==>
            AllIn(lines[k][..textIndent], Indent) && pieces[k - pos] == lines[k][textIndent..])
  {
    ItemPiecesSingle(lines, pos);
    ItemPiecesKept(lines, pos);
  }

  /** No piece of an item holds a newline. */
  lemma ItemPiecesSingle(lines: Lines, pos: nat)
    requires pos < |lines| && SingleLines(lines)
    ensures forall k :: 0 <= k < |ItemPieces(lines, pos)| ==> NL !in ItemPieces(lines, pos)[k]
  {
    var line := lines[pos];
    var more := Continuation(lines, pos + 1, TextIndent(line)).parts;
    ItemTextSingle(line);
    ContinuationSingle(lines, pos + 1, TextIndent(line));
    ConsSingle(ItemText(line), more);
  }

  lemma ConsSingle(first: Bytes, more: seq<Bytes>)
    requires NL !in first && forall k :: 0 <= k < |more| ==> NL !in more[k]
    ensures forall k :: 0 <= k < |[first] + more| ==> NL !in ([first] + more)[k]
  {
    var pieces := [first] + more;
    forall k | 1 <= k < |pieces| ensures NL !in pieces[k] {
      assert pieces[k] == more[k - 1];
    }
  }

  /** An item's text holds no newline when its line holds none. */
  lemma ItemTextSingle(line: Bytes)
    requires NL !in line
    ensures NL !in ItemText(line)
  {
    SuffixSingle(line, |line| - |ItemText(line)|);
  }

  /** No continuation piece holds a newline. */
  lemma {:induction false} ContinuationSingle(lines: Lines, i: nat, textIndent: nat)
    requires i <= |lines| && SingleLines(lines)
    ensures forall j :: 0 <= j < |Continuation(lines, i, textIndent).parts| ==>
      NL !in Continuation(lines, i, textIndent).parts[j]
    decreases |lines| - i
  {
    if i < |lines| && Continues(lines[i], textIndent) {
      ContinuationSingle(lines, i + 1, textIndent);
      var rest := Continuation(lines, i + 1, textIndent).parts;
      var parts := Continuation(lines, i, textIndent).parts;
      assert parts == [lines[i][textIndent..]] + rest;
      SuffixSingle(lines[i], textIndent);
      ConsSingle(lines[i][textIndent..], rest);
    }
  }

  /** After the first, each piece of an item is a continuation line without its first
      `textIndent` bytes, all of them blanks. */
  lemma ItemPiecesKept(lines: Lines, pos: nat)
    requires pos < |lines|
    ensures var pieces := ItemPieces(lines, pos);
      var textIndent := TextIndent(lines[pos]);
      var end := Continuation(lines, pos + 1, textIndent).end;
      && |pieces| == end - pos
      && (forall k :: pos < k < end ==>
            AllIn(lines[k][..textIndent], Indent) && pieces[k - pos] == lines[k][textIndent..])
  {
    var textIndent := TextIndent(lines[pos]);
    var more := Continuation(lines, pos + 1, textIndent);
    ContinuationParts(lines, pos + 1, textIndent);
    var pieces := ItemPieces(lines, pos);
    forall k | pos < k < more.end
      ensures pieces[k - pos] == lines[k][textIndent..]
    {
      assert pieces[k - pos] == more.parts[k - (pos + 1)];
    }
  }

  /** One list item: its first line's text after the marker, then each continuation line
      (not blank, not an item, indented at least to the text column) without its first
      `textIndent` bytes, which are all spaces or tabs; the item stops at the first line
      that does not continue it. The item's text splits back on newlines into exactly
      these pieces. */
  lemma ListItemShape(lines: Lines, pos: nat)
    requires pos < |lines| && IsListItem(lines[pos]) && SingleLines(lines)
    ensures var item := ListItem(lines, pos);
      var textIndent := TextIndent(lines[pos]);
      var parts := Split(item.text, NL);
      && (forall k :: pos < k < item.end ==> Continues(lines[k], textIndent))
      && (item.end == |lines| || !Continues(lines[item.end], textIndent))
      && |parts| == item.end - pos && parts[0] == ItemText(lines[pos])
      && (forall k :: pos < k < item.end ==>
            textIndent <= |lines[k]| && AllIn(lines[k][..textIndent], Indent)
            && parts[k - pos] == lines[k][textIndent..])
  {
    ItemPiecesShape(lines, pos);
    SplitJoin(ItemPieces(lines, pos), NL);
  }

  /** The number of list-item lines in `ls`. */
  function CountItems(ls: Lines): nat
  {
    Count(ls, IsListItem)
  }

  /** The lines one item consumes hold no blank line. */
  lemma ItemSpanNotBlank(lines: Lines, pos: nat)
    requires pos < |lines| && IsListItem(lines[pos])
    ensures forall k :: pos <= k < ListItem(lines, pos).end ==> !IsBlank(lines[k])
  {
    var end := ListItem(lines, pos).end;
    assert end == Continuation(lines, pos + 1, TextIndent(lines[pos])).end;
    assert !IsBlank(lines[pos]) by {
      ItemNotBlank(lines[pos]);
    }
    ContinuationNotBlank(lines, pos + 1, TextIndent(lines[pos]));
  }

  /** No continuation line is blank. */
  lemma ContinuationNotBlank(lines: Lines, i: nat, textIndent: nat)
    requires i <= |lines|
    ensures forall k :: i <= k < Continuation(lines, i, textIndent).end ==> !IsBlank(lines[k])
  {
  }

  /** No continuation line is itself a list item. */
  lemma ContinuationNotItems(lines: Lines, i: nat, textIndent: nat)
    requires i <= |lines|
    ensures forall k :: i <= k < Continuation(lines, i, textIndent).end ==> !IsListItem(lines[k])
  {
  }

  /** Of the lines one item consumes, only the first is an item line. */
  lemma ItemSpanCount(lines: Lines, pos: nat)
    requires pos < |lines| && IsListItem(lines[pos])
    ensures CountItems(lines[pos..ListItem(lines, pos).end]) == 1
  {
    var end := ListItem(lines, pos).end;
    assert end == Continuation(lines, pos + 1, TextIndent(lines[pos])).end;
    ContinuationNotItems(lines, pos + 1, TextIndent(lines[pos]));
    SpanFirstOnly(lines, pos, end, IsListItem);
  }

  /** A span whose first line alone satisfies `P` counts one such line. */
  lemma SpanFirstOnly(lines: Lines, pos: nat, end: nat, P: Bytes -> bool)
    requires pos < end <= |lines| && P(lines[pos])
    requires forall k :: pos < k < end ==> !P(lines[k])
    ensures Count(lines[pos..end], P) == 1
  {
    var span := lines[pos..end];
    assert span[0] == lines[pos];
    forall k | 1 <= k < |span| ensures !P(span[k]) {
      assert span[k] == lines[pos + k];
    }
    CountFirstOnly(span, P);
  }

  /** The lines `parseList` consumes hold no blank line. */
  lemma {:induction false} ListItemsNotBlank(lines: Lines, pos: nat)
    requires pos <= |lines|
    ensures forall k :: pos <= k < ListItems(lines, pos).end ==> !IsBlank(lines[k])
    decreases |lines| - pos
  {
    if pos < |lines| && IsListItem(lines[pos]) {
      var item := ListItem(lines, pos);
      ListItemsNotBlank(lines, item.end);
      ItemSpanNotBlank(lines, pos);
    }
  }

  /** Every list-item line among those `parseList` consumes starts a new item of the same
      list: the list has as many items as it has item lines. */
  lemma {:induction false} ListItemsCount(lines: Lines, pos: nat)
    requires pos <= |lines|
    ensures var r := ListItems(lines, pos);
      |r.parts| == CountItems(lines[pos..r.end])
    decreases |lines| - pos
  {
    var r := ListItems(lines, pos);
    if pos < |lines| && IsListItem(lines[pos]) {
      var item := ListItem(lines, pos);
      var rest := ListItems(lines, item.end);
      assert r == Run([item.text] + rest.parts, rest.end);
      ListItemsCount(lines, item.end);
      ItemSpanCount(lines, pos);
      CountSlices(lines, pos, item.end, r.end, IsListItem);
    } else {
      assert r == Run([], pos);
    }
  }

  /** A list is emitted exactly at a list-item line; it holds at least one item. */
  lemma ListStep(lines: Lines, pos: nat)
    requires pos < |lines| && Classify(lines, pos) == ItemLine
    ensures var m := Step(lines, pos);
      && m.Emit? && m.elem.kind == List
      && m.elem.content == ListItems(lines, pos).parts && m.next == ListItems(lines, pos).end
      && |m.elem.content| == CountItems(lines[pos..m.next]) >= 1
      && forall k :: pos <= k < m.next ==> !IsBlank(lines[k])
  {
    ListItemsCount(lines, pos);
    ListItemsNotBlank(lines, pos);
  }
}
