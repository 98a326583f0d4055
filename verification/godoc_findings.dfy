/** The dedent of `parseCodeBlock` (rex/pkg/godoc.go) as written, against the corrected one
    the parser model uses. */
module GoDocFindings {
  import opened Bytes
  import opened Seqs
  import opened GoDoc
  import opened GoDocBlocks

  /** `parseCodeBlock` as written: the same extent as `CodeBlock`, but each line at least
      `indent` bytes long loses its first `indent` bytes whatever they are. */
  function CodeBlockAsWritten(lines: Lines, pos: nat): (r: Cut)
    requires pos <= |lines|
    ensures r.end == CodeBlock(lines, pos).end
  {
    var end := CodeEnd(lines, pos);
    Cut(Join(CodeLinesAsWritten(lines, pos, end, LeadingIndent(Peek(lines, pos))), NL), end)
  }

  /** The lines of a code block from `pos` to `end`, dedented as written. */
  function CodeLinesAsWritten(lines: Lines, pos: nat, end: nat, indent: nat): (r: Lines)
    requires pos <= end <= |lines|
    ensures |r| == end - pos
  {
    seq(end - pos, k requires 0 <= k < end - pos => DedentAsWritten(lines[pos + k], indent))
  }

  /** The two dedents agree on every line that is indented at least `indent` deep, and on
      every line shorter than `indent`; they differ only on a line long enough yet less
      indented, where the one as written cuts off bytes that are not blanks. */
  lemma DedentAgree(line: Bytes, indent: nat)
    ensures LeadingIndent(line) >= indent || |line| < indent <==> Dedent(line, indent) == DedentAsWritten(line, indent)
  {
    if LeadingIndent(line) < indent && |line| >= indent {
      assert |DedentAsWritten(line, indent)| < |line|;
    }
  }

  /** The corrected dedent only ever removes spaces and tabs: the line is the removed
      indentation followed by what is kept. */
  lemma DedentLosesOnlyBlanks(line: Bytes, indent: nat)
    ensures var r := Dedent(line, indent);
      var cut := line[..|line| - |r|];
      line == cut + r && AllIn(cut, Indent)
  {
    var r := Dedent(line, indent);
    var cut := line[..|line| - |r|];
    AllInIff(cut, Indent);
  }

  /** A line of a code block that the dedent as written would cut into: long enough, but
      indented less deeply than the block's first line. */
  predicate CutInto(line: Bytes, indent: nat)
  {
    LeadingIndent(line) < indent <= |line|
  }

  lemma AsWrittenSingle(lines: Lines, pos: nat, end: nat, indent: nat)
    requires pos <= end <= |lines| && SingleLines(lines)
    ensures forall k :: 0 <= k < end - pos ==> NL !in CodeLinesAsWritten(lines, pos, end, indent)[k]
  {
    var r := CodeLinesAsWritten(lines, pos, end, indent);
    forall k | 0 <= k < end - pos ensures NL !in r[k] {
      var line := lines[pos + k];
      if |line| >= indent {
        assert r[k] == line[indent..];
        SuffixSingle(line, indent);
      }
    }
  }

  lemma CodeLinesAgree(lines: Lines, pos: nat, end: nat, indent: nat)
    requires pos <= end <= |lines|
    ensures CodeLinesAsWritten(lines, pos, end, indent) == CodeLines(lines, pos, end, indent) <==>
      forall k :: pos <= k < end ==> !CutInto(lines[k], indent)
  {
    var w := CodeLinesAsWritten(lines, pos, end, indent);
    var c := CodeLines(lines, pos, end, indent);
    forall k | pos <= k < end
      ensures w[k - pos] == c[k - pos] <==> !CutInto(lines[k], indent)
    {
      DedentAgree(lines[k], indent);
    }
    if w != c {
      var i :| 0 <= i < end - pos && w[i] != c[i];
      assert CutInto(lines[pos + i], indent);
    }
  }

  /** The text `parseCodeBlock` produces as written equals the corrected text exactly when
      no line of the block is cut into: the two differ on every block that has a line
      long enough but indented less deeply than its first line. */
  lemma CodeBlockAgree(lines: Lines, pos: nat)
    requires pos <= |lines| && SingleLines(lines)
    ensures var end := CodeEnd(lines, pos);
      var indent := LeadingIndent(Peek(lines, pos));
      CodeBlockAsWritten(lines, pos).text == CodeBlock(lines, pos).text <==>
        forall k :: pos <= k < end ==> !CutInto(lines[k], indent)
  {
    var end := CodeEnd(lines, pos);
    var indent := LeadingIndent(Peek(lines, pos));
    var w := CodeLinesAsWritten(lines, pos, end, indent);
    var c := CodeLines(lines, pos, end, indent);
    CodeLinesAgree(lines, pos, end, indent);
    if end > pos && Join(w, NL) == Join(c, NL) {
      AsWrittenSingle(lines, pos, end, indent);
      CodeLinesSingle(lines, pos, end, indent);
      SplitJoin(w, NL);
      SplitJoin(c, NL);
    }
  }

  /** One iteration of the loop in `parseGoDocString` as written: the same tests in the
      same order as `Step`, with code blocks dedented as `parseCodeBlock` does. */
  function StepAsWritten(lines: Lines, pos: nat): (m: Move)
    requires pos < |lines|
    ensures m.Skip? == Step(lines, pos).Skip? && m.next == Step(lines, pos).next
    ensures m.Emit? ==> m.elem.kind == Step(lines, pos).elem.kind
    ensures m.Emit? && m.elem.kind != Code ==> m == Step(lines, pos)
  {
    match Classify(lines, pos)
    case BlankLine => Skip(pos + 1)
    case ItemLine =>
      var r := ListItems(lines, pos);
      Emit(Elem(List, r.parts), r.end)
    case CodeLine =>
      var r := CodeBlockAsWritten(lines, pos);
      Emit(Elem(Code, [r.text]), r.end)
    case DirectiveLine => Emit(Elem(Directive, [lines[pos]]), pos + 1)
    case HeadingLine => Emit(Elem(Heading, [HeadingText(lines[pos])]), pos + 1)
    case TextLine =>
      var r := ParagraphBlock(lines, pos);
      Emit(Elem(Paragraph, [r.text]), r.end)
  }

  /** `ws` and `bs` are block for block the same extents and kinds. */
  predicate SameShape(ws: seq<Block>, bs: seq<Block>)
  {
    && |ws| == |bs|
    && forall i :: 0 <= i < |ws| ==>
      ws[i].start == bs[i].start && ws[i].end == bs[i].end && ws[i].elem.kind == bs[i].elem.kind
  }

  lemma SameShapeCons(w: Block, b: Block, ws: seq<Block>, bs: seq<Block>)
    requires SameShape(ws, bs) && w.start == b.start && w.end == b.end && w.elem.kind == b.elem.kind
    ensures SameShape([w] + ws, [b] + bs)
  {
  }

  /** The elements the loop as written emits from line `pos` on, each with the lines it
      consumed: the same blocks of the same kinds as `Blocks`. */
  function BlocksAsWritten(lines: Lines, pos: nat): (ws: seq<Block>)
    requires pos <= |lines|
    ensures SameShape(ws, Blocks(lines, pos))
    decreases |lines| - pos
  {
    if pos == |lines| then []
    else
      var m := StepAsWritten(lines, pos);
      var s := Step(lines, pos);
      var rest := BlocksAsWritten(lines, m.next);
      if m.Skip? then rest
      else
        SameShapeCons(Block(pos, m.next, m.elem), Block(pos, s.next, s.elem), rest, Blocks(lines, s.next));
        [Block(pos, m.next, m.elem)] + rest
  }

  /** `parseGoDocString` as written: element for element the same kinds as `Parse`, and
      the same elements except for code blocks. */
  function ParseAsWritten(comment: Bytes): (doc: seq<Elem>)
    ensures |doc| == |Parse(comment)|
    ensures forall i :: 0 <= i < |doc| ==> doc[i].kind == Parse(comment)[i].kind
  {
    Elems(BlocksAsWritten(SplitLines(comment), 0))
  }

  /** A block the dedent as written leaves alone: not a code block, or a code block none
      of whose lines it cuts into. */
  predicate CleanBlock(lines: Lines, b: Block)
  {
    b.elem.kind == Code && b.start < b.end <= |lines| ==>
      forall k :: b.start <= k < b.end ==> !CutInto(lines[k], LeadingIndent(lines[b.start]))
  }

  predicate CleanBlocks(lines: Lines, bs: seq<Block>)
  {
    forall i :: 0 <= i < |bs| ==> CleanBlock(lines, bs[i])
  }

  /** One step as written emits what the corrected step emits exactly when the block it
      emits is clean. */
  lemma StepAgree(lines: Lines, pos: nat)
    requires pos < |lines| && SingleLines(lines)
    ensures var m := Step(lines, pos);
      StepAsWritten(lines, pos) == m <==> (m.Emit? ==> CleanBlock(lines, Block(pos, m.next, m.elem)))
  {
    if Classify(lines, pos) == CodeLine {
      CodeBlockAgree(lines, pos);
    }
  }

  /** The blocks as written are the corrected blocks exactly when every block is clean. */
  lemma {:induction false} BlocksAgree(lines: Lines, pos: nat)
    requires pos <= |lines| && SingleLines(lines)
    ensures BlocksAsWritten(lines, pos) == Blocks(lines, pos) <==> CleanBlocks(lines, Blocks(lines, pos))
    decreases |lines| - pos
  {
    if pos < |lines| {
      var m := Step(lines, pos);
      BlocksAgree(lines, m.next);
      if m.Emit? {
        StepAgree(lines, pos);
        var w := StepAsWritten(lines, pos);
        EmitAgree(lines, pos, Block(pos, m.next, m.elem), Block(pos, m.next, w.elem),
                  Blocks(lines, m.next), BlocksAsWritten(lines, m.next));
      }
    }
  }

  /** One emitting step: the blocks from `pos` agree exactly when the first block is clean
      and the rest agree. */
  lemma EmitAgree(lines: Lines, pos: nat, b: Block, w: Block, rest: seq<Block>, wrest: seq<Block>)
    requires pos < |lines| && Step(lines, pos).Emit?
    requires b == Block(pos, Step(lines, pos).next, Step(lines, pos).elem)
    requires w == Block(pos, Step(lines, pos).next, StepAsWritten(lines, pos).elem)
    requires rest == Blocks(lines, Step(lines, pos).next) && wrest == BlocksAsWritten(lines, Step(lines, pos).next)
    requires w == b <==> CleanBlock(lines, b)
    requires wrest == rest <==> CleanBlocks(lines, rest)
    ensures BlocksAsWritten(lines, pos) == Blocks(lines, pos) <==> CleanBlocks(lines, Blocks(lines, pos))
  {
    assert Blocks(lines, pos) == [b] + rest;
    assert BlocksAsWritten(lines, pos) == [w] + wrest;
    CleanCons(lines, b, rest);
    ConsEq(w, wrest, b, rest);
  }

  lemma CleanCons(lines: Lines, b: Block, rest: seq<Block>)
    ensures CleanBlocks(lines, [b] + rest) <==> CleanBlock(lines, b) && CleanBlocks(lines, rest)
  {
    var all := [b] + rest;
    assert all[0] == b;
    if CleanBlocks(lines, all) {
      forall i | 0 <= i < |rest|
        ensures CleanBlock(lines, rest[i])
      {
        assert all[i + 1] == rest[i];
      }
    }
    if CleanBlock(lines, b) && CleanBlocks(lines, rest) {
      forall i | 0 <= i < |all|
        ensures CleanBlock(lines, all[i])
      {
        if i > 0 {
          assert all[i] == rest[i - 1];
        }
      }
    }
  }

  lemma ConsEq<T>(x: T, xs: seq<T>, y: T, ys: seq<T>)
    ensures [x] + xs == [y] + ys <==> x == y && xs == ys
  {
    if [x] + xs == [y] + ys {
      assert x == ([x] + xs)[0] && y == ([y] + ys)[0];
      assert xs == ([x] + xs)[1..] && ys == ([y] + ys)[1..];
    }
  }

  /** The comment parses the same as written and corrected exactly when none of its code
      blocks has a line the dedent as written cuts into: long enough, yet indented less
      deeply than the block's first line. */
  lemma ParseAgree(comment: Bytes)
    ensures var lines := SplitLines(comment);
      ParseAsWritten(comment) == Parse(comment) <==> CleanBlocks(lines, Blocks(lines, 0))
  {
    var lines := SplitLines(comment);
    SplitLinesSingle(comment);
    BlocksAgree(lines, 0);
    var bs := Blocks(lines, 0);
    var ws := BlocksAsWritten(lines, 0);
    if Elems(ws) == Elems(bs) {
      assert forall i :: 0 <= i < |ws| ==> ws[i].elem == Elems(ws)[i];
      assert forall i :: 0 <= i < |ws| ==> ws[i] == bs[i];
    }
  }

  /** The code block "    a" / "  bcd": as written its text is "a\nd", losing "bc"; the
      corrected text is "a\n  bcd". */
  lemma CodeDedentCounter()
    ensures var lines: Lines := [[SPACE, SPACE, SPACE, SPACE, 0x61], [SPACE, SPACE, 0x62, 0x63, 0x64]];
      && CodeBlockAsWritten(lines, 0).text == [0x61, NL, 0x64]
      && CodeBlock(lines, 0).text == [0x61, NL, SPACE, SPACE, 0x62, 0x63, 0x64]
  {
    var a: Bytes := [SPACE, SPACE, SPACE, SPACE, 0x61];
    var b: Bytes := [SPACE, SPACE, 0x62, 0x63, 0x64];
    var lines: Lines := [a, b];
    CounterExtent(lines);
    CounterIndents(a, b);
    var written := CodeLinesAsWritten(lines, 0, 2, 4);
    assert CodeBlockAsWritten(lines, 0).text == Join(written, NL);
    assert written[0] == [0x61] && written[1] == [0x64];
    assert Join(written, NL) == [0x61] + [NL] + Join(written[1..], NL);
    assert written[1..] == [[0x64]];
    var corrected := CodeLines(lines, 0, 2, 4);
    assert CodeBlock(lines, 0).text == Join(corrected, NL);
    assert corrected[0] == [0x61] && corrected[1] == b;
    assert Join(corrected, NL) == [0x61] + [NL] + Join(corrected[1..], NL);
    assert corrected[1..] == [b];
  }

  lemma IndentFour(a: Bytes)
    requires a == [SPACE, SPACE, SPACE, SPACE, 0x61]
    ensures LeadingIndent(a) == 4
  {
    var n := LeadingIndent(a);
    assert a[4] !in Indent;
  }

  lemma IndentTwo(b: Bytes)
    requires b == [SPACE, SPACE, 0x62, 0x63, 0x64]
    ensures LeadingIndent(b) == 2
  {
    var n := LeadingIndent(b);
    assert b[2] !in Indent;
  }

  lemma CounterIndents(a: Bytes, b: Bytes)
    requires a == [SPACE, SPACE, SPACE, SPACE, 0x61] && b == [SPACE, SPACE, 0x62, 0x63, 0x64]
    ensures LeadingIndent(a) == 4 && LeadingIndent(b) == 2
  {
    IndentFour(a);
    IndentTwo(b);
  }

  lemma CounterExtent(lines: Lines)
    requires lines == [[SPACE, SPACE, SPACE, SPACE, 0x61], [SPACE, SPACE, 0x62, 0x63, 0x64]]
    ensures CodeEnd(lines, 0) == 2
  {
  }
}
