/** Properties of the line classification the doc-comment parser performs: list items,
    directives and headings (rex/pkg/godoc.go). */
module GoDocLines {
  import opened Bytes
  import opened GoDoc

  /** The bullets a list item may start with; `•` is three bytes long. */
  const Bullets: set<Bytes> := {[STAR], [PLUS], [DASH], BULLET}

  /** `t` starts with a bullet followed by a space or tab. */
  predicate BulletMarker(t: Bytes)
  {
    exists b :: b in Bullets && |b| < |t| && t[..|b|] == b && t[|b|] in Indent
  }

  /** `t` starts with a non-empty run of letters and digits, then `.` or `)`, then a
      space or tab. */
  predicate NumberedMarker(t: Bytes)
  {
    exists i :: 0 < i < |t| - 1 && (forall k :: 0 <= k < i ==> IsLetterOrDigit(t[k]))
                && (t[i] == DOT || t[i] == RPAREN) && t[i + 1] in Indent
  }

  /** The list-item test stated without the scanning loop. */
  predicate ListItemSpec(line: Bytes)
  {
    var t := TrimLeft(line, Indent);
    BulletMarker(t) || NumberedMarker(t)
  }

  lemma BulletIff(t: Bytes)
    ensures BulletItem(t) <==> BulletMarker(t)
  {
    if |t| >= 2 && (t[0] == STAR || t[0] == PLUS || t[0] == DASH) && t[1] in Indent {
      var b := [t[0]];
      assert b in Bullets && t[..|b|] == b;
    } else if |t| >= 4 && t[..3] == BULLET && t[3] in Indent {
      assert BULLET in Bullets && t[..|BULLET|] == BULLET;
    }
    if BulletMarker(t) {
      var b :| b in Bullets && |b| < |t| && t[..|b|] == b && t[|b|] in Indent;
      if b == BULLET {
        assert |t| >= 4 && t[..3] == BULLET;
      } else {
        assert t[0] == b[0];
      }
    }
  }

  lemma NumberedIff(t: Bytes)
    ensures NumberedItem(t) <==> NumberedMarker(t)
  {
    if NumberedItem(t) {
      NumberedForward(t);
    }
    if NumberedMarker(t) {
      NumberedBackward(t);
    }
  }

  lemma NumberedForward(t: Bytes)
    requires NumberedItem(t)
    ensures NumberedMarker(t)
  {
    var run := AlnumEnd(t, 0);
    assert forall k :: 0 <= k < run ==> IsLetterOrDigit(t[k]);
    assert t[run + 1] in Indent;
  }

  lemma NumberedBackward(t: Bytes)
    requires NumberedMarker(t)
    ensures NumberedItem(t)
  {
    var i :| 0 < i < |t| - 1 && (forall k :: 0 <= k < i ==> IsLetterOrDigit(t[k]))
             && (t[i] == DOT || t[i] == RPAREN) && t[i + 1] in Indent;
    assert !IsLetterOrDigit(t[i]);
    assert AlnumEnd(t, 0) == i;
  }

  /** `isListItem` holds exactly when the left-trimmed line starts with a bullet or a
      numbered marker, followed by a space or tab. */
  lemma ListItemIff(line: Bytes)
    ensures IsListItem(line) <==> ListItemSpec(line)
  {
    var t := TrimLeft(line, Indent);
    BulletIff(t);
    NumberedIff(t);
  }

  /** Where the marker of a recognised item ends there is a space or tab. */
  lemma MarkerEndBlank(t: Bytes)
    requires |t| > 0 && (BulletItem(t) || NumberedItem(t))
    ensures 1 <= MarkerEnd(t) < |t| && t[MarkerEnd(t)] in Indent
  {
    if t[0] == STAR || t[0] == PLUS || t[0] == DASH {
      assert AlnumEnd(t, 0) == 0;
      assert !NumberedItem(t);
      assert |t| >= 4 ==> t[..3] != BULLET by { assert BULLET[0] == 0xE2; }
    } else if BULLET <= t {
      assert t[0] == 0xE2 && t[1] == 0x80;
      assert AlnumEnd(t, 1) == 1;
      assert AlnumEnd(t, 0) == 1;
      assert !NumberedItem(t);
      assert t[..3] == BULLET;
    } else {
      assert |t| >= 4 ==> t[..3] != BULLET;
      assert !BulletItem(t);
    }
  }

  /** The marker at the start of a left-trimmed line. */
  function MarkerOf(t: Bytes): Bytes
  {
    t[..MarkerEnd(t)]
  }

  /** The text after the marker of a left-trimmed line, itself left-trimmed. */
  function TextOf(t: Bytes): (text: Bytes)
    ensures |text| <= |t| - MarkerEnd(t)
  {
    TrimLeft(t[MarkerEnd(t)..], Indent)
  }

  /** The spaces and tabs between the marker and the text of a left-trimmed line. */
  function BlanksOf(t: Bytes): Bytes
  {
    t[MarkerEnd(t)..|t| - |TextOf(t)|]
  }

  /** The marker of a list item's first line. */
  function ItemMarker(line: Bytes): Bytes
  {
    MarkerOf(TrimLeft(line, Indent))
  }

  /** The spaces and tabs between a list item's marker and its text. */
  function ItemBlanks(line: Bytes): Bytes
  {
    BlanksOf(TrimLeft(line, Indent))
  }

  /** `line` reads as indentation, a bullet or numbered marker, at least one space or
      tab, and then `text`, which does not start with a space or tab. */
  predicate ItemLayout(line: Bytes, marker: Bytes, blanks: Bytes, text: Bytes)
  {
    && line == line[..LeadingIndent(line)] + marker + blanks + text
    && MarkerShape(marker)
    && BlanksShape(blanks)
    && (|text| > 0 ==> text[0] !in Indent)
  }

  /** A bullet, or letters and digits followed by `.` or `)`. */
  predicate MarkerShape(marker: Bytes)
  {
    marker in Bullets || (|marker| >= 2 && NumberMarker(marker))
  }

  /** One or more spaces and tabs. */
  predicate BlanksShape(blanks: Bytes)
  {
    |blanks| > 0 && forall k :: 0 <= k < |blanks| ==> blanks[k] in Indent
  }

  /** A list item's line is its indentation, its marker (one byte for `*`, `+` and `-`,
      the three bytes of `•`, or a letter and digit run with its `.` or `)`), the blanks
      after it and the item's text; `textIndent` is the column where that text starts. */
  lemma ItemLayoutOf(line: Bytes)
    requires IsListItem(line)
    ensures ItemLayout(line, ItemMarker(line), ItemBlanks(line), ItemText(line))
    ensures TextIndent(line) == LeadingIndent(line) + |ItemMarker(line)| + |ItemBlanks(line)|
  {
    var t := TrimLeft(line, Indent);
    var n := LeadingIndent(line);
    IndentSplit(line);
    TrimmedLayout(t);
    assert ItemText(line) == TextOf(t);
    PrefixThenPieces(line, line[..n], t, MarkerOf(t), BlanksOf(t), TextOf(t));
  }

  /** The layout of a recognised item's left-trimmed line. */
  lemma TrimmedLayout(t: Bytes)
    requires |t| > 0 && (BulletItem(t) || NumberedItem(t))
    ensures t == MarkerOf(t) + BlanksOf(t) + TextOf(t)
    ensures MarkerShape(MarkerOf(t)) && BlanksShape(BlanksOf(t))
    ensures |TextOf(t)| > 0 ==> TextOf(t)[0] !in Indent
  {
    TrimmedPieces(t, MarkerEnd(t), MarkerOf(t), BlanksOf(t), TextOf(t));
  }

  /** The item pieces of a left-trimmed line, named. */
  lemma TrimmedPieces(t: Bytes, m: nat, marker: Bytes, blanks: Bytes, text: Bytes)
    requires |t| > 0 && (BulletItem(t) || NumberedItem(t))
    requires m == MarkerEnd(t) && marker == MarkerOf(t) && blanks == BlanksOf(t) && text == TextOf(t)
    ensures t == marker + blanks + text
    ensures MarkerShape(marker) && BlanksShape(blanks)
    ensures |text| > 0 ==> text[0] !in Indent
  {
    MarkerOfItem(t);
    BlanksAfter(t, m);
  }

  /** Splitting the rest of a line into three pieces splits the line. */
  lemma PrefixThenPieces(line: Bytes, p: Bytes, t: Bytes, a: Bytes, b: Bytes, c: Bytes)
    requires line == p + t && t == a + b + c
    ensures line == p + a + b + c
  {
    assert p + a + b + c == p + (a + b + c);
  }

  /** What follows a prefix is the rest of the pieces. */
  lemma AfterPrefix(line: Bytes, p: Bytes, a: Bytes, b: Bytes, c: Bytes)
    requires line == p + a + b + c
    ensures line[|p|..] == a + b + c
  {
    assert p + a + b + c == p + (a + b + c);
  }

  /** A line is its indentation followed by its left-trimmed rest. */
  lemma IndentSplit(line: Bytes)
    ensures TrimLeft(line, Indent) == line[LeadingIndent(line)..]
    ensures line == line[..LeadingIndent(line)] + TrimLeft(line, Indent)
  {
  }

  /** The marker of a recognised item is a bullet or a numbered marker, followed by a
      space or tab. */
  lemma MarkerOfItem(t: Bytes)
    requires |t| > 0 && (BulletItem(t) || NumberedItem(t))
    ensures 1 <= MarkerEnd(t) < |t| && t[MarkerEnd(t)] in Indent
    ensures MarkerShape(t[..MarkerEnd(t)])
  {
    MarkerEndBlank(t);
    if t[0] in {STAR, PLUS, DASH} {
      assert t[..1] == [t[0]];
    } else if BULLET <= t {
      assert t[..3] == BULLET;
    } else {
      assert !BulletItem(t);
    }
  }

  /** The blanks that follow a marker ending at `m`, up to the item's text. */
  lemma BlanksAfter(t: Bytes, m: nat)
    requires m < |t| && t[m] in Indent
    ensures var text := TrimLeft(t[m..], Indent);
      && |text| < |t| - m
      && t == t[..m] + t[m..|t| - |text|] + text
      && forall k :: m <= k < |t| - |text| ==> t[k] in Indent
  {
    var u := t[m..];
    var text := TrimLeft(u, Indent);
    var e := |t| - |text|;
    assert text == t[e..];
    assert t[..m] + t[m..e] == t[..e];
    assert t[..e] + t[e..] == t;
    forall k | m <= k < e
      ensures t[k] in Indent
    {
      assert u[k - m] == t[k];
    }
  }

  /** Conversely, a line laid out as indentation, marker, blanks and text is a list item,
      and the marker, blanks and text are the ones the parser reads off it. */
  lemma ItemLayoutUnique(line: Bytes, marker: Bytes, blanks: Bytes, text: Bytes)
    requires ItemLayout(line, marker, blanks, text)
    ensures IsListItem(line)
    ensures marker == ItemMarker(line) && blanks == ItemBlanks(line) && text == ItemText(line)
  {
    var t := TrimLeft(line, Indent);
    var n := LeadingIndent(line);
    IndentSplit(line);
    AfterPrefix(line, line[..n], marker, blanks, text);
    TrimmedUnique(t, marker, blanks, text);
    assert ItemText(line) == TextOf(t);
  }

  /** A left-trimmed line laid out as marker, blanks and text is an item, and these are
      the pieces the parser reads off it. */
  lemma TrimmedUnique(t: Bytes, marker: Bytes, blanks: Bytes, text: Bytes)
    requires t == marker + blanks + text
    requires MarkerShape(marker) && BlanksShape(blanks) && (|text| > 0 ==> text[0] !in Indent)
    ensures |t| > 0 && (BulletItem(t) || NumberedItem(t))
    ensures MarkerOf(t) == marker && BlanksOf(t) == blanks && TextOf(t) == text
  {
    var rest := blanks + text;
    assert t == marker + rest;
    MarkerFromLayout(t, marker, rest);
    TrimmedLayout(t);
    SameLayout(t, MarkerOf(t), BlanksOf(t), TextOf(t), marker, blanks, text);
  }

  /** Two splits of `t` into a marker of the same width, blanks and a text that does not
      start with a blank are the same split. */
  lemma SameLayout(t: Bytes, m1: Bytes, b1: Bytes, x1: Bytes, m2: Bytes, b2: Bytes, x2: Bytes)
    requires t == m1 + b1 + x1 && t == m2 + b2 + x2 && |m1| == |m2|
    requires BlanksShape(b1) && (|x1| > 0 ==> x1[0] !in Indent)
    requires BlanksShape(b2) && (|x2| > 0 ==> x2[0] !in Indent)
    ensures m1 == m2 && b1 == b2 && x1 == x2
  {
    assert t == m1 + (b1 + x1) && t == m2 + (b2 + x2);
    SplitAt(t, m1, b1 + x1);
    SplitAt(t, m2, b2 + x2);
    SameBlanks(b1 + x1, b1, x1, b2, x2);
  }

  /** Blanks then a text not starting with a blank split a string in one way only. */
  lemma SameBlanks(u: Bytes, b1: Bytes, x1: Bytes, b2: Bytes, x2: Bytes)
    requires u == b1 + x1 && u == b2 + x2
    requires BlanksShape(b1) && (|x1| > 0 ==> x1[0] !in Indent)
    requires BlanksShape(b2) && (|x2| > 0 ==> x2[0] !in Indent)
    ensures b1 == b2 && x1 == x2
  {
    TrimLeftAfter(b1, x1, Indent);
    TrimLeftAfter(b2, x2, Indent);
    SplitAt(u, b1, x1);
    SplitAt(u, b2, x2);
  }

  /** The two halves of a concatenation, as slices. */
  lemma SplitAt(t: Bytes, a: Bytes, b: Bytes)
    requires t == a + b
    ensures t[..|a|] == a && t[|a|..] == b
  {
  }

  /** A trimmed line that starts with a bullet or a numbered marker and then a blank is an
      item whose marker is exactly that one. */
  lemma MarkerFromLayout(t: Bytes, marker: Bytes, rest: Bytes)
    requires t == marker + rest && |rest| > 0 && rest[0] in Indent
    requires MarkerShape(marker)
    ensures |t| > 0 && (BulletItem(t) || NumberedItem(t))
    ensures MarkerEnd(t) == |marker|
  {
    if marker in Bullets {
      if marker == BULLET {
        assert t[..3] == BULLET;
      } else {
        assert t[0] == marker[0] && t[1] == rest[0];
      }
    } else {
      NumberedLayout(t, marker, rest);
    }
  }

  /** A line that starts with a numbered marker and a blank is a numbered item whose marker
      ends right after that marker. */
  lemma NumberedLayout(t: Bytes, marker: Bytes, rest: Bytes)
    requires t == marker + rest && |marker| >= 2 && NumberMarker(marker)
    requires |rest| > 0 && rest[0] in Indent
    ensures !(t[0] in {STAR, PLUS, DASH}) && !(BULLET <= t)
    ensures MarkerEnd(t) == |marker| && NumberedItem(t)
  {
    var i := |marker| - 1;
    assert IsLetterOrDigit(t[0]);
    NumberNotBullet(t, marker, rest);
    assert t[i] == marker[i];
    assert forall k :: 0 <= k < i ==> t[k] == marker[k];
    AlnumEndAt(t, 0, i);
  }

  /** The second byte of a numbered marker is a letter, a digit, `.` or `)`, never the
      second byte of `•`. */
  lemma NumberNotBullet(t: Bytes, marker: Bytes, rest: Bytes)
    requires t == marker + rest && |marker| >= 2 && NumberMarker(marker)
    ensures !(BULLET <= t)
  {
    assert t[1] == marker[1];
    assert t[1] != BULLET[1];
  }

  /** The run of letters and digits from `i` ends at the first byte that is neither. */
  lemma {:induction false} AlnumEndAt(t: Bytes, i: nat, j: nat)
    requires i <= j < |t| && !IsLetterOrDigit(t[j])
    requires forall k :: i <= k < j ==> IsLetterOrDigit(t[k])
    ensures AlnumEnd(t, i) == j
    decreases j - i
  {
    if i < j {
      AlnumEndAt(t, i + 1, j);
    }
  }

  /** A line starting with `+` is a list item exactly when its second byte is a space or
      tab. */
  lemma PlusLine(line: Bytes)
    requires StartsWithPlus(line)
    ensures IsListItem(line) <==> |line| >= 2 && line[1] in Indent
  {
    UnindentedItem(line);
  }

  /** A `+` line is read as a directive exactly when it is not a list item. */
  lemma ClassifyDirective(lines: Lines, pos: nat)
    requires pos < |lines|
    ensures Classify(lines, pos) == DirectiveLine <==>
      StartsWithPlus(lines[pos]) && !(|lines[pos]| >= 2 && lines[pos][1] in Indent)
  {
    if StartsWithPlus(lines[pos]) {
      PlusLine(lines[pos]);
      PlusStart(lines[pos]);
    }
  }

  /** A directive comes from a `+` line that is not a list item; its content is that line,
      verbatim, and it consumes that line only. */
  lemma StepDirective(lines: Lines, pos: nat)
    requires pos < |lines|
    ensures var m := Step(lines, pos);
      m.Emit? && m.elem.kind == Directive <==>
        StartsWithPlus(lines[pos]) && !(|lines[pos]| >= 2 && lines[pos][1] in Indent)
    ensures var m := Step(lines, pos);
      m.Emit? && m.elem.kind == Directive ==> m.elem.content == [lines[pos]] && m.next == pos + 1
  {
    ClassifyDirective(lines, pos);
  }

  /** A `#` run of length at least one, then a space. */
  predicate HashesThenSpace(line: Bytes)
  {
    exists k :: 0 < k < |line| && AllIn(line[..k], {HASH}) && line[k] == SPACE
  }

  /** `isHeading` holds exactly for a line strictly inside the comment, between two blank
      lines, made of a `#` run and then a space; so the bare "#" and "#text" are never
      headings, and neither is a `#` line that is the first or last line. */
  lemma HeadingIff(lines: Lines, pos: nat)
    requires pos < |lines|
    ensures IsHeading(lines, pos) <==>
      && 0 < pos < |lines| - 1
      && IsBlank(lines[pos - 1]) && IsBlank(lines[pos + 1])
      && HashesThenSpace(lines[pos])
  {
    HashLineIff(lines[pos]);
  }

  /** The line tests of `isHeading`: not the bare "#", starts with `#`, and a space
      after the `#` run. */
  predicate HashLine(line: Bytes)
  {
    line != [HASH] && [HASH] <= line && [SPACE] <= TrimLeft(line, {HASH})
  }

  lemma HashLineIff(line: Bytes)
    ensures HashLine(line) <==> HashesThenSpace(line)
  {
    if HashLine(line) {
      HashLineRun(line);
    }
    if HashesThenSpace(line) {
      RunHashLine(line);
    }
  }

  lemma HashLineRun(line: Bytes)
    requires HashLine(line)
    ensures HashesThenSpace(line)
  {
    var u := TrimLeft(line, {HASH});
    var n := |line| - |u|;
    AllInIff(line[..n], {HASH});
    assert line[n] == SPACE;
  }

  lemma RunHashLine(line: Bytes)
    requires HashesThenSpace(line)
    ensures HashLine(line)
  {
    var k :| 0 < k < |line| && AllIn(line[..k], {HASH}) && line[k] == SPACE;
    AllInIff(line[..k], {HASH});
    assert line[0] == HASH;
    var u := TrimLeft(line, {HASH});
    assert |line| - |u| == k;
    assert [SPACE] <= u;
  }

  /** The bytes of `cut` that `s` starts with. */
  function LeadOf(s: Bytes, cut: set<byte>): Bytes
  {
    s[..|s| - |TrimLeft(s, cut)|]
  }

  /** The bytes of `cut` that `s` ends with. */
  function TailOf(s: Bytes, cut: set<byte>): Bytes
  {
    s[|TrimRight(s, cut)|..]
  }

  /** The `#` run a heading line starts with. */
  function HeadingHashes(line: Bytes): Bytes
  {
    LeadOf(line, {HASH})
  }

  /** The white space between a heading's `#` run and its text. */
  function HeadingPre(line: Bytes): Bytes
  {
    LeadOf(TrimLeft(line, {HASH}), Space)
  }

  /** The white space after a heading's text. */
  function HeadingPost(line: Bytes): Bytes
  {
    TailOf(TrimLeft(TrimLeft(line, {HASH}), Space), Space)
  }

  /** `line` reads as a `#` run, a space and possibly more white space, `text`, and
      trailing white space; `text` neither starts nor ends with white space. */
  predicate HeadingLayout(line: Bytes, hashes: Bytes, pre: Bytes, text: Bytes, post: Bytes)
  {
    && line == hashes + pre + text + post
    && |hashes| > 0 && (forall k :: 0 <= k < |hashes| ==> hashes[k] == HASH)
    && |pre| > 0 && pre[0] == SPACE && (forall k :: 0 <= k < |pre| ==> pre[k] in Space)
    && (forall k :: 0 <= k < |post| ==> post[k] in Space)
    && (|text| > 0 ==> text[0] !in Space && text[|text| - 1] !in Space)
  }

  /** A heading's line is its `#` run, the white space after it, the heading's text and
      trailing white space. */
  lemma HeadingLayoutOf(lines: Lines, pos: nat)
    requires pos < |lines| && IsHeading(lines, pos)
    ensures var line := lines[pos];
      HeadingLayout(line, HeadingHashes(line), HeadingPre(line), HeadingText(line), HeadingPost(line))
  {
    HashLineLayout(lines[pos]);
  }

  /** The layout of any line passing the line tests of `isHeading`. */
  lemma HashLineLayout(line: Bytes)
    requires HashLine(line)
    ensures HeadingLayout(line, HeadingHashes(line), HeadingPre(line), HeadingText(line), HeadingPost(line))
  {
    var u := TrimLeft(line, {HASH});
    HeadingPieces(line, u, TrimLeft(u, Space), HeadingHashes(line), HeadingPre(line), HeadingText(line), HeadingPost(line));
  }

  /** The heading pieces of a line, named. */
  lemma HeadingPieces(line: Bytes, u: Bytes, v: Bytes, hashes: Bytes, pre: Bytes, text: Bytes, post: Bytes)
    requires HashLine(line) && u == TrimLeft(line, {HASH}) && v == TrimLeft(u, Space)
    requires hashes == HeadingHashes(line) && pre == HeadingPre(line)
    requires text == HeadingText(line) && post == HeadingPost(line)
    ensures HeadingLayout(line, hashes, pre, text, post)
  {
    HashFacts(line, u, hashes);
    assert pre == LeadOf(u, Space);
    PreFacts(u, v, pre);
    assert text == TrimRight(v, Space) && post == TailOf(v, Space);
    PostFacts(v, text, post);
    HeadingAssemble(line, hashes, u, pre, v, text, post);
  }

  lemma HashFacts(line: Bytes, u: Bytes, hashes: Bytes)
    requires HashLine(line) && u == TrimLeft(line, {HASH}) && hashes == HeadingHashes(line)
    ensures line == hashes + u && |hashes| > 0 && (forall k :: 0 <= k < |hashes| ==> hashes[k] == HASH)
    ensures |u| > 0 && u[0] == SPACE
  {
    HashRun(line);
  }

  lemma PreFacts(u: Bytes, v: Bytes, pre: Bytes)
    requires |u| > 0 && u[0] == SPACE && v == TrimLeft(u, Space) && pre == LeadOf(u, Space)
    ensures u == pre + v && (forall k :: 0 <= k < |pre| ==> pre[k] in Space)
    ensures |pre| > 0 && pre[0] == u[0] && (|v| > 0 ==> v[0] !in Space)
  {
    LeadSplit(u, Space);
  }

  lemma PostFacts(v: Bytes, text: Bytes, post: Bytes)
    requires text == TrimRight(v, Space) && post == TailOf(v, Space)
    ensures v == text + post && (forall k :: 0 <= k < |post| ==> post[k] in Space)
    ensures |text| > 0 ==> text[0] == v[0] && text[|text| - 1] !in Space
  {
    TailSplit(v, Space);
  }

  /** The `#` run of a line that passes the line tests of `isHeading`, and what follows it. */
  lemma HashRun(line: Bytes)
    requires HashLine(line)
    ensures var u := TrimLeft(line, {HASH});
      && line == HeadingHashes(line) + u
      && |HeadingHashes(line)| > 0 && (forall k :: 0 <= k < |HeadingHashes(line)| ==> HeadingHashes(line)[k] == HASH)
      && |u| > 0 && u[0] == SPACE
  {
    var u := TrimLeft(line, {HASH});
    assert u == line[|line| - |u|..];
  }

  /** A string is its leading `cut` bytes followed by the rest, which does not start with
      one. */
  lemma LeadSplit(u: Bytes, cut: set<byte>)
    ensures var v := TrimLeft(u, cut);
      && u == LeadOf(u, cut) + v
      && (forall k :: 0 <= k < |LeadOf(u, cut)| ==> LeadOf(u, cut)[k] in cut)
      && (|u| > 0 && u[0] in cut ==> |LeadOf(u, cut)| > 0 && LeadOf(u, cut)[0] == u[0])
      && (|v| > 0 ==> v[0] !in cut)
  {
    var v := TrimLeft(u, cut);
    assert v == u[|u| - |v|..];
  }

  /** A string is what `TrimRight` keeps followed by its trailing `cut` bytes. */
  lemma TailSplit(v: Bytes, cut: set<byte>)
    ensures var text := TrimRight(v, cut);
      && v == text + TailOf(v, cut)
      && (forall k :: 0 <= k < |TailOf(v, cut)| ==> TailOf(v, cut)[k] in cut)
      && (|text| > 0 ==> text[0] == v[0] && text[|text| - 1] !in cut)
  {
    var text := TrimRight(v, cut);
    assert text == v[..|text|];
  }

  /** Pieces with the shapes of a heading make up a heading layout. */
  lemma HeadingAssemble(line: Bytes, hashes: Bytes, u: Bytes, pre: Bytes, v: Bytes, text: Bytes, post: Bytes)
    requires line == hashes + u && u == pre + v && v == text + post
    requires |hashes| > 0 && forall k :: 0 <= k < |hashes| ==> hashes[k] == HASH
    requires |u| > 0 && u[0] == SPACE && (|pre| > 0 ==> pre[0] == u[0])
    requires u[0] in Space ==> |pre| > 0
    requires forall k :: 0 <= k < |pre| ==> pre[k] in Space
    requires forall k :: 0 <= k < |post| ==> post[k] in Space
    requires |text| > 0 ==> text[0] == v[0] && text[0] !in Space && text[|text| - 1] !in Space
    ensures HeadingLayout(line, hashes, pre, text, post)
  {
    SplitThree(line, hashes, u, pre, v, text, post);
  }

  lemma SplitThree(line: Bytes, a: Bytes, u: Bytes, b: Bytes, v: Bytes, c: Bytes, d: Bytes)
    requires line == a + u && u == b + v && v == c + d
    ensures line == a + b + c + d
  {
  }

  /** Conversely, a line laid out as a `#` run, white space starting with a space, text
      and white space passes the line tests of `isHeading`, and its heading text is that
      text. */
  lemma HeadingLayoutUnique(line: Bytes, hashes: Bytes, pre: Bytes, text: Bytes, post: Bytes)
    requires HeadingLayout(line, hashes, pre, text, post)
    ensures HashLine(line)
    ensures hashes == HeadingHashes(line) && text == HeadingText(line)
  {
    var rest := pre + text + post;
    assert line == hashes + rest;
    TrimLeftAfter(hashes, rest, {HASH});
    assert TrimLeft(line, {HASH}) == rest;
    TrimSpaceLayout(pre, text, post);
  }

  /** Trimming white space off text surrounded by white space leaves the text. */
  lemma TrimSpaceLayout(pre: Bytes, text: Bytes, post: Bytes)
    requires forall k :: 0 <= k < |pre| ==> pre[k] in Space
    requires forall k :: 0 <= k < |post| ==> post[k] in Space
    requires |text| > 0 ==> text[0] !in Space && text[|text| - 1] !in Space
    ensures TrimSpace(pre + text + post) == text
  {
    var rest := pre + text + post;
    if |text| > 0 {
      assert rest == pre + (text + post);
      TrimLeftAfter(pre, text + post, Space);
      TrimRightBefore(text, post, Space);
    } else {
      assert rest == (pre + post) + [];
      TrimLeftAfter(pre + post, [], Space);
    }
  }

  /** A `+` line is neither blank nor indented. */
  lemma PlusStart(line: Bytes)
    requires StartsWithPlus(line)
    ensures !IsBlank(line) && !StartsIndented(line)
  {
  }

  /** A `#` line is neither blank nor indented, nor a `+` line. */
  lemma HashStart(line: Bytes)
    requires |line| > 0 && line[0] == HASH
    ensures !IsBlank(line) && !StartsIndented(line) && !StartsWithPlus(line)
  {
  }

  /** A `#` line is not a list item. */
  lemma HashNotItem(line: Bytes)
    requires |line| > 0 && line[0] == HASH
    ensures !IsListItem(line)
  {
    UnindentedItem(line);
    assert AlnumEnd(line, 0) == 0;
  }

  /** A heading line is never blank, indented, a `+` line or a list item, so it is read
      as a heading exactly where `isHeading` holds. */
  lemma ClassifyHeading(lines: Lines, pos: nat)
    requires pos < |lines|
    ensures Classify(lines, pos) == HeadingLine <==> IsHeading(lines, pos)
  {
    if IsHeading(lines, pos) {
      assert lines[pos][0] == HASH;
      HashStart(lines[pos]);
      HashNotItem(lines[pos]);
    }
  }
}
