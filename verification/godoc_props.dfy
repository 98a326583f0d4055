/** Properties of the doc-comment parser: what the main loop consumes, how lines are
    classified, and the shape of each kind of element. */
module GoDocProps {
  import opened Bytes
  import opened Seqs
  import opened GoDoc

  // ---------------------------------------------------------------------------
  // The main loop

  /** Blocks in line order, none overlapping the next. */
  predicate Ordered(bs: seq<Block>)
  {
    forall i, j :: 0 <= i < j < |bs| ==> bs[i].end <= bs[j].start
  }

  lemma ConsOrdered(b: Block, rest: seq<Block>)
    requires Ordered(rest)
    requires forall c :: c in rest ==> b.end <= c.start
    ensures Ordered([b] + rest)
  {
    var bs := [b] + rest;
    forall i, j | 0 <= i < j < |bs| ensures bs[i].end <= bs[j].start {
      assert bs[j] == rest[j - 1];
      if i > 0 {
        assert bs[i] == rest[i - 1];
      }
    }
  }

  /** Blocks come in line order and never overlap, so elements appear in the order of
      the lines that start them. */
  lemma {:induction false} BlocksOrdered(lines: Lines, pos: nat)
    requires pos <= |lines|
    ensures Ordered(Blocks(lines, pos))
    decreases |lines| - pos
  {
    if pos < |lines| {
      var m := Step(lines, pos);
      BlocksOrdered(lines, m.next);
      if m.Emit? {
        ConsOrdered(Block(pos, m.next, m.elem), Blocks(lines, m.next));
      }
    }
  }

  /** Every non-blank line from `pos` on is consumed by exactly one block: blank lines are
      the only ones the loop skips. */
  lemma {:induction false} BlocksCover(lines: Lines, pos: nat)
    requires pos <= |lines|
    ensures forall k :: pos <= k < |lines| && !IsBlank(lines[k]) ==>
              exists b :: b in Blocks(lines, pos) && b.start <= k < b.end
    decreases |lines| - pos
  {
    if pos < |lines| {
      var m := Step(lines, pos);
      BlocksCover(lines, m.next);
      var rest := Blocks(lines, m.next);
      if m.Emit? {
        var b := Block(pos, m.next, m.elem);
        assert Blocks(lines, pos) == [b] + rest;
        assert b in Blocks(lines, pos);
      }
    }
  }

  /** No block is produced from `pos` on exactly when every remaining line is blank. */
  lemma {:induction false} BlocksEmptyIff(lines: Lines, pos: nat)
    requires pos <= |lines|
    ensures Blocks(lines, pos) == [] <==> forall k :: pos <= k < |lines| ==> IsBlank(lines[k])
    decreases |lines| - pos
  {
    if pos < |lines| {
      var m := Step(lines, pos);
      BlocksEmptyIff(lines, m.next);
    }
  }

  /** An empty or all-white-space comment, and only such a comment, yields no elements. */
  lemma ParseEmptyIff(comment: Bytes)
    ensures Parse(comment) == [] <==> AllIn(comment, Space)
  {
    var lines := SplitLines(comment);
    BlocksEmptyIff(lines, 0);
    AllInIff(comment, Space);
    var P := (b: byte) => b in Space;
    if AllIn(comment, Space) {
      JoinElementsBack(lines, NL, P);
      forall k | 0 <= k < |lines| ensures IsBlank(lines[k]) {
        AllInIff(lines[k], Space);
      }
    }
    if forall k :: 0 <= k < |lines| ==> IsBlank(lines[k]) {
      forall k | 0 <= k < |lines| ensures forall j :: 0 <= j < |lines[k]| ==> P(lines[k][j]) {
        AllInIff(lines[k], Space);
      }
      JoinElements(lines, NL, P);
    }
  }
}
