/**
 * `_split_into_batches` of the Telegram and WeWork notifiers: a message longer
 * than the channel allows is cut at line boundaries into batches, packing lines
 * greedily, with the size measured in UTF-8 bytes (section 3 of RFC 3629).
 * Both notifiers carry the same code; only their byte limits differ.
 */
module Batching {
  import opened Wrappers
  import opened Text

  /** The text a group of lines takes in a batch under construction: each line followed by "\n". */
  function Block(lines: seq<string>): string
    decreases |lines|
  {
    if |lines| == 0 then "" else Block(lines[..|lines| - 1]) + lines[|lines| - 1] + "\n"
  }

  /** The groups' lines, one after the other. */
  function Flatten(groups: seq<seq<string>>): seq<string>
    decreases |groups|
  {
    if |groups| == 0 then [] else Flatten(groups[..|groups| - 1]) + groups[|groups| - 1]
  }

  /** The line does not fit in the group: the group's text with the line added exceeds `maxBytes`. */
  predicate Overflows(group: seq<string>, line: string, maxBytes: int) {
    Utf8Len(Block(group + [line])) > maxBytes
  }

  /** One step of the packing: the line joins the last group, or starts a new one when it overflows it. */
  function Step(groups: seq<seq<string>>, line: string, maxBytes: int): (r: seq<seq<string>>)
    ensures |r| > 0
  {
    if |groups| == 0 || Overflows(groups[|groups| - 1], line, maxBytes) then groups + [[line]]
    else groups[..|groups| - 1] + [groups[|groups| - 1] + [line]]
  }

  /** Greedy packing of the lines into groups, one step per line. */
  function Pack(lines: seq<string>, maxBytes: int): (groups: seq<seq<string>>)
    ensures |groups| == 0 <==> |lines| == 0
    decreases |lines|
  {
    if |lines| == 0 then [] else Step(Pack(lines[..|lines| - 1], maxBytes), lines[|lines| - 1], maxBytes)
  }

  /** Each group's text, right-trimmed. */
  function Trimmed(groups: seq<seq<string>>): (r: seq<string>)
    ensures |r| == |groups|
    decreases |groups|
  {
    if |groups| == 0 then [] else Trimmed(groups[..|groups| - 1]) + [StripRight(Block(groups[|groups| - 1]))]
  }

  /** The batches `_split_into_batches` returns. */
  function BatchesOf(content: string, maxBytes: int): seq<string> {
    if Utf8Len(content) <= maxBytes then [content]
    else
      var batches := Trimmed(Pack(Split(content, "\n"), maxBytes));
      if |batches| > 0 then batches else [content]
  }

  // ---------------------------------------------------------------------------
  // What the packing guarantees
  // ---------------------------------------------------------------------------

  lemma {:induction false} TrimmedAt(groups: seq<seq<string>>, k: nat)
    requires k < |groups|
    ensures Trimmed(groups)[k] == StripRight(Block(groups[k]))
    decreases |groups|
  {
    if k < |groups| - 1 {
      TrimmedAt(groups[..|groups| - 1], k);
    }
  }

  /** Every group holds at least one line. */
  predicate NonEmptyGroups(groups: seq<seq<string>>) {
    forall k :: 0 <= k < |groups| ==> |groups[k]| > 0
  }

  /** Every group fits in `maxBytes`, except a group of one line. */
  predicate GroupsFit(groups: seq<seq<string>>, maxBytes: int) {
    forall k :: 0 <= k < |groups| ==> |groups[k]| == 1 || Utf8Len(Block(groups[k])) <= maxBytes
  }

  /** Each group was closed only because the first line of the next one did not fit in it. */
  predicate ClosedWhenFull(groups: seq<seq<string>>, maxBytes: int) {
    forall k :: 0 < k < |groups| ==> |groups[k]| > 0 && Overflows(groups[k - 1], groups[k][0], maxBytes)
  }

  lemma StepKeepsLines(groups: seq<seq<string>>, line: string, maxBytes: int)
    ensures Flatten(Step(groups, line, maxBytes)) == Flatten(groups) + [line]
  {
    var out := Step(groups, line, maxBytes);
    if |groups| == 0 || Overflows(groups[|groups| - 1], line, maxBytes) {
      assert out[..|out| - 1] == groups;
    } else {
      var last := groups[|groups| - 1];
      assert out[..|out| - 1] == groups[..|groups| - 1];
      assert Flatten(out) == Flatten(groups[..|groups| - 1]) + (last + [line]);
    }
  }

  lemma StepKeepsShape(groups: seq<seq<string>>, line: string, maxBytes: int)
    requires NonEmptyGroups(groups) && GroupsFit(groups, maxBytes) && ClosedWhenFull(groups, maxBytes)
    ensures var out := Step(groups, line, maxBytes);
      NonEmptyGroups(out) && GroupsFit(out, maxBytes) && ClosedWhenFull(out, maxBytes)
  {
    var n := |groups|;
    if n == 0 || Overflows(groups[n - 1], line, maxBytes) {
      OpenKeepsShape(groups, line, maxBytes);
    } else {
      ExtendKeepsShape(groups, line, maxBytes);
    }
  }

  /** A line that does not fit opens a group of its own. */
  lemma OpenKeepsShape(groups: seq<seq<string>>, line: string, maxBytes: int)
    requires NonEmptyGroups(groups) && GroupsFit(groups, maxBytes) && ClosedWhenFull(groups, maxBytes)
    requires |groups| == 0 || Overflows(groups[|groups| - 1], line, maxBytes)
    ensures var out := groups + [[line]];
      NonEmptyGroups(out) && GroupsFit(out, maxBytes) && ClosedWhenFull(out, maxBytes)
  {
    var out := groups + [[line]];
    var n := |groups|;
    forall k | 0 <= k < |out|
      ensures |out[k]| > 0 && (|out[k]| == 1 || Utf8Len(Block(out[k])) <= maxBytes)
    {
      if k < n {
        assert out[k] == groups[k];
      }
    }
    forall k | 0 < k < |out|
      ensures |out[k]| > 0 && Overflows(out[k - 1], out[k][0], maxBytes)
    {
      if k < n {
        assert out[k] == groups[k] && out[k - 1] == groups[k - 1];
      } else {
        assert out[k - 1] == groups[n - 1] && out[k][0] == line;
      }
    }
  }

  /** A line that fits joins the last group. */
  lemma ExtendKeepsShape(groups: seq<seq<string>>, line: string, maxBytes: int)
    requires NonEmptyGroups(groups) && GroupsFit(groups, maxBytes) && ClosedWhenFull(groups, maxBytes)
    requires |groups| > 0 && !Overflows(groups[|groups| - 1], line, maxBytes)
    ensures var out := groups[..|groups| - 1] + [groups[|groups| - 1] + [line]];
      NonEmptyGroups(out) && GroupsFit(out, maxBytes) && ClosedWhenFull(out, maxBytes)
  {
    var n := |groups|;
    var last := groups[n - 1];
    var out := groups[..n - 1] + [last + [line]];
    assert out[n - 1] == last + [line] && out[n - 1][0] == last[0];
    forall k | 0 <= k < |out|
      ensures |out[k]| > 0 && (|out[k]| == 1 || Utf8Len(Block(out[k])) <= maxBytes)
    {
      if k < n - 1 {
        assert out[k] == groups[k];
      }
    }
    forall k | 0 < k < |out|
      ensures |out[k]| > 0 && Overflows(out[k - 1], out[k][0], maxBytes)
    {
      assert out[k - 1] == groups[k - 1];
      if k < n - 1 {
        assert out[k] == groups[k];
      }
    }
  }

  /** No line is lost, duplicated or moved: the groups hold the lines in order. */
  lemma {:induction false} PackKeepsLines(lines: seq<string>, maxBytes: int)
    ensures Flatten(Pack(lines, maxBytes)) == lines
    decreases |lines|
  {
    if |lines| > 0 {
      var init := lines[..|lines| - 1];
      PackKeepsLines(init, maxBytes);
      StepKeepsLines(Pack(init, maxBytes), lines[|lines| - 1], maxBytes);
      assert init + [lines[|lines| - 1]] == lines;
    }
  }

  /**
   * The groups are non-empty, each fits unless it is a single line, and each
   * was closed only when the next line would not have fitted in it.
   */
  lemma {:induction false} PackShape(lines: seq<string>, maxBytes: int)
    ensures NonEmptyGroups(Pack(lines, maxBytes))
    ensures GroupsFit(Pack(lines, maxBytes), maxBytes)
    ensures ClosedWhenFull(Pack(lines, maxBytes), maxBytes)
    decreases |lines|
  {
    if |lines| > 0 {
      PackShape(lines[..|lines| - 1], maxBytes);
      StepKeepsShape(Pack(lines[..|lines| - 1], maxBytes), lines[|lines| - 1], maxBytes);
    }
  }

  /** Right-trimming only drops trailing whitespace, so a batch is never longer than its group's text. */
  lemma TrimOnlyDropsSpace(s: string)
    ensures s[..|StripRight(s)|] == StripRight(s)
    ensures forall i :: |StripRight(s)| <= i < |s| ==> IsSpace(s[i])
    ensures Utf8Len(StripRight(s)) <= Utf8Len(s)
  {
    StripRightShape(s);
    var r := StripRight(s);
    assert s == r + s[|r|..];
    Utf8LenConcat(r, s[|r|..]);
  }

  /** Content that fits is sent as it is, in one batch. */
  lemma FitsInOneBatch(content: string, maxBytes: int)
    requires Utf8Len(content) <= maxBytes
    ensures BatchesOf(content, maxBytes) == [content]
  {
  }

  /**
   * Content that does not fit: one batch per group of the greedy packing of its
   * lines, each batch the group's text minus trailing whitespace.
   */
  lemma BatchesOfLongContent(content: string, maxBytes: int)
    requires Utf8Len(content) > maxBytes
    ensures var groups := Pack(Split(content, "\n"), maxBytes);
      && Flatten(groups) == Split(content, "\n")
      && |BatchesOf(content, maxBytes)| == |groups|
      && forall k :: 0 <= k < |groups| ==> BatchesOf(content, maxBytes)[k] == StripRight(Block(groups[k]))
  {
    var groups := Pack(Split(content, "\n"), maxBytes);
    PackKeepsLines(Split(content, "\n"), maxBytes);
    forall k | 0 <= k < |groups|
      ensures Trimmed(groups)[k] == StripRight(Block(groups[k]))
    {
      TrimmedAt(groups, k);
    }
  }

  /** There is always at least one batch. */
  lemma NeverEmpty(content: string, maxBytes: int)
    ensures |BatchesOf(content, maxBytes)| >= 1
  {
  }

  /** Every batch fits in `maxBytes`, unless it is a single line that is too long on its own. */
  lemma BatchesFit(content: string, maxBytes: int, k: nat)
    requires k < |BatchesOf(content, maxBytes)|
    ensures || Utf8Len(BatchesOf(content, maxBytes)[k]) <= maxBytes
            || exists line :: line in Split(content, "\n") && BatchesOf(content, maxBytes)[k] == StripRight(line + "\n")
  {
    if Utf8Len(content) > maxBytes {
      var lines := Split(content, "\n");
      var groups := Pack(lines, maxBytes);
      BatchesOfLongContent(content, maxBytes);
      PackShape(lines, maxBytes);
      PackKeepsLines(lines, maxBytes);
      GroupBatchFits(groups[k], maxBytes);
      FlattenHolds(groups, k, 0);
    }
  }

  /** A group's batch fits, or the group is a single line. */
  lemma GroupBatchFits(g: seq<string>, maxBytes: int)
    requires |g| > 0
    requires |g| == 1 || Utf8Len(Block(g)) <= maxBytes
    ensures Utf8Len(StripRight(Block(g))) <= maxBytes || StripRight(Block(g)) == StripRight(g[0] + "\n")
  {
    if |g| == 1 {
      SingleLineBlock(g);
    } else {
      TrimOnlyDropsSpace(Block(g));
    }
  }

  /** A group of one line is that line and its line break. */
  lemma SingleLineBlock(g: seq<string>)
    requires |g| == 1
    ensures Block(g) == g[0] + "\n"
  {
    assert g[..0] == [];
  }

  /** A line of a group is one of the packed lines. */
  lemma {:induction false} FlattenHolds(groups: seq<seq<string>>, k: nat, j: nat)
    requires k < |groups| && j < |groups[k]|
    ensures groups[k][j] in Flatten(groups)
    decreases |groups|
  {
    var init := groups[..|groups| - 1];
    assert Flatten(groups) == Flatten(init) + groups[|groups| - 1];
    if k < |groups| - 1 {
      FlattenHolds(init, k, j);
      assert init[k] == groups[k];
    } else {
      assert Flatten(groups)[|Flatten(init)| + j] == groups[k][j];
    }
  }

  // ---------------------------------------------------------------------------
  // The loop
  // ---------------------------------------------------------------------------

  /** `_split_into_batches(content)` with the notifier's byte limit. */
  method SplitIntoBatches(content: string, maxBytes: int) returns (batches: seq<string>)
    ensures batches == BatchesOf(content, maxBytes)
  {
    if Utf8Len(content) <= maxBytes {
      return [content];
    }
    batches := [];
    var current := "";
    var lines := Split(content, "\n");
    var i := 0;
    ghost var groups: seq<seq<string>> := [];
    assert groups == Pack(lines[..0], maxBytes);
    while i < |lines|
      invariant 0 <= i <= |lines|
      invariant groups == Pack(lines[..i], maxBytes)
      invariant LoopState(groups, batches, current)
    {
      assert lines[..i + 1][..i] == lines[..i];
      batches, current := AddLine(groups, batches, current, lines[i], maxBytes);
      groups := Step(groups, lines[i], maxBytes);
      i := i + 1;
      assert groups == Pack(lines[..i], maxBytes);
    }
    assert lines[..i] == lines;
    LastBatch(groups, current);
    if current != "" {
      batches := batches + [StripRight(current)];
    }
    if |batches| == 0 {
      batches := [content];
    }
  }

  /** One turn of the loop: the line is tried against the open batch. */
  method AddLine(ghost groups: seq<seq<string>>, batches: seq<string>, current: string, line: string, maxBytes: int)
    returns (batches': seq<string>, current': string)
    requires LoopState(groups, batches, current)
    ensures Current(Step(groups, line, maxBytes), current') && batches' == Closed(Step(groups, line, maxBytes))
  {
    var test := current + line + "\n";
    FirstLine(line, maxBytes);
    if |groups| > 0 {
      OverflowsWhen(groups[|groups| - 1], line, current, maxBytes);
      StepState(groups, line, maxBytes);
    }
    batches' := batches;
    if Utf8Len(test) > maxBytes {
      if current != "" {
        batches' := batches + [StripRight(current)];
      }
      current' := line + "\n";
    } else {
      current' := test;
    }
  }

  /** Before the first line nothing is open; afterwards the last group is. */
  predicate LoopState(groups: seq<seq<string>>, batches: seq<string>, current: string) {
    || (|groups| == 0 && current == "" && batches == [])
    || (Current(groups, current) && batches == Closed(groups))
  }

  /** After the last line the open batch is non-empty and closing it gives every group's batch. */
  lemma LastBatch(groups: seq<seq<string>>, current: string)
    requires Current(groups, current)
    ensures current != ""
    ensures Closed(groups) + [StripRight(current)] == Trimmed(groups)
  {
    var last := groups[|groups| - 1];
    assert groups == groups[..|groups| - 1] + [last];
    assert |Block(last)| > 0;
  }

  /** `current` is the text of the last, still open, group. */
  predicate Current(groups: seq<seq<string>>, current: string) {
    |groups| > 0 && |groups[|groups| - 1]| > 0 && current == Block(groups[|groups| - 1])
  }

  /** The batches already closed: all groups but the last. */
  function Closed(groups: seq<seq<string>>): seq<string>
    requires |groups| > 0
  {
    Trimmed(groups[..|groups| - 1])
  }

  lemma FirstLine(line: string, maxBytes: int)
    ensures Step([], line, maxBytes) == [[line]]
    ensures Block([line]) == line + "\n" == "" + line + "\n"
    ensures Closed([[line]]) == []
  {
    assert [[line]][..0] == [];
    assert [line][..0] == [];
  }

  lemma OverflowsWhen(group: seq<string>, line: string, current: string, maxBytes: int)
    requires current == Block(group)
    ensures Block(group + [line]) == current + line + "\n"
    ensures Overflows(group, line, maxBytes) <==> Utf8Len(current + line + "\n") > maxBytes
  {
    assert (group + [line])[..|group|] == group;
  }

  /** How one step moves the open group and the closed batches. */
  lemma StepState(groups: seq<seq<string>>, line: string, maxBytes: int)
    requires |groups| > 0
    ensures var last := groups[|groups| - 1];
      var out := Step(groups, line, maxBytes);
      if Overflows(last, line, maxBytes) then
        Closed(out) == Closed(groups) + [StripRight(Block(last))] && out[|out| - 1] == [line]
      else
        Closed(out) == Closed(groups) && out[|out| - 1] == last + [line]
  {
    var last := groups[|groups| - 1];
    var out := Step(groups, line, maxBytes);
    if Overflows(last, line, maxBytes) {
      assert out[..|out| - 1] == groups;
      assert groups[..|groups| - 1] + [last] == groups;
    } else {
      assert out[..|out| - 1] == groups[..|groups| - 1];
    }
  }

  // ---------------------------------------------------------------------------
  // Batch headers
  // ---------------------------------------------------------------------------

  /** "第 i/n 批次" between the notifier's markup. */
  function Header(i: nat, n: nat, open: string, close: string): (h: string)
    ensures StartsWith(h, open + "第 ")
    ensures ReadRatio(h[|open| + 2..], " 批次") == Some((i as int, n as int, close + "\n\n"))
  {
    var h := open + "第 " + RatioText(i, n) + " 批次" + close + "\n\n";
    assert h[..|open| + 2] == open + "第 ";
    assert h[|open| + 2..] == RatioText(i, n) + " 批次" + (close + "\n\n");
    ReadRatioOf(i, n, " 批次", close + "\n\n");
    h
  }

  /** The texts `send` posts: each batch, behind a numbered header when there is more than one batch. */
  function Labelled(batches: seq<string>, open: string, close: string): (r: seq<string>)
    ensures |r| == |batches|
    ensures |batches| <= 1 ==> r == batches
    ensures forall k :: 0 <= k < |r| ==> |r[k]| >= |batches[k]| && r[k][|r[k]| - |batches[k]|..] == batches[k]
    ensures |batches| > 1 ==> forall k :: 0 <= k < |r| ==> StartsWith(r[k], open + "第 ")
    ensures |batches| > 1 ==> forall k :: 0 <= k < |r| ==>
      var h := r[k][..|r[k]| - |batches[k]|];
      StartsWith(h, open + "第 ") && ReadRatio(h[|open| + 2..], " 批次") == Some((k + 1, |batches|, close + "\n\n"))
  {
    if |batches| <= 1 then batches
    else seq(|batches|, k requires 0 <= k < |batches| => Header(k + 1, |batches|, open, close) + batches[k])
  }
}
