/**
 * The side-by-side renderer behind `StateSet`'s display. A `TextBox` collects the printed
 * lines of several states: each state goes to the right of the ones before it while the total
 * width stays within `maxWidth`, and otherwise the current block is closed with an empty line
 * and the state starts a new block.
 */
module TextBoxes {
  import opened Text

  const TEXT_BOX_PADDING: nat := 4
  const TEXT_BOX_WIDTH: nat := 90

  /** Row `k` of `lines`, or the empty row when there are not that many. */
  function RowOf(lines: seq<string>, k: nat): string {
    if k < |lines| then lines[k] else ""
  }

  /** `s` filled with spaces on the right up to `col` characters; unchanged if already that long. */
  function PadTo(s: string, col: nat): (r: string)
    ensures |r| == Max(|s|, col)
    ensures r[..|s|] == s
    ensures forall i :: |s| <= i < |r| ==> r[i] == ' '
  {
    if col > |s| then s + Spaces(col - |s|) else s
  }

  /** The rows after `print_line(row, col, line)`. */
  function Printed(lines: seq<string>, row: nat, col: nat, line: string): (r: seq<string>)
    ensures |r| == Max(|lines|, row + 1)
    ensures forall k :: 0 <= k < |r| && k != row ==> r[k] == RowOf(lines, k)
    ensures r[row] == PadTo(RowOf(lines, row), col) + line
  {
    var grown := if row < |lines| then lines else lines + seq(row + 1 - |lines|, _ => "");
    grown[row := PadTo(grown[row], col) + line]
  }

  /** The character count of the longest line, 0 when there is none. */
  function Longest(ls: seq<string>): (w: nat)
    ensures forall k :: 0 <= k < |ls| ==> |ls[k]| <= w
  {
    if ls == [] then 0 else Max(Longest(ls[..|ls| - 1]), |ls[|ls| - 1]|)
  }

  /** The longest line is one of the lines; with no lines the width is 0. */
  lemma {:induction false} LongestAttained(ls: seq<string>) returns (k: nat)
    requires ls != []
    ensures k < |ls| && |ls[k]| == Longest(ls)
  {
    var n := |ls| - 1;
    if n == 0 || |ls[n]| >= Longest(ls[..n]) {
      k := n;
    } else {
      k := LongestAttained(ls[..n]);
    }
  }

  /** The rows after printing `sls[k]` at row `k`, column `col`, for each `k` in turn. */
  function PlaceAll(lines: seq<string>, sls: seq<string>, col: nat): seq<string> {
    if sls == [] then lines
    else Printed(PlaceAll(lines, sls[..|sls| - 1], col), |sls| - 1, col, sls[|sls| - 1])
  }

  /** Printing one more line extends `PlaceAll` by one `print_line`. */
  lemma PlaceAllSnoc(lines: seq<string>, sls: seq<string>, i: nat, col: nat)
    requires i < |sls|
    ensures PlaceAll(lines, sls[..i + 1], col) == Printed(PlaceAll(lines, sls[..i], col), i, col, sls[i])
  {
    assert sls[..i + 1][..i] == sls[..i];
  }

  /** Each printed line lands on its own row after that row's padding; rows below it stay as they were. */
  lemma {:induction false} PlaceAllRows(lines: seq<string>, sls: seq<string>, col: nat)
    ensures |PlaceAll(lines, sls, col)| == Max(|lines|, |sls|)
    ensures forall k :: 0 <= k < |sls| ==> PlaceAll(lines, sls, col)[k] == PadTo(RowOf(lines, k), col) + sls[k]
    ensures forall k :: |sls| <= k < |lines| ==> PlaceAll(lines, sls, col)[k] == lines[k]
  {
    if sls != [] {
      var n := |sls| - 1;
      var init := sls[..n];
      PlaceAllRows(lines, init, col);
      var p := PlaceAll(lines, init, col);
      assert RowOf(p, n) == RowOf(lines, n);
      forall k | 0 <= k < n
        ensures PlaceAll(lines, sls, col)[k] == PadTo(RowOf(lines, k), col) + sls[k]
      {
        assert sls[k] == init[k];
      }
    }
  }

  /** On rows no longer than `col`, each printed line starts exactly at column `col`. */
  lemma PlaceAllBeside(lines: seq<string>, sls: seq<string>, col: nat)
    requires forall k :: 0 <= k < |lines| ==> |lines[k]| < col
    ensures forall k :: 0 <= k < |sls| ==>
      PlaceAll(lines, sls, col)[k] == RowOf(lines, k) + Spaces(col - |RowOf(lines, k)|) + sls[k]
  {
    PlaceAllRows(lines, sls, col);
    forall k | 0 <= k < |sls|
      ensures PadTo(RowOf(lines, k), col) == RowOf(lines, k) + Spaces(col - |RowOf(lines, k)|)
    {
    }
  }

  /** The state's lines, each after `TEXT_BOX_PADDING` spaces. */
  function Indented(ls: seq<string>): (r: seq<string>)
    ensures |r| == |ls|
  {
    seq(|ls|, k requires 0 <= k < |ls| => Spaces(TEXT_BOX_PADDING) + ls[k])
  }

  /* ---------- the renderer as a value ---------- */

  datatype Box = Box(maxWidth: nat, completed: seq<string>, curWidth: nat, cur: seq<string>)

  /** The width a state takes: its longest line plus the padding before it. */
  function StateWidth(ls: seq<string>): nat {
    Longest(ls) + TEXT_BOX_PADDING
  }

  /** The state's lines go beside the current block: the block is empty or still has room. */
  predicate Fits(b: Box, ls: seq<string>) {
    b.curWidth == 0 || b.curWidth + StateWidth(ls) <= b.maxWidth
  }

  /** The box after `append` of a state whose lines are `ls`. */
  function Appended(b: Box, ls: seq<string>): (r: Box)
    ensures r.maxWidth == b.maxWidth
  {
    if Fits(b, ls) then
      Box(b.maxWidth, b.completed, b.curWidth + StateWidth(ls), PlaceAll(b.cur, ls, b.curWidth + TEXT_BOX_PADDING))
    else
      Box(b.maxWidth, b.completed + b.cur + [""], StateWidth(ls), Indented(ls))
  }

  /** No current line is longer than the current width. */
  predicate Bounded(b: Box) {
    forall k :: 0 <= k < |b.cur| ==> |b.cur[k]| <= b.curWidth
  }

  /**
   * When the state fits, its line `k` is printed on row `k` starting exactly at column
   * `curWidth + 4`, after that row's old text and spaces; the other rows and the finished
   * lines stay as they were.
   */
  lemma AppendSideBySide(b: Box, ls: seq<string>)
    requires Bounded(b) && Fits(b, ls)
    ensures var r := Appended(b, ls); var col := b.curWidth + TEXT_BOX_PADDING;
      && r.completed == b.completed
      && r.curWidth == b.curWidth + StateWidth(ls)
      && |r.cur| == Max(|b.cur|, |ls|)
      && (forall k :: 0 <= k < |ls| ==> r.cur[k] == RowOf(b.cur, k) + Spaces(col - |RowOf(b.cur, k)|) + ls[k])
      && (forall k :: |ls| <= k < |b.cur| ==> r.cur[k] == b.cur[k])
  {
    var col := b.curWidth + TEXT_BOX_PADDING;
    assert Appended(b, ls).cur == PlaceAll(b.cur, ls, col);
    PlaceAllRows(b.cur, ls, col);
    PlaceAllBeside(b.cur, ls, col);
  }

  /**
   * When it does not fit, the current lines and then one empty line are moved to the finished
   * lines, and the state alone, indented, becomes the current block.
   */
  lemma AppendWraps(b: Box, ls: seq<string>)
    requires !Fits(b, ls)
    ensures var r := Appended(b, ls);
      && |r.completed| == |b.completed| + |b.cur| + 1
      && r.completed[..|b.completed|] == b.completed
      && r.completed[|b.completed|..] == b.cur + [""]
      && r.curWidth == StateWidth(ls)
      && |r.cur| == |ls|
      && (forall k :: 0 <= k < |r.cur| ==> r.cur[k] == Spaces(TEXT_BOX_PADDING) + ls[k])
  {
    var r := Appended(b, ls);
    assert r.completed == b.completed + (b.cur + [""]);
  }

  /** `append` keeps every current line within the current width. */
  lemma AppendBounded(b: Box, ls: seq<string>)
    requires Bounded(b)
    ensures Bounded(Appended(b, ls))
  {
    var r := Appended(b, ls);
    if Fits(b, ls) {
      var col := b.curWidth + TEXT_BOX_PADDING;
      assert r.cur == PlaceAll(b.cur, ls, col);
      PlaceAllRows(b.cur, ls, col);
      PlaceAllBeside(b.cur, ls, col);
      forall k | 0 <= k < |r.cur|
        ensures |r.cur[k]| <= r.curWidth
      {
        if k < |ls| {
          assert |ls[k]| <= Longest(ls);
          assert |r.cur[k]| == col + |ls[k]|;
        } else {
          assert r.cur[k] == b.cur[k];
        }
      }
    } else {
      assert r.cur == Indented(ls) && r.curWidth == Longest(ls) + TEXT_BOX_PADDING;
      forall k | 0 <= k < |r.cur|
        ensures |r.cur[k]| <= r.curWidth
      {
        assert |ls[k]| <= Longest(ls);
        assert r.cur[k] == Spaces(TEXT_BOX_PADDING) + ls[k];
      }
    }
  }

  /** The box after appending `states` in order to a new box of width `TEXT_BOX_WIDTH`. */
  function Boxed(states: seq<string>): (b: Box)
    ensures b.maxWidth == TEXT_BOX_WIDTH
  {
    if states == [] then Box(TEXT_BOX_WIDTH, [], 0, [])
    else Appended(Boxed(states[..|states| - 1]), Lines(states[|states| - 1]))
  }

  /** The lines `StateSet` prints: the finished lines, then the current ones. */
  function Rendered(states: seq<string>): seq<string> {
    Boxed(states).completed + Boxed(states).cur
  }

  lemma {:induction false} BoxedBounded(states: seq<string>)
    ensures Bounded(Boxed(states))
  {
    if states != [] {
      BoxedBounded(states[..|states| - 1]);
      AppendBounded(Boxed(states[..|states| - 1]), Lines(states[|states| - 1]));
    }
  }

  /** Finished lines are never taken back: those after fewer states are a prefix of those after more. */
  lemma {:induction false} CompletedOnlyGrows(states: seq<string>, i: nat)
    requires i <= |states|
    ensures Boxed(states[..i]).completed <= Boxed(states).completed
    decreases |states|
  {
    if i < |states| {
      var init := states[..|states| - 1];
      assert init[..i] == states[..i];
      CompletedOnlyGrows(init, i);
      assert states[..|states|] == states;
    } else {
      assert states[..i] == states;
    }
  }

  /** A single state is printed alone, every line indented by the padding. */
  lemma RenderedSingle(state: string)
    ensures Rendered([state]) == Indented(Lines(state))
  {
    var ls := Lines(state);
    var empty := Box(TEXT_BOX_WIDTH, [], 0, []);
    assert [state][..0] == [];
    assert Boxed([state]) == Appended(empty, ls);
    assert Appended(empty, ls) == Box(TEXT_BOX_WIDTH, [], StateWidth(ls), PlaceAll([], ls, TEXT_BOX_PADDING));
    PlaceAllRows([], ls, TEXT_BOX_PADDING);
    PlaceAllBeside([], ls, TEXT_BOX_PADDING);
    assert PlaceAll([], ls, TEXT_BOX_PADDING) == Indented(ls);
  }

  /* ---------- the renderer as an object ---------- */

  class TextBox {
    const maxWidth: nat
    var completedLines: seq<string>
    var curWidth: nat
    var curLines: seq<string>

    function Snapshot(): Box
      reads this
    {
      Box(maxWidth, completedLines, curWidth, curLines)
    }

    constructor(maxWidth: nat)
      ensures Snapshot() == Box(maxWidth, [], 0, [])
    {
      this.maxWidth := maxWidth;
      completedLines := [];
      curWidth := 0;
      curLines := [];
    }

    /** `print_line`: grow the current lines to reach `row`, pad that row to `col`, append `line`. */
    method PrintLine(row: nat, col: nat, line: string)
      modifies this
      ensures completedLines == old(completedLines) && curWidth == old(curWidth)
      ensures curLines == Printed(old(curLines), row, col, line)
    {
      while row >= |curLines|
        invariant |old(curLines)| <= |curLines| <= Max(|old(curLines)|, row + 1)
        invariant forall k :: 0 <= k < |curLines| ==> curLines[k] == RowOf(old(curLines), k)
        invariant completedLines == old(completedLines) && curWidth == old(curWidth)
        decreases row + 1 - |curLines|
      {
        curLines := curLines + [""];
      }
      var curLine := curLines[row];
      var len := |curLine|;
      if col > len {
        curLine := curLine + Spaces(col - len);
      }
      curLines := curLines[row := curLine + line];
      ghost var expected := Printed(old(curLines), row, col, line);
      assert forall k :: 0 <= k < |curLines| ==> curLines[k] == expected[k];
    }

    /** The loop of `append` that prints each line of the state at column `col`. */
    method PrintBeside(ls: seq<string>, col: nat)
      modifies this
      ensures completedLines == old(completedLines) && curWidth == old(curWidth)
      ensures curLines == PlaceAll(old(curLines), ls, col)
    {
      for row := 0 to |ls|
        invariant curLines == PlaceAll(old(curLines), ls[..row], col)
        invariant completedLines == old(completedLines) && curWidth == old(curWidth)
      {
        PlaceAllSnoc(old(curLines), ls, row, col);
        PrintLine(row, col, ls[row]);
      }
      assert ls[..|ls|] == ls;
    }

    /** The branch of `append` that finishes the current block and starts a new one. */
    method StartBlock(ls: seq<string>)
      modifies this
      ensures completedLines == old(completedLines) + old(curLines) + [""]
      ensures curLines == Indented(ls) && curWidth == old(curWidth)
    {
      var drained := curLines;
      curLines := [];
      for i := 0 to |drained|
        invariant completedLines == old(completedLines) + drained[..i]
        invariant curLines == [] && curWidth == old(curWidth)
      {
        assert drained[..i + 1] == drained[..i] + [drained[i]];
        completedLines := completedLines + [drained[i]];
      }
      assert drained[..|drained|] == drained;
      completedLines := completedLines + [""];
      for i := 0 to |ls|
        invariant curLines == Indented(ls[..i])
        invariant completedLines == old(completedLines) + old(curLines) + [""] && curWidth == old(curWidth)
      {
        assert Indented(ls[..i + 1]) == Indented(ls[..i]) + [Spaces(TEXT_BOX_PADDING) + ls[i]];
        curLines := curLines + [Spaces(TEXT_BOX_PADDING) + ls[i]];
      }
      assert ls[..|ls|] == ls;
    }

    /** `append`: place the state beside the current block if it fits, else start a new block. */
    method Append(state: string)
      modifies this
      ensures Snapshot() == Appended(old(Snapshot()), Lines(state))
    {
      var ls := Lines(state);
      var stateWidth := 0;
      for i := 0 to |ls|
        invariant stateWidth == Longest(ls[..i])
      {
        assert ls[..i + 1][..i] == ls[..i];
        stateWidth := Max(stateWidth, |ls[i]|);
      }
      assert ls[..|ls|] == ls;
      stateWidth := stateWidth + TEXT_BOX_PADDING;
      if curWidth == 0 || curWidth + stateWidth <= maxWidth {
        PrintBeside(ls, curWidth + TEXT_BOX_PADDING);
        curWidth := curWidth + stateWidth;
      } else {
        StartBlock(ls);
        curWidth := stateWidth;
      }
    }
  }

  /** `Unlines` grows by one line at a time. */
  lemma UnlinesSnoc(ls: seq<string>, i: nat)
    requires i < |ls|
    ensures Unlines(ls[..i + 1]) == Unlines(ls[..i]) + ls[i] + "\n"
  {
    assert ls[..i + 1] == ls[..i] + [ls[i]];
    UnlinesConcat(ls[..i], [ls[i]]);
  }

  /** `StateSet`'s display: append every state to a box of width 90, then print its finished and current lines. */
  method Render(states: seq<string>) returns (out: string)
    ensures out == Unlines(Rendered(states))
  {
    var box := new TextBox(TEXT_BOX_WIDTH);
    for i := 0 to |states|
      invariant box.Snapshot() == Boxed(states[..i])
    {
      assert states[..i + 1][..i] == states[..i];
      box.Append(states[i]);
    }
    assert states[..|states|] == states;
    var lines := box.completedLines + box.curLines;
    out := "";
    for i := 0 to |lines|
      invariant out == Unlines(lines[..i])
    {
      UnlinesSnoc(lines, i);
      out := out + lines[i] + "\n";
    }
    assert lines[..|lines|] == lines;
  }
}
