/**
 * The jigsaw sudoku example's grid reader: walk a text character by character, reporting each
 * character other than a line break with its row and column.
 */
module Jigsaw {

  /** One invocation of the callback: the character, its row and its column. */
  datatype Call = Call(ch: char, row: nat, col: nat)

  /** The number of line breaks in `s`: the row the next character is on. */
  function Newlines(s: string): nat {
    multiset(s)['\n']
  }

  /** The number of characters since the last line break: the column the next character is in. */
  function Col(s: string): (c: nat)
    ensures c <= |s|
  {
    if s == [] then 0 else if s[|s| - 1] == '\n' then 0 else Col(s[..|s| - 1]) + 1
  }

  /** The invocations for `s`, in order: one for each character that is not a line break. */
  function Calls(s: string): seq<Call> {
    if s == [] then []
    else
      var init := s[..|s| - 1];
      if s[|s| - 1] == '\n' then Calls(init) else Calls(init) + [Call(s[|s| - 1], Newlines(init), Col(init))]
  }

  /** `callback_by_row_col`: the callback's invocations, with a counter for the row and one for the column. */
  method CallbackByRowCol(contents: string) returns (calls: seq<Call>)
    ensures calls == Calls(contents)
  {
    calls := [];
    var row, col := 0, 0;
    for i := 0 to |contents|
      invariant calls == Calls(contents[..i])
      invariant row == Newlines(contents[..i]) && col == Col(contents[..i])
    {
      var ch := contents[i];
      assert contents[..i + 1][..i] == contents[..i];
      assert contents[..i + 1] == contents[..i] + [ch];
      if ch == '\n' {
        row := row + 1;
        col := 0;
      } else {
        calls := calls + [Call(ch, row, col)];
        col := col + 1;
      }
    }
    assert contents[..|contents|] == contents;
  }

  /** The column is the length of the text after the last line break, which holds none. */
  lemma {:induction false} ColSinceNewline(s: string)
    ensures '\n' !in s[|s| - Col(s)..]
    ensures Col(s) < |s| ==> s[|s| - Col(s) - 1] == '\n'
  {
    if s != [] && s[|s| - 1] != '\n' {
      var init := s[..|s| - 1];
      ColSinceNewline(init);
      assert s[|s| - Col(s)..] == init[|init| - Col(init)..] + [s[|s| - 1]];
      if Col(s) < |s| {
        assert s[|s| - Col(s) - 1] == init[|init| - Col(init) - 1];
      }
    }
  }

  /** No line break is ever passed to the callback, and there is one call per other character. */
  lemma {:induction false} CallsCount(s: string)
    ensures forall k :: 0 <= k < |Calls(s)| ==> Calls(s)[k].ch != '\n'
    ensures |Calls(s)| == |s| - Newlines(s)
  {
    if s != [] {
      var init := s[..|s| - 1];
      CallsCount(init);
      assert s == init + [s[|s| - 1]];
    }
  }

  /** The character at index `i`, if not a line break, is call number `i - Newlines(s[..i])`, on the row and in the column before it. */
  lemma {:induction false} CallsAt(s: string, i: nat)
    requires i < |s| && s[i] != '\n'
    ensures i - Newlines(s[..i]) < |Calls(s)|
    ensures Calls(s)[i - Newlines(s[..i])] == Call(s[i], Newlines(s[..i]), Col(s[..i]))
    decreases |s|
  {
    var init := s[..|s| - 1];
    CallsCount(s[..i]);
    if i == |s| - 1 {
      assert s[..i] == init;
    } else {
      assert init[..i] == s[..i];
      CallsAt(init, i);
      CallsPrefix(s);
    }
  }

  /** The calls for a text start with the calls for the text without its last character. */
  lemma CallsPrefix(s: string)
    requires s != []
    ensures |Calls(s[..|s| - 1])| <= |Calls(s)| && Calls(s)[..|Calls(s[..|s| - 1])|] == Calls(s[..|s| - 1])
  {
  }
}
