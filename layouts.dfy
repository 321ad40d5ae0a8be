/**
 * Layouts: a template such as `"* * *\n* * *\n"` is cut at each `*` into the whitespace pieces
 * around the entries, and input is read by consuming those pieces in turn, taking the text
 * between two of them as an entry's word. The tokenizer is shared by the puzzle program and the
 * `textual` example; each supplies its own reader for a single word.
 */
module Layouts {
  import opened Options
  import opened Text

  /** One cell of a board: a number (letters are encoded as numbers), or `None` if unknown. */
  type Entry = Option<int>

  /** A word reader: the entry a word stands for, or `None` when it is not a valid entry. */
  type Reader = string -> Option<Entry>

  datatype BadInput = BadEntry(word: string) | DoesNotMatchLayout(badPart: string, message: string)

  /* ---------- Layout::new ---------- */

  /** Each piece followed by a `*`. */
  function StarTerminated(ps: seq<string>): string {
    if ps == [] then [] else StarTerminated(ps[..|ps| - 1]) + ps[|ps| - 1] + "*"
  }

  /** The pieces joined back together with `*` between them. */
  function JoinStar(ps: seq<string>): string
    requires ps != []
  {
    StarTerminated(ps[..|ps| - 1]) + ps[|ps| - 1]
  }

  predicate StarFree(ps: seq<string>) {
    forall i :: 0 <= i < |ps| ==> '*' !in ps[i]
  }

  /** `Layout::new`: cut the template at every `*`, keeping the text before, between and after them. */
  method SplitStars(template: string) returns (whitespace: seq<string>)
    ensures whitespace != [] && StarFree(whitespace)
    ensures JoinStar(whitespace) == template
  {
    whitespace := [];
    var remaining := template;
    while true
      invariant StarFree(whitespace)
      invariant StarTerminated(whitespace) + remaining == template
      decreases |remaining|
    {
      match IndexOf(remaining, '*')
      case None =>
        whitespace := whitespace + [remaining];
        assert whitespace[..|whitespace| - 1] + [remaining] == whitespace;
        return;
      case Some(offset) =>
        var piece := remaining[..offset];
        assert remaining == piece + "*" + remaining[offset + 1..];
        whitespace := whitespace + [piece];
        assert whitespace[..|whitespace| - 1] + [piece] == whitespace;
        remaining := remaining[offset + 1..];
    }
  }

  /** There is one more piece than there are `*`s in the template. */
  lemma {:induction false} StarCount(ps: seq<string>)
    requires ps != [] && StarFree(ps)
    ensures multiset(JoinStar(ps))['*'] == |ps| - 1
  {
    StarTerminatedCount(ps[..|ps| - 1]);
    assert multiset(ps[|ps| - 1])['*'] == 0;
  }

  lemma {:induction false} StarTerminatedCount(ps: seq<string>)
    requires StarFree(ps)
    ensures multiset(StarTerminated(ps))['*'] == |ps|
  {
    if ps != [] {
      StarTerminatedCount(ps[..|ps| - 1]);
      assert multiset(ps[|ps| - 1])['*'] == 0;
    }
  }

  /** The pieces are determined by the template: two star-free cuts with the same join are equal. */
  lemma {:induction false} SplitUnique(ps: seq<string>, qs: seq<string>)
    requires ps != [] && qs != [] && StarFree(ps) && StarFree(qs)
    requires JoinStar(ps) == JoinStar(qs)
    ensures ps == qs
    decreases |ps|
  {
    var s := JoinStar(ps);
    var n, m := |ps[0]|, |qs[0]|;
    JoinStarFront(ps);
    JoinStarFront(qs);
    FirstStar(ps);
    FirstStar(qs);
    if |ps| > 1 {
      assert ps[0] == s[..n] == qs[0];
      assert JoinStar(ps[1..]) == s[n + 1..] == JoinStar(qs[1..]);
      SplitUnique(ps[1..], qs[1..]);
      assert ps == [ps[0]] + ps[1..];
      assert qs == [qs[0]] + qs[1..];
    }
  }

  /** The first `*` of the join ends the first piece; with one piece there is none. */
  lemma FirstStar(ps: seq<string>)
    requires ps != [] && StarFree(ps)
    ensures IndexOf(JoinStar(ps), '*') == if |ps| > 1 then Some(|ps[0]|) else None
  {
    JoinStarFront(ps);
    var s := JoinStar(ps);
    if |ps| > 1 {
      assert s[..|ps[0]|] == ps[0];
      IndexOfAt(s, '*', |ps[0]|);
    }
  }

  /** The join starts with the first piece, then a `*` and the join of the rest if there is more. */
  lemma {:induction false} JoinStarFront(ps: seq<string>)
    requires ps != []
    ensures |ps| == 1 ==> JoinStar(ps) == ps[0]
    ensures |ps| > 1 ==> JoinStar(ps) == ps[0] + "*" + JoinStar(ps[1..])
  {
    if |ps| > 1 {
      StarTerminatedFront(ps[..|ps| - 1]);
      assert ps[..|ps| - 1][1..] == ps[1..][..|ps| - 2];
    }
  }

  lemma {:induction false} StarTerminatedFront(ps: seq<string>)
    requires ps != []
    ensures StarTerminated(ps) == ps[0] + "*" + StarTerminated(ps[1..])
  {
    if |ps| > 1 {
      var init := ps[..|ps| - 1];
      StarTerminatedFront(init);
      assert init[1..] == ps[1..][..|ps| - 2];
    } else {
      assert ps[..0] == [];
    }
  }

  /* ---------- LayoutParser::next ---------- */

  /** What one call of `next` yields: the end of the entries, an entry or an error, or a panic. */
  datatype Step = End | Yield(item: Result<Entry, BadInput>) | Panic

  /** The parser's fields: whether the leading piece is still to be consumed, the pieces left, the input left. */
  datatype Cursor = Cursor(atStart: bool, whitespace: seq<string>, input: string)

  predicate StartsWith(s: string, p: string) {
    |p| <= |s| && s[..|p|] == p
  }

  /** The first line of the input, or `default` when the input has none. */
  function FirstLineOr(s: string, default: string): string {
    var ls := Lines(s);
    if ls == [] then default else ls[0]
  }

  function Expected(piece: string): string {
    "expected '" + piece + "'"
  }

  /** The entry a word stands for, or `BadEntry` with the word. */
  function ReadWord(read: Reader, word: string): Step {
    match read(word)
    case Some(e) => Yield(Ok(e))
    case None => Yield(Err(BadEntry(word)))
  }

  /**
   * The second half of `next`: take the next piece as the separator and read the word before it.
   * An empty separator makes the word the first byte of the input; slicing there panics when the
   * input is empty or starts with a character longer than one byte.
   */
  function TakeWord(c: Cursor, read: Reader): (Step, Cursor) {
    if c.whitespace == [] then (Panic, c)
    else
      var sep := c.whitespace[0];
      var rest := c.whitespace[1..];
      if sep == "" then
        if c.input == [] || c.input[0] as int >= 128 then (Panic, Cursor(c.atStart, rest, c.input))
        else (ReadWord(read, c.input[..1]), Cursor(c.atStart, rest, c.input[1..]))
      else match Find(c.input, sep)
        case Some(offset) => (ReadWord(read, c.input[..offset]), Cursor(c.atStart, rest, c.input[offset + |sep|..]))
        case None => (Yield(Err(DoesNotMatchLayout(FirstLineOr(c.input, ""), Expected(sep)))), Cursor(c.atStart, rest, c.input))
  }

  /** One call of `next`: the step it yields and the parser's fields afterwards. */
  function Advance(c: Cursor, read: Reader): (Step, Cursor) {
    if c.whitespace == [] then
      if c.input != [] then (Yield(Err(DoesNotMatchLayout(FirstLineOr(c.input, ""), "too much input"))), c)
      else (End, c)
    else if c.atStart then
      var first := c.whitespace[0];
      if !StartsWith(c.input, first) then
        (Yield(Err(DoesNotMatchLayout(FirstLineOr(c.input, "[empty]"), Expected(first)))), Cursor(true, c.whitespace[1..], c.input))
      else TakeWord(Cursor(false, c.whitespace[1..], c.input[|first|..]), read)
    else TakeWord(c, read)
  }

  /** The leading piece, if still due, is there: the call goes on to read a word. */
  predicate LeadMatches(c: Cursor) {
    c.whitespace != [] && (c.atStart ==> StartsWith(c.input, c.whitespace[0]))
  }

  /** The input consumed before the word: the leading piece on the first call, nothing after. */
  function Lead(c: Cursor): string
    requires c.whitespace != []
  {
    if c.atStart then c.whitespace[0] else ""
  }

  /** The fields once the leading piece, if due, is consumed. */
  function Inner(c: Cursor): (d: Cursor)
    requires LeadMatches(c)
    ensures !d.atStart && c.input == Lead(c) + d.input
    ensures d.whitespace == if c.atStart then c.whitespace[1..] else c.whitespace
  {
    if c.atStart then Cursor(false, c.whitespace[1..], c.input[|c.whitespace[0]|..]) else c
  }

  /** Only the end of the pieces with no input left ends the entries; an entry is read only past a matching lead. */
  lemma AdvanceOutcome(c: Cursor, read: Reader)
    ensures Advance(c, read).0 == End ==> c.whitespace == [] && c.input == []
    ensures Advance(c, read).0.Yield? && Advance(c, read).0.item.Ok? ==>
      LeadMatches(c) && Advance(c, read) == TakeWord(Inner(c), read)
  {
  }

  /** The word `TakeWord` reads: one character before an empty separator, else up to the separator. */
  function WordOf(d: Cursor): string
    requires d.whitespace != [] && (d.whitespace[0] == "" ==> d.input != [])
  {
    var sep := d.whitespace[0];
    if sep == "" then d.input[..1]
    else match Find(d.input, sep)
      case Some(offset) => d.input[..offset]
      case None => d.input
  }

  /**
   * Reading an entry consumes a word that reads as that entry and then the separator, which is the
   * first place the separator occurs; an empty separator gives a one-character word.
   */
  lemma TakeWordConsumes(d: Cursor, read: Reader)
    requires TakeWord(d, read).0.Yield? && TakeWord(d, read).0.item.Ok?
    ensures d.whitespace != [] && (d.whitespace[0] == "" ==> d.input != [])
    ensures var next := TakeWord(d, read).1; var sep := d.whitespace[0]; var w := WordOf(d);
      && next.atStart == d.atStart
      && next.whitespace == d.whitespace[1..]
      && d.input == w + sep + next.input
      && read(w) == Some(TakeWord(d, read).0.item.value)
      && (sep == "" ==> |w| == 1)
      && (sep != "" ==> forall j :: 0 <= j < |w| ==> !Occurs(d.input, sep, j))
  {
    var sep := d.whitespace[0];
    if sep == "" {
      assert d.input == d.input[..1] + d.input[1..];
    } else {
      var offset := Find(d.input, sep).value;
      assert d.input == d.input[..offset] + sep + d.input[offset + |sep|..];
    }
  }

  /** The input runs out of pieces: `None` if nothing is left, "too much input" otherwise. */
  lemma AdvanceAtEnd(c: Cursor, read: Reader)
    requires c.whitespace == []
    ensures Advance(c, read).0 == End <==> c.input == []
    ensures c.input != [] ==> Advance(c, read).0 == Yield(Err(DoesNotMatchLayout(Lines(c.input)[0], "too much input")))
  {
  }

  /** A template without `*` has a single piece: once it matches, there is no separator to take and `next` panics. */
  lemma AdvanceWithoutStarPanics(c: Cursor, read: Reader)
    requires c.atStart && |c.whitespace| == 1 && StartsWith(c.input, c.whitespace[0])
    ensures Advance(c, read).0 == Panic
  {
  }

  /** The first call fails, naming the expected piece, when the input does not start with it. */
  lemma AdvanceMismatch(c: Cursor, read: Reader)
    requires c.atStart && c.whitespace != [] && !StartsWith(c.input, c.whitespace[0])
    ensures Advance(c, read).0 == Yield(Err(DoesNotMatchLayout(FirstLineOr(c.input, "[empty]"), Expected(c.whitespace[0]))))
  {
  }

  /** The parser over a layout's pieces and an input; `read` is the entry reader of the program using it. */
  class LayoutParser {
    var atStart: bool
    var whitespace: seq<string>
    var input: string
    const read: Reader

    function Fields(): Cursor
      reads this
    {
      Cursor(atStart, whitespace, input)
    }

    constructor(whitespace: seq<string>, input: string, read: Reader)
      ensures Fields() == Cursor(true, whitespace, input) && this.read == read
    {
      atStart := true;
      this.whitespace := whitespace;
      this.input := input;
      this.read := read;
    }

    /** `next`: yield the next entry, or an error, or `None` at the end. */
    method Next() returns (r: Step)
      modifies this
      ensures (r, Fields()) == Advance(old(Fields()), read)
    {
      if whitespace == [] {
        if input != [] {
          return Yield(Err(DoesNotMatchLayout(FirstLineOr(input, ""), "too much input")));
        }
        return End;
      }
      if atStart {
        var first := whitespace[0];
        whitespace := whitespace[1..];
        if !StartsWith(input, first) {
          return Yield(Err(DoesNotMatchLayout(FirstLineOr(input, "[empty]"), Expected(first))));
        }
        input := input[|first|..];
        atStart := false;
      }
      if whitespace == [] {
        return Panic;
      }
      var sep := whitespace[0];
      whitespace := whitespace[1..];
      var word;
      if sep == "" {
        if input == [] || input[0] as int >= 128 {
          return Panic;
        }
        word := input[..1];
        input := input[1..];
      } else {
        match Find(input, sep)
        case Some(offset) =>
          word := input[..offset];
          input := input[offset + |sep|..];
        case None =>
          return Yield(Err(DoesNotMatchLayout(FirstLineOr(input, ""), Expected(sep))));
      }
      r := ReadWord(read, word);
    }
  }

  /* ---------- Data::new ---------- */

  /** The outcome of reading a whole input: the entries, the first error, or a panic. */
  datatype Parse = Parsed(entries: seq<Entry>) | Failed(error: BadInput) | Panicked

  /** The pieces with the words between them: `ws[0] + words[0] + ws[1] + ... + ws[n]`. */
  function Interleave(ws: seq<string>, words: seq<string>): string
    requires |ws| == |words| + 1
  {
    if words == [] then ws[0]
    else Interleave(ws[..|ws| - 1], words[..|words| - 1]) + words[|words| - 1] + ws[|ws| - 1]
  }

  /** Interleaving one more piece and word extends the text by them. */
  lemma InterleavePrefix(ws: seq<string>, words: seq<string>, i: nat)
    requires |ws| == |words| + 1 && i < |words|
    ensures Interleave(ws[..i + 2], words[..i + 1]) == Interleave(ws[..i + 1], words[..i]) + words[i] + ws[i + 1]
  {
    assert ws[..i + 2][..i + 1] == ws[..i + 1];
    assert words[..i + 1][..i] == words[..i];
  }

  /** Every word reads as the entry at its position. */
  predicate ReadsAs(read: Reader, words: seq<string>, entries: seq<Entry>) {
    |words| == |entries| && forall i :: 0 <= i < |words| ==> read(words[i]) == Some(entries[i])
  }

  /**
   * `Data::new`: run the parser to the end, collecting entries until the first error. A
   * successful parse splits the input into the layout's pieces with one word between each two,
   * every word reading as its entry.
   */
  method ParseAll(ws: seq<string>, input: string, read: Reader) returns (r: Parse)
    ensures r.Parsed? && ws == [] ==> input == [] && r.entries == []
    ensures r.Parsed? && ws != [] ==> |r.entries| + 1 == |ws|
    ensures r.Parsed? && ws != [] ==> exists words :: ReadsAs(read, words, r.entries) && Interleave(ws, words) == input
    ensures ws == [] && input == [] ==> r == Parsed([])
    ensures |ws| == 1 && StartsWith(input, ws[0]) ==> r == Panicked
  {
    var p := new LayoutParser(ws, input, read);
    var entries: seq<Entry> := [];
    ghost var words: seq<string> := [];
    while true
      invariant p.read == read
      invariant |ws| == 1 && StartsWith(input, ws[0]) ==> p.atStart
      invariant Progress(ws, input, read, p.Fields(), entries, words)
      decreases |p.whitespace|
    {
      ghost var c := p.Fields();
      if c.atStart && |c.whitespace| == 1 && StartsWith(c.input, c.whitespace[0]) {
        AdvanceWithoutStarPanics(c, read);
      }
      var step := p.Next();
      match step
      case End =>
        AdvanceOutcome(c, read);
        if !c.atStart {
          assert ws[..|entries| + 1] == ws;
        }
        return Parsed(entries);
      case Panic =>
        return Panicked;
      case Yield(item) =>
        match item
        case Err(e) =>
          return Failed(e);
        case Ok(e) =>
          ghost var w := ProgressStep(ws, input, read, c, entries, words);
          entries := entries + [e];
          words := words + [w];
    }
  }

  /**
   * What `ParseAll` knows after reading `entries` from `words`: before the first call, nothing is
   * consumed; after it, the leading piece and each word with the piece after it are.
   */
  ghost predicate Progress(ws: seq<string>, input: string, read: Reader, c: Cursor, entries: seq<Entry>, words: seq<string>) {
    && (c.atStart ==> entries == [] && words == [] && c.whitespace == ws && c.input == input)
    && (!c.atStart ==>
          && |ws| == |entries| + 1 + |c.whitespace|
          && c.whitespace == ws[|entries| + 1..]
          && ReadsAs(read, words, entries)
          && Interleave(ws[..|entries| + 1], words) + c.input == input)
  }

  /** A call that yields an entry extends the progress by that entry and the word it was read from. */
  lemma ProgressStep(ws: seq<string>, input: string, read: Reader, c: Cursor, entries: seq<Entry>, words: seq<string>)
      returns (w: string)
    requires Progress(ws, input, read, c, entries, words)
    requires Advance(c, read).0.Yield? && Advance(c, read).0.item.Ok?
    ensures Progress(ws, input, read, Advance(c, read).1, entries + [Advance(c, read).0.item.value], words + [w])
  {
    AdvanceOutcome(c, read);
    var d := Inner(c);
    TakeWordConsumes(d, read);
    w := WordOf(d);
    ProgressExtend(ws, input, read, c, entries, words, w, TakeWord(d, read).0.item.value, TakeWord(d, read).1);
  }

  lemma ProgressExtend(ws: seq<string>, input: string, read: Reader, c: Cursor, entries: seq<Entry>, words: seq<string>,
                       w: string, e: Entry, next: Cursor)
    requires Progress(ws, input, read, c, entries, words)
    requires LeadMatches(c) && Inner(c).whitespace != []
    requires Inner(c).input == w + Inner(c).whitespace[0] + next.input
    requires next.whitespace == Inner(c).whitespace[1..] && !next.atStart && read(w) == Some(e)
    ensures Progress(ws, input, read, next, entries + [e], words + [w])
  {
    var k := |entries|;
    var d := Inner(c);
    InterleaveStep(ws, words, w, c, k);
    assert next.whitespace == ws[k + 2..];
    assert ReadsAs(read, words + [w], entries + [e]);
    var pre := if c.atStart then "" else Interleave(ws[..k + 1], words);
    assert pre + c.input == input;
    assert Interleave(ws[..k + 2], words + [w]) == pre + Lead(c) + w + ws[k + 1];
    ConsumedExtend(pre, Lead(c), w, ws[k + 1], next.input, c.input, d.input, input, Interleave(ws[..k + 2], words + [w]));
  }

  /** The consumed text grows by the word and its separator (a fact about concatenation alone). */
  lemma ConsumedExtend(pre: string, lead: string, w: string, sep: string, rest: string,
                       cin: string, din: string, input: string, consumed: string)
    requires pre + cin == input && cin == lead + din && din == w + sep + rest
    requires consumed == pre + lead + w + sep
    ensures consumed + rest == input
  {
    assert pre + lead + w + sep + rest == pre + (lead + (w + sep + rest));
  }

  lemma InterleaveStep(ws: seq<string>, words: seq<string>, w: string, c: Cursor, k: nat)
    requires LeadMatches(c) && Inner(c).whitespace != []
    requires c.atStart ==> k == 0 && words == [] && c.whitespace == ws
    requires !c.atStart ==> |words| == k && |ws| == k + 1 + |c.whitespace| && c.whitespace == ws[k + 1..]
    ensures |ws| >= k + 2 && Inner(c).whitespace[0] == ws[k + 1] && Inner(c).whitespace[1..] == ws[k + 2..]
    ensures c.atStart ==> Interleave(ws[..k + 2], words + [w]) == Lead(c) + w + ws[k + 1]
    ensures !c.atStart ==> Interleave(ws[..k + 2], words + [w]) == Interleave(ws[..k + 1], words) + w + ws[k + 1]
  {
    if c.atStart {
      assert ws[1..][1..] == ws[2..];
    } else {
      assert ws[k + 1..][1..] == ws[k + 2..];
    }
    var ws2, words2 := ws[..k + 2], words + [w];
    assert ws2[..|ws2| - 1] == ws[..k + 1];
    assert words2[..|words2| - 1] == words;
    assert Interleave(ws2, words2) == Interleave(ws[..k + 1], words) + w + ws[k + 1];
    if c.atStart {
      assert ws[..1] == [ws[0]];
    }
  }
}
