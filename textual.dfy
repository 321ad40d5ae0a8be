/**
 * The `textual` example program's boards. Letters read as positive numbers 1 to 26 (or, for
 * rule inputs, as their negatives), numerals may be signed, and a layout records for each entry
 * whether it prints as a letter.
 */
module Textual {
  import opened Options
  import opened Text
  import opened Layouts

  const I32_MIN: int := -0x8000_0000
  const I32_MAX: int := 0x7FFF_FFFF

  /** `read_letter`: a one-byte word that is a letter, as its place in the alphabet. */
  function ReadLetter(word: string): (r: Option<int>)
    ensures r.Some? <==> |word| == 1 && IsLetter(word[0])
    ensures r.Some? ==> r.value == AlphabetIndex(word[0])
  {
    if |word| != 1 then None
    else
      var byte := word[0] as int;
      if 65 <= byte <= 90 then Some(byte - 64)
      else if 97 <= byte <= 122 then Some(byte - 96)
      else None
  }

  /**
   * `Entry::read`: `.` is unknown, `*` is 0, a letter its place in the alphabet (negated when
   * `negativeLetters`), and otherwise a signed 32-bit numeral; anything else is no entry.
   */
  function Read(word: string, negativeLetters: bool): (r: Option<Entry>)
    ensures r.Some? && r.value.None? <==> word == "."
    ensures r.Some? && r.value.Some? ==> I32_MIN <= r.value.value <= I32_MAX
  {
    if word == "." then Some(None)
    else if word == "*" then Some(Some(0))
    else match ReadLetter(word)
      case Some(n) => if negativeLetters then Some(Some(-n)) else Some(Some(n))
      case None =>
        match ParseSigned(word, I32_MAX)
        case Some(n) => Some(Some(n))
        case None => None
  }

  /** The reader the layout parser is given; a word it rejects becomes `BadEntry(word)`. */
  function Reader(negativeLetters: bool): Layouts.Reader {
    word => Read(word, negativeLetters)
  }

  /** `Entry::write`: an upper-case letter for 1 to 26 where the layout wants a letter, else a signed decimal, or `.`. */
  function Write(e: Entry, isLetter: bool): (s: string)
    ensures s != []
  {
    match e
    case None => "."
    case Some(n) => if isLetter && 1 <= n <= 26 then [(n + 64) as char] else SignedDecimal(n)
  }

  /** Reading does not depend on the case of a letter. */
  lemma ReadCaseInsensitive(c: char, negativeLetters: bool)
    requires IsLetter(c)
    ensures Read([c], negativeLetters) == Read([Upper(c)], negativeLetters)
  {
  }

  /** What is written reads back as the entry, whether it was written as a letter or as a numeral. */
  lemma {:induction false} WriteReadRoundTrip(e: Entry, isLetter: bool)
    requires e.Some? ==> I32_MIN <= e.value <= I32_MAX
    ensures Read(Write(e, isLetter), false) == Some(e)
  {
    if e.Some? && !(isLetter && 1 <= e.value <= 26) {
      var n := e.value;
      var s := SignedDecimal(n);
      if n < 0 {
        assert s[0] == '-' && |s| >= 2;
      } else {
        assert IsDigit(s[0]);
      }
      assert s != "." && s != "*";
      ParseSignedDecimal(n, I32_MAX);
    }
  }

  /** With negative letters, a letter that was written reads back negated. */
  lemma WriteReadNegative(n: int)
    requires 1 <= n <= 26
    ensures Read(Write(Some(n), true), true) == Some(Some(-n))
  {
    var c := (n + 64) as char;
    assert Write(Some(n), true) == [c];
  }

  /** The `*` placeholder reads as 0, which prints as `0`. */
  lemma StarReadsAsZero(isLetter: bool, negativeLetters: bool)
    ensures Read("*", negativeLetters) == Some(Some(0)) && Write(Some(0), isLetter) == "0"
  {
  }

  /** `Layout::new`: the template's pieces, and no entry printing as a letter. */
  method NewLayout(template: string) returns (whitespace: seq<string>, isLetter: seq<bool>)
    ensures whitespace != [] && StarFree(whitespace) && JoinStar(whitespace) == template
    ensures |isLetter| == |whitespace| - 1 && forall i :: 0 <= i < |isLetter| ==> !isLetter[i]
  {
    whitespace := SplitStars(template);
    isLetter := seq(|whitespace| - 1, _ => false);
  }

  /** The entries as `Display` writes them, each as a letter where the layout says so. */
  function Written(entries: seq<Entry>, isLetter: seq<bool>): (ws: seq<string>)
    requires |isLetter| == |entries|
    ensures |ws| == |entries|
  {
    seq(|entries|, i requires 0 <= i < |entries| => Write(entries[i], isLetter[i]))
  }

  /** Every written entry reads back as itself. */
  lemma WrittenReadBack(entries: seq<Entry>, isLetter: seq<bool>)
    requires |isLetter| == |entries|
    requires forall i :: 0 <= i < |entries| && entries[i].Some? ==> I32_MIN <= entries[i].value <= I32_MAX
    ensures ReadsAs(Reader(false), Written(entries, isLetter), entries)
  {
    forall i | 0 <= i < |entries|
      ensures Reader(false)(Written(entries, isLetter)[i]) == Some(entries[i])
    {
      WriteReadRoundTrip(entries[i], isLetter[i]);
    }
  }

  /** A board of the `textual` program. */
  class Data {
    var entries: seq<Entry>
    const whitespace: seq<string>
    const isLetter: seq<bool>

    predicate Valid()
      reads this
    {
      |whitespace| == |entries| + 1 && |isLetter| == |entries|
    }

    /** `State::new`: a blank board, one unknown entry per entry of the layout. */
    constructor(whitespace: seq<string>, isLetter: seq<bool>)
      requires |whitespace| == |isLetter| + 1
      ensures Valid() && this.whitespace == whitespace && this.isLetter == isLetter
      ensures |entries| == |isLetter| && forall i :: 0 <= i < |entries| ==> entries[i].None?
    {
      this.whitespace := whitespace;
      this.isLetter := isLetter;
      entries := seq(|isLetter|, _ => None);
    }

    /** A board holding entries that were read from the input. */
    constructor FromEntries(whitespace: seq<string>, isLetter: seq<bool>, entries: seq<Entry>)
      requires |whitespace| == |entries| + 1 && |isLetter| == |entries|
      ensures Valid() && this.whitespace == whitespace && this.isLetter == isLetter && this.entries == entries
    {
      this.whitespace := whitespace;
      this.isLetter := isLetter;
      this.entries := entries;
    }

    /** `State::set`: one entry becomes known, and no other changes. */
    method Set(v: nat, val: int)
      requires v < |entries|
      modifies this
      ensures entries == old(entries)[v := Some(val)]
    {
      entries := entries[v := Some(val)];
    }

    /** `Display`: the first piece, then each written entry followed by the next piece. */
    method Render() returns (s: string)
      requires Valid()
      ensures s == Interleave(whitespace, Written(entries, isLetter))
    {
      ghost var ws := Written(entries, isLetter);
      s := whitespace[0];
      assert whitespace[..1] == [whitespace[0]];
      for i := 0 to |entries|
        invariant s == Interleave(whitespace[..i + 1], ws[..i])
      {
        InterleavePrefix(whitespace, ws, i);
        s := s + Write(entries[i], isLetter[i]) + whitespace[i + 1];
      }
      assert whitespace[..|entries| + 1] == whitespace;
      assert ws[..|entries|] == ws;
    }
  }

  /**
   * `Data::new`: read a board with the layout. A board comes back only if the input is the
   * pieces with one word between each two, every word reading as its entry.
   */
  method NewData(input: string, whitespace: seq<string>, isLetter: seq<bool>, negativeLetters: bool)
      returns (p: Parse, d: Data?)
    requires |whitespace| == |isLetter| + 1
    ensures (d != null) == p.Parsed?
    ensures d != null ==> fresh(d) && d.Valid() && d.whitespace == whitespace && d.entries == p.entries
    ensures p.Parsed? ==> exists words :: ReadsAs(Reader(negativeLetters), words, p.entries) && Interleave(whitespace, words) == input
  {
    p := ParseAll(whitespace, input, Reader(negativeLetters));
    if p.Parsed? {
      d := new Data.FromEntries(whitespace, isLetter, p.entries);
    } else {
      d := null;
    }
  }
}
