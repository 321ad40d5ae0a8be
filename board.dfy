/**
 * The puzzle program's boards: entries are read from words (`.` unknown, `*` a range
 * placeholder, a letter, or an unsigned numeral), printed back, and a board is printed by
 * filling its layout's pieces with the entries, right-aligned to a common width.
 */
module Board {
  import opened Options
  import opened Text
  import opened Layouts

  /** The entry that stands for a `*` in the input. */
  const STAR: int := -27

  const U32_MAX: nat := 0xFFFF_FFFF
  const I32_MIN: int := -0x8000_0000
  const I32_MAX: int := 0x7FFF_FFFF

  /**
   * `read_letter`: a one-byte word that is a letter, as minus its place in the alphabet; a word
   * of one non-ASCII character is longer than one byte, so it is no letter either.
   */
  function ReadLetter(word: string): (r: Option<int>)
    ensures r.Some? <==> |word| == 1 && IsLetter(word[0])
    ensures r.Some? ==> r.value == -AlphabetIndex(word[0])
  {
    if |word| != 1 then None
    else
      var byte := word[0] as int;
      if 65 <= byte <= 90 then Some(64 - byte)
      else if 97 <= byte <= 122 then Some(96 - byte)
      else None
  }

  /** The cast `n as i32` of a `u32`: values from 2^31 on wrap around to negative numbers. */
  function AsI32(n: nat): (r: int)
    requires n <= U32_MAX
    ensures I32_MIN <= r <= I32_MAX
    ensures r == n || r == n - 0x1_0000_0000
  {
    if n <= I32_MAX then n else n - 0x1_0000_0000
  }

  /** `Entry::from_str`: the entry a word of the input stands for. */
  function FromStr(word: string): (r: Result<Entry, BadInput>)
    ensures r.Err? ==> r.error == BadEntry(word)
    ensures r.Ok? && r.value.None? <==> word == "."
    ensures r.Ok? && r.value.Some? ==> I32_MIN <= r.value.value <= I32_MAX
  {
    if word == "." then Ok(None)
    else if word == "*" then Ok(Some(STAR))
    else match ReadLetter(word)
      case Some(n) => Ok(Some(n))
      case None =>
        match ParseUnsigned(word, U32_MAX)
        case Some(n) => Ok(Some(AsI32(n)))
        case None => Err(BadEntry(word))
  }

  /** The word reader the layout parser uses: `from_str`, its error being `BadEntry(word)`. */
  function ReadEntry(word: string): Option<Entry> {
    match FromStr(word)
    case Ok(e) => Some(e)
    case Err(_) => None
  }

  /** The parser yields exactly what `from_str` returns for the word. */
  lemma ReadWordIsFromStr(word: string)
    ensures ReadWord(ReadEntry, word) == Yield(FromStr(word))
  {
  }

  /**
   * `Display` of an entry: a negative number as the character with code `64 - n` truncated to a
   * byte, a non-negative one in decimal, and an unknown one as `.`.
   */
  function Show(e: Entry): (s: string)
    ensures s != []
  {
    match e
    case None => "."
    case Some(n) => if n < 0 then [((64 - n) % 256) as char] else Decimal(n)
  }

  /** A letter read from the input prints back as the same letter in upper case. */
  lemma LetterShowsUpper(c: char)
    requires IsLetter(c)
    ensures FromStr([c]).Ok? && Show(FromStr([c]).value) == [Upper(c)]
  {
  }

  /** Printing an entry and reading the text back gives the entry, for unknowns, letters and numbers below 2^31. */
  lemma {:induction false} ShowRoundTrip(e: Entry)
    requires e.Some? ==> -26 <= e.value <= I32_MAX
    ensures FromStr(Show(e)) == Ok(e)
  {
    if e.Some? && e.value >= 0 {
      var s := Decimal(e.value);
      assert s != "." && s != "*" by {
        assert IsDigit(s[0]);
      }
      assert !IsLetter(s[0]);
      ParseUnsignedDecimal(e.value, U32_MAX);
    }
  }

  /** A numeral from 2^31 to 2^32 - 1 reads as a negative number, that is, as a letter or beyond. */
  lemma {:induction false} LargeNumeralWraps(n: nat)
    requires I32_MAX < n <= U32_MAX
    ensures FromStr(Decimal(n)) == Ok(Some(n - 0x1_0000_0000))
  {
    var s := Decimal(n);
    assert s != "." && s != "*" by {
      assert IsDigit(s[0]);
    }
    assert !IsLetter(s[0]);
    ParseUnsignedDecimal(n, U32_MAX);
  }

  /** The `*` placeholder entry prints as `[`, the character after `Z`. */
  lemma StarShowsBracket()
    ensures FromStr("*") == Ok(Some(STAR)) && Show(Some(STAR)) == "["
  {
  }

  /* ---------- printing a board ---------- */

  /** The longest byte length among the texts. */
  function MaxLen(texts: seq<string>): (m: nat)
    requires texts != []
    ensures forall i :: 0 <= i < |texts| ==> ByteLen(texts[i]) <= m
  {
    if |texts| == 1 then ByteLen(texts[0])
    else Max(MaxLen(texts[..|texts| - 1]), ByteLen(texts[|texts| - 1]))
  }

  /** Some text is as long as the longest. */
  lemma {:induction false} MaxLenAttained(texts: seq<string>) returns (k: nat)
    requires texts != []
    ensures k < |texts| && ByteLen(texts[k]) == MaxLen(texts)
  {
    if |texts| == 1 {
      k := 0;
    } else if MaxLen(texts[..|texts| - 1]) < ByteLen(texts[|texts| - 1]) {
      k := |texts| - 1;
    } else {
      k := MaxLenAttained(texts[..|texts| - 1]);
    }
  }

  /** The printed entries. */
  function Texts(entries: seq<Entry>): (ts: seq<string>)
    ensures |ts| == |entries|
  {
    seq(|entries|, i requires 0 <= i < |entries| => Show(entries[i]))
  }

  /** The common width: the longest printed entry in bytes, or 1 for a board without entries. */
  function Width(entries: seq<Entry>): nat {
    if entries == [] then 1 else MaxLen(Texts(entries))
  }

  /** Each printed entry right-aligned to the common width. */
  function Fields(entries: seq<Entry>): (fs: seq<string>)
    ensures |fs| == |entries|
  {
    var ts := Texts(entries);
    seq(|entries|, i requires 0 <= i < |entries| => Spaces(Width(entries) - ByteLen(ts[i])) + ts[i])
  }

  /** `f` is `t` right-aligned to `width` bytes: nothing but spaces before it. */
  predicate RightAligned(f: string, t: string, width: nat) {
    && |t| <= |f|
    && f[|f| - |t|..] == t
    && (forall j :: 0 <= j < |f| - |t| ==> f[j] == ' ')
    && ByteLen(f) == width
  }

  /** The fields line up: each is its entry's text right-aligned to the common width. */
  lemma FieldsAligned(entries: seq<Entry>)
    ensures forall i :: 0 <= i < |entries| ==> RightAligned(Fields(entries)[i], Show(entries[i]), Width(entries))
  {
    forall i | 0 <= i < |entries|
      ensures RightAligned(Fields(entries)[i], Show(entries[i]), Width(entries))
    {
      FieldAligned(entries, i);
    }
  }

  lemma FieldAligned(entries: seq<Entry>, i: nat)
    requires i < |entries|
    ensures RightAligned(Fields(entries)[i], Show(entries[i]), Width(entries))
  {
    var t := Texts(entries)[i];
    var pad := Spaces(Width(entries) - ByteLen(t));
    assert Fields(entries)[i] == pad + t;
    ByteLenConcat(pad, t);
    ByteLenAscii(pad);
    assert (pad + t)[|pad|..] == t;
  }

  /** The width is no wider than needed: some field has no padding at all. */
  lemma WidthTight(entries: seq<Entry>) returns (k: nat)
    requires entries != []
    ensures k < |entries| && Fields(entries)[k] == Show(entries[k])
  {
    var ts := Texts(entries);
    k := MaxLenAttained(ts);
    assert Spaces(0) == [];
    assert Fields(entries)[k] == Spaces(0) + ts[k];
  }

  /** A board: its entries and the pieces of its layout around them. */
  class Data {
    var entries: seq<Entry>
    const whitespace: seq<string>

    predicate Valid()
      reads this
    {
      |whitespace| == |entries| + 1
    }

    /** `State::new`: a blank board, one unknown entry between each two pieces. */
    constructor(whitespace: seq<string>)
      requires whitespace != []
      ensures Valid() && this.whitespace == whitespace
      ensures |entries| == |whitespace| - 1 && forall i :: 0 <= i < |entries| ==> entries[i].None?
    {
      this.whitespace := whitespace;
      entries := seq(|whitespace| - 1, _ => None);
    }

    /** A board holding entries that were read from the input. */
    constructor FromEntries(whitespace: seq<string>, entries: seq<Entry>)
      requires |whitespace| == |entries| + 1
      ensures Valid() && this.whitespace == whitespace && this.entries == entries
    {
      this.whitespace := whitespace;
      this.entries := entries;
    }

    /** `State::set`: the entry of one variable becomes known, and no other changes. */
    method Set(v: nat, val: int)
      requires v < |entries|
      modifies this
      ensures entries == old(entries)[v := Some(val)]
    {
      entries := entries[v := Some(val)];
    }

    /** `Display`: the first piece, then each right-aligned entry followed by the next piece. */
    method Render() returns (s: string)
      requires Valid()
      ensures s == Interleave(whitespace, Fields(entries))
    {
      var texts := Texts(entries);
      var maxLen := if entries == [] then 1 else MaxLen(texts);
      assert maxLen == Width(entries);
      ghost var fs := Fields(entries);
      s := whitespace[0];
      assert whitespace[..1] == [whitespace[0]];
      for i := 0 to |entries|
        invariant s == Interleave(whitespace[..i + 1], fs[..i])
      {
        var field := Spaces(maxLen - ByteLen(texts[i])) + texts[i];
        FieldAt(entries, i);
        InterleavePrefix(whitespace, fs, i);
        s := s + field + whitespace[i + 1];
      }
      assert whitespace[..|entries| + 1] == whitespace;
      assert fs[..|entries|] == fs;
    }
  }

  /** One field of `Display`: the entry's text, padded on the left to the common width. */
  lemma FieldAt(entries: seq<Entry>, i: nat)
    requires i < |entries|
    ensures Fields(entries)[i] == Spaces(Width(entries) - ByteLen(Texts(entries)[i])) + Texts(entries)[i]
  {
  }

  /**
   * `Data::new`: read a board from the input with the layout's pieces. A board comes back only if
   * the input is the pieces with one word between each two, every word reading as its entry.
   */
  method NewData(input: string, whitespace: seq<string>) returns (p: Parse, d: Data?)
    requires whitespace != []
    ensures (d != null) == p.Parsed?
    ensures d != null ==> fresh(d) && d.Valid() && d.whitespace == whitespace && d.entries == p.entries
    ensures p.Parsed? ==> exists words :: ReadsAs(ReadEntry, words, p.entries) && Interleave(whitespace, words) == input
    ensures |whitespace| == 1 && StartsWith(input, whitespace[0]) ==> p == Panicked
  {
    p := ParseAll(whitespace, input, ReadEntry);
    if p.Parsed? {
      d := new Data.FromEntries(whitespace, p.entries);
    } else {
      d := null;
    }
  }
}
