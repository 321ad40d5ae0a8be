/**
 * String helpers shared by the text layer: searching, Rust's `str::lines`, space padding,
 * decimal printing and the standard integer parsers (`u32::from_str`, `i32::from_str`).
 * Strings are sequences of Unicode scalar values, as Rust's `chars()` sees them.
 */
module Text {
  import opened Options

  function Max(x: nat, y: nat): nat { if x < y then y else x }

  /** `n` spaces, what `format!("{:n$}", "")` produces. */
  function Spaces(n: nat): (s: string)
    ensures |s| == n
    ensures forall i :: 0 <= i < n ==> s[i] == ' '
  {
    seq(n, _ => ' ')
  }

  /** The number of bytes `c` takes in UTF-8. */
  function CharBytes(c: char): nat {
    if c as int < 0x80 then 1 else if c as int < 0x800 then 2 else if c as int < 0x1_0000 then 3 else 4
  }

  /** `str::len`: the length of `s` in UTF-8 bytes, never less than its number of characters. */
  function ByteLen(s: string): (n: nat)
    ensures |s| <= n <= 4 * |s|
  {
    if s == [] then 0 else ByteLen(s[..|s| - 1]) + CharBytes(s[|s| - 1])
  }

  lemma {:induction false} ByteLenConcat(a: string, b: string)
    ensures ByteLen(a + b) == ByteLen(a) + ByteLen(b)
    decreases |b|
  {
    if b == [] {
      assert a + b == a;
    } else {
      assert (a + b)[..|a + b| - 1] == a + b[..|b| - 1];
      ByteLenConcat(a, b[..|b| - 1]);
    }
  }

  /** Text made of ASCII characters only has as many bytes as characters. */
  lemma {:induction false} ByteLenAscii(s: string)
    requires forall i :: 0 <= i < |s| ==> s[i] as int < 0x80
    ensures ByteLen(s) == |s|
  {
    if s != [] {
      ByteLenAscii(s[..|s| - 1]);
    }
  }

  /* ---------- letters ---------- */

  predicate IsLetter(c: char) {
    'A' <= c <= 'Z' || 'a' <= c <= 'z'
  }

  /** The letter's place in the alphabet, 1 for `a` and `A` up to 26 for `z` and `Z`. */
  function AlphabetIndex(c: char): (k: int)
    requires IsLetter(c)
    ensures 1 <= k <= 26
  {
    if c <= 'Z' then c as int - 'A' as int + 1 else c as int - 'a' as int + 1
  }

  /** The upper-case form of a letter: the upper-case letter at the same place in the alphabet. */
  function Upper(c: char): (u: char)
    requires IsLetter(c)
    ensures 'A' <= u <= 'Z' && AlphabetIndex(u) == AlphabetIndex(c)
  {
    if c <= 'Z' then c else (c as int - 32) as char
  }

  /* ---------- searching ---------- */

  /** `pat` occurs in `s` starting at index `j`. */
  predicate Occurs(s: string, pat: string, j: nat) {
    j + |pat| <= |s| && s[j..j + |pat|] == pat
  }

  /** `str::find(pat)`: the first index at or after `from` where `pat` occurs. */
  function FindFrom(s: string, pat: string, from: nat): (r: Option<nat>)
    ensures r.Some? ==> from <= r.value && Occurs(s, pat, r.value)
    ensures r.Some? ==> forall j :: from <= j < r.value ==> !Occurs(s, pat, j)
    ensures r.None? ==> forall j :: from <= j ==> !Occurs(s, pat, j)
    decreases |s| - from
  {
    if from + |pat| > |s| then None
    else if s[from..from + |pat|] == pat then Some(from)
    else FindFrom(s, pat, from + 1)
  }

  function Find(s: string, pat: string): (r: Option<nat>)
    ensures r.Some? ==> Occurs(s, pat, r.value) && forall j :: 0 <= j < r.value ==> !Occurs(s, pat, j)
    ensures r.None? ==> forall j :: 0 <= j ==> !Occurs(s, pat, j)
  {
    FindFrom(s, pat, 0)
  }

  /** `str::find(c)` for a single character. */
  function IndexOf(s: string, c: char): (r: Option<nat>)
    ensures r.Some? ==> r.value < |s| && s[r.value] == c && c !in s[..r.value]
    ensures r.None? ==> c !in s
  {
    if s == [] then None
    else if s[0] == c then Some(0)
    else match IndexOf(s[1..], c)
      case None => None
      case Some(i) => assert s[..i + 1] == [s[0]] + s[1..][..i]; Some(i + 1)
  }

  /** The first occurrence is the one with none before it. */
  lemma {:induction false} IndexOfAt(s: string, c: char, n: nat)
    requires n < |s| && s[n] == c && c !in s[..n]
    ensures IndexOf(s, c) == Some(n)
  {
    if n > 0 {
      assert s[0] in s[..n];
      assert s[1..][..n - 1] == s[..n][1..];
      IndexOfAt(s[1..], c, n - 1);
    }
  }

  /* ---------- Rust's `str::lines` ---------- */

  /** A line taken up to a `'\n'` loses one trailing `'\r'` as well. */
  function StripCr(line: string): string {
    if line != [] && line[|line| - 1] == '\r' then line[..|line| - 1] else line
  }

  /**
   * `str::lines`: the pieces between `'\n'`s, each without a `"\r"` just before its `'\n'`;
   * no empty last line after a final `'\n'`, and no line at all for the empty string.
   */
  function Lines(s: string): (ls: seq<string>)
    ensures forall i :: 0 <= i < |ls| ==> '\n' !in ls[i]
    ensures s != [] <==> ls != []
    decreases |s|
  {
    if s == [] then []
    else match IndexOf(s, '\n')
      case None => [s]
      case Some(i) =>
        assert forall c :: c in StripCr(s[..i]) ==> c in s[..i];
        [StripCr(s[..i])] + Lines(s[i + 1..])
  }

  /** Each line followed by a newline, as a loop of `writeln!` prints them. */
  function Unlines(ls: seq<string>): string {
    if ls == [] then [] else ls[0] + "\n" + Unlines(ls[1..])
  }

  lemma {:induction false} UnlinesConcat(a: seq<string>, b: seq<string>)
    ensures Unlines(a + b) == Unlines(a) + Unlines(b)
  {
    if a == [] {
      assert a + b == b;
    } else {
      assert (a + b)[0] == a[0];
      assert (a + b)[1..] == a[1..] + b;
      UnlinesConcat(a[1..], b);
    }
  }

  /** `lines` reads back exactly the lines that were printed, if none holds a line break. */
  lemma {:induction false} LinesOfUnlines(ls: seq<string>)
    requires forall i :: 0 <= i < |ls| ==> '\n' !in ls[i] && (ls[i] == [] || ls[i][|ls[i]| - 1] != '\r')
    ensures Lines(Unlines(ls)) == ls
  {
    if ls != [] {
      var s := Unlines(ls);
      var n := |ls[0]|;
      assert s == ls[0] + "\n" + Unlines(ls[1..]);
      assert s[n] == '\n';
      assert s[..n] == ls[0];
      IndexOfAt(s, '\n', n);
      assert s[n + 1..] == Unlines(ls[1..]);
      LinesOfUnlines(ls[1..]);
    }
  }

  /* ---------- decimal numerals ---------- */

  predicate IsDigit(c: char) { '0' <= c <= '9' }

  predicate AllDigits(s: string) {
    forall i :: 0 <= i < |s| ==> IsDigit(s[i])
  }

  /** The value of a string of decimal digits, most significant first. */
  function DigitsValue(s: string): nat
    requires AllDigits(s)
  {
    if s == [] then 0
    else 10 * DigitsValue(s[..|s| - 1]) + (s[|s| - 1] as int - '0' as int)
  }

  /** `n` in decimal without leading zeros, what `write!(f, "{}", n)` prints. */
  function Decimal(n: nat): (s: string)
    ensures s != [] && AllDigits(s)
    ensures |s| > 1 ==> s[0] != '0'
    ensures DigitsValue(s) == n
  {
    var d := [(n % 10 + '0' as int) as char];
    if n < 10 then d
    else
      var s := Decimal(n / 10) + d;
      assert s[..|s| - 1] == Decimal(n / 10);
      s
  }

  /** A signed integer in decimal, with `-` when negative. */
  function SignedDecimal(n: int): (s: string)
    ensures s != []
  {
    if n < 0 then "-" + Decimal(-n) else Decimal(n)
  }

  /** The digit string is the only one without leading zeros that has its value. */
  lemma {:induction false} DecimalUnique(s: string)
    requires s != [] && AllDigits(s) && (|s| > 1 ==> s[0] != '0')
    ensures Decimal(DigitsValue(s)) == s
  {
    var n := DigitsValue(s);
    var last := s[|s| - 1] as int - '0' as int;
    if |s| == 1 {
      assert n == last;
    } else {
      var init := s[..|s| - 1];
      assert init[0] == s[0];
      assert init != [] && AllDigits(init) && (|init| > 1 ==> init[0] != '0');
      DecimalUnique(init);
      DigitsNotZero(init);
      assert n / 10 == DigitsValue(init) && n % 10 == last;
      assert s == init + [s[|s| - 1]];
    }
  }

  /** A digit string that does not start with '0' has a non-zero value of at least ten per extra digit. */
  lemma {:induction false} DigitsNotZero(s: string)
    requires s != [] && AllDigits(s) && s[0] != '0'
    ensures DigitsValue(s) > 0
  {
    if |s| > 1 {
      var init := s[..|s| - 1];
      assert init[0] == s[0];
      DigitsNotZero(init);
    }
  }

  /**
   * The standard `FromStr` for an unsigned integer type whose largest value is `max`: an optional
   * `+`, then one or more decimal digits whose value is at most `max`.
   */
  function ParseUnsigned(s: string, max: nat): (r: Option<nat>)
    ensures r.Some? ==> r.value <= max
  {
    var digits := if s != [] && s[0] == '+' then s[1..] else s;
    if digits != [] && AllDigits(digits) && DigitsValue(digits) <= max then Some(DigitsValue(digits))
    else None
  }

  /**
   * The standard `FromStr` for a signed integer type holding `-(max + 1) ..= max`: an optional
   * `+` or `-`, then one or more decimal digits, the value in range.
   */
  function ParseSigned(s: string, max: nat): (r: Option<int>)
    ensures r.Some? ==> -(max + 1) <= r.value <= max
  {
    if s != [] && s[0] == '-' then
      var digits := s[1..];
      if digits != [] && AllDigits(digits) && DigitsValue(digits) <= max + 1 then Some(0 - DigitsValue(digits) as int)
      else None
    else
      var digits := if s != [] && s[0] == '+' then s[1..] else s;
      if digits != [] && AllDigits(digits) && DigitsValue(digits) <= max then Some(DigitsValue(digits))
      else None
  }

  /** Printing a number and parsing it back gives the number. */
  lemma ParseUnsignedDecimal(n: nat, max: nat)
    requires n <= max
    ensures ParseUnsigned(Decimal(n), max) == Some(n)
  {
  }

  lemma ParseSignedDecimal(n: int, max: nat)
    requires -(max + 1) <= n <= max
    ensures ParseSigned(SignedDecimal(n), max) == Some(n)
  {
    if n < 0 {
      assert SignedDecimal(n)[1..] == Decimal(-n);
    }
  }
}
