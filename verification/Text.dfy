/** Characters, words separated by white space, and numbers in text. */
module Text {
  import opened Wrappers

  function Lower(c: char): char {
    if 'A' <= c <= 'Z' then c - 'A' + 'a' else c
  }

  predicate EqIgnoreCase(a: string, b: string) {
    |a| == |b| && forall i :: 0 <= i < |a| ==> Lower(a[i]) == Lower(b[i])
  }

  /** The Unicode White_Space property. */
  predicate IsWhite(c: char) {
    '\t' <= c <= '\r' || c == ' ' || c == '\U{85}' || c == '\U{A0}' || c == '\U{1680}'
    || '\U{2000}' <= c <= '\U{200A}' || c == '\U{2028}' || c == '\U{2029}' || c == '\U{202F}'
    || c == '\U{205F}' || c == '\U{3000}'
  }

  predicate AllWhite(s: string) {
    forall i :: 0 <= i < |s| ==> IsWhite(s[i])
  }

  /** A word that white space cannot split. */
  predicate IsWord(s: string) {
    s != "" && forall i :: 0 <= i < |s| ==> !IsWhite(s[i])
  }

  predicate AllWords(ts: seq<string>) {
    forall i :: 0 <= i < |ts| ==> IsWord(ts[i])
  }

  function TrimEnd(s: string): (t: string)
    ensures t <= s && (t == "" || !IsWhite(t[|t| - 1]))
    ensures forall i :: |t| <= i < |s| ==> IsWhite(s[i])
  {
    if s == "" || !IsWhite(s[|s| - 1]) then s else TrimEnd(s[..|s| - 1])
  }

  function TrimStart(s: string): (t: string)
    ensures t == "" || !IsWhite(t[0])
  {
    if s == "" || !IsWhite(s[0]) then s else TrimStart(s[1..])
  }

  // ----- Splitting at white space -----

  function DarkLength(s: string): (n: nat)
    ensures n <= |s| && (n < |s| ==> IsWhite(s[n]))
    ensures forall i :: 0 <= i < n ==> !IsWhite(s[i])
  {
    if s == "" || IsWhite(s[0]) then 0 else 1 + DarkLength(s[1..])
  }

  function Tokens(s: string): (ts: seq<string>)
    ensures AllWords(ts)
    decreases |s|
  {
    if s == "" then []
    else if IsWhite(s[0]) then Tokens(s[1..])
    else [s[..DarkLength(s)]] + Tokens(s[DarkLength(s)..])
  }

  lemma {:induction false} TokensAfterWhite(w: string, s: string)
    requires AllWhite(w)
    ensures Tokens(w + s) == Tokens(s)
  {
    if w == "" {
      assert w + s == s;
    } else {
      assert (w + s)[1..] == w[1..] + s;
      TokensAfterWhite(w[1..], s);
    }
  }

  lemma {:induction false} DarkLengthOf(w: string, s: string)
    requires forall i :: 0 <= i < |w| ==> !IsWhite(w[i])
    requires s == "" || IsWhite(s[0])
    ensures DarkLength(w + s) == |w|
  {
    if w == "" {
      assert w + s == s;
    } else {
      assert (w + s)[1..] == w[1..] + s;
      DarkLengthOf(w[1..], s);
    }
  }

  lemma TokensOfWord(w: string, s: string)
    requires IsWord(w) && (s == "" || IsWhite(s[0]))
    ensures Tokens(w + s) == [w] + Tokens(s)
  {
    hide DarkLength;
    DarkLengthOf(w, s);
    assert (w + s)[0] == w[0] && (w + s)[..|w|] == w && (w + s)[|w|..] == s;
  }

  // ----- Rows of words with the white space before them -----

  datatype Cell = Cell(before: string, word: string)

  function RowText(cells: seq<Cell>): string {
    if cells == [] then "" else cells[0].before + cells[0].word + RowText(cells[1..])
  }

  function Words(cells: seq<Cell>): (ts: seq<string>)
    ensures |ts| == |cells|
  {
    seq(|cells|, i requires 0 <= i < |cells| => cells[i].word)
  }

  /** White space before every word, and some of it before every word but perhaps the first. */
  ghost predicate Separated(cells: seq<Cell>) {
    forall i :: 0 <= i < |cells| ==> AllWhite(cells[i].before) && (i > 0 ==> cells[i].before != "")
  }

  /** A row splits into its words. */
  lemma {:induction false} TokensOfRow(cells: seq<Cell>)
    requires Separated(cells) && AllWords(Words(cells))
    ensures Tokens(RowText(cells)) == Words(cells)
  {
    if cells != [] {
      hide IsWhite, IsWord, Tokens;
      var c, more := cells[0], cells[1..];
      assert forall i :: 0 <= i < |more| ==> Words(more)[i] == Words(cells)[i + 1];
      TokensOfRow(more);
      WhiteFollows(cells);
      assert Words(cells)[0] == c.word;
      TokensOfWord(c.word, RowText(more));
      TokensAfterWhite(c.before, c.word + RowText(more));
      assert c.before + c.word + RowText(more) == c.before + (c.word + RowText(more));
      assert Words(cells) == [c.word] + Words(more);
    }
  }

  lemma WhiteFollows(cells: seq<Cell>)
    requires cells != [] && Separated(cells)
    ensures var s := RowText(cells[1..]); s == "" || IsWhite(s[0])
  {
    if |cells| > 1 {
      assert cells[1..][0] == cells[1];
    }
  }

  lemma {:induction false} RowConcat(a: seq<Cell>, b: seq<Cell>)
    ensures RowText(a + b) == RowText(a) + RowText(b)
  {
    if a == [] {
      assert a + b == b;
    } else {
      assert (a + b)[1..] == a[1..] + b;
      RowConcat(a[1..], b);
    }
  }

  // ----- Numbers -----

  datatype NumberBase = Hex | Decimal {
    function Radix(): nat {
      if Hex? then 16 else 10
    }

    /** Quotient and remainder by the radix. */
    function Split(v: nat): (r: (nat, nat))
      ensures r.0 * Radix() + r.1 == v && r.1 < Radix() && (v >= Radix() ==> r.0 < v)
    {
      if Hex? then (v / 16, v % 16) else (v / 10, v % 10)
    }
  }

  const DIGITS := "0123456789ABCDEF"

  function DigitValue(c: char, base: NumberBase): (d: Option<nat>)
    ensures d.Some? ==> d.value < base.Radix()
  {
    var v := if '0' <= c <= '9' then (c - '0') as int
             else if 'A' <= c <= 'Z' then (c - 'A') as int + 10
             else if 'a' <= c <= 'z' then (c - 'a') as int + 10
             else base.Radix();
    if v < base.Radix() then Some(v) else None
  }

  lemma DigitRoundTrip(d: nat, base: NumberBase)
    requires d < base.Radix()
    ensures DigitValue(DIGITS[d], base) == Some(d)
  {
    if d < 10 {
      DecimalDigit(d);
    } else {
      LetterDigit(d);
    }
  }

  lemma DecimalDigit(d: nat)
    requires d < 10
    ensures '0' <= DIGITS[d] <= '9' && (DIGITS[d] - '0') as int == d
  {
  }

  lemma LetterDigit(d: nat)
    requires 10 <= d < 16
    ensures 'A' <= DIGITS[d] <= 'F' && (DIGITS[d] - 'A') as int + 10 == d
  {
  }

  predicate IsDigit(c: char) {
    '0' <= c <= '9' || 'A' <= c <= 'F'
  }

  lemma DigitIsDigit(d: nat)
    requires d < 16
    ensures IsDigit(DIGITS[d])
  {
    if d < 10 {
      DecimalDigit(d);
    } else {
      LetterDigit(d);
    }
  }

  /** The shortest digits of a number, in capitals. */
  function Digits(v: nat, base: NumberBase): (s: string)
    ensures s != "" && forall i :: 0 <= i < |s| ==> IsDigit(s[i])
  {
    var (high, low) := base.Split(v);
    DigitIsDigit(low);
    if v < base.Radix() then [DIGITS[low]] else Digits(high, base) + [DIGITS[low]]
  }

  /** The value of digits of either case, unless a character is no digit or the value is too large. */
  function Number(s: string, base: NumberBase, max: nat): (v: Option<nat>)
    ensures v.Some? ==> v.value <= max
  {
    if s == "" then Some(0)
    else
      var high, low := Number(s[..|s| - 1], base, max), DigitValue(s[|s| - 1], base);
      if high.None? || low.None? || high.value * base.Radix() + low.value > max then None
      else Some(high.value * base.Radix() + low.value)
  }

  /** Reads an unsigned number: at least one digit, perhaps after a plus sign. */
  function ParseUnsigned(s: string, base: NumberBase, max: nat): (v: Option<nat>)
    ensures v.Some? ==> v.value <= max
  {
    if s == "" then None
    else if s[0] == '+' then (if |s| == 1 then None else Number(s[1..], base, max))
    else Number(s, base, max)
  }

  lemma NumberOfOne(d: nat, base: NumberBase, max: nat)
    requires d < base.Radix() && d <= max
    ensures Number([DIGITS[d]], base, max) == Some(d)
  {
    var s := [DIGITS[d]];
    assert s[..0] == "" && Number("", base, max) == Some(0);
    DigitRoundTrip(d, base);
  }

  lemma NumberOfMore(high: string, v: nat, d: nat, base: NumberBase, max: nat)
    requires Number(high, base, max) == Some(v) && d < base.Radix() && v * base.Radix() + d <= max
    ensures Number(high + [DIGITS[d]], base, max) == Some(v * base.Radix() + d)
  {
    hide DigitValue;
    var s := high + [DIGITS[d]];
    assert s[..|s| - 1] == high;
    DigitRoundTrip(d, base);
  }

  lemma {:induction false} NumberOfDigits(v: nat, base: NumberBase, max: nat)
    requires v <= max
    ensures Number(Digits(v, base), base, max) == Some(v)
  {
    hide Number;
    var (high, low) := base.Split(v);
    if v < base.Radix() {
      assert low == v;
      NumberOfOne(low, base, max);
    } else {
      NumberOfDigits(high, base, max);
      NumberOfMore(Digits(high, base), high, low, base, max);
    }
  }

  /** A written number reads back. */
  lemma ParseDigits(v: nat, base: NumberBase, max: nat)
    requires v <= max
    ensures ParseUnsigned(Digits(v, base), base, max) == Some(v)
  {
    hide Digits, Number;
    NumberOfDigits(v, base, max);
  }

  /** A leading zero does not matter. */
  lemma {:induction false} NumberOfZeroPadded(s: string, base: NumberBase, max: nat)
    ensures Number("0" + s, base, max) == Number(s, base, max)
  {
    hide DigitValue;
    var t := "0" + s;
    if s == "" {
      assert t == [DIGITS[0]];
      NumberOfOne(0, base, max);
    } else {
      assert t[..|t| - 1] == "0" + s[..|s| - 1];
      NumberOfZeroPadded(s[..|s| - 1], base, max);
    }
  }

  lemma DigitsAreAWord(v: nat, base: NumberBase)
    ensures IsWord(Digits(v, base))
  {
    hide Digits;
  }
}
