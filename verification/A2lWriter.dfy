/** The A2L writer: escaping, and lines indented by the depth of the open blocks. */
module A2lWriter {
  import opened A2lToken
  import opened Text
  import opened Wrappers

  // ----- Escaping -----

  predicate NeedsEscape(c: char) {
    c == '\\' || c == '\"' || c == '\n' || c == '\r' || c == '\t'
  }

  function EscapeChar(c: char): string {
    match c
    case '\n' => "\\n"
    case '\r' => "\\r"
    case '\t' => "\\t"
    case '\\' => "\\\\"
    case '\"' => "\\\""
    case _ => [c]
  }

  function Escape(s: string): string {
    if s == "" then "" else EscapeChar(s[0]) + Escape(s[1..])
  }

  /** The character a backslash and `c` stand for. */
  function Unescaped(c: char): char {
    match c
    case 'n' => '\n'
    case 'r' => '\r'
    case 't' => '\t'
    case other => other
  }

  function Unescape(s: string): string {
    if s == "" then ""
    else if s[0] != '\\' then [s[0]] + Unescape(s[1..])
    else if |s| == 1 then "\\"
    else [Unescaped(s[1])] + Unescape(s[2..])
  }

  lemma UnescapeChar(c: char, tail: string)
    ensures Unescape(EscapeChar(c) + tail) == [c] + Unescape(tail)
  {
    var e := EscapeChar(c);
    assert (e + tail)[|e|..] == tail;
  }

  /** Escaping loses nothing. */
  lemma {:induction false} UnescapeEscape(s: string)
    ensures Unescape(Escape(s)) == s
  {
    if s != "" {
      hide EscapeChar, Unescape;
      UnescapeEscape(s[1..]);
      UnescapeChar(s[0], Escape(s[1..]));
      assert s == [s[0]] + s[1..];
    }
  }

  lemma {:induction false} EscapeOfPlain(s: string)
    requires forall i :: 0 <= i < |s| ==> !NeedsEscape(s[i])
    ensures Escape(s) == s
  {
    if s != "" {
      EscapeOfPlain(s[1..]);
    }
  }

  lemma {:induction false} UnescapeOfPlain(s: string)
    requires '\\' !in s
    ensures Unescape(s) == s
  {
    if s != "" {
      UnescapeOfPlain(s[1..]);
    }
  }

  lemma EscapeAppend(s: string, c: char)
    ensures Escape(s + [c]) == Escape(s) + EscapeChar(c)
  {
    if s == "" {
      assert "" + EscapeChar(c) == EscapeChar(c) == EscapeChar(c) + "";
    } else {
      assert (s + [c])[1..] == s[1..] + [c];
    }
  }

  lemma ScanEscaped(c: char, tail: string, line: nat)
    ensures StringScan(['\\', c] + tail, line) == Later(2, StringScan(tail, line))
  {
    assert (['\\', c] + tail)[2..] == tail;
  }

  lemma ScanPlain(c: char, tail: string, line: nat)
    requires c != '\\' && c != '\"' && c != '\n'
    ensures StringScan([c] + tail, line) == Later(1, StringScan(tail, line))
  {
    assert ([c] + tail)[1..] == tail;
  }

  lemma ScanQuote(s: string, line: nat)
    requires s != "" && s[0] == '\"'
    ensures StringScan(s, line) == Some(Scan(0, line))
  {
  }

  lemma ScanChar(c: char, tail: string, line: nat)
    ensures StringScan(EscapeChar(c) + tail, line) == Later(|EscapeChar(c)|, StringScan(tail, line))
  {
    hide StringScan;
    if NeedsEscape(c) {
      ScanEscaped(EscapeChar(c)[1], tail, line);
      assert EscapeChar(c) == ['\\', EscapeChar(c)[1]];
    } else {
      ScanPlain(c, tail, line);
    }
  }

  lemma EscapeCons(s: string)
    requires s != ""
    ensures Escape(s) == EscapeChar(s[0]) + Escape(s[1..])
  {
  }

  /** Escaped text spans no lines and holds no quote that a lexer would stop at. */
  lemma {:induction false} EscapedIsOneString(s: string, rest: string, line: nat)
    ensures StringScan(Escape(s) + ("\"" + rest), line) == Some(Scan(|Escape(s)|, line))
  {
    hide EscapeChar, StringScan, Escape;
    var tail := "\"" + rest;
    if s == "" {
      EscapeOfPlain(s);
      ScanQuote(tail, line);
      assert s + tail == tail;
    } else {
      EscapeCons(s);
      EscapedIsOneString(s[1..], rest, line);
      ScanChar(s[0], Escape(s[1..]) + tail, line);
      assert Escape(s) + tail == EscapeChar(s[0]) + (Escape(s[1..]) + tail);
    }
  }

  method EscapeStr(input: string) returns (out: string)
    ensures out == Escape(input)
  {
    if forall i :: 0 <= i < |input| ==> !NeedsEscape(input[i]) {
      EscapeOfPlain(input);
      return input;
    }
    out := "";
    for i := 0 to |input|
      invariant out == Escape(input[..i])
    {
      EscapeAppend(input[..i], input[i]);
      assert input[..i + 1] == input[..i] + [input[i]];
      match input[i] {
        case '\n' => out := out + "\\n";
        case '\r' => out := out + "\\r";
        case '\t' => out := out + "\\t";
        case '\\' => out := out + "\\\\";
        case '\"' => out := out + "\\\"";
        case c => out := out + [c];
      }
    }
    assert input[..|input|] == input;
  }

  lemma UnescapeAt(s: string, i: nat)
    requires i < |s|
    ensures Unescape(s[i..]) == if s[i] != '\\' then [s[i]] + Unescape(s[i + 1..])
                                else if i + 1 == |s| then "\\"
                                else [Unescaped(s[i + 1])] + Unescape(s[i + 2..])
  {
    assert s[i..][1..] == s[i + 1..];
    if i + 1 < |s| {
      assert s[i..][2..] == s[i + 2..];
    }
  }

  method UnescapeStr(input: string) returns (out: string)
    ensures out == Unescape(input)
  {
    if '\\' !in input {
      UnescapeOfPlain(input);
      return input;
    }
    hide Unescape, Unescaped;
    out := "";
    var i := 0;
    assert input[0..] == input && out + Unescape(input) == Unescape(input);
    UnescapeOfPlain("");
    while i < |input|
      invariant 0 <= i <= |input|
      invariant out + Unescape(input[i..]) == Unescape(input)
    {
      UnescapeAt(input, i);
      var c := input[i];
      i := i + 1;
      if c == '\\' {
        if i < |input| {
          Onward(out, Unescaped(input[i]), Unescape(input[i + 1..]));
          out := out + [Unescaped(input[i])];
          i := i + 1;
        } else {
          Onward(out, c, "");
          out := out + "\\";
        }
      } else {
        Onward(out, c, Unescape(input[i..]));
        out := out + [c];
      }
    }
  }

  lemma Onward(out: string, c: char, rest: string)
    ensures out + ([c] + rest) == out + [c] + rest
  {
  }

  // ----- What the writer's calls append -----

  datatype WriterOptions = WriterOptions(columns: nat, indent: string)

  function Repeat(s: string, n: nat): string {
    if n == 0 then "" else s + Repeat(s, n - 1)
  }

  function ValueLineText(indent: string, tag: Option<string>, value: string): string {
    indent + (if tag.Some? then tag.value + " " else "") + value + "\n"
  }

  function TagValueText(indent: string, tag: Option<string>, value: Option<string>, quotes: bool): string {
    if quotes then ValueLineText(indent, tag, "\"" + Escape(value.GetOr("")) + "\"")
    else if value.None? then ""
    else ValueLineText(indent, tag, value.value)
  }

  /** What follows the `k`th reference. */
  function Separator(opts: WriterOptions, indent: string, k: nat): string {
    if k % (if opts.columns == 0 then 1 else opts.columns) == 0 then "\n" + indent else " "
  }

  /** The references with their separators, before trimming. */
  function References(opts: WriterOptions, indent: string, refs: seq<string>): string {
    if refs == [] then indent
    else
      var n := |refs| - 1;
      References(opts, indent, refs[..n]) + refs[n] + Separator(opts, indent, n + 1)
  }

  function ReferencesText(opts: WriterOptions, indent: string, refs: seq<string>): string {
    if refs == [] then "" else TrimEnd(References(opts, indent, refs)) + "\n"
  }

  // ----- The writer -----

  class Writer {
    var buf: string
    var depth: nat
    const opts: WriterOptions

    constructor (opts: WriterOptions)
      ensures buf == "" && depth == 0 && this.opts == opts
    {
      buf, depth, this.opts := "", 0, opts;
    }

    function Indent(): string
      reads this
    {
      Repeat(opts.indent, depth)
    }

    method BlankLine()
      modifies this`buf
      ensures buf == old(buf) + "\n"
    {
      buf := buf + "\n";
    }

    method TagValue(tag: Option<string>, value: Option<string>, quotes: bool)
      modifies this`buf
      ensures buf == old(buf) + TagValueText(Indent(), tag, value, quotes)
    {
      if value.None? && !quotes {
        assert buf + "" == buf;
        return;
      }
      var v := value.GetOr("");
      if quotes {
        v := EscapeStr(v);
      }
      var q := if quotes then "\"" else "";
      assert !quotes ==> q + v + q == v;
      buf := buf + (Indent() + (if tag.Some? then tag.value + " " else "") + (q + v + q) + "\n");
    }

    method ValueLine(tag: Option<string>, value: string)
      modifies this`buf
      ensures buf == old(buf) + ValueLineText(Indent(), tag, value)
    {
      buf := buf + (Indent() + (if tag.Some? then tag.value + " " else "") + value + "\n");
    }

    method AddReferences(refs: seq<string>)
      modifies this`buf
      ensures buf == old(buf) + ReferencesText(opts, Indent(), refs)
    {
      var indent := Indent();
      var line, col, any := indent, 0, false;
      for i := 0 to |refs|
        invariant col == i && (any <==> i > 0)
        invariant line == References(opts, indent, refs[..i])
      {
        any := true;
        col := col + 1;
        assert refs[..i + 1][..i] == refs[..i];
        if col % (if opts.columns == 0 then 1 else opts.columns) == 0 {
          line := line + refs[i] + ("\n" + indent);
        } else {
          line := line + refs[i] + " ";
        }
      }
      assert refs[..|refs|] == refs;
      if any {
        buf := buf + (TrimEnd(line) + "\n");
      }
    }

    method BeginBlock(keyword: string)
      modifies this
      ensures depth == old(depth) + 1
      ensures buf == old(buf) + ValueLineText(old(Indent()), Some("/begin"), keyword)
    {
      buf := buf + (Indent() + ("/begin" + " ") + keyword + "\n");
      depth := depth + 1;
    }

    method EndBlock(keyword: string)
      modifies this
      ensures depth == if old(depth) == 0 then 0 else old(depth) - 1
      ensures buf == old(buf) + ValueLineText(Indent(), Some("/end"), keyword)
    {
      depth := if depth == 0 then 0 else depth - 1;
      buf := buf + (Indent() + ("/end" + " ") + keyword + "\n");
    }
  }
}
