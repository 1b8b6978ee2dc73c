/** The A2L lexer. */
module A2lToken {
  import opened Text
  import opened Wrappers

  datatype Token = Token(text: string, line: nat, quoted: bool) {
    predicate IsBegin() {
      !quoted && EqIgnoreCase(text, "/begin")
    }

    predicate IsEnd() {
      !quoted && EqIgnoreCase(text, "/end")
    }
  }

  datatype Problem =
    | UnterminatedComment | UnterminatedString
    | NoKeywordAfterBegin | NoKeywordAfterEnd | UnmatchedEnd
    | WrongEnd(found: string, expected: string) | MissingEnd(expected: string)

  datatype ParseError = ParseError(line: nat, problem: Problem)

  predicate IsSpace(c: char) {
    c == ' ' || c == '\t' || c == '\r' || c == '\n'
  }

  predicate EndsWord(c: char) {
    IsSpace(c) || c == '\"'
  }

  // ----- Scanners: each looks at the text from its position on -----

  function WordLength(s: string): (n: nat)
    ensures n <= |s| && (n < |s| ==> EndsWord(s[n]))
    ensures forall i :: 0 <= i < n ==> !EndsWord(s[i])
  {
    if s == [] || EndsWord(s[0]) then 0 else 1 + WordLength(s[1..])
  }

  function LineLength(s: string): (n: nat)
    ensures n <= |s| && (n < |s| ==> s[n] == '\n')
  {
    if s == [] || s[0] == '\n' then 0 else 1 + LineLength(s[1..])
  }

  /** A length of scanned text and the line it ends on. */
  datatype Scan = Scan(length: nat, line: nat)

  /** The text up to and including the end of a block comment. */
  function CommentScan(s: string, line: nat): (r: Option<Scan>)
    ensures r.Some? ==> 2 <= r.value.length <= |s|
  {
    if s == [] then None
    else
      var here := if s[0] == '\n' then line + 1 else line;
      if s[0] == '*' && |s| > 1 && s[1] == '/' then Some(Scan(2, here))
      else Later(1, CommentScan(s[1..], here))
  }

  /** The text of a string before its closing quote; a backslash hides the character after it. */
  function StringScan(s: string, line: nat): (r: Option<Scan>)
    ensures r.Some? ==> r.value.length < |s| && s[r.value.length] == '\"'
  {
    if s == [] then None
    else if s[0] == '\\' then (if |s| < 2 then None else Later(2, StringScan(s[2..], line)))
    else if s[0] == '\"' then Some(Scan(0, line))
    else Later(1, StringScan(s[1..], if s[0] == '\n' then line + 1 else line))
  }

  function Later(n: nat, r: Option<Scan>): Option<Scan> {
    match r
    case None => None
    case Some(scan) => Some(Scan(n + scan.length, scan.line))
  }

  // ----- The token list of a text -----

  function Prepend(ts: seq<Token>, r: Result<seq<Token>, ParseError>): Result<seq<Token>, ParseError> {
    match r
    case Ok(more) => Ok(ts + more)
    case Err(e) => Err(e)
  }

  /** What the lexer does next: how far it moves, the line it gets to, and the token it emits, if any. */
  datatype Choice = Skip(length: nat, line: nat) | Emit(token: Token, length: nat, line: nat) | Stop(error: ParseError)

  function Choose(s: string, line: nat): (c: Choice)
    requires s != []
    ensures !c.Stop? ==> 0 < c.length <= |s|
  {
    if s[0] == '\n' then Skip(1, line + 1)
    else if IsSpace(s[0]) then Skip(1, line)
    else if s[0] == '/' && |s| > 1 && s[1] == '/' then Skip(2 + LineLength(s[2..]), line)
    else if s[0] == '/' && |s| > 1 && s[1] == '*' then
      match CommentScan(s[2..], line)
      case None => Stop(ParseError(line, UnterminatedComment))
      case Some(scan) => Skip(2 + scan.length, scan.line)
    else if s[0] == '\"' then
      match StringScan(s[1..], line)
      case None => Stop(ParseError(line, UnterminatedString))
      case Some(scan) => Emit(Token(s[1..1 + scan.length], line, true), 2 + scan.length, scan.line)
    else
      var n := WordLength(s);
      Emit(Token(s[..n], line, false), n, line)
  }

  function Lex(s: string, line: nat): Result<seq<Token>, ParseError>
    decreases |s|
  {
    if s == [] then Ok([])
    else match Choose(s, line)
      case Stop(e) => Err(e)
      case Skip(n, l) => Lex(s[n..], l)
      case Emit(token, n, l) => Prepend([token], Lex(s[n..], l))
  }

  lemma PrependNothing(r: Result<seq<Token>, ParseError>)
    ensures Prepend([], r) == r
  {
    if r.Ok? {
      assert [] + r.value == r.value;
    }
  }

  lemma PrependTwice(a: seq<Token>, b: seq<Token>, r: Result<seq<Token>, ParseError>)
    ensures Prepend(a, Prepend(b, r)) == Prepend(a + b, r)
  {
    if r.Ok? {
      assert a + (b + r.value) == a + b + r.value;
    }
  }

  /** The lexer's choice at position `i` of a text. */
  lemma ChooseAt(src: string, i: nat, line: nat)
    requires i < |src|
    ensures Choose(src[i..], line)
         == var c := src[i];
            var next := if i + 1 < |src| then src[i + 1] else ' ';
            if c == '\n' then Skip(1, line + 1)
            else if IsSpace(c) then Skip(1, line)
            else if c == '/' && next == '/' then Skip(2 + LineLength(src[i + 2..]), line)
            else if c == '/' && next == '*' then
              match CommentScan(src[i + 2..], line)
              case None => Stop(ParseError(line, UnterminatedComment))
              case Some(scan) => Skip(2 + scan.length, scan.line)
            else if c == '\"' then
              match StringScan(src[i + 1..], line)
              case None => Stop(ParseError(line, UnterminatedString))
              case Some(scan) => Emit(Token(src[i + 1..i + 1 + scan.length], line, true), 2 + scan.length, scan.line)
            else
              var n := WordLength(src[i..]);
              Emit(Token(src[i..i + n], line, false), n, line)
  {
    hide WordLength, LineLength, CommentScan, StringScan;
    var s := src[i..];
    Slice(src, i, 1);
    if |s| > 1 {
      Slice(src, i, 2);
    }
    if StringScan(s[1..], line).Some? {
      var n := StringScan(s[1..], line).value.length;
      assert s[1..1 + n] == src[i + 1..i + 1 + n];
    }
    Slice(src, i, WordLength(s));
  }

  lemma LexStep(src: string, i: nat, line: nat, tokens: seq<Token>)
    requires i < |src|
    ensures var c := Choose(src[i..], line);
            Prepend(tokens, Lex(src[i..], line))
            == match c
               case Stop(e) => Err(e)
               case Skip(n, l) => Prepend(tokens, Lex(src[i + n..], l))
               case Emit(token, n, l) => Prepend(tokens + [token], Lex(src[i + n..], l))
  {
    hide Choose;
    var c := Choose(src[i..], line);
    if !c.Stop? {
      Slice(src, i, c.length);
    }
    if c.Emit? {
      PrependTwice(tokens, [c.token], Lex(src[i + c.length..], c.line));
    }
  }

  lemma Slice(src: string, i: nat, n: nat)
    requires i + n <= |src|
    ensures src[i..][n..] == src[i + n..] && src[i..][..n] == src[i..i + n]
  {
  }

  lemma LexEnd(tokens: seq<Token>, src: string, i: nat, line: nat)
    requires i == |src|
    ensures Prepend(tokens, Lex(src[i..], line)) == Ok(tokens)
  {
    assert tokens + [] == tokens;
  }

  // ----- The lexer -----

  method Tokenize(src: string) returns (r: Result<seq<Token>, ParseError>)
    ensures r == Lex(src, 1)
  {
    hide WordLength, LineLength, CommentScan, StringScan, Lex, Prepend, Choose;
    var tokens: seq<Token> := [];
    var i, line := 0, 1;
    assert src[0..] == src;
    PrependNothing(Lex(src, 1));
    while i < |src|
      invariant 0 <= i <= |src|
      invariant Prepend(tokens, Lex(src[i..], line)) == Lex(src, 1)
      decreases |src| - i
    {
      LexStep(src, i, line, tokens);
      ChooseAt(src, i, line);
      var c := src[i];
      var next := if i + 1 < |src| then src[i + 1] else ' ';
      if c == '\n' {
        line := line + 1;
        i := i + 1;
      } else if IsSpace(c) {
        i := i + 1;
      } else if c == '/' && next == '/' {
        i := SkipLine(src, i + 2);
      } else if c == '/' && next == '*' {
        var after := SkipComment(src, i + 2, line);
        if after.None? {
          return Err(ParseError(line, UnterminatedComment));
        }
        i, line := i + 2 + after.value.length, after.value.line;
      } else if c == '\"' {
        var inside := SkipString(src, i + 1, line);
        if inside.None? {
          return Err(ParseError(line, UnterminatedString));
        }
        var end := i + 1 + inside.value.length;
        tokens := tokens + [Token(src[i + 1..end], line, true)];
        i, line := end + 1, inside.value.line;
      } else {
        var start := i;
        i := SkipWord(src, start);
        tokens := tokens + [Token(src[start..i], line, false)];
      }
    }
    LexEnd(tokens, src, i, line);
    r := Ok(tokens);
  }

  method SkipLine(src: string, from: nat) returns (i: nat)
    requires from <= |src|
    ensures i == from + LineLength(src[from..])
  {
    i := from;
    while i < |src| && src[i] != '\n'
      invariant from <= i <= |src|
      invariant i + LineLength(src[i..]) == from + LineLength(src[from..])
    {
      i := i + 1;
    }
  }

  method SkipWord(src: string, from: nat) returns (i: nat)
    requires from <= |src|
    ensures i == from + WordLength(src[from..])
  {
    i := from;
    while i < |src| && !EndsWord(src[i])
      invariant from <= i <= |src|
      invariant i + WordLength(src[i..]) == from + WordLength(src[from..])
    {
      i := i + 1;
    }
  }

  method SkipComment(src: string, from: nat, line: nat) returns (r: Option<Scan>)
    requires from <= |src|
    ensures r == CommentScan(src[from..], line)
  {
    var i, at := from, line;
    while i < |src|
      invariant from <= i <= |src|
      invariant Later(i - from, CommentScan(src[i..], at)) == CommentScan(src[from..], line)
    {
      if src[i] == '\n' {
        at := at + 1;
      }
      if src[i] == '*' && i + 1 < |src| && src[i + 1] == '/' {
        return Some(Scan(i + 2 - from, at));
      }
      i := i + 1;
    }
    r := None;
  }

  method SkipString(src: string, from: nat, line: nat) returns (r: Option<Scan>)
    requires from <= |src|
    ensures r == StringScan(src[from..], line)
  {
    hide StringScan;
    var i, at := from, line;
    while i < |src|
      invariant from <= i <= |src| + 1
      invariant if i <= |src| then Later(i - from, StringScan(src[i..], at)) == StringScan(src[from..], line)
                else StringScan(src[from..], line).None?
    {
      StringStep(src, i, at);
      if src[i] == '\\' {
        i := i + 2;
      } else if src[i] == '\"' {
        return Some(Scan(i - from, at));
      } else {
        if src[i] == '\n' {
          at := at + 1;
        }
        i := i + 1;
      }
    }
    StringEnd(src, i, at);
    r := None;
  }

  lemma StringStep(src: string, i: nat, line: nat)
    requires i < |src|
    ensures StringScan(src[i..], line)
         == if src[i] == '\\' then (if i + 2 > |src| then None else Later(2, StringScan(src[i + 2..], line)))
            else if src[i] == '\"' then Some(Scan(0, line))
            else Later(1, StringScan(src[i + 1..], if src[i] == '\n' then line + 1 else line))
  {
    assert src[i..][1..] == src[i + 1..];
    if i + 2 <= |src| {
      assert src[i..][2..] == src[i + 2..];
    }
  }

  lemma StringEnd(src: string, i: nat, line: nat)
    ensures i == |src| ==> StringScan(src[i..], line) == None
  {
  }
}
