/** What the writer prints, the lexer and the block builders read back. */
module A2lPipeline {
  import opened A2lToken
  import opened A2lWriter
  import opened Wrappers

  function Newlines(s: string): nat {
    if s == "" then 0 else (if s[0] == '\n' then 1 else 0) + Newlines(s[1..])
  }

  lemma {:induction false} NewlinesOfConcat(a: string, b: string)
    ensures Newlines(a + b) == Newlines(a) + Newlines(b)
  {
    if a == "" {
      assert a + b == b;
    } else {
      assert (a + b)[1..] == a[1..] + b;
      NewlinesOfConcat(a[1..], b);
    }
  }

  lemma {:induction false} NoNewlines(s: string)
    requires '\n' !in s
    ensures Newlines(s) == 0
  {
    if s != "" {
      NoNewlines(s[1..]);
    }
  }

  // ----- Text that lexes to the same tokens whatever follows it -----

  ghost predicate Lexes(text: string, line: nat, ts: seq<Token>) {
    forall rest :: Lex(text + rest, line) == Prepend(ts, Lex(rest, line + Newlines(text)))
  }

  lemma LexesConcat(a: string, ts: seq<Token>, b: string, us: seq<Token>, line: nat)
    requires Lexes(a, line, ts) && Lexes(b, line + Newlines(a), us)
    ensures Lexes(a + b, line, ts + us)
  {
    hide Lex;
    NewlinesOfConcat(a, b);
    forall rest ensures Lex(a + b + rest, line) == Prepend(ts + us, Lex(rest, line + Newlines(a + b))) {
      assert a + b + rest == a + (b + rest);
      assert Lex(a + (b + rest), line) == Prepend(ts, Lex(b + rest, line + Newlines(a)));
      PrependTwice(ts, us, Lex(rest, line + Newlines(a + b)));
    }
  }

  lemma LexesNothing(line: nat)
    ensures Lexes("", line, [])
  {
    hide Lex;
    forall rest ensures Lex("" + rest, line) == Prepend([], Lex(rest, line + Newlines(""))) {
      assert "" + rest == rest;
      PrependNothing(Lex(rest, line));
    }
  }

  ghost predicate Blank(s: string) {
    forall i :: 0 <= i < |s| ==> IsSpace(s[i])
  }

  lemma {:induction false} LexesBlank(s: string, line: nat)
    requires Blank(s)
    ensures Lexes(s, line, [])
  {
    LexesNothing(line);
    if s != "" {
      hide Lexes;
      LexesOneBlank(s[0], line);
      LexesBlank(s[1..], line + Newlines([s[0]]));
      LexesConcat([s[0]], [], s[1..], [], line);
      ghost var none: seq<Token> := [];
      assert [s[0]] + s[1..] == s && none + none == none;
    }
  }

  lemma LexesOneBlank(c: char, line: nat)
    requires IsSpace(c)
    ensures Lexes([c], line, [])
  {
    var next := line + Newlines([c]);
    assert next == if c == '\n' then line + 1 else line by {
      assert [c][1..] == "" && Newlines([c][1..]) == 0;
    }
    forall rest ensures Lex([c] + rest, line) == Prepend([], Lex(rest, next)) {
      hide Lex, Choose;
      var s := [c] + rest;
      assert s[0..] == s && s[1..] == rest;
      ChooseBlank(s, line);
      LexStep(s, 0, line, []);
      PrependNothing(Lex(s, line));
    }
  }

  lemma ChooseBlank(s: string, line: nat)
    requires s != "" && IsSpace(s[0])
    ensures Choose(s, line) == Skip(1, if s[0] == '\n' then line + 1 else line)
  {
  }

  // ----- Words -----

  /** A text the lexer takes for one unquoted token. */
  ghost predicate CleanWord(w: string) {
    && w != ""
    && (forall i :: 0 <= i < |w| ==> !EndsWord(w[i]))
    && !("//" <= w) && !("/*" <= w)
  }

  lemma {:induction false} WordEndsAt(w: string, c: char, rest: string)
    requires forall i :: 0 <= i < |w| ==> !EndsWord(w[i])
    requires EndsWord(c)
    ensures WordLength(w + ([c] + rest)) == |w|
  {
    var s := w + ([c] + rest);
    if w != "" {
      assert s[1..] == w[1..] + ([c] + rest);
      WordEndsAt(w[1..], c, rest);
    }
  }

  lemma ChooseWord(w: string, c: char, rest: string, line: nat)
    requires CleanWord(w) && IsSpace(c)
    ensures Choose(w + ([c] + rest), line) == Emit(Token(w, line, false), |w|, line)
  {
    hide WordLength;
    var s := w + ([c] + rest);
    WordEndsAt(w, c, rest);
    assert s[..|w|] == w;
    assert s[0] == w[0] && !EndsWord(w[0]);
    if s[0] == '/' && |w| > 1 {
      assert s[1] == w[1];
      assert w[..2] == [w[0], w[1]];
    }
  }

  lemma LexesWord(w: string, c: char, line: nat)
    requires CleanWord(w) && IsSpace(c)
    ensures Lexes(w + [c], line, [Token(w, line, false)])
  {
    hide Lex, Choose;
    LexesOneBlank(c, line);
    forall rest
      ensures Lex(w + [c] + rest, line) == Prepend([Token(w, line, false)], Lex(rest, line + Newlines(w + [c]))) {
      var s := w + ([c] + rest);
      assert w + [c] + rest == s && s[0..] == s && s[|w|..] == [c] + rest;
      ChooseWord(w, c, rest, line);
      LexStep(s, 0, line, []);
      PrependNothing(Lex(s, line));
      assert [] + [Token(w, line, false)] == [Token(w, line, false)];
      NoNewlines(w);
      NewlinesOfConcat(w, [c]);
      assert Lex([c] + rest, line) == Prepend([], Lex(rest, line + Newlines([c])));
      PrependNothing(Lex(rest, line + Newlines([c])));
    }
  }

  /** The clean words are exactly the texts that lex to themselves. */
  lemma WordIsClean(w: string, line: nat)
    ensures Lex(w, line) == Ok([Token(w, line, false)]) <==> CleanWord(w)
  {
    hide WordLength;
    if CleanWord(w) {
      AllWord(w);
      assert w[..|w|] == w && w[|w|..] == "";
      if w[0] == '/' && |w| > 1 {
        assert w[..2] == [w[0], w[1]];
      }
      assert !EndsWord(w[0]);
      assert Choose(w, line) == Emit(Token(w, line, false), |w|, line);
      assert Lex(w, line) == Prepend([Token(w, line, false)], Lex("", line));
      assert [Token(w, line, false)] + [] == [Token(w, line, false)];
    } else if Lex(w, line) == Ok([Token(w, line, false)]) {
      hide Lex;
      NotClean(w, line);
    }
  }

  lemma {:induction false} AllWord(w: string)
    requires forall i :: 0 <= i < |w| ==> !EndsWord(w[i])
    ensures WordLength(w) == |w|
  {
    if w != "" {
      AllWord(w[1..]);
    }
  }

  lemma NotClean(w: string, line: nat)
    requires Lex(w, line) == Ok([Token(w, line, false)])
    ensures CleanWord(w)
  {
    if w != "" {
      hide Lex, WordLength, StringScan, CommentScan, LineLength;
      LexUnfold(w, line);
      match Choose(w, line) {
        case Stop(e) =>
        case Skip(n, l) =>
          assert Lex(w[n..], l).value[0].text == w;
          TokensFit(w[n..], l);
        case Emit(token, n, l) =>
          var more := Lex(w[n..], l);
          assert Lex(w, line).value == [token] + more.value;
          assert Lex(w, line).value[0] == token;
      }
    }
  }

  lemma LexUnfold(s: string, line: nat)
    requires s != ""
    ensures Lex(s, line) == match Choose(s, line)
      case Stop(e) => Err(e)
      case Skip(n, l) => Lex(s[n..], l)
      case Emit(token, n, l) => Prepend([token], Lex(s[n..], l))
  {
    hide Choose;
  }

  /** No token is longer than the text it came from. */
  lemma {:induction false} TokensFit(s: string, line: nat)
    ensures Lex(s, line).Ok? ==> forall i :: 0 <= i < |Lex(s, line).value| ==> |Lex(s, line).value[i].text| <= |s|
    decreases |s|
  {
    if s != "" {
      hide Lex;
      LexUnfold(s, line);
      match Choose(s, line) {
        case Stop(e) =>
        case Skip(n, l) => TokensFit(s[n..], l);
        case Emit(token, n, l) => TokensFit(s[n..], l);
      }
    }
  }

  // ----- Strings -----

  lemma LexesString(v: string, line: nat)
    ensures Lexes("\"" + Escape(v) + "\"", line, [Token(Escape(v), line, true)])
  {
    hide Lex, Choose, StringScan, Escape;
    var e := Escape(v);
    var text := "\"" + e + "\"";
    EscapedHasNoNewline(v);
    NoNewlines(text);
    forall rest ensures Lex(text + rest, line) == Prepend([Token(e, line, true)], Lex(rest, line + Newlines(text))) {
      var s := text + rest;
      assert s[1..] == e + ("\"" + rest) && s[0..] == s && s[2 + |e|..] == rest && s[1..1 + |e|] == e;
      EscapedIsOneString(v, rest, line);
      ChooseString(s, |e|, line);
      LexStep(s, 0, line, []);
      PrependNothing(Lex(s, line));
      assert [] + [Token(e, line, true)] == [Token(e, line, true)];
    }
  }

  lemma ChooseString(s: string, n: nat, line: nat)
    requires s != "" && s[0] == '\"' && StringScan(s[1..], line) == Some(Scan(n, line))
    ensures Choose(s, line) == Emit(Token(s[1..1 + n], line, true), 2 + n, line)
  {
    hide StringScan;
  }

  lemma {:induction false} EscapedHasNoNewline(v: string)
    ensures '\n' !in Escape(v)
  {
    if v != "" {
      EscapedHasNoNewline(v[1..]);
    }
  }

  // ----- Comments -----

  /** A line comment is as good as nothing. */
  lemma LexesLineComment(text: string, line: nat)
    requires '\n' !in text
    ensures Lexes("//" + text + "\n", line, [])
  {
    hide Lex, Choose, LineLength;
    var all := "//" + text + "\n";
    NoNewlines("//" + text);
    NewlinesOfConcat("//" + text, "\n");
    LexesOneBlank('\n', line);
    forall rest ensures Lex(all + rest, line) == Prepend([], Lex(rest, line + Newlines(all))) {
      var s := all + rest;
      assert s[2..] == text + ("\n" + rest) && s[0..] == s && s[2 + |text|..] == "\n" + rest;
      LineEndsAt(text, rest);
      ChooseLineComment(s, line);
      LexStep(s, 0, line, []);
      PrependNothing(Lex(s, line));
      assert Lex("\n" + rest, line) == Prepend([], Lex(rest, line + Newlines("\n")));
      PrependNothing(Lex("\n" + rest, line));
    }
  }

  lemma ChooseLineComment(s: string, line: nat)
    requires |s| >= 2 && s[0] == '/' && s[1] == '/'
    ensures Choose(s, line) == Skip(2 + LineLength(s[2..]), line)
  {
    hide LineLength;
  }

  lemma {:induction false} LineEndsAt(text: string, rest: string)
    requires '\n' !in text
    ensures LineLength(text + ("\n" + rest)) == |text|
  {
    var s := text + ("\n" + rest);
    if text != "" {
      assert s[1..] == text[1..] + ("\n" + rest);
      LineEndsAt(text[1..], rest);
    }
  }

  /** A block comment only moves the line on. */
  lemma LexesBlockComment(text: string, line: nat)
    requires forall i :: 0 <= i < |text| - 1 ==> !(text[i] == '*' && text[i + 1] == '/')
    ensures Lexes("/*" + text + "*/", line, [])
  {
    hide Lex, Choose, CommentScan;
    var all := "/*" + text + "*/";
    NewlinesOfConcat("/*" + text, "*/");
    NewlinesOfConcat("/*", text);
    NoNewlines("/*");
    NoNewlines("*/");
    forall rest ensures Lex(all + rest, line) == Prepend([], Lex(rest, line + Newlines(all))) {
      var s := all + rest;
      assert s[2..] == text + ("*/" + rest) && s[0..] == s && s[4 + |text|..] == rest;
      CommentEndsAt(text, rest, line);
      ChooseBlockComment(s, |text| + 2, line, line + Newlines(text));
      LexStep(s, 0, line, []);
      PrependNothing(Lex(s, line));
    }
  }

  lemma ChooseBlockComment(s: string, n: nat, line: nat, after: nat)
    requires |s| >= 2 && s[0] == '/' && s[1] == '*' && CommentScan(s[2..], line) == Some(Scan(n, after))
    ensures Choose(s, line) == Skip(2 + n, after)
  {
    hide CommentScan;
  }

  lemma {:induction false} CommentEndsAt(text: string, rest: string, line: nat)
    requires forall i :: 0 <= i < |text| - 1 ==> !(text[i] == '*' && text[i + 1] == '/')
    ensures CommentScan(text + ("*/" + rest), line) == Some(Scan(|text| + 2, line + Newlines(text)))
  {
    var s := text + ("*/" + rest);
    if text != "" {
      assert s[1..] == text[1..] + ("*/" + rest);
      CommentEndsAt(text[1..], rest, if s[0] == '\n' then line + 1 else line);
      if |text| > 1 {
        assert s[1] == text[1];
      }
    }
  }
}
