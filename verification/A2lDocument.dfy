/** Documents: what is emitted through the writer, and what lexing and building give back. */
module A2lDocument {
  import opened A2lBlock
  import opened A2lPipeline
  import opened A2lToken
  import opened A2lWriter
  import opened Text
  import opened Wrappers

  /** One call of the writer, or a block with the calls between its begin and its end. */
  datatype Entry =
    | Line(tag: Option<string>, words: seq<string>)
    | Value(tag: Option<string>, value: Option<string>)
    | Text(tag: Option<string>, value: Option<string>)
    | Refs(refs: seq<string>)
    | Gap
    | Sub(keyword: string, body: seq<Entry>)

  function Join(words: seq<string>): string {
    if words == [] then "" else if |words| == 1 then words[0] else words[0] + " " + Join(words[1..])
  }

  function Print(entries: seq<Entry>, opts: WriterOptions, depth: nat): string {
    if entries == [] then "" else PrintOne(entries[0], opts, depth) + Print(entries[1..], opts, depth)
  }

  function PrintOne(entry: Entry, opts: WriterOptions, depth: nat): string {
    var indent := Repeat(opts.indent, depth);
    match entry
    case Line(tag, words) => ValueLineText(indent, tag, Join(words))
    case Value(tag, value) => TagValueText(indent, tag, value, false)
    case Text(tag, value) => TagValueText(indent, tag, value, true)
    case Refs(refs) => ReferencesText(opts, indent, refs)
    case Gap => "\n"
    case Sub(keyword, body) =>
      ValueLineText(indent, Some("/begin"), keyword) + Print(body, opts, depth + 1)
      + ValueLineText(indent, Some("/end"), keyword)
  }

  method EmitOne(w: Writer, entry: Entry)
    modifies w
    ensures w.depth == old(w.depth)
    ensures w.buf == old(w.buf) + PrintOne(entry, w.opts, old(w.depth))
    decreases entry
  {
    match entry {
      case Line(tag, words) => w.ValueLine(tag, Join(words));
      case Value(tag, value) => w.TagValue(tag, value, false);
      case Text(tag, value) => w.TagValue(tag, value, true);
      case Refs(refs) => w.AddReferences(refs);
      case Gap => w.BlankLine();
      case Sub(keyword, body) => EmitBlock(w, keyword, body);
    }
  }

  /** A block around whatever its body emits. */
  method EmitBlock(w: Writer, keyword: string, body: seq<Entry>)
    modifies w
    ensures w.depth == old(w.depth)
    ensures w.buf == old(w.buf) + PrintOne(Sub(keyword, body), w.opts, old(w.depth))
    decreases body, 1
  {
    hide Print, PrintOne, ValueLineText, Repeat;
    ghost var before := w.buf;
    w.BeginBlock(keyword);
    EmitBody(w, body);
    w.EndBlock(keyword);
    PrintSub(Sub(keyword, body), w.opts, w.depth);
    ghost var begin := ValueLineText(Repeat(w.opts.indent, w.depth), Some("/begin"), keyword);
    ghost var end := ValueLineText(Repeat(w.opts.indent, w.depth), Some("/end"), keyword);
    ghost var inside := Print(body, w.opts, w.depth + 1);
    assert before + begin + inside + end == before + (begin + inside + end);
  }

  lemma PrintSub(entry: Entry, opts: WriterOptions, depth: nat)
    requires entry.Sub?
    ensures PrintOne(entry, opts, depth)
         == ValueLineText(Repeat(opts.indent, depth), Some("/begin"), entry.keyword)
           + Print(entry.body, opts, depth + 1)
            + ValueLineText(Repeat(opts.indent, depth), Some("/end"), entry.keyword)
  {
  }

  method EmitBody(w: Writer, entries: seq<Entry>)
    modifies w
    ensures w.depth == old(w.depth)
    ensures w.buf == old(w.buf) + Print(entries, w.opts, old(w.depth))
    decreases entries, 0
  {
    if entries != [] {
      EmitOne(w, entries[0]);
      EmitBody(w, entries[1..]);
    }
  }

  // ----- What the reader should see -----

  /** An item without its line, its strings unescaped. */
  datatype Part = Word(word: string) | Quoted(value: string) | Group(keyword: string, parts: seq<Part>)

  function WordParts(words: seq<string>): seq<Part> {
    if words == [] then [] else [Word(words[0])] + WordParts(words[1..])
  }

  function TagPart(tag: Option<string>): seq<Part> {
    if tag.Some? then [Word(tag.value)] else []
  }

  function Parts(entries: seq<Entry>): seq<Part> {
    if entries == [] then [] else PartsOf(entries[0]) + Parts(entries[1..])
  }

  function PartsOf(entry: Entry): seq<Part> {
    match entry
    case Line(tag, words) => TagPart(tag) + WordParts(words)
    case Value(tag, value) => if value.None? then [] else TagPart(tag) + [Word(value.value)]
    case Text(tag, value) => TagPart(tag) + [Quoted(value.GetOr(""))]
    case Refs(refs) => WordParts(refs)
    case Gap => []
    case Sub(keyword, body) => [Group(keyword, Parts(body))]
  }

  function PartOf(item: Item): Part {
    match item
    case Param(t) => if t.quoted then Quoted(Unescape(t.text)) else Word(t.text)
    case Child(b) => Group(b.keyword, PartsOfItems(b.items))
  }

  function PartsOfItems(items: seq<Item>): seq<Part> {
    if items == [] then [] else [PartOf(items[0])] + PartsOfItems(items[1..])
  }

  /** A parameter the lexer takes for one token and the builder for no delimiter. */
  ghost predicate CleanParam(w: string) {
    CleanWord(w) && !EqIgnoreCase(w, "/begin") && !EqIgnoreCase(w, "/end")
  }

  ghost predicate CleanTag(tag: Option<string>) {
    tag.Some? ==> CleanParam(tag.value)
  }

  ghost predicate CleanParams(words: seq<string>) {
    forall i :: 0 <= i < |words| ==> CleanParam(words[i])
  }

  ghost predicate Clean(entries: seq<Entry>) {
    forall i :: 0 <= i < |entries| ==> CleanOne(entries[i])
  }

  /** Keywords and unquoted parameters are clean; strings are arbitrary. */
  ghost predicate CleanOne(entry: Entry) {
    match entry
    case Line(tag, words) => CleanTag(tag) && CleanParams(words)
    case Value(tag, value) => CleanTag(tag) && (value.Some? ==> CleanParam(value.value))
    case Text(tag, value) => CleanTag(tag)
    case Refs(refs) => CleanParams(refs) && EndsDark(refs)
    case Gap => true
    case Sub(keyword, body) => CleanWord(keyword) && forall i :: 0 <= i < |body| ==> CleanOne(body[i])
  }

  /** The last reference does not end in a character that trimming takes away. */
  predicate EndsDark(refs: seq<string>) {
    refs == [] || refs[|refs| - 1] == "" || !IsWhite(refs[|refs| - 1][|refs[|refs| - 1]| - 1])
  }

  // ----- Derivations of the printed text -----

  function Leaves(words: seq<string>, line: nat): seq<Tree> {
    if words == [] then [] else [Leaf(Token(words[0], line, false))] + Leaves(words[1..], line)
  }

  function TagLeaf(tag: Option<string>, line: nat): seq<Tree> {
    if tag.Some? then [Leaf(Token(tag.value, line, false))] else []
  }

  /** A derivation of one printed entry starting on a given line. */
  function TreesOfOne(entry: Entry, opts: WriterOptions, depth: nat, start: nat): seq<Tree> {
    var indent := Repeat(opts.indent, depth);
    var line := start + Newlines(indent);
    match entry
    case Line(tag, words) => TagLeaf(tag, line) + Leaves(words, line)
    case Value(tag, value) => if value.None? then [] else TagLeaf(tag, line) + Leaves([value.value], line)
    case Text(tag, value) => TagLeaf(tag, line) + [Leaf(Token(Escape(value.GetOr("")), line, true))]
    case Refs(refs) => RefLeaves(opts, indent, refs, start)
    case Gap => []
    case Sub(keyword, body) =>
      var begin := ValueLineText(indent, Some("/begin"), keyword);
      var last := start + Newlines(begin) + Newlines(Print(body, opts, depth + 1)) + Newlines(indent);
      [Node(Token("/begin", line, false), Token(keyword, line, false),
            TreesOf(body, opts, depth + 1, start + Newlines(begin)),
            Token("/end", last, false), Token(keyword, last, false))]
  }

  function TreesOf(entries: seq<Entry>, opts: WriterOptions, depth: nat, start: nat): seq<Tree> {
    if entries == [] then []
    else TreesOfOne(entries[0], opts, depth, start)
         + TreesOf(entries[1..], opts, depth, start + Newlines(PrintOne(entries[0], opts, depth)))
  }

  /** The references as parameters, on the lines the columns put them on. */
  function RefLeaves(opts: WriterOptions, indent: string, refs: seq<string>, start: nat): seq<Tree> {
    if refs == [] then []
    else
      var n := |refs| - 1;
      RefLeaves(opts, indent, refs[..n], start)
      + [Leaf(Token(refs[n], start + Newlines(References(opts, indent, refs[..n])), false))]
  }

  // ----- Sequences of derivations -----

  lemma {:induction false} YieldConcat(a: seq<Tree>, b: seq<Tree>)
    ensures Yield(a + b) == Yield(a) + Yield(b)
  {
    if a == [] {
      assert a + b == b;
    } else {
      assert (a + b)[1..] == a[1..] + b;
      YieldConcat(a[1..], b);
    }
  }

  lemma {:induction false} ItemsConcat(a: seq<Tree>, b: seq<Tree>)
    ensures Items(a + b) == Items(a) + Items(b)
  {
    if a == [] {
      assert a + b == b;
    } else {
      assert (a + b)[1..] == a[1..] + b;
      ItemsConcat(a[1..], b);
    }
  }

  lemma {:induction false} PartsConcat(a: seq<Item>, b: seq<Item>)
    ensures PartsOfItems(a + b) == PartsOfItems(a) + PartsOfItems(b)
  {
    if a == [] {
      assert a + b == b;
    } else {
      assert (a + b)[1..] == a[1..] + b;
      PartsConcat(a[1..], b);
    }
  }

  /** What a list of derivations denotes to a reader. */
  function Meaning(trees: seq<Tree>): seq<Part> {
    PartsOfItems(Items(trees))
  }

  lemma MeaningConcat(a: seq<Tree>, b: seq<Tree>)
    ensures Meaning(a + b) == Meaning(a) + Meaning(b)
  {
    ItemsConcat(a, b);
    PartsConcat(Items(a), Items(b));
  }

  lemma {:induction false} WordPartsConcat(a: seq<string>, b: seq<string>)
    ensures WordParts(a + b) == WordParts(a) + WordParts(b)
  {
    if a == [] {
      assert a + b == b;
    } else {
      assert (a + b)[1..] == a[1..] + b;
      WordPartsConcat(a[1..], b);
    }
  }

  // ----- Lines -----

  /** Words separated by blanks, up to the end of the line. */
  lemma {:induction false} LexesWords(words: seq<string>, line: nat)
    requires forall i :: 0 <= i < |words| ==> CleanWord(words[i])
    ensures Lexes(Join(words) + "\n", line, Yield(Leaves(words, line)))
  {
    hide Lexes, CleanWord;
    if words == [] {
      assert "" + "\n" == "\n";
      LexesOneBlank('\n', line);
    } else {
      var w, more := words[0], words[1..];
      var t := Token(w, line, false);
      assert Yield(Leaves(words, line)) == [t] + Yield(Leaves(more, line)) by {
        assert ([Leaf(t)] + Leaves(more, line))[1..] == Leaves(more, line);
      }
      if |words| == 1 {
        LexesWord(w, '\n', line);
        assert [t] + [] == [t];
      } else {
        LexesWord(w, ' ', line);
        LexesWords(more, line);
        WordOnOneLine(w, ' ');
        LexesConcat(w + " ", [t], Join(more) + "\n", Yield(Leaves(more, line)), line);
        assert w + " " + (Join(more) + "\n") == Join(words) + "\n";
      }
    }
  }

  lemma WordOnOneLine(w: string, c: char)
    requires CleanWord(w) && c != '\n'
    ensures Newlines(w + [c]) == 0
  {
    NoNewlines(w + [c]);
  }

  /** An indented line with a tag. */
  lemma LexesLine(indent: string, tag: Option<string>, value: string, ts: seq<Token>, start: nat)
    requires Blank(indent) && (tag.Some? ==> CleanWord(tag.value))
    requires Lexes(value + "\n", start + Newlines(indent), ts)
    ensures Lexes(ValueLineText(indent, tag, value), start, Yield(TagLeaf(tag, start + Newlines(indent))) + ts)
  {
    hide Lexes, CleanWord, Blank;
    var line := start + Newlines(indent);
    LexesBlank(indent, start);
    var none: seq<Token> := [];
    if tag.Some? {
      var w, t := tag.value, Token(tag.value, line, false);
      LexesWord(w, ' ', line);
      WordOnOneLine(w, ' ');
      LexesConcat(w + " ", [t], value + "\n", ts, line);
      LexesConcat(indent, [], w + " " + (value + "\n"), [t] + ts, start);
      assert indent + (w + " " + (value + "\n")) == ValueLineText(indent, tag, value);
      assert none + ([t] + ts) == Yield(TagLeaf(tag, line)) + ts by {
        assert Yield([Leaf(t)]) == [t];
      }
    } else {
      LexesConcat(indent, [], value + "\n", ts, start);
      assert indent + (value + "\n") == ValueLineText(indent, tag, value);
      assert none + ts == Yield(TagLeaf(tag, line)) + ts;
    }
  }

  lemma {:induction false} BlankRepeat(s: string, n: nat)
    requires Blank(s)
    ensures Blank(Repeat(s, n))
  {
    if n > 0 {
      BlankRepeat(s, n - 1);
    }
  }

  // ----- References -----

  /** The references left when the characters that trimming removes are gone from the end. */
  function TrimRefs(refs: seq<string>): seq<string> {
    if refs == [] then []
    else
      var n := |refs| - 1;
      var last := TrimEnd(refs[n]);
      if last == "" then TrimRefs(refs[..n]) else refs[..n] + [last]
  }

  lemma TrimKept(a: string, b: string, c: string)
    requires a == "" || !IsWhite(a[|a| - 1])
    requires b == a + c && AllWhite(c)
    ensures TrimEnd(b) == a
  {
    hide IsWhite;
    var t := TrimEnd(b);
    assert t == b[..|t|] && a == b[..|a|];
  }

  /** What trimming leaves of a word, and the white text it takes away with the blanks after the word. */
  lemma TrimWord(w: string, sep: string)
    requires Blank(sep)
    ensures var t := TrimEnd(w); t + w[|t|..] == w && AllWhite(w[|t|..] + sep)
  {
  }

  lemma SeparatorIsBlank(opts: WriterOptions, indent: string, k: nat)
    requires Blank(indent)
    ensures var sep := Separator(opts, indent, k); sep != "" && Blank(sep) && Blank(sep[1..])
  {
  }

  /** Trimming the line of references trims the last of them, and drops it if nothing is left of it. */
  lemma {:induction false} TrimmedLine(opts: WriterOptions, indent: string, refs: seq<string>)
    requires Blank(indent)
    ensures var kept, line := TrimRefs(refs), References(opts, indent, refs);
            if kept == [] then TrimEnd(line) == ""
            else var n := |kept| - 1;
                 n < |refs| && kept[..n] == refs[..n]
                 && TrimEnd(line) == References(opts, indent, refs[..n]) + kept[n]
  {
    hide IsWhite, IsSpace, TrimEnd, Separator;
    TrimWord("", indent);
    if refs == [] {
      assert ""[|TrimEnd("")|..] + indent == indent;
      TrimKept("", indent, indent);
    } else {
      hide References;
      var n := |refs| - 1;
      var before, sep, last := References(opts, indent, refs[..n]), Separator(opts, indent, n + 1), TrimEnd(refs[n]);
      var tail := refs[n][|last|..] + sep;
      SeparatorIsBlank(opts, indent, n + 1);
      TrimWord(refs[n], sep);
      ReferencesLast(opts, indent, refs);
      assert before + refs[n] + sep == before + last + tail;
      if last == "" {
        TrimmedLine(opts, indent, refs[..n]);
        assert before + last == before;
        TrimAgain(before, tail);
      } else {
        TrimKept(before + last, before + last + tail, tail);
        assert (refs[..n] + [last])[..n] == refs[..n];
      }
    }
  }

  lemma ReferencesLast(opts: WriterOptions, indent: string, refs: seq<string>)
    requires refs != []
    ensures var n := |refs| - 1;
            References(opts, indent, refs)
              == References(opts, indent, refs[..n]) + refs[n] + Separator(opts, indent, n + 1)
  {
  }

  lemma TrimAgain(a: string, c: string)
    requires AllWhite(c)
    ensures TrimEnd(a + c) == TrimEnd(a)
  {
    var t := TrimEnd(a);
    var d := a[|t|..] + c;
    assert a + c == t + d;
    TrimKept(t, a + c, d);
  }

  lemma {:induction false} LexesReferences(opts: WriterOptions, indent: string, refs: seq<string>, start: nat)
    requires Blank(indent) && forall i :: 0 <= i < |refs| ==> CleanWord(refs[i])
    ensures Lexes(References(opts, indent, refs), start, Yield(RefLeaves(opts, indent, refs, start)))
  {
    hide Lexes, CleanWord, Separator;
    if refs == [] {
      LexesBlank(indent, start);
    } else {
      hide Blank, Newlines, References;
      var n := |refs| - 1;
      ReferencesLast(opts, indent, refs);
      var before, sep := References(opts, indent, refs[..n]), Separator(opts, indent, n + 1);
      var t := Token(refs[n], start + Newlines(before), false);
      var ts := Yield(RefLeaves(opts, indent, refs[..n], start));
      LexesReferences(opts, indent, refs[..n], start);
      SeparatorIsBlank(opts, indent, n + 1);
      SpaceStarts(sep);
      LexesWord(refs[n], sep[0], start + Newlines(before));
      LexesConcat(before, ts, refs[n] + [sep[0]], [t], start);
      LexesBlank(sep[1..], start + Newlines(before + (refs[n] + [sep[0]])));
      LexesConcat(before + (refs[n] + [sep[0]]), ts + [t], sep[1..], [], start);
      assert before + (refs[n] + [sep[0]]) + sep[1..] == before + refs[n] + sep;
      YieldConcat(RefLeaves(opts, indent, refs[..n], start), [Leaf(t)]);
      OneLeaf(t);
      assert ts + [t] + [] == ts + [t];
    }
  }

  lemma SpaceStarts(s: string)
    requires s != "" && Blank(s)
    ensures IsSpace(s[0])
  {
  }

  lemma OneLeaf(t: Token)
    ensures Yield([Leaf(t)]) == [t]
  {
  }

  lemma PrefixIsClean(w: string, p: string)
    requires CleanWord(w) && p <= w && p != ""
    ensures CleanWord(p)
  {
    assert forall i :: 0 <= i < |p| ==> p[i] == w[i];
  }

  /** What is emitted for clean references lexes to the trimmed references, whatever the number of columns. */
  lemma ReferencesLexTrimmed(opts: WriterOptions, indent: string, refs: seq<string>, start: nat)
    requires Blank(indent) && forall i :: 0 <= i < |refs| ==> CleanWord(refs[i])
    ensures Lexes(ReferencesText(opts, indent, refs), start, Yield(RefLeaves(opts, indent, TrimRefs(refs), start)))
  {
    hide Lexes, CleanWord, References, TrimEnd;
    var kept := TrimRefs(refs);
    if refs == [] {
      LexesNothing(start);
    } else {
      TrimmedLine(opts, indent, refs);
      if kept == [] {
        assert "" + "\n" == "\n";
        LexesOneBlank('\n', start);
      } else {
        var n := |kept| - 1;
        var before := References(opts, indent, refs[..n]);
        var t := Token(kept[n], start + Newlines(before), false);
        KeptIsPrefix(refs);
        PrefixIsClean(refs[n], kept[n]);
        LexesReferences(opts, indent, refs[..n], start);
        LexesWord(kept[n], '\n', start + Newlines(before));
        LexesConcat(before, Yield(RefLeaves(opts, indent, refs[..n], start)), kept[n] + "\n", [t], start);
        assert before + (kept[n] + "\n") == before + kept[n] + "\n";
        YieldConcat(RefLeaves(opts, indent, refs[..n], start), [Leaf(t)]);
        OneLeaf(t);
      }
    }
  }

  lemma {:induction false} KeptIsPrefix(refs: seq<string>)
    ensures var kept := TrimRefs(refs);
            kept != [] ==> |kept| <= |refs| && kept[|kept| - 1] != "" && kept[|kept| - 1] <= refs[|kept| - 1]
  {
    if refs != [] {
      KeptIsPrefix(refs[..|refs| - 1]);
    }
  }

  lemma TrimNothing(w: string)
    requires w != ""
    ensures TrimEnd(w) == w <==> !IsWhite(w[|w| - 1])
  {
  }

  lemma TrimRefsStep(refs: seq<string>)
    requires refs != []
    ensures var n := |refs| - 1;
            TrimRefs(refs) == if TrimEnd(refs[n]) == "" then TrimRefs(refs[..n]) else refs[..n] + [TrimEnd(refs[n])]
  {
    hide TrimEnd;
  }

  /** Trimming changes a list exactly when it changes its last element. */
  lemma TrimRefsLast(refs: seq<string>)
    requires refs != [] && refs[|refs| - 1] != ""
    ensures TrimRefs(refs) == refs <==> TrimEnd(refs[|refs| - 1]) == refs[|refs| - 1]
  {
    hide TrimEnd, TrimRefs;
    var n := |refs| - 1;
    var last := TrimEnd(refs[n]);
    TrimRefsStep(refs);
    TrimShorter(refs[..n]);
    assert refs == refs[..n] + [refs[n]];
    assert (refs[..n] + [last])[n] == last;
  }

  lemma WordIsSomething(w: string)
    requires CleanWord(w)
    ensures w != ""
  {
  }

  /** The emitted references read back as they were exactly when the last ends in a character that trimming keeps. */
  lemma ReferencesSurvive(refs: seq<string>)
    requires forall i :: 0 <= i < |refs| ==> CleanWord(refs[i])
    ensures TrimRefs(refs) == refs <==> EndsDark(refs)
  {
    hide CleanWord, IsWhite, TrimEnd;
    if refs != [] {
      hide TrimRefs;
      var n := |refs| - 1;
      WordIsSomething(refs[n]);
      TrimNothing(refs[n]);
      TrimRefsLast(refs);
    }
  }

  /** A reference that is lost in part: it ends in a no-break space, which the lexer counts as part of a word. */
  lemma ReferenceIsCut(opts: WriterOptions, indent: string, start: nat)
    requires Blank(indent)
    ensures CleanWord("a\U{A0}") && TrimRefs(["a\U{A0}"]) == ["a"]
    ensures Lexes(ReferencesText(opts, indent, ["a\U{A0}"]), start, Yield(RefLeaves(opts, indent, ["a"], start)))
  {
    hide Lexes, ReferencesText, RefLeaves, Yield;
    TrimKept("a", "a\U{A0}", "\U{A0}");
    ReferencesLexTrimmed(opts, indent, ["a\U{A0}"], start);
  }

  lemma {:induction false} TrimShorter(refs: seq<string>)
    ensures |TrimRefs(refs)| <= |refs|
  {
    if refs != [] {
      TrimShorter(refs[..|refs| - 1]);
    }
  }

  // ----- Print, lex, build -----

  lemma LexesEntry(entry: Entry, opts: WriterOptions, depth: nat, start: nat)
    requires CleanOne(entry) && Blank(opts.indent)
    ensures Lexes(PrintOne(entry, opts, depth), start, Yield(TreesOfOne(entry, opts, depth, start)))
    decreases entry, 0
  {
    hide Lexes, CleanWord, Yield, Newlines, EqIgnoreCase;
    var indent := Repeat(opts.indent, depth);
    var line := start + Newlines(indent);
    BlankRepeat(opts.indent, depth);
    match entry {
      case Line(tag, words) =>
        LexesWords(words, line);
        LexesLine(indent, tag, Join(words), Yield(Leaves(words, line)), start);
        YieldConcat(TagLeaf(tag, line), Leaves(words, line));
      case Value(tag, value) =>
        if value.None? {
          LexesNothing(start);
          YieldNothing();
        } else {
          LexesWords([value.value], line);
          LexesLine(indent, tag, value.value, Yield(Leaves([value.value], line)), start);
          YieldConcat(TagLeaf(tag, line), Leaves([value.value], line));
        }
      case Text(tag, value) => LexesText(indent, tag, value.GetOr(""), start);
      case Refs(refs) =>
        ReferencesSurvive(refs);
        ReferencesLexTrimmed(opts, indent, refs, start);
      case Gap =>
        LexesOneBlank('\n', start);
        YieldNothing();
      case Sub(keyword, body) => LexesSub(keyword, body, opts, depth, start);
    }
  }

  lemma YieldNothing()
    ensures Yield([]) == []
  {
  }

  lemma LexesText(indent: string, tag: Option<string>, value: string, start: nat)
    requires Blank(indent) && (tag.Some? ==> CleanWord(tag.value))
    ensures var line := start + Newlines(indent);
            Lexes(ValueLineText(indent, tag, "\"" + Escape(value) + "\""), start,
                  Yield(TagLeaf(tag, line) + [Leaf(Token(Escape(value), line, true))]))
  {
    hide Lexes, CleanWord, Yield, Escape;
    var line, text := start + Newlines(indent), "\"" + Escape(value) + "\"";
    var t := Token(Escape(value), line, true);
    LexesString(value, line);
    EscapedHasNoNewline(value);
    NoNewlines(text);
    hide Newlines;
    LexesOneBlank('\n', line);
    LexesConcat(text, [t], "\n", [], line);
    assert [t] + [] == [t];
    LexesLine(indent, tag, text, [t], start);
    YieldConcat(TagLeaf(tag, line), [Leaf(t)]);
    OneLeaf(t);
  }

  lemma LexesSub(keyword: string, body: seq<Entry>, opts: WriterOptions, depth: nat, start: nat)
    requires CleanWord(keyword) && Clean(body) && Blank(opts.indent)
    ensures Lexes(PrintOne(Sub(keyword, body), opts, depth), start,
                  Yield(TreesOfOne(Sub(keyword, body), opts, depth, start)))
    decreases body, 1
  {
    hide Lexes, CleanWord, Newlines, PrintOne, Print, Blank, Yield;
    var indent := Repeat(opts.indent, depth);
    var begin, end := ValueLineText(indent, Some("/begin"), keyword), ValueLineText(indent, Some("/end"), keyword);
    var inside := Print(body, opts, depth + 1);
    var trees := TreesOf(body, opts, depth + 1, start + Newlines(begin));
    BlankRepeat(opts.indent, depth);
    DelimitersAreClean();
    LexesDelimiter(indent, "/begin", keyword, start);
    LexesEntries(body, opts, depth + 1, start + Newlines(begin));
    LexesDelimiter(indent, "/end", keyword, start + Newlines(begin) + Newlines(inside));
    var first, last := start + Newlines(indent), start + Newlines(begin) + Newlines(inside) + Newlines(indent);
    var b, k := Token("/begin", first, false), Token(keyword, first, false);
    var e, ek := Token("/end", last, false), Token(keyword, last, false);
    LexesConcat(begin, [b, k], inside, Yield(trees), start);
    NewlinesOfConcat(begin, inside);
    LexesConcat(begin + inside, [b, k] + Yield(trees), end, [e, ek], start);
    PrintSub(Sub(keyword, body), opts, depth);
    OneNode(b, k, trees, e, ek);
  }

  lemma DelimitersAreClean()
    ensures CleanWord("/begin") && CleanWord("/end")
  {
    assert "/begin"[1] == 'b' && "/end"[1] == 'e' && "//"[1] == '/' && "/*"[1] == '*';
  }

  lemma OneNode(b: Token, k: Token, trees: seq<Tree>, e: Token, ek: Token)
    ensures Yield([Node(b, k, trees, e, ek)]) == [b, k] + Yield(trees) + [e, ek]
  {
    var one := [Node(b, k, trees, e, ek)];
    assert one[1..] == [];
    assert YieldOne(one[0]) + [] == YieldOne(one[0]);
  }

  lemma LexesDelimiter(indent: string, delimiter: string, keyword: string, start: nat)
    requires Blank(indent) && CleanWord(delimiter) && CleanWord(keyword)
    ensures var line := start + Newlines(indent);
            Lexes(ValueLineText(indent, Some(delimiter), keyword), start,
                  [Token(delimiter, line, false), Token(keyword, line, false)])
  {
    hide Lexes, CleanWord, Newlines, Blank;
    var line := start + Newlines(indent);
    var d, k := Token(delimiter, line, false), Token(keyword, line, false);
    LexesWord(keyword, '\n', line);
    LexesLine(indent, Some(delimiter), keyword, [k], start);
    OneLeaf(d);
    assert [d] + [k] == [d, k];
  }

  /** What the writer prints lexes to the tokens of a known derivation, on known lines, whatever follows. */
  lemma LexesEntries(entries: seq<Entry>, opts: WriterOptions, depth: nat, start: nat)
    requires Clean(entries) && Blank(opts.indent)
    ensures Lexes(Print(entries, opts, depth), start, Yield(TreesOf(entries, opts, depth, start)))
    decreases entries, 0
  {
    hide Lexes, CleanOne, Newlines, PrintOne, Blank, Yield;
    if entries == [] {
      LexesNothing(start);
      YieldNothing();
    } else {
      var one := PrintOne(entries[0], opts, depth);
      var first := TreesOfOne(entries[0], opts, depth, start);
      var more := TreesOf(entries[1..], opts, depth, start + Newlines(one));
      LexesEntry(entries[0], opts, depth, start);
      LexesEntries(entries[1..], opts, depth, start + Newlines(one));
      LexesConcat(one, Yield(first), Print(entries[1..], opts, depth), Yield(more), start);
      YieldConcat(first, more);
    }
  }

  // ----- The derivation is one, and it means what was emitted -----

  lemma LeavesDerive(words: seq<string>, line: nat)
    requires CleanParams(words)
    ensures Derives(Leaves(words, line)) && Meaning(Leaves(words, line)) == WordParts(words)
  {
    hide EqIgnoreCase, CleanWord;
    if words != [] {
      LeavesDerive(words[1..], line);
      var leaf := Leaf(Token(words[0], line, false));
      assert ([leaf] + Leaves(words[1..], line))[1..] == Leaves(words[1..], line);
      MeaningCons(leaf, Leaves(words[1..], line));
    }
  }

  lemma MeaningCons(tree: Tree, trees: seq<Tree>)
    ensures Meaning([tree] + trees) == [PartOf(ItemOf(tree))] + Meaning(trees)
  {
    assert ([tree] + trees)[1..] == trees;
    assert ([ItemOf(tree)] + Items(trees))[1..] == Items(trees);
  }

  lemma MeaningOfOne(tree: Tree)
    ensures Meaning([tree]) == [PartOf(ItemOf(tree))]
  {
    MeaningCons(tree, []);
    assert [tree] + [] == [tree];
  }

  lemma {:induction false} RefLeavesDerive(opts: WriterOptions, indent: string, refs: seq<string>, start: nat)
    requires CleanParams(refs)
    ensures var trees := RefLeaves(opts, indent, refs, start); Derives(trees) && Meaning(trees) == WordParts(refs)
  {
    hide EqIgnoreCase, CleanWord, Newlines, References, Meaning;
    if refs == [] {
      NoMeaning();
    } else {
      hide WordParts;
      var n := |refs| - 1;
      var leaf := Leaf(Token(refs[n], start + Newlines(References(opts, indent, refs[..n])), false));
      RefLeavesDerive(opts, indent, refs[..n], start);
      assert refs == refs[..n] + [refs[n]];
      WordPartsConcat(refs[..n], [refs[n]]);
      OneWordPart(refs[n]);
      MeaningConcat(RefLeaves(opts, indent, refs[..n], start), [leaf]);
      MeaningOfOne(leaf);
    }
  }

  lemma OneWordPart(w: string)
    ensures WordParts([w]) == [Word(w)]
  {
  }

  lemma NoMeaning()
    ensures Meaning([]) == []
  {
  }

  lemma TagDerives(tag: Option<string>, line: nat)
    requires CleanTag(tag)
    ensures Derives(TagLeaf(tag, line)) && Meaning(TagLeaf(tag, line)) == TagPart(tag)
  {
    hide EqIgnoreCase, CleanWord;
    if tag.Some? {
      MeaningOfOne(Leaf(Token(tag.value, line, false)));
    }
  }

  lemma EntryMeans(entry: Entry, opts: WriterOptions, depth: nat, start: nat)
    requires CleanOne(entry)
    ensures var trees := TreesOfOne(entry, opts, depth, start); Derives(trees) && Meaning(trees) == PartsOf(entry)
    decreases entry, 0
  {
    hide EqIgnoreCase, CleanWord, Newlines, Meaning, Escape;
    var indent := Repeat(opts.indent, depth);
    var line := start + Newlines(indent);
    match entry {
      case Line(tag, words) =>
        TagDerives(tag, line);
        LeavesDerive(words, line);
        MeaningConcat(TagLeaf(tag, line), Leaves(words, line));
      case Value(tag, value) =>
        NoMeaning();
        if value.Some? {
          TagDerives(tag, line);
          LeavesDerive([value.value], line);
          OneWordPart(value.value);
          MeaningConcat(TagLeaf(tag, line), Leaves([value.value], line));
        }
      case Text(tag, value) =>
        var leaf := Leaf(Token(Escape(value.GetOr("")), line, true));
        TagDerives(tag, line);
        MeaningOfOne(leaf);
        MeaningConcat(TagLeaf(tag, line), [leaf]);
        UnescapeEscape(value.GetOr(""));
      case Refs(refs) => RefLeavesDerive(opts, indent, refs, start);
      case Gap => NoMeaning();
      case Sub(keyword, body) =>
        var tree := TreesOfOne(entry, opts, depth, start)[0];
        EntriesMean(body, opts, depth + 1, start + Newlines(ValueLineText(indent, Some("/begin"), keyword)));
        SubDerives(tree);
        MeaningOfOne(tree);
        SubMeans(tree);
    }
  }

  lemma SubDerives(tree: Tree)
    requires tree.Node? && tree.begin == Token("/begin", tree.begin.line, false) && Derives(tree.body)
    requires tree.end == Token("/end", tree.end.line, false) && tree.endKeyword.text == tree.keyword.text
    ensures DerivesOne(tree)
  {
  }

  lemma SubMeans(tree: Tree)
    requires tree.Node?
    ensures PartOf(ItemOf(tree)) == Group(tree.keyword.text, Meaning(tree.body))
  {
  }

  lemma EntriesMean(entries: seq<Entry>, opts: WriterOptions, depth: nat, start: nat)
    requires Clean(entries)
    ensures var trees := TreesOf(entries, opts, depth, start); Derives(trees) && Meaning(trees) == Parts(entries)
    decreases entries, 0
  {
    hide CleanOne, Newlines, PrintOne, Meaning, PartsOf, TreesOfOne;
    NoMeaning();
    if entries != [] {
      var first := TreesOfOne(entries[0], opts, depth, start);
      var after := start + Newlines(PrintOne(entries[0], opts, depth));
      EntryMeans(entries[0], opts, depth, start);
      EntriesMean(entries[1..], opts, depth, after);
      MeaningConcat(first, TreesOf(entries[1..], opts, depth, after));
    }
  }

  /** Printing, lexing and building give back every keyword, parameter and string, at any blank indent. */
  lemma PrintLexBuild(entries: seq<Entry>, opts: WriterOptions)
    requires Clean(entries) && Blank(opts.indent)
    ensures var lexed := Lex(Print(entries, opts, 0), 1);
            && lexed.Ok?
            && var built := BuildTree(lexed.value);
            built.Ok? && built.value.keyword == "" && PartsOfItems(built.value.items) == Parts(entries)
  {
    hide Lex, EqIgnoreCase, CleanOne, Yield, Print, TreesOf;
    var text, trees := Print(entries, opts, 0), TreesOf(entries, opts, 0, 1);
    LexesEntries(entries, opts, 0, 1);
    assert text + "" == text && Yield(trees) + [] == Yield(trees);
    assert Lex(text + "", 1) == Prepend(Yield(trees), Lex("", 1 + Newlines(text)));
    LexEnd([], "", 0, 1 + Newlines(text));
    PrependNothing(Lex("", 1 + Newlines(text)));
    EntriesMean(entries, opts, 0, 1);
    BuilderIsGrammar(Yield(trees), Block("", 0, Items(trees)));
  }

  /** The whole pipeline, with either builder. */
  method PrintAndRead(entries: seq<Entry>, opts: WriterOptions) returns (text: string, root: Block)
    requires Clean(entries) && Blank(opts.indent)
    ensures text == Print(entries, opts, 0)
    ensures PartsOfItems(root.items) == Parts(entries)
  {
    hide Lex, BuildTree, Parts, PartsOfItems, Clean;
    var w := new Writer(opts);
    EmitBody(w, entries);
    text := w.buf;
    assert text == "" + Print(entries, opts, 0) == Print(entries, opts, 0);
    PrintLexBuild(entries, opts);
    var tokens := Tokenize(text);
    var borrowed := BuildBlockTree(tokens.value);
    var owned := BuildBlockTreeOwned(tokens.value);
    assert borrowed == owned;
    root := owned.value;
  }
}
