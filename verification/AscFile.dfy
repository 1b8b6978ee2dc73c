/** ASC files: the printer and the parser at work, and the timestamps between the lines. */
module AscFile {
  import opened AscRecord
  import opened AscRoundTrip
  import opened Bytes
  import opened Text
  import opened Wrappers

  // ----- One line -----

  const INLINE := 96

  ghost predicate Keeping(inline: array<string>, count: nat, spill: seq<string>, tokens: seq<string>)
    reads inline
  {
    && inline.Length == INLINE && |tokens| == count
    && if spill == [] then count <= INLINE && inline[..count] == tokens else count > INLINE && spill == tokens
  }

  /** Up to 96 words stay in a fixed array; with one more, all of them spill into a list. */
  method Keep(inline: array<string>, count: nat, spill: seq<string>, token: string, ghost tokens: seq<string>)
    returns (spilled: seq<string>)
    requires Keeping(inline, count, spill, tokens)
    modifies inline
    ensures Keeping(inline, count + 1, spilled, tokens + [token])
  {
    spilled := spill;
    if count < INLINE {
      inline[count] := token;
      assert inline[..count + 1] == inline[..count] + [token];
    } else {
      if spill == [] {
        spilled := inline[..];
      }
      spilled := spilled + [token];
    }
  }

  /** The words of a line, however many there are. */
  method CollectTokens(body: string) returns (tokens: seq<string>)
    ensures tokens == Tokens(body)
  {
    hide Tokens, DarkLength, IsWhite, Keeping, AllWords, IsWord;
    var inline, count, spill := new string[INLINE](_ => ""), 0, [];
    ghost var kept: seq<string> := [];
    KeepingNothing(inline);
    var i := 0;
    assert body[0..] == body && kept + Tokens(body) == Tokens(body);
    while i < |body|
      invariant 0 <= i <= |body| && count >= 0 && fresh(inline)
      invariant Keeping(inline, count, spill, kept) && kept + Tokens(body[i..]) == Tokens(body)
    {
      TokensAt(body, i);
      if IsWhite(body[i]) {
        i := i + 1;
      } else {
        var j := WordEnd(body, i);
        Assoc(kept, [body[i..j]], Tokens(body[j..]));
        spill := Keep(inline, count, spill, body[i..j], kept);
        kept := kept + [body[i..j]];
        count := count + 1;
        i := j;
      }
    }
    TokensAtEnd(body, i);
    assert kept + [] == kept;
    KeptTokens(inline, count, spill, kept);
    tokens := if spill == [] then inline[..count] else spill;
  }

  lemma KeepingNothing(inline: array<string>)
    requires inline.Length == INLINE
    ensures Keeping(inline, 0, [], [])
  {
  }

  lemma KeptTokens(inline: array<string>, count: nat, spill: seq<string>, tokens: seq<string>)
    requires Keeping(inline, count, spill, tokens)
    ensures if spill == [] then count <= inline.Length && inline[..count] == tokens else spill == tokens
  {
  }

  lemma TokensAt(s: string, i: nat)
    requires i < |s|
    ensures Tokens(s[i..]) == if IsWhite(s[i]) then Tokens(s[i + 1..])
                              else var j := i + DarkLength(s[i..]); [s[i..j]] + Tokens(s[j..])
  {
    hide DarkLength, IsWhite;
    var t := s[i..];
    var n := DarkLength(t);
    assert t[1..] == s[i + 1..] && t[..n] == s[i..i + n] && t[n..] == s[i + n..];
  }

  lemma TokensAtEnd(s: string, i: nat)
    requires i == |s|
    ensures Tokens(s[i..]) == []
  {
  }

  method WordEnd(s: string, start: nat) returns (j: nat)
    requires start < |s| && !IsWhite(s[start])
    ensures j == start + DarkLength(s[start..]) && start < j <= |s|
  {
    j := start;
    while j < |s| && !IsWhite(s[j])
      invariant start <= j <= |s| && j + DarkLength(s[j..]) == start + DarkLength(s[start..])
    {
      j := j + 1;
    }
  }

  method ParseRecord(body: string, base: NumberBase) returns (r: Result<Record, Problem>)
    ensures r == Parse(body, base)
  {
    var tokens := CollectTokens(body);
    r := Interpret(body, tokens, base);
  }

  lemma RowPush(cells: seq<Cell>, c: Cell)
    ensures RowText(cells + [c]) == RowText(cells) + c.before + c.word
  {
    RowConcat(cells, [c]);
    assert RowText([c]) == c.before + c.word + "";
    Assoc(RowText(cells), c.before, c.word);
  }

  /** Appends the text of a record; a refused record appends nothing. */
  method WriteRecord(output: string, r: Record, base: NumberBase) returns (out: string, problem: Option<Problem>)
    ensures match Write(r, base)
            case Ok(text) => problem == None && out == output + text
            case Err(e) => problem == Some(e) && out == output
  {
    hide Row, RowText, Refusal;
    out, problem := output, Refusal(r);
    if problem.Some? {
      return;
    }
    if r.Event? {
      out := out + r.text;
      return;
    }
    var cells := Row(r, base);
    RowOfNone();
    for i := 0 to |cells|
      invariant out == output + RowText(cells[..i])
    {
      assert cells[..i] + [cells[i]] == cells[..i + 1];
      RowPush(cells[..i], cells[i]);
      Assoc(output, RowText(cells[..i]), cells[i].before);
      Assoc(output, RowText(cells[..i]) + cells[i].before, cells[i].word);
      out := out + cells[i].before + cells[i].word;
    }
    assert cells[..|cells|] == cells;
  }

  lemma RowOfNone()
    ensures RowText([]) == ""
  {
  }

  // ----- Lines and their times -----

  datatype Mode = Absolute | Relative

  /** A line after the header: its time on file, in microseconds, and what follows it. */
  datatype Line = Line(time: nat, body: string)

  /** A record and its time since the start. */
  datatype Timed = Timed(time: nat, record: Record)

  const START := "Start of measurement"

  function Trim(s: string): string {
    TrimEnd(TrimStart(s))
  }

  /** The lines after the starting one, with the time of the record before them. */
  function LinesOf(records: seq<Timed>, base: NumberBase, mode: Mode, previous: nat): Result<seq<Line>, Problem> {
    if records == [] then Ok([])
    else
      var r := records[0];
      if mode.Relative? && r.time < previous then Err(NotOrdered)
      else
        var text := Write(r.record, base);
        if text.Err? then Err(text.error)
        else
          var more := LinesOf(records[1..], base, mode, r.time);
          if more.Err? then more
          else Ok([Line(if mode.Relative? then r.time - previous else r.time, text.value)] + more.value)
  }

  /** The records of lines, with the time of the line before them. */
  function RecordsOf(lines: seq<Line>, base: NumberBase, mode: Mode, last: nat): Result<seq<Timed>, Problem> {
    if lines == [] then Ok([])
    else
      var body := Trim(lines[0].body);
      if body == "" then RecordsOf(lines[1..], base, mode, last)
      else
        var time := if mode.Relative? then last + lines[0].time else lines[0].time;
        if EqIgnoreCase(body, "start of measurement") then RecordsOf(lines[1..], base, mode, time)
        else
          var r := Parse(body, base);
          if r.Err? then Err(r.error)
          else
            var more := RecordsOf(lines[1..], base, mode, time);
            if more.Err? then more else Ok([Timed(time, r.value)] + more.value)
  }

  function Before<T>(ts: seq<T>, r: Result<seq<T>, Problem>): Result<seq<T>, Problem> {
    if r.Err? then r else Ok(ts + r.value)
  }

  lemma BeforeTwice<T>(a: seq<T>, t: T, r: Result<seq<T>, Problem>)
    ensures Before(a, Before([t], r)) == Before(a + [t], r) && Before([], r) == r
  {
    if r.Ok? {
      assert a + ([t] + r.value) == a + [t] + r.value && [] + r.value == r.value;
    }
  }

  method WriteLines(records: seq<Timed>, base: NumberBase, mode: Mode) returns (r: Result<seq<Line>, Problem>)
    ensures r == Before([Line(0, START)], LinesOf(records, base, mode, 0))
  {
    hide Write;
    var lines := [Line(0, START)];
    var previous := 0;
    assert records[0..] == records;
    for i := 0 to |records|
      invariant previous >= 0
      invariant Before(lines, LinesOf(records[i..], base, mode, previous))
                == Before([Line(0, START)], LinesOf(records, base, mode, 0))
    {
      var t := records[i];
      assert records[i..][1..] == records[i + 1..];
      if mode.Relative? && t.time < previous {
        return Err(NotOrdered);
      }
      var written := if mode.Relative? then t.time - previous else t.time;
      previous := t.time;
      var text, problem := WriteRecord("", t.record, base);
      if problem.Some? {
        return Err(problem.value);
      }
      assert "" + Write(t.record, base).value == Write(t.record, base).value;
      BeforeTwice(lines, Line(written, text), LinesOf(records[i + 1..], base, mode, previous));
      lines := lines + [Line(written, text)];
    }
    assert lines + [] == lines;
    r := Ok(lines);
  }

  method ReadLines(lines: seq<Line>, base: NumberBase, mode: Mode) returns (r: Result<seq<Timed>, Problem>)
    ensures r == RecordsOf(lines, base, mode, 0)
  {
    hide Parse, Trim, EqIgnoreCase;
    var records: seq<Timed> := [];
    var last := 0;
    assert lines[0..] == lines;
    BeforeTwice(records, Timed(0, Event("")), RecordsOf(lines, base, mode, 0));
    for i := 0 to |lines|
      invariant last >= 0
      invariant Before(records, RecordsOf(lines[i..], base, mode, last)) == RecordsOf(lines, base, mode, 0)
    {
      assert lines[i..][1..] == lines[i + 1..];
      var body := Trim(lines[i].body);
      if body == "" {
        continue;
      }
      last := if mode.Relative? then last + lines[i].time else lines[i].time;
      if EqIgnoreCase(body, "start of measurement") {
        continue;
      }
      var record := ParseRecord(body, base);
      if record.Err? {
        return Err(record.error);
      }
      BeforeTwice(records, Timed(last, record.value), RecordsOf(lines[i + 1..], base, mode, last));
      records := records + [Timed(last, record.value)];
    }
    assert records + [] == records;
    r := Ok(records);
  }

  // ----- Files -----

  /**
   Records that read back from a file: events must not look like the starting line, nor begin or end in white space.
   */
  ghost predicate FileCanonical(r: Record) {
    Canonical(r) && (r.Event? ==> Trim(r.text) == r.text && !EqIgnoreCase(r.text, "start of measurement"))
  }

  ghost predicate AllCanonical(records: seq<Timed>) {
    forall i :: 0 <= i < |records| ==> FileCanonical(records[i].record)
  }

  ghost predicate Ordered(records: seq<Timed>, previous: nat) {
    records != [] ==> previous <= records[0].time && Ordered(records[1..], records[0].time)
  }

  /** Ordered as one would say it: no record is earlier than another before it. */
  lemma {:induction false} OrderedMeans(records: seq<Timed>, previous: nat)
    ensures Ordered(records, previous)
       <==> forall i, j :: 0 <= i <= j < |records| ==> previous <= records[i].time <= records[j].time
  {
    if records != [] {
      OrderedMeans(records[1..], records[0].time);
      if forall i, j :: 0 <= i <= j < |records| ==> previous <= records[i].time <= records[j].time {
        forall i, j | 0 <= i <= j < |records[1..]|
          ensures records[0].time <= records[1..][i].time <= records[1..][j].time {
          assert records[0].time <= records[i + 1].time <= records[j + 1].time;
        }
      }
      if Ordered(records, previous) {
        forall i, j | 0 <= i <= j < |records| ensures previous <= records[i].time <= records[j].time {
          if j > 0 {
            var k := if i > 0 then i - 1 else 0;
            assert records[0].time <= records[1..][k].time <= records[1..][j - 1].time;
          }
        }
      }
    }
  }

  lemma {:induction false} RowEnds(cells: seq<Cell>)
    requires cells != [] && cells[|cells| - 1].word != ""
    ensures var s, w := RowText(cells), cells[|cells| - 1].word; s != "" && s[|s| - 1] == w[|w| - 1]
  {
    if |cells| > 1 {
      RowEnds(cells[1..]);
    }
  }

  lemma RowBegins(cells: seq<Cell>)
    requires cells != [] && cells[0].before == "" && cells[0].word != ""
    ensures RowText(cells) != "" && RowText(cells)[0] == cells[0].word[0]
  {
  }

  lemma RowIsTrimmed(cells: seq<Cell>, words: seq<string>)
    requires Holds(cells, words) && cells[0].before == ""
    ensures var s := RowText(cells); Trim(s) == s && s != "" && s[0] == words[0][0]
  {
    hide RowText, IsWhite;
    var w := words[|words| - 1];
    assert cells[|cells| - 1].word == w && IsWord(w) && cells[0].word == words[0] && IsWord(words[0]);
    RowEnds(cells);
    RowBegins(cells);
  }

  lemma FirstCell(r: Record, base: NumberBase)
    requires !r.Event?
    ensures Row(r, base) != [] && Row(r, base)[0].before == ""
    ensures Row(r, base)[0].word == Digits(r.channel, Decimal) || Row(r, base)[0].word == "CANFD"
  {
    hide Digits, FormatId, DirectionText, SpacedCells;
  }

  /** A written line stands as it is after trimming, and is not the starting line. */
  lemma LineStands(r: Record, base: NumberBase)
    requires FileCanonical(r)
    ensures var body := Write(r, base).value;
            Write(r, base).Ok? && Trim(body) == body && body != "" && !EqIgnoreCase(body, "start of measurement")
  {
    hide Trim, Row, Shaped, Holds, ClassicWords, FdWords, ErrorWords;
    if r.Event? {
      EventIsSomething(r.text);
    } else {
      var cells := Row(r, base);
      FirstCell(r, base);
      if r.Message? {
        if r.frameType == 0 {
          ClassicRow(r, base);
          RowIsTrimmed(cells, ClassicWords(r, base));
        } else {
          FdRow(r, base);
          RowIsTrimmed(cells, FdWords(r, base));
        }
      } else {
        FieldsAreWords(r);
        ErrorRow(r, base);
        RowIsTrimmed(cells, ErrorWords(r));
      }
      NotTheStart(RowText(cells), cells[0].word, r.channel);
    }
  }

  lemma EventIsSomething(text: string)
    requires Shaped(Event(text))
    ensures text != ""
  {
  }

  lemma FieldsAreWords(r: Record)
    requires r.ErrorFrame? && Shaped(r)
    ensures AllWords(r.fields)
  {
  }

  lemma NotTheStart(s: string, w: string, channel: nat)
    requires (w == Digits(channel, Decimal) || w == "CANFD") && s != "" && s[0] == w[0]
    ensures !EqIgnoreCase(s, "start of measurement")
  {
    NotThatWord(s, "start of measurement", 0);
  }

  lemma LinesStep(records: seq<Timed>, base: NumberBase, mode: Mode, previous: nat)
    requires records != [] && Write(records[0].record, base).Ok?
    ensures var t := records[0];
            LinesOf(records, base, mode, previous)
            == if mode.Relative? && t.time < previous then Err(NotOrdered)
               else Before([Line(if mode.Relative? then t.time - previous else t.time, Write(t.record, base).value)],
                           LinesOf(records[1..], base, mode, t.time))
  {
    hide Write;
  }

  lemma RecordsStep(line: Line, lines: seq<Line>, r: Record, base: NumberBase, mode: Mode, last: nat)
    requires Trim(line.body) == line.body && line.body != "" && !EqIgnoreCase(line.body, "start of measurement")
    requires Parse(line.body, base) == Ok(r)
    ensures var time := if mode.Relative? then last + line.time else line.time;
            RecordsOf([line] + lines, base, mode, last) == Before([Timed(time, r)], RecordsOf(lines, base, mode, time))
  {
    hide Parse, Trim, EqIgnoreCase;
    assert ([line] + lines)[1..] == lines;
  }

  /** Records written one after the other read back with their times, if they are ordered or times are absolute. */
  lemma {:induction false} LinesRead(records: seq<Timed>, base: NumberBase, mode: Mode, previous: nat)
    requires AllCanonical(records)
    ensures var lines := LinesOf(records, base, mode, previous);
            && (lines.Ok? <==> mode.Absolute? || Ordered(records, previous))
            && (lines.Ok? ==> RecordsOf(lines.value, base, mode, previous) == Ok(records))
  {
    hide FileCanonical, Write, Parse, Trim, EqIgnoreCase;
    if records != [] {
      hide LinesOf, RecordsOf;
      var t, more := records[0], records[1..];
      assert FileCanonical(t.record);
      LineStands(t.record, base);
      CanonicalSurvives(t.record, base);
      LinesStep(records, base, mode, previous);
      LinesRead(more, base, mode, t.time);
      assert records == [t] + more;
      var rest := LinesOf(more, base, mode, t.time);
      if rest.Ok? && (mode.Absolute? || t.time >= previous) {
        var line := Line(if mode.Relative? then t.time - previous else t.time, Write(t.record, base).value);
        RecordsStep(line, rest.value, t.record, base, mode, previous);
      }
    }
  }

  lemma CanonicalSurvives(r: Record, base: NumberBase)
    requires FileCanonical(r)
    ensures Write(r, base).Ok? && Parse(Write(r, base).value, base) == Ok(r)
  {
    hide Write, Parse, Canonical;
    RoundTrip(r, base);
  }

  /** A file is written exactly if its order allows, and then reads back; relative times add up to the times written. */
  lemma FileRoundTrip(records: seq<Timed>, base: NumberBase, mode: Mode)
    requires AllCanonical(records)
    ensures var lines := Before([Line(0, START)], LinesOf(records, base, mode, 0));
            && (lines.Ok? <==> mode.Absolute? || Ordered(records, 0))
            && (lines.Ok? ==> RecordsOf(lines.value, base, mode, 0) == Ok(records))
  {
    hide LinesOf, AllCanonical, EqIgnoreCase;
    LinesRead(records, base, mode, 0);
    StartStands();
    var more := LinesOf(records, base, mode, 0);
    if more.Ok? {
      var lines := [Line(0, START)] + more.value;
      assert lines[1..] == more.value;
    }
  }

  lemma StartStands()
    ensures Trim(START) == START && EqIgnoreCase(START, "start of measurement")
  {
    var s, t := START, "start of measurement";
    assert s[1..] == t[1..];
    assert forall i :: 1 <= i < |s| ==> s[i] == s[1..][i - 1] && t[i] == t[1..][i - 1];
    assert Lower(s[0]) == Lower(t[0]);
    assert s[0] == 'S' && s[|s| - 1] == 't';
  }
}
