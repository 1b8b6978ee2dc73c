/** Which records survive being written and parsed. */
module AscRoundTrip {
  import opened AscRecord
  import opened Bytes
  import opened Text
  import opened Wrappers

  // ----- Columns read back -----

  lemma NotThatWord(s: string, t: string, k: nat)
    requires k < |t| && (k < |s| ==> Lower(s[k]) != Lower(t[k]))
    ensures !EqIgnoreCase(s, t)
  {
  }

  /** Digits, possibly marked, spell no keyword. */
  predicate IsNumeric(s: string) {
    forall i :: 0 <= i < |s| ==> IsDigit(s[i]) || s[i] == 'x'
  }

  lemma NumericIsNoKeyword(s: string)
    requires IsNumeric(s)
    ensures !EqIgnoreCase(s, "canfd") && !EqIgnoreCase(s, "errorframe")
  {
    NotThatWord(s, "canfd", 2);
    NotThatWord(s, "errorframe", 1);
  }

  lemma IdRoundTrip(id: u32, base: NumberBase)
    requires id / ID_BOUND % 4 == 0 && (IsExtended(id) || id % ID_BOUND <= 0x7FF)
    ensures ParseId(FormatId(id, base), base) == Ok(id)
    ensures IsWord(FormatId(id, base)) && IsNumeric(FormatId(id, base))
  {
    hide Digits, ParseUnsigned;
    var raw, s := id % ID_BOUND, FormatId(id, base);
    ParseDigits(raw, base, MAX32);
    if IsExtended(id) {
      assert s[..|s| - 1] == Digits(raw, base);
    } else {
      assert s == Digits(raw, base);
    }
  }

  lemma ByteRoundTrip(b: u8, base: NumberBase)
    ensures ParseUnsigned(FormatByte(b, base), base, MAX32) == Some(b) && IsWord(FormatByte(b, base))
  {
    hide Digits, Number;
    ParseDigits(b, base, MAX32);
    NumberOfZeroPadded(Digits(b, base), base, MAX32);
    assert "" + Digits(b, base) == Digits(b, base);
  }

  lemma {:induction false} BytesRoundTrip(data: bytes, base: NumberBase)
    ensures ParseBytes(ByteWords(data, base), base) == Ok(data) && AllWords(ByteWords(data, base))
  {
    hide FormatByte, ParseUnsigned, IsWord;
    if data != [] {
      ByteRoundTrip(data[0], base);
      BytesRoundTrip(data[1..], base);
      assert ByteWords(data, base) == [FormatByte(data[0], base)] + ByteWords(data[1..], base);
      assert ByteWords(data, base)[1..] == ByteWords(data[1..], base);
      assert [data[0]] + data[1..] == data;
    }
  }

  lemma {:induction false} ParsedLength(words: seq<string>, base: NumberBase)
    ensures ParseBytes(words, base).Ok? ==> |ParseBytes(words, base).value| == |words|
  {
    if words != [] {
      ParsedLength(words[1..], base);
    }
  }

  lemma DlcRoundTrip(dlc: u8, base: NumberBase)
    ensures ParseDlc(Digits(dlc, base), base) == Ok(dlc) && IsWord(Digits(dlc, base))
  {
    hide Digits, ParseUnsigned;
    ParseDigits(dlc, base, MAX32);
    DigitsAreAWord(dlc, base);
  }

  lemma DirectionRoundTrip(d: Direction)
    ensures ParseDirection(DirectionText(d)) == Ok(d) && IsWord(DirectionText(d))
  {
    var s := DirectionText(d);
    assert s[0] == (if d.Rx? then 'R' else 'T') && s[1] == 'x';
    NotThatWord("Tx", "rx", 0);
  }

  lemma DecimalColumn(v: nat, max: nat)
    requires v <= max
    ensures ParseUnsigned(Digits(v, Decimal), Decimal, max) == Some(v)
    ensures IsWord(Digits(v, Decimal)) && IsNumeric(Digits(v, Decimal))
  {
    hide Digits, ParseUnsigned;
    ParseDigits(v, Decimal, max);
    DigitsAreAWord(v, Decimal);
  }

  // ----- What the parser can return -----

  /** What every parsed record satisfies. */
  ghost predicate Shaped(r: Record) {
    match r
    case Message(_, _, _, frameType, dlc, data, isRemote, errorState, name, metadata) =>
      if frameType == 0 then
        !errorState && name.None? && metadata == [] && |data| == Declared(dlc, isRemote)
      else
        (frameType == 1 || frameType == 3) && (isRemote <==> data == []) && AllWords(metadata)
        && (name.Some? ==> IsWord(name.value) && !IsBit(name.value))
    case ErrorFrame(_, side, isFd, fields) => (isFd <==> side.Some?) && AllWords(fields)
    case Event(text) => IsEventText(text)
  }

  /** A text that is not taken for a line about CAN. */
  ghost predicate IsEventText(text: string) {
    var words := Tokens(text);
    words != [] && !EqIgnoreCase(words[0], "canfd")
    && !(ParseUnsigned(words[0], Decimal, MAX32).Some? && LooksLikeCan(words[1..]))
  }

  lemma ClassicIsShaped(channel: u32, words: seq<string>, base: NumberBase)
    requires AllWords(words)
    ensures var r := ParseClassic(channel, words, base); r.Ok? ==> Shaped(r.value)
  {
    hide ParseId, ParseDlc, ParseDirection, ParseBytes, IsWord, EqIgnoreCase, Declared;
    if |words| >= 4 && ParseDlc(words[3], base).Ok? {
      var n := Declared(ParseDlc(words[3], base).value, EqIgnoreCase(words[2], "r"));
      if |words| >= 4 + n {
        ParsedLength(words[4..4 + n], base);
      }
    }
  }

  lemma FdDataIsShaped(channel: u32, direction: Direction, id: u32, name: Option<string>, words: seq<string>,
                       base: NumberBase)
    requires |words| >= 4 && AllWords(words) && (name.Some? ==> IsWord(name.value) && !IsBit(name.value))
    ensures var r := ParseFdData(channel, direction, id, name, words, base); r.Ok? ==> Shaped(r.value)
  {
    hide ParseDlc, ParseBytes, ParseUnsigned, IsWord;
    var n := ParseUnsigned(words[3], Decimal, MAX64);
    if n.Some? && |words| >= 4 + n.value {
      ParsedLength(words[4..4 + n.value], base);
    }
  }

  lemma FdIsShaped(words: seq<string>, base: NumberBase)
    requires AllWords(words)
    ensures var r := ParseFd(words, base); r.Ok? ==> Shaped(r.value)
  {
    hide ParseId, ParseDirection, ParseUnsigned, ParseFdData, IsWord, EqIgnoreCase;
    if |words| >= 7 && ParseUnsigned(words[0], Decimal, MAX32).Some? && ParseDirection(words[1]).Ok?
      && ParseId(words[2], base).Ok? {
      var channel, direction, id := ParseUnsigned(words[0], Decimal, MAX32).value, ParseDirection(words[1]).value,
                                    ParseId(words[2], base).value;
      FdDataIsShaped(channel, direction, id, None, words[3..], base);
      if |words| >= 8 && !IsBit(words[3]) {
        FdDataIsShaped(channel, direction, id, Some(words[3]), words[4..], base);
      }
    }
  }

  lemma ParsedIsShaped(text: string, base: NumberBase)
    ensures Parse(text, base).Ok? ==> Shaped(Parse(text, base).value)
  {
    hide ParseClassic, ParseFd, ParseUnsigned, Shaped, EqIgnoreCase, LooksLikeCan;
    var words := Tokens(text);
    if words != [] {
      FdIsShaped(words[1..], base);
      var channel := ParseUnsigned(words[0], Decimal, MAX32);
      if channel.Some? {
        ClassicIsShaped(channel.value, words[1..], base);
      }
      if IsEventText(text) {
        EventIsShaped(text);
      }
    }
  }

  lemma EventIsShaped(text: string)
    requires IsEventText(text)
    ensures Shaped(Event(text))
  {
  }

  // ----- Lines read back -----

  lemma WordsConcat(a: seq<Cell>, b: seq<Cell>)
    ensures Words(a + b) == Words(a) + Words(b)
  {
  }

  /** Cells that may follow others. */
  ghost predicate Spaced(cells: seq<Cell>) {
    forall i :: 0 <= i < |cells| ==> AllWhite(cells[i].before) && cells[i].before != ""
  }

  lemma SeparatedConcat(a: seq<Cell>, b: seq<Cell>)
    requires Separated(a) && a != [] && Spaced(b)
    ensures Separated(a + b)
  {
    hide AllWhite;
  }

  /** Cells that start a line and hold these words. */
  ghost predicate Holds(cells: seq<Cell>, words: seq<string>) {
    Separated(cells) && cells != [] && Words(cells) == words && AllWords(words)
  }

  lemma HoldsMore(a: seq<Cell>, p: seq<string>, b: seq<Cell>, q: seq<string>)
    requires Holds(a, p) && Spaced(b) && Words(b) == q && AllWords(q)
    ensures Holds(a + b, p + q)
  {
    hide AllWhite, IsWord;
    SeparatedConcat(a, b);
    WordsConcat(a, b);
  }

  /** A row of words is read word by word. */
  lemma RowIsRead(cells: seq<Cell>, words: seq<string>, base: NumberBase)
    requires Holds(cells, words)
    ensures Parse(RowText(cells), base) == Interpret(RowText(cells), words, base)
  {
    TokensOfRow(cells);
  }

  function ClassicWords(m: Record, base: NumberBase): seq<string>
    requires m.Message?
  {
    [Digits(m.channel, Decimal), FormatId(m.id, base), DirectionText(m.direction), if m.isRemote then "r" else "d",
     Digits(m.dlc, base)] + ByteWords(m.data, base)
  }

  lemma KindRoundTrip(isRemote: bool)
    ensures var s := if isRemote then "r" else "d";
            IsWord(s) && (EqIgnoreCase(s, "r") <==> isRemote) && (EqIgnoreCase(s, "d") <==> !isRemote)
  {
    var s := if isRemote then "r" else "d";
    assert s[0] == if isRemote then 'r' else 'd';
    NotThatWord("r", "d", 0);
    NotThatWord("d", "r", 0);
  }

  lemma ClassicHeadRow(m: Record, base: NumberBase)
    requires m.Message? && Refusal(m).None?
    ensures Holds(ClassicHead(m, base), ClassicWords(m, base)[..5])
  {
    hide Digits, FormatId, DirectionText, FormatByte, IsWord, IsWhite;
    BlanksAreWhite();
    DecimalColumn(m.channel, MAX32);
    IdRoundTrip(m.id, base);
    DirectionRoundTrip(m.direction);
    KindRoundTrip(m.isRemote);
    DlcRoundTrip(m.dlc, base);
  }

  lemma ClassicRow(m: Record, base: NumberBase)
    requires m.Message? && m.frameType == 0 && Refusal(m).None?
    ensures Holds(Row(m, base), ClassicWords(m, base))
  {
    hide Holds, ClassicHead, SpacedCells, Spaced;
    var words := ByteWords(m.data, base);
    ClassicHeadRow(m, base);
    BytesRoundTrip(m.data, base);
    SpacedRow(words);
    HoldsMore(ClassicHead(m, base), ClassicWords(m, base)[..5], SpacedCells(words), words);
    assert ClassicWords(m, base)[..5] + words == ClassicWords(m, base);
  }

  lemma BlanksAreWhite()
    ensures AllWhite("") && AllWhite(" ") && AllWhite("  ") && AllWhite("   ")
    ensures forall n: int :: AllWhite(Blanks(n) + " ") && AllWhite(" " + Blanks(n)) && AllWhite("   " + Blanks(n))
  {
  }

  lemma ClassicIsRead(m: Record, base: NumberBase)
    requires m.Message? && m.frameType == 0 && Refusal(m).None? && Shaped(m)
    ensures forall text :: Interpret(text, ClassicWords(m, base), base) == Ok(m)
  {
    hide Digits, FormatId, DirectionText, FormatByte, ParseId, ParseDlc, ParseBytes, ParseUnsigned, IsWord, IsNumeric,
         EqIgnoreCase;
    var words := ClassicWords(m, base);
    var fields := words[1..];
    DecimalColumn(m.channel, MAX32);
    NumericIsNoKeyword(words[0]);
    IdRoundTrip(m.id, base);
    NumericIsNoKeyword(fields[0]);
    DirectionRoundTrip(m.direction);
    KindRoundTrip(m.isRemote);
    DlcRoundTrip(m.dlc, base);
    BytesRoundTrip(m.data, base);
    assert fields[4..4 + |m.data|] == ByteWords(m.data, base);
    assert LooksLikeCan(fields);
    assert ParseClassic(m.channel, fields, base) == Ok(m);
  }

  function FdControlWords(m: Record, base: NumberBase): seq<string>
    requires m.Message?
  {
    [BitText(Brs(m.frameType)), BitText(m.errorState), Digits(m.dlc, base), Digits(|m.data|, Decimal)]
    + ByteWords(m.data, base) + (if m.metadata == [] then DefaultColumns(m) else m.metadata)
  }

  function FdWords(m: Record, base: NumberBase): seq<string>
    requires m.Message?
  {
    ["CANFD", Digits(m.channel, Decimal), DirectionText(m.direction), FormatId(m.id, base)]
    + (if m.name.Some? then [m.name.value] else []) + FdControlWords(m, base)
  }

  lemma FdStartRow(channel: u32, direction: Direction)
    ensures Holds(FdStart(channel, direction), ["CANFD", Digits(channel, Decimal), DirectionText(direction)])
  {
    hide Digits, DirectionText, IsWhite;
    BlanksAreWhite();
    DecimalColumn(channel, MAX32);
    DirectionRoundTrip(direction);
    KeywordsAreWords();
  }

  lemma KeywordsAreWords()
    ensures IsWord("CANFD") && IsWord("ErrorFrame") && IsWord("0") && IsWord("1")
    ensures EqIgnoreCase("CANFD", "canfd") && EqIgnoreCase("ErrorFrame", "errorframe")
  {
    var a, b := "CANFD", "canfd";
    assert Lower(a[0]) == b[0] && Lower(a[1]) == b[1] && Lower(a[2]) == b[2] && Lower(a[3]) == b[3]
           && Lower(a[4]) == b[4];
    var c, d := "ErrorFrame", "errorframe";
    assert Lower(c[0]) == d[0] && Lower(c[5]) == d[5];
  }

  lemma FdControlRow(m: Record, base: NumberBase)
    requires m.Message?
    ensures var cells := FdControl(m, base);
            Spaced(cells) && AllWords(Words(cells))
            && Words(cells) == [BitText(Brs(m.frameType)), BitText(m.errorState), Digits(m.dlc, base),
                                Digits(|m.data|, Decimal)]
  {
    hide Digits, IsWhite, IsWord, Brs;
    BlanksAreWhite();
    KeywordsAreWords();
    DlcRoundTrip(m.dlc, base);
    DigitsAreAWord(|m.data|, Decimal);
  }

  function FdHeadWords(m: Record, base: NumberBase): seq<string>
    requires m.Message?
  {
    ["CANFD", Digits(m.channel, Decimal), DirectionText(m.direction)] + [FormatId(m.id, base)]
    + (if m.name.Some? then [m.name.value] else [])
    + [BitText(Brs(m.frameType)), BitText(m.errorState), Digits(m.dlc, base), Digits(|m.data|, Decimal)]
  }

  lemma FdHeadRow(m: Record, base: NumberBase)
    requires m.Message? && m.frameType != 0 && Refusal(m).None? && Shaped(m)
    ensures Holds(FdHead(m, base), FdHeadWords(m, base))
  {
    hide Digits, FormatId, DirectionText, IsWord, IsWhite, FdStart, FdControl, ByteWords, Brs, BitText, Holds,
         DefaultColumns, ParseId;
    var id := FormatId(m.id, base);
    var start, idCell := FdStart(m.channel, m.direction), [Cell("   " + Blanks(8 - |id|), id)];
    var startWords := ["CANFD", Digits(m.channel, Decimal), DirectionText(m.direction)];
    var nameWords := if m.name.Some? then [m.name.value] else [];
    var control := [BitText(Brs(m.frameType)), BitText(m.errorState), Digits(m.dlc, base), Digits(|m.data|, Decimal)];
    BlanksAreWhite();
    FdStartRow(m.channel, m.direction);
    IdRoundTrip(m.id, base);
    HoldsMore(start, startWords, idCell, [id]);
    HoldsMore(start + idCell, startWords + [id], FdName(m), nameWords);
    FdControlRow(m, base);
    HoldsMore(start + idCell + FdName(m), startWords + [id] + nameWords, FdControl(m, base), control);
  }

  lemma FdRow(m: Record, base: NumberBase)
    requires m.Message? && m.frameType != 0 && Refusal(m).None? && Shaped(m)
    ensures Holds(Row(m, base), FdWords(m, base))
  {
    hide Holds, FdHead, FdWords, FdHeadWords, SpacedCells, Spaced, ByteWords, DefaultColumns, IsWord, FormatByte;
    var head, bytes := FdHeadWords(m, base), ByteWords(m.data, base);
    var columns := if m.metadata == [] then DefaultColumns(m) else m.metadata;
    FdHeadRow(m, base);
    BytesRoundTrip(m.data, base);
    SpacedRow(bytes);
    HoldsMore(FdHead(m, base), head, SpacedCells(bytes), bytes);
    ColumnsAreWords(m);
    SpacedRow(columns);
    HoldsMore(FdHead(m, base) + SpacedCells(bytes), head + bytes, SpacedCells(columns), columns);
    FdWordsSplit(m, base);
  }

  lemma SpacedRow(words: seq<string>)
    ensures Spaced(SpacedCells(words)) && Words(SpacedCells(words)) == words
  {
  }

  lemma ColumnsAreWords(m: Record)
    requires m.Message?
    ensures AllWords(DefaultColumns(m))
  {
  }

  lemma FdWordsSplit(m: Record, base: NumberBase)
    requires m.Message?
    ensures FdWords(m, base)
         == FdHeadWords(m, base) + ByteWords(m.data, base)
           + (if m.metadata == [] then DefaultColumns(m) else m.metadata)
  {
    hide Digits, FormatId, DirectionText, ByteWords, Brs, BitText, DefaultColumns;
  }

  /** The record that a message without columns of its own turns into. */
  function WithColumns(m: Record): Record
    requires m.Message?
  {
    if m.metadata == [] then m.(metadata := DefaultColumns(m)) else m
  }

  lemma FdDataIsRead(m: Record, base: NumberBase)
    requires m.Message? && m.frameType != 0 && Refusal(m).None? && Shaped(m)
    ensures |FdControlWords(m, base)| >= 4
    ensures ParseFdData(m.channel, m.direction, m.id, m.name, FdControlWords(m, base), base) == Ok(WithColumns(m))
  {
    hide Digits, FormatByte, ParseDlc, ParseBytes, ParseUnsigned, IsWord, IsNumeric, DefaultColumns;
    var words := FdControlWords(m, base);
    DlcRoundTrip(m.dlc, base);
    DecimalColumn(|m.data|, MAX64);
    BytesRoundTrip(m.data, base);
    assert words[4..4 + |m.data|] == ByteWords(m.data, base);
    assert words[4 + |m.data|..] == WithColumns(m).metadata;
  }

  lemma FdIsRead(m: Record, base: NumberBase)
    requires m.Message? && m.frameType != 0 && Refusal(m).None? && Shaped(m)
    ensures forall text :: Interpret(text, FdWords(m, base), base) == Ok(WithColumns(m))
  {
    hide Digits, FormatId, DirectionText, ParseId, ParseFdData, ParseUnsigned, IsWord, IsNumeric, EqIgnoreCase, Shaped,
         WithColumns, Brs;
    var words := FdWords(m, base)[1..];
    DecimalColumn(m.channel, MAX32);
    DirectionRoundTrip(m.direction);
    IdRoundTrip(m.id, base);
    NumericIsNoKeyword(words[2]);
    KeywordsAreWords();
    FdDataIsRead(m, base);
    NameIsNoBit(m);
    if m.name.Some? {
      assert words[4..] == FdControlWords(m, base);
    } else {
      assert words[3..] == FdControlWords(m, base);
    }
  }

  lemma NameIsNoBit(m: Record)
    requires m.Message? && m.frameType != 0 && Shaped(m)
    ensures m.name.Some? ==> !IsBit(m.name.value)
  {
  }

  function ErrorWords(r: Record): seq<string>
    requires r.ErrorFrame?
  {
    (if r.isFd then ["CANFD", Digits(r.channel, Decimal), DirectionText(r.side.GetOr(Rx)), "ErrorFrame"]
     else [Digits(r.channel, Decimal), "ErrorFrame"]) + r.fields
  }

  lemma ErrorRow(r: Record, base: NumberBase)
    requires r.ErrorFrame? && Refusal(r).None? && AllWords(r.fields)
    ensures Holds(Row(r, base), ErrorWords(r))
  {
    hide Digits, DirectionText, IsWord, IsWhite, FdStart, SpacedCells;
    BlanksAreWhite();
    KeywordsAreWords();
    SpacedRow(r.fields);
    DecimalColumn(r.channel, MAX32);
    if r.isFd {
      var start, marker := FdStart(r.channel, r.side.GetOr(Rx)), [Cell("   ", "ErrorFrame")];
      var words := ["CANFD", Digits(r.channel, Decimal), DirectionText(r.side.GetOr(Rx))];
      FdStartRow(r.channel, r.side.GetOr(Rx));
      HoldsMore(start, words, marker, ["ErrorFrame"]);
      HoldsMore(start + marker, words + ["ErrorFrame"], SpacedCells(r.fields), r.fields);
      assert words + ["ErrorFrame"] + r.fields == ErrorWords(r);
    } else {
      var start := [Cell("", Digits(r.channel, Decimal)), Cell("  ", "ErrorFrame")];
      HoldsMore(start, [Digits(r.channel, Decimal), "ErrorFrame"], SpacedCells(r.fields), r.fields);
    }
  }

  lemma ErrorIsRead(r: Record, base: NumberBase)
    requires r.ErrorFrame? && Refusal(r).None? && Shaped(r)
    ensures forall text :: Interpret(text, ErrorWords(r), base) == Ok(r)
  {
    hide Digits, DirectionText, ParseUnsigned, IsWord, IsNumeric, EqIgnoreCase;
    var words := ErrorWords(r);
    KeywordsAreWords();
    DecimalColumn(r.channel, MAX32);
    NumericIsNoKeyword(Digits(r.channel, Decimal));
    if r.isFd {
      DirectionRoundTrip(r.side.value);
      assert words[1..][3..] == r.fields;
    } else {
      assert words[1..][1..] == r.fields;
    }
  }

  // ----- The round trip -----

  ghost predicate Survives(r: Record, base: NumberBase) {
    Write(r, base).Ok? && Parse(Write(r, base).value, base) == Ok(r)
  }

  /** The records that writing does not refuse and parsing can return; a CAN FD message needs columns of its own. */
  ghost predicate Canonical(r: Record) {
    Refusal(r).None? && Shaped(r) && (r.Message? && r.frameType != 0 ==> r.metadata != [])
  }

  lemma WrittenMessageReads(m: Record, base: NumberBase)
    requires m.Message? && Refusal(m).None? && Shaped(m)
    ensures Parse(RowText(Row(m, base)), base) == Ok(if m.frameType == 0 then m else WithColumns(m))
  {
    hide Row, Interpret, Parse, ClassicWords, FdWords, WithColumns, Shaped, Refusal;
    var text := RowText(Row(m, base));
    if m.frameType == 0 {
      ClassicRow(m, base);
      RowIsRead(Row(m, base), ClassicWords(m, base), base);
      ClassicIsRead(m, base);
      assert Interpret(text, ClassicWords(m, base), base) == Ok(m);
    } else {
      FdRow(m, base);
      RowIsRead(Row(m, base), FdWords(m, base), base);
      FdIsRead(m, base);
      assert Interpret(text, FdWords(m, base), base) == Ok(WithColumns(m));
    }
  }

  /** The frame type that reading assigns: CAN FD, with or without bit rate switching. */
  function ReadType(frameType: u8): u8 {
    if frameType == 0 then 0 else if Brs(frameType) then 3 else 1
  }

  lemma SameSwitch(frameType: u8)
    ensures (ReadType(frameType) == 0 <==> frameType == 0) && (Brs(ReadType(frameType)) <==> Brs(frameType))
  {
  }

  lemma SameRow(m: Record, base: NumberBase)
    requires m.Message?
    ensures Row(m, base) == Row(m.(frameType := ReadType(m.frameType)), base)
  {
    hide FdStart, SpacedCells, FormatId, ByteWords, ClassicHead, Digits, Blanks, BitText, Brs, ReadType;
    SameSwitch(m.frameType);
  }

  /**
   All that a line tells of the frame type is whether it is CAN FD and switches the bit rate. So a message with
   any type, be it bit rate switching alone, reads back with the type of its line.
   */
  lemma AnyTypeReads(m: Record, base: NumberBase)
    requires m.Message? && Refusal(m).None? && Shaped(m.(frameType := ReadType(m.frameType)))
    ensures var t := m.(frameType := ReadType(m.frameType));
            && Write(m, base) == Write(t, base)
            && Parse(Write(m, base).value, base) == Ok(if m.frameType == 0 then t else WithColumns(t))
  {
    hide Parse, Shaped, RowText, Row, WithColumns, Brs;
    SameRow(m, base);
    WrittenMessageReads(m.(frameType := ReadType(m.frameType)), base);
  }

  lemma WrittenErrorReads(r: Record, base: NumberBase)
    requires r.ErrorFrame? && Refusal(r).None? && Shaped(r)
    ensures Parse(RowText(Row(r, base)), base) == Ok(r)
  {
    hide Row, Interpret, Parse, ErrorWords;
    var text := RowText(Row(r, base));
    ErrorRow(r, base);
    RowIsRead(Row(r, base), ErrorWords(r), base);
    ErrorIsRead(r, base);
    assert Interpret(text, ErrorWords(r), base) == Ok(r);
  }

  /** In either base, a record is read back from its text exactly if it is canonical. */
  lemma RoundTrip(r: Record, base: NumberBase)
    ensures Survives(r, base) <==> Canonical(r)
  {
    hide Row, Parse, Shaped, Refusal, DefaultColumns;
    if Refusal(r).None? {
      ParsedIsShaped(Write(r, base).value, base);
      if Shaped(r) {
        match r {
          case Message(_, _, _, _, _, _, _, _, _, _) => WrittenMessageReads(r, base);
          case ErrorFrame(_, _, _, _) => WrittenErrorReads(r, base);
          case Event(_) => EventIsRead(r.text, base);
        }
        if r.Message? {
          HasColumns(r);
        }
      }
    }
  }

  lemma HasColumns(m: Record)
    requires m.Message?
    ensures DefaultColumns(m) != []
  {
  }

  lemma EventIsRead(text: string, base: NumberBase)
    requires Shaped(Event(text))
    ensures Parse(text, base) == Ok(Event(text))
  {
    hide EqIgnoreCase, LooksLikeCan, ParseUnsigned, ParseFd, ParseClassic;
  }
}
