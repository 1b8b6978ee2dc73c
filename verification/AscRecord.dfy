/** Records of ASC traces: their text form and its parser. */
module AscRecord {
  import opened Bytes
  import opened Text
  import opened Wrappers

  datatype Direction = Rx | Tx

  /**
   A message, an error frame, or any other event. The frame type has bit 0 for CAN FD, bit 1 for bit rate switching.
   */
  datatype Record =
    | Message(channel: u32, id: u32, direction: Direction, frameType: u8, dlc: u8, data: bytes,
              isRemote: bool, errorState: bool, name: Option<string>, metadata: seq<string>)
    | ErrorFrame(channel: u32, side: Option<Direction>, isFd: bool, fields: seq<string>)
    | Event(text: string)

  datatype Problem =
    | NoEvent | ZeroChannel | BadChannel | FewColumns | BadId | LongId | BadDirection | BadKind | BadDlc | LargeDlc
    | BadLength | LongPayload | MissingData | BadByte | BadBit
    | UnsupportedIdBits | RemoteWithData | LineBreak | NotOrdered

  const CAN_EXT_FLAG := 0x8000_0000
  const ID_BOUND := 0x2000_0000
  const MAX32 := 0xFFFF_FFFF
  const MAX64 := 0xFFFF_FFFF_FFFF_FFFF

  // ----- Columns -----

  function DirectionText(d: Direction): string {
    if d.Rx? then "Rx" else "Tx"
  }

  function ParseDirection(s: string): Result<Direction, Problem> {
    if EqIgnoreCase(s, "rx") then Ok(Rx) else if EqIgnoreCase(s, "tx") then Ok(Tx) else Err(BadDirection)
  }

  predicate IsExtended(id: u32) {
    id >= CAN_EXT_FLAG
  }

  function FormatId(id: u32, base: NumberBase): string {
    Digits(id % ID_BOUND, base) + if IsExtended(id) then "x" else ""
  }

  function ParseId(s: string, base: NumberBase): Result<u32, Problem> {
    var extended := s != "" && (s[|s| - 1] == 'x' || s[|s| - 1] == 'X');
    var raw := ParseUnsigned(if extended then s[..|s| - 1] else s, base, MAX32);
    if raw.None? then Err(BadId)
    else if raw.value >= ID_BOUND then Err(LongId)
    else if !extended && raw.value > 0x7FF then Err(LongId)
    else Ok(raw.value + if extended then CAN_EXT_FLAG else 0)
  }

  function FormatByte(b: u8, base: NumberBase): (s: string)
    ensures base.Hex? ==> |s| == 2
  {
    HexDigits(b);
    (if base.Hex? && b < 16 then "0" else "") + Digits(b, base)
  }

  lemma HexDigits(b: u8)
    ensures |Digits(b, Hex)| == if b < 16 then 1 else 2
  {
    if b >= 16 {
      assert Hex.Split(b) == (b / 16, b % 16);
      assert |Digits(b / 16, Hex)| == 1;
    }
  }

  function ParseBytes(words: seq<string>, base: NumberBase): Result<bytes, Problem> {
    if words == [] then Ok([])
    else
      var b := ParseUnsigned(words[0], base, MAX32);
      if b.None? || b.value > 0xFF then Err(BadByte)
      else
        var more := ParseBytes(words[1..], base);
        if more.Err? then more else Ok([b.value] + more.value)
  }

  function ParseDlc(s: string, base: NumberBase): Result<u8, Problem> {
    var v := ParseUnsigned(s, base, MAX32);
    if v.None? then Err(BadDlc) else if v.value > 0xFF then Err(LargeDlc) else Ok(v.value)
  }

  predicate IsBit(s: string) {
    s == "0" || s == "1"
  }

  function BitText(b: bool): string {
    if b then "1" else "0"
  }

  // ----- The parser -----

  /** The part of a classic payload that a line has to carry. */
  function Declared(dlc: u8, isRemote: bool): nat {
    if isRemote then 0 else if dlc < 8 then dlc else 8
  }

  function ParseClassic(channel: u32, words: seq<string>, base: NumberBase): Result<Record, Problem> {
    if channel == 0 then Err(ZeroChannel)
    else if words != [] && EqIgnoreCase(words[0], "errorframe") then Ok(ErrorFrame(channel, None, false, words[1..]))
    else if |words| < 4 then Err(FewColumns)
    else
      var id, direction, dlc := ParseId(words[0], base), ParseDirection(words[1]), ParseDlc(words[3], base);
      var isRemote := EqIgnoreCase(words[2], "r");
      if id.Err? then Err(id.error)
      else if direction.Err? then Err(direction.error)
      else if dlc.Err? then Err(dlc.error)
      else if !isRemote && !EqIgnoreCase(words[2], "d") then Err(BadKind)
      else
        var n := Declared(dlc.value, isRemote);
        if |words| < 4 + n then Err(MissingData)
        else
          var data := ParseBytes(words[4..4 + n], base);
          if data.Err? then Err(data.error)
          else Ok(Message(channel, id.value, direction.value, 0, dlc.value, data.value, isRemote, false, None, []))
  }

  function ParseFd(words: seq<string>, base: NumberBase): Result<Record, Problem> {
    if |words| < 3 then Err(FewColumns)
    else
      var channel, direction := ParseUnsigned(words[0], Decimal, MAX32), ParseDirection(words[1]);
      if channel.None? then Err(BadChannel)
      else if channel.value == 0 then Err(ZeroChannel)
      else if direction.Err? then Err(direction.error)
      else if EqIgnoreCase(words[2], "errorframe") then
        Ok(ErrorFrame(channel.value, Some(direction.value), true, words[3..]))
      else if |words| < 7 then Err(FewColumns)
      else
        var id := ParseId(words[2], base);
        if id.Err? then Err(id.error)
        else if IsBit(words[3]) then ParseFdData(channel.value, direction.value, id.value, None, words[3..], base)
        else if |words| < 8 then Err(FewColumns)
        else ParseFdData(channel.value, direction.value, id.value, Some(words[3]), words[4..], base)
  }

  /** The columns of a CAN FD line from the bit rate switch on. */
  function ParseFdData(channel: u32, direction: Direction, id: u32, name: Option<string>, words: seq<string>,
                       base: NumberBase)
    : Result<Record, Problem>
    requires |words| >= 4
  {
    var dlc, n := ParseDlc(words[2], base), ParseUnsigned(words[3], Decimal, MAX64);
    if !IsBit(words[0]) || !IsBit(words[1]) then Err(BadBit)
    else if dlc.Err? then Err(dlc.error)
    else if n.None? then Err(BadLength)
    else if n.value > 64 then Err(LongPayload)
    else if |words| < 4 + n.value then Err(MissingData)
    else
      var data := ParseBytes(words[4..4 + n.value], base);
      if data.Err? then Err(data.error)
      else Ok(Message(channel, id, direction, if words[0] == "1" then 3 else 1, dlc.value, data.value,
                      n.value == 0, words[1] == "1", name, words[4 + n.value..]))
  }

  predicate LooksLikeCan(words: seq<string>) {
    (words != [] && EqIgnoreCase(words[0], "errorframe"))
    || (|words| > 1 && (EqIgnoreCase(words[1], "rx") || EqIgnoreCase(words[1], "tx")))
  }

  /** What the words of a line make of its text. */
  function Interpret(text: string, words: seq<string>, base: NumberBase): Result<Record, Problem> {
    if words == [] then Err(NoEvent)
    else if EqIgnoreCase(words[0], "canfd") then ParseFd(words[1..], base)
    else
      var channel := ParseUnsigned(words[0], Decimal, MAX32);
      if channel.Some? && LooksLikeCan(words[1..]) then ParseClassic(channel.value, words[1..], base)
      else Ok(Event(text))
  }

  function Parse(text: string, base: NumberBase): Result<Record, Problem> {
    Interpret(text, Tokens(text), base)
  }

  // ----- The printer -----

  function Blanks(n: int): (s: string)
    ensures AllWhite(s) && |s| == if n > 0 then n else 0
  {
    if n <= 0 then "" else " " + Blanks(n - 1)
  }

  function SpacedCells(words: seq<string>): (cells: seq<Cell>)
    ensures Words(cells) == words && forall i :: 0 <= i < |cells| ==> cells[i].before == " "
  {
    seq(|words|, i requires 0 <= i < |words| => Cell(" ", words[i]))
  }

  function ByteWords(data: bytes, base: NumberBase): (words: seq<string>)
    ensures |words| == |data|
  {
    seq(|data|, i requires 0 <= i < |data| => FormatByte(data[i], base))
  }

  function ClassicHead(m: Record, base: NumberBase): seq<Cell>
    requires m.Message?
  {
    var id := FormatId(m.id, base);
    [Cell("", Digits(m.channel, Decimal)), Cell("  ", id), Cell(Blanks(15 - |id|) + " ", DirectionText(m.direction)),
     Cell("   ", if m.isRemote then "r" else "d"), Cell(" ", Digits(m.dlc, base))]
  }

  predicate Brs(frameType: u8) {
    frameType / 2 % 2 == 1
  }

  /** The columns written for a message without any of its own. */
  function DefaultColumns(m: Record): seq<string>
    requires m.Message?
  {
    ["0", "0",
     if Brs(m.frameType) then (if m.errorState then "7000" else "3000") else if m.errorState then "5000" else "1000",
     "0", "0", "0", "0", "0"]
  }

  function FdStart(channel: u32, direction: Direction): seq<Cell> {
    var ch := Digits(channel, Decimal);
    [Cell("", "CANFD"), Cell(" " + Blanks(3 - |ch|), ch), Cell(" ", DirectionText(direction))]
  }

  function FdName(m: Record): seq<Cell>
    requires m.Message?
  {
    if m.name.Some? then [Cell("  ", m.name.value)] else []
  }

  function FdControl(m: Record, base: NumberBase): seq<Cell>
    requires m.Message?
  {
    var n := Digits(|m.data|, Decimal);
    [Cell(if m.name.Some? then " " else "  ", BitText(Brs(m.frameType))), Cell(" ", BitText(m.errorState)),
     Cell(" ", Digits(m.dlc, base)), Cell(" " + Blanks(2 - |n|), n)]
  }

  function FdHead(m: Record, base: NumberBase): seq<Cell>
    requires m.Message?
  {
    var id := FormatId(m.id, base);
    FdStart(m.channel, m.direction) + [Cell("   " + Blanks(8 - |id|), id)] + FdName(m) + FdControl(m, base)
  }

  /** The cells of a line. */
  function Row(r: Record, base: NumberBase): seq<Cell>
    requires !r.Event?
  {
    match r
    case Message(_, _, _, frameType, _, data, _, _, _, metadata) =>
      if frameType == 0 then ClassicHead(r, base) + SpacedCells(ByteWords(data, base))
      else FdHead(r, base) + SpacedCells(ByteWords(data, base))
           + SpacedCells(if metadata == [] then DefaultColumns(r) else metadata)
    case ErrorFrame(channel, side, isFd, fields) =>
      (if isFd then FdStart(channel, side.GetOr(Rx)) + [Cell("   ", "ErrorFrame")]
       else [Cell("", Digits(channel, Decimal)), Cell("  ", "ErrorFrame")])
      + SpacedCells(fields)
  }

  /** Why a record is not written. */
  function Refusal(r: Record): Option<Problem> {
    match r
    case Message(channel, id, _, frameType, dlc, data, isRemote, _, _, _) =>
      if channel == 0 then Some(ZeroChannel)
      else if id / ID_BOUND % 4 != 0 then Some(UnsupportedIdBits)
      else if !IsExtended(id) && id % ID_BOUND > 0x7FF then Some(LongId)
      else if |data| > (if frameType == 0 then 8 else 64) then Some(LongPayload)
      else if frameType != 0 && dlc > 15 then Some(LargeDlc)
      else if isRemote && data != [] then Some(RemoteWithData)
      else None
    case ErrorFrame(channel, _, _, _) => if channel == 0 then Some(ZeroChannel) else None
    case Event(text) => if '\r' in text || '\n' in text then Some(LineBreak) else None
  }

  function Write(r: Record, base: NumberBase): Result<string, Problem> {
    if Refusal(r).Some? then Err(Refusal(r).value)
    else if r.Event? then Ok(r.text)
    else Ok(RowText(Row(r, base)))
  }
}
