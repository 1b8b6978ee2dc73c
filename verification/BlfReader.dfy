/** The incremental BLF reader. */
module BlfReader {
  import opened BlfCursor
  import opened BlfHeader
  import opened BlfObjects
  import opened BlfStream
  import opened Bytes
  import opened Wrappers

  /** A byte stream whose reads may return fewer bytes than asked for. */
  class ByteSource {
    const data: bytes
    var pos: nat

    ghost predicate Valid()
      reads this
    {
      pos <= |data|
    }

    function Rest(): bytes
      requires Valid()
      reads this
    {
      data[pos..]
    }

    constructor (data: bytes)
      ensures Valid() && this.data == data && Rest() == data
    {
      this.data := data;
      pos := 0;
    }

    /** Fills a non-empty prefix of `buffer[from..to]`; 0 means the end of the stream. */
    method Read(buffer: array<u8>, from: nat, to: nat) returns (n: nat)
      requires Valid() && from < to <= buffer.Length
      modifies this, buffer
      ensures Valid() && n <= to - from && pos == old(pos) + n
      ensures n == 0 <==> old(Rest()) == []
      ensures buffer[..] == Overlay(old(buffer[..]), from, data[old(pos)..pos])
    {
      var most := if |data| - pos < to - from then |data| - pos else to - from;
      if most == 0 {
        return 0;
      }
      n :| 1 <= n <= most;
      forall i | 0 <= i < n {
        buffer[from + i] := data[pos + i];
      }
      pos := pos + n;
    }
  }

  /** Fills `buffer[from..to]` from the source, or reports that the source ended first. */
  method ReadExactAt(source: ByteSource, buffer: array<u8>, from: nat, to: nat) returns (ok: bool)
    requires source.Valid() && from <= to <= buffer.Length
    modifies source, buffer
    ensures source.Valid()
    ensures ok <==> |old(source.Rest())| >= to - from
    ensures ok ==> source.pos == old(source.pos) + (to - from)
    ensures ok ==> buffer[..] == Overlay(old(buffer[..]), from, source.data[old(source.pos)..source.pos])
  {
    var filled := from;
    ghost var before, at := buffer[..], source.pos;
    assert source.data[at..at] == [];
    while filled < to
      invariant from <= filled <= to && source.Valid()
      invariant source.pos == at + (filled - from)
      invariant buffer[..] == Overlay(before, from, source.data[at..source.pos])
    {
      ghost var mid, p := buffer[..], source.pos;
      var count := source.Read(buffer, filled, to);
      OverlayMore(before, from, source.data, at, p, source.pos);
      if count == 0 {
        return false;
      }
      filled := filled + count;
    }
    ok := true;
  }

  /** `s` with the bytes from `at` on replaced by `piece`. */
  ghost function Overlay(s: bytes, at: nat, piece: bytes): bytes
    requires at + |piece| <= |s|
  {
    s[..at] + piece + s[at + |piece|..]
  }

  lemma OverlayMore(s: bytes, from: nat, data: bytes, a: nat, b: nat, c: nat)
    requires a <= b <= c <= |data| && from + (c - a) <= |s|
    ensures Overlay(Overlay(s, from, data[a..b]), from + (b - a), data[b..c]) == Overlay(s, from, data[a..c])
  {
    assert data[a..b] + data[b..c] == data[a..c];
  }

  /** Reads the next `n` bytes. */
  method ReadBytes(source: ByteSource, n: nat) returns (r: Result<bytes, Error>)
    requires source.Valid()
    modifies source
    ensures source.Valid()
    ensures var s := old(source.Rest());
            if |s| < n then r == Err(UnexpectedEnd)
            else r == Ok(s[..n]) && source.Rest() == s[n..]
  {
    var buffer := new u8[n];
    ghost var s := source.Rest();
    var ok := ReadExactAt(source, buffer, 0, n);
    if !ok {
      return Err(UnexpectedEnd);
    }
    assert buffer[..] == s[..n];
    r := Ok(buffer[..]);
  }

  class BlfReader<O(!new)> {
    const f: Format<O>
    const z: Zlib
    const lim: Limits
    const header: Header
    const source: ByteSource
    var objectData: bytes
    var objectPos: nat
    var sourceEof: bool
    var finished: bool

    ghost predicate Valid()
      reads this, source
    {
      source.Valid() && objectPos <= |objectData|
    }

    /** The uncompressed bytes that no object has been taken from yet. */
    function Unread(): bytes
      requires Valid()
      reads this, source
    {
      objectData[objectPos..]
    }

    constructor (f: Format<O>, z: Zlib, lim: Limits, header: Header, source: ByteSource)
      requires source.Valid()
      ensures Valid() && this.f == f && this.z == z && this.lim == lim && this.header == header
      ensures this.source == source && Unread() == [] && !finished && !sourceEof
    {
      this.f, this.z, this.lim, this.header, this.source := f, z, lim, header, source;
      objectData, objectPos, sourceEof, finished := [], 0, false, false;
    }

    /** Reads the file header; nothing when the limits are too small or the header is rejected. */
    static method Open(f: Format<O>, z: Zlib, lim: Limits, source: ByteSource) returns (r: Option<BlfReader<O>>)
      requires source.Valid()
      modifies source
      ensures source.Valid()
      ensures var h := OpenHeader(lim.maxHeader, old(source.Rest()));
              if lim.maxHeader >= HEADER_CORE_SIZE && lim.maxContainer >= LOG_CONTAINER_SIZE
                 && lim.maxObject >= OBJ_BASE_SIZE && h.Some?
              then && r.Some? && fresh(r.value) && r.value.Valid() && r.value.source == source
                   && r.value.f == f && r.value.z == z && r.value.lim == lim
                   && r.value.header == h.value && !r.value.finished && !r.value.sourceEof && r.value.Unread() == []
                   && |old(source.Rest())| >= h.value.headerSize
                   && source.Rest() == old(source.Rest())[h.value.headerSize..]
              else r.None?
    {
      hide FromLe, Pow256, DecodeFileHeader;
      if lim.maxHeader < HEADER_CORE_SIZE || lim.maxContainer < LOG_CONTAINER_SIZE || lim.maxObject < OBJ_BASE_SIZE {
        return None;
      }
      ghost var s := source.Rest();
      var prefix := ReadBytes(source, 8);
      if prefix.Err? {
        return None;
      }
      Pow256Values();
      assert prefix.value[..4] == s[..4] && prefix.value[4..8] == s[4..8];
      if FromLe(prefix.value[..4]) != FILE_SIGNATURE {
        return None;
      }
      var headerSize := FromLe(prefix.value[4..8]);
      if headerSize < HEADER_CORE_SIZE || headerSize > lim.maxHeader {
        return None;
      }
      var others := ReadBytes(source, headerSize - 8);
      if others.Err? {
        return None;
      }
      var headerBytes := prefix.value + others.value;
      assert headerBytes == s[..headerSize] && source.Rest() == s[headerSize..];
      var h := DecodeFileHeader(headerBytes);
      if h.None? {
        return None;
      }
      DecodedSizeField(headerBytes);
      assert headerBytes[4..8] == s[4..8];
      var reader := new BlfReader(f, z, lim, h.value, source);
      r := Some(reader);
    }

    /** Drops the consumed bytes, moving the unread ones to the front. */
    method CompactObjectData()
      requires Valid()
      modifies this`objectData, this`objectPos
      ensures Valid() && objectPos == 0 && objectData == old(Unread())
    {
      if objectPos == 0 {
        return;
      }
      if objectPos == |objectData| {
        objectData := [];
      } else {
        var kept := |objectData| - objectPos;
        objectData := objectData[objectPos..] + objectData[kept..];
        objectData := objectData[..kept];
      }
      objectPos := 0;
    }

    /** Takes the next inner object if all of it has arrived. */
    method TakeObject() returns (r: Result<Option<O>, Error>)
      requires Valid()
      modifies this`objectPos
      ensures Valid()
      ensures match TryObject(f, lim, old(Unread()))
              case Wait(u) => r == Ok(None) && Unread() == u
              case Got(o, u) => r == Ok(Some(o)) && Unread() == u
              case Broken(e) => r == Err(e) && Unread() == old(Unread())
    {
      var remaining := objectData[objectPos..];
      if remaining == [] {
        return Ok(None);
      }
      if AllZero(remaining) {
        objectPos := |objectData|;
        return Ok(None);
      }
      if |remaining| < OBJ_BASE_SIZE {
        return Ok(None);
      }
      var parsed := ParseBase(remaining);
      var base := parsed.value;
      if base.signature != OBJ_SIGNATURE {
        return Err(BadSignature);
      }
      var objectSize := base.objectSize;
      if objectSize < OBJ_BASE_SIZE {
        return Err(BadSize);
      }
      if objectSize > lim.maxObject {
        return Err(OverLimit);
      }
      if |remaining| < objectSize {
        return Ok(None);
      }
      var item := f.parse(remaining[..objectSize]);
      if item.None? {
        return Err(BadObject);
      }
      var consumed := objectSize + Padding(f.base(item.value));
      if |remaining| < consumed {
        return Ok(None);
      }
      assert objectData[objectPos + consumed..] == remaining[consumed..];
      objectPos := objectPos + consumed;
      r := Ok(Some(item.value));
    }

    /** Reads the base header of the next top-level object; `Ok(None)` is the end of the file. */
    method ReadTopBase() returns (r: Result<Option<bytes>, Error>)
      requires Valid() && !sourceEof
      modifies this`sourceEof, source
      ensures Valid()
      ensures var s := old(source.Rest());
              if s == [] then r == Ok(None) && sourceEof && source.Rest() == s
              else !sourceEof
                   && if |s| < OBJ_BASE_SIZE then r == Err(UnexpectedEnd)
                      else r == Ok(Some(s[..OBJ_BASE_SIZE])) && source.Rest() == s[OBJ_BASE_SIZE..]
    {
      ghost var s := source.Rest();
      var baseBytes := new u8[OBJ_BASE_SIZE];
      var first := source.Read(baseBytes, 0, 1);
      if first == 0 {
        sourceEof := true;
        return Ok(None);
      }
      assert source.Rest() == s[1..];
      var ok := ReadExactAt(source, baseBytes, 1, OBJ_BASE_SIZE);
      if !ok {
        return Err(UnexpectedEnd);
      }
      assert baseBytes[..] == s[..OBJ_BASE_SIZE];
      r := Ok(Some(baseBytes[..]));
    }

    /** Reads one top-level object; the payload of a container joins the unread bytes. */
    method ReadTopLevel() returns (r: Result<Option<O>, Error>)
      requires Valid() && !sourceEof
      modifies this`objectData, this`objectPos, this`sourceEof, source
      ensures Valid()
      ensures var s := old(source.Rest());
              match ReadTop(f, z, lim, s)
              case Eof => r == Ok(None) && sourceEof && source.Rest() == s && Unread() == old(Unread())
              case Failed(e) => r == Err(e) && !sourceEof
              case Object(o, n) =>
                r == Ok(Some(o)) && !sourceEof && source.Rest() == s[n..] && Unread() == old(Unread())
              case Container(p, n) =>
                r == Ok(None) && !sourceEof && source.Rest() == s[n..] && Unread() == old(Unread()) + p
    {
      ghost var s := source.Rest();
      var baseBytes := ReadTopBase();
      if baseBytes.Err? {
        return Err(baseBytes.error);
      }
      if baseBytes.value.None? {
        return Ok(None);
      }
      var parsed := ParseBase(baseBytes.value.value);
      var base := parsed.value;
      PrefixOfBase(s, s[..OBJ_BASE_SIZE]);
      if base.signature != OBJ_SIGNATURE {
        return Err(BadSignature);
      }
      var objectSize := base.objectSize;
      if objectSize < OBJ_BASE_SIZE {
        return Err(BadSize);
      }
      var isContainer := base.objectType == LOG_CONTAINER;
      if objectSize > (if isContainer then lim.maxContainer else lim.maxObject) {
        return Err(OverLimit);
      }
      var body := ReadBytes(source, objectSize - OBJ_BASE_SIZE);
      if body.Err? {
        return Err(body.error);
      }
      var item := baseBytes.value.value + body.value;
      assert item == s[..objectSize] && source.Rest() == s[objectSize..];
      if isContainer {
        r := TakeContainer(item, s);
      } else {
        var parsedObject := f.parse(item);
        if parsedObject.None? {
          return Err(BadObject);
        }
        var padding := Padding(f.base(parsedObject.value));
        var filler := ReadBytes(source, padding);
        if filler.Err? {
          return Err(filler.error);
        }
        assert source.Rest() == s[objectSize + padding..];
        r := Ok(Some(parsedObject.value));
      }
    }

    /** Decodes a container that has just been read and appends its payload. */
    method TakeContainer(item: bytes, ghost s: bytes) returns (r: Result<Option<O>, Error>)
      requires Valid() && OBJ_BASE_SIZE <= |item| <= |s| && item == s[..|item|]
      requires source.Rest() == s[|item|..]
      modifies this`objectData, this`objectPos, source
      ensures Valid()
      ensures match ReadContainer<O>(z, lim, s, |item|)
              case Eof => false
              case Failed(e) => r == Err(e)
              case Object(_, _) => false
              case Container(p, n) => r == Ok(None) && source.Rest() == s[n..] && Unread() == old(Unread()) + p
    {
      if |item| < LOG_CONTAINER_SIZE {
        return Err(BadContainer);
      }
      var container := DecodeContainerHeader(item);
      assert s[LOG_CONTAINER_SIZE..|item|] == item[LOG_CONTAINER_SIZE..];
      var data := DecodePayload(z, lim, container, item[LOG_CONTAINER_SIZE..]);
      if data.Err? {
        return Err(data.error);
      }
      var filler := ReadBytes(source, |item| % 4);
      if filler.Err? {
        return Err(filler.error);
      }
      assert source.Rest() == s[|item| + |item| % 4..];
      CompactObjectData();
      objectData := objectData + data.value;
      r := Ok(None);
    }

    /** The next object, error or end; after an error or the end there is never another result. */
    method Next() returns (r: Option<Result<O, Error>>)
      requires Valid() && (sourceEof ==> finished)
      modifies this`objectData, this`objectPos, this`sourceEof, this`finished, source
      ensures Valid() && (sourceEof ==> finished)
      ensures old(finished) ==>
                r == None && finished && source.Rest() == old(source.Rest()) && Unread() == old(Unread())
      ensures !old(finished) ==>
                var step := BlfStream.Next(f, z, lim, old(source.Rest()), old(Unread()));
                match step.outcome
                case Item(o) => r == Some(Ok(o)) && !finished && source.Rest() == step.rest && Unread() == step.unread
                case Fail(e) => r == Some(Err(e)) && finished
                case End => r == None && finished
    {
      if finished {
        return None;
      }
      hide TryObject, ReadTop;
      ghost var first := BlfStream.Next(f, z, lim, source.Rest(), Unread());
      while true
        invariant Valid() && !sourceEof && !finished
        invariant BlfStream.Next(f, z, lim, source.Rest(), Unread()) == first
        decreases |source.Rest()|
      {
        var inner := TakeObject();
        if inner.Err? {
          finished := true;
          return Some(Err(inner.error));
        }
        if inner.value.Some? {
          return Some(Ok(inner.value.value));
        }
        var top := ReadTopLevel();
        if top.Err? {
          finished := true;
          return Some(Err(top.error));
        }
        if top.value.Some? {
          if !AllZero(objectData[objectPos..]) {
            finished := true;
            return Some(Err(IncompleteObject));
          }
          return Some(Ok(top.value.value));
        }
        if sourceEof {
          finished := true;
          if AllZero(objectData[objectPos..]) {
            return None;
          }
          return Some(Err(IncompleteObject));
        }
      }
    }
  }

  lemma DecodedSizeField(s: bytes)
    requires |s| >= 8 && DecodeFileHeader(s).Some?
    ensures DecodeFileHeader(s).value.headerSize == HeaderPrefix(s).1
  {
    hide Pack, Unpack, Pow256, ToLe, FromLe;
    HeaderWidths();
    var size := HeaderPrefix(s).1;
    UnpackFirstTwo(CORE_WIDTHS, s[..size]);
    assert s[..size][4..8] == s[4..8];
  }
}
