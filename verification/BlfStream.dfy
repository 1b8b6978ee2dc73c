/** Log containers and what reading a BLF body yields. */
module BlfStream {
  import opened Adler
  import opened BlfObjects
  import opened Bytes
  import opened Wrappers

  /** How objects are parsed and written; the reader and the writer work for any such codec. */
  datatype Format<!O> = Format(parse: bytes -> Option<O>, encode: O -> Option<bytes>, base: O -> ObjBase)

  /** A raw DEFLATE compressor and a decompressor of zlib streams. */
  datatype Zlib = Zlib(deflate: bytes -> bytes, inflate: bytes -> Option<bytes>)

  /** Bounds on untrusted input. */
  datatype Limits = Limits(maxHeader: nat, maxContainer: nat, maxObject: nat)

  datatype Error =
    | UnexpectedEnd | BadSignature | BadSize | OverLimit | BadContainer | BadObject | IncompleteObject | TooLarge

  // ----- Containers -----

  datatype LogContainer = LogContainer(base: ObjBase, compression: u16, reserved: u16, reserved2: u32,
                                       uncompressedSize: u32, reserved3: u32)

  const LOG_CONTAINER_SIZE := 32
  const CONTAINER_WIDTHS: seq<nat> := [2, 2, 4, 4, 4]

  lemma ContainerWidths()
    ensures Sum(CONTAINER_WIDTHS) == 16
  {
    assert CONTAINER_WIDTHS == [2, 2, 4, 4, 4];
  }

  function EncodeContainerHeader(c: LogContainer): (s: bytes)
    ensures |s| == LOG_CONTAINER_SIZE
  {
    ContainerWidths();
    EncodeBase(c.base)
    + Pack(CONTAINER_WIDTHS, [c.compression, c.reserved, c.reserved2, c.uncompressedSize, c.reserved3])
  }

  function DecodeContainerHeader(s: bytes): LogContainer
    requires |s| >= LOG_CONTAINER_SIZE
  {
    ContainerWidths();
    Pow256Values();
    var v := Unpack(CONTAINER_WIDTHS, s[OBJ_BASE_SIZE..]);
    LogContainer(DecodeBase(s), v[0], v[1], v[2], v[3], v[4])
  }

  lemma ContainerHeaderRoundTrip(c: LogContainer, rest: bytes)
    ensures DecodeContainerHeader(EncodeContainerHeader(c) + rest) == c
    ensures DecodeBase(EncodeContainerHeader(c) + rest) == c.base
  {
    ContainerWidths();
    Pow256Values();
    var vs: seq<nat> := [c.compression, c.reserved, c.reserved2, c.uncompressedSize, c.reserved3];
    var s := EncodeContainerHeader(c) + rest;
    assert s == EncodeBase(c.base) + (Pack(CONTAINER_WIDTHS, vs) + rest);
    BaseRoundTrip(c.base, Pack(CONTAINER_WIDTHS, vs) + rest);
    assert s[OBJ_BASE_SIZE..] == Pack(CONTAINER_WIDTHS, vs) + rest;
    UnpackPack(CONTAINER_WIDTHS, vs, rest);
  }

  function BigEndian32(v: u32): (s: bytes)
    ensures |s| == 4
  {
    var le := ToLe(v, 4);
    [le[3], le[2], le[1], le[0]]
  }

  /** The zlib stream of the data: header, DEFLATE data and checksum. */
  function ZlibFrame(z: Zlib, data: bytes): (s: bytes)
    ensures |s| >= 6
  {
    [0x78, 0x01] + z.deflate(data) + BigEndian32(Adler32(data))
  }

  /** Decompression undoes compression. */
  ghost predicate Inverts(z: Zlib) {
    forall data: bytes {:trigger z.deflate(data)} :: z.inflate(ZlibFrame(z, data)) == Some(data)
  }

  function StoredData(z: Zlib, payload: bytes, compress: bool): bytes {
    if compress then ZlibFrame(z, payload) else payload
  }

  function ContainerOf(stored: nat, payload: u32, compress: bool): LogContainer {
    LogContainer(ObjBase(OBJ_SIGNATURE, OBJ_BASE_SIZE, 0, (LOG_CONTAINER_SIZE + stored) % 0x1_0000_0000, LOG_CONTAINER),
                 if compress then 2 else 0, 0, 0, payload, 0)
  }

  function EncodeContainer(z: Zlib, payload: bytes, compress: bool): Option<bytes> {
    if |payload| >= 0x1_0000_0000 then None
    else
      var data := StoredData(z, payload, compress);
      var c := ContainerOf(|data|, |payload|, compress);
      Some(EncodeContainerHeader(c) + data + Zeros(c.base.objectSize % 4))
  }

  /** The payload of a container, from the bytes after its header. */
  function DecodePayload(z: Zlib, lim: Limits, c: LogContainer, stored: bytes): Result<bytes, Error> {
    if c.compression == 0 then
      if c.uncompressedSize != 0 && c.uncompressedSize != |stored| then Err(BadContainer) else Ok(stored)
    else if c.compression == 2 then
      if c.uncompressedSize > lim.maxContainer then Err(OverLimit)
      else if |stored| < 6 then Err(BadContainer)
      else match z.inflate(stored)
        case None => Err(BadContainer)
        case Some(data) => if |data| != c.uncompressedSize then Err(BadContainer) else Ok(data)
    else Err(BadContainer)
  }

  // ----- One inner object -----

  datatype Inner<+O> =
    | Wait(unread: bytes)
    | Got(item: O, unread: bytes)
    | Broken(error: Error)

  /** The next object of the uncompressed stream, of which `unread` has arrived so far. */
  function TryObject<O>(f: Format<O>, lim: Limits, unread: bytes): Inner<O> {
    if unread == [] then Wait(unread)
    else if AllZero(unread) then Wait([])
    else if |unread| < OBJ_BASE_SIZE then Wait(unread)
    else
      var base := DecodeBase(unread);
      if base.signature != OBJ_SIGNATURE then Broken(BadSignature)
      else if base.objectSize < OBJ_BASE_SIZE then Broken(BadSize)
      else if base.objectSize > lim.maxObject then Broken(OverLimit)
      else if |unread| < base.objectSize then Wait(unread)
      else match f.parse(unread[..base.objectSize])
        case None => Broken(BadObject)
        case Some(o) =>
          var consumed := base.objectSize + Padding(f.base(o));
          if |unread| < consumed then Wait(unread) else Got(o, unread[consumed..])
  }

  // ----- One top-level object -----

  datatype Top<+O> =
    | Eof
    | Container(payload: bytes, size: nat)
    | Object(item: O, size: nat)
    | Failed(error: Error)

  /** The first top-level object of the rest of the file. */
  function ReadTop<O>(f: Format<O>, z: Zlib, lim: Limits, s: bytes): (t: Top<O>)
    ensures t.Container? || t.Object? ==> OBJ_BASE_SIZE <= t.size <= |s|
  {
    if s == [] then Eof
    else if |s| < OBJ_BASE_SIZE then Failed(UnexpectedEnd)
    else
      var base := DecodeBase(s);
      var isContainer := base.objectType == LOG_CONTAINER;
      if base.signature != OBJ_SIGNATURE then Failed(BadSignature)
      else if base.objectSize < OBJ_BASE_SIZE then Failed(BadSize)
      else if base.objectSize > (if isContainer then lim.maxContainer else lim.maxObject) then Failed(OverLimit)
      else if |s| < base.objectSize then Failed(UnexpectedEnd)
      else if isContainer then ReadContainer(z, lim, s, base.objectSize)
      else match f.parse(s[..base.objectSize])
        case None => Failed(BadObject)
        case Some(o) =>
          var size := base.objectSize + Padding(f.base(o));
          if |s| < size then Failed(UnexpectedEnd) else Object(o, size)
  }

  function ReadContainer<O>(z: Zlib, lim: Limits, s: bytes, objectSize: nat): (t: Top<O>)
    requires objectSize <= |s|
    ensures t.Container? ==> LOG_CONTAINER_SIZE <= t.size <= |s|
    ensures !t.Object?
  {
    if objectSize < LOG_CONTAINER_SIZE then Failed(BadContainer)
    else match DecodePayload(z, lim, DecodeContainerHeader(s[..objectSize]), s[LOG_CONTAINER_SIZE..objectSize])
      case Err(e) => Failed(e)
      case Ok(data) =>
        var size := objectSize + objectSize % 4;
        if |s| < size then Failed(UnexpectedEnd) else Container(data, size)
  }

  // ----- The reader as a whole -----

  datatype Outcome<+O> = Item(item: O) | Fail(error: Error) | End

  /** One call of the reader: its outcome, then the rest of the file and the unread inner bytes. */
  datatype Step<+O> = Step(outcome: Outcome<O>, rest: bytes, unread: bytes)

  function Next<O>(f: Format<O>, z: Zlib, lim: Limits, s: bytes, unread: bytes): (r: Step<O>)
    ensures r.outcome.Item? ==> |r.rest| < |s| || (r.rest == s && |r.unread| < |unread|)
    decreases |s|
  {
    match TryObject(f, lim, unread)
    case Got(o, u) => Step(Item(o), s, u)
    case Broken(e) => Step(Fail(e), s, unread)
    case Wait(u) =>
      match ReadTop(f, z, lim, s)
      case Failed(e) => Step(Fail(e), s, u)
      case Object(o, n) => if AllZero(u) then Step(Item(o), s[n..], u) else Step(Fail(IncompleteObject), s, u)
      case Container(p, n) => Next(f, z, lim, s[n..], u + p)
      case Eof => Step(if AllZero(u) then End else Fail(IncompleteObject), s, u)
  }

  /** All outcomes up to and including the first that ends the iteration. */
  function Run<O>(f: Format<O>, z: Zlib, lim: Limits, s: bytes, unread: bytes): seq<Outcome<O>>
    decreases |s|, |unread|
  {
    var r := Next(f, z, lim, s, unread);
    if r.outcome.Item? then [r.outcome] + Run(f, z, lim, r.rest, r.unread) else [r.outcome]
  }

  // ----- Streams of objects -----

  /** The codec handles the object, and its bytes carry its base header and fit the limits. */
  ghost predicate WellFormed<O(!new)>(f: Format<O>, lim: Limits, o: O) {
    && f.encode(o).Some?
    && var s := f.encode(o).value;
       && OBJ_BASE_SIZE <= |s| <= lim.maxObject
       && DecodeBase(s) == f.base(o)
       && f.base(o).signature == OBJ_SIGNATURE
       && f.base(o).objectSize == |s|
       && f.parse(s) == Some(o)
  }

  ghost predicate AllWellFormed<O(!new)>(f: Format<O>, lim: Limits, os: seq<O>) {
    forall i :: 0 <= i < |os| ==> WellFormed(f, lim, os[i])
  }

  /** The bytes of an object and its filler. */
  function Padded<O>(f: Format<O>, o: O): bytes
    requires f.encode(o).Some?
  {
    f.encode(o).value + Zeros(Padding(f.base(o)))
  }

  function Encodes<O>(f: Format<O>, os: seq<O>): bool {
    forall i :: 0 <= i < |os| ==> f.encode(os[i]).Some?
  }

  function Stream<O>(f: Format<O>, os: seq<O>): bytes
    requires Encodes(f, os)
  {
    if os == [] then [] else Padded(f, os[0]) + Stream(f, os[1..])
  }

  lemma {:induction false} StreamAppend<O>(f: Format<O>, a: seq<O>, b: seq<O>)
    requires Encodes(f, a) && Encodes(f, b)
    ensures Encodes(f, a + b) && Stream(f, a + b) == Stream(f, a) + Stream(f, b)
  {
    if a == [] {
      assert a + b == b;
    } else {
      StreamAppend(f, a[1..], b);
      assert (a + b)[1..] == a[1..] + b && (a + b)[0] == a[0];
    }
  }

  // ----- What TryObject does with part of a stream -----

  lemma PrefixOfBase(s: bytes, u: bytes)
    requires |s| >= OBJ_BASE_SIZE && |u| >= OBJ_BASE_SIZE && (u <= s || s <= u)
    ensures DecodeBase(u) == DecodeBase(s)
  {
    WidthSums();
    if u <= s {
      assert s == u + s[|u|..];
      UnpackPrefix(BASE_WIDTHS, u, s[|u|..]);
    } else {
      assert u == s + u[|s|..];
      UnpackPrefix(BASE_WIDTHS, s, u[|s|..]);
    }
  }

  lemma SignatureStart(s: bytes)
    requires |s| >= OBJ_BASE_SIZE && DecodeBase(s).signature == OBJ_SIGNATURE
    ensures s[0] == 0x4C
  {
    assert BASE_WIDTHS[0] == 4;
    assert Unpack(BASE_WIDTHS, s)[0] == FromLe(s[..4]);
    assert FromLe(s[..4]) % 256 == s[0];
  }

  /** Once all of an object and its filler have arrived, it is yielded and nothing else is consumed. */
  lemma WholeObject<O(!new)>(f: Format<O>, lim: Limits, o: O, more: bytes)
    requires WellFormed(f, lim, o)
    ensures TryObject(f, lim, Padded(f, o) + more) == Got(o, more)
  {
    hide DecodeBase;
    var s := f.encode(o).value;
    var u := Padded(f, o) + more;
    PrefixOfBase(s, u);
    SignatureStart(s);
    assert u[0] == s[0];
    assert u[..|s|] == s;
    assert u[|Padded(f, o)|..] == more;
  }

  /** A proper part of an object and its filler is kept until more arrives. */
  lemma PartOfObject<O(!new)>(f: Format<O>, lim: Limits, o: O, u: bytes)
    requires WellFormed(f, lim, o) && u <= Padded(f, o) && |u| < |Padded(f, o)|
    ensures TryObject(f, lim, u) == Wait(u)
  {
    hide DecodeBase;
    var s := f.encode(o).value;
    SignatureStart(s);
    if u != [] {
      assert u[0] == s[0];
      if |u| >= OBJ_BASE_SIZE {
        assert u <= s || s <= u;
        PrefixOfBase(s, u);
        if |u| >= |s| {
          assert u[..|s|] == s;
        }
      }
    }
  }
}
