/** Parsing and writing whole BLF objects. */
module BlfCodec {
  import opened BlfObjects
  import opened Bytes
  import opened Wrappers

  /** An object: a decoded event, a registered type kept opaque, or a type unknown to the registry. */
  datatype BlfObject =
    | Event(header: LObj, nums: seq<nat>, fields: seq<bytes>, trailing: bytes)
    | Raw(header: LObj, data: bytes)
    | Unknown(header: LObj, data: bytes)

  /** Why bytes give no object; `Aborted` is a slice out of range, `Irregular` a type outside this model. */
  datatype Failure = Rejected | Aborted | Irregular

  // ----- Parsing -----

  function DecodeEvent(l: Layout, h: LObj, body: bytes): Option<BlfObject> {
    var fixed := Sum(Widths(l.slots));
    if |body| < LOBJ_SIZE + fixed then None
    else
      var vs := Unpack(Widths(l.slots), body[LOBJ_SIZE..]);
      var lens := LensOf(l.slots, vs);
      var rest := body[LOBJ_SIZE + fixed..];
      if Sum(lens) > |rest| then None
      else Some(Event(h, NumsOf(l.slots, vs), Pieces(rest, lens), if l.tail then rest[Sum(lens)..] else []))
  }

  predicate IsVersion1(h: LObj) {
    h.base.headerVersion == 1 && h.base.headerSize == LOBJ_SIZE
  }

  function DecodeObject(s: bytes): Result<BlfObject, Failure> {
    match DecodeHeader(s)
    case None => Err(Rejected)
    case Some(h) =>
      var size := h.base.objectSize;
      if size < LOBJ_SIZE || |s| < size then Err(Rejected)
      else DecodeBody(h, s[..size])
  }

  function DecodeBody(h: LObj, body: bytes): Result<BlfObject, Failure> {
    var kind := h.base.objectType;
    if IsVersion1(h) && LayoutOf(kind).Some? then
      match DecodeEvent(LayoutOf(kind).value, h, body)
      case Some(o) => Ok(o)
      case None => if kind == GLOBAL_MARKER && |body| >= LOBJ_SIZE then Ok(Raw(h, body[LOBJ_SIZE..])) else Err(Rejected)
    else if IsVersion1(h) && IsIrregular(kind) then Err(Irregular)
    else if h.base.headerSize > |body| then Err(Aborted)
    else Ok(Opaque(h, body[h.base.headerSize..]))
  }

  function Opaque(h: LObj, data: bytes): BlfObject {
    if h.base.objectType <= LAST_REGISTERED then Raw(h, data) else Unknown(h, data)
  }

  // ----- Writing -----

  function Truncate32(n: nat): u32 {
    n % 0x1_0000_0000
  }

  /** The number of bytes an event takes. */
  function EventSize(l: Layout, o: BlfObject): nat
    requires o.Event?
  {
    LOBJ_SIZE + Sum(Widths(l.slots)) + |Concat(o.fields)| + |o.trailing|
  }

  /** The header an event is written with. */
  function EventHeader(l: Layout, o: BlfObject): LObj
    requires o.Event?
  {
    if l.resized then o.header.(base := o.header.base.(objectSize := Truncate32(EventSize(l, o)))) else o.header
  }

  predicate HasShape(l: Layout, o: BlfObject)
    requires o.Event?
  {
    && NumCount(l.slots) == |o.nums|
    && LenCount(l.slots) == |o.fields|
    && (l.tail || o.trailing == [])
  }

  function EncodeEvent(l: Layout, o: BlfObject): bytes
    requires o.Event? && HasShape(l, o)
  {
    EncodeHeader(EventHeader(l, o))
    + Pack(Widths(l.slots), Merge(l.slots, o.nums, Lengths(o.fields)))
    + (Concat(o.fields) + o.trailing)
  }

  /** An object of the kind its constructor names. */
  predicate IsTyped(o: BlfObject) {
    match o
    case Event(h, _, _, _) => LayoutOf(h.base.objectType).Some? && HasShape(LayoutOf(h.base.objectType).value, o)
    case _ => true
  }

  /** The bytes of an object before the final size check, if its own sizes agree. */
  function Draft(o: BlfObject): (r: Option<bytes>)
    requires IsTyped(o)
  {
    match o
    case Event(h, _, _, _) => Some(EncodeEvent(LayoutOf(h.base.objectType).value, o))
    case _ =>
      if o.header.base.objectSize != o.header.base.headerSize + |o.data| then None
      else Some(EncodeHeader(o.header) + o.data)
  }

  /** The size field of written bytes. */
  function Declared(s: bytes): u32
    requires |s| >= 12
  {
    Pow256Values();
    FromLe(s[8..12])
  }

  function EncodeObject(o: BlfObject): Option<bytes>
    requires IsTyped(o)
  {
    match Draft(o)
    case Some(s) => if |s| >= 12 && |s| == Declared(s) then Some(s) else None
    case None => None
  }

  lemma DeclaredSize(b: ObjBase, rest: bytes)
    ensures Declared(EncodeBase(b) + rest) == b.objectSize
  {
    hide Pow256, FromLe, ToLe;
    WidthSums();
    Pow256Values();
    var s := EncodeBase(b) + rest;
    var vs: seq<nat> := [b.signature, b.headerSize, b.headerVersion, b.objectSize, b.objectType];
    assert BASE_WIDTHS == [4, 2, 2, 4, 4];
    var p3 := Pack([4, 4], [b.objectSize, b.objectType]);
    assert [4, 4][1..] == [4] && [b.objectSize, b.objectType][1..] == [b.objectType];
    assert p3 == ToLe(b.objectSize, 4) + Pack([4], [b.objectType]);
    var p2 := Pack([2, 4, 4], [b.headerVersion, b.objectSize, b.objectType]);
    assert [2, 4, 4][1..] == [4, 4] && vs[2..][1..] == [b.objectSize, b.objectType];
    assert p2 == ToLe(b.headerVersion, 2) + p3;
    var p1 := Pack([2, 2, 4, 4], [b.headerSize, b.headerVersion, b.objectSize, b.objectType]);
    assert [2, 2, 4, 4][1..] == [2, 4, 4] && vs[1..][1..] == vs[2..];
    assert p1 == ToLe(b.headerSize, 2) + p2;
    assert EncodeBase(b) == ToLe(b.signature, 4) + p1 by {
      assert BASE_WIDTHS[1..] == [2, 2, 4, 4];
    }
    assert s[8..12] == ToLe(b.objectSize, 4);
    FromToLe(b.objectSize, 4);
  }

  // ----- Parsing, then writing -----

  /** The layout of an event. */
  function EventLayout(o: BlfObject): Layout
    requires o.Event? && IsTyped(o)
  {
    LayoutOf(o.header.base.objectType).value
  }

  lemma DecodedEvent(l: Layout, h: LObj, body: bytes)
    requires DecodeEvent(l, h, body).Some?
    ensures var o := DecodeEvent(l, h, body).value;
            && o.Event? && o.header == h && HasShape(l, o)
            && EventSize(l, o) <= |body| && (l.tail ==> EventSize(l, o) == |body|)
            && Pack(Widths(l.slots), Merge(l.slots, o.nums, Lengths(o.fields))) + (Concat(o.fields) + o.trailing)
               == body[LOBJ_SIZE..EventSize(l, o)]
  {
    hide LensOf, NumsOf, Merge, Widths, Concat, Pieces, Pack, Unpack, Sum, Lengths;
    var o := DecodeEvent(l, h, body).value;
    var ws := Widths(l.slots);
    var vs := Unpack(ws, body[LOBJ_SIZE..]);
    var lens := LensOf(l.slots, vs);
    var rest := body[LOBJ_SIZE + Sum(ws)..];
    MergeSplit(l.slots, vs);
    PackUnpack(ws, body[LOBJ_SIZE..]);
    ConcatOfPieces(rest, lens);
    var n := Sum(lens) + |o.trailing|;
    assert Concat(o.fields) + o.trailing == rest[..n];
    JoinSlices(body, LOBJ_SIZE, Sum(ws), n);
  }

  lemma JoinSlices(s: bytes, at: nat, k: nat, n: nat)
    requires at + k + n <= |s|
    ensures s[at..][..k] + s[at + k..][..n] == s[at..at + k + n]
  {
  }

  lemma DecodedObject(s: bytes)
    requires DecodeObject(s).Ok?
    ensures var o := DecodeObject(s).value;
            && DecodeHeader(s) == Some(o.header) && IsTyped(o)
            && LOBJ_SIZE <= o.header.base.objectSize <= |s|
            && DecodeBody(o.header, s[..o.header.base.objectSize]) == Ok(o)
            && (o.Event? ==>
                  && IsVersion1(o.header)
                  && DecodeEvent(EventLayout(o), o.header, s[..o.header.base.objectSize]) == Some(o))
            && (!o.Event? ==>
                  && o == Opaque(o.header, o.data) && o.header.base.headerSize <= o.header.base.objectSize
                  && o.data == s[o.header.base.headerSize..o.header.base.objectSize])
  {
    hide DecodeHeader, DecodeEvent, LayoutOf, Opaque;
    var h := DecodeHeader(s).value;
    var body := s[..h.base.objectSize];
    HeaderLossless(s);
    if IsVersion1(h) && LayoutOf(h.base.objectType).Some? {
      var l := LayoutOf(h.base.objectType).value;
      if DecodeEvent(l, h, body).Some? {
        DecodedEvent(l, h, body);
      } else {
        MarkerIsRegistered(h, body[LOBJ_SIZE..]);
      }
    } else {
      OpaqueParts(h, body[h.base.headerSize..]);
    }
    assert s[..h.base.objectSize][h.base.headerSize..] == s[h.base.headerSize..h.base.objectSize];
  }

  lemma OpaqueParts(h: LObj, data: bytes)
    ensures var o := Opaque(h, data); !o.Event? && o.header == h && o.data == data
  {
  }

  lemma MarkerIsRegistered(h: LObj, data: bytes)
    ensures h.base.objectType == GLOBAL_MARKER ==> Opaque(h, data) == Raw(h, data)
  {
  }

  /**
   Writing a parsed object reproduces its bytes exactly when no byte of them was left
   unread: always for opaque objects and for events that keep their tail, and otherwise
   when the object has no bytes beyond its fields.
   */
  lemma WriteUndoesParse(s: bytes)
    requires DecodeObject(s).Ok? && DecodeObject(s).value.header.base.objectSize == |s|
    ensures var o := DecodeObject(s).value;
            && IsTyped(o)
            && (EncodeObject(o) == Some(s) <==>
                  (o.Event? ==> EventLayout(o).tail || |s| == EventSize(EventLayout(o), o)))
  {
    hide DecodeObject, DecodeHeader, DecodeBody, DecodeEvent, LayoutOf, EncodeHeader, EventSize, EncodeEvent, Opaque;
    DecodedObject(s);
    HeaderLossless(s);
    var o := DecodeObject(s).value;
    var h := o.header;
    assert s[..|s|] == s;
    BaseLossless(s);
    DeclaredSize(h.base, s[OBJ_BASE_SIZE..]);
    assert s == EncodeBase(h.base) + s[OBJ_BASE_SIZE..];
    if o.Event? {
      DecodedEvent(EventLayout(o), h, s);
      RewrittenEvent(o, s);
    } else {
      assert s == s[..h.base.headerSize] + s[h.base.headerSize..];
    }
  }

  lemma RewrittenEvent(o: BlfObject, s: bytes)
    requires o.Event? && IsTyped(o) && IsVersion1(o.header) && o.header.base.objectSize == |s|
    requires |s| >= LOBJ_SIZE && EncodeHeader(o.header) == s[..LOBJ_SIZE]
    requires var l := EventLayout(o);
             && EventSize(l, o) <= |s|
             && Pack(Widths(l.slots), Merge(l.slots, o.nums, Lengths(o.fields))) + (Concat(o.fields) + o.trailing)
                == s[LOBJ_SIZE..EventSize(l, o)]
    ensures EncodeObject(o) == Some(s) <==> |s| == EventSize(EventLayout(o), o)
  {
    hide LayoutOf, EncodeHeader, Declared, EventSize;
    var l := EventLayout(o);
    var n := EventSize(l, o);
    EventSizeAtLeast(l, o);
    var draft := Draft(o).value;
    assert draft == EncodeHeader(EventHeader(l, o)) + s[LOBJ_SIZE..n];
    if n == |s| {
      assert EventHeader(l, o) == o.header;
      assert draft == s[..LOBJ_SIZE] + s[LOBJ_SIZE..n] == s;
      BaseFirst(o.header, s[LOBJ_SIZE..]);
      assert s == EncodeHeader(o.header) + s[LOBJ_SIZE..];
    } else {
      SameLength(EventHeader(l, o), o.header);
      assert |draft| == n;
    }
  }

  lemma EventSizeAtLeast(l: Layout, o: BlfObject)
    requires o.Event?
    ensures EventSize(l, o) >= LOBJ_SIZE
  {
  }

  /** The declared size of bytes that start with a header. */
  lemma BaseFirst(h: LObj, rest: bytes)
    ensures Declared(EncodeHeader(h) + rest) == h.base.objectSize
  {
    hide VersionFields, EncodeBase, Declared;
    var own := VersionFields(h) + h.extension;
    DeclaredSize(h.base, own + rest);
    Assoc(EncodeBase(h.base), VersionFields(h), h.extension);
    Assoc(EncodeBase(h.base), own, rest);
  }

  /** A header's encoded length does not depend on the stored size. */
  lemma SameLength(h: LObj, g: LObj)
    requires g == h.(base := h.base.(objectSize := g.base.objectSize))
    ensures |EncodeHeader(h)| == |EncodeHeader(g)|
  {
  }

  /** A slice of exactly the stored size never runs out of range. */
  lemma ExactSliceNeverAborts(s: bytes)
    requires |s| >= OBJ_BASE_SIZE && |s| == DecodeBase(s).objectSize
    ensures DecodeObject(s) != Err(Aborted)
  {
    hide DecodeVersion, DecodeEvent, LayoutOf;
    if DecodeHeader(s).Some? {
      HeaderLossless(s);
    }
  }

  // ----- Writing, then parsing -----

  /** An object whose stored sizes agree with its contents and whose kind is the one parsing picks. */
  ghost predicate IsCanonical(o: BlfObject) {
    && IsTyped(o) && IsHeader(o.header) && o.header.base.objectSize >= LOBJ_SIZE
    && match o
       case Event(h, nums, fields, _) =>
         var l := EventLayout(o);
         && IsVersion1(h)
         && h.base.objectSize == EventSize(l, o)
         && Fits(Widths(l.slots), Merge(l.slots, nums, Lengths(fields)))
       case _ =>
         && o == Opaque(o.header, o.data)
         && o.header.base.objectSize == o.header.base.headerSize + |o.data|
         && (IsVersion1(o.header) ==>
               && !IsIrregular(o.header.base.objectType)
               && (LayoutOf(o.header.base.objectType).Some? ==>
                     && o.header.base.objectType == GLOBAL_MARKER
                     && DecodeEvent(LayoutOf(GLOBAL_MARKER).value, o.header, EncodeHeader(o.header) + o.data).None?))
  }

  lemma EventRoundTrip(l: Layout, o: BlfObject, head: bytes)
    requires o.Event? && HasShape(l, o) && |head| == LOBJ_SIZE
    requires Fits(Widths(l.slots), Merge(l.slots, o.nums, Lengths(o.fields)))
    ensures var s := head + Pack(Widths(l.slots), Merge(l.slots, o.nums, Lengths(o.fields)))
                     + (Concat(o.fields) + o.trailing);
            |s| == EventSize(l, o) && DecodeEvent(l, o.header, s) == Some(o)
  {
    hide LensOf, NumsOf, Merge, Widths, Concat, Pieces, Lengths;
    var ws, vs := Widths(l.slots), Merge(l.slots, o.nums, Lengths(o.fields));
    var tail := Concat(o.fields) + o.trailing;
    var s := head + Pack(ws, vs) + tail;
    assert s[LOBJ_SIZE..] == Pack(ws, vs) + tail;
    UnpackPack(ws, vs, tail);
    SplitMerge(l.slots, o.nums, Lengths(o.fields));
    assert s[LOBJ_SIZE + Sum(ws)..] == tail;
    PiecesOfConcat(o.fields, o.trailing);
    assert tail[Sum(Lengths(o.fields))..] == o.trailing;
  }

  /** Writing a canonical object and parsing the bytes gives the object back. */
  lemma ParseUndoesWrite(o: BlfObject)
    requires IsCanonical(o)
    ensures EncodeObject(o).Some?
    ensures var s := EncodeObject(o).value;
            && |s| == o.header.base.objectSize
            && DecodeBase(s) == o.header.base
            && DecodeObject(s) == Ok(o)
  {
    hide DecodeHeader, EncodeHeader, EncodeObject, DecodeObject, LayoutOf, IsHeader, EventSize, DecodeEvent, Merge,
         Concat, Lengths, Declared, Widths, Pack, DecodeBase, Opaque;
    if o.Event? {
      EventSurvives(o);
    } else {
      OpaqueSurvives(o);
    }
  }

  lemma EventSurvives(o: BlfObject)
    requires IsCanonical(o) && o.Event?
    ensures EncodeObject(o).Some?
    ensures var s := EncodeObject(o).value;
            |s| == o.header.base.objectSize && DecodeBase(s) == o.header.base && DecodeObject(s) == Ok(o)
  {
    hide DecodeHeader, EncodeHeader, LayoutOf, IsHeader, EventSize, DecodeEvent, Merge, Concat, Lengths, Declared,
         Widths, Pack;
    var h, l := o.header, EventLayout(o);
    var fixed, tail := Pack(Widths(l.slots), Merge(l.slots, o.nums, Lengths(o.fields))), Concat(o.fields) + o.trailing;
    var s := EncodeHeader(h) + (fixed + tail);
    HeaderRoundTrip(h, fixed + tail);
    HeaderLossless(s);
    BaseFirst(h, fixed + tail);
    EventRoundTrip(l, o, EncodeHeader(h));
    Assoc(EncodeHeader(h), fixed, tail);
    assert EventHeader(l, o) == h;
    assert s[..|s|] == s;
  }

  lemma OpaqueSurvives(o: BlfObject)
    requires IsCanonical(o) && !o.Event?
    ensures EncodeObject(o).Some?
    ensures var s := EncodeObject(o).value;
            |s| == o.header.base.objectSize && DecodeBase(s) == o.header.base && DecodeObject(s) == Ok(o)
  {
    hide DecodeHeader, EncodeHeader, LayoutOf, IsHeader, DecodeEvent, Declared;
    var h := o.header;
    var s := EncodeHeader(h) + o.data;
    HeaderRoundTrip(h, o.data);
    HeaderLossless(s);
    BaseFirst(h, o.data);
    assert s[h.base.headerSize..] == o.data;
    assert s[..|s|] == s;
  }

  lemma DecodedFits(l: Layout, h: LObj, body: bytes)
    requires DecodeEvent(l, h, body).Some?
    ensures var o := DecodeEvent(l, h, body).value;
            o.Event? && Fits(Widths(l.slots), Merge(l.slots, o.nums, Lengths(o.fields)))
  {
    hide LensOf, NumsOf, Merge, Widths, Concat, Pieces, Sum, Lengths, Pow256;
    var ws := Widths(l.slots);
    var vs := Unpack(ws, body[LOBJ_SIZE..]);
    MergeSplit(l.slots, vs);
    ConcatOfPieces(body[LOBJ_SIZE + Sum(ws)..], LensOf(l.slots, vs));
  }

  /** Only canonical objects come back from writing and parsing. */
  lemma SurvivorIsCanonical(o: BlfObject)
    requires IsTyped(o) && EncodeObject(o).Some? && DecodeObject(EncodeObject(o).value) == Ok(o)
    ensures IsCanonical(o)
  {
    hide DecodeHeader, EncodeHeader, LayoutOf, IsHeader, EventSize, DecodeEvent, Merge, Concat, Lengths, Declared,
         Opaque, Pack;
    var s := EncodeObject(o).value;
    var h := o.header;
    DecodedObject(s);
    HeaderLossless(s);
    DeclaredSize(h.base, s[OBJ_BASE_SIZE..]);
    BaseLossless(s);
    assert s == EncodeBase(h.base) + s[OBJ_BASE_SIZE..];
    assert s[..|s|] == s;
    if o.Event? {
      DecodedFits(EventLayout(o), h, s);
      DraftSize(o);
    } else {
      assert s == EncodeHeader(h) + o.data;
      var l := LayoutOf(h.base.objectType);
      if IsVersion1(h) && l.Some? && DecodeEvent(l.value, h, s).Some? {
        DecodedEvent(l.value, h, s);
      }
    }
  }

  lemma DraftSize(o: BlfObject)
    requires o.Event? && IsTyped(o) && IsVersion1(o.header) && IsHeader(o.header)
    ensures |Draft(o).value| == EventSize(EventLayout(o), o)
  {
    hide LayoutOf, EncodeHeader, Merge, Concat, Lengths;
    HeaderRoundTrip(o.header, []);
    HeaderLossless(EncodeHeader(o.header) + []);
    SameLength(EventHeader(EventLayout(o), o), o.header);
  }

  /** Writing and then parsing gives an object back exactly if it is canonical. */
  lemma ParseUndoesWriteExactly(o: BlfObject)
    requires IsTyped(o)
    ensures EncodeObject(o).Some? && DecodeObject(EncodeObject(o).value) == Ok(o) <==> IsCanonical(o)
  {
    hide EncodeObject, DecodeObject;
    if IsCanonical(o) {
      ParseUndoesWrite(o);
    }
    if EncodeObject(o).Some? && DecodeObject(EncodeObject(o).value) == Ok(o) {
      SurvivorIsCanonical(o);
    }
  }
}
