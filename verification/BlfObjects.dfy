/** BLF object headers, opaque objects and the events with a regular layout. */
module BlfObjects {
  import opened Bytes
  import opened Wrappers

  const OBJ_SIGNATURE: u32 := 0x4A42_4F4C // "LOBJ" read as a little-endian number
  const OBJ_BASE_SIZE := 16
  const LOBJ_SIZE := 32
  const LOBJ_V2_SIZE := 40
  const LOG_CONTAINER: u32 := 10
  const GLOBAL_MARKER: u32 := 96
  const RESTORE_POINT: u32 := 115
  const LAST_REGISTERED: u32 := 131

  // ----- The base header -----

  datatype ObjBase = ObjBase(signature: u32, headerSize: u16, headerVersion: u16, objectSize: u32, objectType: u32)

  const BASE_WIDTHS: seq<nat> := [4, 2, 2, 4, 4]

  function EncodeBase(b: ObjBase): (s: bytes)
    ensures |s| == OBJ_BASE_SIZE
  {
    WidthSums();
    Pack(BASE_WIDTHS, [b.signature, b.headerSize, b.headerVersion, b.objectSize, b.objectType])
  }

  function DecodeBase(s: bytes): ObjBase
    requires |s| >= OBJ_BASE_SIZE
  {
    WidthSums();
    Pow256Values();
    var v := Unpack(BASE_WIDTHS, s);
    ObjBase(v[0], v[1], v[2], v[3], v[4])
  }

  const V1_WIDTHS: seq<nat> := [4, 2, 2, 8]
  const V2_WIDTHS: seq<nat> := [4, 1, 1, 2, 8, 8]

  lemma WidthSums()
    ensures Sum(BASE_WIDTHS) == 16 && Sum(V1_WIDTHS) == 16 && Sum(V2_WIDTHS) == 24
  {
    assert BASE_WIDTHS == [4, 2, 2, 4, 4] && V1_WIDTHS == [4, 2, 2, 8] && V2_WIDTHS == [4, 1, 1, 2, 8, 8];
  }

  lemma BaseRoundTrip(b: ObjBase, rest: bytes)
    ensures DecodeBase(EncodeBase(b) + rest) == b
  {
    WidthSums();
    Pow256Values();
    UnpackPack(BASE_WIDTHS, [b.signature, b.headerSize, b.headerVersion, b.objectSize, b.objectType], rest);
  }

  lemma BaseLossless(s: bytes)
    requires |s| >= OBJ_BASE_SIZE
    ensures EncodeBase(DecodeBase(s)) == s[..OBJ_BASE_SIZE]
  {
    WidthSums();
    PackUnpack(BASE_WIDTHS, s);
    var v := Unpack(BASE_WIDTHS, s);
    assert v == [v[0], v[1], v[2], v[3], v[4]];
  }

  // ----- The object header -----

  /** An object header; its optional fields exist in version 2 only. */
  datatype LObj = LObj(base: ObjBase, flags: u32, clientIndex: u16, objectVersion: u16, timestamp: u64,
                       status: Option<u8>, reserved: Option<u8>, originalTimestamp: Option<u64>,
                       extension: bytes)

  /** The fields between the base header and the extension. */
  function VersionFields(h: LObj): bytes {
    if h.base.headerVersion == 1 then
      Pack(V1_WIDTHS, [h.flags, h.clientIndex, h.objectVersion, h.timestamp])
    else if h.base.headerVersion == 2 then
      Pack(V2_WIDTHS, [h.flags, h.status.GetOr(0), h.reserved.GetOr(0), h.objectVersion, h.timestamp,
                       h.originalTimestamp.GetOr(0)])
    else []
  }

  function EncodeHeader(h: LObj): (s: bytes)
    ensures |s| >= OBJ_BASE_SIZE
  {
    EncodeBase(h.base) + VersionFields(h) + h.extension
  }

  function DecodeHeader(s: bytes): Option<LObj> {
    if |s| < OBJ_BASE_SIZE then None
    else
      var base := DecodeBase(s);
      var size := base.headerSize;
      if base.signature != OBJ_SIGNATURE || size < OBJ_BASE_SIZE || size > |s| then None
      else DecodeVersion(base, s[OBJ_BASE_SIZE..size])
  }

  /** `rest` is the header after its base. */
  function DecodeVersion(base: ObjBase, rest: bytes): Option<LObj>
    requires |rest| == base.headerSize - OBJ_BASE_SIZE
  {
    WidthSums();
    Pow256Values();
    if base.headerVersion == 0 && base.headerSize == OBJ_BASE_SIZE then
      Some(LObj(base, 0, 0, 0, 0, None, None, None, []))
    else if base.headerVersion == 1 && base.headerSize >= LOBJ_SIZE then
      var v := Unpack(V1_WIDTHS, rest);
      Some(LObj(base, v[0], v[1], v[2], v[3], None, None, None, rest[LOBJ_SIZE - OBJ_BASE_SIZE..]))
    else if base.headerVersion == 2 && base.headerSize >= LOBJ_V2_SIZE then
      var v := Unpack(V2_WIDTHS, rest);
      Some(LObj(base, v[0], 0, v[3], v[4], Some(v[1]), Some(v[2]), Some(v[5]),
                rest[LOBJ_V2_SIZE - OBJ_BASE_SIZE..]))
    else None
  }

  /** A header whose fields agree with its version and stored size. */
  ghost predicate IsHeader(h: LObj) {
    && h.base.signature == OBJ_SIGNATURE
    && match h.base.headerVersion
       case 0 =>
         && h == LObj(h.base, 0, 0, 0, 0, None, None, None, [])
         && h.base.headerSize == OBJ_BASE_SIZE
       case 1 =>
         && h.status.None? && h.reserved.None? && h.originalTimestamp.None?
         && h.base.headerSize == LOBJ_SIZE + |h.extension|
       case 2 =>
         && h.status.Some? && h.reserved.Some? && h.originalTimestamp.Some? && h.clientIndex == 0
         && h.base.headerSize == LOBJ_V2_SIZE + |h.extension|
       case _ => false
  }

  lemma VersionRoundTrip(h: LObj)
    requires IsHeader(h)
    ensures |EncodeHeader(h)| == h.base.headerSize
    ensures DecodeVersion(h.base, VersionFields(h) + h.extension) == Some(h)
  {
    WidthSums();
    Pow256Values();
    if h.base.headerVersion == 1 {
      UnpackPack(V1_WIDTHS, [h.flags, h.clientIndex, h.objectVersion, h.timestamp], h.extension);
      assert (VersionFields(h) + h.extension)[16..] == h.extension;
    } else if h.base.headerVersion == 2 {
      UnpackPack(V2_WIDTHS, [h.flags, h.status.value, h.reserved.value, h.objectVersion, h.timestamp,
                             h.originalTimestamp.value], h.extension);
      assert (VersionFields(h) + h.extension)[24..] == h.extension;
    }
  }

  lemma VersionLossless(base: ObjBase, rest: bytes)
    requires base.signature == OBJ_SIGNATURE
    requires |rest| == base.headerSize - OBJ_BASE_SIZE
    requires DecodeVersion(base, rest).Some?
    ensures var h := DecodeVersion(base, rest).value;
            && h.base == base && IsHeader(h) && VersionFields(h) + h.extension == rest
  {
    WidthSums();
    Pow256Values();
    if base.headerVersion == 1 {
      var v := Unpack(V1_WIDTHS, rest);
      PackUnpack(V1_WIDTHS, rest);
      assert v == [v[0], v[1], v[2], v[3]];
    } else if base.headerVersion == 2 {
      var v := Unpack(V2_WIDTHS, rest);
      PackUnpack(V2_WIDTHS, rest);
      assert v == [v[0], v[1], v[2], v[3], v[4], v[5]];
    }
  }

  /** Parsing yields `h` exactly when `h` is consistent and its encoding starts the bytes. */
  lemma HeaderCodec(s: bytes, h: LObj)
    ensures DecodeHeader(s) == Some(h) <==> IsHeader(h) && EncodeHeader(h) <= s
  {
    if DecodeHeader(s) == Some(h) {
      HeaderLossless(s);
    }
    if IsHeader(h) && EncodeHeader(h) <= s {
      HeaderRoundTrip(h, s[|EncodeHeader(h)|..]);
      assert s == EncodeHeader(h) + s[|EncodeHeader(h)|..];
    }
  }

  lemma HeaderRoundTrip(h: LObj, rest: bytes)
    requires IsHeader(h)
    ensures |EncodeHeader(h)| == h.base.headerSize
    ensures DecodeHeader(EncodeHeader(h) + rest) == Some(h)
  {
    hide DecodeVersion, VersionFields, EncodeBase, DecodeBase, IsHeader;
    var own := VersionFields(h) + h.extension;
    var s := EncodeHeader(h) + rest;
    VersionRoundTrip(h);
    HeaderSizeIsOwn(h);
    Assoc(EncodeBase(h.base), VersionFields(h), h.extension);
    Assoc(EncodeBase(h.base), own, rest);
    BaseRoundTrip(h.base, own + rest);
    assert s[OBJ_BASE_SIZE..h.base.headerSize] == own;
  }

  lemma HeaderSizeIsOwn(h: LObj)
    requires IsHeader(h)
    ensures h.base.signature == OBJ_SIGNATURE && h.base.headerSize >= OBJ_BASE_SIZE
  {
  }

  lemma HeaderLossless(s: bytes)
    requires DecodeHeader(s).Some?
    ensures var h := DecodeHeader(s).value;
            && IsHeader(h) && OBJ_BASE_SIZE <= h.base.headerSize <= |s|
            && h.base == DecodeBase(s)
            && EncodeHeader(h) == s[..h.base.headerSize]
  {
    hide DecodeVersion, VersionFields;
    var h := DecodeHeader(s).value;
    var base := DecodeBase(s);
    BaseLossless(s);
    VersionLossless(base, s[OBJ_BASE_SIZE..base.headerSize]);
    assert s[..base.headerSize] == s[..OBJ_BASE_SIZE] + s[OBJ_BASE_SIZE..base.headerSize];
  }

  // ----- Alignment -----

  /** Whether objects of the type are followed by filler; the amount comes from the stored size. */
  predicate IsPadded(objectType: u32) {
    objectType in {6, 7, 8, 9, 10, 32, 33, 65, 69, 71, 72, 76, 77, 78, 79, 80, 81, 83, 84, 85, 90, 92, 93, 96, 97, 102}
  }

  function Padding(base: ObjBase): (p: nat)
    ensures p <= 3
  {
    if IsPadded(base.objectType) then base.objectSize % 4 else 0
  }

  // ----- Events with a regular layout -----

  /** A fixed field of an event: a number, or the length of one of its variable fields. */
  datatype Slot = Num(width: nat) | Len(width: nat)

  /**
   The fixed part of an event after its 32-byte header. `tail` says that unclaimed bytes
   are kept, `resized` that writing recomputes the stored size. Byte arrays of a fixed
   length count as one number.
   */
  datatype Layout = Layout(slots: seq<Slot>, tail: bool, resized: bool)

  function LayoutOf(objectType: u32): Option<Layout> {
    match objectType
    case 1 => Some(Layout([Num(2), Num(1), Num(1), Num(4), Num(8)], false, false)) // CAN message
    case 2 => Some(Layout([Num(2), Num(2), Num(4)], false, false)) // CAN error
    case 3 => Some(Layout([Num(2), Num(2), Num(4)], false, false)) // CAN overload
    case 5 => Some(Layout([Num(8), Num(8), Num(2), Num(2), Num(4)], false, false)) // application trigger
    case 6 => Some(ENVIRONMENT)
    case 7 => Some(ENVIRONMENT)
    case 8 => Some(ENVIRONMENT)
    case 9 => Some(ENVIRONMENT)
    case 31 => Some(Layout([Num(2), Num(1), Num(1), Num(4)], false, false)) // CAN driver error
    case 44 => Some(Layout([Num(2), Num(1), Num(1), Num(4)], false, false)) // CAN driver sync
    case 46 => Some(Layout([Num(4), Num(2), Num(2), Num(8), Num(8), Num(8), Num(8), Num(8)], false, false)) // GPS
    case 51 => Some(Layout([Num(8), Num(8)], false, false)) // real-time clock
    case 73 => Some(Layout([Num(2), Num(2), Num(4), Num(1), Num(1), Num(1), Num(1), Num(4), Num(4), Num(2), Num(2)],
                           true, true)) // extended CAN error
    case 86 => Some(Layout([Num(2), Num(1), Num(1), Num(4), Num(8), Num(4), Num(1), Num(1), Num(2)],
                           false, false)) // CAN message 2
    case 91 => Some(Layout([Num(4), Num(2), Num(2)], false, false)) // driver overrun
    case 92 => Some(Layout([Num(4), Len(4), Num(8)], true, true)) // event comment
    case 96 => Some(Layout([Num(4), Num(4), Num(4), Num(1), Num(1), Num(2), Len(4), Len(4), Len(4), Num(4), Num(8)],
                           true, true)) // global marker
    case 100 => Some(Layout([Num(2), Num(1), Num(1), Num(4), Num(4), Num(1), Num(1), Num(1), Num(1), Num(4),
                             Num(64), Num(4)], false, false)) // CAN FD message
    case 115 => Some(Layout([Num(14), Len(2)], false, true)) // restore point
    case 119 => Some(Layout([Num(4), Num(4), Num(4), Len(4), Len(4), Len(4)], true, true)) // diagnostic request
    case 124 => Some(Layout([Num(4), Num(4), Len(4), Len(4)], true, true)) // function bus
    case 125 => Some(Layout([Num(4)], false, false)) // data lost begin
    case 126 => Some(Layout([Num(4), Num(8), Num(4)], false, false)) // data lost end
    case 127 => Some(Layout([Num(4), Num(4)], false, false)) // water mark
    case 128 => Some(Layout([Num(4), Len(4), Len(4)], true, true)) // trigger condition
    case 130 => Some(Layout([Num(4), Num(4), Len(4), Len(4)], true, true)) // distributed object member
    case 131 => Some(Layout([Len(4), Len(4), Len(4), Len(4)], true, true)) // attribute event
    case _ => None
  }

  const ENVIRONMENT := Layout([Len(4), Len(4), Num(8)], true, true)

  /** The decoded types whose layout is irregular; they are not part of this model. */
  predicate IsIrregular(objectType: u32) {
    objectType in {4, 11, 57, 65, 71, 72, 74, 101, 102, 103, 104, 114, 120, 121, 122, 123, 129}
  }

  function Widths(slots: seq<Slot>): (ws: seq<nat>)
    ensures |ws| == |slots| && forall i :: 0 <= i < |slots| ==> ws[i] == slots[i].width
  {
    seq(|slots|, i requires 0 <= i < |slots| => slots[i].width)
  }

  function NumCount(slots: seq<Slot>): nat {
    if slots == [] then 0 else (if slots[0].Num? then 1 else 0) + NumCount(slots[1..])
  }

  function LenCount(slots: seq<Slot>): nat {
    if slots == [] then 0 else (if slots[0].Len? then 1 else 0) + LenCount(slots[1..])
  }

  /** The values of all slots, from the numbers and the lengths in their order. */
  function Merge(slots: seq<Slot>, nums: seq<nat>, lens: seq<nat>): (vs: seq<nat>)
    requires NumCount(slots) == |nums| && LenCount(slots) == |lens|
    ensures |vs| == |slots|
  {
    if slots == [] then []
    else if slots[0].Num? then [nums[0]] + Merge(slots[1..], nums[1..], lens)
    else [lens[0]] + Merge(slots[1..], nums, lens[1..])
  }

  function NumsOf(slots: seq<Slot>, vs: seq<nat>): (nums: seq<nat>)
    requires |vs| == |slots|
    ensures |nums| == NumCount(slots)
  {
    if slots == [] then []
    else (if slots[0].Num? then [vs[0]] else []) + NumsOf(slots[1..], vs[1..])
  }

  function LensOf(slots: seq<Slot>, vs: seq<nat>): (lens: seq<nat>)
    requires |vs| == |slots|
    ensures |lens| == LenCount(slots)
  {
    if slots == [] then []
    else (if slots[0].Len? then [vs[0]] else []) + LensOf(slots[1..], vs[1..])
  }

  lemma {:induction false} SplitMerge(slots: seq<Slot>, nums: seq<nat>, lens: seq<nat>)
    requires NumCount(slots) == |nums| && LenCount(slots) == |lens|
    ensures NumsOf(slots, Merge(slots, nums, lens)) == nums
    ensures LensOf(slots, Merge(slots, nums, lens)) == lens
  {
    if slots != [] {
      var vs := Merge(slots, nums, lens);
      if slots[0].Num? {
        SplitMerge(slots[1..], nums[1..], lens);
        assert vs[1..] == Merge(slots[1..], nums[1..], lens) && nums == [nums[0]] + nums[1..];
      } else {
        SplitMerge(slots[1..], nums, lens[1..]);
        assert vs[1..] == Merge(slots[1..], nums, lens[1..]) && lens == [lens[0]] + lens[1..];
      }
    }
  }

  lemma {:induction false} MergeSplit(slots: seq<Slot>, vs: seq<nat>)
    requires |vs| == |slots|
    ensures Merge(slots, NumsOf(slots, vs), LensOf(slots, vs)) == vs
  {
    if slots != [] {
      MergeSplit(slots[1..], vs[1..]);
      assert NumsOf(slots, vs)[if slots[0].Num? then 1 else 0..] == NumsOf(slots[1..], vs[1..]);
      assert LensOf(slots, vs)[if slots[0].Len? then 1 else 0..] == LensOf(slots[1..], vs[1..]);
      assert vs == [vs[0]] + vs[1..];
    }
  }

  // ----- Variable fields -----

  function Concat(fields: seq<bytes>): bytes {
    if fields == [] then [] else fields[0] + Concat(fields[1..])
  }

  function Lengths(fields: seq<bytes>): (ls: seq<nat>)
    ensures |ls| == |fields| && forall i :: 0 <= i < |fields| ==> ls[i] == |fields[i]|
  {
    seq(|fields|, i requires 0 <= i < |fields| => |fields[i]|)
  }

  /** The consecutive pieces of the given lengths. */
  function Pieces(s: bytes, lens: seq<nat>): (fields: seq<bytes>)
    requires Sum(lens) <= |s|
    ensures |fields| == |lens| && Lengths(fields) == lens
  {
    if lens == [] then [] else [s[..lens[0]]] + Pieces(s[lens[0]..], lens[1..])
  }

  lemma {:induction false} ConcatLength(fields: seq<bytes>)
    ensures |Concat(fields)| == Sum(Lengths(fields))
  {
    if fields != [] {
      ConcatLength(fields[1..]);
      assert Lengths(fields)[1..] == Lengths(fields[1..]);
    }
  }

  lemma {:induction false} PiecesOfConcat(fields: seq<bytes>, rest: bytes)
    ensures Sum(Lengths(fields)) == |Concat(fields)|
    ensures Pieces(Concat(fields) + rest, Lengths(fields)) == fields
  {
    ConcatLength(fields);
    if fields != [] {
      PiecesOfConcat(fields[1..], rest);
      assert Lengths(fields)[1..] == Lengths(fields[1..]);
      SplitConcat(fields[0], Concat(fields[1..]), rest);
      assert fields == [fields[0]] + fields[1..];
    }
  }

  lemma {:induction false} ConcatOfPieces(s: bytes, lens: seq<nat>)
    requires Sum(lens) <= |s|
    ensures Concat(Pieces(s, lens)) == s[..Sum(lens)]
  {
    if lens != [] {
      ConcatOfPieces(s[lens[0]..], lens[1..]);
      assert Pieces(s, lens)[1..] == Pieces(s[lens[0]..], lens[1..]);
      assert s[..Sum(lens)] == s[..lens[0]] + s[lens[0]..][..Sum(lens[1..])];
    }
  }

  /** Cuts the bytes into fields of the given lengths and the remainder, if they are long enough. */
  method SplitLengths(s: bytes, lens: seq<nat>) returns (r: Option<seq<bytes>>)
    ensures r.Some? <==> Sum(lens) <= |s|
    ensures r.Some? ==> r.value == Pieces(s, lens) + [s[Sum(lens)..]]
  {
    hide Sum, Pieces, Lengths;
    var expected := 0;
    SumTake(lens, 0);
    for i := 0 to |lens|
      invariant expected == Sum(lens[..i])
    {
      SumTake(lens, i);
      expected := expected + lens[i];
    }
    SumTake(lens, |lens|);
    if expected > |s| {
      return None;
    }
    var fields: seq<bytes> := [];
    var offset := 0;
    assert s[0..] == s && lens[0..] == lens;
    for i := 0 to |lens|
      invariant offset + Sum(lens[i..]) == Sum(lens) <= |s|
      invariant fields + Pieces(s[offset..], lens[i..]) == Pieces(s, lens)
    {
      NextPiece(s, offset, lens, i);
      var end := offset + lens[i];
      Assoc(fields, [s[offset..end]], Pieces(s[end..], lens[i + 1..]));
      fields := fields + [s[offset..end]];
      offset := end;
    }
    LastPiece(s[offset..], lens[|lens|..]);
    fields := fields + [s[offset..]];
    r := Some(fields);
  }

  lemma NextPiece(s: bytes, offset: nat, lens: seq<nat>, i: nat)
    requires i < |lens| && offset + Sum(lens[i..]) <= |s|
    ensures Sum(lens[i..]) == lens[i] + Sum(lens[i + 1..])
    ensures Pieces(s[offset..], lens[i..])
         == [s[offset..offset + lens[i]]] + Pieces(s[offset + lens[i]..], lens[i + 1..])
  {
    assert lens[i..][1..] == lens[i + 1..];
    assert s[offset..][lens[i]..] == s[offset + lens[i]..];
    assert s[offset..][..lens[i]] == s[offset..offset + lens[i]];
  }

  lemma LastPiece(s: bytes, lens: seq<nat>)
    requires lens == []
    ensures Sum(lens) == 0 && Pieces(s, lens) == []
  {
  }

  /** How the sum of a prefix grows. */
  lemma {:induction false} SumTake(ws: seq<nat>, i: nat)
    requires i <= |ws|
    ensures Sum(ws[..i]) <= Sum(ws)
    ensures i == 0 ==> Sum(ws[..i]) == 0
    ensures i < |ws| ==> Sum(ws[..i + 1]) == Sum(ws[..i]) + ws[i]
    ensures i == |ws| ==> Sum(ws[..i]) == Sum(ws)
    decreases |ws| - i
  {
    if i == |ws| {
      assert ws[..i] == ws;
    } else {
      SumTake(ws, i + 1);
      SumSnoc(ws[..i], ws[i]);
      assert ws[..i + 1] == ws[..i] + [ws[i]];
    }
  }

  lemma {:induction false} SumSnoc(ws: seq<nat>, w: nat)
    ensures Sum(ws + [w]) == Sum(ws) + w
  {
    if ws == [] {
      assert ws + [w] == [w];
    } else {
      SumSnoc(ws[1..], w);
      assert (ws + [w])[1..] == ws[1..] + [w];
    }
  }
}
