/** The BLF file header. */
module BlfHeader {
  import opened Bytes
  import opened Calendar
  import opened Wrappers

  const FILE_SIGNATURE: u32 := 0x4747_4F4C // "LOGG" read as a little-endian number
  const HEADER_CORE_SIZE := 72

  datatype Header = Header(signature: u32, headerSize: u32, apiNumber: u32, appId: u8, compression: u8,
                           appMajor: u8, appMinor: u8, fileSize: u64, uncompressedFileSize: u64,
                           objectCount: u32, appBuild: u32, start: Time, end: Time,
                           restorePointOffset: Option<u64>, reserved: bytes)

  const CORE_WIDTHS: seq<nat> := [4, 4, 4, 1, 1, 1, 1, 8, 8, 4, 4]
  const TIME_WIDTHS: seq<nat> := [2, 2, 2, 2, 2, 2, 2, 2]

  lemma HeaderWidths()
    ensures Sum(CORE_WIDTHS) == 40 && Sum(TIME_WIDTHS) == 16
  {
    assert Sum([1, 8, 8, 4, 4]) == 25;
    assert [4, 4, 4, 1, 1, 1, 1, 8, 8, 4, 4] == [4, 4, 4, 1, 1, 1] + [1, 8, 8, 4, 4];
    assert Sum([2, 2, 2, 2]) == 8;
    assert CORE_WIDTHS == [4, 4, 4, 1, 1, 1, 1, 8, 8, 4, 4] && TIME_WIDTHS == [2, 2, 2, 2, 2, 2, 2, 2];
  }

  function CoreValues(h: Header): seq<nat> {
    [h.signature, h.headerSize, h.apiNumber, h.appId, h.compression, h.appMajor, h.appMinor,
     h.fileSize, h.uncompressedFileSize, h.objectCount, h.appBuild]
  }

  function TimeValues(t: Time): seq<nat> {
    [t.year, t.month, t.dayOfWeek, t.day, t.hour, t.minute, t.second, t.milliseconds]
  }

  function EncodeTime(t: Time): (s: bytes)
    ensures |s| == 16
  {
    HeaderWidths();
    Pack(TIME_WIDTHS, TimeValues(t))
  }

  function DecodeTime(s: bytes): Time
    requires |s| >= 16
  {
    HeaderWidths();
    Pow256Values();
    var v := Unpack(TIME_WIDTHS, s);
    Time(v[0], v[1], v[2], v[3], v[4], v[5], v[6], v[7])
  }

  function EncodeOffset(offset: Option<u64>): (s: bytes)
    ensures |s| == if offset.Some? then 8 else 0
  {
    if offset.Some? then ToLe(offset.value, 8) else []
  }

  function EncodedSize(h: Header): nat {
    HEADER_CORE_SIZE + (if h.restorePointOffset.Some? then 8 else 0) + |h.reserved|
  }

  function EncodeFileHeader(h: Header): (s: bytes)
    ensures |s| == EncodedSize(h)
  {
    HeaderWidths();
    Pack(CORE_WIDTHS, CoreValues(h))
    + (EncodeTime(h.start) + (EncodeTime(h.end) + (EncodeOffset(h.restorePointOffset) + h.reserved)))
  }

  /** The signature and size fields at the start of a file. */
  function HeaderPrefix(s: bytes): (u32, u32)
    requires |s| >= 8
  {
    Pow256Values();
    (FromLe(s[..4]), FromLe(s[4..8]))
  }

  function DecodeFileHeader(s: bytes): Option<Header> {
    if |s| < 8 then None
    else
      var (signature, size) := HeaderPrefix(s);
      if signature != FILE_SIGNATURE || size < HEADER_CORE_SIZE || size > |s| then None
      else Some(DecodeFields(s[..size]))
  }

  function DecodeFields(s: bytes): Header
    requires |s| >= HEADER_CORE_SIZE
  {
    HeaderWidths();
    Pow256Values();
    var v := Unpack(CORE_WIDTHS, s);
    var extended := |s| >= HEADER_CORE_SIZE + 8;
    Header(v[0], v[1], v[2], v[3], v[4], v[5], v[6], v[7], v[8], v[9], v[10],
           DecodeTime(s[40..]), DecodeTime(s[56..]),
           if extended then Some(FromLe(s[HEADER_CORE_SIZE..HEADER_CORE_SIZE + 8])) else None,
           if extended then s[HEADER_CORE_SIZE + 8..] else s[HEADER_CORE_SIZE..])
  }

  /** A header that its own encoding describes. */
  ghost predicate IsFileHeader(h: Header) {
    && h.signature == FILE_SIGNATURE
    && h.headerSize == EncodedSize(h)
    && (h.restorePointOffset.None? ==> |h.reserved| < 8)
  }

  lemma TimeFits(t: Time)
    ensures Fits(TIME_WIDTHS, TimeValues(t))
  {
    Pow256Values();
  }

  lemma TimeCodec(t: Time, rest: bytes)
    ensures DecodeTime(EncodeTime(t) + rest) == t
  {
    hide Pack, Unpack, Pow256, Fits, Sum;
    HeaderWidths();
    TimeFits(t);
    UnpackPack(TIME_WIDTHS, TimeValues(t), rest);
  }

  lemma CoreFits(h: Header)
    ensures Fits(CORE_WIDTHS, CoreValues(h))
  {
    Pow256Values();
  }

  lemma PrefixOfCore(h: Header, rest: bytes)
    ensures HeaderPrefix(EncodeFileHeader(h) + rest) == (h.signature, h.headerSize)
  {
    hide Pow256, FromLe, ToLe, Sum, Pack;
    HeaderWidths();
    Pow256Values();
    var vs := CoreValues(h);
    var core := Pack(CORE_WIDTHS, vs);
    PackFirstTwo(CORE_WIDTHS, vs);
    var s := EncodeFileHeader(h) + rest;
    assert s[..4] == core[..4] && s[4..8] == core[4..8];
    FromToLe(h.signature, 4);
    FromToLe(h.headerSize, 4);
  }

  lemma FieldsRoundTrip(h: Header)
    ensures var g := DecodeFields(EncodeFileHeader(h));
            && (h.restorePointOffset.Some? || |h.reserved| < 8 ==> g == h)
            && (h.restorePointOffset.None? && |h.reserved| >= 8 ==> g != h)
  {
    hide Pow256, FromLe, ToLe, EncodeTime, DecodeTime, Pack, Unpack, CoreValues;
    HeaderWidths();
    Pow256Values();
    CoreFits(h);
    var offset := EncodeOffset(h.restorePointOffset);
    var s := EncodeFileHeader(h);
    var tail1 := EncodeTime(h.end) + (offset + h.reserved);
    UnpackPack(CORE_WIDTHS, CoreValues(h), EncodeTime(h.start) + tail1);
    CoreParts(h);
    assert s[40..] == EncodeTime(h.start) + tail1;
    assert s[56..] == tail1;
    TimeCodec(h.start, tail1);
    TimeCodec(h.end, offset + h.reserved);
    assert s[HEADER_CORE_SIZE..] == offset + h.reserved;
    if h.restorePointOffset.Some? {
      assert s[HEADER_CORE_SIZE..HEADER_CORE_SIZE + 8] == offset;
      FromToLe(h.restorePointOffset.value, 8);
      assert s[HEADER_CORE_SIZE + 8..] == h.reserved;
    }
  }

  lemma CoreParts(h: Header)
    ensures var v := CoreValues(h);
            && |v| == 11
            && v[0] == h.signature && v[1] == h.headerSize && v[2] == h.apiNumber && v[3] == h.appId
            && v[4] == h.compression && v[5] == h.appMajor && v[6] == h.appMinor && v[7] == h.fileSize
            && v[8] == h.uncompressedFileSize && v[9] == h.objectCount && v[10] == h.appBuild
  {
  }

  /** A written header is parsed back, whatever follows it, exactly when it describes itself. */
  lemma FileHeaderCodec(h: Header, rest: bytes)
    ensures DecodeFileHeader(EncodeFileHeader(h) + rest) == Some(h) <==> IsFileHeader(h)
  {
    hide EncodeFileHeader, DecodeFields, HeaderPrefix;
    var s := EncodeFileHeader(h) + rest;
    PrefixOfCore(h, rest);
    FieldsRoundTrip(h);
    if h.headerSize == EncodedSize(h) {
      assert s[..h.headerSize] == EncodeFileHeader(h);
    } else if h.signature == FILE_SIGNATURE && HEADER_CORE_SIZE <= h.headerSize <= |s| {
      DecodedSize(s[..h.headerSize]);
    }
  }

  /** A decoded header occupies all of its bytes. */
  lemma DecodedSize(s: bytes)
    requires |s| >= HEADER_CORE_SIZE
    ensures EncodedSize(DecodeFields(s)) == |s|
  {
  }

  // ----- Opening a file -----

  /** The header a reader accepts at the start of a file, given its limit on header sizes. */
  function OpenHeader(maxHeader: nat, s: bytes): Option<Header> {
    if |s| < 8 then None
    else
      var (signature, size) := HeaderPrefix(s);
      if signature != FILE_SIGNATURE || size < HEADER_CORE_SIZE || size > maxHeader || size > |s| then None
      else DecodeFileHeader(s[..size])
  }

  lemma OpenWritten(h: Header, maxHeader: nat, rest: bytes)
    requires IsFileHeader(h) && h.headerSize <= maxHeader
    ensures OpenHeader(maxHeader, EncodeFileHeader(h) + rest) == Some(h)
  {
    hide EncodeFileHeader, DecodeFileHeader, HeaderPrefix;
    PrefixOfCore(h, rest);
    assert (EncodeFileHeader(h) + rest)[..h.headerSize] == EncodeFileHeader(h) + [];
    FileHeaderCodec(h, []);
  }
}
