/** The reader undoes the writer. */
module BlfRoundTrip {
  import opened BlfCodec
  import opened BlfFile
  import opened BlfHeader
  import opened BlfObjects
  import opened BlfReader
  import opened BlfReading
  import opened BlfStream
  import opened BlfWriter
  import opened Bytes
  import opened Wrappers

  /** A written file is read back: its header, then its objects in order, then the end. */
  lemma FileIsRead<O(!new)>(f: Format<O>, z: Zlib, lim: Limits, h: Header, cap: nat, ps: seq<Packet>, os: seq<O>)
    requires Inverts(z) && IsFile(f, z, cap, ps, os) && AllReadable(z, lim, ps) && AllWellFormed(f, lim, os)
    requires IsFileHeader(h) && h.headerSize <= lim.maxHeader
    ensures var s := EncodeFileHeader(h) + Containers(z, ps);
            && OpenHeader(lim.maxHeader, s) == Some(h)
            && |s| >= h.headerSize
            && Run(f, z, lim, s[h.headerSize..], []) == Items(os) + [End]
  {
    hide Run;
    OpenWritten(h, lim.maxHeader, Containers(z, ps));
    var s := EncodeFileHeader(h) + Containers(z, ps);
    assert s[h.headerSize..] == Containers(z, ps);
    assert Stream(f, os) + Zeros(0) == Stream(f, os);
    CutIndependent(f, z, lim, os, 0, ps);
  }

  /** Payloads below the size, and those of a single object, make containers that the reader accepts. */
  ghost predicate FitsAll<O>(f: Format<O>, z: Zlib, lim: Limits, size: nat, compress: bool, os: seq<O>) {
    && (forall p: bytes {:trigger StoredData(z, p, compress)} :: |p| < size ==> Readable(z, lim, Packet(p, compress)))
    && (forall i :: 0 <= i < |os| && f.encode(os[i]).Some? ==> Readable(z, lim, Packet(Padded(f, os[i]), compress)))
  }

  lemma PayloadReadable<O(!new)>(f: Format<O>, z: Zlib, lim: Limits, size: nat, compress: bool, os: seq<O>, p: bytes)
    requires Encodes(f, os) && FitsAll(f, z, lim, size, compress, os) && Bounded(f, size, os, p)
    ensures Readable(z, lim, Packet(p, compress))
  {
    hide Readable, Padded, StoredData;
    var stored := StoredData(z, p, compress);
  }

  lemma PacketsReadable<O(!new)>(f: Format<O>, z: Zlib, lim: Limits, size: nat, ps: seq<Packet>, os: seq<O>,
                                 compress: bool)
    requires IsFile(f, z, size, ps, os) && FitsAll(f, z, lim, size, compress, os)
    requires forall i :: 0 <= i < |ps| ==> ps[i].compress == compress
    ensures AllReadable(z, lim, ps)
  {
    hide Readable, Bounded, StoredData, FitsAll;
    forall i | 0 <= i < |ps| ensures Readable(z, lim, ps[i]) {
      PayloadReadable(f, z, lim, size, compress, os, ps[i].payload);
      assert ps[i] == Packet(ps[i].payload, compress);
    }
  }

  /** Writes the objects; nothing is refused. */
  method WriteObjects<O(!new)>(w: BlfWriter<O>, ghost lim: Limits, os: seq<O>)
    requires w.Valid() && w.objects == [] && w.cap == 0
    requires AllWellFormed(w.f, lim, os)
    requires FitsAll(w.f, w.z, lim, w.containerSize, w.header.compression > 0, os)
    modifies w, w.inner
    ensures w.Valid() && w.objects == os && w.cap <= w.containerSize == old(w.containerSize)
    ensures |w.buffer| < 0x1_0000_0000
  {
    hide FitsAll, WellFormed, AllWellFormed, IsRestorePoint, Marked, PointsAt, Bounded, Written, Containers, Payloads,
         Stream, UncompressedSize, NoRestorePoint;
    var i := 0;
    while i < |os|
      invariant 0 <= i <= |os| && w.Valid() && w.objects == os[..i]
      invariant w.cap <= w.containerSize == old(w.containerSize)
    {
      SmallBuffer(w, lim, os, i);
      EncodesAt(w.f, lim, os, i);
      var ok := w.WriteObject(os[i]);
      assert os[..i + 1] == os[..i] + [os[i]];
      i := i + 1;
    }
    assert os[..i] == os;
    SmallBuffer(w, lim, os, i);
  }

  /** Writes the objects to a new stream. */
  method WriteAll<O(!new)>(f: Format<O>, z: Zlib, ghost lim: Limits, header: Header, size: nat, os: seq<O>)
    returns (s: bytes, ghost h: Header)
    requires AllWellFormed(f, lim, os) && EncodedSize(header) < 0x1_0000_0000 && size > 0
    requires FitsAll(f, z, lim, size, header.compression > 0, os)
    ensures exists ps, u, p :: AllReadable(z, lim, ps) && IsFile(f, z, size, ps, os)
                               && h == FinalHeader(header, |Containers(z, ps)|, u, |os|, p)
                               && s == EncodeFileHeader(h) + Containers(z, ps)
  {
    hide FitsAll, EncodeFileHeader, Containers, Written, PointsAt, NoRestorePoint, UncompressedSize, WellFormed,
         AllReadable, FinalHeader;
    var inner := new Sink([], 0);
    var created := BlfWriter<O>.Create(f, z, inner, header);
    var w := created.value;
    var sized := w.SetContainerSize(size);
    WriteObjects(w, lim, os);
    var finished := w.Finish();
    s := inner.data;
    ghost var ps := w.packets;
    FilesGrow(f, z, w.cap, size, ps, os);
    PacketsReadable(f, z, lim, size, ps, os, header.compression > 0);
    SameFinalHeader(header, |Containers(z, ps)|, UncompressedSize(ps), |os|, w.restorePointOffset);
    h := FinalHeader(header, |Containers(z, ps)|, UncompressedSize(ps), |os|, w.restorePointOffset);
    NothingBefore(EncodeFileHeader(h) + Containers(z, ps));
  }

  lemma EncodesAt<O(!new)>(f: Format<O>, lim: Limits, os: seq<O>, i: nat)
    requires AllWellFormed(f, lim, os) && i < |os|
    ensures f.encode(os[i]).Some?
  {
    assert WellFormed(f, lim, os[i]);
  }

  lemma NothingBefore(s: bytes)
    ensures Written([], 0, s) == s
  {
  }

  lemma FilesGrow<O>(f: Format<O>, z: Zlib, cap: nat, size: nat, ps: seq<Packet>, os: seq<O>)
    requires IsFile(f, z, cap, ps, os) && cap <= size
    ensures IsFile(f, z, size, ps, os) && AllSmall(ps)
  {
  }

  lemma SameFinalHeader(h: Header, body: nat, uncompressed: nat, count: nat, restorePoint: Option<nat>)
    requires EncodedSize(h) < 0x1_0000_0000
    ensures FinalHeader(Placeholder(h), body, uncompressed, count, restorePoint)
         == FinalHeader(h, body, uncompressed, count, restorePoint)
  {
  }

  lemma SmallBuffer<O(!new)>(w: BlfWriter<O>, lim: Limits, os: seq<O>, i: nat)
    requires w.Valid() && i <= |os| && w.objects == os[..i] && w.cap <= w.containerSize
    requires AllWellFormed(w.f, lim, os)
    requires FitsAll(w.f, w.z, lim, w.containerSize, w.header.compression > 0, os)
    ensures |w.buffer| < 0x1_0000_0000
  {
    hide AllWellFormed, FitsAll, Bounded, Marked, Containers, Written, NoRestorePoint, UncompressedSize, Payloads,
         Stream, IsRestorePoint;
    if w.buffer != [] {
      SmallPayload(w.f, w.z, lim, w.cap, w.containerSize, w.header.compression > 0, os, i, w.buffer);
    }
  }

  lemma SmallPayload<O(!new)>(f: Format<O>, z: Zlib, lim: Limits, cap: nat, size: nat, compress: bool, os: seq<O>,
                              i: nat, p: bytes)
    requires AllWellFormed(f, lim, os) && FitsAll(f, z, lim, size, compress, os)
    requires i <= |os| && cap <= size && Encodes(f, os[..i]) && Bounded(f, cap, os[..i], p)
    ensures |p| < 0x1_0000_0000
  {
    hide Padded, AllWellFormed, FitsAll, Readable;
    EncodesAll(f, lim, os);
    if |p| >= cap {
      var k :| 0 <= k < i && p == Padded(f, os[..i][k]);
      assert os[..i][k] == os[k];
    }
    PayloadReadable(f, z, lim, size, compress, os, p);
    ReadableIsSmall(z, lim, Packet(p, compress));
  }

  lemma EncodesAll<O(!new)>(f: Format<O>, lim: Limits, os: seq<O>)
    requires AllWellFormed(f, lim, os)
    ensures Encodes(f, os)
  {
    forall i | 0 <= i < |os| ensures f.encode(os[i]).Some? {
      EncodesAt(f, lim, os, i);
    }
  }

  lemma ReadableIsSmall(z: Zlib, lim: Limits, p: Packet)
    requires Readable(z, lim, p)
    ensures |p.payload| < 0x1_0000_0000
  {
  }

  /** Collects what the reader yields up to its end or first error. */
  method ReadAll<O(!new)>(f: Format<O>, z: Zlib, lim: Limits, s: bytes, ghost h: Header, ghost os: seq<O>)
    returns (out: seq<O>, failed: bool)
    requires lim.maxHeader >= HEADER_CORE_SIZE && lim.maxContainer >= LOG_CONTAINER_SIZE
             && lim.maxObject >= OBJ_BASE_SIZE
    requires OpenHeader(lim.maxHeader, s) == Some(h) && |s| >= h.headerSize
    requires Run(f, z, lim, s[h.headerSize..], []) == Items(os) + [End]
    ensures out == os && !failed
  {
    hide Run, OpenHeader, Items;
    var source := new ByteSource(s);
    var found := BlfReader<O>.Open(f, z, lim, source);
    out, failed := Drain(found.value, os);
  }

  method Drain<O(!new)>(reader: BlfReader<O>, ghost os: seq<O>) returns (out: seq<O>, failed: bool)
    requires reader.Valid() && !reader.sourceEof && !reader.finished
    requires Run(reader.f, reader.z, reader.lim, reader.source.Rest(), reader.Unread()) == Items(os) + [End]
    modifies reader, reader.source
    ensures out == os && !failed
  {
    hide Run, Next, Items;
    out, failed := [], false;
    ghost var left := os;
    while true
      invariant reader.Valid() && !reader.sourceEof && !reader.finished && !failed
      invariant out + left == os
      invariant Run(reader.f, reader.z, reader.lim, reader.source.Rest(), reader.Unread()) == Items(left) + [End]
      decreases |left|
    {
      RunHead(reader.f, reader.z, reader.lim, reader.source.Rest(), reader.Unread(), left);
      var next := reader.Next();
      if next.None? {
        return;
      }
      if next.value.Err? {
        failed := true;
        return;
      }
      out := out + [next.value.value];
      left := left[1..];
    }
  }

  /**
   Every list of well-formed objects, written with any container size and either
   compression setting and then read, comes back unchanged and in order; the reader then
   reports the end and no error.
   */
  method WriteThenRead<O(!new)>(f: Format<O>, z: Zlib, lim: Limits, header: Header, size: nat, os: seq<O>)
    returns (out: seq<O>, failed: bool)
    requires Inverts(z) && AllWellFormed(f, lim, os)
    requires header.signature == FILE_SIGNATURE && (header.restorePointOffset.None? ==> |header.reserved| < 8)
    requires EncodedSize(header) <= lim.maxHeader && EncodedSize(header) < 0x1_0000_0000
    requires lim.maxContainer >= LOG_CONTAINER_SIZE && lim.maxObject >= OBJ_BASE_SIZE && size > 0
    requires FitsAll(f, z, lim, size, header.compression > 0, os)
    ensures out == os && !failed
  {
    hide Run, FitsAll, EncodeFileHeader, Containers, OpenHeader, AllReadable;
    var s: bytes;
    ghost var h: Header;
    s, h := WriteAll(f, z, lim, header, size, os);
    ghost var ps: seq<Packet>, u: nat, p: Option<nat> :|
      AllReadable(z, lim, ps) && IsFile(f, z, size, ps, os)
      && h == FinalHeader(header, |Containers(z, ps)|, u, |os|, p) && s == EncodeFileHeader(h) + Containers(z, ps);
    FileIsRead(f, z, lim, h, size, ps, os);
    out, failed := ReadAll(f, z, lim, s, h, os);
  }

  /** The same for a file written from memory in one go. */
  method WriteFileThenRead<O(!new)>(f: Format<O>, z: Zlib, lim: Limits, header: Header, os: seq<O>)
    returns (out: seq<O>, failed: bool)
    requires Inverts(z) && NeverEmpty(f) && AllWellFormed(f, lim, os)
    requires header.signature == FILE_SIGNATURE && (header.restorePointOffset.None? ==> |header.reserved| < 8)
    requires EncodedSize(header) <= lim.maxHeader && EncodedSize(header) < 0x1_0000_0000
    requires lim.maxContainer >= LOG_CONTAINER_SIZE && lim.maxObject >= OBJ_BASE_SIZE
    requires FitsAll(f, z, lim, PAYLOAD_CAP, header.compression > 0, os)
    ensures out == os && !failed
  {
    hide Run, FitsAll, EncodeFileHeader, Containers, OpenHeader, AllReadable, WellFormed, PointsAt, NoRestorePoint,
         HoldsRestorePoints, FinalHeader, UncompressedSize, Padded;
    forall i | 0 <= i < |os| ensures f.encode(os[i]).Some? && |Padded(f, os[i])| < 0x1_0000_0000 {
      SmallObject(f, z, lim, os, i, PAYLOAD_CAP, header.compression > 0);
    }
    var r: Option<bytes>;
    ghost var ps, at, k, n;
    r, ps, at, k, n := WriteFile(f, z, header, os);
    ghost var h := FinalHeader(header, |Containers(z, ps)|, UncompressedSize(ps), |os|, at);
    PacketsReadable(f, z, lim, PAYLOAD_CAP, ps, os, header.compression > 0);
    FinalIsFileHeader(header, |Containers(z, ps)|, UncompressedSize(ps), |os|, at);
    FileIsRead(f, z, lim, h, PAYLOAD_CAP, ps, os);
    out, failed := ReadAll(f, z, lim, r.value, h, os);
  }

  lemma SmallObject<O(!new)>(f: Format<O>, z: Zlib, lim: Limits, os: seq<O>, i: nat, cap: nat, compress: bool)
    requires i < |os| && AllWellFormed(f, lim, os) && FitsAll(f, z, lim, cap, compress, os)
    ensures f.encode(os[i]).Some? && |Padded(f, os[i])| < 0x1_0000_0000
  {
    hide Padded, Readable;
    assert WellFormed(f, lim, os[i]);
    ReadableIsSmall(z, lim, Packet(Padded(f, os[i]), compress));
  }

  lemma FinalIsFileHeader(h: Header, body: nat, uncompressed: nat, count: nat, restorePoint: Option<nat>)
    requires h.signature == FILE_SIGNATURE && (h.restorePointOffset.None? ==> |h.reserved| < 8)
    requires EncodedSize(h) < 0x1_0000_0000
    ensures var g := FinalHeader(h, body, uncompressed, count, restorePoint);
            IsFileHeader(g) && g.headerSize == EncodedSize(h)
  {
  }

  /** The next outcome of a run that yields the objects and then ends. */
  lemma RunHead<O>(f: Format<O>, z: Zlib, lim: Limits, s: bytes, unread: bytes, os: seq<O>)
    requires Run(f, z, lim, s, unread) == Items(os) + [End]
    ensures var step := BlfStream.Next(f, z, lim, s, unread);
            if os == [] then step.outcome == End
            else step.outcome == Item(os[0]) && Run(f, z, lim, step.rest, step.unread) == Items(os[1..]) + [End]
  {
    var step := BlfStream.Next(f, z, lim, s, unread);
    var r := Run(f, z, lim, s, unread);
    assert r[0] == step.outcome;
    if os != [] {
      assert r[0] == Item(os[0]);
      assert r[1..] == Run(f, z, lim, step.rest, step.unread);
      assert (Items(os) + [End])[1..] == Items(os[1..]) + [End];
    }
  }

  // ----- The codec of BLF objects -----

  /** The codec of the object model. */
  function ObjectFormat(): Format<BlfObject> {
    Format(
      s => match DecodeObject(s) case Ok(o) => Some(o) case Err(_) => None,
      o => if IsTyped(o) then EncodeObject(o) else None,
      (o: BlfObject) => o.header.base)
  }

  /** Canonical objects within the limit satisfy what the stream theorems ask for. */
  lemma CanonicalIsWellFormed(lim: Limits, o: BlfObject)
    requires IsCanonical(o) && o.header.base.objectSize <= lim.maxObject
    ensures WellFormed(ObjectFormat(), lim, o)
  {
    hide DecodeObject, EncodeObject, DecodeBase;
    ParseUndoesWrite(o);
    HeaderSizeIsOwn(o.header);
  }

  lemma ObjectsAreNeverEmpty()
    ensures NeverEmpty(ObjectFormat())
  {
  }

  /** Every list of canonical objects within the limit comes back from a written and read BLF file. */
  method ObjectsRoundTrip(z: Zlib, lim: Limits, header: Header, size: nat, os: seq<BlfObject>)
    returns (out: seq<BlfObject>, failed: bool)
    requires Inverts(z) && forall i :: 0 <= i < |os| ==>
              IsCanonical(os[i]) && os[i].header.base.objectSize <= lim.maxObject
    requires header.signature == FILE_SIGNATURE && (header.restorePointOffset.None? ==> |header.reserved| < 8)
    requires EncodedSize(header) <= lim.maxHeader && EncodedSize(header) < 0x1_0000_0000
    requires lim.maxContainer >= LOG_CONTAINER_SIZE && lim.maxObject >= OBJ_BASE_SIZE && size > 0
    requires FitsAll(ObjectFormat(), z, lim, size, header.compression > 0, os)
    ensures out == os && !failed
  {
    hide FitsAll, WellFormed, IsCanonical;
    forall i | 0 <= i < |os| ensures WellFormed(ObjectFormat(), lim, os[i]) {
      CanonicalIsWellFormed(lim, os[i]);
    }
    out, failed := WriteThenRead(ObjectFormat(), z, lim, header, size, os);
  }

  /** The same for a file written from memory in one go. */
  method ObjectsFileRoundTrip(z: Zlib, lim: Limits, header: Header, os: seq<BlfObject>)
    returns (out: seq<BlfObject>, failed: bool)
    requires Inverts(z) && forall i :: 0 <= i < |os| ==>
              IsCanonical(os[i]) && os[i].header.base.objectSize <= lim.maxObject
    requires header.signature == FILE_SIGNATURE && (header.restorePointOffset.None? ==> |header.reserved| < 8)
    requires EncodedSize(header) <= lim.maxHeader && EncodedSize(header) < 0x1_0000_0000
    requires lim.maxContainer >= LOG_CONTAINER_SIZE && lim.maxObject >= OBJ_BASE_SIZE
    requires FitsAll(ObjectFormat(), z, lim, PAYLOAD_CAP, header.compression > 0, os)
    ensures out == os && !failed
  {
    hide FitsAll, WellFormed, IsCanonical, NeverEmpty;
    forall i | 0 <= i < |os| ensures WellFormed(ObjectFormat(), lim, os[i]) {
      CanonicalIsWellFormed(lim, os[i]);
    }
    ObjectsAreNeverEmpty();
    out, failed := WriteFileThenRead(ObjectFormat(), z, lim, header, os);
  }

  // ----- A restore point that is missed -----

  const PLAIN := LObj(ObjBase(OBJ_SIGNATURE, LOBJ_SIZE, 1, 48, 1), 0, 0, 0, 0, None, None, None, [])

  /** A CAN message. */
  const MESSAGE := Event(PLAIN, [1, 0, 8, 0x123, 0], [], [])

  /** An opaque object of the type of restore points that declares a wrong size. */
  const MISFIT := Raw(PLAIN.(base := ObjBase(OBJ_SIGNATURE, LOBJ_SIZE, 1, 48, RESTORE_POINT)), [])

  const MESSAGE_SLOTS: seq<Slot> := [Num(2), Num(1), Num(1), Num(4), Num(8)]

  lemma MessageCounts()
    ensures NumCount(MESSAGE_SLOTS) == 5 && LenCount(MESSAGE_SLOTS) == 0
  {
    var tail: seq<Slot> := [Num(1), Num(4), Num(8)];
    assert MESSAGE_SLOTS[1..] == [Num(1)] + tail && MESSAGE_SLOTS[1..][1..] == tail;
    assert NumCount(tail) == 3 && LenCount(tail) == 0;
  }

  lemma MessageWidths()
    ensures Widths(MESSAGE_SLOTS) == [2, 1, 1, 4, 8] && Sum(Widths(MESSAGE_SLOTS)) == 16
  {
    var widths: seq<nat> := [1, 4, 8];
    assert Widths(MESSAGE_SLOTS) == [2, 1] + widths && Widths(MESSAGE_SLOTS)[1..] == [1] + widths
           && ([1] + widths)[1..] == widths;
    assert Sum(widths) == 13;
  }

  lemma {:induction false} AllNumbers(slots: seq<Slot>, nums: seq<nat>)
    requires NumCount(slots) == |nums| && LenCount(slots) == 0
    ensures Merge(slots, nums, []) == nums
  {
    if slots != [] {
      AllNumbers(slots[1..], nums[1..]);
    }
  }

  lemma MessageIsCanonical()
    ensures IsCanonical(MESSAGE)
  {
    hide Merge, Widths, Sum, NumCount, LenCount;
    assert LayoutOf(1).value.slots == MESSAGE_SLOTS;
    MessageCounts();
    MessageWidths();
    AllNumbers(MESSAGE_SLOTS, MESSAGE.nums);
    Pow256Values();
  }

  lemma MessageAndMisfit()
    ensures ObjectFormat().encode(MESSAGE).Some? && !IsRestorePoint(ObjectFormat(), MESSAGE)
    ensures |Padded(ObjectFormat(), MESSAGE)| < 64
    ensures ObjectFormat().encode(MISFIT).None? && IsRestorePoint(ObjectFormat(), MISFIT)
  {
    hide IsCanonical, Declared, EventSize, EncodeEvent;
    MessageIsCanonical();
    ParseUndoesWrite(MESSAGE);
  }

  /** A file of these objects whose header gives an offset at which there is no first restore point. */
  ghost predicate Misled<O>(f: Format<O>, z: Zlib, header: Header, cap: nat, ps: seq<Packet>, os: seq<O>, offset: nat,
                            data: bytes) {
    && EncodedSize(header) < 0x1_0000_0000 && IsFile(f, z, cap, ps, os)
    && data == EncodeFileHeader(FinalHeader(header, |Containers(z, ps)|, UncompressedSize(ps), |os|, Some(offset)))
       + Containers(z, ps)
    && !exists k: nat, n: nat :: PointsAt(f, z, EncodedSize(header), ps, [], os, offset, k, n)
  }

  /** Offers a writer a restore point it cannot encode, then a message. */
  method WriteMisfit(z: Zlib, header: Header) returns (w: BlfWriter<BlfObject>)
    requires EncodedSize(header) < 0x1_0000_0000
    ensures fresh(w) && fresh(w.inner) && w.Valid() && w.f == ObjectFormat() && w.z == z
            && w.header == Placeholder(header)
    ensures w.original == [] && w.headerOffset == 0 && w.objects == [MESSAGE] && w.cap == DEFAULT_CONTAINER_SIZE
    ensures w.restorePointOffset.Some? && w.objectsBefore == 0
  {
    hide EncodeFileHeader, Containers, Written, Marked, NoRestorePoint, UncompressedSize, ObjectFormat, IsRestorePoint,
         Bounded, Padded, EncodedSize, Stream, Payloads, Placeholder;
    MessageAndMisfit();
    var inner := new Sink([], 0);
    var created := BlfWriter<BlfObject>.Create(ObjectFormat(), z, inner, header);
    w := created.value;
    var ok := w.WriteObject(MISFIT);
    ok := w.WriteObject(MESSAGE);
  }

  /**
   A restore point that cannot be encoded leaves its offset behind: a message written after it makes the file's
   restore point offset point at no restore point.
   */
  method MissedRestorePoint(z: Zlib, header: Header) returns (data: bytes, ghost ps: seq<Packet>, ghost offset: nat)
    requires EncodedSize(header) < 0x1_0000_0000
    ensures Misled(ObjectFormat(), z, header, DEFAULT_CONTAINER_SIZE, ps, [MESSAGE], offset, data)
  {
    hide EncodeFileHeader, Containers, Written, PointsAt, Marked, NoRestorePoint, UncompressedSize, FinalHeader,
         ObjectFormat, IsRestorePoint, IsFile, Bounded, Padded, NeverEmpty, EncodedSize, Stream, Payloads, Placeholder;
    MessageAndMisfit();
    ObjectsAreNeverEmpty();
    PlaceholderSize(header);
    var w := WriteMisfit(z, header);
    SmallMessage(w);
    var ok := w.Finish();
    data, ps, offset := w.inner.data, w.packets, w.restorePointOffset.value;
    FilesGrow(w.f, z, w.cap, w.cap, ps, w.objects);
    SameFinalHeader(header, |Containers(z, ps)|, UncompressedSize(ps), 1, Some(offset));
    NothingBefore(EncodeFileHeader(FinalHeader(header, |Containers(z, ps)|, UncompressedSize(ps), 1, Some(offset)))
                  + Containers(z, ps));
  }

  lemma PlaceholderSize(header: Header)
    requires EncodedSize(header) < 0x1_0000_0000
    ensures EncodedSize(Placeholder(header)) == EncodedSize(header)
  {
  }

  lemma SmallMessage(w: BlfWriter<BlfObject>)
    requires w.Valid() && w.f == ObjectFormat() && w.objects == [MESSAGE] && w.cap == DEFAULT_CONTAINER_SIZE
    ensures |w.buffer| < 0x1_0000_0000
  {
    hide ObjectFormat, Padded, Marked, Containers, Written, NoRestorePoint, UncompressedSize, Payloads, Stream,
         IsRestorePoint;
    MessageAndMisfit();
    assert w.objects[0] == MESSAGE;
  }

  // ----- A payload above the limit -----

  /** An opaque object that is followed by filler; with a message before it, it just fits a buffer. */
  const BULKY := Raw(PLAIN.(base := ObjBase(OBJ_SIGNATURE, LOBJ_SIZE, 1, MAX_CONTAINER_BUFFER - 49, 32)),
                     Zeros(MAX_CONTAINER_BUFFER - 49 - LOBJ_SIZE))

  lemma BulkyIsCanonical()
    ensures IsCanonical(BULKY)
  {
    hide Zeros;
    assert LayoutOf(32).None?;
  }

  lemma ObjectSizes()
    ensures var f := ObjectFormat();
            && f.encode(MESSAGE).Some? && f.encode(BULKY).Some?
            && |f.encode(MESSAGE).value| == |Padded(f, MESSAGE)| == 48 && !IsRestorePoint(f, MESSAGE)
            && |f.encode(BULKY).value| == MAX_CONTAINER_BUFFER - 49 && |Padded(f, BULKY)| == MAX_CONTAINER_BUFFER - 46
            && !IsRestorePoint(f, BULKY)
  {
    hide IsCanonical, Declared, EventSize, EncodeEvent, Zeros, EncodeObject;
    MessageIsCanonical();
    BulkyIsCanonical();
    ParseUndoesWrite(MESSAGE);
    ParseUndoesWrite(BULKY);
  }

  lemma JustFits()
    ensures OnePiece(ObjectFormat(), [MESSAGE, BULKY])
    ensures |Stream(ObjectFormat(), [MESSAGE, BULKY])| == MAX_CONTAINER_BUFFER + 2
    ensures forall o :: o in [MESSAGE, BULKY] ==> |Padded(ObjectFormat(), o)| < 0x1_0000_0000
  {
    hide ObjectFormat, Padded, Zeros, IsRestorePoint;
    var f := ObjectFormat();
    ObjectSizes();
    StreamOne(f, MESSAGE);
    StreamOne(f, BULKY);
    StreamAppend(f, [MESSAGE], [BULKY]);
    assert [MESSAGE] + [BULKY] == [MESSAGE, BULKY] && [MESSAGE, BULKY][..1] == [MESSAGE];
  }

  /** A file with a payload that exceeds the limit by two bytes. */
  ghost predicate Oversized<O>(f: Format<O>, z: Zlib, header: Header, ps: seq<Packet>, os: seq<O>, data: bytes) {
    && IsFile(f, z, PAYLOAD_CAP, ps, os) && |ps| == 1 && |ps[0].payload| == MAX_CONTAINER_BUFFER + 2
    && EncodedSize(header) <= |data| && data[EncodedSize(header)..] == Containers(z, ps)
  }

  /** The filler after an object is not compared with the limit. */
  method OversizedPayload(z: Zlib, header: Header) returns (r: Option<bytes>, ghost ps: seq<Packet>)
    requires EncodedSize(header) < 0x1_0000_0000
    ensures r.Some? && Oversized(ObjectFormat(), z, header, ps, [MESSAGE, BULKY], r.value)
  {
    hide ObjectFormat, Padded, Stream, EncodeFileHeader, FinalHeader, UncompressedSize, NoRestorePoint, IsRestorePoint,
         PointsAt, HoldsRestorePoints, NeverEmpty, Zeros, EncodedSize, IsFile, Payloads, Containers;
    var os := [MESSAGE, BULKY];
    JustFits();
    ObjectsAreNeverEmpty();
    ghost var at, k, n;
    r, ps, at, k, n := WriteFile(ObjectFormat(), z, header, os);
    OnePayload(ObjectFormat(), z, ps, os);
    FinalHeaderSize(header, |Containers(z, ps)|, UncompressedSize(ps), |os|, at);
  }

  lemma OnePayload<O>(f: Format<O>, z: Zlib, ps: seq<Packet>, os: seq<O>)
    requires IsFile(f, z, PAYLOAD_CAP, ps, os) && |ps| == 1
    ensures AllSmall(ps) && Encodes(f, os) && ps[0].payload == Stream(f, os)
  {
    hide Stream, Bounded;
    assert ps[1..] == [] && Payloads(ps) == ps[0].payload + [];
  }

  lemma FinalHeaderSize(h: Header, body: nat, uncompressed: nat, count: nat, restorePoint: Option<nat>)
    requires EncodedSize(h) < 0x1_0000_0000
    ensures EncodedSize(FinalHeader(h, body, uncompressed, count, restorePoint)) == EncodedSize(h)
  {
  }
}
