/** Writing a whole BLF file from memory. */
module BlfFile {
  import opened BlfHeader
  import opened BlfObjects
  import opened BlfReading
  import opened BlfStream
  import opened BlfWriter
  import opened Bytes
  import opened Wrappers

  const MAX_CONTAINER_BUFFER := 4 * 1024 * 1024

  /** The filler of the last object is not counted against the buffer limit. */
  const PAYLOAD_CAP := MAX_CONTAINER_BUFFER + 3

  ghost predicate AllRestorePoints<O>(f: Format<O>, os: seq<O>) {
    forall i :: 0 <= i < |os| ==> IsRestorePoint(f, os[i])
  }

  /** The bytes are the stream of a non-empty run of restore points that starts with object `n`. */
  ghost predicate HoldsRestorePoints<O>(f: Format<O>, p: bytes, os: seq<O>, n: nat)
    requires Encodes(f, os)
  {
    exists m :: n < m <= |os| && Encodes(f, os[n..m]) && p == Stream(f, os[n..m]) && AllRestorePoints(f, os[n..m])
  }

  /** No object is a restore point, and none makes a buffer of all those before it too long. */
  ghost predicate OnePiece<O>(f: Format<O>, os: seq<O>) {
    && NoRestorePoint(f, os) && Encodes(f, os)
    && forall i :: 0 < i < |os| ==> |Stream(f, os[..i])| + |f.encode(os[i]).value| < MAX_CONTAINER_BUFFER
  }

  lemma OnePieceAt<O>(f: Format<O>, os: seq<O>, i: nat)
    requires OnePiece(f, os) && i < |os|
    ensures !IsRestorePoint(f, os[i]) && f.encode(os[i]).Some? && os[..i][0..] == os[..i] && Encodes(f, os[..i])
    ensures i > 0 ==> |Stream(f, os[..i])| + |f.encode(os[i]).value| < MAX_CONTAINER_BUFFER
  {
    hide IsRestorePoint;
  }

  /**
   The payload holds objects `j` to `i`. If they are several, the limit is kept by the objects before the last, with
   their filler, and the bytes of the last, without its own.
   */
  ghost predicate FitsAs<O>(f: Format<O>, os: seq<O>, j: nat, i: nat, p: bytes)
    requires Encodes(f, os)
  {
    && j <= i < |os| && Encodes(f, os[j..i]) && p == Stream(f, os[j..i]) + Padded(f, os[i])
    && (j < i ==> |Stream(f, os[j..i])| + |f.encode(os[i]).value| < MAX_CONTAINER_BUFFER)
  }

  ghost predicate FitsBuffer<O>(f: Format<O>, os: seq<O>, p: bytes)
    requires Encodes(f, os)
  {
    exists j: nat, i: nat :: FitsAs(f, os, j, i, p)
  }

  ghost predicate AllFit<O>(f: Format<O>, ps: seq<Packet>, os: seq<O>)
    requires Encodes(f, os)
  {
    forall k :: 0 <= k < |ps| ==> FitsBuffer(f, os, ps[k].payload)
  }

  /**
   A payload of several objects reaches the limit exactly if the filler of its last object does, by two bytes at most.
   */
  lemma FillerReachesLimit<O>(f: Format<O>, os: seq<O>, j: nat, i: nat, p: bytes)
    requires Encodes(f, os) && FitsAs(f, os, j, i, p) && j < i
    ensures |p| == |Stream(f, os[j..i])| + |f.encode(os[i]).value| + Padding(f.base(os[i])) <= MAX_CONTAINER_BUFFER + 2
    ensures |p| >= MAX_CONTAINER_BUFFER
       <==> Padding(f.base(os[i])) >= MAX_CONTAINER_BUFFER - |Stream(f, os[j..i])| - |f.encode(os[i]).value|
  {
  }

  lemma FitsStill<O>(f: Format<O>, ps: seq<Packet>, os: seq<O>, o: O)
    requires Encodes(f, os) && Encodes(f, os + [o]) && AllFit(f, ps, os)
    ensures AllFit(f, ps, os + [o])
  {
    hide Padded, Stream;
    forall k | 0 <= k < |ps| ensures FitsBuffer(f, os + [o], ps[k].payload) {
      var j: nat, i: nat :| FitsAs(f, os, j, i, ps[k].payload);
      assert (os + [o])[j..i] == os[j..i] && (os + [o])[i] == os[i];
      assert FitsAs(f, os + [o], j, i, ps[k].payload);
    }
  }

  lemma FitsEmitted<O>(f: Format<O>, ps: seq<Packet>, p: Packet, os: seq<O>, start: nat)
    requires Encodes(f, os) && AllFit(f, ps, os) && start <= |os| && p.payload == Stream(f, os[start..]) != []
    requires start < |os| ==> FitsAs(f, os, start, |os| - 1, p.payload)
    ensures AllFit(f, ps + [p], os)
  {
    hide FitsAs;
    assert FitsAs(f, os, start, |os| - 1, (ps + [p])[|ps|].payload);
  }

  lemma FitsLast<O>(f: Format<O>, os: seq<O>, start: nat, buf: bytes, o: O)
    requires Encodes(f, os) && Encodes(f, os + [o]) && f.encode(o).Some? && start <= |os|
             && buf == Stream(f, os[start..])
    requires start == |os| || |buf| + |f.encode(o).value| < MAX_CONTAINER_BUFFER
    ensures FitsAs(f, os + [o], start, |os|, buf + Padded(f, o))
  {
    assert (os + [o])[start..|os|] == os[start..] && (os + [o])[|os|] == o;
  }

  /** The containers emitted for the first `i` objects and the buffer of those not yet emitted. */
  ghost predicate Emitted<O>(f: Format<O>, z: Zlib, compress: bool, ps: seq<Packet>, buf: bytes, os: seq<O>, start: nat)
  {
    && AllSmall(ps) && Encodes(f, os) && start <= |os|
    && Payloads(ps) == Stream(f, os[..start]) && buf == Stream(f, os[start..])
    && (forall i :: 0 <= i < |ps| ==> ps[i].compress == compress && Bounded(f, PAYLOAD_CAP, os, ps[i].payload))
    && (buf == [] || Bounded(f, PAYLOAD_CAP, os, buf))
    && AllFit(f, ps, os) && (start < |os| ==> FitsAs(f, os, start, |os| - 1, buf))
  }

  /** Where the first restore point is, and that its container holds restore points only. */
  ghost predicate OffsetIs<O>(f: Format<O>, z: Zlib, headerSize: nat, ps: seq<Packet>, buf: bytes, os: seq<O>,
                              start: nat, offset: Option<nat>, writing: bool, k: nat, n: nat)
    requires AllSmall(ps) && Encodes(f, os)
  {
    match offset
    case None => NoRestorePoint(f, os) && !writing
    case Some(at) =>
      && PointsAt(f, z, headerSize, ps, buf, os, at, k, n)
      && (k == |ps| ==> start == n && writing)
      && (k < |ps| ==> HoldsRestorePoints(f, ps[k].payload, os, n))
      && (writing ==> AllRestorePoints(f, os[n..]))
  }

  /** Emitting a non-empty buffer. */
  lemma EmitBuffer<O>(f: Format<O>, z: Zlib, headerSize: nat, compress: bool, ps: seq<Packet>, buf: bytes, os: seq<O>,
                      start: nat, offset: Option<nat>, writing: bool, k: nat, n: nat)
    requires Emitted(f, z, compress, ps, buf, os, start) && buf != [] && |buf| < 0x1_0000_0000
    requires OffsetIs(f, z, headerSize, ps, buf, os, start, offset, writing, k, n)
    ensures var ps' := ps + [Packet(buf, compress)];
            && Emitted(f, z, compress, ps', [], os, |os|)
            && OffsetIs(f, z, headerSize, ps', [], os, |os|, offset, writing, k, n)
            && (offset.Some? ==> k < |ps'|)
            && Containers(z, ps') == Containers(z, ps) + EncodeContainer(z, buf, compress).value
            && UncompressedSize(ps') == UncompressedSize(ps) + LOG_CONTAINER_SIZE + |buf|
  {
    hide Containers, EncodeContainer, IsRestorePoint, Padded, Bounded, Payloads, NoRestorePoint, UncompressedSize,
         Emitted, Stream;
    var p := Packet(buf, compress);
    EmittedParts(f, z, compress, ps, buf, os, start);
    EmitPacket(f, z, compress, ps, buf, os, start);
    EmittedParts(f, z, compress, ps + [p], [], os, |os|);
    if offset.Some? {
      EmitOffset(f, z, headerSize, ps, p, os, start, offset.value, writing, k, n);
    }
  }

  lemma EmitPacket<O>(f: Format<O>, z: Zlib, compress: bool, ps: seq<Packet>, buf: bytes, os: seq<O>, start: nat)
    requires Emitted(f, z, compress, ps, buf, os, start) && buf != [] && |buf| < 0x1_0000_0000
    ensures var ps' := ps + [Packet(buf, compress)];
            && Emitted(f, z, compress, ps', [], os, |os|)
            && Containers(z, ps') == Containers(z, ps) + EncodeContainer(z, buf, compress).value
            && UncompressedSize(ps') == UncompressedSize(ps) + LOG_CONTAINER_SIZE + |buf|
  {
    hide Containers, EncodeContainer, IsRestorePoint, Padded, Bounded, Payloads, UncompressedSize, FitsAs;
    FitsEmitted(f, ps, Packet(buf, compress), os, start);
    PacketsSnoc(z, ps, Packet(buf, compress));
    assert os[..|os|] == os == os[..start] + os[start..] && os[|os|..] == [];
    StreamAppend(f, os[..start], os[start..]);
  }

  lemma EmitOffset<O>(f: Format<O>, z: Zlib, headerSize: nat, ps: seq<Packet>, p: Packet, os: seq<O>, start: nat,
                      at: nat, writing: bool, k: nat, n: nat)
    requires AllSmall(ps) && AllSmall(ps + [p]) && Encodes(f, os) && start <= |os|
             && p.payload == Stream(f, os[start..])
    requires OffsetIs(f, z, headerSize, ps, p.payload, os, start, Some(at), writing, k, n)
    ensures k < |ps + [p]| && OffsetIs(f, z, headerSize, ps + [p], [], os, |os|, Some(at), writing, k, n)
  {
    hide Stream, IsRestorePoint, Padded, Containers;
    PointsAtFlush(f, z, headerSize, ps, p, os, at, k, n);
    if k == |ps| {
      assert os[n..|os|] == os[n..];
    }
  }

  /** Appending an object to the buffer. */
  lemma AppendObject<O>(f: Format<O>, z: Zlib, headerSize: nat, compress: bool, ps: seq<Packet>, buf: bytes, os: seq<O>,
                        start: nat, offset: Option<nat>, writing: bool, k: nat, n: nat, o: O)
    requires Emitted(f, z, compress, ps, buf, os, start) && f.encode(o).Some?
    requires start == |os| || |buf| + |f.encode(o).value| < MAX_CONTAINER_BUFFER
    requires OffsetIs(f, z, headerSize, ps, buf, os, start, offset, writing, k, n)
    requires IsRestorePoint(f, o) ==> offset.Some?
    requires writing ==> IsRestorePoint(f, o)
    ensures Emitted(f, z, compress, ps, buf + Padded(f, o), os + [o], start)
    ensures OffsetIs(f, z, headerSize, ps, buf + Padded(f, o), os + [o], start, offset, writing, k, n)
  {
    AppendEmitted(f, z, compress, ps, buf, os, start, o);
    AppendOffset(f, z, headerSize, ps, buf, os, start, offset, writing, k, n, o);
  }

  lemma AppendEmitted<O>(f: Format<O>, z: Zlib, compress: bool, ps: seq<Packet>, buf: bytes, os: seq<O>, start: nat,
                         o: O)
    requires Emitted(f, z, compress, ps, buf, os, start) && f.encode(o).Some?
    requires start == |os| || |buf| + |f.encode(o).value| < MAX_CONTAINER_BUFFER
    ensures Encodes(f, os + [o]) && Emitted(f, z, compress, ps, buf + Padded(f, o), os + [o], start)
  {
    hide IsRestorePoint, Padded, Bounded, Payloads, AllFit, FitsAs;
    var all := os + [o];
    assert Encodes(f, all);
    FitsStill(f, ps, os, o);
    FitsLast(f, os, start, buf, o);
    PaddedAtMost(f, o);
    if start == |os| {
      assert os[start..] == [];
    }
    StillBounded(f, ps, buf, os, o, PAYLOAD_CAP, PAYLOAD_CAP, compress);
    assert all[..start] == os[..start] && all[start..] == os[start..] + [o];
    StreamOne(f, o);
    StreamAppend(f, os[start..], [o]);
  }

  lemma PaddedAtMost<O>(f: Format<O>, o: O)
    requires f.encode(o).Some?
    ensures |Padded(f, o)| <= |f.encode(o).value| + 3
  {
  }

  lemma AppendOffset<O>(f: Format<O>, z: Zlib, headerSize: nat, ps: seq<Packet>, buf: bytes, os: seq<O>, start: nat,
                        offset: Option<nat>, writing: bool, k: nat, n: nat, o: O)
    requires AllSmall(ps) && Encodes(f, os) && f.encode(o).Some? && Encodes(f, os + [o])
    requires OffsetIs(f, z, headerSize, ps, buf, os, start, offset, writing, k, n)
    requires IsRestorePoint(f, o) ==> offset.Some?
    requires writing ==> IsRestorePoint(f, o)
    ensures OffsetIs(f, z, headerSize, ps, buf + Padded(f, o), os + [o], start, offset, writing, k, n)
  {
    hide Containers, IsRestorePoint, Padded, Payloads, HoldsRestorePoints;
    var all := os + [o];
    NoRestorePointAppend(f, os, o);
    if offset.Some? {
      PointsAtAppend(f, z, headerSize, ps, buf, os, o, offset.value, k, n);
      assert all[n..] == os[n..] + [o];
      if k < |ps| {
        HeldStays(f, ps[k].payload, os, n, o);
      }
    }
  }

  lemma HeldStays<O>(f: Format<O>, p: bytes, os: seq<O>, n: nat, o: O)
    requires Encodes(f, os) && f.encode(o).Some? && Encodes(f, os + [o]) && HoldsRestorePoints(f, p, os, n)
    ensures HoldsRestorePoints(f, p, os + [o], n)
  {
    var m :| n < m <= |os| && Encodes(f, os[n..m]) && p == Stream(f, os[n..m]) && AllRestorePoints(f, os[n..m]);
    assert (os + [o])[n..m] == os[n..m];
  }

  /** Appending the first restore point right after a container boundary. */
  lemma AppendFirst<O>(f: Format<O>, z: Zlib, headerSize: nat, compress: bool, ps: seq<Packet>, os: seq<O>, o: O,
                       at: nat)
    requires Emitted(f, z, compress, ps, [], os, |os|) && f.encode(o).Some? && IsRestorePoint(f, o)
    requires NoRestorePoint(f, os) && at == headerSize + |Containers(z, ps)|
    ensures Emitted(f, z, compress, ps, [] + Padded(f, o), os + [o], |os|)
    ensures OffsetIs(f, z, headerSize, ps, [] + Padded(f, o), os + [o], |os|, Some(at), true, |ps|, |os|)
  {
    hide Containers, IsRestorePoint, Padded, Bounded, Payloads, PointsAt, AllFit, FitsAs;
    var all := os + [o];
    assert Encodes(f, all);
    FitsStill(f, ps, os, o);
    FitsLast(f, os, |os|, [], o);
    StillBounded(f, ps, [], os, o, PAYLOAD_CAP, PAYLOAD_CAP, compress);
    assert all[..|os|] == os[..|os|] == os && all[|os|..] == [o];
    StreamOne(f, o);
    assert [] + Padded(f, o) == Padded(f, o);
    PointsAtFirst(f, z, headerSize, ps, [], os, o, at);
  }

  /** The buffer is empty exactly when no object is waiting. */
  lemma BufferEmpty<O(!new)>(f: Format<O>, os: seq<O>, start: nat)
    requires NeverEmpty(f) && Encodes(f, os) && start <= |os|
    ensures Encodes(f, os[start..]) && (Stream(f, os[start..]) == [] <==> start == |os|)
  {
    if start < |os| {
      assert f.encode(os[start]).value != [];
      assert os[start..][0] == os[start];
    }
  }

  lemma StartEmpty<O>(f: Format<O>, z: Zlib, headerSize: nat, compress: bool)
    ensures Emitted(f, z, compress, [], [], [], 0)
    ensures OffsetIs(f, z, headerSize, [], [], [], 0, None, false, 0, 0)
    ensures Containers(z, []) == [] && UncompressedSize([]) == 0
  {
  }

  /** Leaving the restore points, at a container boundary. */
  lemma StopRestorePoints<O>(f: Format<O>, z: Zlib, headerSize: nat, ps: seq<Packet>, buf: bytes, os: seq<O>,
                             start: nat, offset: Option<nat>, writing: bool, k: nat, n: nat)
    requires AllSmall(ps) && Encodes(f, os) && OffsetIs(f, z, headerSize, ps, buf, os, start, offset, writing, k, n)
    requires offset.Some? ==> k < |ps|
    ensures OffsetIs(f, z, headerSize, ps, buf, os, start, offset, false, k, n)
  {
  }

  /** Appends the container of the buffer and returns what it counts as; nothing when it exceeds 32-bit sizes. */
  method FlushContainer(z: Zlib, out: bytes, buf: bytes, compress: bool) returns (r: Option<(bytes, nat)>)
    ensures r.Some? <==> |buf| < 0x1_0000_0000
    ensures r.Some? ==> r.value == (out + EncodeContainer(z, buf, compress).value, LOG_CONTAINER_SIZE + |buf|)
  {
    SmallEncodes(z, buf, compress);
    var container := EncodeContainer(z, buf, compress);
    if container.None? {
      return None;
    }
    r := Some((out + container.value, LOG_CONTAINER_SIZE + |buf|));
  }

  /**
   Serializes the objects. The result holds exactly their stream, the header describes the
   file, and the first restore point starts a container that holds restore points only.
   */
  method WriteFile<O(!new)>(f: Format<O>, z: Zlib, header: Header, os: seq<O>)
    returns (r: Option<bytes>, ghost ps: seq<Packet>, ghost at: Option<nat>, ghost k: nat, ghost n: nat)
    requires NeverEmpty(f)
    ensures r.Some? ==>
              && IsFile(f, z, PAYLOAD_CAP, ps, os) && AllFit(f, ps, os) && EncodedSize(header) < 0x1_0000_0000
              && (forall i :: 0 <= i < |ps| ==> ps[i].compress == (header.compression > 0))
              && r.value == EncodeFileHeader(FinalHeader(header, |Containers(z, ps)|, UncompressedSize(ps), |os|, at))
                            + Containers(z, ps)
              && (at.None? ==> NoRestorePoint(f, os))
              && (at.Some? ==> PointsAt(f, z, EncodedSize(header), ps, [], os, at.value, k, n)
                               && k < |ps| && HoldsRestorePoints(f, ps[k].payload, os, n))
    ensures && EncodedSize(header) < 0x1_0000_0000 && Encodes(f, os)
            && (forall i :: 0 <= i < |os| ==> |Padded(f, os[i])| < 0x1_0000_0000)
        ==> r.Some?
    ensures r.Some? && os != [] && OnePiece(f, os) ==> |ps| == 1
  {
    hide OnePiece, AllFit, Emitted, OffsetIs, IsRestorePoint, Padded, NeverEmpty, Containers, EncodeContainer,
         EncodeFileHeader, UncompressedSize, Encodes, Stream, AllSmall, NoRestorePoint;
    var headerSize := EncodedSize(header);
    var compress := header.compression > 0;
    ps, at, k, n := [], None, 0, 0;
    if headerSize >= 0x1_0000_0000 {
      return None, ps, at, k, n;
    }
    var body, total, buf := [], 0, [];
    var writing := false;
    var restorePoint: Option<nat> := None;
    ghost var start: nat := 0;
    StartEmpty(f, z, headerSize, compress);
    var i := 0;
    assert os[..0] == [];
    while i < |os|
      invariant 0 <= i <= |os|
      invariant Emitted(f, z, compress, ps, buf, os[..i], start)
      invariant AllSmall(ps) && Encodes(f, os[..i])
      invariant OffsetIs(f, z, headerSize, ps, buf, os[..i], start, restorePoint, writing, k, n)
      invariant body == Containers(z, ps) && total == UncompressedSize(ps)
      invariant if i == 0 then ps == [] && buf == [] else buf != []
      invariant OnePiece(f, os) ==> ps == [] && start == 0 && !writing
    {
      if OnePiece(f, os) {
        OnePieceAt(f, os, i);
      }
      var o := os[i];
      ghost var done := os[..i];
      EmittedParts(f, z, compress, ps, buf, done, start);
      BufferEmpty(f, done, start);
      var isRestorePoint := IsRestorePoint(f, o);
      var first := isRestorePoint && restorePoint.None?;
      if first || (!isRestorePoint && writing) {
        if buf != [] {
          var flushed := FlushContainer(z, body, buf, compress);
          if flushed.None? {
            FlushFails(f, z, compress, ps, buf, os, i, start);
            return None, ps, at, k, n;
          }
          EmitBuffer(f, z, headerSize, compress, ps, buf, done, start, restorePoint, writing, k, n);
          body, total := flushed.value.0, total + flushed.value.1;
          ps, buf, start := ps + [Packet(buf, compress)], [], |done|;
        }
        AtBoundary(f, z, headerSize, ps, buf, done, start, restorePoint, writing, k, n);
        if first {
          restorePoint := Some(headerSize + |body|);
        } else {
          StopRestorePoints(f, z, headerSize, ps, buf, done, start, restorePoint, writing, k, n);
        }
        writing := first;
      }
      if f.encode(o).None? {
        NotEncoded(f, os, i);
        return None, ps, at, k, n;
      }
      var bytes := f.encode(o).value;
      if buf != [] && |buf| + |bytes| >= MAX_CONTAINER_BUFFER {
        var flushed := FlushContainer(z, body, buf, compress);
        if flushed.None? {
          FlushFails(f, z, compress, ps, buf, os, i, start);
          return None, ps, at, k, n;
        }
        EmitBuffer(f, z, headerSize, compress, ps, buf, done, start, restorePoint, writing, k, n);
        body, total := flushed.value.0, total + flushed.value.1;
        ps, buf, start := ps + [Packet(buf, compress)], [], |done|;
      }
      PaddedLength(f, o);
      if first {
        AppendFirst(f, z, headerSize, compress, ps, done, o, restorePoint.value);
        k, n := |ps|, i;
      } else {
        AppendObject(f, z, headerSize, compress, ps, buf, done, start, restorePoint, writing, k, n, o);
      }
      buf := buf + Padded(f, o);
      assert os[..i + 1] == done + [o];
      EmittedParts(f, z, compress, ps, buf, done + [o], start);
      i := i + 1;
    }
    assert os[..i] == os;
    if os == [] {
      EmittedParts(f, z, compress, ps, buf, os, start);
      EmptyFile(f, z, headerSize, ps, buf, os, start, restorePoint, writing, k, n);
      var h := FinalHeader(header, 0, 0, 0, None);
      r := Some(EncodeFileHeader(h));
      assert EncodeFileHeader(h) + [] == EncodeFileHeader(h);
      return;
    }
    var flushed := FlushContainer(z, body, buf, compress);
    if flushed.None? {
      FlushFails(f, z, compress, ps, buf, os, i, start);
      return None, ps, at, k, n;
    }
    EmitBuffer(f, z, headerSize, compress, ps, buf, os, start, restorePoint, writing, k, n);
    body, total := flushed.value.0, total + flushed.value.1;
    ps, buf, start := ps + [Packet(buf, compress)], [], |os|;
    EmittedAll(f, z, headerSize, compress, ps, os, restorePoint, writing, k, n);
    at := restorePoint;
    var h := FinalHeader(header, |body|, total, |os|, restorePoint);
    r := Some(EncodeFileHeader(h) + body);
  }

  lemma EmittedParts<O>(f: Format<O>, z: Zlib, compress: bool, ps: seq<Packet>, buf: bytes, os: seq<O>, start: nat)
    requires Emitted(f, z, compress, ps, buf, os, start)
    ensures AllSmall(ps) && Encodes(f, os) && start <= |os| && Encodes(f, os[start..]) && buf == Stream(f, os[start..])
  {
  }

  lemma FlushFails<O>(f: Format<O>, z: Zlib, compress: bool, ps: seq<Packet>, buf: bytes, os: seq<O>, i: nat,
                      start: nat)
    requires i <= |os| && Emitted(f, z, compress, ps, buf, os[..i], start) && |buf| >= 0x1_0000_0000
    ensures Encodes(f, os) ==> exists j :: 0 <= j < |os| && |Padded(f, os[j])| >= 0x1_0000_0000
  {
    hide Padded;
    var j :| 0 <= j < i && buf == Padded(f, os[..i][j]);
    assert os[..i][j] == os[j];
  }

  lemma NotEncoded<O>(f: Format<O>, os: seq<O>, i: nat)
    requires i < |os| && f.encode(os[i]).None?
    ensures !Encodes(f, os)
  {
  }

  lemma PaddedLength<O(!new)>(f: Format<O>, o: O)
    requires NeverEmpty(f) && f.encode(o).Some?
    ensures 0 < |Padded(f, o)| <= |f.encode(o).value| + 3
  {
  }

  /** With nothing buffered, the first restore point is in an emitted container. */
  lemma AtBoundary<O>(f: Format<O>, z: Zlib, headerSize: nat, ps: seq<Packet>, buf: bytes, os: seq<O>, start: nat,
                      offset: Option<nat>, writing: bool, k: nat, n: nat)
    requires AllSmall(ps) && Encodes(f, os) && OffsetIs(f, z, headerSize, ps, buf, os, start, offset, writing, k, n)
    requires start == |os|
    ensures offset.Some? ==> k < |ps|
    ensures offset.None? ==> NoRestorePoint(f, os)
  {
  }

  lemma EmptyFile<O>(f: Format<O>, z: Zlib, headerSize: nat, ps: seq<Packet>, buf: bytes, os: seq<O>, start: nat,
                     offset: Option<nat>, writing: bool, k: nat, n: nat)
    requires AllSmall(ps) && Encodes(f, os) && OffsetIs(f, z, headerSize, ps, buf, os, start, offset, writing, k, n)
    requires os == []
    ensures NoRestorePoint(f, os) && offset.None? && IsFile(f, z, PAYLOAD_CAP, [], os) && AllFit(f, [], os)
    ensures Containers(z, []) == [] && UncompressedSize([]) == 0
  {
  }

  lemma EmittedAll<O>(f: Format<O>, z: Zlib, headerSize: nat, compress: bool, ps: seq<Packet>, os: seq<O>,
                      offset: Option<nat>, writing: bool, k: nat, n: nat)
    requires Emitted(f, z, compress, ps, [], os, |os|)
    requires OffsetIs(f, z, headerSize, ps, [], os, |os|, offset, writing, k, n)
    requires offset.Some? ==> k < |ps|
    ensures IsFile(f, z, PAYLOAD_CAP, ps, os) && AllFit(f, ps, os) && forall i :: 0 <= i < |ps| ==>
              ps[i].compress == compress
    ensures offset.None? ==> NoRestorePoint(f, os)
    ensures offset.Some? ==> PointsAt(f, z, headerSize, ps, [], os, offset.value, k, n)
                             && HoldsRestorePoints(f, ps[k].payload, os, n)
  {
    hide PointsAt, HoldsRestorePoints, Bounded;
    assert os[..|os|] == os;
  }
}
