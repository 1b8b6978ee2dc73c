/** The incremental BLF writer. */
module BlfWriter {
  import opened BlfHeader
  import opened BlfObjects
  import opened BlfReading
  import opened BlfStream
  import opened Bytes
  import opened Wrappers

  const DEFAULT_CONTAINER_SIZE := 4 * 1024 * 1024

  /** A seekable byte stream. */
  class Sink {
    var data: bytes
    var pos: nat

    ghost predicate Valid()
      reads this
    {
      pos <= |data|
    }

    constructor (data: bytes, pos: nat)
      requires pos <= |data|
      ensures Valid() && this.data == data && this.pos == pos
    {
      this.data, this.pos := data, pos;
    }

    /** Overwrites and extends the data at the current position. */
    method WriteAll(s: bytes)
      requires Valid()
      modifies this
      ensures Valid() && pos == old(pos) + |s|
      ensures data == Written(old(data), old(pos), s)
    {
      data := Written(data, pos, s);
      pos := pos + |s|;
    }

    method Seek(to: nat)
      requires to <= |data|
      modifies this`pos
      ensures Valid() && pos == to
    {
      pos := to;
    }
  }

  /** The data after `s` was written at position `at`. */
  function Written(data: bytes, at: nat, s: bytes): (r: bytes)
    requires at <= |data|
    ensures at + |s| <= |r|
  {
    data[..at] + s + if at + |s| < |data| then data[at + |s|..] else []
  }

  lemma WrittenTwice(data: bytes, at: nat, s: bytes, t: bytes)
    requires at <= |data|
    ensures Written(Written(data, at, s), at + |s|, t) == Written(data, at, s + t)
  {
  }

  /** Writing over the start of written bytes leaves the rest of them alone. */
  lemma Overwritten(data: bytes, at: nat, s: bytes, t: bytes, s': bytes)
    requires at <= |data| && |s'| == |s|
    ensures Written(Written(data, at, s + t), at, s') == Written(data, at, s' + t)
  {
    var d := Written(data, at, s + t);
    assert d[at + |s|..] == t + if at + |s + t| < |data| then data[at + |s + t|..] else [];
  }

  // ----- Accounting -----

  /** What containers count as in the uncompressed file size. */
  function UncompressedSize(ps: seq<Packet>): nat {
    if ps == [] then 0 else LOG_CONTAINER_SIZE + |ps[0].payload| + UncompressedSize(ps[1..])
  }

  lemma {:induction false} PacketsSnoc(z: Zlib, ps: seq<Packet>, p: Packet)
    requires AllSmall(ps) && |p.payload| < 0x1_0000_0000
    ensures AllSmall(ps + [p])
    ensures Containers(z, ps + [p]) == Containers(z, ps) + EncodeContainer(z, p.payload, p.compress).value
    ensures Payloads(ps + [p]) == Payloads(ps) + p.payload
    ensures UncompressedSize(ps + [p]) == UncompressedSize(ps) + LOG_CONTAINER_SIZE + |p.payload|
  {
    hide EncodeContainer;
    if ps == [] {
      assert ps + [p] == [p] && [p][1..] == [];
    } else {
      PacketsSnoc(z, ps[1..], p);
      assert (ps + [p])[1..] == ps[1..] + [p];
    }
  }

  function Saturate32(n: nat): u32 {
    if n < 0x1_0000_0000 then n else 0xFFFF_FFFF
  }

  function Wrap64(n: nat): u64 {
    n % 0x1_0000_0000_0000_0000
  }

  predicate IsRestorePoint<O>(f: Format<O>, o: O) {
    f.base(o).objectType == RESTORE_POINT
  }

  ghost predicate NoRestorePoint<O>(f: Format<O>, os: seq<O>) {
    forall i :: 0 <= i < |os| ==> !IsRestorePoint(f, os[i])
  }

  /** The payload is below the container size or holds a single one of the objects. */
  ghost predicate Bounded<O>(f: Format<O>, cap: nat, os: seq<O>, p: bytes)
    requires Encodes(f, os)
  {
    |p| < cap || exists i :: 0 <= i < |os| && p == Padded(f, os[i])
  }

  /** The header a file is begun with. */
  function Placeholder(h: Header): Header
    requires EncodedSize(h) < 0x1_0000_0000
  {
    h.(headerSize := EncodedSize(h), fileSize := EncodedSize(h), uncompressedFileSize := EncodedSize(h),
       objectCount := 0)
  }

  /** The header a writer ends with. */
  function FinalHeader(h: Header, body: nat, uncompressed: nat, count: nat, restorePoint: Option<nat>): Header
    requires EncodedSize(h) < 0x1_0000_0000
  {
    h.(headerSize := EncodedSize(h),
       fileSize := Wrap64(EncodedSize(h) + body),
       uncompressedFileSize := Wrap64(EncodedSize(h) + uncompressed),
       objectCount := Saturate32(count),
       restorePointOffset := if h.restorePointOffset.Some? then Some(Wrap64(restorePoint.GetOr(0))) else None)
  }

  /**
   `k` containers precede the offset and hold the first `n` objects, none of which is a restore point; what follows, if
   anything does, starts with the next object.
   */
  ghost predicate Marked<O>(f: Format<O>, z: Zlib, headerSize: nat, ps: seq<Packet>, buffer: bytes, os: seq<O>,
                            offset: nat, k: nat, n: nat)
    requires AllSmall(ps) && Encodes(f, os)
  {
    && k <= |ps| && n <= |os|
    && offset == headerSize + |Containers(z, ps[..k])|
    && Payloads(ps[..k]) == Stream(f, os[..n])
    && NoRestorePoint(f, os[..n])
    && if n == |os| then k == |ps| && buffer == [] else Padded(f, os[n]) <= (if k < |ps| then ps[k].payload else buffer)
  }

  /** The object at the offset is the first restore point. */
  ghost predicate PointsAt<O>(f: Format<O>, z: Zlib, headerSize: nat, ps: seq<Packet>, buffer: bytes, os: seq<O>,
                              offset: nat, k: nat, n: nat)
    requires AllSmall(ps) && Encodes(f, os)
  {
    Marked(f, z, headerSize, ps, buffer, os, offset, k, n) && n < |os| && IsRestorePoint(f, os[n])
  }

  class BlfWriter<O(!new)> {
    const f: Format<O>
    const z: Zlib
    const inner: Sink
    const header: Header
    const headerOffset: nat
    var buffer: bytes
    var containerSize: nat
    var uncompressedSize: nat
    var objectCount: nat
    var restorePointOffset: Option<nat>

    /** The stream's data before the file was begun. */
    ghost const original: bytes
    /** The placeholder header. */
    ghost const placeholder: bytes
    /** The objects accepted so far and the containers emitted so far. */
    ghost var objects: seq<O>
    ghost var packets: seq<Packet>
    /** The largest container size in force at any write. */
    ghost var cap: nat
    /** How many containers and objects precede the offset. */
    ghost var containersBefore: nat
    ghost var objectsBefore: nat

    predicate Compressed() {
      header.compression > 0
    }

    ghost predicate Valid()
      reads this, inner
    {
      SinkValid() && StreamValid() && SizesValid() && OffsetValid()
    }

    /** The stream holds the placeholder header and the emitted containers. */
    ghost predicate SinkValid()
      reads this`packets, inner
    {
      && inner.Valid()
      && headerOffset <= |original| && |placeholder| == EncodedSize(header) < 0x1_0000_0000
      && AllSmall(packets)
      && inner.pos == headerOffset + |placeholder| + |Containers(z, packets)|
      && inner.data == Written(original, headerOffset, placeholder + Containers(z, packets))
    }

    /** The emitted payloads and the buffer spell the objects; the counters count them. */
    ghost predicate StreamValid()
      reads this`packets, this`buffer, this`objects, this`objectCount, this`uncompressedSize
    {
      && Encodes(f, objects)
      && Payloads(packets) + buffer == Stream(f, objects)
      && uncompressedSize == EncodedSize(header) + UncompressedSize(packets)
      && objectCount == |objects|
    }

    ghost predicate SizesValid()
      reads this`packets, this`buffer, this`objects, this`cap, this`containerSize
      requires Encodes(f, objects)
    {
      && (forall i :: 0 <= i < |packets| ==>
            packets[i].compress == Compressed() && Bounded(f, cap, objects, packets[i].payload))
      && (buffer == [] || Bounded(f, cap, objects, buffer))
      && 0 < containerSize
    }

    ghost predicate OffsetValid()
      reads this`packets, this`buffer, this`objects, this`restorePointOffset, this`containersBefore, this`objectsBefore
      requires AllSmall(packets) && Encodes(f, objects)
    {
      match restorePointOffset
      case None => NoRestorePoint(f, objects)
      case Some(offset) =>
        Marked(f, z, EncodedSize(header), packets, buffer, objects, offset, containersBefore, objectsBefore)
    }

    constructor (f: Format<O>, z: Zlib, inner: Sink, header: Header, ghost original: bytes, ghost placeholder: bytes)
      requires inner.Valid() && |placeholder| == EncodedSize(header) < 0x1_0000_0000
      requires |placeholder| <= inner.pos && inner.pos - |placeholder| <= |original|
      requires inner.data == Written(original, inner.pos - |placeholder|, placeholder)
      ensures Valid() && this.f == f && this.z == z && this.inner == inner && this.header == header
      ensures objects == [] && packets == [] && buffer == [] && restorePointOffset.None? && cap == 0
              && containerSize == DEFAULT_CONTAINER_SIZE
      ensures this.original == original && headerOffset == inner.pos - |placeholder|
    {
      this.f, this.z, this.inner, this.header := f, z, inner, header;
      this.headerOffset := inner.pos - EncodedSize(header);
      this.original, this.placeholder := original, placeholder;
      buffer, containerSize := [], DEFAULT_CONTAINER_SIZE;
      uncompressedSize, objectCount, restorePointOffset := EncodedSize(header), 0, None;
      objects, packets, cap := [], [], 0;
      new;
      assert placeholder + [] == placeholder;
    }

    /** Writes a placeholder header at the current position; fails when it exceeds 32-bit sizes. */
    static method Create(f: Format<O>, z: Zlib, inner: Sink, header: Header) returns (r: Option<BlfWriter<O>>)
      requires inner.Valid()
      modifies inner
      ensures r.Some? <==> EncodedSize(header) < 0x1_0000_0000
      ensures r.Some? ==>
                && fresh(r.value) && r.value.Valid() && r.value.inner == inner
                && r.value.f == f && r.value.z == z
                && r.value.original == old(inner.data) && r.value.headerOffset == old(inner.pos)
                && r.value.objects == [] && r.value.buffer == [] && r.value.restorePointOffset.None?
                && r.value.header == Placeholder(header) && r.value.cap == 0
                && r.value.containerSize == DEFAULT_CONTAINER_SIZE
    {
      var headerSize := EncodedSize(header);
      if headerSize >= 0x1_0000_0000 {
        return None;
      }
      var h := Placeholder(header);
      ghost var data := inner.data;
      inner.WriteAll(EncodeFileHeader(h));
      var w := new BlfWriter(f, z, inner, h, data, EncodeFileHeader(h));
      r := Some(w);
    }

    /** Sets the size at which containers are flushed; zero is refused. */
    method SetContainerSize(n: nat) returns (ok: bool)
      requires Valid()
      modifies this`containerSize
      ensures Valid() && ok == (n > 0)
      ensures containerSize == if ok then n else old(containerSize)
    {
      if n == 0 {
        return false;
      }
      containerSize := n;
      ok := true;
    }

    /** Emits the buffered bytes as one container. */
    method Flush() returns (ok: bool)
      requires Valid()
      modifies this`buffer, this`uncompressedSize, this`packets, inner
      ensures Valid()
      ensures ok <==> |old(buffer)| < 0x1_0000_0000
      ensures ok ==>
                && buffer == []
                && packets == old(packets) + if old(buffer) == [] then [] else [Packet(old(buffer), Compressed())]
      ensures !ok ==> buffer == old(buffer) && packets == old(packets) && inner.data == old(inner.data)
    {
      hide EncodeContainer, Stream, IsRestorePoint;
      if buffer == [] {
        return true;
      }
      var container := EncodeContainer(z, buffer, Compressed());
      SmallEncodes(z, buffer, Compressed());
      if container.None? {
        return false;
      }
      ghost var p := Packet(buffer, Compressed());
      PacketsSnoc(z, packets, p);
      MarkedFlush(f, z, EncodedSize(header), packets, p, objects, restorePointOffset.GetOr(0), containersBefore,
                  objectsBefore);
      inner.WriteAll(container.value);
      WrittenTwice(original, headerOffset, placeholder + Containers(z, packets), container.value);
      Assoc(placeholder, Containers(z, packets), container.value);
      uncompressedSize := uncompressedSize + LOG_CONTAINER_SIZE + |buffer|;
      packets := packets + [p];
      buffer := [];
      ok := true;
    }

    /** Appends the bytes of an object to the buffer. */
    method AppendPadded(o: O)
      requires Valid() && f.encode(o).Some?
      requires buffer == [] || |buffer| + |Padded(f, o)| < containerSize
      requires restorePointOffset.Some? || !IsRestorePoint(f, o)
      modifies this`buffer, this`objectCount, this`objects, this`cap
      ensures Valid() && objects == old(objects) + [o]
      ensures buffer == old(buffer) + Padded(f, o) && cap == Max(old(cap), containerSize)
    {
      hide IsRestorePoint, Padded, Written, Containers, Marked, NoRestorePoint, Bounded, Stream, Encodes, Payloads,
           UncompressedSize, AllSmall;
      AppendStream(f, packets, buffer, objects, o);
      StillBounded(f, packets, buffer, objects, o, cap, containerSize, Compressed());
      if restorePointOffset.Some? {
        MarkedAppend(f, z, EncodedSize(header), packets, buffer, objects, o, restorePointOffset.value, containersBefore,
                     objectsBefore);
      }
      NoRestorePointAppend(f, objects, o);
      cap := Max(cap, containerSize);
      buffer := buffer + Padded(f, o);
      objects := objects + [o];
      objectCount := objectCount + 1;
    }

    /** Starts a container for the first restore point and keeps its offset. */
    method MarkRestorePoint() returns (ok: bool)
      requires Valid() && restorePointOffset.None?
      modifies this`buffer, this`uncompressedSize, this`packets, this`restorePointOffset, this`containersBefore,
               this`objectsBefore, inner
      ensures Valid() && ok == (|old(buffer)| < 0x1_0000_0000)
      ensures if ok then buffer == [] && restorePointOffset.Some? && objectsBefore == |objects|
              else restorePointOffset.None? && objectsBefore == old(objectsBefore)
    {
      hide NoRestorePoint, Containers, Written, Stream, Payloads;
      var flushed := Flush();
      if !flushed {
        return false;
      }
      assert Payloads(packets) + [] == Payloads(packets);
      MarkedHere(f, z, EncodedSize(header), packets, objects);
      restorePointOffset := Some(inner.pos - headerOffset);
      containersBefore, objectsBefore := |packets|, |objects|;
      ok := true;
    }

    /**
     Serializes one object. The first restore point starts a container of its own whose
     offset is kept; if that object cannot be written, the offset is kept all the same.
     */
    method WriteObject(o: O) returns (ok: bool)
      requires Valid()
      modifies this`buffer, this`uncompressedSize, this`objectCount, this`restorePointOffset, this`objects,
               this`packets, this`cap, this`containersBefore, this`objectsBefore, inner
      ensures Valid()
      ensures objects == old(objects) + if ok then [o] else []
      ensures f.encode(o).None? ==> !ok
      ensures f.encode(o).Some? && |old(buffer)| < 0x1_0000_0000 ==> ok
      ensures cap == if ok then Max(old(cap), containerSize) else old(cap)
      ensures if old(restorePointOffset).None? && IsRestorePoint(f, o) && |old(buffer)| < 0x1_0000_0000
              then restorePointOffset.Some? && objectsBefore == |old(objects)|
              else restorePointOffset == old(restorePointOffset) && objectsBefore == old(objectsBefore)
      ensures old(buffer) == [] && f.encode(o).None? ==> buffer == []
    {
      hide IsRestorePoint, SinkValid, StreamValid, SizesValid, OffsetValid, Padded;
      if IsRestorePoint(f, o) && restorePointOffset.None? {
        var marked := MarkRestorePoint();
        if !marked {
          return false;
        }
      }
      if f.encode(o).None? {
        return false;
      }
      var padded := Padded(f, o);
      if buffer != [] && |buffer| + |padded| >= containerSize {
        var flushed := Flush();
        if !flushed {
          return false;
        }
      }
      AppendPadded(o);
      ok := true;
    }

    /** Flushes the buffer and writes the final header over the placeholder. */
    method Finish() returns (ok: bool)
      requires Valid()
      modifies this`buffer, this`uncompressedSize, this`packets, inner
      ensures ok <==> |old(buffer)| < 0x1_0000_0000
      ensures ok ==>
                && IsFile(f, z, cap, packets, objects)
                && (forall i :: 0 <= i < |packets| ==> packets[i].compress == Compressed())
                && EncodedSize(header) < 0x1_0000_0000
                && var h := FinalHeader(header, |Containers(z, packets)|, UncompressedSize(packets), |objects|,
                                        restorePointOffset);
                   && headerOffset <= |original|
                   && inner.data == Written(original, headerOffset, EncodeFileHeader(h) + Containers(z, packets))
                   && inner.pos == headerOffset + EncodedSize(h) + |Containers(z, packets)|
      ensures ok && restorePointOffset.None? ==> NoRestorePoint(f, objects)
      ensures ok && restorePointOffset.Some? ==>
                Marked(f, z, EncodedSize(header), packets, [], objects, restorePointOffset.value, containersBefore,
                       objectsBefore)
      ensures ok && restorePointOffset.Some? && NeverEmpty(f) ==>
                ((exists k: nat, n: nat :: PointsAt(f, z, EncodedSize(header), packets, [], objects,
                                                    restorePointOffset.value, k, n))
                 <==> objectsBefore < |objects| && IsRestorePoint(f, objects[objectsBefore]))
    {
      hide EncodeContainer, Stream, Payloads, Marked, NoRestorePoint, Bounded, Containers, EncodeFileHeader, PointsAt,
           NeverEmpty, IsRestorePoint;
      var flushed := Flush();
      if !flushed {
        return false;
      }
      assert Payloads(packets) + [] == Payloads(packets);
      if restorePointOffset.Some? && NeverEmpty(f) {
        OffsetIsRight(f, z, EncodedSize(header), packets, objects, restorePointOffset.value, containersBefore,
                      objectsBefore);
      }
      var end := inner.pos;
      var h := FinalHeader(header, end - headerOffset - EncodedSize(header), uncompressedSize - EncodedSize(header),
                           objectCount, restorePointOffset);
      inner.Seek(headerOffset);
      Overwritten(original, headerOffset, placeholder, Containers(z, packets), EncodeFileHeader(h));
      inner.WriteAll(EncodeFileHeader(h));
      inner.Seek(end);
      ok := true;
    }
  }

  /** The containers hold exactly the objects, each below the cap or with a single object. */
  ghost predicate IsFile<O>(f: Format<O>, z: Zlib, cap: nat, ps: seq<Packet>, os: seq<O>) {
    && AllSmall(ps) && Encodes(f, os) && Payloads(ps) == Stream(f, os)
    && forall i :: 0 <= i < |ps| ==> Bounded(f, cap, os, ps[i].payload)
  }

  function Max(a: nat, b: nat): nat {
    if a < b then b else a
  }

  lemma AppendStream<O>(f: Format<O>, ps: seq<Packet>, buffer: bytes, os: seq<O>, o: O)
    requires Encodes(f, os) && f.encode(o).Some? && Payloads(ps) + buffer == Stream(f, os)
    ensures Encodes(f, os + [o]) && Payloads(ps) + (buffer + Padded(f, o)) == Stream(f, os + [o])
  {
    hide Padded, Stream, Payloads;
    StreamOne(f, o);
    StreamAppend(f, os, [o]);
    Assoc(Payloads(ps), buffer, Padded(f, o));
  }

  /** Appending keeps the bounds when the result stays below the container size or the buffer was empty. */
  lemma StillBounded<O>(f: Format<O>, ps: seq<Packet>, buffer: bytes, os: seq<O>, o: O, cap: nat, size: nat,
                        compress: bool)
    requires Encodes(f, os) && f.encode(o).Some? && Encodes(f, os + [o])
    requires forall i :: 0 <= i < |ps| ==> ps[i].compress == compress && Bounded(f, cap, os, ps[i].payload)
    requires buffer == [] || |buffer| + |Padded(f, o)| < size
    ensures forall i :: 0 <= i < |ps| ==>
              ps[i].compress == compress && Bounded(f, Max(cap, size), os + [o], ps[i].payload)
    ensures Bounded(f, Max(cap, size), os + [o], buffer + Padded(f, o))
  {
    hide Padded;
    var all := os + [o];
    assert all[|os|] == o && [] + Padded(f, o) == Padded(f, o);
    forall i | 0 <= i < |ps| ensures Bounded(f, Max(cap, size), all, ps[i].payload) {
      if |ps[i].payload| >= cap {
        var k :| 0 <= k < |os| && ps[i].payload == Padded(f, os[k]);
        assert all[k] == os[k];
      }
    }
  }

  lemma StreamOne<O>(f: Format<O>, o: O)
    requires f.encode(o).Some?
    ensures Encodes(f, [o]) && Stream(f, [o]) == Padded(f, o)
  {
    assert Stream(f, [o][1..]) == [];
    assert Padded(f, o) + [] == Padded(f, o);
  }

  lemma NoRestorePointAppend<O>(f: Format<O>, os: seq<O>, o: O)
    ensures NoRestorePoint(f, os + [o]) <==> NoRestorePoint(f, os) && !IsRestorePoint(f, o)
  {
    assert (os + [o])[|os|] == o;
    assert forall i :: 0 <= i < |os| ==> (os + [o])[i] == os[i];
  }

  lemma PointsAtFirst<O>(f: Format<O>, z: Zlib, headerSize: nat, ps: seq<Packet>, buffer: bytes, os: seq<O>, o: O,
                         offset: nat)
    requires AllSmall(ps) && Encodes(f, os) && f.encode(o).Some? && Encodes(f, os + [o])
    requires IsRestorePoint(f, o) && NoRestorePoint(f, os) && buffer == []
    requires Payloads(ps) == Stream(f, os) && offset == headerSize + |Containers(z, ps)|
    ensures PointsAt(f, z, headerSize, ps, buffer + Padded(f, o), os + [o], offset, |ps|, |os|)
  {
    hide IsRestorePoint, Padded;
    assert ps[..|ps|] == ps && (os + [o])[..|os|] == os;
    assert [] + Padded(f, o) == Padded(f, o);
  }

  lemma MarkedHere<O>(f: Format<O>, z: Zlib, headerSize: nat, ps: seq<Packet>, os: seq<O>)
    requires AllSmall(ps) && Encodes(f, os) && Payloads(ps) == Stream(f, os) && NoRestorePoint(f, os)
    ensures Marked(f, z, headerSize, ps, [], os, headerSize + |Containers(z, ps)|, |ps|, |os|)
  {
    assert ps[..|ps|] == ps && os[..|os|] == os;
  }

  lemma MarkedAppend<O>(f: Format<O>, z: Zlib, headerSize: nat, ps: seq<Packet>, buffer: bytes, os: seq<O>, o: O,
                        offset: nat, k: nat, n: nat)
    requires AllSmall(ps) && Encodes(f, os) && f.encode(o).Some? && Encodes(f, os + [o])
    requires Marked(f, z, headerSize, ps, buffer, os, offset, k, n)
    ensures Marked(f, z, headerSize, ps, buffer + Padded(f, o), os + [o], offset, k, n)
  {
    hide IsRestorePoint, Padded;
    assert (os + [o])[..n] == os[..n];
    if n == |os| {
      assert [] + Padded(f, o) == Padded(f, o);
    }
  }

  lemma PointsAtAppend<O>(f: Format<O>, z: Zlib, headerSize: nat, ps: seq<Packet>, buffer: bytes, os: seq<O>, o: O,
                          offset: nat, k: nat, n: nat)
    requires AllSmall(ps) && Encodes(f, os) && f.encode(o).Some? && Encodes(f, os + [o])
    ensures PointsAt(f, z, headerSize, ps, buffer, os, offset, k, n)
        ==> PointsAt(f, z, headerSize, ps, buffer + Padded(f, o), os + [o], offset, k, n)
  {
    hide IsRestorePoint, Padded, Marked;
    if PointsAt(f, z, headerSize, ps, buffer, os, offset, k, n) {
      MarkedAppend(f, z, headerSize, ps, buffer, os, o, offset, k, n);
    }
  }

  lemma SmallEncodes(z: Zlib, payload: bytes, compress: bool)
    ensures EncodeContainer(z, payload, compress).Some? <==> |payload| < 0x1_0000_0000
  {
  }

  /** Emitting the buffer keeps the marked place. */
  lemma MarkedFlush<O>(f: Format<O>, z: Zlib, headerSize: nat, ps: seq<Packet>, p: Packet, os: seq<O>,
                       offset: nat, k: nat, n: nat)
    requires AllSmall(ps) && AllSmall(ps + [p]) && Encodes(f, os) && p.payload != []
    ensures Marked(f, z, headerSize, ps, p.payload, os, offset, k, n)
        ==> Marked(f, z, headerSize, ps + [p], [], os, offset, k, n)
  {
    if k <= |ps| {
      assert (ps + [p])[..k] == ps[..k];
    }
  }

  /** Emitting the buffer keeps the restore-point offset right. */
  lemma PointsAtFlush<O>(f: Format<O>, z: Zlib, headerSize: nat, ps: seq<Packet>, p: Packet, os: seq<O>,
                         offset: nat, k: nat, n: nat)
    requires AllSmall(ps) && AllSmall(ps + [p]) && Encodes(f, os)
    ensures PointsAt(f, z, headerSize, ps, p.payload, os, offset, k, n)
        ==> PointsAt(f, z, headerSize, ps + [p], [], os, offset, k, n)
  {
    if k <= |ps| {
      assert (ps + [p])[..k] == ps[..k];
    }
  }

  /** Encodings are never empty. */
  ghost predicate NeverEmpty<O(!new)>(f: Format<O>) {
    forall o :: f.encode(o).Some? ==> f.encode(o).value != []
  }

  /** A prefix of the containers tells its length, and so does a prefix of the stream. */
  lemma {:induction false} ContainersGrow(z: Zlib, ps: seq<Packet>, i: nat, j: nat)
    requires AllSmall(ps) && i < j <= |ps|
    ensures |Containers(z, ps[..i])| < |Containers(z, ps[..j])|
  {
    hide Containers, EncodeContainer;
    assert ps[..j] == ps[..j - 1] + [ps[j - 1]];
    PacketsSnoc(z, ps[..j - 1], ps[j - 1]);
    ContainerNotEmpty(z, ps[j - 1].payload, ps[j - 1].compress);
    if i < j - 1 {
      ContainersGrow(z, ps, i, j - 1);
    }
  }

  lemma ContainerNotEmpty(z: Zlib, payload: bytes, compress: bool)
    requires |payload| < 0x1_0000_0000
    ensures |EncodeContainer(z, payload, compress).value| >= LOG_CONTAINER_SIZE
  {
  }

  lemma {:induction false} StreamGrows<O(!new)>(f: Format<O>, os: seq<O>, i: nat, j: nat)
    requires NeverEmpty(f) && Encodes(f, os) && i < j <= |os|
    ensures |Stream(f, os[..i])| < |Stream(f, os[..j])|
  {
    assert os[..j] == os[..i] + os[i..j];
    StreamAppend(f, os[..i], os[i..j]);
    assert os[i..j][0] == os[i] && f.encode(os[i]).value != [];
  }

  /**
   The offset finds the first restore point, wherever that may be, exactly when the object accepted next after the
   offset was taken is a restore point.
   */
  lemma OffsetIsRight<O(!new)>(f: Format<O>, z: Zlib, headerSize: nat, ps: seq<Packet>, os: seq<O>, offset: nat, k: nat,
                               n: nat)
    requires NeverEmpty(f) && AllSmall(ps) && Encodes(f, os) && Marked(f, z, headerSize, ps, [], os, offset, k, n)
    ensures (exists j: nat, m: nat :: PointsAt(f, z, headerSize, ps, [], os, offset, j, m))
         <==> n < |os| && IsRestorePoint(f, os[n])
  {
    hide Containers, Payloads, Stream, Padded, NoRestorePoint, NeverEmpty, IsRestorePoint;
    if n < |os| && IsRestorePoint(f, os[n]) {
      assert PointsAt(f, z, headerSize, ps, [], os, offset, k, n);
    }
    forall j: nat, m: nat | PointsAt(f, z, headerSize, ps, [], os, offset, j, m) ensures m == n {
      if j != k {
        ContainersGrow(z, ps, if j < k then j else k, if j < k then k else j);
      }
      if m != n {
        StreamGrows(f, os, if m < n then m else n, if m < n then n else m);
      }
    }
  }
}
