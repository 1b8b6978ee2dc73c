/** Reading a body yields its objects however they were cut into containers. */
module BlfReading {
  import opened BlfObjects
  import opened BlfStream
  import opened Bytes
  import opened Wrappers

  /** A container's payload and whether it is stored compressed. */
  datatype Packet = Packet(payload: bytes, compress: bool)

  /** The container of the packet is within 32-bit sizes and the reader's limits. */
  ghost predicate Readable(z: Zlib, lim: Limits, p: Packet) {
    var stored := LOG_CONTAINER_SIZE + |StoredData(z, p.payload, p.compress)|;
    && |p.payload| < 0x1_0000_0000 && stored < 0x1_0000_0000
    && stored <= lim.maxContainer
    && (p.compress ==> |p.payload| <= lim.maxContainer)
  }

  ghost predicate AllReadable(z: Zlib, lim: Limits, ps: seq<Packet>) {
    forall i :: 0 <= i < |ps| ==> Readable(z, lim, ps[i])
  }

  predicate AllSmall(ps: seq<Packet>) {
    forall i :: 0 <= i < |ps| ==> |ps[i].payload| < 0x1_0000_0000
  }

  function Payloads(ps: seq<Packet>): bytes {
    if ps == [] then [] else ps[0].payload + Payloads(ps[1..])
  }

  function Containers(z: Zlib, ps: seq<Packet>): bytes
    requires AllSmall(ps)
  {
    if ps == [] then []
    else EncodeContainer(z, ps[0].payload, ps[0].compress).value + Containers(z, ps[1..])
  }

  /** A written container is read back whole. */
  lemma ContainerIsRead<O>(f: Format<O>, z: Zlib, lim: Limits, p: Packet, rest: bytes)
    requires Inverts(z) && Readable(z, lim, p)
    ensures var s := EncodeContainer(z, p.payload, p.compress).value;
            && s != []
            && ReadTop(f, z, lim, s + rest) == Container(p.payload, |s|)
            && (s + rest)[|s|..] == rest
  {
    hide EncodeContainerHeader, DecodeContainerHeader, DecodeBase, DecodePayload;
    var data := StoredData(z, p.payload, p.compress);
    var c := ContainerOf(|data|, |p.payload|, p.compress);
    var pad := Zeros(c.base.objectSize % 4);
    var s := EncodeContainer(z, p.payload, p.compress).value;
    var size := c.base.objectSize;
    assert size == LOG_CONTAINER_SIZE + |data|;
    assert s + rest == EncodeContainerHeader(c) + (data + pad + rest);
    ContainerHeaderRoundTrip(c, data + pad + rest);
    assert (s + rest)[..size] == EncodeContainerHeader(c) + data;
    ContainerHeaderRoundTrip(c, data);
    assert (s + rest)[LOG_CONTAINER_SIZE..size] == data;
    PayloadIsRead(z, lim, p);
  }

  lemma PayloadIsRead(z: Zlib, lim: Limits, p: Packet)
    requires Inverts(z) && Readable(z, lim, p)
    ensures var data := StoredData(z, p.payload, p.compress);
            DecodePayload(z, lim, ContainerOf(|data|, |p.payload|, p.compress), data) == Ok(p.payload)
  {
    hide ZlibFrame;
    if p.compress {
      assert z.deflate(p.payload) == z.deflate(p.payload);
      assert z.inflate(ZlibFrame(z, p.payload)) == Some(p.payload);
    }
  }

  // ----- One section: containers that together hold whole objects and filler -----

  function Items<O>(os: seq<O>): (r: seq<Outcome<O>>)
    ensures |r| == |os| && forall i :: 0 <= i < |os| ==> r[i] == Item(os[i])
  {
    seq(|os|, i requires 0 <= i < |os| => Item(os[i]))
  }

  /** Filler does not matter to what follows. */
  lemma FillerIsDropped<O>(f: Format<O>, z: Zlib, lim: Limits, s: bytes, u: bytes)
    requires AllZero(u)
    ensures Run(f, z, lim, s, u) == Run(f, z, lim, s, [])
  {
    assert TryObject(f, lim, u) == Wait([]) && TryObject(f, lim, []) == Wait([]);
    assert Next(f, z, lim, s, u) == Next(f, z, lim, s, []);
  }

  /** When the unread bytes hold no whole object, the next container is appended to them. */
  lemma NextContainer<O>(f: Format<O>, z: Zlib, lim: Limits, ps: seq<Packet>, tail: bytes, u: bytes, kept: bytes)
    requires Inverts(z) && ps != [] && AllSmall(ps) && Readable(z, lim, ps[0])
    requires TryObject(f, lim, u) == Wait(kept)
    ensures Run(f, z, lim, Containers(z, ps) + tail, u)
         == Run(f, z, lim, Containers(z, ps[1..]) + tail, kept + ps[0].payload)
  {
    hide Run, ReadTop, TryObject, EncodeContainerHeader, StoredData, ContainerOf;
    var rest := Containers(z, ps[1..]) + tail;
    var s := EncodeContainer(z, ps[0].payload, ps[0].compress).value;
    ContainerIsRead(f, z, lim, ps[0], rest);
    Assoc(s, Containers(z, ps[1..]), tail);
    PassContainer(f, z, lim, s + rest, u, kept, ps[0].payload, |s|);
  }

  lemma PassContainer<O>(f: Format<O>, z: Zlib, lim: Limits, s: bytes, u: bytes, kept: bytes, p: bytes, n: nat)
    requires TryObject(f, lim, u) == Wait(kept) && ReadTop(f, z, lim, s) == Container(p, n)
    ensures Run(f, z, lim, s, u) == Run(f, z, lim, s[n..], kept + p)
  {
    hide TryObject, ReadTop;
    assert Next(f, z, lim, s, u) == Next(f, z, lim, s[n..], kept + p);
  }

  lemma NextObject<O>(f: Format<O>, z: Zlib, lim: Limits, s: bytes, u: bytes, o: O, more: bytes)
    requires TryObject(f, lim, u) == Got(o, more) && |more| < |u|
    ensures Run(f, z, lim, s, u) == [Item(o)] + Run(f, z, lim, s, more)
  {
    hide TryObject;
  }

  /**
   The central invariant: as long as the unread bytes and the payloads to come spell the
   remaining objects and filler, the remaining objects are yielded in order.
   */
  lemma {:induction false} SectionIsRead<O(!new)>(f: Format<O>, z: Zlib, lim: Limits, os: seq<O>, filler: nat,
                                                 u: bytes, ps: seq<Packet>, tail: bytes)
    requires Inverts(z) && AllReadable(z, lim, ps) && AllWellFormed(f, lim, os)
    requires u + Payloads(ps) == Stream(f, os) + Zeros(filler)
    ensures Run(f, z, lim, Containers(z, ps) + tail, u) == Items(os) + Run(f, z, lim, tail, [])
    decreases |ps|, |os|
  {
    hide TryObject, Run, WellFormed, EncodeContainer, AllWellFormed, StoredData;
    var s := Containers(z, ps) + tail;
    SectionEncodes(f, lim, os);
    if os == [] {
      FillerLeft(u, Payloads(ps), filler);
      if ps == [] {
        FillerIsDropped(f, z, lim, tail, u);
        assert s == tail && Items(os) + Run(f, z, lim, tail, []) == Run(f, z, lim, tail, []);
      } else {
        FillerWaits(f, lim, u);
        NextContainer(f, z, lim, ps, tail, u, []);
        assert [] + ps[0].payload + Payloads(ps[1..]) == Payloads(ps);
        assert Stream(f, os) + Zeros(filler - |u|) == Zeros(filler - |u|);
        SectionIsRead(f, z, lim, os, filler - |u|, [] + ps[0].payload, ps[1..], tail);
      }
    } else {
      var whole := Padded(f, os[0]);
      Assoc(whole, Stream(f, os[1..]), Zeros(filler));
      if |u| >= |whole| {
        var more := u[|whole|..];
        TakeWhole(u, Payloads(ps), whole, Stream(f, os[1..]) + Zeros(filler));
        WholeObject(f, lim, os[0], more);
        NextObject(f, z, lim, s, u, os[0], more);
        SectionIsRead(f, z, lim, os[1..], filler, more, ps, tail);
        assert Items(os) == [Item(os[0])] + Items(os[1..]);
        Assoc([Item(os[0])], Items(os[1..]), Run(f, z, lim, tail, []));
      } else {
        TakePart(u, Payloads(ps), whole, Stream(f, os[1..]) + Zeros(filler));
        PartOfObject(f, lim, os[0], u);
        NextContainer(f, z, lim, ps, tail, u, u);
        Assoc(u, ps[0].payload, Payloads(ps[1..]));
        SectionIsRead(f, z, lim, os, filler, u + ps[0].payload, ps[1..], tail);
      }
    }
  }

  lemma SectionEncodes<O(!new)>(f: Format<O>, lim: Limits, os: seq<O>)
    requires AllWellFormed(f, lim, os)
    ensures Encodes(f, os)
    ensures os != [] ==> WellFormed(f, lim, os[0]) && AllWellFormed(f, lim, os[1..]) && |Padded(f, os[0])| > 0
  {
  }

  lemma FillerLeft(u: bytes, p: bytes, filler: nat)
    requires u + p == [] + Zeros(filler)
    ensures AllZero(u) && |u| <= filler && p == Zeros(filler - |u|)
  {
    assert forall i :: 0 <= i < |u| ==> u[i] == (u + p)[i];
    assert p == (u + p)[|u|..];
  }

  lemma FillerWaits<O>(f: Format<O>, lim: Limits, u: bytes)
    requires AllZero(u)
    ensures TryObject(f, lim, u) == Wait([])
  {
  }

  lemma TakeWhole(u: bytes, p: bytes, whole: bytes, others: bytes)
    requires u + p == whole + others && |u| >= |whole|
    ensures u == whole + u[|whole|..] && u[|whole|..] + p == others
  {
    assert u[..|whole|] == (u + p)[..|whole|] == whole;
    assert (u + p)[|whole|..] == u[|whole|..] + p;
    assert (whole + others)[|whole|..] == others;
  }

  lemma TakePart(u: bytes, p: bytes, whole: bytes, others: bytes)
    requires u + p == whole + others && |u| < |whole|
    ensures u <= whole && p != []
  {
    assert (u + p)[..|u|] == u && (whole + others)[..|u|] == whole[..|u|];
    assert |u + p| == |whole + others|;
  }

  /** However a stream of objects and filler is cut into containers, its objects are yielded, then the end. */
  lemma CutIndependent<O(!new)>(f: Format<O>, z: Zlib, lim: Limits, os: seq<O>, filler: nat, ps: seq<Packet>)
    requires Inverts(z) && AllReadable(z, lim, ps) && AllWellFormed(f, lim, os)
    requires Payloads(ps) == Stream(f, os) + Zeros(filler)
    ensures Run(f, z, lim, Containers(z, ps), []) == Items(os) + [End]
  {
    SectionIsRead(f, z, lim, os, filler, [], ps, []);
    assert Containers(z, ps) + [] == Containers(z, ps);
    assert Run(f, z, lim, [], []) == [End];
  }

  // ----- Bodies with objects outside containers -----

  /** Containers that spell whole objects and filler, then one object outside any container. */
  datatype Section<O> = Section(objects: seq<O>, filler: nat, packets: seq<Packet>, top: O)

  ghost predicate IsSection<O(!new)>(f: Format<O>, z: Zlib, lim: Limits, x: Section<O>) {
    && AllReadable(z, lim, x.packets) && AllWellFormed(f, lim, x.objects)
    && Payloads(x.packets) == Stream(f, x.objects) + Zeros(x.filler)
    && WellFormed(f, lim, x.top) && f.base(x.top).objectType != LOG_CONTAINER
  }

  ghost predicate AllSections<O(!new)>(f: Format<O>, z: Zlib, lim: Limits, xs: seq<Section<O>>) {
    forall i :: 0 <= i < |xs| ==> IsSection(f, z, lim, xs[i])
  }

  function Body<O>(f: Format<O>, z: Zlib, xs: seq<Section<O>>, last: bytes): bytes
    requires forall i :: 0 <= i < |xs| ==> AllSmall(xs[i].packets) && f.encode(xs[i].top).Some?
  {
    if xs == [] then last
    else Containers(z, xs[0].packets) + (Padded(f, xs[0].top) + Body(f, z, xs[1..], last))
  }

  /** The objects of the sections in file order. */
  function InOrder<O>(xs: seq<Section<O>>): seq<O> {
    if xs == [] then [] else xs[0].objects + [xs[0].top] + InOrder(xs[1..])
  }

  lemma TopIsRead<O(!new)>(f: Format<O>, z: Zlib, lim: Limits, o: O, rest: bytes)
    requires WellFormed(f, lim, o) && f.base(o).objectType != LOG_CONTAINER
    ensures Run(f, z, lim, Padded(f, o) + rest, []) == [Item(o)] + Run(f, z, lim, rest, [])
  {
    var s := f.encode(o).value;
    var all := Padded(f, o) + rest;
    PrefixOfBase(s, all);
    assert all[..|s|] == s;
    assert all[|Padded(f, o)|..] == rest;
    assert ReadTop(f, z, lim, all) == Object(o, |Padded(f, o)|);
    assert Next(f, z, lim, all, []) == Step(Item(o), rest, []);
  }

  /**
   An object outside the containers is yielded exactly between the objects of the
   containers before it and those of the containers after it.
   */
  lemma {:induction false} BodyIsRead<O(!new)>(f: Format<O>, z: Zlib, lim: Limits, xs: seq<Section<O>>,
                                              os: seq<O>, filler: nat, ps: seq<Packet>)
    requires Inverts(z) && AllSections(f, z, lim, xs)
    requires AllReadable(z, lim, ps) && AllWellFormed(f, lim, os) && Payloads(ps) == Stream(f, os) + Zeros(filler)
    ensures Run(f, z, lim, Body(f, z, xs, Containers(z, ps)), []) == Items(InOrder(xs) + os) + [End]
  {
    if xs == [] {
      CutIndependent(f, z, lim, os, filler, ps);
      assert InOrder(xs) + os == os;
    } else {
      hide Run, Stream, Items, WellFormed;
      var x := xs[0];
      assert IsSection(f, z, lim, x) && AllSections(f, z, lim, xs[1..]);
      var rest := Body(f, z, xs[1..], Containers(z, ps));
      BodyIsRead(f, z, lim, xs[1..], os, filler, ps);
      TopIsRead(f, z, lim, x.top, rest);
      assert [] + Payloads(x.packets) == Payloads(x.packets);
      SectionIsRead(f, z, lim, x.objects, x.filler, [], x.packets, Padded(f, x.top) + rest);
      Assoc(x.objects + [x.top], InOrder(xs[1..]), os);
      JoinItems(x.objects, x.top, InOrder(xs[1..]) + os);
    }
  }

  lemma JoinItems<O>(a: seq<O>, o: O, b: seq<O>)
    ensures Items(a + [o] + b) + [End] == Items(a) + ([Item(o)] + (Items(b) + [End]))
  {
  }

  // ----- Progress -----

  /** A reader that has yielded an item has consumed input, so it cannot yield forever. */
  lemma ItemsConsume<O>(f: Format<O>, z: Zlib, lim: Limits, s: bytes, unread: bytes)
    ensures var r := Next(f, z, lim, s, unread);
            r.outcome.Item? ==>
              || |r.rest| + OBJ_BASE_SIZE <= |s|
              || (r.rest == s && |r.unread| + OBJ_BASE_SIZE <= |unread|)
    decreases |s|
  {
    var t := TryObject(f, lim, unread);
    var top := ReadTop(f, z, lim, s);
    if t.Wait? && top.Container? {
      ItemsConsume(f, z, lim, s[top.size..], t.unread + top.payload);
    }
  }

  /** The iteration yields items and then ends or fails once. */
  lemma {:induction false} RunShape<O>(f: Format<O>, z: Zlib, lim: Limits, s: bytes, unread: bytes)
    ensures var r := Run(f, z, lim, s, unread);
            && r != [] && !r[|r| - 1].Item?
            && forall i :: 0 <= i < |r| - 1 ==> r[i].Item?
    decreases |s|, |unread|
  {
    var n := Next(f, z, lim, s, unread);
    if n.outcome.Item? {
      RunShape(f, z, lim, n.rest, n.unread);
    }
  }
}
