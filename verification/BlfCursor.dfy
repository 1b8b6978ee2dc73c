/** The cursor that object headers are read with and the byte vector that objects are appended to. */
module BlfCursor {
  import opened BlfCodec
  import opened BlfObjects
  import opened Bytes
  import opened Wrappers

  class Cursor {
    const buf: bytes
    var pos: nat

    ghost predicate Valid()
      reads this
    {
      pos <= |buf|
    }

    constructor (buf: bytes)
      ensures Valid() && this.buf == buf && pos == 0
    {
      this.buf := buf;
      pos := 0;
    }

    /** The next `n` bytes, or nothing and an unmoved cursor. */
    method Take(n: nat) returns (r: Option<bytes>)
      requires Valid()
      modifies this
      ensures Valid()
      ensures r == if old(pos) + n <= |buf| then Some(buf[old(pos)..old(pos) + n]) else None
      ensures pos == if r.Some? then old(pos) + n else old(pos)
    {
      if |buf| - pos < n {
        return None;
      }
      r := Some(buf[pos..pos + n]);
      pos := pos + n;
    }

    /** Reads consecutive little-endian numbers of the given widths. */
    method Record(ws: seq<nat>) returns (r: Option<seq<nat>>)
      requires Valid()
      modifies this
      ensures Valid()
      ensures r == if old(pos) + Sum(ws) <= |buf| then Some(Unpack(ws, buf[old(pos)..])) else None
      ensures r.Some? ==> pos == old(pos) + Sum(ws)
    {
      hide Sum, Unpack, FromLe, Pow256;
      var vs: seq<nat> := [];
      var left := ws;
      ghost var fits := pos + Sum(ws) <= |buf|;
      ghost var all: seq<nat> := if fits then Unpack(ws, buf[pos..]) else [];
      while left != []
        invariant Valid()
        invariant pos + Sum(left) == old(pos) + Sum(ws)
        invariant fits ==> vs + Unpack(left, buf[pos..]) == all
        decreases |left|
      {
        NextNumber(left, buf, pos, vs);
        var field := Take(left[0]);
        if field.None? {
          return None;
        }
        vs := vs + [FromLe(field.value)];
        left := left[1..];
      }
      NoNumbers(left, buf[pos..]);
      assert vs + [] == vs;
      r := Some(vs);
    }
  }

  lemma NextNumber(ws: seq<nat>, s: bytes, at: nat, vs: seq<nat>)
    requires ws != [] && at <= |s|
    ensures Sum(ws) == ws[0] + Sum(ws[1..])
    ensures at + Sum(ws) <= |s| ==>
              vs + Unpack(ws, s[at..]) == vs + [FromLe(s[at..at + ws[0]])] + Unpack(ws[1..], s[at + ws[0]..])
  {
    hide FromLe, Pow256;
    if at + Sum(ws) <= |s| {
      assert s[at..][..ws[0]] == s[at..at + ws[0]];
      assert s[at..][ws[0]..] == s[at + ws[0]..];
      Assoc(vs, [FromLe(s[at..at + ws[0]])], Unpack(ws[1..], s[at + ws[0]..]));
    }
  }

  lemma NoNumbers(ws: seq<nat>, s: bytes)
    requires ws == []
    ensures Sum(ws) == 0 && Unpack(ws, s) == []
  {
  }

  /** The base header at the start of the bytes. */
  method ParseBase(s: bytes) returns (r: Option<ObjBase>)
    ensures r == if |s| >= OBJ_BASE_SIZE then Some(DecodeBase(s)) else None
  {
    WidthSums();
    Pow256Values();
    var cursor := new Cursor(s);
    var fields := cursor.Record(BASE_WIDTHS);
    assert s[0..] == s;
    if fields.None? {
      return None;
    }
    var v := fields.value;
    r := Some(ObjBase(v[0], v[1], v[2], v[3], v[4]));
  }

  /** The object header at the start of the bytes. */
  method ParseHeader(s: bytes) returns (r: Option<LObj>)
    ensures r == DecodeHeader(s)
  {
    WidthSums();
    Pow256Values();
    var b := ParseBase(s);
    if b.None? || b.value.signature != OBJ_SIGNATURE {
      return None;
    }
    var base := b.value;
    var size := base.headerSize;
    if size < OBJ_BASE_SIZE || size > |s| {
      return None;
    }
    var cursor := new Cursor(s[OBJ_BASE_SIZE..size]);
    assert cursor.buf[0..] == cursor.buf;
    if base.headerVersion == 0 && size == OBJ_BASE_SIZE {
      r := Some(LObj(base, 0, 0, 0, 0, None, None, None, s[OBJ_BASE_SIZE..size]));
      assert s[OBJ_BASE_SIZE..size] == [];
    } else if base.headerVersion == 1 && size >= LOBJ_SIZE {
      var fields := cursor.Record(V1_WIDTHS);
      var v := fields.value;
      r := Some(LObj(base, v[0], v[1], v[2], v[3], None, None, None, s[LOBJ_SIZE..size]));
      assert s[LOBJ_SIZE..size] == s[OBJ_BASE_SIZE..size][LOBJ_SIZE - OBJ_BASE_SIZE..];
    } else if base.headerVersion == 2 && size >= LOBJ_V2_SIZE {
      var fields := cursor.Record(V2_WIDTHS);
      var v := fields.value;
      r := Some(LObj(base, v[0], 0, v[3], v[4], Some(v[1]), Some(v[2]), Some(v[5]), s[LOBJ_V2_SIZE..size]));
      assert s[LOBJ_V2_SIZE..size] == s[OBJ_BASE_SIZE..size][LOBJ_V2_SIZE - OBJ_BASE_SIZE..];
    } else {
      r := None;
    }
  }

  class ByteVec {
    var data: bytes

    constructor ()
      ensures data == []
    {
      data := [];
    }

    method Extend(s: bytes)
      modifies this
      ensures data == old(data) + s
    {
      data := data + s;
    }

    method Truncate(n: nat)
      modifies this
      ensures data == if n < |old(data)| then old(data)[..n] else old(data)
    {
      if n < |data| {
        data := data[..n];
      }
    }
  }

  method WriteHeader(h: LObj, out: ByteVec)
    modifies out
    ensures out.data == old(out.data) + EncodeHeader(h)
  {
    out.Extend(EncodeBase(h.base));
    out.Extend(VersionFields(h));
    out.Extend(h.extension);
  }

  /** Appends an object, or leaves the vector as it was when the object's sizes disagree. */
  method WriteTo(o: BlfObject, out: ByteVec) returns (ok: bool)
    requires IsTyped(o)
    modifies out
    ensures ok <==> EncodeObject(o).Some?
    ensures out.data == old(out.data) + if ok then EncodeObject(o).value else []
  {
    hide EncodeHeader, LayoutOf, Pow256, FromLe, Concat, Merge, Pack, Widths, Lengths, Sum;
    var start := |out.data|;
    match o {
      case Event(h, nums, fields, trailing) =>
        var l := EventLayout(o);
        WriteHeader(EventHeader(l, o), out);
        out.Extend(Pack(Widths(l.slots), Merge(l.slots, nums, Lengths(fields))));
        out.Extend(Concat(fields) + trailing);
      case Raw(h, data) =>
        if h.base.objectSize != h.base.headerSize + |data| {
          return false;
        }
        WriteHeader(h, out);
        out.Extend(data);
      case Unknown(h, data) =>
        if h.base.objectSize != h.base.headerSize + |data| {
          return false;
        }
        WriteHeader(h, out);
        out.Extend(data);
    }
    ghost var draft := Draft(o).value;
    assert out.data == old(out.data) + draft;
    var written := |out.data| - start;
    // A header takes at least 16 bytes, so the size field is always there.
    Pow256Values();
    assert out.data[start + 8..start + 12] == draft[8..12];
    var declared := FromLe(out.data[start + 8..start + 12]);
    if written != declared {
      out.Truncate(start);
      return false;
    }
    ok := true;
  }
}
