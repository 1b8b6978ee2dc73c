/** Byte strings, little-endian numbers and packed records. */
module Bytes {
  type u8 = x: int | 0 <= x < 0x100
  type u16 = x: int | 0 <= x < 0x1_0000
  type u32 = x: int | 0 <= x < 0x1_0000_0000
  type u64 = x: int | 0 <= x < 0x1_0000_0000_0000_0000

  type bytes = seq<u8>

  // ----- Zero filler -----

  function Zeros(n: nat): (s: bytes)
    ensures |s| == n && AllZero(s)
  {
    seq(n, _ => 0)
  }

  predicate AllZero(s: bytes) {
    forall i :: 0 <= i < |s| ==> s[i] == 0
  }

  lemma Assoc<T>(a: seq<T>, b: seq<T>, c: seq<T>)
    ensures a + (b + c) == a + b + c
  {
  }

  // ----- Little-endian numbers -----

  function Pow256(n: nat): (p: nat)
    ensures p > 0
  {
    if n == 0 then 1 else 256 * Pow256(n - 1)
  }

  lemma Pow256Values()
    ensures Pow256(1) == 0x100 && Pow256(2) == 0x1_0000 && Pow256(4) == 0x1_0000_0000
    ensures Pow256(8) == 0x1_0000_0000_0000_0000
  {
    assert Pow256(1) == 256 * Pow256(0);
    assert Pow256(2) == 256 * Pow256(1);
    assert Pow256(3) == 256 * Pow256(2);
    assert Pow256(4) == 256 * Pow256(3);
    assert Pow256(5) == 256 * Pow256(4);
    assert Pow256(6) == 256 * Pow256(5);
    assert Pow256(7) == 256 * Pow256(6);
    assert Pow256(8) == 256 * Pow256(7);
  }

  /** The `n` low bytes of `v`, least significant first. */
  function ToLe(v: nat, n: nat): (s: bytes)
    ensures |s| == n
  {
    if n == 0 then [] else [v % 256] + ToLe(v / 256, n - 1)
  }

  function FromLe(s: bytes): (v: nat)
    ensures v < Pow256(|s|)
  {
    if s == [] then 0 else s[0] + 256 * FromLe(s[1..])
  }

  lemma {:induction false} FromToLe(v: nat, n: nat)
    requires v < Pow256(n)
    ensures FromLe(ToLe(v, n)) == v
  {
    if n > 0 {
      FromToLe(v / 256, n - 1);
      assert ToLe(v, n)[1..] == ToLe(v / 256, n - 1);
    }
  }

  lemma {:induction false} ToFromLe(s: bytes)
    ensures ToLe(FromLe(s), |s|) == s
  {
    if s != [] {
      ToFromLe(s[1..]);
      assert FromLe(s) / 256 == FromLe(s[1..]) && FromLe(s) % 256 == s[0];
      assert s == [s[0]] + s[1..];
    }
  }

  // ----- Packed records of unsigned numbers -----

  function Sum(ws: seq<nat>): nat {
    if ws == [] then 0 else ws[0] + Sum(ws[1..])
  }

  /** The values `vs` in consecutive little-endian fields of the widths `ws`. */
  function Pack(ws: seq<nat>, vs: seq<nat>): (s: bytes)
    requires |ws| == |vs|
    ensures |s| == Sum(ws)
  {
    if ws == [] then [] else ToLe(vs[0], ws[0]) + Pack(ws[1..], vs[1..])
  }

  /** The values of the fields at the start of `s`. */
  function Unpack(ws: seq<nat>, s: bytes): (vs: seq<nat>)
    requires Sum(ws) <= |s|
    ensures |vs| == |ws|
    ensures forall i :: 0 <= i < |ws| ==> vs[i] < Pow256(ws[i])
  {
    if ws == [] then [] else [FromLe(s[..ws[0]])] + Unpack(ws[1..], s[ws[0]..])
  }

  ghost predicate Fits(ws: seq<nat>, vs: seq<nat>) {
    |ws| == |vs| && forall i :: 0 <= i < |ws| ==> vs[i] < Pow256(ws[i])
  }

  lemma SplitConcat(a: bytes, b: bytes, c: bytes)
    ensures (a + b + c)[..|a|] == a && (a + b + c)[|a|..] == b + c
  {
  }

  lemma {:induction false} UnpackPack(ws: seq<nat>, vs: seq<nat>, rest: bytes)
    requires Fits(ws, vs)
    ensures Unpack(ws, Pack(ws, vs) + rest) == vs
  {
    if ws != [] {
      hide Pow256, FromLe, ToLe;
      var first, others := ToLe(vs[0], ws[0]), Pack(ws[1..], vs[1..]);
      FromToLe(vs[0], ws[0]);
      UnpackPack(ws[1..], vs[1..], rest);
      SplitConcat(first, others, rest);
      assert vs == [vs[0]] + vs[1..];
    }
  }

  lemma {:induction false} PackUnpack(ws: seq<nat>, s: bytes)
    requires Sum(ws) <= |s|
    ensures Pack(ws, Unpack(ws, s)) == s[..Sum(ws)]
  {
    if ws != [] {
      ToFromLe(s[..ws[0]]);
      PackUnpack(ws[1..], s[ws[0]..]);
      assert Unpack(ws, s)[1..] == Unpack(ws[1..], s[ws[0]..]);
      assert s[..Sum(ws)] == s[..ws[0]] + s[ws[0]..][..Sum(ws[1..])];
    }
  }

  /** Only the bytes of the fields matter. */
  lemma {:induction false} UnpackPrefix(ws: seq<nat>, s: bytes, rest: bytes)
    requires Sum(ws) <= |s|
    ensures Unpack(ws, s + rest) == Unpack(ws, s)
  {
    if ws != [] {
      UnpackPrefix(ws[1..], s[ws[0]..], rest);
      assert (s + rest)[..ws[0]] == s[..ws[0]];
      assert (s + rest)[ws[0]..] == s[ws[0]..] + rest;
    }
  }

  lemma PackFirstTwo(ws: seq<nat>, vs: seq<nat>)
    requires |ws| == |vs| >= 2
    ensures Sum(ws) >= ws[0] + ws[1]
    ensures Pack(ws, vs)[..ws[0]] == ToLe(vs[0], ws[0])
    ensures Pack(ws, vs)[ws[0]..ws[0] + ws[1]] == ToLe(vs[1], ws[1])
  {
    hide ToLe;
    var rest := Pack(ws[1..][1..], vs[1..][1..]);
    assert Pack(ws[1..], vs[1..]) == ToLe(vs[1], ws[1]) + rest;
    assert Pack(ws, vs) == ToLe(vs[0], ws[0]) + (ToLe(vs[1], ws[1]) + rest);
  }

  lemma UnpackFirstTwo(ws: seq<nat>, s: bytes)
    requires |ws| >= 2 && Sum(ws) <= |s|
    ensures Sum(ws) >= ws[0] + ws[1]
    ensures Unpack(ws, s)[0] == FromLe(s[..ws[0]])
    ensures Unpack(ws, s)[1] == FromLe(s[ws[0]..ws[0] + ws[1]])
  {
    hide FromLe, Pow256;
    assert Unpack(ws, s)[1] == Unpack(ws[1..], s[ws[0]..])[0];
    assert s[ws[0]..][..ws[1]] == s[ws[0]..ws[0] + ws[1]];
  }
}
