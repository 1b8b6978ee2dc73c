/** The checksum of section 2.2 of RFC 1950 and its blocked computation. */
module Adler {
  import opened Bytes

  const MOD := 65_521
  const BLOCK := 5552

  /** The sum `s1` of the definition: one plus the bytes, modulo 65521 after every byte. */
  function S1(data: bytes): nat {
    if data == [] then 1 else (S1(data[..|data| - 1]) + data[|data| - 1]) % MOD
  }

  /** The sum `s2` of the definition: the values of `s1` after every byte. */
  function S2(data: bytes): nat {
    if data == [] then 0 else (S2(data[..|data| - 1]) + S1(data)) % MOD
  }

  function Adler32(data: bytes): u32 {
    S2(data) % MOD * 0x1_0000 + S1(data) % MOD
  }

  // ----- Sums whose reduction is deferred to the end of a block -----

  function RawA(a: nat, block: bytes): nat {
    if block == [] then a else RawA(a, block[..|block| - 1]) + block[|block| - 1]
  }

  function RawB(a: nat, b: nat, block: bytes): nat {
    if block == [] then b else RawB(a, b, block[..|block| - 1]) + RawA(a, block)
  }

  lemma {:induction false} RawBounds(a: nat, b: nat, block: bytes)
    ensures RawA(a, block) <= a + 255 * |block|
    ensures 2 * RawB(a, b, block) <= 2 * b + 2 * |block| * a + 255 * |block| * (|block| + 1)
  {
    var n := |block|;
    if n > 0 {
      RawBounds(a, b, block[..n - 1]);
      assert 2 * n * a == 2 * (n - 1) * a + 2 * a;
      assert 255 * n * (n + 1) == 255 * (n - 1) * n + 255 * 2 * n;
    }
  }

  /** Starting from reduced sums, no block of 5552 bytes leaves 32 bits. */
  lemma BlockFits(a: nat, b: nat, block: bytes)
    requires a < MOD && b < MOD && |block| <= BLOCK
    ensures RawA(a, block) < 0x1_0000_0000 && RawB(a, b, block) < 0x1_0000_0000
  {
    var n := |block|;
    RawBounds(a, b, block);
    assert 2 * n * a <= 2 * BLOCK * (MOD - 1) by {
      MulLe(n, BLOCK, a, MOD - 1);
      assert 2 * n * a == 2 * (n * a);
    }
    assert 255 * n * (n + 1) <= 255 * BLOCK * (BLOCK + 1) by {
      MulLe(n, BLOCK, n + 1, BLOCK + 1);
      assert 255 * n * (n + 1) == 255 * (n * (n + 1));
    }
  }

  lemma MulLe(x: nat, x': nat, y: nat, y': nat)
    requires x <= x' && y <= y'
    ensures x * y <= x' * y'
  {
    assert x * y <= x * y' <= x' * y';
  }

  /** The block length is the largest possible: one more byte of 0xFF can overflow `b`. */
  lemma BlockIsTight(block: bytes)
    requires |block| == BLOCK + 1 && forall i :: 0 <= i < |block| ==> block[i] == 0xFF
    ensures RawB(MOD - 1, MOD - 1, block) >= 0x1_0000_0000
  {
    FullBlock(MOD - 1, MOD - 1, block);
  }

  lemma {:induction false} FullBlock(a: nat, b: nat, block: bytes)
    requires forall i :: 0 <= i < |block| ==> block[i] == 0xFF
    ensures RawA(a, block) == a + 255 * |block|
    ensures 2 * RawB(a, b, block) == 2 * b + 2 * |block| * a + 255 * |block| * (|block| + 1)
  {
    var n := |block|;
    if n > 0 {
      FullBlock(a, b, block[..n - 1]);
      assert 2 * n * a == 2 * (n - 1) * a + 2 * a;
      assert 255 * n * (n + 1) == 255 * (n - 1) * n + 255 * 2 * n;
    }
  }

  /** Deferring the reduction of a block does not change the reduced sums. */
  lemma {:induction false} DeferredSums(done: bytes, block: bytes)
    ensures RawA(S1(done), block) % MOD == S1(done + block)
    ensures RawB(S1(done), S2(done), block) % MOD == S2(done + block)
  {
    var n := |block|;
    SumsReduced(done);
    if n == 0 {
      assert done + block == done;
    } else {
      hide S1, S2, RawA, RawB;
      var init, last := block[..n - 1], block[n - 1];
      var a, b := S1(done), S2(done);
      DeferredSums(done, init);
      assert block == init + [last];
      assert done + block == done + init + [last];
      SumStep(done + init, last);
      RawStep(a, b, init, last);
      StepMod(RawA(a, init), RawB(a, b, init), S1(done + init), S2(done + init), last);
    }
  }

  /** One byte added to deferred sums and to reduced sums. */
  lemma StepMod(a: nat, b: nat, s1: nat, s2: nat, x: nat)
    requires a % MOD == s1 && b % MOD == s2
    ensures (a + x) % MOD == (s1 + x) % MOD
    ensures (b + (a + x)) % MOD == (s2 + (s1 + x) % MOD) % MOD
  {
    AddMod(a, s1, x);
    AddMod(b, s2, a + x);
    AddMod(a + x, (s1 + x) % MOD, s2);
  }

  lemma SumStep(done: bytes, x: u8)
    ensures S1(done + [x]) == (S1(done) + x) % MOD
    ensures S2(done + [x]) == (S2(done) + S1(done + [x])) % MOD
    ensures S1(done) < MOD && S2(done) < MOD && S1(done + [x]) < MOD
  {
    assert (done + [x])[..|done|] == done;
  }

  lemma RawStep(a: nat, b: nat, block: bytes, x: u8)
    ensures RawA(a, block + [x]) == RawA(a, block) + x
    ensures RawB(a, b, block + [x]) == RawB(a, b, block) + RawA(a, block + [x])
  {
    assert (block + [x])[..|block|] == block;
  }

  lemma AddMod(x: nat, y: nat, z: nat)
    requires x % MOD == y % MOD
    ensures (x + z) % MOD == (y + z) % MOD
  {
    assert x == y + MOD * (x / MOD - y / MOD);
    ModShift(y + z, x / MOD - y / MOD);
  }

  lemma ModShift(x: int, k: int)
    ensures (x + MOD * k) % MOD == x % MOD
  {
    assert x + MOD * k == MOD * (x / MOD + k) + x % MOD;
  }

  lemma SumsReduced(data: bytes)
    ensures S1(data) < MOD && S2(data) < MOD
  {
  }

  /**
   The blocked computation. Both accumulators are 32-bit numbers throughout, and the
   result is the checksum of the definition.
   */
  method Blocked(data: bytes) returns (r: u32)
    ensures r == Adler32(data)
  {
    hide S1, S2, RawA, RawB;
    var a: u32, b: u32 := 1, 0;
    var start := 0;
    SumsOfNothing(1, 0);
    assert data[..0] == [];
    while start < |data|
      invariant 0 <= start <= |data|
      invariant a == S1(data[..start]) && b == S2(data[..start])
    {
      var end := if start + BLOCK < |data| then start + BLOCK else |data|;
      ghost var a0, b0 := a, b;
      SumsReduced(data[..start]);
      SumsOfNothing(a0, b0);
      var i := start;
      assert data[start..i] == [];
      while i < end
        invariant start <= i <= end
        invariant a == RawA(a0, data[start..i]) && b == RawB(a0, b0, data[start..i])
      {
        assert data[start..i + 1] == data[start..i] + [data[i]];
        RawStep(a0, b0, data[start..i], data[i]);
        BlockFits(a0, b0, data[start..i + 1]);
        a := a + data[i];
        b := b + a;
        i := i + 1;
      }
      DeferredSums(data[..start], data[start..end]);
      assert data[..start] + data[start..end] == data[..end];
      a := a % MOD;
      b := b % MOD;
      start := end;
    }
    assert data[..start] == data;
    SumsReduced(data);
    r := b * 0x1_0000 + a;
  }

  lemma SumsOfNothing(a: nat, b: nat)
    ensures S1([]) == 1 && S2([]) == 0 && RawA(a, []) == a && RawB(a, b, []) == b
  {
  }
}
