/** Bit sets packed into 32-bit words: the ASID bitmap (kern/env.c) and the block bitmap (fs/fs.c). */
module Bitmap {

  // A 32-bit word as its bits, least significant first: w & (1 << k) is w[k].
  type Bits = w: seq<bool> | |w| == 32 witness seq(32, i => false)

  function Fill(b: bool): (w: Bits)
    ensures forall k :: 0 <= k < 32 ==> w[k] == b
  {
    seq(32, i => b)
  }

  // Bit n of a bitmap; bits past the end read as clear.
  predicate Get(bm: seq<Bits>, n: nat) {
    n / 32 < |bm| && bm[n / 32][n % 32]
  }

  // bm[n / 32] |= 1 << (n % 32) when b holds, bm[n / 32] &= ~(1 << (n % 32)) otherwise.
  function Put(bm: seq<Bits>, n: nat, b: bool): (r: seq<Bits>)
    requires n / 32 < |bm|
    ensures |r| == |bm|
    ensures forall m: nat :: Get(r, m) <==> if m == n then b else Get(bm, m)
  {
    bm[n / 32 := bm[n / 32][n % 32 := b]]
  }
}
