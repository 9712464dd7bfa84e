/**
 * MurmurHash3 (32-bit) as the relay uses it to place a key on the ring.
 * Every mixing step has an explicit inverse; the collision results follow.
 */
module Murmur3 {
  import opened Bytes

  const SEED: bv32 := 0xaccd3d34

  // ----- The mixing steps and their inverses -----

  function MulC1(k: bv32): bv32 { k * 0xcc9e2d51 }
  function DivC1(k: bv32): bv32 { k * 0xdee13bb1 }
  function MulC2(k: bv32): bv32 { k * 0x1b873593 }
  function DivC2(k: bv32): bv32 { k * 0x56ed309b }
  function MulM(k: bv32): bv32 { k * 5 }
  function DivM(k: bv32): bv32 { k * 0xcccccccd }
  function MulF1(k: bv32): bv32 { k * 0x85ebca6b }
  function DivF1(k: bv32): bv32 { k * 0xa5cb9243 }
  function MulF2(k: bv32): bv32 { k * 0xc2b2ae35 }
  function DivF2(k: bv32): bv32 { k * 0x7ed1b41d }

  function Rotl15(k: bv32): bv32 { (k << 15) | (k >> 17) }
  function Rotr15(k: bv32): bv32 { (k >> 15) | (k << 17) }
  function Rotl13(k: bv32): bv32 { (k << 13) | (k >> 19) }
  function Rotr13(k: bv32): bv32 { (k >> 13) | (k << 19) }

  function Xor(a: bv32, b: bv32): bv32 { a ^ b }
  function PlusN(k: bv32): bv32 { k + 0xe6546b64 }
  function MinusN(k: bv32): bv32 { k - 0xe6546b64 }

  function XorShift16(k: bv32): bv32 { k ^ (k >> 16) }
  function XorShift13(k: bv32): bv32 { k ^ (k >> 13) }
  function UnxorShift13(k: bv32): bv32 { k ^ (k >> 13) ^ (k >> 26) }

  /** The scrambling of one 4-byte block, before it meets the hash. */
  function Scramble(k: bv32): bv32 {
    MulC2(Rotl15(MulC1(k)))
  }

  function Unscramble(k: bv32): bv32 {
    DivC1(Rotr15(DivC2(k)))
  }

  /** One round of the block loop. */
  function Mix(h: bv32, k: bv32): bv32 {
    PlusN(MulM(Rotl13(Xor(h, Scramble(k)))))
  }

  /** The round undone up to the final exclusive-or. */
  function Unround(h: bv32): bv32 {
    Rotr13(DivM(MinusN(h)))
  }

  function Unmix(h: bv32, k: bv32): bv32 {
    Xor(Unround(h), Scramble(k))
  }

  function Finalise(h: bv32): bv32 {
    XorShift16(MulF2(XorShift13(MulF1(XorShift16(h)))))
  }

  function Unfinalise(h: bv32): bv32 {
    XorShift16(DivF1(UnxorShift13(DivF2(XorShift16(h)))))
  }

  // Each odd multiplier has an inverse modulo 2^32. One factor is kept as a plain product so
  // that the solver can normalise it; the other is folded away by its definition.

  lemma FoldC1(k: bv32)
    ensures DivC1(k * 0xcc9e2d51) == k
    ensures MulC1(k * 0xdee13bb1) == k
  {}

  lemma InverseC1(k: bv32)
    ensures DivC1(MulC1(k)) == k && MulC1(DivC1(k)) == k
  {
    FoldC1(k);
    assert DivC1(MulC1(k)) == k by { hide DivC1; }
    assert MulC1(DivC1(k)) == k by { hide MulC1; }
  }

  lemma FoldC2(k: bv32)
    ensures DivC2(k * 0x1b873593) == k
    ensures MulC2(k * 0x56ed309b) == k
  {}

  lemma InverseC2(k: bv32)
    ensures DivC2(MulC2(k)) == k && MulC2(DivC2(k)) == k
  {
    FoldC2(k);
    assert DivC2(MulC2(k)) == k by { hide DivC2; }
    assert MulC2(DivC2(k)) == k by { hide MulC2; }
  }

  lemma FoldM(k: bv32)
    ensures DivM(k * 5) == k
    ensures MulM(k * 0xcccccccd) == k
  {}

  lemma InverseM(k: bv32)
    ensures DivM(MulM(k)) == k && MulM(DivM(k)) == k
  {
    FoldM(k);
    assert DivM(MulM(k)) == k by { hide DivM; }
    assert MulM(DivM(k)) == k by { hide MulM; }
  }

  lemma FoldF1(k: bv32)
    ensures DivF1(k * 0x85ebca6b) == k
    ensures MulF1(k * 0xa5cb9243) == k
  {}

  lemma InverseF1(k: bv32)
    ensures DivF1(MulF1(k)) == k && MulF1(DivF1(k)) == k
  {
    FoldF1(k);
    assert DivF1(MulF1(k)) == k by { hide DivF1; }
    assert MulF1(DivF1(k)) == k by { hide MulF1; }
  }

  lemma FoldF2(k: bv32)
    ensures DivF2(k * 0xc2b2ae35) == k
    ensures MulF2(k * 0x7ed1b41d) == k
  {}

  lemma InverseF2(k: bv32)
    ensures DivF2(MulF2(k)) == k && MulF2(DivF2(k)) == k
  {
    FoldF2(k);
    assert DivF2(MulF2(k)) == k by { hide DivF2; }
    assert MulF2(DivF2(k)) == k by { hide MulF2; }
  }

  lemma Rot15Inverse(k: bv32)
    ensures Rotr15(Rotl15(k)) == k && Rotl15(Rotr15(k)) == k
  {}

  lemma Rot13Inverse(k: bv32)
    ensures Rotr13(Rotl13(k)) == k && Rotl13(Rotr13(k)) == k
  {}

  lemma FoldXorShift(k: bv32)
    ensures XorShift16(k ^ (k >> 16)) == k
    ensures UnxorShift13(k ^ (k >> 13)) == k && XorShift13(k ^ (k >> 13) ^ (k >> 26)) == k
  {}

  lemma XorShift16Inverse(k: bv32)
    ensures XorShift16(XorShift16(k)) == k
  {
    FoldXorShift(k);
  }

  lemma XorShift13Inverse(k: bv32)
    ensures UnxorShift13(XorShift13(k)) == k && XorShift13(UnxorShift13(k)) == k
  {
    FoldXorShift(k);
  }

  lemma XorCancels(a: bv32, b: bv32)
    ensures Xor(Xor(a, b), b) == a && Xor(b, Xor(b, a)) == a
    ensures Xor(a, b) == Xor(b, a)
  {}

  lemma SumTerms(a: bv32)
    ensures (a - 0xe6546b64) + 0xe6546b64 == a && (a + 0xe6546b64) - 0xe6546b64 == a
  {}

  lemma MinusCancels(a: bv32)
    ensures PlusN(MinusN(a)) == a && MinusN(PlusN(a)) == a
  {
    SumTerms(a);
  }

  lemma ScrambleBijective(k: bv32)
    ensures Unscramble(Scramble(k)) == k
    ensures Scramble(Unscramble(k)) == k
  {
    hide MulC1, DivC1, MulC2, DivC2, MulM, DivM, MulF1, DivF1, MulF2, DivF2, Rotl15, Rotr15;
    InverseC1(k); Rot15Inverse(MulC1(k)); InverseC2(Rotl15(MulC1(k)));
    InverseC2(k); Rot15Inverse(DivC2(k)); InverseC1(Rotr15(DivC2(k)));
  }

  lemma UnroundInverts(h: bv32, x: bv32)
    ensures Unround(PlusN(MulM(Rotl13(x)))) == x
    ensures PlusN(MulM(Rotl13(Unround(h)))) == h
  {
    hide MulC1, DivC1, MulC2, DivC2, MulM, DivM, MulF1, DivF1, MulF2, DivF2, Rotl13, Rotr13, PlusN, MinusN;
    Rot13Inverse(x); InverseM(Rotl13(x)); MinusCancels(MulM(Rotl13(x)));
    var d := MinusN(h);
    MinusCancels(h); InverseM(d); Rot13Inverse(DivM(d));
  }

  /** For a fixed block, a round is a bijection of the hash. */
  lemma MixBijective(h: bv32, k: bv32)
    ensures Unmix(Mix(h, k), k) == h
    ensures Mix(Unmix(h, k), k) == h
  {
    hide MulC1, DivC1, MulC2, DivC2, MulM, DivM, MulF1, DivF1, MulF2, DivF2, Rotl13, Rotr13, PlusN, MinusN, Xor, Scramble, Unround;
    UnroundInverts(h, Xor(h, Scramble(k)));
    XorCancels(h, Scramble(k));
    XorCancels(Unround(h), Scramble(k));
  }

  /** For a fixed hash, a round is injective in the block, and its block can be recovered. */
  lemma MixRevealsBlock(h: bv32, k: bv32)
    ensures Unscramble(Xor(h, Unround(Mix(h, k)))) == k
  {
    hide MulC1, DivC1, MulC2, DivC2, MulM, DivM, MulF1, DivF1, MulF2, DivF2, Rotl13, PlusN, Xor, Scramble, Unscramble, Unround;
    UnroundInverts(h, Xor(h, Scramble(k)));
    XorCancels(Scramble(k), h);
    ScrambleBijective(k);
  }

  /** For a fixed hash, some block leads to any chosen next hash. */
  lemma MixReaches(h: bv32, g: bv32)
    ensures Mix(h, Unscramble(Xor(h, Unround(g)))) == g
  {
    hide MulC1, DivC1, MulC2, DivC2, MulM, DivM, MulF1, DivF1, MulF2, DivF2, Rotl13, PlusN, Xor, Scramble, Unscramble, Unround;
    ScrambleBijective(Xor(h, Unround(g)));
    XorCancels(Unround(g), h);
    UnroundInverts(g, Unround(g));
  }

  /** The finaliser is a bijection on 32-bit words. */
  lemma FinaliseBijective(h: bv32)
    ensures Unfinalise(Finalise(h)) == h
    ensures Finalise(Unfinalise(h)) == h
  {
    hide MulC1, DivC1, MulC2, DivC2, MulM, DivM, MulF1, DivF1, MulF2, DivF2, XorShift16, XorShift13, UnxorShift13;
    var x1 := XorShift16(h);
    var m1 := MulF1(x1);
    var x2 := XorShift13(m1);
    var m2 := MulF2(x2);
    XorShift16Inverse(h); InverseF1(x1); XorShift13Inverse(m1); InverseF2(x2); XorShift16Inverse(m2);
    var n1 := DivF2(x1);
    var y2 := UnxorShift13(n1);
    var n2 := DivF1(y2);
    InverseF2(x1); XorShift13Inverse(n1); InverseF1(y2); XorShift16Inverse(n2);
  }

  // ----- The hash -----

  /** Four bytes read as a little-endian word. */
  function Word(b0: byte, b1: byte, b2: byte, b3: byte): bv32 {
    (b0 as bv32) | ((b1 as bv32) << 8) | ((b2 as bv32) << 16) | ((b3 as bv32) << 24)
  }

  function Block(key: Bytes, i: nat): bv32
    requires 4 * i + 4 <= |key|
  {
    Word(key[4 * i], key[4 * i + 1], key[4 * i + 2], key[4 * i + 3])
  }

  /** The hash state after mixing blocks lo..hi of `key` into `h`. */
  function Fold(h: bv32, key: Bytes, lo: nat, hi: nat): bv32
    requires lo <= hi && 4 * hi <= |key|
    decreases hi
  {
    if lo == hi then h else Mix(Fold(h, key, lo, hi - 1), Block(key, hi - 1))
  }

  function TailWord(tail: Bytes): bv32
    requires |tail| < 4
  {
    Word(if 0 < |tail| then tail[0] else 0, if 1 < |tail| then tail[1] else 0,
         if 2 < |tail| then tail[2] else 0, 0)
  }

  function Tail(key: Bytes): (t: Bytes)
    ensures |t| < 4
  {
    key[4 * (|key| / 4)..]
  }

  function Finish(h: bv32, tail: Bytes, len: nat): bv32
    requires |tail| < 4 && len < 0x1_0000_0000
  {
    Finalise(Xor(if tail == [] then h else Xor(h, Scramble(TailWord(tail))), len as bv32))
  }

  function Hash(key: Bytes, seed: bv32): bv32
    requires |key| < 0x1_0000_0000
  {
    Finish(Fold(seed, key, 0, |key| / 4), Tail(key), |key|)
  }

  /** murmur3_32: the block loop and the fall-through switch over the tail. */
  method Murmur3(key: Bytes, seed: bv32) returns (hash: bv32)
    requires |key| < 0x1_0000_0000
    ensures hash == Hash(key, seed)
  {
    hide Xor, MulC1, DivC1, MulC2, DivC2, MulM, DivM, MulF1, DivF1, MulF2, DivF2, Rotl15, Rotl13, PlusN, XorShift16, XorShift13, Word;
    hash := seed;
    var nblocks := |key| / 4;
    for i := 0 to nblocks
      invariant hash == Fold(seed, key, 0, i)
    {
      var k := Block(key, i);
      k := MulC1(k);
      k := Rotl15(k);
      k := MulC2(k);
      hash := Xor(hash, k);
      hash := PlusN(MulM(Rotl13(hash)));
    }
    var tail := key[nblocks * 4..];
    var k1: bv32 := 0;
    if |key| % 4 >= 3 { k1 := k1 ^ ((tail[2] as bv32) << 16); }
    if |key| % 4 >= 2 { k1 := k1 ^ ((tail[1] as bv32) << 8); }
    if |key| % 4 >= 1 {
      k1 := k1 ^ (tail[0] as bv32);
      TailBytes(tail, k1);
      k1 := MulC1(k1);
      k1 := Rotl15(k1);
      k1 := MulC2(k1);
      hash := Xor(hash, k1);
    }
    hash := Xor(hash, |key| as bv32);
    hash := XorShift16(hash);
    hash := MulF1(hash);
    hash := XorShift13(hash);
    hash := MulF2(hash);
    hash := XorShift16(hash);
  }

  /** The switch, entered at 3, 2 or 1 and falling through, xors in the same bytes that TailWord ors. */
  lemma TailBytes(tail: Bytes, k1: bv32)
    requires 0 < |tail| < 4
    requires k1 == (if |tail| >= 3 then (tail[2] as bv32) << 16 else 0)
                   ^ (if |tail| >= 2 then (tail[1] as bv32) << 8 else 0) ^ (tail[0] as bv32)
    ensures k1 == TailWord(tail)
  {
  }

  // ----- Collision-freeness -----

  lemma WordInjective(a0: byte, a1: byte, a2: byte, a3: byte, b0: byte, b1: byte, b2: byte, b3: byte)
    requires Word(a0, a1, a2, a3) == Word(b0, b1, b2, b3)
    ensures a0 == b0 && a1 == b1 && a2 == b2 && a3 == b3
  {
    var w := Word(a0, a1, a2, a3);
    assert w & 0xff == a0 as bv32 && w & 0xff == b0 as bv32;
    assert (w >> 8) & 0xff == a1 as bv32 && (w >> 8) & 0xff == b1 as bv32;
    assert (w >> 16) & 0xff == a2 as bv32 && (w >> 16) & 0xff == b2 as bv32;
    assert (w >> 24) == a3 as bv32 && (w >> 24) == b3 as bv32;
  }

  /** Mixing the same blocks into different states keeps them different. */
  lemma {:induction false} FoldSeparates(g: bv32, h: bv32, a: Bytes, b: Bytes, lo: nat, hi: nat)
    requires lo <= hi && 4 * hi <= |a| == |b|
    requires forall i :: lo <= i < hi ==> Block(a, i) == Block(b, i)
    ensures Fold(g, a, lo, hi) == Fold(h, b, lo, hi) <==> g == h
  {
    hide Mix, Unmix, Word;
    if lo < hi {
      FoldSeparates(g, h, a, b, lo, hi - 1);
      MixBijective(Fold(g, a, lo, hi - 1), Block(a, hi - 1));
      MixBijective(Fold(h, b, lo, hi - 1), Block(b, hi - 1));
    }
  }

  lemma {:induction false} FoldSplits(h: bv32, key: Bytes, lo: nat, mid: nat, hi: nat)
    requires lo <= mid <= hi && 4 * hi <= |key|
    ensures Fold(h, key, lo, hi) == Fold(Fold(h, key, lo, mid), key, mid, hi)
  {
    hide Mix, Word;
    if mid < hi {
      FoldSplits(h, key, lo, mid, hi - 1);
    }
  }

  /** The finish is injective in the state for a given tail, and in the tail for a given state. */
  lemma FinishSeparates(g: bv32, h: bv32, s: Bytes, t: Bytes, len: nat)
    requires |s| == |t| < 4 && len < 0x1_0000_0000
    requires Finish(g, s, len) == Finish(h, t, len)
    ensures s == t ==> g == h
    ensures g == h ==> s == t
  {
    hide Finalise, Unfinalise, Xor, Scramble, Unscramble, TailWord;
    var l, ts, tt := len as bv32, Scramble(TailWord(s)), Scramble(TailWord(t));
    var g1 := if s == [] then g else Xor(g, ts);
    var h1 := if t == [] then h else Xor(h, tt);
    FinaliseBijective(Xor(g1, l)); FinaliseBijective(Xor(h1, l));
    XorCancels(g1, l); XorCancels(h1, l);
    assert g1 == h1;
    XorCancels(g, ts); XorCancels(h, tt); XorCancels(ts, g); XorCancels(tt, h);
    ScrambleBijective(TailWord(s)); ScrambleBijective(TailWord(t));
    if g == h {
      assert s != [] ==> TailWord(s) == TailWord(t);
      if s != [] {
        TailWordInjective(s, t);
      }
    }
  }

  predicate AgreeOutsideBlock(a: Bytes, b: Bytes, j: nat) {
    |a| == |b| && 4 * j + 4 <= |a| && forall i :: 0 <= i < |a| && !(4 * j <= i < 4 * j + 4) ==> a[i] == b[i]
  }

  lemma BlockRecovered(a: Bytes, b: Bytes, seed: bv32, j: nat)
    requires |a| == |b| < 0x1_0000_0000
    requires AgreeOutsideBlock(a, b, j)
    requires Hash(a, seed) == Hash(b, seed)
    ensures Block(a, j) == Block(b, j)
  {
    hide Finish, Mix, Unscramble, Xor, Unround, Word;
    var n := |a| / 4;
    assert Tail(a) == Tail(b);
    FinishSeparates(Fold(seed, a, 0, n), Fold(seed, b, 0, n), Tail(a), Tail(b), |a|);
    FoldSplits(seed, a, 0, j + 1, n);
    FoldSplits(seed, b, 0, j + 1, n);
    FoldSeparates(Fold(seed, a, 0, j + 1), Fold(seed, b, 0, j + 1), a, b, j + 1, n);
    FoldSeparates(seed, seed, a, b, 0, j);
    MixRevealsBlock(Fold(seed, a, 0, j), Block(a, j));
    MixRevealsBlock(Fold(seed, b, 0, j), Block(b, j));
  }

  lemma BlockInjective(a: Bytes, b: Bytes, j: nat)
    requires AgreeOutsideBlock(a, b, j) && Block(a, j) == Block(b, j)
    ensures a == b
  {
    hide Word;
    WordInjective(a[4 * j], a[4 * j + 1], a[4 * j + 2], a[4 * j + 3],
                  b[4 * j], b[4 * j + 1], b[4 * j + 2], b[4 * j + 3]);
    assert forall i :: 0 <= i < |a| ==> a[i] == b[i];
  }

  /** Keys of one length that differ only inside one aligned block never collide. */
  lemma NoBlockCollision(a: Bytes, b: Bytes, seed: bv32, j: nat)
    requires |a| == |b| < 0x1_0000_0000
    requires AgreeOutsideBlock(a, b, j)
    ensures Hash(a, seed) == Hash(b, seed) <==> a == b
  {
    hide Hash, Block;
    if Hash(a, seed) == Hash(b, seed) {
      BlockRecovered(a, b, seed, j);
      BlockInjective(a, b, j);
    }
  }

  lemma TailRecovered(a: Bytes, b: Bytes, seed: bv32)
    requires |a| == |b| < 0x1_0000_0000
    requires forall i :: 0 <= i < 4 * (|a| / 4) ==> a[i] == b[i]
    requires Hash(a, seed) == Hash(b, seed)
    ensures Tail(a) == Tail(b)
  {
    hide Finish, Mix, Word;
    var n := |a| / 4;
    FoldSeparates(seed, seed, a, b, 0, n);
    FinishSeparates(Fold(seed, a, 0, n), Fold(seed, b, 0, n), Tail(a), Tail(b), |a|);
  }

  /** Keys of one length that differ only in the last |key| % 4 bytes never collide. */
  lemma NoTailCollision(a: Bytes, b: Bytes, seed: bv32)
    requires |a| == |b| < 0x1_0000_0000
    requires forall i :: 0 <= i < 4 * (|a| / 4) ==> a[i] == b[i]
    ensures Hash(a, seed) == Hash(b, seed) <==> a == b
  {
    hide Hash;
    var n := 4 * (|a| / 4);
    if Hash(a, seed) == Hash(b, seed) {
      TailRecovered(a, b, seed);
      assert a == a[..n] + Tail(a) && b == b[..n] + Tail(b);
      assert a[..n] == b[..n];
    }
  }

  lemma TailWordInjective(s: Bytes, t: Bytes)
    requires |s| == |t| < 4 && TailWord(s) == TailWord(t)
    ensures s == t
  {
    hide Word;
    WordInjective(if 0 < |s| then s[0] else 0, if 1 < |s| then s[1] else 0, if 2 < |s| then s[2] else 0, 0,
                  if 0 < |t| then t[0] else 0, if 1 < |t| then t[1] else 0, if 2 < |t| then t[2] else 0, 0);
  }

  // ----- Every hash is reachable through any one block -----

  function Unfold(h: bv32, key: Bytes, lo: nat, hi: nat): bv32
    requires lo <= hi && 4 * hi <= |key|
    decreases hi
  {
    if lo == hi then h else Unfold(Unmix(h, Block(key, hi - 1)), key, lo, hi - 1)
  }

  lemma {:induction false} FoldUnfold(h: bv32, key: Bytes, lo: nat, hi: nat)
    requires lo <= hi && 4 * hi <= |key|
    ensures Fold(Unfold(h, key, lo, hi), key, lo, hi) == h
    decreases hi
  {
    hide Mix, Unmix, Word;
    if lo < hi {
      var k := Block(key, hi - 1);
      FoldUnfold(Unmix(h, k), key, lo, hi - 1);
      MixBijective(h, k);
    }
  }

  function Split(w: bv32): (bs: Bytes)
    ensures |bs| == 4
  {
    [(w & 0xff) as bv8, ((w >> 8) & 0xff) as bv8, ((w >> 16) & 0xff) as bv8, (w >> 24) as bv8]
  }

  lemma SplitWord(w: bv32)
    ensures Word(Split(w)[0], Split(w)[1], Split(w)[2], Split(w)[3]) == w
  {}

  /**
   * Whatever the rest of the key, one aligned block can be chosen to give any 32-bit
   * hash at all; by NoBlockCollision the choice is unique.
   */
  lemma BlockReachesEveryHash(a: Bytes, seed: bv32, j: nat, target: bv32) returns (b: Bytes)
    requires |a| < 0x1_0000_0000 && 4 * j + 4 <= |a|
    ensures AgreeOutsideBlock(a, b, j)
    ensures Hash(b, seed) == target
  {
    hide Finish, Unfinish, Unscramble, Xor, Unround, Word, Mix, Unfold, Split;
    // Run the hash backwards from the target to the state after block j ...
    var n := |a| / 4;
    var f := Unfinish(target, Tail(a), |a|);
    var g := Unfold(f, a, j + 1, n);
    // ... and give block j the word that leads there.
    b := WithBlock(a, j, Unscramble(Xor(Fold(seed, a, 0, j), Unround(g))));
    MixReaches(Fold(seed, a, 0, j), g);
    FoldSeparates(seed, seed, a, b, 0, j);
    FoldSplits(seed, b, 0, j + 1, n);
    FoldSeparates(g, g, a, b, j + 1, n);
    FoldUnfold(f, a, j + 1, n);
    UnfinishInverts(target, Tail(a), |a|);
  }

  /** The state of the block loop from which the target is reached. */
  function Unfinish(target: bv32, tail: Bytes, len: nat): bv32
    requires |tail| < 4 && len < 0x1_0000_0000
  {
    var e := Xor(Unfinalise(target), len as bv32);
    if tail == [] then e else Xor(e, Scramble(TailWord(tail)))
  }

  lemma UnfinishInverts(target: bv32, tail: Bytes, len: nat)
    requires |tail| < 4 && len < 0x1_0000_0000
    ensures Finish(Unfinish(target, tail, len), tail, len) == target
  {
    hide Finalise, Unfinalise, Scramble, TailWord, Xor;
    var l := len as bv32;
    XorCancels(Xor(Unfinalise(target), l), Scramble(TailWord(tail)));
    XorCancels(Unfinalise(target), l);
    FinaliseBijective(target);
  }

  /** The key with one block replaced. */
  lemma WithBlock(a: Bytes, j: nat, w: bv32) returns (b: Bytes)
    requires 4 * j + 4 <= |a|
    ensures AgreeOutsideBlock(a, b, j) && Block(b, j) == w && Tail(b) == Tail(a)
  {
    hide Word;
    b := a[..4 * j] + Split(w) + a[4 * j + 4..];
    SplitWord(w);
  }

  // ----- Reduction to a shard -----

  /**
   * stats_hash. The key length is passed as a uint32_t, so a longer key is hashed by
   * its first |key| mod 2^32 bytes.
   */
  function StatsHash(key: Bytes, domain: nat): (shard: nat)
    requires 0 < domain < 0x1_0000_0000
    ensures shard < domain
    ensures Congruent(Hash(key[..|key| % 0x1_0000_0000], SEED) as nat, shard, domain)
  {
    hide Hash, Congruent;
    var h := Hash(key[..|key| % 0x1_0000_0000], SEED) as nat;
    RemainderCongruent(h, domain);
    h % domain
  }

  /** a and b differ by a multiple of n. */
  ghost predicate Congruent(a: nat, b: nat, n: nat) {
    exists q: int :: a == b + Multiple(n, q)
  }

  function Multiple(n: nat, q: int): int { n * q }

  lemma RemainderCongruent(a: nat, n: nat)
    requires 0 < n
    ensures Congruent(a, a % n, n)
  {
    assert a == a % n + Multiple(n, a / n);
  }
}
