/**
 * MurmurHash3 (x86, 32 bit) as its description gives it, from the front of the key and with its
 * constants in place; the relay's hash is that function.
 */
module Murmur3Reference {
  import opened Bytes
  import opened Murmur3

  /** Four bytes weighted by the powers of 256, the first lowest. */
  function Weighted(b0: byte, b1: byte, b2: byte, b3: byte): bv32 {
    (b0 as bv32) + 0x100 * (b1 as bv32) + 0x1_0000 * (b2 as bv32) + 0x100_0000 * (b3 as bv32)
  }

  /** ... where missing bytes count as 0. */
  function LittleEndian(bytes: Bytes): bv32
    requires |bytes| <= 4
  {
    Weighted(if 0 < |bytes| then bytes[0] else 0, if 1 < |bytes| then bytes[1] else 0,
             if 2 < |bytes| then bytes[2] else 0, if 3 < |bytes| then bytes[3] else 0)
  }

  function C1(k: bv32): bv32 { k * 0xcc9e2d51 }
  function C2(k: bv32): bv32 { k * 0x1b873593 }
  function R1(k: bv32): bv32 { (k << 15) | (k >> 17) }
  function R2(k: bv32): bv32 { (k << 13) | (k >> 19) }
  function M(k: bv32): bv32 { k * 5 }
  function N(k: bv32): bv32 { k + 0xe6546b64 }
  function ExclusiveOr(a: bv32, b: bv32): bv32 { a ^ b }

  function Scrambled(k: bv32): bv32 {
    C2(R1(C1(k)))
  }

  function Round(h: bv32, k: bv32): bv32 {
    N(M(R2(ExclusiveOr(h, Scrambled(k)))))
  }

  function A1(h: bv32): bv32 { h ^ (h >> 16) }
  function A2(h: bv32): bv32 { h * 0x85ebca6b }
  function A3(h: bv32): bv32 { h ^ (h >> 13) }
  function A4(h: bv32): bv32 { h * 0xc2b2ae35 }

  function Avalanche(h: bv32): bv32 {
    A1(A4(A3(A2(A1(h)))))
  }

  /** Four bytes at a time, then what is left. */
  function Absorb(h: bv32, key: Bytes): bv32
    decreases |key|
  {
    if |key| >= 4 then Absorb(Round(h, LittleEndian(key[..4])), key[4..])
    else if key != [] then ExclusiveOr(h, Scrambled(LittleEndian(key)))
    else h
  }

  function Reference(key: Bytes, seed: bv32): bv32
    requires |key| < 0x1_0000_0000
  {
    Avalanche(ExclusiveOr(Absorb(seed, key), |key| as bv32))
  }

  // ----- The relay's hash is the reference -----

  lemma WordIs(b0: byte, b1: byte, b2: byte, b3: byte)
    ensures Word(b0, b1, b2, b3) == Weighted(b0, b1, b2, b3)
  {}

  /** A block is its four bytes, the first of the lowest weight. */
  lemma BlockIs(key: Bytes, i: nat)
    requires 4 * i + 4 <= |key|
    ensures Block(key, i) == Weighted(key[4 * i], key[4 * i + 1], key[4 * i + 2], key[4 * i + 3])
    ensures Block(key, i) == LittleEndian(key[4 * i..4 * i + 4])
  {
    hide Word, Weighted;
    WordIs(key[4 * i], key[4 * i + 1], key[4 * i + 2], key[4 * i + 3]);
  }

  lemma TailIs(tail: Bytes)
    requires |tail| < 4
    ensures TailWord(tail) == LittleEndian(tail)
  {
    hide Word, Weighted;
    WordIs(if 0 < |tail| then tail[0] else 0, if 1 < |tail| then tail[1] else 0, if 2 < |tail| then tail[2] else 0, 0);
  }

  lemma FactorsAre(k: bv32)
    ensures MulC1(k) == C1(k) && MulC2(k) == C2(k) && MulM(k) == M(k) && MulF1(k) == A2(k) && MulF2(k) == A4(k)
  {}

  lemma ShiftsAre(k: bv32)
    ensures Rotl15(k) == R1(k) && Rotl13(k) == R2(k) && PlusN(k) == N(k) && XorShift16(k) == A1(k) && XorShift13(k) == A3(k)
  {}

  lemma XorIs(a: bv32, b: bv32)
    ensures Xor(a, b) == ExclusiveOr(a, b)
  {}

  lemma ScrambleIs(k: bv32)
    ensures Scramble(k) == Scrambled(k)
  {
    hide MulC1, MulC2, Rotl15, C1, C2, R1;
    FactorsAre(k);
    ShiftsAre(C1(k));
    FactorsAre(R1(C1(k)));
  }

  lemma MixIs(h: bv32, k: bv32)
    ensures Mix(h, k) == Round(h, k)
  {
    hide Scramble, Scrambled, Xor, ExclusiveOr, Rotl13, R2, MulM, M, PlusN, N;
    ScrambleIs(k);
    var x := ExclusiveOr(h, Scrambled(k));
    XorIs(h, Scrambled(k));
    ShiftsAre(x);
    FactorsAre(R2(x));
    ShiftsAre(M(R2(x)));
  }

  lemma FinaliseIs(h: bv32)
    ensures Finalise(h) == Avalanche(h)
  {
    hide XorShift16, XorShift13, MulF1, MulF2, A1, A2, A3, A4;
    ShiftsAre(h);
    FactorsAre(A1(h));
    ShiftsAre(A2(A1(h)));
    FactorsAre(A3(A2(A1(h))));
    ShiftsAre(A4(A3(A2(A1(h)))));
  }

  lemma {:induction false} FoldShifts(h: bv32, key: Bytes, lo: nat, hi: nat)
    requires lo <= hi && 4 * hi + 4 <= |key|
    ensures Fold(h, key, lo + 1, hi + 1) == Fold(h, key[4..], lo, hi)
    decreases hi
  {
    hide Mix, Word;
    if lo < hi {
      FoldShifts(h, key, lo, hi - 1);
    }
  }

  lemma {:induction false} AbsorbIs(h: bv32, key: Bytes)
    ensures Absorb(h, key) ==
      var g := Fold(h, key, 0, |key| / 4);
      if Tail(key) == [] then g else Xor(g, Scramble(TailWord(Tail(key))))
    decreases |key|
  {
    hide Mix, Round, Scramble, Scrambled, Word, TailWord, LittleEndian, Xor, ExclusiveOr, Block, Fold;
    if |key| >= 4 {
      var rest := key[4..];
      BlockIs(key, 0);
      MixIs(h, Block(key, 0));
      FoldSplits(h, key, 0, 1, |key| / 4);
      FoldOne(h, key);
      FoldShifts(Mix(h, Block(key, 0)), key, 0, |rest| / 4);
      AbsorbIs(Mix(h, Block(key, 0)), rest);
      assert Tail(key) == Tail(rest);
    } else if key != [] {
      FoldNone(h, key);
      assert Tail(key) == key;
      TailIs(key);
      ScrambleIs(LittleEndian(key));
      XorIs(h, Scrambled(LittleEndian(key)));
    } else {
      FoldNone(h, key);
      assert Tail(key) == [];
    }
  }

  lemma FoldNone(h: bv32, key: Bytes)
    ensures Fold(h, key, 0, 0) == h
  {}

  lemma FoldOne(h: bv32, key: Bytes)
    requires 4 <= |key|
    ensures Fold(h, key, 0, 1) == Mix(h, Block(key, 0))
  {
    hide Mix, Word;
  }

  lemma HashIsReference(key: Bytes, seed: bv32)
    requires |key| < 0x1_0000_0000
    ensures Hash(key, seed) == Reference(key, seed)
  {
    hide Fold, Absorb, Finalise, Avalanche, Scramble, TailWord, Xor, ExclusiveOr;
    AbsorbIs(seed, key);
    XorIs(Absorb(seed, key), |key| as bv32);
    FinaliseIs(ExclusiveOr(Absorb(seed, key), |key| as bv32));
  }

  /** stats_hash: the reference hash, seeded with the relay's own constant, modulo the number of shards. */
  lemma ShardIs(key: Bytes, domain: nat)
    requires |key| < 0x1_0000_0000 && 0 < domain < 0x1_0000_0000
    ensures StatsHash(key, domain) == (Reference(key, 0xaccd3d34) as nat) % domain
  {
    hide Hash, Reference;
    assert key[..|key| % 0x1_0000_0000] == key;
    HashIsReference(key, 0xaccd3d34);
  }
}
