/** The hash values that the repository's own tests expect of stats_hash. */
module Murmur3Vectors {
  import opened Bytes
  import opened Murmur3

  lemma OneBlock(key: Bytes)
    requires 4 < |key| < 8
    ensures Hash(key, SEED) == Finish(Mix(SEED, Word(key[0], key[1], key[2], key[3])), key[4..], |key|)
  {
    hide Mix, Word, Finish;
    assert Tail(key) == key[4..];
    assert Fold(SEED, key, 0, 1) == Mix(Fold(SEED, key, 0, 0), Block(key, 0));
  }

  lemma FinishTail(h: bv32, tail: Bytes, len: nat)
    requires 0 < |tail| < 4 && len < 0x1_0000_0000
    ensures Finish(h, tail, len) == Finalise((h ^ Scramble(TailWord(tail))) ^ (len as bv32))
  {
    hide Finalise, Scramble, TailWord;
  }

  lemma AppleTerm()
    ensures Finalise((Mix(SEED, Word(97, 112, 112, 108)) ^ Scramble(TailWord([101]))) ^ 5) == 2699884538
  {}

  lemma AppleHash()
    ensures Hash([97, 112, 112, 108, 101], SEED) == 2699884538
  {
    hide Hash, Mix, Word, Scramble, TailWord, Finalise, Finish;
    var key: Bytes := [97, 112, 112, 108, 101];
    OneBlock(key);
    assert key[4..] == [101];
    FinishTail(Mix(SEED, Word(97, 112, 112, 108)), [101], 5);
    AppleTerm();
  }

  lemma BananaTerm()
    ensures Finalise((Mix(SEED, Word(98, 97, 110, 97)) ^ Scramble(TailWord([110, 97]))) ^ 6) == 558421143
  {}

  lemma BananaHash()
    ensures Hash([98, 97, 110, 97, 110, 97], SEED) == 558421143
  {
    hide Hash, Mix, Word, Scramble, TailWord, Finalise, Finish;
    var key: Bytes := [98, 97, 110, 97, 110, 97];
    OneBlock(key);
    assert key[4..] == [110, 97];
    FinishTail(Mix(SEED, Word(98, 97, 110, 97)), [110, 97], 6);
    BananaTerm();
  }

  lemma OrangeTerm()
    ensures Finalise((Mix(SEED, Word(111, 114, 97, 110)) ^ Scramble(TailWord([103, 101]))) ^ 6) == 2279140812
  {}

  lemma OrangeHash()
    ensures Hash([111, 114, 97, 110, 103, 101], SEED) == 2279140812
  {
    hide Hash, Mix, Word, Scramble, TailWord, Finalise, Finish;
    var key: Bytes := [111, 114, 97, 110, 103, 101];
    OneBlock(key);
    assert key[4..] == [103, 101];
    FinishTail(Mix(SEED, Word(111, 114, 97, 110)), [103, 101], 6);
    OrangeTerm();
  }

  lemma LemonTerm()
    ensures Finalise((Mix(SEED, Word(108, 101, 109, 111)) ^ Scramble(TailWord([110]))) ^ 5) == 4183924513
  {}

  lemma LemonHash()
    ensures Hash([108, 101, 109, 111, 110], SEED) == 4183924513
  {
    hide Hash, Mix, Word, Scramble, TailWord, Finalise, Finish;
    var key: Bytes := [108, 101, 109, 111, 110];
    OneBlock(key);
    assert key[4..] == [110];
    FinishTail(Mix(SEED, Word(108, 101, 109, 111)), [110], 5);
    LemonTerm();
  }

  /** stats_hash of "apple", "banana", "orange" and "lemon" over the domain UINT32_MAX. */
  lemma KnownHashes()
    ensures StatsHash([97, 112, 112, 108, 101], 0xffff_ffff) == 2699884538
    ensures StatsHash([98, 97, 110, 97, 110, 97], 0xffff_ffff) == 558421143
    ensures StatsHash([111, 114, 97, 110, 103, 101], 0xffff_ffff) == 2279140812
    ensures StatsHash([108, 101, 109, 111, 110], 0xffff_ffff) == 4183924513
  {
    hide Hash;
    AppleHash();
    BananaHash();
    OrangeHash();
    LemonHash();
    assert forall key: Bytes :: |key| < 8 ==> key[..|key| % 0x1_0000_0000] == key;
  }
}
