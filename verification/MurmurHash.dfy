/** murmur_hash3 (murmur_hash.cpp), which the service and method tables hash names with: every step of it can be undone,
    so two keys of the same length that differ in one aligned block only, or in the last one to three bytes only, never
    collide, nor does a key with itself under another seed, or with zeros added to its last block. */
module MurmurHash {

  type Byte = bv8
  type Word = bv32

  function Xor(x: Word, y: Word): Word { x ^ y }
  function Shr13(x: Word): Word { x >> 13 }
  function Shr16(x: Word): Word { x >> 16 }
  function Rotl13(x: Word): Word { (x << 13) | (x >> 19) }
  function Rotl15(x: Word): Word { (x << 15) | (x >> 17) }
  function TimesC1(x: Word): Word { x * 0xcc9e2d51 }
  function TimesC2(x: Word): Word { x * 0x1b873593 }
  function Times5Plus(x: Word): Word { x * 5 + 0xe6546b64 }
  function TimesF1(x: Word): Word { x * 0x85ebca6b }
  function TimesF2(x: Word): Word { x * 0xc2b2ae35 }

  /** What a block goes through before it is mixed in. */
  function Scramble(k: Word): Word { TimesC2(Rotl15(TimesC1(k))) }

  /** One turn of the loop over the blocks. */
  function Mix(hash: Word, k: Word): Word { Times5Plus(Rotl13(Xor(hash, Scramble(k)))) }

  function Fold13(h: Word): Word { Xor(h, Shr13(h)) }
  function Fold16(h: Word): Word { Xor(h, Shr16(h)) }

  /** The finaliser. */
  function Finish(hash: Word): Word { Fold16(TimesF2(Fold13(TimesF1(Fold16(hash))))) }

  // ---- every step can be undone -------------------------------------------------------------------------------

  function UndoRotl13(x: Word): Word { (x << 19) | (x >> 13) }
  function UndoRotl15(x: Word): Word { (x << 17) | (x >> 15) }
  function UndoC1(x: Word): Word { x * 0xdee13bb1 }
  function UndoC2(x: Word): Word { x * 0x56ed309b }
  function Undo5Plus(x: Word): Word { (x - 0xe6546b64) * 0xcccccccd }
  function UndoF1(x: Word): Word { x * 0xa5cb9243 }
  function UndoF2(x: Word): Word { x * 0x7ed1b41d }
  function UndoFold13(x: Word): Word { Xor(Xor(x, Shr13(x)), Shr13(Shr13(x))) }

  lemma Rotated13(x: Word)
    ensures UndoRotl13(Rotl13(x)) == x
  {
  }

  lemma Rotated15(x: Word)
    ensures UndoRotl15(Rotl15(x)) == x
  {
  }

  /** The odd constants have inverses modulo 2^32. */
  lemma Inverses(x: Word)
    ensures UndoC1(x * 0xcc9e2d51) == x
    ensures UndoC2(x * 0x1b873593) == x
    ensures Undo5Plus(x * 5 + 0xe6546b64) == x
    ensures UndoF1(x * 0x85ebca6b) == x
    ensures UndoF2(x * 0xc2b2ae35) == x
  {
  }

  lemma Multiplied(x: Word)
    ensures UndoC1(TimesC1(x)) == x && UndoC2(TimesC2(x)) == x
    ensures Undo5Plus(Times5Plus(x)) == x
    ensures UndoF1(TimesF1(x)) == x && UndoF2(TimesF2(x)) == x
  {
    hide UndoC1, UndoC2, Undo5Plus, UndoF1, UndoF2;
    Inverses(x);
  }

  lemma XorTwice(x: Word, y: Word)
    ensures Xor(Xor(x, y), y) == x
  {
  }

  lemma XorRegroups(x: Word, y: Word, z: Word)
    ensures Xor(Xor(x, y), z) == Xor(x, Xor(y, z))
  {
  }

  lemma ShiftedOut(x: Word)
    ensures Shr16(Xor(x, Shr16(x))) == Shr16(x)
    ensures Shr13(Xor(Shr13(x), Shr13(Shr13(x)))) == Shr13(Shr13(x))
  {
  }

  lemma ShiftDistributes(x: Word, y: Word)
    ensures Shr13(Xor(x, y)) == Xor(Shr13(x), Shr13(y))
  {
  }

  lemma Folded16(x: Word)
    ensures Fold16(Fold16(x)) == x
  {
    hide Shr13, Shr16, Xor;
    ShiftedOut(x);
    XorTwice(x, Shr16(x));
  }

  lemma Folded13(x: Word)
    ensures UndoFold13(Fold13(x)) == x
  {
    hide Shr13, Shr16, Xor;
    var y, s, t := Fold13(x), Shr13(x), Shr13(Shr13(x));
    ShiftDistributes(x, s);
    ShiftedOut(x);
    XorRegroups(y, Xor(s, t), t);
    XorTwice(s, t);
    XorTwice(x, s);
  }

  lemma ScrambleInjective(x: Word, y: Word)
    ensures Scramble(x) == Scramble(y) ==> x == y
  {
    hide Rotl15, Times5Plus, TimesC1, TimesC2, TimesF1, TimesF2, Undo5Plus, UndoC1, UndoC2, UndoF1, UndoF2,
         UndoRotl15;
    Multiplied(x);
    Multiplied(y);
    Rotated15(TimesC1(x));
    Rotated15(TimesC1(y));
    Multiplied(Rotl15(TimesC1(x)));
    Multiplied(Rotl15(TimesC1(y)));
  }

  lemma XorInjective(x: Word, y: Word, z: Word)
    ensures Xor(x, z) == Xor(y, z) ==> x == y
    ensures Xor(z, x) == Xor(z, y) ==> x == y
  {
  }

  /** A turn of the loop loses nothing: neither of the hash so far nor of the block. */
  lemma MixInjective(h: Word, k: Word, h': Word, k': Word)
    ensures Mix(h, k) == Mix(h', k) ==> h == h'
    ensures Mix(h, k) == Mix(h, k') ==> k == k'
  {
    hide Rotl13, Scramble, Times5Plus, Xor;
    Unmixed(Xor(h, Scramble(k)), Xor(h', Scramble(k)));
    Unmixed(Xor(h, Scramble(k)), Xor(h, Scramble(k')));
    XorInjective(h, h', Scramble(k));
    XorInjective(Scramble(k), Scramble(k'), h);
    ScrambleInjective(k, k');
  }

  lemma Unmixed(x: Word, y: Word)
    ensures Times5Plus(Rotl13(x)) == Times5Plus(Rotl13(y)) ==> x == y
  {
    hide Rotl13, Times5Plus, TimesC1, TimesC2, TimesF1, TimesF2, Undo5Plus, UndoC1, UndoC2, UndoF1, UndoF2,
         UndoRotl13;
    Rotated13(x);
    Rotated13(y);
    Multiplied(Rotl13(x));
    Multiplied(Rotl13(y));
  }

  lemma FinishInjective(x: Word, y: Word)
    ensures Finish(x) == Finish(y) ==> x == y
  {
    hide Finish, Unfinish;
    UndoFinish(x);
    UndoFinish(y);
  }

  function Unfinish(hash: Word): Word { Fold16(UndoF1(UndoFold13(UndoF2(Fold16(hash))))) }

  lemma UndoFinish(x: Word)
    ensures Unfinish(Finish(x)) == x
  {
    hide Fold13, Fold16, Times5Plus, TimesC1, TimesC2, TimesF1, TimesF2, Undo5Plus, UndoC1, UndoC2, UndoF1, UndoF2,
         UndoFold13;
    var a := Fold16(x);
    var b := TimesF1(a);
    var c := Fold13(b);
    Folded16(TimesF2(c));
    Multiplied(c);
    Folded13(b);
    Multiplied(a);
    Folded16(x);
  }

  // ---- the hash -----------------------------------------------------------------------------------------------

  /** A block as the loop loads it, on a little-endian machine. */
  function Load(b0: Byte, b1: Byte, b2: Byte, b3: Byte): Word {
    (b0 as Word) | ((b1 as Word) << 8) | ((b2 as Word) << 16) | ((b3 as Word) << 24)
  }

  lemma LoadInjective(a0: Byte, a1: Byte, a2: Byte, a3: Byte, b0: Byte, b1: Byte, b2: Byte, b3: Byte)
    ensures Load(a0, a1, a2, a3) == Load(b0, b1, b2, b3) ==> a0 == b0 && a1 == b1 && a2 == b2 && a3 == b3
  {
  }

  function Block(key: seq<Byte>, i: nat): Word
    requires 4 * i + 4 <= |key|
  {
    Load(key[4 * i], key[4 * i + 1], key[4 * i + 2], key[4 * i + 3])
  }

  /** The hash after the first n blocks. */
  function Blocks(key: seq<Byte>, n: nat, seed: Word): Word
    requires 4 * n <= |key|
  {
    if n == 0 then seed else Mix(Blocks(key, n - 1, seed), Block(key, n - 1))
  }

  /** The bytes after the last whole block, as one word. */
  function Tail(key: seq<Byte>): Word {
    var at, left := |key| / 4 * 4, |key| % 4;
    Load(if left >= 1 then key[at] else 0, if left >= 2 then key[at + 1] else 0, if left >= 3 then key[at + 2] else 0,
         0)
  }

  /** A length as a word, which wraps around. */
  function Length(n: nat): Word { if n == 0 then 0 else OneMore(Length(n - 1)) }

  function OneMore(x: Word): Word { x + 1 }

  function Hash(key: seq<Byte>, seed: Word): Word {
    var hash := Blocks(key, |key| / 4, seed);
    var mixed := if |key| % 4 == 0 then hash else Xor(hash, Scramble(Tail(key)));
    Finish(Xor(mixed, Length(|key|)))
  }

  function Shl0(b: Byte): Word { b as Word }
  function Shl8(b: Byte): Word { (b as Word) << 8 }
  function Shl16(b: Byte): Word { (b as Word) << 16 }

  /** How the switch gathers the last bytes. */
  lemma TailGathered(b0: Byte, b1: Byte, b2: Byte)
    ensures Load(b0, b1, b2, 0) == Xor(Xor(Xor(0, Shl16(b2)), Shl8(b1)), Shl0(b0))
    ensures Load(b0, b1, 0, 0) == Xor(Xor(0, Shl8(b1)), Shl0(b0))
    ensures Load(b0, 0, 0, 0) == Xor(0, Shl0(b0))
  {
  }

  method MurmurHash3(key: seq<Byte>, seed: Word) returns (hash: Word)
    ensures hash == Hash(key, seed)
  {
    hide Block, Fold13, Fold16, Length, Load, Rotl13, Rotl15, Shl0, Shl16, Shl8, Times5Plus, TimesC1, TimesC2,
         TimesF1, TimesF2, Xor;
    var nblocks := |key| / 4;
    hash := seed;
    var k: Word;
    for i := 0 to nblocks
      invariant hash == Blocks(key, i, seed)
    {
      k := Block(key, i);
      k := TimesC1(k);
      k := Rotl15(k);
      k := TimesC2(k);
      hash := Xor(hash, k);
      hash := Rotl13(hash);
      hash := Times5Plus(hash);
    }
    var at, left := 4 * nblocks, |key| % 4;
    if left > 0 {
      TailGathered(key[at], if left >= 2 then key[at + 1] else 0, if left >= 3 then key[at + 2] else 0);
    }
    k := 0;
    if left >= 3 {
      k := Xor(k, Shl16(key[at + 2]));
    }
    if left >= 2 {
      k := Xor(k, Shl8(key[at + 1]));
    }
    if left >= 1 {
      k := Xor(k, Shl0(key[at]));
      assert k == Tail(key);
      k := TimesC1(k);
      k := Rotl15(k);
      k := TimesC2(k);
      hash := Xor(hash, k);
    }
    hash := Xor(hash, Length(|key|));
    hash := Fold16(hash);
    hash := TimesF1(hash);
    hash := Fold13(hash);
    hash := TimesF2(hash);
    hash := Fold16(hash);
  }

  // ---- keys that cannot collide -------------------------------------------------------------------------------

  /** Two keys of the same length that agree outside the bytes from lo to hi. */
  ghost predicate AgreeOutside(a: seq<Byte>, b: seq<Byte>, lo: nat, hi: nat) {
    |a| == |b| && forall i :: 0 <= i < |a| && !(lo <= i < hi) ==> a[i] == b[i]
  }

  lemma {:induction false} SameBlocks(a: seq<Byte>, b: seq<Byte>, lo: nat, hi: nat, n: nat, seed: Word)
    requires AgreeOutside(a, b, lo, hi) && 4 * n <= lo && 4 * n <= |a|
    ensures Blocks(a, n, seed) == Blocks(b, n, seed)
  {
    hide Mix, Load;
    if n > 0 {
      SameBlocks(a, b, lo, hi, n - 1, seed);
    }
  }

  lemma {:induction false} BlocksStayApart(a: seq<Byte>, b: seq<Byte>, j: nat, n: nat, seed: Word)
    requires AgreeOutside(a, b, 4 * j, 4 * j + 4) && j < n && 4 * n <= |a| && Block(a, j) != Block(b, j)
    ensures Blocks(a, n, seed) != Blocks(b, n, seed)
  {
    hide Mix, Load;
    if n - 1 == j {
      SameBlocks(a, b, 4 * j, 4 * j + 4, j, seed);
    } else {
      BlocksStayApart(a, b, j, n - 1, seed);
    }
    MixInjective(Blocks(a, n - 1, seed), Block(a, n - 1), Blocks(b, n - 1, seed), Block(b, n - 1));
  }

  lemma HashesApart(a: seq<Byte>, b: seq<Byte>, x: Word, y: Word)
    requires |a| == |b| && x != y
    ensures Finish(Xor(x, Length(|a|))) != Finish(Xor(y, Length(|b|)))
  {
    hide Finish, Length, Xor;
    XorInjective(x, y, Length(|a|));
    FinishInjective(Xor(x, Length(|a|)), Xor(y, Length(|b|)));
  }

  /** Keys that differ within one aligned block, and nowhere else, do not collide. */
  lemma OneBlockApart(a: seq<Byte>, b: seq<Byte>, j: nat, seed: Word)
    requires AgreeOutside(a, b, 4 * j, 4 * j + 4) && 4 * j + 4 <= |a| && a != b
    ensures Hash(a, seed) != Hash(b, seed)
  {
    hide Mix, Load, Scramble, Xor, Finish, Length;
    LoadInjective(a[4 * j], a[4 * j + 1], a[4 * j + 2], a[4 * j + 3],
                  b[4 * j], b[4 * j + 1], b[4 * j + 2], b[4 * j + 3]);
    var n := |a| / 4;
    BlocksStayApart(a, b, j, n, seed);
    var x, y := Blocks(a, n, seed), Blocks(b, n, seed);
    HashesApart(a, b, x, y);
    var t := Scramble(Tail(a));
    assert |a| % 4 != 0 ==> Tail(a) == Tail(b);
    XorInjective(x, y, t);
    HashesApart(a, b, Xor(x, t), Xor(y, t));
  }

  /** Keys that differ within the last, incomplete block, and nowhere else, do not collide. */
  lemma TailsApart(a: seq<Byte>, b: seq<Byte>, seed: Word)
    requires AgreeOutside(a, b, |a| / 4 * 4, |a|) && a != b
    ensures Hash(a, seed) != Hash(b, seed)
  {
    hide Mix, Load, Scramble, Xor, Finish, Length;
    var n := |a| / 4;
    SameBlocks(a, b, 4 * n, |a|, n, seed);
    TailInjective(a, b);
    ScrambleInjective(Tail(a), Tail(b));
    var h := Blocks(a, n, seed);
    XorInjective(Scramble(Tail(a)), Scramble(Tail(b)), h);
    HashesApart(a, b, Xor(h, Scramble(Tail(a))), Xor(h, Scramble(Tail(b))));
  }

  lemma TailInjective(a: seq<Byte>, b: seq<Byte>)
    requires AgreeOutside(a, b, |a| / 4 * 4, |a|) && a != b
    ensures |a| % 4 != 0 && Tail(a) != Tail(b)
  {
  }

  lemma MoreIsDifferent(x: Word)
    ensures OneMore(x) != x && OneMore(OneMore(x)) != x && OneMore(OneMore(OneMore(x))) != x
  {
  }

  lemma LengthsApart(m: nat, n: nat)
    requires m < n <= m + 3
    ensures Length(m) != Length(n)
  {
    hide OneMore;
    MoreIsDifferent(Length(m));
    assert Length(m + 1) == OneMore(Length(m));
    assert Length(m + 2) == OneMore(Length(m + 1));
    assert Length(m + 3) == OneMore(Length(m + 2));
  }

  lemma {:induction false} SameStart(a: seq<Byte>, b: seq<Byte>, n: nat, seed: Word)
    requires 4 * n <= |a| && a <= b
    ensures Blocks(a, n, seed) == Blocks(b, n, seed)
  {
    hide Mix, Load;
    if n > 0 {
      SameStart(a, b, n - 1, seed);
    }
  }

  lemma ZerosDoNotShow(a: seq<Byte>, b: seq<Byte>)
    requires a <= b && |b| / 4 == |a| / 4 && forall i :: |a| <= i < |b| ==> b[i] == 0
    ensures Tail(a) == Tail(b)
  {
    hide Load;
  }

  lemma NothingScrambled()
    ensures Load(0, 0, 0, 0) == 0 && Scramble(0) == 0
  {
  }

  lemma NothingAdded(h: Word)
    ensures Xor(h, 0) == h
  {
  }

  /** The hash before the finaliser, but for the length: an empty tail adds nothing. */
  lemma HashWithTail(key: seq<Byte>, seed: Word)
    ensures Hash(key, seed) == Finish(Xor(Xor(Blocks(key, |key| / 4, seed), Scramble(Tail(key))), Length(|key|)))
  {
    hide Mix, Load, Scramble, Xor, Finish, Length;
    NothingScrambled();
    NothingAdded(Blocks(key, |key| / 4, seed));
  }

  /** Zeros added within the last, incomplete block are not gathered any differently; but the length tells. */
  lemma ZerosApart(a: seq<Byte>, b: seq<Byte>, seed: Word)
    requires a < b && |b| / 4 == |a| / 4 && forall i :: |a| <= i < |b| ==> b[i] == 0
    ensures Hash(a, seed) != Hash(b, seed)
  {
    hide Mix, Load, Scramble, Xor, Finish, Length, Blocks, Tail, Hash;
    HashWithTail(a, seed);
    HashWithTail(b, seed);
    SameStart(a, b, |a| / 4, seed);
    ZerosDoNotShow(a, b);
    var h := Xor(Blocks(a, |a| / 4, seed), Scramble(Tail(a)));
    LengthsApart(|a|, |b|);
    XorInjective(Length(|a|), Length(|b|), h);
    FinishInjective(Xor(h, Length(|a|)), Xor(h, Length(|b|)));
  }

  lemma {:induction false} SeedsStayApart(key: seq<Byte>, n: nat, seed: Word, seed': Word)
    requires 4 * n <= |key| && seed != seed'
    ensures Blocks(key, n, seed) != Blocks(key, n, seed')
  {
    hide Mix, Load;
    if n > 0 {
      SeedsStayApart(key, n - 1, seed, seed');
      MixInjective(Blocks(key, n - 1, seed), Block(key, n - 1), Blocks(key, n - 1, seed'), Block(key, n - 1));
    }
  }

  /** One key under two seeds has two hashes. */
  lemma SeedsApart(key: seq<Byte>, seed: Word, seed': Word)
    requires seed != seed'
    ensures Hash(key, seed) != Hash(key, seed')
  {
    hide Mix, Load, Scramble, Xor, Finish, Length, Blocks, Tail, Hash;
    HashWithTail(key, seed);
    HashWithTail(key, seed');
    SeedsStayApart(key, |key| / 4, seed, seed');
    var x, y, t := Blocks(key, |key| / 4, seed), Blocks(key, |key| / 4, seed'), Scramble(Tail(key));
    XorInjective(x, y, t);
    HashesApart(key, key, Xor(x, t), Xor(y, t));
  }

  lemma KnownSteps()
    ensures Mix(0, 0x87654321) == 0xbb095db4 && Scramble(0x654321) == 0x17a6636e
    ensures Finish(0xbb095db0) == 0xf55b516b && Finish(0x17a6636d) == 0x7e4a8634 && Finish(1) == 0x514e28b7
  {
    assert Scramble(0x87654321) == 0x5082edee;
  }

  lemma KnownParts()
    ensures Load(0x21, 0x43, 0x65, 0x87) == 0x87654321 && Load(0x21, 0x43, 0x65, 0) == 0x654321
    ensures Xor(0xbb095db4, Length(4)) == 0xbb095db0 && Xor(0x17a6636e, Length(3)) == 0x17a6636d
    ensures Xor(1, Length(0)) == 1 && Xor(0, 0x17a6636e) == 0x17a6636e
  {
    assert Length(0) == 0 && Length(1) == 1 && Length(2) == 2 && Length(3) == 3 && Length(4) == 4;
  }

  /** Known values of the hash. */
  lemma KnownHashes()
    ensures Hash([], 1) == 0x514e28b7
    ensures Hash([0x21, 0x43, 0x65, 0x87], 0) == 0xf55b516b
    ensures Hash([0x21, 0x43, 0x65], 0) == 0x7e4a8634
  {
    hide Finish, Length, Load, Mix, Scramble, Xor;
    KnownSteps();
    KnownParts();
    assert Blocks([], 0, 1) == 1;
    assert Blocks([0x21, 0x43, 0x65], 0, 0) == 0;
    assert Blocks([0x21, 0x43, 0x65, 0x87], 0, 0) == 0;
    assert Blocks([0x21, 0x43, 0x65, 0x87], 1, 0) == 0xbb095db4;
  }
}
