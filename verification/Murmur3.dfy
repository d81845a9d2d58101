/** The one-shot and the streaming 128-bit MurmurHash3: pkg/murmur3/murmur128.go and
    pkg/murmur3/murmur3.go. The hash of a message is a function, Hash; the digest object
    is proved to compute it however the message is cut into writes. */
module Murmur3 {
  import opened BlockHash
  import opened Murmur3Mix

  // ----- little-endian words

  function ByteAt(s: Bytes, i: nat): bv8 { if i < |s| then s[i] else 0 }

  /** Byte i of a little-endian word, where it belongs. */
  function Lane(b: bv8, i: nat): bv64 {
    match i
    case 0 => b as bv64
    case 1 => (b as bv64) << 8
    case 2 => (b as bv64) << 16
    case 3 => (b as bv64) << 24
    case 4 => (b as bv64) << 32
    case 5 => (b as bv64) << 40
    case 6 => (b as bv64) << 48
    case _ => (b as bv64) << 56
  }

  /** The word with b0 as its lowest byte. */
  function Pack(b0: bv8, b1: bv8, b2: bv8, b3: bv8, b4: bv8, b5: bv8, b6: bv8, b7: bv8): bv64 {
    Xor(Xor(Xor(Xor(Xor(Xor(Xor(
      Lane(b7, 7), Lane(b6, 6)), Lane(b5, 5)), Lane(b4, 4)), Lane(b3, 3)), Lane(b2, 2)), Lane(b1, 1)), Lane(b0, 0))
  }

  /** The eight bytes of s from i on as a little-endian word; missing bytes count as zero. */
  function Word(s: Bytes, i: nat): bv64 {
    Pack(ByteAt(s, i), ByteAt(s, i + 1), ByteAt(s, i + 2), ByteAt(s, i + 3),
         ByteAt(s, i + 4), ByteAt(s, i + 5), ByteAt(s, i + 6), ByteAt(s, i + 7))
  }

  lemma PackIsInjective(a0: bv8, a1: bv8, a2: bv8, a3: bv8, a4: bv8, a5: bv8, a6: bv8, a7: bv8,
                        b0: bv8, b1: bv8, b2: bv8, b3: bv8, b4: bv8, b5: bv8, b6: bv8, b7: bv8)
    requires Pack(a0, a1, a2, a3, a4, a5, a6, a7) == Pack(b0, b1, b2, b3, b4, b5, b6, b7)
    ensures a0 == b0 && a1 == b1 && a2 == b2 && a3 == b3 && a4 == b4 && a5 == b5 && a6 == b6 && a7 == b7
  {
  }

  lemma WordIsInjective(s: Bytes, t: Bytes, i: nat)
    requires Word(s, i) == Word(t, i)
    ensures forall k | i <= k < i + 8 :: ByteAt(s, k) == ByteAt(t, k)
  {
    PackIsInjective(ByteAt(s, i), ByteAt(s, i + 1), ByteAt(s, i + 2), ByteAt(s, i + 3),
                    ByteAt(s, i + 4), ByteAt(s, i + 5), ByteAt(s, i + 6), ByteAt(s, i + 7),
                    ByteAt(t, i), ByteAt(t, i + 1), ByteAt(t, i + 2), ByteAt(t, i + 3),
                    ByteAt(t, i + 4), ByteAt(t, i + 5), ByteAt(t, i + 6), ByteAt(t, i + 7));
    forall k | i <= k < i + 8
      ensures ByteAt(s, k) == ByteAt(t, k)
    {
      assert k == i || k == i + 1 || k == i + 2 || k == i + 3
          || k == i + 4 || k == i + 5 || k == i + 6 || k == i + 7;
    }
  }

  lemma TwoWordsAreInjective(s: Bytes, t: Bytes)
    requires |s| == |t| <= 16
    requires Word(s, 0) == Word(t, 0)
    requires |s| <= 8 || Word(s, 8) == Word(t, 8)
    ensures s == t
  {
    WordIsInjective(s, t, 0);
    if |s| > 8 {
      WordIsInjective(s, t, 8);
    }
    forall k | 0 <= k < |s|
      ensures s[k] == t[k]
    {
      assert ByteAt(s, k) == ByteAt(t, k);
    }
  }

  // ----- the hash as a function

  function BlockOf(b: Bytes): Block { Block(Word(b, 0), Word(b, 8)) }

  function StepBytes(s: State, b: Bytes): State { Step(s, BlockOf(b)) }

  function AddTail(s: State, tail: Bytes): State {
    State(if |tail| > 0 then Xor(s.h1, MixK1(Word(tail, 0))) else s.h1,
          if |tail| > 8 then Xor(s.h2, MixK2(Word(tail, 8))) else s.h2)
  }

  function Doubled(x: bv64, odd: bool): bv64 { if odd then (x << 1) | 1 else x << 1 }

  /** uint64(n): the last 64 binary digits. */
  function Length64(n: nat): bv64 { if n == 0 then 0 else Doubled(Length64(n / 2), n % 2 == 1) }

  function FinishLength(s: State, n: nat): State { Finish(s, Length64(n)) }

  const MURMUR_128: Engine<State> := Engine(StepBytes, AddTail, FinishLength)

  function Start(seed: bv32): State { State(seed as bv64, seed as bv64) }

  function Hash(seed: bv32, data: Bytes): State { Digest(MURMUR_128, Start(seed), data) }

  // ----- the engine is lossless, so the collision theorems apply to it

  lemma StepKeepsStatesApart(s: State, t: State, b: Block)
    requires Step(s, b) == Step(t, b)
    ensures s == t
  {
    StepIsBijectionOfState(s, b);
    StepIsBijectionOfState(t, b);
  }

  lemma StepKeepsBlocksApart(s: State, a: Block, b: Block)
    requires Step(s, a) == Step(s, b)
    ensures a == b
  {
    StepIsBijectionOfBlock(s, a, s);
    StepIsBijectionOfBlock(s, b, s);
  }

  lemma BlockOfIsInjective(a: Bytes, b: Bytes)
    requires |a| == |b| == 16 && BlockOf(a) == BlockOf(b)
    ensures a == b
  {
    TwoWordsAreInjective(a, b);
  }

  lemma XorIsInjective(h: bv64, g: bv64, m: bv64)
    ensures Xor(h, m) == Xor(g, m) ==> h == g
    ensures Xor(m, h) == Xor(m, g) ==> h == g
  {
    XorCancels(h, m);
    XorCancels(g, m);
  }

  lemma MixK1IsInjective(j: bv64, k: bv64)
    requires MixK1(j) == MixK1(k)
    ensures j == k
  {
    UnmixK1Inverts(j);
    UnmixK1Inverts(k);
  }

  lemma MixK2IsInjective(j: bv64, k: bv64)
    requires MixK2(j) == MixK2(k)
    ensures j == k
  {
    UnmixK2Inverts(j);
    UnmixK2Inverts(k);
  }

  lemma AddTailKeepsStatesApart(s: State, t: State, tail: Bytes)
    requires AddTail(s, tail) == AddTail(t, tail)
    ensures s == t
  {
    XorIsInjective(s.h1, t.h1, MixK1(Word(tail, 0)));
    XorIsInjective(s.h2, t.h2, MixK2(Word(tail, 8)));
  }

  lemma AddTailKeepsTailsApart(s: State, a: Bytes, b: Bytes)
    requires |a| == |b| < 16 && AddTail(s, a) == AddTail(s, b)
    ensures a == b
  {
    if |a| > 0 {
      XorIsInjective(MixK1(Word(a, 0)), MixK1(Word(b, 0)), s.h1);
      MixK1IsInjective(Word(a, 0), Word(b, 0));
      if |a| > 8 {
        XorIsInjective(MixK2(Word(a, 8)), MixK2(Word(b, 8)), s.h2);
        MixK2IsInjective(Word(a, 8), Word(b, 8));
      }
      TwoWordsAreInjective(a, b);
    }
  }

  lemma FinishKeepsStatesApart(s: State, t: State, n: bv64)
    requires Finish(s, n) == Finish(t, n)
    ensures s == t
  {
    FinishIsBijection(s, n);
    FinishIsBijection(t, n);
  }

  lemma Murmur128IsLossless()
    ensures Lossless(MURMUR_128)
  {
    forall s, t, b | s != t
      ensures MURMUR_128.step(s, b) != MURMUR_128.step(t, b)
    {
      if StepBytes(s, b) == StepBytes(t, b) { StepKeepsStatesApart(s, t, BlockOf(b)); }
    }
    forall s, a, b | |a| == |b| == 16 && a != b
      ensures MURMUR_128.step(s, a) != MURMUR_128.step(s, b)
    {
      if StepBytes(s, a) == StepBytes(s, b) {
        StepKeepsBlocksApart(s, BlockOf(a), BlockOf(b));
        BlockOfIsInjective(a, b);
      }
    }
    forall s, t, b | s != t
      ensures MURMUR_128.addTail(s, b) != MURMUR_128.addTail(t, b)
    {
      if AddTail(s, b) == AddTail(t, b) { AddTailKeepsStatesApart(s, t, b); }
    }
    forall s, a, b | |a| == |b| < 16 && a != b
      ensures MURMUR_128.addTail(s, a) != MURMUR_128.addTail(s, b)
    {
      if AddTail(s, a) == AddTail(s, b) { AddTailKeepsTailsApart(s, a, b); }
    }
    forall s, t, n | s != t
      ensures MURMUR_128.finish(s, n) != MURMUR_128.finish(t, n)
    {
      if FinishLength(s, n) == FinishLength(t, n) { FinishKeepsStatesApart(s, t, Length64(n)); }
    }
  }

  /** Two different messages of one length whose differences all lie in the j-th 16-byte
      stretch, complete or not, hash differently under every seed. */
  lemma HashSeparatesOneBlockChanges(seed: bv32, m: Bytes, n: Bytes, j: nat)
    requires |m| == |n| && m != n && SameOutside(m, n, j)
    ensures Hash(seed, m) != Hash(seed, n)
  {
    Murmur128IsLossless();
    NoCollisionWithinOneBlock(MURMUR_128, Start(seed), m, n, j);
  }

  lemma SeedIsInjective(a: bv32, b: bv32)
    requires a as bv64 == b as bv64
    ensures a == b
  {
  }

  /** One message under two seeds never has the same hash. */
  lemma HashSeparatesSeeds(a: bv32, b: bv32, m: Bytes)
    requires a != b
    ensures Hash(a, m) != Hash(b, m)
  {
    if Start(a) == Start(b) {
      SeedIsInjective(a, b);
    }
    Murmur128IsLossless();
    StartsNeverCollide(MURMUR_128, Start(a), Start(b), m);
  }

  // ----- the length

  lemma NoBitsMixToNone()
    ensures MixK1(0) == 0 && MixK2(0) == 0
  {
  }

  /** A zero byte behind an incomplete block leaves the words of the tail as they are ... */
  lemma ZeroByteKeepsWords(tail: Bytes, i: nat)
    ensures Word(tail + [0], i) == Word(tail, i)
    ensures |tail| <= i ==> Word(tail, i) == 0
  {
    assert forall k: nat :: ByteAt(tail + [0], k) == ByteAt(tail, k);
    hide Pack;
    if |tail| <= i {
      PackOfNothing();
    }
  }

  lemma PackOfNothing()
    ensures Pack(0, 0, 0, 0, 0, 0, 0, 0) == 0
  {
  }

  lemma XorNothing(h: bv64)
    ensures Xor(h, 0) == h
  {
  }

  /** ... and so the state they are mixed into. */
  lemma ZeroByteKeepsTail(s: State, tail: Bytes)
    requires |tail| < 15
    ensures AddTail(s, tail + [0]) == AddTail(s, tail)
  {
    hide Word, Xor, MixK1, MixK2;
    NoBitsMixToNone();
    ZeroByteKeepsWords(tail, 0);
    ZeroByteKeepsWords(tail, 8);
    XorNothing(s.h1);
    XorNothing(s.h2);
  }

  lemma LastDigit(x: bv64, odd: bool)
    ensures Doubled(x, odd) & 1 == if odd then 1 else 0
  {
  }

  lemma LengthDigit(n: nat)
    ensures Length64(n) & 1 == if n % 2 == 1 then 1 else 0
  {
    if n > 0 {
      LastDigit(Length64(n / 2), n % 2 == 1);
    }
    hide Doubled;
  }

  /** One state finished with a length and the next never gives the same hash. */
  lemma LengthsStayApart(s: State, n: nat)
    ensures FinishLength(s, n) != FinishLength(s, n + 1)
  {
    LengthDigit(n);
    LengthDigit(n + 1);
    hide Length64, Finish;
    if Finish(s, Length64(n)) == Finish(s, Length64(n + 1)) {
      FinishSeparatesLengths(s, Length64(n), Length64(n + 1));
    }
  }

  lemma RestOfLonger(m: Bytes)
    requires |m| % 16 < 15
    ensures Rest(m + [0]) == Rest(m) + [0] && |Rest(m)| == |m| % 16
  {
    FeedMore(MURMUR_128, Start(0), m, [0]);
    hide Absorb;
  }

  lemma AbsorbLonger(s: State, m: Bytes)
    requires |m| % 16 < 15
    ensures Absorb(MURMUR_128, s, m + [0]) == Absorb(MURMUR_128, s, m)
  {
    FeedMore(MURMUR_128, s, m, [0]);
    RestOfLonger(m);
  }

  /** Equal up to a zero byte at the end, two messages still hash differently: the length counts. */
  lemma ZeroByteChangesHash(seed: bv32, m: Bytes)
    requires |m| % 16 < 15
    ensures Hash(seed, m + [0]) != Hash(seed, m)
  {
    AbsorbLonger(Start(seed), m);
    RestOfLonger(m);
    var s := Absorb(MURMUR_128, Start(seed), m);
    ZeroByteKeepsTail(s, Rest(m));
    LengthsStayApart(AddTail(s, Rest(m)), |m|);
    hide Absorb, Rest, AddTail, FinishLength;
  }
}
