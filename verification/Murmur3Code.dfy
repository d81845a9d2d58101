/** The step-by-step code of pkg/murmur3/murmur128.go: the body of the block loop, the tail
    switch and the finalisation, and the one-shot hash built from them. */
module Murmur3Code {
  import opened BlockHash
  import opened BlockDigest
  import opened Murmur3Mix
  import opened Murmur3

  /** The body of the block loop. */
  method MixBlock(a1: bv64, a2: bv64, b1: bv64, b2: bv64) returns (h1: bv64, h2: bv64)
    ensures State(h1, h2) == Step(State(a1, a2), Block(b1, b2))
  {
    var k1, k2 := b1, b2;
    h1, h2 := a1, a2;

    k1 := MulC1(k1);
    k1 := Rotl31(k1);
    k1 := MulC2(k1);
    h1 := Xor(h1, k1);

    h1 := Rotl27(h1);
    h1 := Add(h1, h2);
    h1 := Add(Mul5(h1), 0x52dce729);

    k2 := MulC2(k2);
    k2 := Rotl33(k2);
    k2 := MulC1(k2);
    h2 := Xor(h2, k2);

    h2 := Rotl31(h2);
    h2 := Add(h2, h1);
    h2 := Add(Mul5(h2), 0x38495ab5);
  }

  method Fmix(k: bv64) returns (r: bv64)
    ensures r == Fmix64(k)
  {
    r := k;
    r := XorShift33(r);
    r := MulF1(r);
    r := XorShift33(r);
    r := MulF2(r);
    r := XorShift33(r);
  }

  // ----- the tail switch

  /** What the cases of the switch from byte at + 7 down to byte at + i collect. */
  function Collected(s: Bytes, at: nat, i: nat): bv64
    decreases 8 - i
  {
    if i >= 8 then 0 else Xor(Collected(s, at, i + 1), Lane(ByteAt(s, at + i), i))
  }

  lemma NoByte(k: bv64, i: nat)
    ensures Xor(k, Lane(0, i)) == k
  {
    assert Lane(0, i) == 0;
    hide Lane;
  }

  /** A case that is jumped over would have collected nothing. */
  lemma CollectedAt(s: Bytes, at: nat, i: nat)
    requires i < 8
    ensures Collected(s, at, i) ==
      if at + i < |s| then Xor(Collected(s, at, i + 1), Lane(s[at + i], i)) else Collected(s, at, i + 1)
  {
    hide Xor, Lane;
    NoByte(Collected(s, at, i + 1), i);
  }

  lemma CollectedNone(s: Bytes, at: nat)
    ensures Collected(s, at, 8) == 0
  {
  }

  lemma XorZero(x: bv64)
    ensures Xor(0, x) == x
  {
  }

  lemma CollectedOnce(s: Bytes, at: nat, i: nat)
    requires i < 8
    ensures Collected(s, at, i) == Xor(Collected(s, at, i + 1), Lane(ByteAt(s, at + i), i))
  {
    hide Xor, Lane, ByteAt;
  }

  /** The whole switch collects the word. */
  lemma CollectedIsWord(s: Bytes, at: nat)
    ensures Collected(s, at, 0) == Word(s, at)
  {
    hide Collected, Xor, Lane, ByteAt;
    CollectedNone(s, at);
    CollectedOnce(s, at, 7);
    CollectedOnce(s, at, 6);
    CollectedOnce(s, at, 5);
    CollectedOnce(s, at, 4);
    CollectedOnce(s, at, 3);
    CollectedOnce(s, at, 2);
    CollectedOnce(s, at, 1);
    CollectedOnce(s, at, 0);
    XorZero(Lane(ByteAt(s, at + 7), 7));
  }

  /** The words that the fall-through switch of Sum128 collects from the upper half of the tail. */
  method UpperTailWord(tail: Bytes) returns (k2: bv64)
    requires 8 < |tail| < 16
    ensures k2 == Word(tail, 8)
  {
    hide *;
    var n := |tail|;
    k2 := 0;
    CollectedNone(tail, 8);
    CollectedAt(tail, 8, 7);
    CollectedAt(tail, 8, 6);
    if n >= 15 { k2 := Xor(k2, Lane(tail[14], 6)); }
    assert k2 == Collected(tail, 8, 6);
    CollectedAt(tail, 8, 5);
    if n >= 14 { k2 := Xor(k2, Lane(tail[13], 5)); }
    assert k2 == Collected(tail, 8, 5);
    CollectedAt(tail, 8, 4);
    if n >= 13 { k2 := Xor(k2, Lane(tail[12], 4)); }
    assert k2 == Collected(tail, 8, 4);
    CollectedAt(tail, 8, 3);
    if n >= 12 { k2 := Xor(k2, Lane(tail[11], 3)); }
    assert k2 == Collected(tail, 8, 3);
    CollectedAt(tail, 8, 2);
    if n >= 11 { k2 := Xor(k2, Lane(tail[10], 2)); }
    assert k2 == Collected(tail, 8, 2);
    CollectedAt(tail, 8, 1);
    if n >= 10 { k2 := Xor(k2, Lane(tail[9], 1)); }
    assert k2 == Collected(tail, 8, 1);
    CollectedAt(tail, 8, 0);
    k2 := Xor(k2, Lane(tail[8], 0));
    CollectedIsWord(tail, 8);
  }

  /** ... and from its lower half. */
  method LowerTailWord(tail: Bytes) returns (k1: bv64)
    requires 0 < |tail| < 16
    ensures k1 == Word(tail, 0)
  {
    hide *;
    var n := |tail|;
    k1 := 0;
    CollectedNone(tail, 0);
    CollectedAt(tail, 0, 7);
    if n >= 8 { k1 := Xor(k1, Lane(tail[7], 7)); }
    assert k1 == Collected(tail, 0, 7);
    CollectedAt(tail, 0, 6);
    if n >= 7 { k1 := Xor(k1, Lane(tail[6], 6)); }
    assert k1 == Collected(tail, 0, 6);
    CollectedAt(tail, 0, 5);
    if n >= 6 { k1 := Xor(k1, Lane(tail[5], 5)); }
    assert k1 == Collected(tail, 0, 5);
    CollectedAt(tail, 0, 4);
    if n >= 5 { k1 := Xor(k1, Lane(tail[4], 4)); }
    assert k1 == Collected(tail, 0, 4);
    CollectedAt(tail, 0, 3);
    if n >= 4 { k1 := Xor(k1, Lane(tail[3], 3)); }
    assert k1 == Collected(tail, 0, 3);
    CollectedAt(tail, 0, 2);
    if n >= 3 { k1 := Xor(k1, Lane(tail[2], 2)); }
    assert k1 == Collected(tail, 0, 2);
    CollectedAt(tail, 0, 1);
    if n >= 2 { k1 := Xor(k1, Lane(tail[1], 1)); }
    assert k1 == Collected(tail, 0, 1);
    CollectedAt(tail, 0, 0);
    k1 := Xor(k1, Lane(tail[0], 0));
    CollectedIsWord(tail, 0);
  }

  /** Sum128: mix in the tail bytes, then the length, then finalise. */
  method Sum(s: State, tail: Bytes, clen: nat) returns (r: State)
    requires |tail| < 16
    ensures r == FinishLength(AddTail(s, tail), clen)
  {
    var h1, h2 := s.h1, s.h2;
    if |tail| >= 9 {
      var k2 := UpperTailWord(tail);
      k2 := MulC2(k2);
      k2 := Rotl33(k2);
      k2 := MulC1(k2);
      h2 := Xor(h2, k2);
    }
    if |tail| >= 1 {
      var k1 := LowerTailWord(tail);
      k1 := MulC1(k1);
      k1 := Rotl31(k1);
      k1 := MulC2(k1);
      h1 := Xor(h1, k1);
    }
    assert State(h1, h2) == AddTail(s, tail);
    r := Finalise(h1, h2, Length64(clen));
  }

  method Finalise(a1: bv64, a2: bv64, clen: bv64) returns (r: State)
    ensures r == Finish(State(a1, a2), clen)
  {
    var h1, h2 := a1, a2;
    h1 := Xor(h1, clen);
    h2 := Xor(h2, clen);
    h1 := Add(h1, h2);
    h2 := Add(h2, h1);
    h1 := Fmix(h1);
    h2 := Fmix(h2);
    h1 := Add(h1, h2);
    h2 := Add(h2, h1);
    r := State(h1, h2);
  }

  /** Sum128WithSeed: the one-shot hash. */
  method Sum128WithSeed(data: Bytes, seed: bv32) returns (r: State)
    ensures r == Hash(seed, data)
  {
    var s, tail := MixBlocks(MURMUR_128, Start(seed), data);
    r := Sum(s, tail, |data|);
  }

  /** The streaming digest started by New128WithSeed, fed a message in any pieces, reads at every
      point as the one-shot hash of the bytes fed so far. */
  method HashPieces128(seed: bv32, pieces: seq<Bytes>) returns (readings: seq<State>)
    ensures |readings| == |pieces| + 1
    ensures forall i | 0 <= i <= |pieces| :: readings[i] == Hash(seed, Concat(pieces[..i]))
  {
    readings := HashPieces(MURMUR_128, Start(seed), pieces);
  }
}
