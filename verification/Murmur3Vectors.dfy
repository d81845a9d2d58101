/** Hashes of two messages, the empty one and a sentence of two blocks and a tail: they fix every constant,
    rotation and order of the arithmetic of pkg/murmur3/murmur128.go. */
module Murmur3Vectors {
  import opened BlockHash
  import opened Murmur3Mix
  import opened Murmur3

  /** The quick brown fox jumps over the lazy dog. */
  const FOX_1: Bytes := [0x54, 0x68, 0x65, 0x20, 0x71, 0x75, 0x69, 0x63, 0x6b, 0x20, 0x62, 0x72, 0x6f, 0x77, 0x6e, 0x20]
  const FOX_2: Bytes := [0x66, 0x6f, 0x78, 0x20, 0x6a, 0x75, 0x6d, 0x70, 0x73, 0x20, 0x6f, 0x76, 0x65, 0x72, 0x20, 0x74]
  const FOX_3: Bytes := [0x68, 0x65, 0x20, 0x6c, 0x61, 0x7a, 0x79, 0x20, 0x64, 0x6f, 0x67, 0x2e]

  lemma EmptyHash()
    ensures Hash(0, []) == State(0, 0)
  {
    NothingAbsorbed();
    NothingMixed();
    NothingFinished();
    hide Absorb, Finish, AddTail;
    assert Rest([]) == [];
  }

  lemma NothingMixed()
    ensures AddTail(State(0, 0), []) == State(0, 0)
  {
    hide Word;
  }

  lemma NothingFinished()
    ensures FinishLength(State(0, 0), 0) == State(0, 0)
  {
    ZeroLength();
    hide Length64;
    assert XorBoth(State(0, 0), 0) == State(0, 0);
    assert Cross(State(0, 0)) == State(0, 0);
    assert Fmix64(0) == 0 by { ZeroFmix(); }
  }

  lemma ZeroFmix()
    ensures Fmix64(0) == 0
  {
    assert XorShift33(0) == 0 && MulF1(0) == 0 && MulF2(0) == 0;
  }

  lemma ZeroLength()
    ensures Length64(0) == 0
  {
  }

  lemma Fox1Low()
    ensures Word(FOX_1, 0) == 0x6369757120656854
  {
    hide Pack;
    assert Word(FOX_1, 0) == Pack(0x54, 0x68, 0x65, 0x20, 0x71, 0x75, 0x69, 0x63);
    Fox1LowPacked();
  }

  lemma Fox1LowPacked()
    ensures Pack(0x54, 0x68, 0x65, 0x20, 0x71, 0x75, 0x69, 0x63) == 0x6369757120656854
  {
  }

  lemma Fox1High()
    ensures Word(FOX_1, 8) == 0x206e776f7262206b
  {
    hide Pack;
    assert Word(FOX_1, 8) == Pack(0x6b, 0x20, 0x62, 0x72, 0x6f, 0x77, 0x6e, 0x20);
    Fox1HighPacked();
  }

  lemma Fox1HighPacked()
    ensures Pack(0x6b, 0x20, 0x62, 0x72, 0x6f, 0x77, 0x6e, 0x20) == 0x206e776f7262206b
  {
  }

  lemma Fox2Low()
    ensures Word(FOX_2, 0) == 0x706d756a20786f66
  {
    hide Pack;
    assert Word(FOX_2, 0) == Pack(0x66, 0x6f, 0x78, 0x20, 0x6a, 0x75, 0x6d, 0x70);
    Fox2LowPacked();
  }

  lemma Fox2LowPacked()
    ensures Pack(0x66, 0x6f, 0x78, 0x20, 0x6a, 0x75, 0x6d, 0x70) == 0x706d756a20786f66
  {
  }

  lemma Fox2High()
    ensures Word(FOX_2, 8) == 0x74207265766f2073
  {
    hide Pack;
    assert Word(FOX_2, 8) == Pack(0x73, 0x20, 0x6f, 0x76, 0x65, 0x72, 0x20, 0x74);
    Fox2HighPacked();
  }

  lemma Fox2HighPacked()
    ensures Pack(0x73, 0x20, 0x6f, 0x76, 0x65, 0x72, 0x20, 0x74) == 0x74207265766f2073
  {
  }

  lemma Fox3Low()
    ensures Word(FOX_3, 0) == 0x20797a616c206568
  {
    hide Pack;
    assert Word(FOX_3, 0) == Pack(0x68, 0x65, 0x20, 0x6c, 0x61, 0x7a, 0x79, 0x20);
    Fox3LowPacked();
  }

  lemma Fox3LowPacked()
    ensures Pack(0x68, 0x65, 0x20, 0x6c, 0x61, 0x7a, 0x79, 0x20) == 0x20797a616c206568
  {
  }

  lemma Fox3High()
    ensures Word(FOX_3, 8) == 0x2e676f64
  {
    hide Pack;
    assert Word(FOX_3, 8) == Pack(0x64, 0x6f, 0x67, 0x2e, 0x00, 0x00, 0x00, 0x00);
    Fox3HighPacked();
  }

  lemma Fox3HighPacked()
    ensures Pack(0x64, 0x6f, 0x67, 0x2e, 0x00, 0x00, 0x00, 0x00) == 0x2e676f64
  {
  }

  lemma Fox1LowMixed()
    ensures MixK1(0x6369757120656854) == 0xede938f35bfbb35d
  {
    assert MulC1(0x6369757120656854) == 0x88afee474edb09e4;
    assert Rotl31(0x88afee474edb09e4) == 0xa76d84f24457f723;
    assert MulC2(0xa76d84f24457f723) == 0xede938f35bfbb35d;
  }

  lemma Fox1HighMixed()
    ensures MixK2(0x206e776f7262206b) == 0x9b19a81a60aa0b18
  {
    assert MulC2(0x206e776f7262206b) == 0xbad6d15c21228615;
    assert Rotl33(0xbad6d15c21228615) == 0x42450c2b75ada2b8;
    assert MulC1(0x42450c2b75ada2b8) == 0x9b19a81a60aa0b18;
  }

  lemma Fox2LowMixed()
    ensures MixK1(0x706d756a20786f66) == 0x82e320fa65aeeb7a
  {
    assert MulC1(0x706d756a20786f66) == 0x4017930c8e9ec1de;
    assert Rotl31(0x4017930c8e9ec1de) == 0x474f60ef200bc986;
    assert MulC2(0x474f60ef200bc986) == 0x82e320fa65aeeb7a;
  }

  lemma Fox2HighMixed()
    ensures MixK2(0x74207265766f2073) == 0x3480582491edf347
  {
    assert MulC2(0x74207265766f2073) == 0xd23f1255d4c2220d;
    assert Rotl33(0xd23f1255d4c2220d) == 0xa984441ba47e24ab;
    assert MulC1(0xa984441ba47e24ab) == 0x3480582491edf347;
  }

  lemma Fox3LowMixed()
    ensures MixK1(0x20797a616c206568) == 0xbe2cc08576171173
  {
    assert MulC1(0x20797a616c206568) == 0x5256d81b84a51788;
    assert Rotl31(0x5256d81b84a51788) == 0xc2528bc4292b6c0d;
    assert MulC2(0xc2528bc4292b6c0d) == 0xbe2cc08576171173;
  }

  lemma Fox3HighMixed()
    ensures MixK2(0x2e676f64) == 0xbb3bd674f73254ff
  {
    assert MulC2(0x2e676f64) == 0x5d2b19c1ac3aae9c;
    assert Rotl33(0x5d2b19c1ac3aae9c) == 0x58755d38ba563383;
    assert MulC1(0x58755d38ba563383) == 0xbb3bd674f73254ff;
  }

  lemma Fox1Step()
    ensures Step(State(0x0, 0x0), Block(0x6369757120656854, 0x206e776f7262206b))
      == State(0x65f54070009580c, 0x1185bfe0bc383732)
  {
    Fox1LowMixed();
    Fox1HighMixed();
    hide MixK1, MixK2;
    assert Rotl27(Xor(0x0, 0xede938f35bfbb35d)) == 0x9adfdd9aef6f49c7;
    assert Affine(0x9adfdd9aef6f49c7, 0x0, 0x52dce729) == 0x65f54070009580c;
    assert Rotl31(Xor(0x0, 0x9b19a81a60aa0b18)) == 0x3055058c4d8cd40d;
    assert Affine(0x3055058c4d8cd40d, 0x65f54070009580c, 0x38495ab5) == 0x1185bfe0bc383732;
  }

  lemma Fox2Step()
    ensures Step(State(0x65f54070009580c, 0x1185bfe0bc383732), Block(0x706d756a20786f66, 0x74207265766f2073))
      == State(0xef7ef36e84b36d66, 0x20112c4dac59411d)
  {
    Fox2LowMixed();
    Fox2HighMixed();
    hide MixK1, MixK2;
    assert Rotl27(Xor(0x65f54070009580c, 0x82e320fa65aeeb7a)) == 0xeb2d3d9bb425e3a7;
    assert Affine(0xeb2d3d9bb425e3a7, 0x1185bfe0bc383732, 0x52dce729) == 0xef7ef36e84b36d66;
    assert Rotl31(Xor(0x1185bfe0bc383732, 0x3480582491edf347)) == 0x16eae23a9282f3e2;
    assert Affine(0x16eae23a9282f3e2, 0xef7ef36e84b36d66, 0x38495ab5) == 0x20112c4dac59411d;
  }

  lemma FoxFmixLow()
    ensures Fmix64(0xec7d2e254e0f9207) == 0x31d4ee9bb44a4eab
  {
    assert XorShift33(0xec7d2e254e0f9207) == 0xec7d2e2538310515;
    assert MulF1(0xec7d2e2538310515) == 0xd724f826ef018dd1;
    assert XorShift33(0xd724f826ef018dd1) == 0xd724f8268493f1c2;
    assert MulF2(0xd724f8268493f1c2) == 0x31d4ee9baca039e6;
    assert XorShift33(0x31d4ee9baca039e6) == 0x31d4ee9bb44a4eab;
  }

  lemma FoxFmixHigh()
    ensures Fmix64(0x87a8285ea97aa7d5) == 0x9bc45983ea9eb41e
  {
    assert XorShift33(0x87a8285ea97aa7d5) == 0x87a8285eeaaeb3fa;
    assert MulF1(0x87a8285eeaaeb3fa) == 0x5c5ef1efac54d732;
    assert XorShift33(0x5c5ef1efac54d732) == 0x5c5ef1ef827bafc5;
    assert MulF2(0x5c5ef1ef827bafc5) == 0x9bc45983a77c98df;
    assert XorShift33(0x9bc45983a77c98df) == 0x9bc45983ea9eb41e;
  }

  lemma FoxTail()
    ensures AddTail(State(0xef7ef36e84b36d66, 0x20112c4dac59411d), FOX_3)
      == State(0x515233ebf2a47c15, 0x9b2afa395b6b15e2)
  {
    Fox3Low();
    Fox3High();
    Fox3LowMixed();
    Fox3HighMixed();
    hide Word, MixK1, MixK2;
    assert Xor(0xef7ef36e84b36d66, 0xbe2cc08576171173) == 0x515233ebf2a47c15;
    assert Xor(0x20112c4dac59411d, 0xbb3bd674f73254ff) == 0x9b2afa395b6b15e2;
  }

  lemma FoxLength()
    ensures Length64(44) == 44
  {
    hide Doubled;
    assert Length64(1) == Doubled(Length64(0), true) && Length64(2) == Doubled(Length64(1), false);
    assert Length64(5) == Doubled(Length64(2), true) && Length64(11) == Doubled(Length64(5), true);
    assert Length64(22) == Doubled(Length64(11), false) && Length64(44) == Doubled(Length64(22), false);
    FoxDigits();
  }

  lemma FoxDigits()
    ensures Doubled(0, true) == 1 && Doubled(1, false) == 2 && Doubled(2, true) == 5
    ensures Doubled(5, true) == 11 && Doubled(11, false) == 22 && Doubled(22, false) == 44
  {
  }

  lemma FoxCrossed()
    ensures Cross(XorBoth(State(0x515233ebf2a47c15, 0x9b2afa395b6b15e2), 44))
      == State(0xec7d2e254e0f9207, 0x87a8285ea97aa7d5)
  {
    assert XorBoth(State(0x515233ebf2a47c15, 0x9b2afa395b6b15e2), 44) == State(0x515233ebf2a47c39, 0x9b2afa395b6b15ce);
    assert Cross(State(0x515233ebf2a47c39, 0x9b2afa395b6b15ce)) == State(0xec7d2e254e0f9207, 0x87a8285ea97aa7d5);
  }

  lemma FoxMixed()
    ensures FmixBoth(State(0xec7d2e254e0f9207, 0x87a8285ea97aa7d5)) == State(0x31d4ee9bb44a4eab, 0x9bc45983ea9eb41e)
  {
    FoxFmixLow();
    FoxFmixHigh();
    hide Fmix64;
  }

  lemma FoxCrossedAgain()
    ensures Cross(State(0x31d4ee9bb44a4eab, 0x9bc45983ea9eb41e)) == State(0xcd99481f9ee902c9, 0x695da1a38987b6e7)
  {
  }

  lemma FoxFinish()
    ensures FinishLength(State(0x515233ebf2a47c15, 0x9b2afa395b6b15e2), 44)
      == State(0xcd99481f9ee902c9, 0x695da1a38987b6e7)
  {
    hide Length64, Cross, FmixBoth, XorBoth;
    FoxLength();
    FoxCrossed();
    FoxMixed();
    FoxCrossedAgain();
  }

  lemma FoxAbsorb()
    ensures Absorb(MURMUR_128, State(0, 0), FOX_1 + FOX_2 + FOX_3) == State(0xef7ef36e84b36d66, 0x20112c4dac59411d)
    ensures Rest(FOX_1 + FOX_2 + FOX_3) == FOX_3
  {
    Fox1Low();
    Fox1High();
    Fox2Low();
    Fox2High();
    Fox1Step();
    Fox2Step();
    hide Word, Step, Absorb, Rest;
    AbsorbTail(MURMUR_128, State(0, 0), FOX_1 + FOX_2, FOX_3);
    AbsorbBlock(MURMUR_128, State(0, 0), FOX_1, FOX_2, []);
    AbsorbBlock(MURMUR_128, State(0, 0), [], FOX_1, []);
    NothingAbsorbed();
    assert FOX_1 + FOX_2 + [] == FOX_1 + FOX_2 && [] + FOX_1 + [] == FOX_1;
  }

  lemma NothingAbsorbed()
    ensures forall s :: Absorb(MURMUR_128, s, []) == s
  {
  }

  lemma FoxHash()
    ensures Hash(0, FOX_1 + FOX_2 + FOX_3) == State(0xcd99481f9ee902c9, 0x695da1a38987b6e7)
  {
    hide Absorb, Rest, AddTail, FinishLength;
    FoxAbsorb();
    FoxTail();
    FoxFinish();
  }
}
