/** The 64-bit word arithmetic of the 128-bit MurmurHash3 in pkg/murmur3/murmur128.go,
    and an inverse for each of its stages. */
module Murmur3Mix {

  /** The running (h1, h2) pair of a digest. */
  datatype State = State(h1: bv64, h2: bv64)

  /** One 16-byte block, read as two little-endian words. */
  datatype Block = Block(k1: bv64, k2: bv64)

  // ----- multiplications modulo 2^64, and the multiplications that undo them

  function MulC1(x: bv64): bv64 { x * 0x87c37b91114253d5 }
  function DivC1(x: bv64): bv64 { x * 0xa98409e882ce4d7d }
  function MulC2(x: bv64): bv64 { x * 0x4cf5ad432745937f }
  function DivC2(x: bv64): bv64 { x * 0xa81e14edd9de2c7f }
  function Mul5(x: bv64): bv64 { x * 5 }
  function Div5(x: bv64): bv64 { x * 0xcccccccccccccccd }
  function MulF1(x: bv64): bv64 { x * 0xff51afd7ed558ccd }
  function DivF1(x: bv64): bv64 { x * 0x4f74430c22a54005 }
  function MulF2(x: bv64): bv64 { x * 0xc4ceb9fe1a85ec53 }
  function DivF2(x: bv64): bv64 { x * 0x9cb4b2f8129337db }

  lemma DivC1Inverts(x: bv64)
    ensures DivC1(MulC1(x)) == x
    ensures MulC1(DivC1(x)) == x
  {
    calc { DivC1(MulC1(x)); DivC1(x * 0x87c37b91114253d5); (x * 0x87c37b91114253d5) * 0xa98409e882ce4d7d; x; }
    calc { MulC1(DivC1(x)); MulC1(x * 0xa98409e882ce4d7d); (x * 0xa98409e882ce4d7d) * 0x87c37b91114253d5; x; }
  }

  lemma DivC2Inverts(x: bv64)
    ensures DivC2(MulC2(x)) == x
    ensures MulC2(DivC2(x)) == x
  {
    calc { DivC2(MulC2(x)); DivC2(x * 0x4cf5ad432745937f); (x * 0x4cf5ad432745937f) * 0xa81e14edd9de2c7f; x; }
    calc { MulC2(DivC2(x)); MulC2(x * 0xa81e14edd9de2c7f); (x * 0xa81e14edd9de2c7f) * 0x4cf5ad432745937f; x; }
  }

  lemma Div5Inverts(x: bv64)
    ensures Div5(Mul5(x)) == x
    ensures Mul5(Div5(x)) == x
  {
    calc { Div5(Mul5(x)); Div5(x * 5); (x * 5) * 0xcccccccccccccccd; x; }
    calc { Mul5(Div5(x)); Mul5(x * 0xcccccccccccccccd); (x * 0xcccccccccccccccd) * 5; x; }
  }

  lemma DivF1Inverts(x: bv64)
    ensures DivF1(MulF1(x)) == x
    ensures MulF1(DivF1(x)) == x
  {
    calc { DivF1(MulF1(x)); DivF1(x * 0xff51afd7ed558ccd); (x * 0xff51afd7ed558ccd) * 0x4f74430c22a54005; x; }
    calc { MulF1(DivF1(x)); MulF1(x * 0x4f74430c22a54005); (x * 0x4f74430c22a54005) * 0xff51afd7ed558ccd; x; }
  }

  lemma DivF2Inverts(x: bv64)
    ensures DivF2(MulF2(x)) == x
    ensures MulF2(DivF2(x)) == x
  {
    calc { DivF2(MulF2(x)); DivF2(x * 0xc4ceb9fe1a85ec53); (x * 0xc4ceb9fe1a85ec53) * 0x9cb4b2f8129337db; x; }
    calc { MulF2(DivF2(x)); MulF2(x * 0x9cb4b2f8129337db); (x * 0x9cb4b2f8129337db) * 0xc4ceb9fe1a85ec53; x; }
  }

  // ----- rotations and the xor-shift

  function Rotl27(x: bv64): bv64 { (x << 27) | (x >> 37) }
  function Rotl31(x: bv64): bv64 { (x << 31) | (x >> 33) }
  function Rotl33(x: bv64): bv64 { (x << 33) | (x >> 31) }
  function Rotl37(x: bv64): bv64 { (x << 37) | (x >> 27) }

  lemma Rotl31Rotl33(x: bv64)
    ensures Rotl33(Rotl31(x)) == x && Rotl31(Rotl33(x)) == x
  {
  }

  lemma Rotl27Rotl37(x: bv64)
    ensures Rotl37(Rotl27(x)) == x && Rotl27(Rotl37(x)) == x
  {
  }

  function XorShift33(x: bv64): bv64 { x ^ (x >> 33) }

  lemma XorShift33IsInvolution(x: bv64)
    ensures XorShift33(XorShift33(x)) == x
  {
    calc {
      XorShift33(XorShift33(x));
      XorShift33(x ^ (x >> 33));
      (x ^ (x >> 33)) ^ ((x ^ (x >> 33)) >> 33);
      (x ^ (x >> 33)) ^ (x >> 33);
      x;
    }
  }

  function Xor(x: bv64, y: bv64): bv64 { x ^ y }

  lemma XorCancels(x: bv64, y: bv64)
    ensures Xor(Xor(x, y), y) == x
    ensures Xor(y, Xor(y, x)) == x
  {
    calc { Xor(Xor(x, y), y); Xor(x ^ y, y); (x ^ y) ^ y; x; }
    calc { Xor(y, Xor(y, x)); Xor(y, y ^ x); y ^ (y ^ x); x; }
  }

  function Add(x: bv64, y: bv64): bv64 { x + y }
  function Sub(x: bv64, y: bv64): bv64 { x - y }

  lemma SubUndoesAdd(x: bv64, y: bv64)
    ensures Sub(Add(x, y), y) == x
    ensures Sub(Add(y, x), y) == x
    ensures Add(Sub(x, y), y) == x
  {
    calc { Sub(Add(x, y), y); Sub(x + y, y); (x + y) - y; x; }
    calc { Sub(Add(y, x), y); Sub(y + x, y); (y + x) - y; x; }
    calc { Add(Sub(x, y), y); Add(x - y, y); (x - y) + y; x; }
  }

  // ----- mixing of the two block words

  function MixK1(k: bv64): bv64 { MulC2(Rotl31(MulC1(k))) }
  function UnmixK1(m: bv64): bv64 { DivC1(Rotl33(DivC2(m))) }
  function MixK2(k: bv64): bv64 { MulC1(Rotl33(MulC2(k))) }
  function UnmixK2(m: bv64): bv64 { DivC2(Rotl31(DivC1(m))) }

  lemma UnmixK1Inverts(k: bv64)
    ensures UnmixK1(MixK1(k)) == k
    ensures MixK1(UnmixK1(k)) == k
  {
    calc {
      UnmixK1(MixK1(k));
      DivC1(Rotl33(DivC2(MulC2(Rotl31(MulC1(k))))));
      { DivC2Inverts(Rotl31(MulC1(k))); }
      DivC1(Rotl33(Rotl31(MulC1(k))));
      { Rotl31Rotl33(MulC1(k)); }
      DivC1(MulC1(k));
      { DivC1Inverts(k); }
      k;
    }
    calc {
      MixK1(UnmixK1(k));
      MulC2(Rotl31(MulC1(DivC1(Rotl33(DivC2(k))))));
      { DivC1Inverts(Rotl33(DivC2(k))); }
      MulC2(Rotl31(Rotl33(DivC2(k))));
      { Rotl31Rotl33(DivC2(k)); }
      MulC2(DivC2(k));
      { DivC2Inverts(k); }
      k;
    }
  }

  lemma UnmixK2Inverts(k: bv64)
    ensures UnmixK2(MixK2(k)) == k
    ensures MixK2(UnmixK2(k)) == k
  {
    calc {
      UnmixK2(MixK2(k));
      DivC2(Rotl31(DivC1(MulC1(Rotl33(MulC2(k))))));
      { DivC1Inverts(Rotl33(MulC2(k))); }
      DivC2(Rotl31(Rotl33(MulC2(k))));
      { Rotl31Rotl33(MulC2(k)); }
      DivC2(MulC2(k));
      { DivC2Inverts(k); }
      k;
    }
    calc {
      MixK2(UnmixK2(k));
      MulC1(Rotl33(MulC2(DivC2(Rotl31(DivC1(k))))));
      { DivC2Inverts(Rotl31(DivC1(k))); }
      MulC1(Rotl33(Rotl31(DivC1(k))));
      { Rotl31Rotl33(DivC1(k)); }
      MulC1(DivC1(k));
      { DivC1Inverts(k); }
      k;
    }
  }

  // ----- the affine update that ends each half of a block step

  function Affine(x: bv64, other: bv64, c: bv64): bv64 { Add(Mul5(Add(x, other)), c) }
  function Unaffine(r: bv64, other: bv64, c: bv64): bv64 { Sub(Div5(Sub(r, c)), other) }

  lemma UnaffineInverts(x: bv64, other: bv64, c: bv64)
    ensures Unaffine(Affine(x, other, c), other, c) == x
    ensures Affine(Unaffine(x, other, c), other, c) == x
  {
    SubUndoesAdd(Mul5(Add(x, other)), c);
    Div5Inverts(Add(x, other));
    SubUndoesAdd(x, other);
    SubUndoesAdd(Div5(Sub(x, c)), other);
    Div5Inverts(Sub(x, c));
    SubUndoesAdd(x, c);
  }

  // ----- one block

  function Step(s: State, b: Block): State {
    var h1 := Affine(Rotl27(Xor(s.h1, MixK1(b.k1))), s.h2, 0x52dce729);
    var h2 := Affine(Rotl31(Xor(s.h2, MixK2(b.k2))), h1, 0x38495ab5);
    State(h1, h2)
  }

  /** The only state from which block b leads to t. */
  function Unstep(t: State, b: Block): State {
    var h2 := Xor(Rotl33(Unaffine(t.h2, t.h1, 0x38495ab5)), MixK2(b.k2));
    var h1 := Xor(Rotl37(Unaffine(t.h1, h2, 0x52dce729)), MixK1(b.k1));
    State(h1, h2)
  }

  /** The only block that leads from s to t. */
  function BlockBetween(s: State, t: State): Block {
    var m1 := Xor(s.h1, Rotl37(Unaffine(t.h1, s.h2, 0x52dce729)));
    var m2 := Xor(s.h2, Rotl33(Unaffine(t.h2, t.h1, 0x38495ab5)));
    Block(UnmixK1(m1), UnmixK2(m2))
  }

  lemma StepIsBijectionOfState(s: State, b: Block)
    ensures Unstep(Step(s, b), b) == s
    ensures Step(Unstep(s, b), b) == s
  {
    var x1 := Xor(s.h1, MixK1(b.k1));
    var x2 := Xor(s.h2, MixK2(b.k2));
    var t := Step(s, b);
    UnaffineInverts(Rotl31(x2), t.h1, 0x38495ab5);
    Rotl31Rotl33(x2);
    XorCancels(s.h2, MixK2(b.k2));
    UnaffineInverts(Rotl27(x1), s.h2, 0x52dce729);
    Rotl27Rotl37(x1);
    XorCancels(s.h1, MixK1(b.k1));
    UnstepStep(s, b);
  }

  lemma UnstepStep(t: State, b: Block)
    ensures Step(Unstep(t, b), b) == t
  {
    var s := Unstep(t, b);
    var u2 := Unaffine(t.h2, t.h1, 0x38495ab5);
    var u1 := Unaffine(t.h1, s.h2, 0x52dce729);
    XorCancels(Rotl37(u1), MixK1(b.k1));
    Rotl27Rotl37(u1);
    UnaffineInverts(t.h1, s.h2, 0x52dce729);
    XorCancels(Rotl33(u2), MixK2(b.k2));
    Rotl31Rotl33(u2);
    UnaffineInverts(t.h2, t.h1, 0x38495ab5);
  }

  lemma StepIsBijectionOfBlock(s: State, b: Block, t: State)
    ensures BlockBetween(s, Step(s, b)) == b
    ensures Step(s, BlockBetween(s, t)) == t
  {
    var m1, m2 := MixK1(b.k1), MixK2(b.k2);
    var r := Step(s, b);
    UnaffineInverts(Rotl27(Xor(s.h1, m1)), s.h2, 0x52dce729);
    Rotl27Rotl37(Xor(s.h1, m1));
    XorCancels(m1, s.h1);
    UnmixK1Inverts(b.k1);
    UnaffineInverts(Rotl31(Xor(s.h2, m2)), r.h1, 0x38495ab5);
    Rotl31Rotl33(Xor(s.h2, m2));
    XorCancels(m2, s.h2);
    UnmixK2Inverts(b.k2);
    StepBlockBetween(s, t);
  }

  lemma StepBlockBetween(s: State, t: State)
    ensures Step(s, BlockBetween(s, t)) == t
  {
    var u1 := Unaffine(t.h1, s.h2, 0x52dce729);
    var u2 := Unaffine(t.h2, t.h1, 0x38495ab5);
    UnmixK1Inverts(Xor(s.h1, Rotl37(u1)));
    XorCancels(Rotl37(u1), s.h1);
    Rotl27Rotl37(u1);
    UnaffineInverts(t.h1, s.h2, 0x52dce729);
    UnmixK2Inverts(Xor(s.h2, Rotl33(u2)));
    XorCancels(Rotl33(u2), s.h2);
    Rotl31Rotl33(u2);
    UnaffineInverts(t.h2, t.h1, 0x38495ab5);
  }

  // ----- finalisation

  function Fmix64(k: bv64): bv64 {
    XorShift33(MulF2(XorShift33(MulF1(XorShift33(k)))))
  }

  function Unfmix64(k: bv64): bv64 {
    XorShift33(DivF1(XorShift33(DivF2(XorShift33(k)))))
  }

  lemma Fmix64IsBijection(k: bv64)
    ensures Unfmix64(Fmix64(k)) == k
    ensures Fmix64(Unfmix64(k)) == k
  {
    var a := XorShift33(k);
    var b := XorShift33(MulF1(a));
    calc {
      Unfmix64(Fmix64(k));
      XorShift33(DivF1(XorShift33(DivF2(XorShift33(XorShift33(MulF2(b)))))));
      { XorShift33IsInvolution(MulF2(b)); }
      XorShift33(DivF1(XorShift33(DivF2(MulF2(b)))));
      { DivF2Inverts(b); }
      XorShift33(DivF1(XorShift33(XorShift33(MulF1(a)))));
      { XorShift33IsInvolution(MulF1(a)); }
      XorShift33(DivF1(MulF1(a)));
      { DivF1Inverts(a); }
      XorShift33(XorShift33(k));
      { XorShift33IsInvolution(k); }
      k;
    }
    var c := XorShift33(DivF2(a));
    calc {
      Fmix64(Unfmix64(k));
      XorShift33(MulF2(XorShift33(MulF1(XorShift33(XorShift33(DivF1(c)))))));
      { XorShift33IsInvolution(DivF1(c)); }
      XorShift33(MulF2(XorShift33(MulF1(DivF1(c)))));
      { DivF1Inverts(c); }
      XorShift33(MulF2(XorShift33(XorShift33(DivF2(a)))));
      { XorShift33IsInvolution(DivF2(a)); }
      XorShift33(MulF2(DivF2(a)));
      { DivF2Inverts(a); }
      XorShift33(XorShift33(k));
      { XorShift33IsInvolution(k); }
      k;
    }
  }

  /** h1 += h2; h2 += h1. */
  function Cross(s: State): State {
    var h1 := Add(s.h1, s.h2);
    State(h1, Add(s.h2, h1))
  }

  function Uncross(s: State): State {
    var h2 := Sub(s.h2, s.h1);
    State(Sub(s.h1, h2), h2)
  }

  lemma CrossIsBijection(s: State)
    ensures Uncross(Cross(s)) == s
    ensures Cross(Uncross(s)) == s
  {
    SubUndoesAdd(s.h1, s.h2);
    SubUndoesAdd(s.h2, Add(s.h1, s.h2));
    SubUndoesAdd(s.h2, s.h1);
    SubUndoesAdd(s.h1, Sub(s.h2, s.h1));
  }

  function XorBoth(s: State, n: bv64): State { State(Xor(s.h1, n), Xor(s.h2, n)) }
  function FmixBoth(s: State): State { State(Fmix64(s.h1), Fmix64(s.h2)) }
  function UnfmixBoth(s: State): State { State(Unfmix64(s.h1), Unfmix64(s.h2)) }

  function Finish(s: State, n: bv64): State { Cross(FmixBoth(Cross(XorBoth(s, n)))) }
  function Unfinish(s: State, n: bv64): State { XorBoth(Uncross(UnfmixBoth(Uncross(s))), n) }

  lemma FinishIsBijection(s: State, n: bv64)
    ensures Unfinish(Finish(s, n), n) == s
    ensures Finish(Unfinish(s, n), n) == s
  {
    var a := Cross(XorBoth(s, n));
    CrossIsBijection(FmixBoth(a));
    Fmix64IsBijection(a.h1);
    Fmix64IsBijection(a.h2);
    CrossIsBijection(XorBoth(s, n));
    XorCancels(s.h1, n);
    XorCancels(s.h2, n);
    var b := Uncross(UnfmixBoth(Uncross(s)));
    XorCancels(b.h1, n);
    XorCancels(b.h2, n);
    CrossIsBijection(UnfmixBoth(Uncross(s)));
    Fmix64IsBijection(Uncross(s).h1);
    Fmix64IsBijection(Uncross(s).h2);
    CrossIsBijection(s);
  }

  /** Different lengths give one state different hashes. */
  lemma FinishSeparatesLengths(s: State, a: bv64, b: bv64)
    requires Finish(s, a) == Finish(s, b)
    ensures a == b
  {
    var w := Uncross(UnfmixBoth(Uncross(Finish(s, a))));
    FinishIsBijection(s, a);
    FinishIsBijection(s, b);
    XorCancels(w.h1, a);
    XorCancels(w.h1, b);
  }
}
