/** Hashing a byte string block by block: fold 16-byte blocks into a state, mix in the short
    rest, finish with the length. Stated for any engine, so that what follows from the engine's
    stages being injective is kept apart from the word arithmetic of one hash. */
module BlockHash {

  type Bytes = seq<bv8>

  datatype Engine<!S> = Engine(step: (S, Bytes) -> S, addTail: (S, Bytes) -> S, finish: (S, nat) -> S)

  /** No stage of the engine loses information about its state or about its bytes. */
  ghost predicate Lossless<S(!new)>(e: Engine<S>) {
    && (forall s, t, b :: s != t ==> e.step(s, b) != e.step(t, b))
    && (forall s, a, b :: |a| == |b| == 16 && a != b ==> e.step(s, a) != e.step(s, b))
    && (forall s, t, b :: s != t ==> e.addTail(s, b) != e.addTail(t, b))
    && (forall s, a, b :: |a| == |b| < 16 && a != b ==> e.addTail(s, a) != e.addTail(s, b))
    && (forall s, t, n :: s != t ==> e.finish(s, n) != e.finish(t, n))
  }

  /** Fold the complete blocks of data into s; a shorter rest is ignored. */
  function Absorb<S>(e: Engine<S>, s: S, data: Bytes): S
    decreases |data|
  {
    if |data| < 16 then s else Absorb(e, e.step(s, data[..16]), data[16..])
  }

  /** The bytes after the last complete block. */
  function Rest(data: Bytes): Bytes {
    data[|data| - |data| % 16..]
  }

  function Digest<S>(e: Engine<S>, s: S, data: Bytes): S {
    e.finish(e.addTail(Absorb(e, s, data), Rest(data)), |data|)
  }

  lemma {:induction false} AbsorbAppend<S>(e: Engine<S>, s: S, a: Bytes, b: Bytes)
    requires |a| % 16 == 0
    ensures Absorb(e, s, a + b) == Absorb(e, Absorb(e, s, a), b)
    decreases |a|
  {
    if a == [] {
      assert a + b == b;
    } else {
      assert (a + b)[..16] == a[..16];
      assert (a + b)[16..] == a[16..] + b;
      AbsorbAppend(e, e.step(s, a[..16]), a[16..], b);
    }
  }

  lemma RestAfterBlocks(a: Bytes, b: Bytes)
    requires |a| % 16 == 0
    ensures Rest(a + b) == Rest(b)
  {
    assert |a + b| % 16 == |b| % 16;
    assert Rest(a + b) == Rest(b);
  }

  lemma {:induction false} AbsorbKeepsStatesApart<S(!new)>(e: Engine<S>, s: S, t: S, data: Bytes)
    requires Lossless(e) && s != t
    ensures Absorb(e, s, data) != Absorb(e, t, data)
    decreases |data|
  {
    if |data| >= 16 {
      AbsorbKeepsStatesApart(e, e.step(s, data[..16]), e.step(t, data[..16]), data[16..]);
    }
  }

  /** Messages that agree everywhere outside one complete block never collide. */
  lemma BlockChangeChangesDigest<S(!new)>(e: Engine<S>, s: S, pre: Bytes, x: Bytes, y: Bytes, post: Bytes)
    requires Lossless(e) && |pre| % 16 == 0 && |x| == |y| == 16 && x != y
    ensures Digest(e, s, pre + x + post) != Digest(e, s, pre + y + post)
  {
    hide Absorb, Rest;
    var u := Absorb(e, s, pre);
    AbsorbKeepsStatesApart(e, e.step(u, x), e.step(u, y), post);
    AbsorbBlock(e, s, pre, x, post);
    AbsorbBlock(e, s, pre, y, post);
    var v, w := Absorb(e, e.step(u, x), post), Absorb(e, e.step(u, y), post);
    var m, n := pre + x + post, pre + y + post;
    RestAfterBlocks(pre + x, post);
    RestAfterBlocks(pre + y, post);
    FinishedApart(e, v, w, Rest(post), |m|);
  }

  /** Different states stay different through the tail and the finish. */
  lemma FinishedApart<S(!new)>(e: Engine<S>, v: S, w: S, tail: Bytes, n: nat)
    requires Lossless(e) && v != w
    ensures e.finish(e.addTail(v, tail), n) != e.finish(e.addTail(w, tail), n)
  {
    var p, q := e.addTail(v, tail), e.addTail(w, tail);
    assert p != q;
    assert e.finish(p, n) != e.finish(q, n);
  }

  lemma AbsorbBlock<S>(e: Engine<S>, s: S, pre: Bytes, x: Bytes, post: Bytes)
    requires |pre| % 16 == 0 && |x| == 16
    ensures Absorb(e, s, pre + x + post) == Absorb(e, e.step(Absorb(e, s, pre), x), post)
  {
    assert pre + x + post == pre + (x + post);
    AbsorbAppend(e, s, pre, x + post);
    assert (x + post)[..16] == x && (x + post)[16..] == post;
  }

  /** Messages that agree everywhere outside the final partial block never collide. */
  lemma TailChangeChangesDigest<S(!new)>(e: Engine<S>, s: S, pre: Bytes, x: Bytes, y: Bytes)
    requires Lossless(e) && |pre| % 16 == 0 && |x| == |y| < 16 && x != y
    ensures Digest(e, s, pre + x) != Digest(e, s, pre + y)
  {
    AbsorbTail(e, s, pre, x);
    AbsorbTail(e, s, pre, y);
    hide Absorb, Rest;
    var u := Absorb(e, s, pre);
    var p, q := e.addTail(u, x), e.addTail(u, y);
    assert p != q;
    assert e.finish(p, |pre + x|) != e.finish(q, |pre + x|);
  }

  lemma AbsorbTail<S>(e: Engine<S>, s: S, pre: Bytes, x: Bytes)
    requires |pre| % 16 == 0 && |x| < 16
    ensures Absorb(e, s, pre + x) == Absorb(e, s, pre) && Rest(pre + x) == x
  {
    AbsorbAppend(e, s, pre, x);
    RestAfterBlocks(pre, x);
  }

  /** The two agree wherever they both have a byte, but for the j-th stretch of 16 bytes. */
  ghost predicate SameOutside(m: Bytes, n: Bytes, j: nat) {
    forall i | 0 <= i < |m| && i < |n| && i / 16 != j :: m[i] == n[i]
  }

  /** Two different messages of one length whose differences all lie in the j-th 16-byte
      stretch, complete or not, have different digests. */
  lemma NoCollisionWithinOneBlock<S(!new)>(e: Engine<S>, s: S, m: Bytes, n: Bytes, j: nat)
    requires Lossless(e) && |m| == |n| && m != n && SameOutside(m, n, j)
    ensures Digest(e, s, m) != Digest(e, s, n)
  {
    hide *;
    var a := 16 * j;
    var b := if a + 16 <= |m| then a + 16 else |m|;
    AgreeOutside(m, n, a, b, j);
    SplitAt(m, a, b);
    SplitAt(n, a, b);
    if b == a + 16 {
      BlockChangeChangesDigest(e, s, m[..a], m[a..b], n[a..b], m[b..]);
    } else {
      TailChangeChangesDigest(e, s, m[..a], m[a..b], n[a..b]);
    }
  }

  lemma SplitAt(m: Bytes, a: nat, b: nat)
    requires a <= b <= |m|
    ensures m == m[..a] + m[a..b] + m[b..] && (b == |m| ==> m == m[..a] + m[a..b])
  {
  }

  lemma AgreeOutside(m: Bytes, n: Bytes, a: nat, b: nat, j: nat)
    requires |m| == |n| && m != n && SameOutside(m, n, j)
    requires a == 16 * j && b == if a + 16 <= |m| then a + 16 else |m|
    ensures a < b && m[..a] == n[..a] && m[b..] == n[b..] && m[a..b] != n[a..b]
  {
    forall i | 0 <= i < |m| && !(a <= i < b)
      ensures m[i] == n[i]
    {
      assert i / 16 != j;
    }
    hide SameOutside;
    var i :| 0 <= i < |m| && m[i] != n[i];
    assert a <= i < b && m[a..b][i - a] == m[i] && n[a..b][i - a] == n[i];
  }

  /** Different starting states keep every message's digests apart. */
  lemma StartsNeverCollide<S(!new)>(e: Engine<S>, s: S, t: S, m: Bytes)
    requires Lossless(e) && s != t
    ensures Digest(e, s, m) != Digest(e, t, m)
  {
    AbsorbKeepsStatesApart(e, s, t, m);
  }

  /** What a digest must remember of the bytes fed so far: the fold of the complete blocks,
      and the rest verbatim. Feeding p extends both. */
  lemma FeedMore<S>(e: Engine<S>, s: S, fed: Bytes, p: Bytes)
    ensures Absorb(e, s, fed + p) == Absorb(e, Absorb(e, s, fed), Rest(fed) + p)
    ensures Rest(fed + p) == Rest(Rest(fed) + p)
  {
    var whole := fed[..|fed| - |fed| % 16];
    assert fed == whole + Rest(fed);
    assert fed + p == whole + (Rest(fed) + p);
    AbsorbAppend(e, s, whole, Rest(fed));
    AbsorbAppend(e, s, whole, Rest(fed) + p);
    RestAfterBlocks(whole, Rest(fed) + p);
  }
}
