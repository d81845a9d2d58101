/** The streaming digest of pkg/murmur3/murmur3.go with its 16-byte carry buffer. As there, it is
    written against a block mixer it knows nothing about. */
module BlockDigest {
  import opened BlockHash

  lemma AbsorbOneBlock<S>(e: Engine<S>, s: S, p: Bytes, at: nat)
    requires at + 16 <= |p|
    ensures Absorb(e, s, p[at..]) == Absorb(e, e.step(s, p[at..at + 16]), p[at + 16..])
  {
    assert p[at..][..16] == p[at..at + 16];
    assert p[at..][16..] == p[at + 16..];
  }

  /** bmix: run the complete blocks of p through the mixer and return the unread rest. */
  method MixBlocks<S>(e: Engine<S>, s: S, p: Bytes) returns (t: S, tail: Bytes)
    ensures t == Absorb(e, s, p) && tail == Rest(p)
  {
    t := s;
    var nblocks := |p| / 16;
    var i := 0;
    while i < nblocks
      invariant 0 <= i <= nblocks
      invariant Absorb(e, t, p[16 * i..]) == Absorb(e, s, p)
    {
      AbsorbOneBlock(e, t, p, 16 * i);
      t := e.step(t, p[16 * i..16 * i + 16]);
      i := i + 1;
    }
    tail := p[16 * nblocks..];
  }

  /** Mixing one block completed from the carried bytes, then the rest of the input. */
  lemma FeedBlockFirst<S>(e: Engine<S>, s: S, fed: Bytes, data: Bytes, block: Bytes, p: Bytes)
    requires |block| == 16 && block + p == Rest(fed) + data
    ensures Absorb(e, s, fed + data) == Absorb(e, Absorb(e, Absorb(e, s, fed), block), p)
    ensures Rest(fed + data) == Rest(p)
  {
    FeedMore(e, s, fed, data);
    AbsorbAppend(e, Absorb(e, s, fed), block, p);
    RestAfterBlocks(block, p);
  }

  lemma SplitBlock(carried: Bytes, data: Bytes, block: Bytes, p: Bytes)
    requires |carried| <= 16 && 16 - |carried| <= |data|
    requires block == carried + data[..16 - |carried|] && p == data[16 - |carried|..]
    ensures |block| == 16 && block + p == carried + data
  {
  }

  lemma RestIsShort(p: Bytes)
    ensures |Rest(p)| < 16
  {
  }

  /** The streaming digest. Its tail is the view buf[..tailLen] of the carry buffer; fed is
      everything written since the last Reset. */
  class Digest<S> {
    const engine: Engine<S>
    const start: S
    const buf: array<bv8>
    var clen: nat
    var tailLen: nat
    var state: S
    ghost var fed: Bytes

    /** The state is the fold over the complete blocks, and the carry buffer holds exactly the
        0 to 15 bytes after them. */
    ghost predicate Valid()
      reads this, buf
    {
      && buf.Length == 16
      && tailLen < 16
      && clen == |fed|
      && state == Absorb(engine, start, fed)
      && buf[..tailLen] == Rest(fed)
    }

    constructor (engine: Engine<S>, start: S)
      ensures Valid() && fed == [] && this.engine == engine && this.start == start
      ensures fresh(buf)
    {
      this.engine, this.start := engine, start;
      buf := new bv8[16];
      clen, tailLen, fed := 0, 0, [];
      state := start;
    }

    method Reset()
      requires Valid()
      modifies this
      ensures Valid() && fed == []
    {
      clen, tailLen, fed := 0, 0, [];
      state := start;
    }

    /** append(d.tail, q...) when the result fits the carry buffer: the bytes land in buf itself,
        and the result is a view of it. */
    method AppendToTail(q: Bytes) returns (view: Bytes)
      requires buf.Length == 16 && tailLen + |q| <= 16
      modifies buf
      ensures view == old(buf[..tailLen]) + q == buf[..tailLen + |q|]
    {
      var i := 0;
      while i < |q|
        invariant 0 <= i <= |q|
        invariant buf[..tailLen + i] == old(buf[..tailLen]) + q[..i]
      {
        buf[tailLen + i] := q[i];
        i := i + 1;
      }
      view := buf[..tailLen + |q|];
    }

    /** copy(d.buf[:], d.tail): keep the pending bytes. */
    method Keep(tail: Bytes)
      requires buf.Length == 16 && |tail| < 16
      modifies this`tailLen, buf
      ensures tailLen == |tail| && buf[..tailLen] == tail
    {
      forall i | 0 <= i < |tail| {
        buf[i] := tail[i];
      }
      tailLen := |tail|;
    }

    method Write(data: Bytes) returns (n: nat)
      requires Valid()
      modifies this, buf
      ensures Valid() && fed == old(fed) + data && n == |data|
    {
      hide Absorb, Rest;
      n := |data|;
      clen := clen + n;
      var p := data;
      ghost var carried := buf[..tailLen];
      if tailLen > 0 {
        var nfree := 16 - tailLen;
        if nfree < |p| {
          var block := AppendToTail(p[..nfree]);
          p := p[nfree..];
          SplitBlock(carried, data, block, p);
          FeedBlockFirst(engine, start, fed, data, block, p);
          var none;
          state, none := MixBlocks(engine, state, block);
        } else {
          p := AppendToTail(p);
          FeedMore(engine, start, fed, data);
        }
      } else {
        FeedMore(engine, start, fed, data);
        assert carried == [] && carried + data == data;
      }
      assert Absorb(engine, state, p) == Absorb(engine, start, fed + data);
      assert Rest(p) == Rest(fed + data);
      var tail;
      state, tail := MixBlocks(engine, state, p);
      RestIsShort(p);
      fed := fed + data;
      Keep(tail);
    }

    /** Reading the hash leaves the digest as it was. */
    method Sum() returns (r: S)
      requires Valid()
      ensures r == BlockHash.Digest(engine, start, fed)
    {
      r := engine.finish(engine.addTail(state, buf[..tailLen]), clen);
    }
  }

  function Concat(pieces: seq<Bytes>): Bytes {
    if pieces == [] then [] else Concat(pieces[..|pieces| - 1]) + pieces[|pieces| - 1]
  }

  /** Any way of cutting a message into writes, with the hash read before and after each of them:
      every reading is the one-shot hash of what was written until then. */
  method HashPieces<S>(e: Engine<S>, start: S, pieces: seq<Bytes>) returns (readings: seq<S>)
    ensures |readings| == |pieces| + 1
    ensures forall i | 0 <= i <= |pieces| :: readings[i] == BlockHash.Digest(e, start, Concat(pieces[..i]))
  {
    var d := new Digest(e, start);
    var r := d.Sum();
    readings := [r];
    var i := 0;
    while i < |pieces|
      invariant 0 <= i <= |pieces| && |readings| == i + 1
      invariant d.Valid() && d.engine == e && d.start == start && fresh(d) && fresh(d.buf)
      invariant d.fed == Concat(pieces[..i])
      invariant forall k | 0 <= k <= i :: readings[k] == BlockHash.Digest(e, start, Concat(pieces[..k]))
    {
      var _ := d.Write(pieces[i]);
      assert pieces[..i + 1][..i] == pieces[..i];
      r := d.Sum();
      readings := readings + [r];
      i := i + 1;
    }
  }
}
