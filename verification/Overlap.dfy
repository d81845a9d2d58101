/** The overlap that is added between finished chunks: aipkg/rag/split/util.go. */
module Overlap {
  import opened Common
  import opened Text
  import RecursiveCharacter
  import opened RecursiveCharacterProofs

  /** overlapTokens: round half away from zero; only positive products are rounded. */
  function OverlapTokens(chunkSize: int, ratio: real): (r: int)
    ensures chunkSize <= 0 || ratio <= 0.0 ==> r == 0
    ensures chunkSize > 0 && ratio > 0.0 ==> r >= 0 && r as real - 0.5 <= chunkSize as real * ratio < r as real + 0.5
  {
    if chunkSize <= 0 || ratio <= 0.0 then 0 else Round(chunkSize as real * ratio)
  }

  function Round(x: real): (r: int)
    ensures x > 0.0 ==> r >= 0
    ensures r as real - 0.5 <= x < r as real + 0.5
  {
    (x + 0.5).Floor
  }

  /** The last k runes of s, or all of s. */
  function Suffix(s: string, k: nat): (r: string)
    ensures |r| <= k && |r| <= |s| && r == s[|s| - |r|..]
  {
    if |s| <= k then s else s[|s| - k..]
  }

  function Truncate(s: string, limit: int): string
    requires limit >= 0
  {
    if |s| > limit then s[..limit] else s
  }

  /** One overlapped chunk. */
  function Overlapped(prev: string, next: string, n: int, overlap: nat): string {
    var merged := Suffix(prev, overlap) + next;
    if n > 0 then Truncate(merged, n + overlap) else merged
  }

  /** The rest of the chunks with overlap, each built from the overlapped one before it. */
  function Follow(prev: string, rest: seq<string>, n: int, overlap: nat): (out: seq<string>)
    ensures |out| == |rest|
    decreases |rest|
  {
    if rest == [] then []
    else
      var first := Overlapped(prev, rest[0], n, overlap);
      [first] + Follow(first, rest[1..], n, overlap)
  }

  function AddOverlap(chunks: seq<string>, n: int, overlap: nat): (out: seq<string>)
    ensures |out| == |chunks|
  {
    if chunks == [] then [] else [chunks[0]] + Follow(chunks[0], chunks[1..], n, overlap)
  }

  lemma FollowFrom(out: seq<string>, prev: string, chunks: seq<string>, i: nat, n: int, overlap: nat)
    requires i < |chunks|
    ensures var next := Overlapped(prev, chunks[i], n, overlap);
      out + Follow(prev, chunks[i..], n, overlap) == (out + [next]) + Follow(next, chunks[i + 1..], n, overlap)
  {
    assert chunks[i..][1..] == chunks[i + 1..];
  }

  method ApplyOverlapToStrings(chunks: seq<string>, chunkSize: int, overlapRatio: real) returns (out: seq<string>)
    ensures out == var overlap := OverlapTokens(chunkSize, overlapRatio);
                   if overlap <= 0 then chunks else AddOverlap(chunks, chunkSize, overlap)
  {
    if |chunks| <= 1 {
      return chunks;
    }
    var overlap := OverlapTokens(chunkSize, overlapRatio);
    if overlap <= 0 {
      return chunks;
    }
    out := [chunks[0]];
    hide Follow, Overlapped;
    for i := 1 to |chunks|
      invariant |out| == i
      invariant AddOverlap(chunks, chunkSize, overlap) == out + Follow(out[i - 1], chunks[i..], chunkSize, overlap)
    {
      FollowFrom(out, out[i - 1], chunks, i, chunkSize, overlap);
      var merged := OverlapOne(out[i - 1], chunks[i], chunkSize, overlap);
      out := out + [merged];
    }
  }

  /** The body of the loop. */
  method OverlapOne(last: string, next: string, chunkSize: int, overlap: nat) returns (merged: string)
    ensures merged == Overlapped(last, next, chunkSize, overlap)
  {
    var prefix := "";
    if |last| > 0 {
      var start := |last| - overlap;
      if start < 0 {
        start := 0;
      }
      prefix := last[start..];
    }
    merged := prefix + next;
    if chunkSize > 0 && |merged| > chunkSize + overlap {
      merged := merged[..chunkSize + overlap];
    }
  }

  lemma OverlappedFits(prev: string, next: string, n: int, overlap: nat)
    requires |next| <= n
    ensures Overlapped(prev, next, n, overlap) == Suffix(prev, overlap) + next
    ensures |Overlapped(prev, next, n, overlap)| <= n + overlap
    ensures Overlapped(prev, next, n, overlap)[|Suffix(prev, overlap)|..] == next
  {
    assert (Suffix(prev, overlap) + next)[|Suffix(prev, overlap)|..] == next;
  }

  /** Every element of out is a suffix of the one before it followed by its own chunk. */
  predicate Chained(prev: string, out: seq<string>, rest: seq<string>, n: int, overlap: nat)
    requires |out| == |rest|
    decreases |rest|
  {
    rest == [] || (
      && out[0] == Suffix(prev, overlap) + rest[0] && |out[0]| <= n + overlap
      && Chained(out[0], out[1..], rest[1..], n, overlap))
  }

  lemma {:induction false} FollowTruncatesNothing(prev: string, rest: seq<string>, n: int, overlap: nat)
    requires n > 0 && Sized(rest, n)
    ensures Chained(prev, Follow(prev, rest, n, overlap), rest, n, overlap)
    decreases |rest|
  {
    if rest != [] {
      assert |rest[0]| <= n;
      hide Overlapped, Suffix;
      var first := Overlapped(prev, rest[0], n, overlap);
      OverlappedFits(prev, rest[0], n, overlap);
      FollowTruncatesNothing(first, rest[1..], n, overlap);
      assert Follow(prev, rest, n, overlap)[1..] == Follow(first, rest[1..], n, overlap);
    }
  }

  lemma {:induction false} ChainedAt(prev: string, out: seq<string>, rest: seq<string>, n: int, overlap: nat, i: nat)
    requires |out| == |rest| && i < |out| && Chained(prev, out, rest, n, overlap)
    ensures out[i] == Suffix(if i == 0 then prev else out[i - 1], overlap) + rest[i] && |out[i]| <= n + overlap
    decreases i
  {
    if i > 0 {
      ChainedAt(out[0], out[1..], rest[1..], n, overlap, i - 1);
    }
  }

  lemma AllChained(first: string, more: seq<string>, rest: seq<string>, n: int, overlap: nat)
    requires n > 0 && |more| == |rest| && |first| <= n && Chained(first, more, rest, n, overlap)
    ensures var out, chunks := [first] + more, [first] + rest;
      && (forall i | 0 < i < |out| :: out[i] == Suffix(out[i - 1], overlap) + chunks[i])
      && (forall i | 0 <= i < |out| :: |out[i]| <= n + overlap)
  {
    var out, chunks := [first] + more, [first] + rest;
    hide *;
    forall i | 0 < i < |out|
      ensures out[i] == Suffix(out[i - 1], overlap) + chunks[i] && |out[i]| <= n + overlap
    {
      ChainedAt(first, more, rest, n, overlap, i - 1);
      assert i > 1 ==> out[i - 1] == more[i - 2];
    }
  }

  /** On chunks that fit, nothing is truncated: every chunk is a suffix of the previous result
      followed by the whole original chunk, and within the size plus the overlap. */
  lemma NothingTruncated(chunks: seq<string>, n: int, overlap: nat)
    requires n > 0 && Sized(chunks, n)
    ensures var out := AddOverlap(chunks, n, overlap);
      && (forall i | 0 < i < |out| :: out[i] == Suffix(out[i - 1], overlap) + chunks[i])
      && (forall i | 0 <= i < |out| :: |out[i]| <= n + overlap)
      && (|chunks| > 0 ==> out[0] == chunks[0])
  {
    if chunks != [] {
      var first, rest := chunks[0], chunks[1..];
      assert |first| <= n && chunks == [first] + rest;
      FollowTruncatesNothing(first, rest, n, overlap);
      AllChained(first, Follow(first, rest, n, overlap), rest, n, overlap);
      assert AddOverlap(chunks, n, overlap) == [first] + Follow(first, rest, n, overlap);
    }
    hide *;
  }

  // ----- chunks of any size

  function Min(a: nat, b: nat): nat { if b < a then b else a }

  /** Result i is a suffix of the result before it followed by the whole of chunk i. */
  predicate WholeAt(out: seq<string>, chunks: seq<string>, overlap: nat, i: nat)
    requires 0 < i < |out| == |chunks|
  {
    out[i] == Suffix(out[i - 1], overlap) + chunks[i]
  }

  /** Chunk i leaves room for the overlap, or for all runes before it if they are fewer. */
  predicate RoomyAt(chunks: seq<string>, n: int, overlap: nat, i: nat)
    requires 0 < i < |chunks|
  {
    Min(overlap, |Concat(chunks[..i])|) + |chunks[i]| <= n + overlap
  }

  lemma FollowUnfolds(prev: string, rest: seq<string>, n: int, overlap: nat)
    requires rest != []
    ensures var first := Overlapped(prev, rest[0], n, overlap);
      Follow(prev, rest, n, overlap) == [first] + Follow(first, rest[1..], n, overlap)
  {
  }

  /** Each result is made from the one before it. */
  lemma {:induction false} OutAt(chunks: seq<string>, n: int, overlap: nat, i: nat)
    requires 0 < i < |chunks|
    ensures var out := AddOverlap(chunks, n, overlap); out[i] == Overlapped(out[i - 1], chunks[i], n, overlap)
    decreases i
  {
    hide *;
    var first := Overlapped(chunks[0], chunks[1], n, overlap);
    var moved := [first] + chunks[2..];
    OutMoves(chunks, n, overlap);
    OutStarts(chunks, n, overlap);
    OutStarts(moved, n, overlap);
    if i > 1 {
      OutAt(moved, n, overlap, i - 1);
    }
  }

  /** The results after the first are those of the second result and the chunks after it. */
  lemma OutMoves(chunks: seq<string>, n: int, overlap: nat)
    requires |chunks| > 1
    ensures var first := Overlapped(chunks[0], chunks[1], n, overlap);
      AddOverlap(chunks, n, overlap) == [chunks[0]] + AddOverlap([first] + chunks[2..], n, overlap)
  {
    hide Overlapped;
    var first := Overlapped(chunks[0], chunks[1], n, overlap);
    FollowUnfolds(chunks[0], chunks[1..], n, overlap);
    TailOfTail(chunks, 1, 1);
    TailAfter(first, chunks[2..]);
  }

  lemma OutStarts(chunks: seq<string>, n: int, overlap: nat)
    requires chunks != []
    ensures AddOverlap(chunks, n, overlap)[0] == chunks[0]
  {
  }

  /** One result, when what its predecessor can lend is known. */
  lemma WholeIffRoomy(prev: string, before: nat, next: string, n: int, overlap: nat)
    requires n > 0 && Min(overlap, |prev|) == Min(overlap, before)
    ensures var r := Overlapped(prev, next, n, overlap);
      && (r == Suffix(prev, overlap) + next <==> Min(overlap, before) + |next| <= n + overlap)
      && (r == Suffix(prev, overlap) + next ==> Min(overlap, |r|) == Min(overlap, before + |next|))
  {
    assert |Suffix(prev, overlap)| == Min(overlap, before);
  }

  lemma LengthUpTo(chunks: seq<string>, k: nat)
    requires k < |chunks|
    ensures |Concat(chunks[..k + 1])| == |Concat(chunks[..k])| + |chunks[k]|
    ensures Concat(chunks[..0]) == ""
  {
    assert chunks[..k + 1] == chunks[..k] + [chunks[k]];
    ConcatAppend(chunks[..k], [chunks[k]]);
    ConcatOne(chunks[k]);
  }

  /** What result k can lend to the next is known from the chunks alone. */
  predicate LendsAsChunks(out: seq<string>, chunks: seq<string>, overlap: nat, k: nat)
    requires k < |out| == |chunks|
  {
    Min(overlap, |out[k]|) == Min(overlap, |Concat(chunks[..k + 1])|)
  }

  lemma NextIsWholeIffRoomy(chunks: seq<string>, n: int, overlap: nat, k: nat)
    requires n > 0 && 0 < k < |chunks| && LendsAsChunks(AddOverlap(chunks, n, overlap), chunks, overlap, k - 1)
    ensures var out := AddOverlap(chunks, n, overlap);
      && (WholeAt(out, chunks, overlap, k) <==> RoomyAt(chunks, n, overlap, k))
      && (WholeAt(out, chunks, overlap, k) ==> LendsAsChunks(out, chunks, overlap, k))
  {
    var out := AddOverlap(chunks, n, overlap);
    OutAt(chunks, n, overlap, k);
    LengthUpTo(chunks, k);
    WholeIffRoomy(out[k - 1], |Concat(chunks[..k])|, chunks[k], n, overlap);
    hide AddOverlap, Concat, Suffix, Min, Overlapped;
  }

  lemma FirstLends(chunks: seq<string>, n: int, overlap: nat)
    requires chunks != []
    ensures LendsAsChunks(AddOverlap(chunks, n, overlap), chunks, overlap, 0)
  {
    LengthUpTo(chunks, 0);
  }

  /** As long as nothing is cut, or there is room, both are so. */
  lemma {:induction false} WholeWhileRoomy(chunks: seq<string>, n: int, overlap: nat, k: nat)
    requires n > 0 && k < |chunks|
    requires var out := AddOverlap(chunks, n, overlap);
      || (forall i | 0 < i <= k :: WholeAt(out, chunks, overlap, i))
      || (forall i | 0 < i <= k :: RoomyAt(chunks, n, overlap, i))
    ensures var out := AddOverlap(chunks, n, overlap);
      && LendsAsChunks(out, chunks, overlap, k)
      && (k > 0 ==> WholeAt(out, chunks, overlap, k) && RoomyAt(chunks, n, overlap, k))
  {
    hide *;
    if k > 0 {
      WholeWhileRoomy(chunks, n, overlap, k - 1);
      NextIsWholeIffRoomy(chunks, n, overlap, k);
    } else {
      FirstLends(chunks, n, overlap);
    }
  }

  /** For chunks of any size: no chunk is cut, each being whole after a suffix of the previous result,
      exactly when every chunk leaves room for the overlap, or for all runes before it if they are fewer. */
  lemma TruncationExactly(chunks: seq<string>, n: int, overlap: nat)
    requires n > 0
    ensures var out := AddOverlap(chunks, n, overlap);
      (forall i | 0 < i < |chunks| :: WholeAt(out, chunks, overlap, i))
      <==> (forall i | 0 < i < |chunks| :: RoomyAt(chunks, n, overlap, i))
  {
    var out := AddOverlap(chunks, n, overlap);
    hide WholeAt, RoomyAt, AddOverlap;
    if (forall i | 0 < i < |chunks| :: WholeAt(out, chunks, overlap, i))
      || (forall i | 0 < i < |chunks| :: RoomyAt(chunks, n, overlap, i))
    {
      forall k | 0 < k < |chunks|
        ensures WholeAt(out, chunks, overlap, k) && RoomyAt(chunks, n, overlap, k)
      {
        WholeWhileRoomy(chunks, n, overlap, k);
      }
    }
  }

  /** Taking the overlap off again. */
  function StripAfter(prev: string, rest: seq<string>, overlap: nat): seq<string>
    decreases |rest|
  {
    if rest == [] then []
    else
      var taken := |Suffix(prev, overlap)|;
      [if taken <= |rest[0]| then rest[0][taken..] else ""] + StripAfter(rest[0], rest[1..], overlap)
  }

  function Strip(out: seq<string>, overlap: nat): seq<string> {
    if out == [] then [] else [out[0]] + StripAfter(out[0], out[1..], overlap)
  }

  lemma {:induction false} StripUndoesFollow(prev: string, rest: seq<string>, n: int, overlap: nat)
    requires Sized(rest, n)
    ensures StripAfter(prev, Follow(prev, rest, n, overlap), overlap) == rest
    decreases |rest|
  {
    if rest != [] {
      var first := Overlapped(prev, rest[0], n, overlap);
      assert |rest[0]| <= n;
      OverlappedFits(prev, rest[0], n, overlap);
      hide Overlapped, Suffix;
      StripUndoesFollow(first, rest[1..], n, overlap);
      assert Follow(prev, rest, n, overlap)[1..] == Follow(first, rest[1..], n, overlap);
    }
  }

  lemma StripUndoesOverlap(chunks: seq<string>, n: int, overlap: nat)
    requires Sized(chunks, n)
    ensures Strip(AddOverlap(chunks, n, overlap), overlap) == chunks
  {
    if chunks != [] {
      StripUndoesFollow(chunks[0], chunks[1..], n, overlap);
      assert AddOverlap(chunks, n, overlap)[1..] == Follow(chunks[0], chunks[1..], n, overlap);
    }
  }

  /** The recursive strategy end to end: split, then overlap. The truncation is never reached,
      and the original chunks, hence every rune of substance of the text, can be read back. */
  lemma RecursiveStrategyIsLossless(text: string, separators: seq<string>, n: int, overlap: nat, drop: set<char>)
    requires n > 0 && AllDropped(separators, drop)
    ensures var chunks := RecursiveCharacter.RecursiveSplit(text, separators, n);
      var out := AddOverlap(chunks, n, overlap);
      && (forall i | 0 < i < |out| :: out[i] == Suffix(out[i - 1], overlap) + chunks[i])
      && (forall i | 0 <= i < |out| :: |out[i]| <= n + overlap)
      && Essence(Concat(Strip(out, overlap)), drop) == Essence(text, drop)
  {
    var chunks := RecursiveCharacter.RecursiveSplit(text, separators, n);
    SplitIsSized(text, separators, n);
    NothingTruncated(chunks, n, overlap);
    StripUndoesOverlap(chunks, n, overlap);
    SplitKeepsEssence(text, separators, n, drop);
  }
}
