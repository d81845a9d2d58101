/** mergePartsWithOverlap of aipkg/rag/chunker/recursive_character.go: parts packed into chunks, some parts
    repeated between neighbours, and when that ends. */
module ChunkMerge {
  import opened Common
  import opened Text
  import opened RecursiveCharacter
  import opened RecursiveCharacterProofs
  import opened Windows

  // ----- one turn

  /** The length of the last b parts of a block, joined. */
  function TailLength(block: seq<string>, sep: string, b: nat): nat
    requires b <= |block|
  {
    |Join(block[|block| - b..], sep)|
  }

  /** How many of the last parts of a block are repeated, when `taken` are already. */
  function BackFrom(block: seq<string>, sep: string, overlap: nat, taken: nat): (b: nat)
    requires taken <= |block|
    ensures taken <= b <= |block|
    decreases |block| - taken
  {
    if taken == |block| || TailLength(block, sep, taken) >= overlap then taken
    else BackFrom(block, sep, overlap, taken + 1)
  }

  /** Where the block that starts at part i ends. */
  function BlockEnd(parts: seq<string>, sep: string, n: nat, i: nat): (end: nat)
    requires i < |parts|
    ensures i < end <= |parts|
  {
    i + BlockSize(parts[i..], sep, n)
  }

  predicate IsOverlong(block: seq<string>, n: nat) { |block| == 1 && |block[0]| > n }

  function ChunkAt(parts: seq<string>, sep: string, n: nat, i: nat): string
    requires i < |parts|
  {
    var block := parts[i..BlockEnd(parts, sep, n, i)];
    if IsOverlong(block, n) then block[0][..n] else Join(block, sep)
  }

  /** Where the next block starts. */
  function NextAt(parts: seq<string>, sep: string, n: nat, overlap: nat, i: nat): (next: nat)
    requires i < |parts|
    ensures i <= next <= BlockEnd(parts, sep, n, i)
  {
    var end := BlockEnd(parts, sep, n, i);
    var block := parts[i..end];
    if !IsOverlong(block, n) && overlap > 0 && end < |parts| then end - BackFrom(block, sep, overlap, 0) else end
  }

  lemma TailGrows(block: seq<string>, sep: string, b: nat)
    requires b < |block|
    ensures TailLength(block, sep, b + 1)
         == |block[|block| - b - 1]| + (if b > 0 then |sep| else 0) + TailLength(block, sep, b)
  {
    NextTail(block, |block| - b - 1);
    Whole(block);
  }

  lemma NoTail(block: seq<string>, sep: string)
    ensures TailLength(block, sep, 0) == 0
  {
    Whole(block);
  }

  lemma BackStep(block: seq<string>, sep: string, overlap: nat, taken: nat)
    requires taken <= |block|
    ensures BackFrom(block, sep, overlap, taken) ==
      if taken == |block| || TailLength(block, sep, taken) >= overlap then taken
      else BackFrom(block, sep, overlap, taken + 1)
  {
    hide TailLength;
  }

  /** The loop that counts the parts to repeat. */
  method BackUp(builder: seq<string>, sep: string, overlap: nat) returns (backParts: nat)
    ensures backParts == BackFrom(builder, sep, overlap, 0)
  {
    hide *;
    var backLen := 0;
    backParts := 0;
    var k := |builder| - 1;
    NoTail(builder, sep);
    while k >= 0 && backLen < overlap
      invariant -1 <= k < |builder| && backParts == |builder| - 1 - k
      invariant backLen == TailLength(builder, sep, backParts)
      invariant BackFrom(builder, sep, overlap, 0) == BackFrom(builder, sep, overlap, backParts)
    {
      TailGrows(builder, sep, backParts);
      BackStep(builder, sep, overlap, backParts);
      var partLen := |builder[k]|;
      if k < |builder| - 1 && sep != "" {
        partLen := partLen + |sep|;
      }
      backLen := backLen + partLen;
      backParts := backParts + 1;
      k := k - 1;
    }
    BackStep(builder, sep, overlap, backParts);
  }

  /** The loop that assembles one block. */
  method Assemble(parts: seq<string>, sep: string, chunkSize: nat, i: nat) returns (builder: seq<string>)
    requires i < |parts|
    ensures builder == parts[i..BlockEnd(parts, sep, chunkSize, i)]
  {
    hide *;
    builder := [];
    var currentSize: nat := 0;
    var j := i;
    BlockStarts(parts, sep, chunkSize, i);
    while j < |parts|
      invariant i <= j <= |parts| && builder == parts[i..j]
      invariant BlockEnd(parts, sep, chunkSize, i) == i + Extend(parts[i..], |sep|, chunkSize, j - i, currentSize)
    {
      ExtendStep(parts, |sep|, chunkSize, i, j, currentSize);
      var part := parts[j];
      var addSize := |part|;
      if |builder| > 0 && sep != "" {
        addSize := addSize + |sep|;
      }
      if currentSize + addSize > chunkSize && currentSize > 0 {
        return;
      }
      builder := builder + [part];
      currentSize := currentSize + addSize;
      j := j + 1;
    }
    ExtendStep(parts, |sep|, chunkSize, i, j, currentSize);
  }

  lemma BlockStarts(parts: seq<string>, sep: string, n: nat, i: nat)
    requires i < |parts|
    ensures BlockEnd(parts, sep, n, i) == i + Extend(parts[i..], |sep|, n, 0, 0)
    ensures parts[i..i] == []
  {
  }

  lemma ExtendStep(parts: seq<string>, sepLen: nat, n: int, i: nat, j: nat, size: nat)
    requires i <= j <= |parts|
    ensures Extend(parts[i..], sepLen, n, j - i, size)
         == if j == |parts| then j - i
            else
              var add := |parts[j]| + if j > i then sepLen else 0;
              if size + add > n && size > 0 then j - i else Extend(parts[i..], sepLen, n, j + 1 - i, size + add)
    ensures j < |parts| ==> parts[i..j] + [parts[j]] == parts[i..j + 1]
  {
    ExtendFrom(parts, sepLen, n, i, j, size);
    hide Extend;
  }

  /** The body of the loop. */
  method MergeTurn(parts: seq<string>, sep: string, chunkSize: nat, overlap: nat, i: nat, chunks: seq<string>)
    returns (next: nat, more: seq<string>)
    requires i < |parts|
    ensures next == NextAt(parts, sep, chunkSize, overlap, i)
    ensures more == chunks + [ChunkAt(parts, sep, chunkSize, i)]
  {
    hide BackFrom, Join, BlockEnd;
    var builder := Assemble(parts, sep, chunkSize, i);
    if |builder| == 1 && |builder[0]| > chunkSize {
      return i + 1, chunks + [builder[0][..chunkSize]];
    }
    more := chunks + [Join(builder, sep)];
    if overlap > 0 && i + |builder| < |parts| {
      var backParts := BackUp(builder, sep, overlap);
      next := i + (|builder| - backParts);
    } else {
      next := i + |builder|;
    }
  }

  // ----- when the index advances

  lemma {:induction false} BackIsAll(block: seq<string>, sep: string, overlap: nat, taken: nat)
    requires taken < |block| && overlap > 0
    ensures BackFrom(block, sep, overlap, taken) == |block| <==> TailLength(block, sep, |block| - 1) < overlap
    decreases |block| - taken
  {
    ShorterTail(block, sep, taken, |block| - 1);
    hide TailLength;
    if TailLength(block, sep, taken) < overlap && taken + 1 < |block| {
      BackIsAll(block, sep, overlap, taken + 1);
    }
  }

  lemma ShorterTail(block: seq<string>, sep: string, b: nat, c: nat)
    requires b <= c <= |block|
    ensures TailLength(block, sep, b) <= TailLength(block, sep, c)
  {
    var tail := block[|block| - c..];
    TailOfTail(block, |block| - c, c - b);
    SuffixIsShorter(tail, sep, c - b);
  }

  /** There is an overlap, more parts follow the block, and the block without its first part is shorter than
      the overlap (an over-long part apart). */
  predicate Stuck(parts: seq<string>, sep: string, n: nat, overlap: nat, i: nat)
    requires i < |parts|
  {
    var end := BlockEnd(parts, sep, n, i);
    overlap > 0 && end < |parts| && !IsOverlong(parts[i..end], n) && |Join(parts[i + 1..end], sep)| < overlap
  }

  /** A turn leaves the index where it is exactly at a block that is stuck. */
  lemma StandsIff(parts: seq<string>, sep: string, n: nat, overlap: nat, i: nat)
    requires i < |parts|
    ensures NextAt(parts, sep, n, overlap, i) == i <==> Stuck(parts, sep, n, overlap, i)
  {
    var end := BlockEnd(parts, sep, n, i);
    var block := parts[i..end];
    TailOfSlice(parts, i, end, 1);
    assert TailLength(block, sep, |block| - 1) == |Join(parts[i + 1..end], sep)|;
    if overlap > 0 {
      BackIsAll(block, sep, overlap, 0);
    }
    hide BlockEnd, IsOverlong, BackFrom, TailLength, Join;
  }

  // ----- when the loop ends

  /** No block is stuck at i and wherever the index comes to from there. */
  predicate Advances(parts: seq<string>, sep: string, n: nat, overlap: nat, i: nat): (r: bool)
    requires i <= |parts|
    ensures r && i < |parts| ==> i < NextAt(parts, sep, n, overlap, i)
    decreases |parts| - i
  {
    if i == |parts| then true
    else
      StandsIff(parts, sep, n, overlap, i);
      !Stuck(parts, sep, n, overlap, i) && Advances(parts, sep, n, overlap, NextAt(parts, sep, n, overlap, i))
  }

  lemma StuckStops(parts: seq<string>, sep: string, n: nat, overlap: nat, i: nat)
    requires i < |parts| && Stuck(parts, sep, n, overlap, i)
    ensures !Advances(parts, sep, n, overlap, i)
  {
  }

  /** The chunks of the blocks from part i on. */
  function ChunksFrom(parts: seq<string>, sep: string, n: nat, overlap: nat, i: nat): seq<string>
    requires i <= |parts| && Advances(parts, sep, n, overlap, i)
    decreases |parts| - i
  {
    if i == |parts| then []
    else [ChunkAt(parts, sep, n, i)] + ChunksFrom(parts, sep, n, overlap, NextAt(parts, sep, n, overlap, i))
  }

  lemma ChunksTurn(parts: seq<string>, sep: string, n: nat, overlap: nat, i: nat, chunks: seq<string>)
    requires i < |parts| && Advances(parts, sep, n, overlap, i)
    ensures var next := NextAt(parts, sep, n, overlap, i);
      && i < next <= |parts| && Advances(parts, sep, n, overlap, next)
      && chunks + ChunksFrom(parts, sep, n, overlap, i)
        == (chunks + [ChunkAt(parts, sep, n, i)]) + ChunksFrom(parts, sep, n, overlap, next)
  {
    hide ChunkAt, NextAt, Stuck;
    var next := NextAt(parts, sep, n, overlap, i);
    var rest := ChunksFrom(parts, sep, n, overlap, next);
    Assoc(chunks, [ChunkAt(parts, sep, n, i)], rest);
  }

  lemma ChunksEnd(parts: seq<string>, sep: string, n: nat, overlap: nat, chunks: seq<string>)
    ensures Advances(parts, sep, n, overlap, |parts|)
    ensures chunks + ChunksFrom(parts, sep, n, overlap, |parts|) == chunks
  {
    NothingAdded(chunks);
  }

  /** What mergePartsWithOverlap returns where it ends. */
  function Merged(parts: seq<string>, sep: string, n: int, overlap: nat): seq<string>
    requires n > 0 ==> Advances(parts, sep, n, overlap, 0)
  {
    if parts == [] then [] else if n <= 0 then [Join(parts, sep)] else ChunksFrom(parts, sep, n, overlap, 0)
  }

  /** mergePartsWithOverlap, where it ends. */
  method MergePartsWithOverlap(parts: seq<string>, sep: string, chunkSize: int, overlap: nat)
    returns (chunks: seq<string>)
    requires chunkSize > 0 ==> Advances(parts, sep, chunkSize, overlap, 0)
    ensures chunks == Merged(parts, sep, chunkSize, overlap)
  {
    if |parts| == 0 {
      return [];
    }
    if chunkSize <= 0 {
      return [Join(parts, sep)];
    }
    chunks := [];
    var i := 0;
    NothingAdded(ChunksFrom(parts, sep, chunkSize, overlap, 0));
    assert Merged(parts, sep, chunkSize, overlap) == ChunksFrom(parts, sep, chunkSize, overlap, 0);
    hide *;
    while i < |parts|
      invariant 0 <= i <= |parts| && Advances(parts, sep, chunkSize, overlap, i)
      invariant Merged(parts, sep, chunkSize, overlap) == chunks + ChunksFrom(parts, sep, chunkSize, overlap, i)
      decreases |parts| - i
    {
      ChunksTurn(parts, sep, chunkSize, overlap, i, chunks);
      i, chunks := MergeTurn(parts, sep, chunkSize, overlap, i, chunks);
    }
    ChunksEnd(parts, sep, chunkSize, overlap, chunks);
  }

  /** The loop after k turns, none being taken once it has ended. */
  function MergeTurns(parts: seq<string>, sep: string, n: nat, overlap: nat, k: nat): (s: Scan)
    ensures !s.Panicked? && (s.Running? ==> 0 <= s.i < |parts|)
  {
    if k == 0 then ScanOf(0, [], parts == [])
    else TurnOf(parts, sep, n, overlap, MergeTurns(parts, sep, n, overlap, k - 1))
  }

  function TurnOf(parts: seq<string>, sep: string, n: nat, overlap: nat, s: Scan): (next: Scan)
    requires !s.Panicked? && (s.Running? ==> 0 <= s.i < |parts|)
    ensures !next.Panicked? && (next.Running? ==> 0 <= next.i < |parts|)
  {
    if s.Ended? then s
    else
      var next := NextAt(parts, sep, n, overlap, s.i);
      ScanOf(next, s.chunks + [ChunkAt(parts, sep, n, s.i)], next == |parts|)
  }

  /** The block that the index has come to after k turns is stuck. */
  predicate StuckAfter(parts: seq<string>, sep: string, n: nat, overlap: nat, k: nat) {
    var s := MergeTurns(parts, sep, n, overlap, k);
    s.Running? && Stuck(parts, sep, n, overlap, s.i)
  }

  lemma TurnAfter(parts: seq<string>, sep: string, n: nat, overlap: nat, k: nat, i: nat, chunks: seq<string>)
    requires i < |parts| && MergeTurns(parts, sep, n, overlap, k) == Running(i, chunks)
    ensures var next := NextAt(parts, sep, n, overlap, i);
      var more := chunks + [ChunkAt(parts, sep, n, i)];
      MergeTurns(parts, sep, n, overlap, k + 1) == if next == |parts| then Ended(more) else Running(next, more)
  {
    hide ChunkAt, NextAt;
  }

  lemma CopyAdded(chunks: seq<string>, c: string, m: nat)
    ensures chunks + Copies(c, 0) == chunks
    ensures (chunks + Copies(c, m)) + [c] == chunks + Copies(c, m + 1)
  {
    NothingAdded(chunks);
    Assoc(chunks, Copies(c, m), [c]);
  }

  lemma {:induction false} CopiesFrom(parts: seq<string>, sep: string, n: nat, overlap: nat, k: nat, m: nat,
      i: nat, chunks: seq<string>)
    requires i < |parts| && MergeTurns(parts, sep, n, overlap, k) == Running(i, chunks)
    requires Stuck(parts, sep, n, overlap, i)
    ensures MergeTurns(parts, sep, n, overlap, k + m) == Running(i, chunks + Copies(ChunkAt(parts, sep, n, i), m))
  {
    hide *;
    var c := ChunkAt(parts, sep, n, i);
    if m == 0 {
      CopyAdded(chunks, c, 0);
    } else {
      CopiesFrom(parts, sep, n, overlap, k, m - 1, i, chunks);
      StandsIff(parts, sep, n, overlap, i);
      CopyAdded(chunks, c, m - 1);
      TurnAfter(parts, sep, n, overlap, k + m - 1, i, chunks + Copies(c, m - 1));
    }
  }

  /** From a stuck block on the loop only repeats its chunk. */
  lemma StandsForEver(parts: seq<string>, sep: string, n: nat, overlap: nat, k: nat, m: nat)
    requires StuckAfter(parts, sep, n, overlap, k)
    ensures var s := MergeTurns(parts, sep, n, overlap, k);
      && s.Running?
      && MergeTurns(parts, sep, n, overlap, k + m)
        == Running(s.i, s.chunks + Copies(ChunkAt(parts, sep, n, s.i), m))
  {
    var s := MergeTurns(parts, sep, n, overlap, k);
    hide MergeTurns, Stuck, ChunkAt, Copies;
    CopiesFrom(parts, sep, n, overlap, k, m, s.i, s.chunks);
  }

  lemma {:induction false} EndsFrom(parts: seq<string>, sep: string, n: nat, overlap: nat, k: nat, i: nat,
      chunks: seq<string>) returns (m: nat)
    requires i < |parts| && MergeTurns(parts, sep, n, overlap, k) == Running(i, chunks)
    requires Advances(parts, sep, n, overlap, i)
    ensures MergeTurns(parts, sep, n, overlap, m) == Ended(chunks + ChunksFrom(parts, sep, n, overlap, i))
    decreases |parts| - i
  {
    hide *;
    var next := NextAt(parts, sep, n, overlap, i);
    var more := chunks + [ChunkAt(parts, sep, n, i)];
    TurnAfter(parts, sep, n, overlap, k, i, chunks);
    ChunksTurn(parts, sep, n, overlap, i, chunks);
    if next == |parts| {
      ChunksEnd(parts, sep, n, overlap, more);
      m := k + 1;
    } else {
      m := EndsFrom(parts, sep, n, overlap, k + 1, next, more);
    }
  }

  lemma {:induction false} StuckFrom(parts: seq<string>, sep: string, n: nat, overlap: nat, k: nat, i: nat)
    returns (m: nat)
    requires var s := MergeTurns(parts, sep, n, overlap, k);
      s.Running? && s.i == i && !Advances(parts, sep, n, overlap, i)
    ensures StuckAfter(parts, sep, n, overlap, m)
    decreases |parts| - i
  {
    hide ChunkAt, NextAt, Stuck;
    StandsIff(parts, sep, n, overlap, i);
    if Stuck(parts, sep, n, overlap, i) {
      m := k;
    } else {
      m := StuckFrom(parts, sep, n, overlap, k + 1, NextAt(parts, sep, n, overlap, i));
    }
  }

  lemma {:induction false} EndedStays(parts: seq<string>, sep: string, n: nat, overlap: nat, k: nat, m: nat)
    requires k <= m && MergeTurns(parts, sep, n, overlap, k).Ended?
    ensures MergeTurns(parts, sep, n, overlap, m) == MergeTurns(parts, sep, n, overlap, k)
    decreases m
  {
    hide NextAt, ChunkAt;
    if k < m {
      EndedStays(parts, sep, n, overlap, k, m - 1);
    }
  }

  lemma StuckNeverEnds(parts: seq<string>, sep: string, n: nat, overlap: nat, m: nat, k: nat)
    requires StuckAfter(parts, sep, n, overlap, m)
    ensures MergeTurns(parts, sep, n, overlap, k).Running?
  {
    hide MergeTurns;
    if m <= k {
      StandsForEver(parts, sep, n, overlap, m, k - m);
    } else if MergeTurns(parts, sep, n, overlap, k).Ended? {
      EndedStays(parts, sep, n, overlap, k, m);
    }
  }

  /** The loop ends exactly when no block that it comes to has an overlap to make, parts after it, and less
      than the overlap behind its first part; it then ends with the specified chunks. */
  lemma MergeEndsIff(parts: seq<string>, sep: string, n: nat, overlap: nat)
    ensures (exists k :: MergeTurns(parts, sep, n, overlap, k).Ended?)
      <==> forall k :: !StuckAfter(parts, sep, n, overlap, k)
    ensures (exists k :: MergeTurns(parts, sep, n, overlap, k).Ended?) <==> Advances(parts, sep, n, overlap, 0)
    ensures Advances(parts, sep, n, overlap, 0) ==>
      exists k :: MergeTurns(parts, sep, n, overlap, k) == Ended(ChunksFrom(parts, sep, n, overlap, 0))
  {
    if Advances(parts, sep, n, overlap, 0) {
      var m := EndTurn(parts, sep, n, overlap);
      hide *;
      forall k ensures !StuckAfter(parts, sep, n, overlap, k) {
        if StuckAfter(parts, sep, n, overlap, k) {
          StuckNeverEnds(parts, sep, n, overlap, k, m);
        }
      }
    } else {
      var m := StuckFrom(parts, sep, n, overlap, 0, 0);
      hide *;
      forall k ensures MergeTurns(parts, sep, n, overlap, k).Running? {
        StuckNeverEnds(parts, sep, n, overlap, m, k);
      }
    }
  }

  lemma EndTurn(parts: seq<string>, sep: string, n: nat, overlap: nat) returns (m: nat)
    requires Advances(parts, sep, n, overlap, 0)
    ensures MergeTurns(parts, sep, n, overlap, m) == Ended(ChunksFrom(parts, sep, n, overlap, 0))
  {
    if parts == [] {
      m := 0;
    } else {
      m := EndsFrom(parts, sep, n, overlap, 0, 0, []);
      NothingAdded(ChunksFrom(parts, sep, n, overlap, 0));
    }
  }

  // ----- what the chunks are

  lemma {:induction false} BackIs(block: seq<string>, sep: string, overlap: nat, taken: nat)
    requires taken <= |block| && (taken > 0 ==> TailLength(block, sep, taken - 1) < overlap)
    ensures var b := BackFrom(block, sep, overlap, taken);
      && (b > 0 ==> TailLength(block, sep, b - 1) < overlap)
      && (b < |block| ==> TailLength(block, sep, b) >= overlap)
    decreases |block| - taken
  {
    hide TailLength;
    if taken < |block| && TailLength(block, sep, taken) < overlap {
      BackIs(block, sep, overlap, taken + 1);
    }
  }

  lemma TailLengthIs(parts: seq<string>, sep: string, i: nat, end: nat, b: nat)
    requires b <= end - i && i <= end <= |parts|
    ensures TailLength(parts[i..end], sep, b) == |Join(parts[end - b..end], sep)|
  {
    TailOfSlice(parts, i, end, end - i - b);
    hide Join;
  }

  /** A block is the longest run of parts that fits, and its chunk is their join. */
  lemma BlockFits(parts: seq<string>, sep: string, n: nat, i: nat)
    requires Sized(parts, n) && i < |parts|
    ensures var (end, chunk) := (BlockEnd(parts, sep, n, i), ChunkAt(parts, sep, n, i));
      && !IsOverlong(parts[i..end], n) && chunk == Join(parts[i..end], sep) && 0 < |chunk| <= n
      && (end < |parts| ==> |Join(parts[i..end + 1], sep)| > n)
  {
    hide *;
    var rest := parts[i..];
    BlockOfRest(parts, sep, n, i);
    var k := BlockSize(rest, sep, n);
    SizedAt(parts, n, i);
    SizedSuffix(parts, n, i);
    BlockIsMaximal(rest, sep, n);
    NotOverlong(rest[..k], n);
    if i + k < |parts| {
      SliceOfTail(parts, i, k + 1);
    }
  }

  lemma BlockOfRest(parts: seq<string>, sep: string, n: nat, i: nat)
    requires i < |parts|
    ensures var rest := parts[i..];
      var k := BlockSize(rest, sep, n);
      && 0 < k <= |rest| && BlockEnd(parts, sep, n, i) == i + k && parts[i..i + k] == rest[..k]
      && (!IsOverlong(rest[..k], n) ==> ChunkAt(parts, sep, n, i) == Join(rest[..k], sep))
  {
    SliceOfTail(parts, i, BlockSize(parts[i..], sep, n));
    hide Join, BlockSize;
  }

  /** A part longer than the chunk size at which a block starts is a block of its own, cut after n runes; what is
      cut off is lost. */
  lemma OverlongIsCut(parts: seq<string>, sep: string, n: nat, overlap: nat, i: nat)
    requires i < |parts| && |parts[i]| > n
    ensures BlockEnd(parts, sep, n, i) == i + 1 == NextAt(parts, sep, n, overlap, i)
    ensures ChunkAt(parts, sep, n, i) == parts[i][..n]
  {
    BlockStarts(parts, sep, n, i);
    ExtendStep(parts, |sep|, n, i, i, 0);
    ExtendStep(parts, |sep|, n, i, i + 1, |parts[i]|);
    assert parts[i..i + 1] == [parts[i]];
    hide Extend, Join, BlockEnd;
  }

  lemma NotOverlong(block: seq<string>, n: nat)
    requires block != [] && |block[0]| <= n
    ensures !IsOverlong(block, n)
  {
  }

  lemma SizedAt(parts: seq<string>, n: nat, i: nat)
    requires Sized(parts, n) && i < |parts|
    ensures 0 < |parts[i]| <= n
  {
    assert parts[i] in parts;
  }

  /** A block repeats nothing when it is the last or there is no overlap; otherwise what it repeats is at
      least as long as the overlap, or the whole block, and would be shorter with one part less. */
  lemma RepeatIsLeast(parts: seq<string>, sep: string, n: nat, overlap: nat, i: nat)
    requires Sized(parts, n) && i < |parts|
    ensures var (end, next) := (BlockEnd(parts, sep, n, i), NextAt(parts, sep, n, overlap, i));
      && (end == |parts| || overlap == 0 ==> next == end)
      && (next < end ==> |Join(parts[next + 1..end], sep)| < overlap)
      && (i < next && end < |parts| ==> |Join(parts[next..end], sep)| >= overlap)
  {
    hide *;
    var end := BlockEnd(parts, sep, n, i);
    var block := parts[i..end];
    BlockFits(parts, sep, n, i);
    NextIs(parts, sep, n, overlap, i);
    if overlap > 0 && end < |parts| {
      var b := BackFrom(block, sep, overlap, 0);
      BackIs(block, sep, overlap, 0);
      TailLengthIs(parts, sep, i, end, b);
      if b > 0 {
        TailLengthIs(parts, sep, i, end, b - 1);
      }
    }
  }

  lemma NextIs(parts: seq<string>, sep: string, n: nat, overlap: nat, i: nat)
    requires i < |parts| && !IsOverlong(parts[i..BlockEnd(parts, sep, n, i)], n)
    ensures var end := BlockEnd(parts, sep, n, i);
      NextAt(parts, sep, n, overlap, i)
        == if overlap > 0 && end < |parts| then end - BackFrom(parts[i..end], sep, overlap, 0) else end
  {
    hide BlockEnd, BackFrom, IsOverlong;
  }

  /** Where the blocks start. */
  function Starts(parts: seq<string>, sep: string, n: nat, overlap: nat, i: nat): seq<nat>
    requires i <= |parts| && Advances(parts, sep, n, overlap, i)
    decreases |parts| - i
  {
    if i == |parts| then [] else [i] + Starts(parts, sep, n, overlap, NextAt(parts, sep, n, overlap, i))
  }

  /** Every chunk is the block of its start, the next start lies behind it and no further than its end, and
      the last block reaches the last part: no part is left out. */
  lemma {:induction false} MergedAt(parts: seq<string>, sep: string, n: nat, overlap: nat, i: nat, k: nat)
    requires i <= |parts| && Advances(parts, sep, n, overlap, i)
    requires k < |Starts(parts, sep, n, overlap, i)|
    ensures var (starts, chunks) := (Starts(parts, sep, n, overlap, i), ChunksFrom(parts, sep, n, overlap, i));
      && |chunks| == |starts| && starts[0] == i && starts[k] < |parts|
      && chunks[k] == ChunkAt(parts, sep, n, starts[k])
      && (k + 1 < |starts| ==>
            && starts[k + 1] == NextAt(parts, sep, n, overlap, starts[k])
            && starts[k] < starts[k + 1] <= BlockEnd(parts, sep, n, starts[k]))
      && (k + 1 == |starts| ==> BlockEnd(parts, sep, n, starts[k]) == |parts|)
    decreases |parts| - i
  {
    var next := NextAt(parts, sep, n, overlap, i);
    var later := Starts(parts, sep, n, overlap, next);
    assert Starts(parts, sep, n, overlap, i) == [i] + later;
    hide ChunkAt, NextAt, BlockEnd;
    if k > 0 {
      MergedAt(parts, sep, n, overlap, next, k - 1);
    } else if next < |parts| {
      MergedAt(parts, sep, n, overlap, next, 0);
    }
  }

  // ----- two families

  /** Without overlap the loop always ends. */
  lemma {:induction false} NoOverlapAdvances(parts: seq<string>, sep: string, n: nat, i: nat)
    requires i <= |parts|
    ensures Advances(parts, sep, n, 0, i)
    decreases |parts| - i
  {
    if i < |parts| {
      NoOverlapAdvances(parts, sep, n, NextAt(parts, sep, n, 0, i));
    }
  }

  lemma LoneFirstPartIsStuck(parts: seq<string>, sep: string, n: nat, overlap: nat)
    requires |parts| > 1 && 0 < |parts[0]| <= n < |parts[0]| + |sep| + |parts[1]| && overlap > 0
    ensures Stuck(parts, sep, n, overlap, 0) && ChunkAt(parts, sep, n, 0) == parts[0]
  {
    Whole(parts);
    assert BlockEnd(parts, sep, n, 0) == 1 by {
      assert Extend(parts, |sep|, n, 1, |parts[0]|) == 1;
    }
    assert parts[0..1] == [parts[0]] && parts[1..1] == [];
  }

  /** With any overlap, a first part that fits but not together with the second keeps the loop at index 0 for
      ever, adding that part on every turn. */
  lemma LoneFirstPartStands(parts: seq<string>, sep: string, n: nat, overlap: nat, k: nat)
    requires |parts| > 1 && 0 < |parts[0]| <= n < |parts[0]| + |sep| + |parts[1]| && overlap > 0
    ensures MergeTurns(parts, sep, n, overlap, k) == Running(0, Copies(parts[0], k))
  {
    LoneFirstPartIsStuck(parts, sep, n, overlap);
    assert MergeTurns(parts, sep, n, overlap, 0) == Running(0, []);
    assert StuckAfter(parts, sep, n, overlap, 0);
    hide *;
    StandsForEver(parts, sep, n, overlap, 0, k);
    NothingAdded(Copies(parts[0], k));
  }

  // ----- single runes

  /** Every rune a part of its own. */
  function Runes(text: string): (parts: seq<string>)
    ensures |parts| == |text|
  {
    if text == "" then [] else [[text[0]]] + Runes(text[1..])
  }

  lemma {:induction false} RuneAt(text: string, k: nat)
    requires k < |text|
    ensures Runes(text)[k] == [text[k]]
    decreases k
  {
    if k > 0 {
      RuneAt(text[1..], k - 1);
    }
  }

  lemma RunesBetween(text: string, i: nat, j: nat)
    requires i <= j <= |text|
    ensures Runes(text)[i..j] == Runes(text[i..j])
  {
    hide Runes;
    forall k | 0 <= k < j - i
      ensures Runes(text)[i + k] == Runes(text[i..j])[k]
    {
      RuneAt(text, i + k);
      RuneAt(text[i..j], k);
    }
  }

  lemma RunesFrom(text: string, i: nat)
    requires i <= |text|
    ensures Runes(text)[i..] == Runes(text[i..])
  {
    hide *;
    RunesBetween(text, i, |text|);
    ToTheEnd(text, i);
    ToTheEnd(Runes(text), i);
  }

  lemma {:induction false} JoinRunes(text: string)
    ensures Join(Runes(text), "") == text
  {
    if |text| > 1 {
      JoinRunes(text[1..]);
    } else if |text| == 1 {
      assert text == [text[0]];
    }
  }

  lemma {:induction false} ExtendRunes(text: string, n: nat, taken: nat)
    requires taken <= n && taken <= |text| && n > 0
    ensures Extend(Runes(text), 0, n, taken, taken) == if n < |text| then n else |text|
    decreases |text| - taken
  {
    if taken < |text| {
      RuneAt(text, taken);
      if taken < n {
        ExtendRunes(text, n, taken + 1);
      }
    }
  }

  /** A stretch of single runes, joined, is the stretch of the text. */
  lemma RuneBlock(text: string, i: nat, j: nat)
    requires i <= j <= |text|
    ensures Runes(text)[i..j] == Runes(text[i..j]) && Join(Runes(text)[i..j], "") == text[i..j]
  {
    hide *;
    RunesBetween(text, i, j);
    JoinRunes(text[i..j]);
  }

  lemma RuneTail(text: string, b: nat)
    requires b <= |text|
    ensures TailLength(Runes(text), "", b) == b
  {
    hide *;
    RuneBlock(text, |text| - b, |text|);
    TailLengthIs(Runes(text), "", 0, |text|, b);
    Whole(Runes(text));
    ToTheEnd(Runes(text), 0);
  }

  lemma {:induction false} BackRunes(text: string, overlap: nat, taken: nat)
    requires taken <= |text| && taken <= overlap
    ensures BackFrom(Runes(text), "", overlap, taken) == if overlap < |text| then overlap else |text|
    decreases |text| - taken
  {
    hide TailLength, Runes;
    RuneTail(text, taken);
    if taken < |text| && taken < overlap {
      BackRunes(text, overlap, taken + 1);
    }
  }

  lemma RuneBlockEnd(text: string, n: nat, i: nat)
    requires i < |text| && n > 0
    ensures BlockEnd(Runes(text), "", n, i) == if i + n < |text| then i + n else |text|
  {
    RunesFrom(text, i);
    ExtendRunes(text[i..], n, 0);
  }

  lemma RunesAreShort(text: string, n: nat)
    requires n > 0
    ensures !IsOverlong(Runes(text), n)
  {
    if |text| == 1 {
      RuneAt(text, 0);
    }
  }

  lemma RuneChunk(text: string, n: nat, i: nat)
    requires i < |text| && n > 0
    ensures var end := if i + n < |text| then i + n else |text|;
      && BlockEnd(Runes(text), "", n, i) == end && ChunkAt(Runes(text), "", n, i) == text[i..end]
      && Runes(text)[i..end] == Runes(text[i..end]) && !IsOverlong(Runes(text)[i..end], n)
  {
    hide Join, BlockEnd, Runes, IsOverlong;
    RuneBlockEnd(text, n, i);
    var end := BlockEnd(Runes(text), "", n, i);
    RuneBlock(text, i, end);
    RunesAreShort(text[i..end], n);
  }

  /** On single runes a turn is the turn of the window loops. */
  lemma RuneTurn(text: string, n: nat, overlap: nat, i: nat, chunks: seq<string>)
    requires i < |text| && overlap <= n && n > 0
    ensures var next := NextAt(Runes(text), "", n, overlap, i);
      ScanOf(next, chunks + [ChunkAt(Runes(text), "", n, i)], next == |text|) == Turn(text, n, overlap, i, chunks)
  {
    hide Join, BackFrom, BlockEnd, Runes, IsOverlong, ChunkAt;
    RuneChunk(text, n, i);
    var end := if i + n < |text| then i + n else |text|;
    BackRunes(text[i..end], overlap, 0);
    assert end == |text| ==> text[i..end] == text[i..];
  }

  lemma RuneStep(text: string, n: nat, overlap: nat, i: nat)
    requires i < |text| && overlap <= n && n > 0 && Ends(text, n, overlap)
    ensures var next := NextAt(Runes(text), "", n, overlap, i);
      && i < next <= |text|
      && Contents(WindowsFrom(text, n, overlap, i))
        == [ChunkAt(Runes(text), "", n, i)] + Contents(WindowsFrom(text, n, overlap, next))
  {
    hide NextAt, ChunkAt, Contents, WindowsFrom, Runes;
    RuneTurn(text, n, overlap, i, []);
    TurnGivesWindow(text, n, overlap, i, []);
    End(text, n, overlap, |text|);
    var whole := Contents(WindowsFrom(text, n, overlap, i));
    assert [] + whole == whole;
    var chunk := ChunkAt(Runes(text), "", n, i);
    assert [] + [chunk] == [chunk] && [chunk] + [] == [chunk];
  }

  /** On single runes the loop ends under the condition of the window loops, with the same windows. */
  lemma {:induction false} RunesAdvance(text: string, n: nat, overlap: nat, i: nat)
    requires i <= |text| && overlap <= n && n > 0 && Ends(text, n, overlap)
    ensures Advances(Runes(text), "", n, overlap, i)
    ensures ChunksFrom(Runes(text), "", n, overlap, i) == Contents(WindowsFrom(text, n, overlap, i))
    decreases |text| - i
  {
    hide NextAt, ChunkAt, Contents, WindowsFrom, Runes, Ends, Stuck;
    if i == |text| {
      End(text, n, overlap, i);
    } else {
      RuneStep(text, n, overlap, i);
      StandsIff(Runes(text), "", n, overlap, i);
      RunesAdvance(text, n, overlap, NextAt(Runes(text), "", n, overlap, i));
    }
  }

  /** On single runes the loop ends exactly where the window loops do. */
  lemma RunesEndIff(text: string, n: nat, overlap: nat)
    requires overlap <= n && n > 0
    ensures Advances(Runes(text), "", n, overlap, 0) <==> Ends(text, n, overlap)
  {
    hide Advances, NextAt, Runes, Stuck, ChunkAt;
    if Ends(text, n, overlap) {
      RunesAdvance(text, n, overlap, 0);
    } else {
      RuneTurn(text, n, overlap, 0, []);
      StandsIff(Runes(text), "", n, overlap, 0);
      StuckStops(Runes(text), "", n, overlap, 0);
    }
  }

  /** splitByRunes, where it comes back. */
  method SplitByRunes(text: string, chunkSize: int, overlap: nat) returns (chunks: seq<string>)
    requires chunkSize > 0 ==> Advances(Runes(text), "", chunkSize, overlap, 0)
    ensures chunks == if text == "" || chunkSize <= 0 then [] else Merged(Runes(text), "", chunkSize, overlap)
    ensures 0 < chunkSize && overlap <= chunkSize ==>
      Ends(text, chunkSize, overlap) && chunks == WindowTexts(text, chunkSize, overlap)
  {
    hide Runes, Advances, Merged, WindowTexts, Ends;
    if text == "" || chunkSize <= 0 {
      if 0 < chunkSize && overlap <= chunkSize {
        RunesMerge(text, chunkSize, overlap);
      }
      return [];
    }
    var parts: seq<string> := [];
    Whole(Runes(text));
    for i := 0 to |text|
      invariant parts == Runes(text)[..i]
    {
      RuneAt(text, i);
      OneMore(Runes(text), i);
      parts := parts + [[text[i]]];
    }
    if overlap <= chunkSize {
      RunesMerge(text, chunkSize, overlap);
    }
    chunks := MergePartsWithOverlap(parts, "", chunkSize, overlap);
  }

  lemma RunesMerge(text: string, n: nat, overlap: nat)
    requires n > 0 && overlap <= n && Advances(Runes(text), "", n, overlap, 0)
    ensures Ends(text, n, overlap)
    ensures WindowTexts(text, n, overlap) == if text == "" then [] else Merged(Runes(text), "", n, overlap)
  {
    RunesEndIff(text, n, overlap);
    RunesAdvance(text, n, overlap, 0);
    hide Advances, ChunksFrom, WindowsFrom, Contents, Ends;
    if text == "" {
      End(text, n, overlap, 0);
    }
  }
}
