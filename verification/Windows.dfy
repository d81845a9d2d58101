/** Sliding windows over a text, computed by the loops of aipkg/rag/split/fixed_size.go and
    aipkg/rag/chunker/semantic.go, and their reassembly (aipkg/rag/graph/graph.go). */
module Windows {
  import opened Common

  /** A stretch of a text with its position. */
  datatype Chunk = Chunk(content: string, startAt: nat, endAt: nat)

  function ChunkOf(text: string, from: nat, to: nat): Chunk
    requires from <= to <= |text|
  {
    Chunk(text[from..to], from, to)
  }

  /** When a window loop ends: every window starts past the one before it, or one window is enough. */
  predicate Ends(text: string, size: nat, overlap: nat) { overlap < size || |text| <= size }

  /** The windows of a text from position start on. */
  function WindowsFrom(text: string, size: nat, overlap: nat, start: nat): seq<Chunk>
    requires Ends(text, size, overlap)
    decreases |text| - start
  {
    if start >= |text| then []
    else if start + size >= |text| then [ChunkOf(text, start, |text|)]
    else [ChunkOf(text, start, start + size)] + WindowsFrom(text, size, overlap, start + size - overlap)
  }

  function Contents(chunks: seq<Chunk>): seq<string> {
    if chunks == [] then [] else [chunks[0].content] + Contents(chunks[1..])
  }

  function WindowTexts(text: string, size: nat, overlap: nat): seq<string>
    requires Ends(text, size, overlap)
  {
    Contents(WindowsFrom(text, size, overlap, 0))
  }

  lemma TextsFrom(text: string, size: nat, overlap: nat, start: nat)
    requires Ends(text, size, overlap) && start < |text|
    ensures Contents(WindowsFrom(text, size, overlap, start))
         == if start + size >= |text| then [text[start..]]
            else [text[start..start + size]] + Contents(WindowsFrom(text, size, overlap, start + size - overlap))
  {
    if start + size >= |text| {
      assert text[start..|text|] == text[start..];
    }
  }

  // ----- the loops

  /** The window loop of FixedSizeStrategy.Split with trimming off, after its limit on the overlap. */
  method FixedSize(runes: string, chunkSize: nat, chunkOverlap: nat) returns (docs: seq<string>)
    requires chunkSize > 0
    ensures docs == WindowTexts(runes, chunkSize, if chunkOverlap < chunkSize then chunkOverlap else chunkSize - 1)
  {
    hide *;
    var overlap := chunkOverlap;
    if overlap >= chunkSize {
      overlap := chunkSize - 1;
    }
    EndsBelow(runes, chunkSize, overlap);
    var step := chunkSize - overlap;
    if step <= 0 {
      step := chunkSize;
    }
    docs := [];
    var start := 0;
    Start(runes, chunkSize, overlap);
    while start < |runes|
      invariant 0 <= start
      invariant WindowTexts(runes, chunkSize, overlap) == docs + Contents(WindowsFrom(runes, chunkSize, overlap, start))
      decreases |runes| - start
    {
      TextsAdded(docs, runes, chunkSize, overlap, start);
      var end := start + chunkSize;
      if end > |runes| {
        end := |runes|;
      }
      ToTheEnd(runes, start);
      var chunkText := runes[start..end];
      assert |chunkText| == end - start > 0;
      if chunkText != "" {
        docs := docs + [chunkText];
      }
      if end == |runes| {
        return;
      }
      start := start + step;
    }
    End(runes, chunkSize, overlap, start);
  }

  lemma TextsAdded(docs: seq<string>, text: string, size: nat, overlap: nat, start: nat)
    requires Ends(text, size, overlap) && start < |text|
    ensures docs + Contents(WindowsFrom(text, size, overlap, start))
         == if start + size >= |text| then docs + [text[start..]]
            else (docs + [text[start..start + size]])
                 + Contents(WindowsFrom(text, size, overlap, start + size - overlap))
  {
    TextsFrom(text, size, overlap, start);
    hide *;
    if start + size < |text| {
      Assoc(docs, [text[start..start + size]], Contents(WindowsFrom(text, size, overlap, start + size - overlap)));
    }
  }

  lemma EndsBelow(text: string, size: nat, overlap: nat)
    requires overlap < size
    ensures Ends(text, size, overlap)
  {
  }

  lemma Start(text: string, size: nat, overlap: nat)
    requires Ends(text, size, overlap)
    ensures WindowTexts(text, size, overlap) == Contents(WindowsFrom(text, size, overlap, 0))
  {
  }

  lemma End(text: string, size: nat, overlap: nat, start: nat)
    requires Ends(text, size, overlap) && start >= |text|
    ensures Contents(WindowsFrom(text, size, overlap, start)) == []
  {
  }

  /** Where a window loop is: at index i with the windows so far, past the loop, or in the panic of slicing
      from a negative index. */
  datatype Scan = Running(i: int, chunks: seq<string>) | Ended(chunks: seq<string>) | Panicked

  function ScanOf(i: int, chunks: seq<string>, ended: bool): Scan {
    if ended then Ended(chunks) else Running(i, chunks)
  }

  /** One turn of the loop of splitBySizeWithOverlap, whatever the overlap. */
  function Turn(text: string, size: nat, overlap: nat, i: int, chunks: seq<string>): Scan
    requires i < |text|
  {
    if i < 0 then Panicked
    else if i + size >= |text| then Ended(chunks + [text[i..]])
    else Running(i + size - overlap, chunks + [text[i..i + size]])
  }

  /** What is still to come in a loop. */
  function ToCome(text: string, size: nat, overlap: nat, s: Scan): seq<string>
    requires Ends(text, size, overlap) && (s.Running? ==> s.i >= 0)
  {
    if s.Running? then Contents(WindowsFrom(text, size, overlap, s.i)) else []
  }

  lemma TurnGivesWindow(text: string, size: nat, overlap: nat, i: nat, chunks: seq<string>)
    requires i < |text| && Ends(text, size, overlap)
    ensures var s := Turn(text, size, overlap, i, chunks);
      && !s.Panicked? && (s.Running? ==> i < s.i < |text|)
      && chunks + Contents(WindowsFrom(text, size, overlap, i)) == s.chunks + ToCome(text, size, overlap, s)
  {
    TextsAdded(chunks, text, size, overlap, i);
    NothingAdded(chunks + [text[i..]]);
    hide WindowsFrom, Contents;
  }

  /** The body of the loop of splitBySizeWithOverlap. */
  method SizeTurn(text: string, chunkSize: nat, overlap: nat, i: int, chunks: seq<string>) returns (s: Scan)
    requires i < |text|
    ensures s == Turn(text, chunkSize, overlap, i, chunks)
  {
    var end := i + chunkSize;
    if end > |text| {
      end := |text|;
    }
    if i < 0 {
      return Panicked;
    }
    ToTheEnd(text, i);
    var more := chunks + [text[i..end]];
    if i + chunkSize - overlap >= |text| - overlap {
      return Ended(more);
    }
    s := Running(i + (chunkSize - overlap), more);
  }

  /** How splitBySizeWithOverlap comes back to its caller. */
  datatype Outcome = Returned(chunks: seq<string>) | IndexPanic

  /** splitBySizeWithOverlap, where it comes back at all. */
  method SplitBySize(text: string, chunkSize: int, overlap: nat) returns (r: Outcome)
    requires !(overlap == chunkSize && 0 < chunkSize < |text|)
    ensures r ==
      if chunkSize <= 0 then Returned([])
      else if overlap > chunkSize && |text| > chunkSize then IndexPanic
      else Returned(WindowTexts(text, chunkSize, overlap))
  {
    if text == "" || chunkSize <= 0 {
      return Returned([]);
    }
    var chunks: seq<string>, i := [], 0;
    hide *;
    if Ends(text, chunkSize, overlap) {
      Start(text, chunkSize, overlap);
    }
    while i < |text|
      invariant i < 0 ==> overlap > chunkSize && |text| > chunkSize
      invariant !Ends(text, chunkSize, overlap) ==> i <= 0
      invariant i >= 0 && Ends(text, chunkSize, overlap) ==>
        WindowTexts(text, chunkSize, overlap) == chunks + Contents(WindowsFrom(text, chunkSize, overlap, i))
      decreases if i < 0 then 0 else |text| - i
    {
      TurnIs(text, chunkSize, overlap, i, chunks);
      var s := SizeTurn(text, chunkSize, overlap, i, chunks);
      match s {
        case Panicked => return IndexPanic;
        case Ended(all) => return Returned(all);
        case Running(next, more) => i, chunks := next, more;
      }
    }
    if Ends(text, chunkSize, overlap) {
      End(text, chunkSize, overlap, i);
    }
    r := Returned(chunks);
  }

  /** What a turn of that loop does in each of its cases. */
  lemma TurnIs(text: string, size: nat, overlap: nat, i: int, chunks: seq<string>)
    requires i < |text| && (i < 0 ==> !Ends(text, size, overlap)) && (!Ends(text, size, overlap) ==> i <= 0)
    requires size > 0 && !(overlap == size && size < |text|)
    ensures !Ends(text, size, overlap) <==> overlap > size && |text| > size
    ensures var s := Turn(text, size, overlap, i, chunks);
      if !Ends(text, size, overlap) then if i < 0 then s.Panicked? else s.Running? && s.i < 0
      else
        && !s.Panicked? && (s.Running? ==> i < s.i < |text|)
        && chunks + Contents(WindowsFrom(text, size, overlap, i)) == s.chunks + ToCome(text, size, overlap, s)
  {
    if Ends(text, size, overlap) {
      TurnGivesWindow(text, size, overlap, i, chunks);
    }
    hide WindowsFrom, Contents;
  }

  // ----- when the loop ends

  /** The loop after k turns, none being taken once it is over. */
  function Turns(text: string, size: nat, overlap: nat, k: nat): (s: Scan)
    ensures s.Running? ==> s.i < |text|
  {
    if k == 0 then if text == "" then Ended([]) else Running(0, [])
    else
      var s := Turns(text, size, overlap, k - 1);
      if s.Running? then Turn(text, size, overlap, s.i, s.chunks) else s
  }

  /** As long as the loop runs, its index after k turns is k times the window size less the overlap; so a turn
      after which it still runs advances exactly when the overlap is below the window size. */
  lemma {:induction false} TurnAdvancesIff(text: string, size: nat, overlap: nat, k: nat)
    requires Turns(text, size, overlap, k).Running?
    ensures var (s, next) := (Turns(text, size, overlap, k), Turns(text, size, overlap, k + 1));
      && s.i == k * (size - overlap)
      && (next.Running? ==> (next.i > s.i <==> overlap < size))
  {
    if k > 0 {
      TurnAdvancesIff(text, size, overlap, k - 1);
    }
  }

  function Copies(s: string, k: nat): seq<string> { if k == 0 then [] else Copies(s, k - 1) + [s] }

  /** With the overlap as large as the window, the loop stays at the start of a longer text and adds the
      first window again on every turn. */
  lemma {:induction false} StandsStill(text: string, size: nat, k: nat)
    requires size < |text|
    ensures Turns(text, size, size, k) == Running(0, Copies(text[..size], k))
  {
    if k > 0 {
      StandsStill(text, size, k - 1);
      assert text[0..size] == text[..size];
    }
  }

  /** With a larger overlap, the second turn on a longer text slices from a negative index. */
  lemma {:induction false} SecondTurnPanics(text: string, size: nat, overlap: nat, k: nat)
    requires size < |text| && size < overlap && k >= 2
    ensures Turns(text, size, overlap, 1).Running? && Turns(text, size, overlap, 1).i < 0
    ensures Turns(text, size, overlap, k).Panicked?
  {
    assert Turns(text, size, overlap, 0) == Running(0, []);
    if k > 2 {
      SecondTurnPanics(text, size, overlap, k - 1);
    }
  }

  lemma AdvancingEnds(text: string, size: nat, overlap: nat)
    requires overlap < size
    ensures Turns(text, size, overlap, |text|).Ended?
  {
    TurnsGiveWindows(text, size, overlap, |text|);
    if Turns(text, size, overlap, |text|).Running? {
      TurnAdvancesIff(text, size, overlap, |text|);
      hide *;
      TimesAtLeastOne(|text|, size - overlap);
    }
  }

  lemma TimesAtLeastOne(a: nat, b: nat)
    requires b > 0
    ensures a * b >= a
  {
  }

  /** For every overlap: the loop ends exactly when windows advance or one window is enough; it panics exactly
      when a longer text meets an overlap above the window size, and runs for ever exactly when it meets an
      overlap equal to it. */
  lemma LoopEndsIff(text: string, size: nat, overlap: nat)
    ensures (exists k :: Turns(text, size, overlap, k).Ended?) <==> Ends(text, size, overlap)
    ensures (exists k :: Turns(text, size, overlap, k).Panicked?) <==> overlap > size && |text| > size
    ensures (forall k :: Turns(text, size, overlap, k).Running?) <==> overlap == size && |text| > size
  {
    forall k
      ensures Ends(text, size, overlap) ==> !Turns(text, size, overlap, k).Panicked?
      ensures overlap == size && |text| > size ==> Turns(text, size, overlap, k).Running?
      ensures overlap > size && |text| > size ==> !Turns(text, size, overlap, k).Ended?
    {
      OverlapDecides(text, size, overlap, k);
    }
    SomeTurnDecides(text, size, overlap);
  }

  lemma OverlapDecides(text: string, size: nat, overlap: nat, k: nat)
    ensures Ends(text, size, overlap) ==> !Turns(text, size, overlap, k).Panicked?
    ensures overlap == size && |text| > size ==> Turns(text, size, overlap, k).Running?
    ensures overlap > size && |text| > size ==> !Turns(text, size, overlap, k).Ended?
  {
    if Ends(text, size, overlap) {
      TurnsGiveWindows(text, size, overlap, k);
    } else if overlap == size {
      StandsStill(text, size, k);
    } else if k < 2 {
      SecondTurnPanics(text, size, overlap, 2);
      assert Turns(text, size, overlap, 0).Running?;
    } else {
      SecondTurnPanics(text, size, overlap, k);
    }
  }

  lemma SomeTurnDecides(text: string, size: nat, overlap: nat)
    ensures Ends(text, size, overlap) ==> exists k :: Turns(text, size, overlap, k).Ended?
    ensures overlap > size && |text| > size ==> exists k :: Turns(text, size, overlap, k).Panicked?
  {
    if overlap < size {
      AdvancingEnds(text, size, overlap);
    } else if |text| <= size {
      assert Turns(text, size, overlap, 0) == if text == "" then Ended([]) else Running(0, []);
      assert Turns(text, size, overlap, 1).Ended?;
    } else if overlap > size {
      SecondTurnPanics(text, size, overlap, 2);
    }
  }

  /** Where the loop ends it never panics; on the way it has the first windows, and after it all of them. */
  lemma {:induction false} TurnsGiveWindows(text: string, size: nat, overlap: nat, k: nat)
    requires Ends(text, size, overlap)
    ensures var s := Turns(text, size, overlap, k);
      && !s.Panicked? && (s.Running? ==> s.i >= 0)
      && WindowTexts(text, size, overlap) == s.chunks + ToCome(text, size, overlap, s)
  {
    if k == 0 {
      assert [] + WindowTexts(text, size, overlap) == WindowTexts(text, size, overlap);
    } else {
      TurnsGiveWindows(text, size, overlap, k - 1);
      var s := Turns(text, size, overlap, k - 1);
      if s.Running? {
        TurnGivesWindow(text, size, overlap, s.i, s.chunks);
      }
    }
  }

  // ----- putting windows back together

  /** What chunk adds behind prev. */
  function Added(prev: Chunk, chunk: Chunk): string {
    if prev.endAt > chunk.startAt then
      var startPos := prev.endAt - chunk.startAt;
      if startPos < |chunk.content| then chunk.content[startPos..] else ""
    else chunk.content
  }

  /** What the chunks after prev add. */
  function AddedAfter(prev: Chunk, rest: seq<Chunk>): string
    decreases |rest|
  {
    if rest == [] then "" else Added(prev, rest[0]) + AddedAfter(rest[0], rest[1..])
  }

  /** mergeChunkContents. */
  function MergeContents(chunks: seq<Chunk>): string {
    if chunks == [] then "" else chunks[0].content + AddedAfter(chunks[0], chunks[1..])
  }

  lemma AddedFrom(r: string, prev: Chunk, chunks: seq<Chunk>, i: nat)
    requires i < |chunks|
    ensures r + AddedAfter(prev, chunks[i..])
         == r + Added(prev, chunks[i]) + AddedAfter(chunks[i], chunks[i + 1..])
  {
    NextTail(chunks, i);
    hide Added;
    Assoc(r, Added(prev, chunks[i]), AddedAfter(chunks[i], chunks[i + 1..]));
  }

  method MergeChunkContents(chunks: seq<Chunk>) returns (r: string)
    ensures r == MergeContents(chunks)
  {
    hide *;
    MergeStarts(chunks);
    if |chunks| == 0 {
      return "";
    }
    r := chunks[0].content;
    var preChunk := chunks[0];
    for i := 1 to |chunks|
      invariant MergeContents(chunks) == r + AddedAfter(preChunk, chunks[i..])
    {
      AddedFrom(r, preChunk, chunks, i);
      AddedIs(preChunk, chunks[i]);
      if preChunk.endAt > chunks[i].startAt {
        var startPos := preChunk.endAt - chunks[i].startAt;
        if startPos >= 0 && startPos < |chunks[i].content| {
          r := r + chunks[i].content[startPos..];
        } else {
          NothingAdded(r);
        }
      } else {
        r := r + chunks[i].content;
      }
      preChunk := chunks[i];
    }
    MergeEnds(r, preChunk, chunks);
  }

  lemma MergeStarts(chunks: seq<Chunk>)
    ensures chunks == [] ==> MergeContents(chunks) == ""
    ensures chunks != [] ==> MergeContents(chunks) == chunks[0].content + AddedAfter(chunks[0], chunks[1..])
  {
    hide AddedAfter;
  }

  lemma MergeEnds(r: string, prev: Chunk, chunks: seq<Chunk>)
    ensures r + AddedAfter(prev, chunks[|chunks|..]) == r
  {
  }

  lemma AddedIs(prev: Chunk, chunk: Chunk)
    ensures Added(prev, chunk) ==
      if prev.endAt <= chunk.startAt then chunk.content
      else if prev.endAt - chunk.startAt < |chunk.content| then chunk.content[prev.endAt - chunk.startAt..] else ""
  {
  }

  /** The chunks are stretches of text, each starting no later than the one before it ends, the
      first no later than at prev. */
  predicate Stretches(text: string, prev: nat, chunks: seq<Chunk>)
    decreases |chunks|
  {
    chunks == [] || (
      var c := chunks[0];
      && c.startAt <= prev && c.startAt <= c.endAt <= |text| && c.content == text[c.startAt..c.endAt]
      && Stretches(text, c.endAt, chunks[1..]))
  }

  function Max(a: nat, b: nat): nat { if a < b then b else a }

  /** How far the chunks reach, starting from far. */
  function Reach(far: nat, chunks: seq<Chunk>): nat
    decreases |chunks|
  {
    if chunks == [] then far else Reach(Max(far, chunks[0].endAt), chunks[1..])
  }

  /** A chunk that reaches past its predecessor, which ends at prev, has a predecessor that no
      earlier chunk reached past: far is the furthest end so far. */
  predicate GrowsFromFurthest(prev: nat, far: nat, chunks: seq<Chunk>)
    decreases |chunks|
  {
    chunks == [] || (
      && (chunks[0].endAt > prev ==> prev == far)
      && GrowsFromFurthest(chunks[0].endAt, Max(far, chunks[0].endAt), chunks[1..]))
  }

  lemma AddedStretch(text: string, prev: Chunk, chunks: seq<Chunk>)
    requires chunks != [] && Stretches(text, prev.endAt, chunks)
    ensures var e := chunks[0].endAt;
      Added(prev, chunks[0]) == if e > prev.endAt then text[prev.endAt..e] else ""
  {
  }

  /** The merged length exceeds the reach by what is repeated. */
  lemma {:induction false} AddedLength(text: string, prev: Chunk, far: nat, rest: seq<Chunk>)
    requires prev.endAt <= far && Stretches(text, prev.endAt, rest)
    ensures far <= Reach(far, rest) <= far + |AddedAfter(prev, rest)|
    ensures Reach(far, rest) == far + |AddedAfter(prev, rest)| <==> GrowsFromFurthest(prev.endAt, far, rest)
    decreases |rest|
  {
    if rest != [] {
      AddedStretch(text, prev, rest);
      hide Added;
      AddedLength(text, rest[0], Max(far, rest[0].endAt), rest[1..]);
    }
  }

  lemma {:induction false} AddedText(text: string, prev: Chunk, far: nat, rest: seq<Chunk>)
    requires prev.endAt <= far <= |text| && Stretches(text, prev.endAt, rest)
    requires GrowsFromFurthest(prev.endAt, far, rest)
    ensures far <= Reach(far, rest) <= |text| && AddedAfter(prev, rest) == text[far..Reach(far, rest)]
    decreases |rest|
  {
    if rest != [] {
      AddedStretch(text, prev, rest);
      hide Added;
      var e := Max(far, rest[0].endAt);
      AddedText(text, rest[0], e, rest[1..]);
      hide AddedAfter, Stretches;
      SliceAndMore(text, far, e, Reach(far, rest));
      NothingAdded(text[far..Reach(far, rest)]);
    } else {
      assert text[far..far] == "";
    }
  }

  /** mergeChunkContents gives back the text that overlapping chunks cover exactly when no chunk
      grows past a predecessor that had itself fallen back; otherwise it repeats text. */
  lemma MergeRestoresIff(text: string, chunks: seq<Chunk>)
    requires chunks != [] && Stretches(text, 0, chunks)
    ensures Reach(0, chunks) <= |text|
    ensures MergeContents(chunks) == text[..Reach(0, chunks)] <==> GrowsFromFurthest(0, 0, chunks)
  {
    hide *;
    var first, rest := chunks[0], chunks[1..];
    var end, reach := first.endAt, Reach(0, chunks);
    FirstStretch(text, chunks);
    ReachWithin(text, 0, 0, chunks);
    AddedLength(text, first, end, rest);
    if GrowsFromFurthest(0, 0, chunks) {
      AddedText(text, first, end, rest);
      PrefixAndMore(text, end, reach);
    }
  }

  lemma FirstStretch(text: string, chunks: seq<Chunk>)
    requires chunks != [] && Stretches(text, 0, chunks)
    ensures var (first, rest) := (chunks[0], chunks[1..]);
      && first.endAt <= |text| && first.content == text[..first.endAt]
      && Stretches(text, first.endAt, rest) && Reach(0, chunks) == Reach(first.endAt, rest)
      && (GrowsFromFurthest(0, 0, chunks) <==> GrowsFromFurthest(first.endAt, first.endAt, rest))
      && MergeContents(chunks) == text[..first.endAt] + AddedAfter(first, rest)
  {
    hide AddedAfter;
  }

  /** A chunk inside its predecessor makes the next one repeat text. */
  lemma ContainedChunkRepeatsText()
    ensures var text := "abcd";
      var chunks := [ChunkOf(text, 0, 4), ChunkOf(text, 1, 2), ChunkOf(text, 2, 4)];
      Stretches(text, 0, chunks) && MergeContents(chunks) == "abcdcd"
  {
    var text := "abcd";
    var a, b, c := ChunkOf(text, 0, 4), ChunkOf(text, 1, 2), ChunkOf(text, 2, 4);
    assert Stretches(text, 2, [c]) && Stretches(text, 4, [b, c]) by {
      assert [b, c][1..] == [c];
    }
    assert [a, b, c][1..] == [b, c];
    assert Added(a, b) == "" && Added(b, c) == "cd";
    assert AddedAfter(b, [c]) == "cd";
    assert AddedAfter(a, [b, c]) == "cd";
  }

  lemma {:induction false} ReachWithin(text: string, prev: nat, far: nat, chunks: seq<Chunk>)
    requires far <= |text| && Stretches(text, prev, chunks)
    ensures Reach(far, chunks) <= |text|
    decreases |chunks|
  {
    if chunks != [] {
      ReachWithin(text, chunks[0].endAt, Max(far, chunks[0].endAt), chunks[1..]);
    }
  }

  // ----- windows and reassembly together

  lemma {:induction false} WindowsGrow(text: string, size: nat, overlap: nat, start: nat, prev: nat)
    requires Ends(text, size, overlap) && start < |text| && start <= prev < |text| && prev <= start + size
    ensures var ws := WindowsFrom(text, size, overlap, start);
      Stretches(text, prev, ws) && GrowsFromFurthest(prev, prev, ws) && Reach(prev, ws) == |text|
    decreases |text| - start
  {
    FirstWindow(text, size, overlap, start);
    if start + size < |text| {
      WindowsGrow(text, size, overlap, start + size - overlap, start + size);
    } else {
      hide WindowsFrom;
    }
  }

  /** Cutting a text into windows and merging them with their offsets gives back the text. */
  lemma WindowsRoundTrip(text: string, size: nat, overlap: nat)
    requires Ends(text, size, overlap)
    ensures MergeContents(WindowsFrom(text, size, overlap, 0)) == text
  {
    if text != "" {
      WindowsGrow(text, size, overlap, 0, 0);
      MergeRestoresIff(text, WindowsFrom(text, size, overlap, 0));
      assert text[..|text|] == text;
    }
  }

  /** The first window, and where there is more than one, the others. */
  lemma FirstWindow(text: string, size: nat, overlap: nat, start: nat)
    requires Ends(text, size, overlap) && start < |text|
    ensures var ws := WindowsFrom(text, size, overlap, start);
      var end := if start + size < |text| then start + size else |text|;
      && ws != [] && ws[0] == ChunkOf(text, start, end)
      && (|ws| == 1 <==> start + size >= |text|)
      && (|ws| > 1 ==> ws[1..] == WindowsFrom(text, size, overlap, start + size - overlap))
  {
    if start + size < |text| {
      assert WindowsFrom(text, size, overlap, start + size - overlap) != [];
    }
  }

  /** Neighbouring windows overlap by exactly `overlap`, all but the last are full, and the last
      one adds something and reaches the end. */
  lemma {:induction false} Neighbours(text: string, size: nat, overlap: nat, start: nat, i: nat)
    requires Ends(text, size, overlap) && start < |text|
    requires i + 1 < |WindowsFrom(text, size, overlap, start)|
    ensures var ws := WindowsFrom(text, size, overlap, start);
      var (w, v) := (ws[i], ws[i + 1]);
      && w.startAt + size == w.endAt <= |text| && w == ChunkOf(text, w.startAt, w.endAt)
      && v.startAt + overlap == w.endAt < v.endAt <= |text| && v == ChunkOf(text, v.startAt, v.endAt)
      && (i + 2 == |ws| ==> v.endAt == |text|)
    decreases i
  {
    FirstWindow(text, size, overlap, start);
    var next := start + size - overlap;
    FirstWindow(text, size, overlap, next);
    hide WindowsFrom;
    if i > 0 {
      Neighbours(text, size, overlap, next, i - 1);
    }
  }

  lemma SharedStretch(text: string, w: Chunk, v: Chunk, size: nat, overlap: nat)
    requires w.startAt + size == w.endAt <= |text| && w == ChunkOf(text, w.startAt, w.endAt)
    requires v.startAt + overlap == w.endAt < v.endAt <= |text| && v == ChunkOf(text, v.startAt, v.endAt)
    requires overlap <= size
    ensures |w.content| == size && overlap < |v.content| && w.content[size - overlap..] == v.content[..overlap]
  {
    TailOfSlice(text, w.startAt, w.endAt, size - overlap);
    PrefixOfSlice(text, v.startAt, v.endAt, overlap);
  }

  /** The overlap, as text: the last `overlap` runes of one window are the first of the next. */
  lemma NeighboursShareText(text: string, size: nat, overlap: nat, i: nat)
    requires Ends(text, size, overlap) && i + 1 < |WindowsFrom(text, size, overlap, 0)|
    ensures var ws := WindowsFrom(text, size, overlap, 0);
      && |ws[i].content| == size && overlap < |ws[i + 1].content|
      && ws[i].content[size - overlap..] == ws[i + 1].content[..overlap]
  {
    Neighbours(text, size, overlap, 0, i);
    hide WindowsFrom;
    var ws := WindowsFrom(text, size, overlap, 0);
    SharedStretch(text, ws[i], ws[i + 1], size, overlap);
  }
}
