/** The double-merging mode of aipkg/rag/split/semantic.go. The similarity of two texts is any
    function: nothing here depends on how it is computed. */
module DoubleMerging {
  import opened Text
  import opened Sentences

  /** The settings, after the defaults of the source have been filled in. */
  datatype Settings = Settings(
    max: nat, min: nat, initial: real, appending: real, merging: real, range: nat, sep: string,
    similarity: (string, string) -> real)

  /** What phase 1 carries from sentence to sentence. parts are the sentences of chunk; single says
      that chunk is a single sentence so far; last is what the next sentence is compared with. */
  datatype Scan = Scan(done: seq<string>, chunk: string, parts: Group, single: bool, last: string)

  function LastTwo(parts: Group, sep: string): string {
    if |parts| >= 2 then Join(parts[|parts| - 2..], sep) else Join(parts, sep)
  }

  function Fits(a: string, b: string, s: Settings): bool { |a| + |s.sep| + |b| <= s.max }

  /** The chunks that stand in for an over-long sentence. */
  function Pieces(sentence: string, s: Settings): seq<string> {
    if IsCodeBlockSentence(sentence) then [sentence] else SplitLongSentence(sentence, s.max)
  }

  /** flushChunk, and the final test after the loop. */
  function Finished(p: Scan): seq<string> { if Blank(p.chunk) then p.done else p.done + [p.chunk] }

  function Restarted(p: Scan, sentence: string): Scan {
    Scan(p.done + [p.chunk], sentence, [sentence], true, sentence)
  }

  /** One sentence of phase 1. */
  function Turn(p: Scan, sentence: string, s: Settings): Scan {
    if Blank(sentence) then p
    else if |sentence| > s.max then Scan(Finished(p) + Pieces(sentence, s), "", [], true, "")
    else if p.chunk == "" then Scan(p.done, sentence, [sentence], true, sentence)
    else if p.single then
      if s.similarity(p.chunk, sentence) < s.initial && |p.chunk| >= s.min && Fits(p.chunk, sentence, s)
      then Restarted(p, sentence)
      else if Fits(p.chunk, sentence, s) then
        var parts := [p.chunk, sentence];
        Scan(p.done, Join(parts, s.sep), parts, false, LastTwo(parts, s.sep))
      else Restarted(p, sentence)
    else if (s.similarity(p.last, sentence) > s.appending || |p.chunk| < s.min) && Fits(p.chunk, sentence, s) then
      var parts := p.parts + [sentence];
      Scan(p.done, p.chunk + s.sep + sentence, parts, false, LastTwo(parts, s.sep))
    else Restarted(p, sentence)
  }

  function Scanned(p: Scan, sentences: seq<string>, s: Settings): Scan
    decreases |sentences|
  {
    if sentences == [] then p else Scanned(Turn(p, sentences[0], s), sentences[1..], s)
  }

  function FirstScan(sentence: string): Scan { Scan([], sentence, [sentence], true, sentence) }

  /** Phase 1. */
  function InitialChunks(sentences: seq<string>, s: Settings): seq<string>
    requires sentences != []
  {
    Finished(Scanned(FirstScan(sentences[0]), sentences[1..], s))
  }

  method Phase1(sentences: seq<string>, s: Settings) returns (initialChunks: seq<string>)
    requires sentences != []
    ensures initialChunks == InitialChunks(sentences, s)
  {
    var chunk := sentences[0];
    var newChunk := true;
    var chunkSentences := [sentences[0]];
    var lastSentences := sentences[0];
    initialChunks := [];
    var i := 1;
    hide Turn, Finished;
    while i < |sentences|
      invariant 1 <= i <= |sentences|
      invariant Scanned(FirstScan(sentences[0]), sentences[1..], s)
             == Scanned(Scan(initialChunks, chunk, chunkSentences, newChunk, lastSentences), sentences[i..], s)
    {
      assert sentences[i..][1..] == sentences[i + 1..];
      initialChunks, chunk, chunkSentences, newChunk, lastSentences :=
        Phase1Turn(sentences[i], s, initialChunks, chunk, chunkSentences, newChunk, lastSentences);
      i := i + 1;
    }
    assert sentences[i..] == [];
    initialChunks := Flush(initialChunks, chunk, chunkSentences, newChunk, lastSentences);
  }

  method Flush(done: seq<string>, chunk: string, parts: Group, single: bool,
      last: string) returns (initialChunks: seq<string>)
    ensures initialChunks == Finished(Scan(done, chunk, parts, single, last))
  {
    initialChunks := done;
    if !Blank(chunk) {
      initialChunks := initialChunks + [chunk];
    }
  }

  /** The body of the loop of phase 1. */
  method Phase1Turn(sentence: string, s: Settings, done: seq<string>, chunk0: string, parts0: Group, single0: bool,
      last0: string)
      returns (initialChunks: seq<string>, chunk: string, chunkSentences: Group, newChunk: bool, lastSentences: string)
    ensures Scan(initialChunks, chunk, chunkSentences, newChunk, lastSentences)
         == Turn(Scan(done, chunk0, parts0, single0, last0), sentence, s)
  {
    hide Blank, Join, Finished, Pieces;
    initialChunks, chunk, chunkSentences, newChunk, lastSentences := done, chunk0, parts0, single0, last0;
    if Blank(sentence) {
      return;
    }
    if |sentence| > s.max {
      initialChunks := Flush(initialChunks, chunk, chunkSentences, newChunk, lastSentences);
      var pieces := LongPieces(sentence, s);
      return initialChunks + pieces, "", [], true, "";
    }
    if chunk == "" {
      return initialChunks, sentence, [sentence], true, sentence;
    }
    if newChunk {
      if s.similarity(chunk, sentence) < s.initial && |chunk| >= s.min && |chunk| + |s.sep| + |sentence| <= s.max {
        return initialChunks + [chunk], sentence, [sentence], true, sentence;
      }
      chunkSentences := [chunk];
      if |chunk| + |s.sep| + |sentence| <= s.max {
        chunkSentences := chunkSentences + [sentence];
        assert chunkSentences == [chunk0, sentence];
        chunk := Join(chunkSentences, s.sep);
        newChunk := false;
      } else {
        return initialChunks + [chunk], sentence, [sentence], true, sentence;
      }
      lastSentences := LastTwo(chunkSentences, s.sep);
      return;
    }
    if (s.similarity(lastSentences, sentence) > s.appending || |chunk| < s.min)
       && |chunk| + |s.sep| + |sentence| <= s.max {
      chunkSentences := chunkSentences + [sentence];
      lastSentences := LastTwo(chunkSentences, s.sep);
      if s.sep == "" {
        chunk := chunk + sentence;
        assert chunk == chunk0 + s.sep + sentence;
      } else {
        chunk := chunk + s.sep + sentence;
      }
      return;
    }
    return initialChunks + [chunk], sentence, [sentence], true, sentence;
  }

  method LongPieces(sentence: string, s: Settings) returns (pieces: seq<string>)
    ensures pieces == Pieces(sentence, s)
  {
    if IsCodeBlockSentence(sentence) {
      pieces := [sentence];
    } else {
      pieces := SplitLong(sentence, s.max);
    }
  }

  // ----- phase 2

  function Glue(a: string, b: string, s: Settings): string { a + s.sep + b }

  predicate CanMerge(a: string, b: string, s: Settings) { s.similarity(a, b) > s.merging && Fits(a, b, s) }

  /** How many of the following chunks are merged into current. */
  function Take(current: string, rest: seq<string>, s: Settings): (k: nat)
    requires rest != []
    ensures k <= |rest|
  {
    if s.min > 0 && |current| < s.min && Fits(current, rest[0], s) then 1
    else if |current| >= s.max then 0
    else if CanMerge(current, rest[0], s) then 1
    else if |rest| >= 2 && CanMerge(current, rest[1], s)
         && |Glue(Glue(current, rest[0], s), rest[1], s)| <= s.max then 2
    else if s.range == 2 && |rest| >= 3 && CanMerge(current, rest[2], s)
         && |Glue(Glue(Glue(current, rest[0], s), rest[1], s), rest[2], s)| <= s.max then 3
    else 0
  }

  /** current followed by the first k of rest, with separators. */
  function GlueAll(current: string, rest: seq<string>, k: nat, s: Settings): string
    requires k <= |rest|
  {
    if k == 0 then current else Glue(GlueAll(current, rest, k - 1, s), rest[k - 1], s)
  }

  /** Phase 2. */
  function MergedFrom(current: string, rest: seq<string>, s: Settings): seq<string>
    decreases |rest|
  {
    if rest == [] then [current]
    else
      var k := Take(current, rest, s);
      if k == 0 then [current] + MergedFrom(rest[0], rest[1..], s)
      else MergedFrom(GlueAll(current, rest, k, s), rest[k..], s)
  }

  /** The chunk that the source tries, built with or without the separator. */
  method Candidate(a: string, b: string, s: Settings) returns (cand: string)
    ensures cand == Glue(a, b, s)
  {
    if s.sep == "" {
      cand := a + b;
    } else {
      cand := a + s.sep + b;
    }
  }

  /** One look at current and what follows it: the merged current and how many chunks it took in. */
  method Phase2Turn(current: string, chunks: seq<string>, i: nat, s: Settings) returns (next: string, k: nat)
    requires i < |chunks|
    ensures k == Take(current, chunks[i..], s) && i + k <= |chunks| && next == GlueAll(current, chunks[i..], k, s)
  {
    ghost var rest := chunks[i..];
    assert rest[0] == chunks[i];
    assert |rest| >= 2 ==> rest[1] == chunks[i + 1];
    assert |rest| >= 3 ==> rest[2] == chunks[i + 2];
    GlueAllUnfolds(current, rest, s);
    hide GlueAll, Glue;
    var one := Candidate(current, chunks[i], s);
    if s.min > 0 && |current| < s.min {
      GlueLength(current, chunks[i], s);
      if |one| <= s.max {
        return one, 1;
      }
    }
    if |current| >= s.max {
      return current, 0;
    }
    if CanMerge(current, chunks[i], s) {
      return one, 1;
    }
    if i + 2 <= |chunks| && CanMerge(current, chunks[i + 1], s) {
      var two := Candidate(one, chunks[i + 1], s);
      if |two| <= s.max {
        return two, 2;
      }
    }
    if s.range == 2 && i + 2 < |chunks| && CanMerge(current, chunks[i + 2], s) {
      var two := Candidate(one, chunks[i + 1], s);
      var three := Candidate(two, chunks[i + 2], s);
      if |three| <= s.max {
        return three, 3;
      }
    }
    return current, 0;
  }

  lemma GlueLength(a: string, b: string, s: Settings)
    ensures |Glue(a, b, s)| <= s.max <==> Fits(a, b, s)
  {
  }

  lemma GlueAllUnfolds(current: string, rest: seq<string>, s: Settings)
    ensures GlueAll(current, rest, 0, s) == current
    ensures |rest| >= 1 ==> GlueAll(current, rest, 1, s) == Glue(current, rest[0], s)
    ensures |rest| >= 2 ==> GlueAll(current, rest, 2, s) == Glue(Glue(current, rest[0], s), rest[1], s)
    ensures |rest| >= 3 ==>
      GlueAll(current, rest, 3, s) == Glue(Glue(Glue(current, rest[0], s), rest[1], s), rest[2], s)
  {
    hide Glue;
    assert GlueAll(current, rest, 0, s) == current;
    if |rest| >= 1 { assert GlueAll(current, rest, 1, s) == Glue(GlueAll(current, rest, 0, s), rest[0], s); }
    if |rest| >= 2 { assert GlueAll(current, rest, 2, s) == Glue(GlueAll(current, rest, 1, s), rest[1], s); }
    if |rest| >= 3 { assert GlueAll(current, rest, 3, s) == Glue(GlueAll(current, rest, 2, s), rest[2], s); }
  }

  /** The part of the loop body of phase 2 that is not skipped. */
  method Phase2Step(before: seq<string>, current: string, chunks: seq<string>, i: nat, s: Settings)
      returns (merged: seq<string>, now: string, skip: nat)
    requires i < |chunks|
    ensures i + 1 + skip <= |chunks|
    ensures before + MergedFrom(current, chunks[i..], s) == merged + MergedFrom(now, chunks[i + 1 + skip..], s)
  {
    hide Take, GlueAll, MergedFrom;
    var glued, k := Phase2Turn(current, chunks, i, s);
    MergedStep(before, current, chunks, i, k, s);
    if k == 0 {
      return before + [current], chunks[i], 0;
    }
    assert i + 1 + (k - 1) == i + k;
    return before, glued, k - 1;
  }

  /** skip is how many of the following chunks current has taken in already. */
  method Phase2(initialChunks: seq<string>, s: Settings) returns (merged: seq<string>)
    requires initialChunks != []
    ensures merged == MergedFrom(initialChunks[0], initialChunks[1..], s)
  {
    hide *;
    merged := [];
    var skip := 0;
    var current := initialChunks[0];
    var i := 1;
    ghost var goal, next := MergedFrom(initialChunks[0], initialChunks[1..], s), 1;
    while i < |initialChunks|
      invariant 1 <= i && 0 <= skip && next == i + skip <= |initialChunks|
      invariant goal == merged + MergedFrom(current, initialChunks[next..], s)
      decreases |initialChunks| - i
    {
      if skip > 0 {
        skip := skip - 1;
      } else {
        merged, current, skip := Phase2Step(merged, current, initialChunks, i, s);
        next := i + 1 + skip;
      }
      i := i + 1;
    }
    MergedLast(current, initialChunks, next, s);
    merged := merged + [current];
  }

  lemma MergedLast(current: string, chunks: seq<string>, next: nat, s: Settings)
    requires next == |chunks|
    ensures MergedFrom(current, chunks[next..], s) == [current]
  {
  }

  lemma MergedStep(merged: seq<string>, current: string, chunks: seq<string>, i: nat, k: nat, s: Settings)
    requires i < |chunks| && k == Take(current, chunks[i..], s)
    ensures i + k <= |chunks|
    ensures merged + MergedFrom(current, chunks[i..], s)
         == if k == 0 then merged + [current] + MergedFrom(chunks[i], chunks[i + 1..], s)
            else merged + MergedFrom(GlueAll(current, chunks[i..], k, s), chunks[i + k..], s)
  {
    hide Take, GlueAll;
    assert chunks[i..][1..] == chunks[i + 1..];
    assert chunks[i..][k..] == chunks[i + k..];
  }
}
