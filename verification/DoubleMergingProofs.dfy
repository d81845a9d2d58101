/** What double merging keeps: both phases only group, in order; merged chunks respect the maximum;
    the result fits the chunk size; and it fails exactly on all-blank input. */
module DoubleMergingProofs {
  import opened Common
  import opened Text
  import opened RecursiveCharacterProofs
  import opened Sentences
  import opened DoubleMerging

  lemma {:induction false} JoinPush(parts: Group, x: string, sep: string)
    requires parts != []
    ensures Join(parts + [x], sep) == Join(parts, sep) + sep + x
  {
    if |parts| == 1 {
      assert (parts + [x])[1..] == [x];
    } else {
      assert (parts + [x])[1..] == parts[1..] + [x];
      JoinPush(parts[1..], x, sep);
      var j := Join(parts[1..], sep);
      assert parts[0] + sep + (j + sep + x) == parts[0] + sep + j + sep + x;
    }
  }

  lemma {:induction false} JoinAllAppend(a: seq<Group>, b: seq<Group>, sep: string)
    ensures JoinAll(a + b, sep) == JoinAll(a, sep) + JoinAll(b, sep)
  {
    if a == [] {
      assert a + b == b;
    } else {
      assert (a + b)[1..] == a[1..] + b;
      JoinAllAppend(a[1..], b, sep);
    }
  }

  lemma PushGroup(gs: seq<Group>, g: Group, sep: string)
    ensures JoinAll(gs + [g], sep) == JoinAll(gs, sep) + [Join(g, sep)]
    ensures Flatten(gs + [g]) == Flatten(gs) + g
  {
    JoinAllAppend(gs, [g], sep);
    FlattenAppend(gs, [g]);
    FlattenOne(g);
    assert JoinAll([g], sep) == [Join(g, sep)] + JoinAll([], sep);
  }

  /** Every piece a group of its own. */
  function Alone(pieces: seq<string>): seq<Group> {
    if pieces == [] then [] else [[pieces[0]]] + Alone(pieces[1..])
  }

  lemma {:induction false} AloneIsGrouping(pieces: seq<string>, sep: string)
    ensures JoinAll(Alone(pieces), sep) == pieces && Flatten(Alone(pieces)) == pieces
    ensures forall k | 0 <= k < |Alone(pieces)| :: |Alone(pieces)[k]| == 1
  {
    if pieces != [] {
      AloneIsGrouping(pieces[1..], sep);
      assert pieces == [pieces[0]] + pieces[1..];
    }
  }

  /** A chunk made of two or more parts respects the maximum. */
  predicate GroupFits(g: Group, s: Settings) { |g| >= 2 ==> |Join(g, s.sep)| <= s.max }

  predicate GroupsFit(gs: seq<Group>, s: Settings) { forall k | 0 <= k < |gs| :: GroupFits(gs[k], s) }

  lemma GroupsFitAppend(a: seq<Group>, b: seq<Group>, s: Settings)
    requires GroupsFit(a, s) && GroupsFit(b, s)
    ensures GroupsFit(a + b, s)
  {
  }

  // ----- phase 1

  /** What a sentence contributes to phase 1. */
  function Units(sentences: seq<string>, s: Settings): seq<string> {
    if sentences == [] then []
    else
      (if Blank(sentences[0]) then []
       else if |sentences[0]| > s.max then Pieces(sentences[0], s)
       else [sentences[0]]) + Units(sentences[1..], s)
  }

  /** chunk is the join of its parts, and not blank unless empty. */
  predicate Coherent(p: Scan, s: Settings) {
    && p.chunk == Join(p.parts, s.sep)
    && (p.chunk == "" ==> p.parts == [])
    && (p.chunk != "" ==> !Blank(p.chunk) && p.parts != [])
    && (p.single ==> |p.parts| <= 1)
    && GroupFits(p.parts, s)
  }

  /** gs groups everything that the scan has put out or holds. */
  ghost predicate Groups(gs: seq<Group>, p: Scan, s: Settings) {
    JoinAll(gs, s.sep) == p.done && GroupsFit(gs, s)
  }

  /** Ending the current chunk. */
  lemma FinishGroups(gs: seq<Group>, p: Scan, s: Settings) returns (after: seq<Group>)
    requires Coherent(p, s) && Groups(gs, p, s)
    ensures JoinAll(after, s.sep) == Finished(p) && GroupsFit(after, s)
    ensures Flatten(after) == Flatten(gs) + p.parts
  {
    if p.chunk == "" {
      after := gs;
    } else {
      after := gs + [p.parts];
      PushGroup(gs, p.parts, s.sep);
    }
  }

  lemma UnitsOfOne(sentence: string, s: Settings)
    ensures Units([sentence], s) ==
      if Blank(sentence) then [] else if |sentence| > s.max then Pieces(sentence, s) else [sentence]
  {
    hide Pieces, Blank;
    assert Units([], s) == [];
  }

  lemma LongTurnGroups(gs: seq<Group>, p: Scan, sentence: string, s: Settings) returns (after: seq<Group>)
    requires Coherent(p, s) && Groups(gs, p, s) && !Blank(sentence) && |sentence| > s.max
    ensures JoinAll(after, s.sep) == Turn(p, sentence, s).done && GroupsFit(after, s)
    ensures Flatten(after) == Flatten(gs) + p.parts + Pieces(sentence, s)
  {
    var ended := FinishGroups(gs, p, s);
    hide Pieces, Blank, Finished, Coherent, Groups, Join;
    var pieces := Pieces(sentence, s);
    AloneIsGrouping(pieces, s.sep);
    JoinAllAppend(ended, Alone(pieces), s.sep);
    FlattenAppend(ended, Alone(pieces));
    GroupsFitAppend(ended, Alone(pieces), s);
    after := ended + Alone(pieces);
  }

  lemma JoinTurnIsCoherent(p: Scan, sentence: string, s: Settings)
    requires Coherent(p, s) && !Blank(sentence) && |sentence| <= s.max && p.chunk != ""
    ensures var q := Turn(p, sentence, s);
      && Coherent(q, s)
      && ((q.done == p.done && q.parts == p.parts + [sentence])
          || (q.done == Finished(p) && q.parts == [sentence]))
  {
    JoinPush(p.parts, sentence, s.sep);
    BlankAppend(p.chunk + s.sep, sentence);
    if p.single {
      assert p.parts == [p.chunk];
      assert [p.chunk] + [sentence] == [p.chunk, sentence];
    }
    hide Blank, LastTwo;
    assert Join([sentence], s.sep) == sentence;
  }

  lemma TurnGroups(gs: seq<Group>, p: Scan, sentence: string, s: Settings) returns (after: seq<Group>)
    requires Coherent(p, s) && Groups(gs, p, s)
    ensures var q := Turn(p, sentence, s);
      && Coherent(q, s) && Groups(after, q, s)
      && Flatten(after) + q.parts == Flatten(gs) + p.parts + Units([sentence], s)
  {
    after := gs;
    UnitsOfOne(sentence, s);
    if Blank(sentence) {
    } else if |sentence| > s.max {
      after := LongTurnGroups(gs, p, sentence, s);
    } else if p.chunk == "" {
    } else {
      JoinTurnIsCoherent(p, sentence, s);
      hide Turn, Coherent, Units, Flatten, Pieces, Blank, Finished;
      var q := Turn(p, sentence, s);
      if q.done == p.done && q.parts == p.parts + [sentence] {
        Assoc(Flatten(gs), p.parts, [sentence]);
      } else {
        after := FinishGroups(gs, p, s);
      }
    }
  }

  lemma {:induction false} UnitsFirst(sentences: seq<string>, s: Settings)
    requires sentences != []
    ensures Units(sentences, s) == Units([sentences[0]], s) + Units(sentences[1..], s)
  {
    UnitsOfOne(sentences[0], s);
  }

  lemma {:induction false} ScannedGroups(gs: seq<Group>, p: Scan, rest: seq<string>,
      s: Settings) returns (after: seq<Group>)
    requires Coherent(p, s) && Groups(gs, p, s)
    ensures var q := Scanned(p, rest, s);
      && Coherent(q, s) && Groups(after, q, s)
      && Flatten(after) + q.parts == Flatten(gs) + p.parts + Units(rest, s)
    decreases |rest|
  {
    if rest == [] {
      after := gs;
      assert Units(rest, s) == [];
    } else {
      UnitsFirst(rest, s);
      hide Turn, Units, Coherent, Groups, Flatten;
      var middle := TurnGroups(gs, p, rest[0], s);
      after := ScannedGroups(middle, Turn(p, rest[0], s), rest[1..], s);
      Assoc(Flatten(gs) + p.parts, Units([rest[0]], s), Units(rest[1..], s));
    }
  }

  lemma GroupsOfSomething(gs: seq<Group>)
    requires |Flatten(gs)| > 0
    ensures gs != []
  {
  }

  /** Phase 1, when the first sentence is not blank: its chunks are an in-order grouping of the
      non-blank sentences, where every over-long one after the first stands as its pieces (itself,
      if it is a code block); no group of two or more exceeds the maximum. */
  lemma Phase1IsGrouping(sentences: seq<string>, s: Settings) returns (gs: seq<Group>)
    requires sentences != [] && !Blank(sentences[0])
    ensures JoinAll(gs, s.sep) == InitialChunks(sentences, s) && GroupsFit(gs, s)
    ensures Flatten(gs) == [sentences[0]] + Units(sentences[1..], s)
    ensures InitialChunks(sentences, s) != []
  {
    var p := FirstScan(sentences[0]);
    assert Coherent(p, s);
    assert Groups([], p, s);
    var middle := ScannedGroups([], p, sentences[1..], s);
    gs := FinishGroups(middle, Scanned(p, sentences[1..], s), s);
    assert Flatten<string>([]) == [];
    assert [] + p.parts == [sentences[0]];
    assert |Flatten(gs)| > 0;
    GroupsOfSomething(gs);
    assert InitialChunks(sentences, s)[0] == Join(gs[0], s.sep);
  }

  // ----- phase 2

  lemma {:induction false} GlueAllIsJoin(parts: Group, rest: seq<string>, k: nat, s: Settings)
    requires parts != [] && k <= |rest|
    ensures GlueAll(Join(parts, s.sep), rest, k, s) == Join(parts + rest[..k], s.sep)
  {
    if k == 0 {
      assert parts + rest[..0] == parts;
    } else {
      GlueAllIsJoin(parts, rest, k - 1, s);
      JoinPush(parts + rest[..k - 1], rest[k - 1], s.sep);
      assert parts + rest[..k] == parts + rest[..k - 1] + [rest[k - 1]];
    }
  }

  lemma TakeFits(current: string, rest: seq<string>, s: Settings)
    requires rest != []
    ensures var k := Take(current, rest, s);
      k > 0 ==> |GlueAll(current, rest, k, s)| <= s.max
  {
    GlueAllUnfolds(current, rest, s);
    hide GlueAll;
  }

  /** A small chunk takes in the next one if they fit. Otherwise phase 2 takes the chunks up to the nearest one
      within its lookahead that is similar enough and fits, and none only if there is none or the chunk is full. */
  lemma TakeIsJustified(current: string, rest: seq<string>, s: Settings, j: nat)
    requires rest != [] && 0 < j <= |rest| && j <= 2 + (if s.range == 2 then 1 else 0)
    ensures var k := Take(current, rest, s);
      && (|current| < s.min && |GlueAll(current, rest, 1, s)| <= s.max ==> k == 1)
      && (k > 0 ==> s.similarity(current, rest[k - 1]) > s.merging || (k == 1 && |current| < s.min))
      && k <= (if s.range == 2 then 3 else 2) && (k > 0 ==> |GlueAll(current, rest, k, s)| <= s.max)
      && (j < k || (k == 0 && |current| < s.max) ==>
            s.similarity(current, rest[j - 1]) <= s.merging || |GlueAll(current, rest, j, s)| > s.max)
  {
    GlueAllUnfolds(current, rest, s);
    hide GlueAll;
  }

  /** The groups that phase 2 makes of the chunks; parts are those already in current. */
  function Phase2Groups(parts: Group, rest: seq<string>, s: Settings): (gs: seq<Group>)
    ensures gs != []
    decreases |rest|
  {
    if rest == [] then [parts]
    else
      var k := Take(Join(parts, s.sep), rest, s);
      if k == 0 then [parts] + Phase2Groups([rest[0]], rest[1..], s)
      else Phase2Groups(parts + rest[..k], rest[k..], s)
  }

  lemma {:induction false} Phase2GroupsFlatten(parts: Group, rest: seq<string>, s: Settings)
    ensures Flatten(Phase2Groups(parts, rest, s)) == parts + rest
    decreases |rest|
  {
    if rest == [] {
      FlattenOne(parts);
    } else {
      hide Take, Join;
      var k := Take(Join(parts, s.sep), rest, s);
      if k == 0 {
        var later := Phase2Groups([rest[0]], rest[1..], s);
        Phase2GroupsFlatten([rest[0]], rest[1..], s);
        FirstAndRest(rest);
        TailAfter(parts, later);
      } else {
        Phase2GroupsFlatten(parts + rest[..k], rest[k..], s);
        Assoc(parts, rest[..k], rest[k..]);
        CutAt(rest, k);
      }
    }
  }

  lemma {:induction false} Phase2GroupsJoin(parts: Group, rest: seq<string>, s: Settings)
    requires parts != []
    ensures JoinAll(Phase2Groups(parts, rest, s), s.sep) == MergedFrom(Join(parts, s.sep), rest, s)
    decreases |rest|
  {
    if rest != [] {
      var k := Take(Join(parts, s.sep), rest, s);
      GlueAllIsJoin(parts, rest, k, s);
      assert Join([rest[0]], s.sep) == rest[0];
      hide Take, Join, GlueAll;
      if k == 0 {
        Phase2GroupsJoin([rest[0]], rest[1..], s);
      } else {
        Phase2GroupsJoin(parts + rest[..k], rest[k..], s);
      }
    }
  }

  lemma {:induction false} Phase2GroupsFit(parts: Group, rest: seq<string>, s: Settings)
    requires parts != [] && GroupFits(parts, s)
    ensures GroupsFit(Phase2Groups(parts, rest, s), s)
    decreases |rest|
  {
    if rest != [] {
      var k := Take(Join(parts, s.sep), rest, s);
      GlueAllIsJoin(parts, rest, k, s);
      TakeFits(Join(parts, s.sep), rest, s);
      hide Take, Join, GlueAll;
      if k == 0 {
        Phase2GroupsFit([rest[0]], rest[1..], s);
        GroupsFitAppend([parts], Phase2Groups([rest[0]], rest[1..], s), s);
      } else {
        Phase2GroupsFit(parts + rest[..k], rest[k..], s);
      }
    }
  }

  /** Phase 2: what it puts out is an in-order grouping of the chunks of phase 1, none skipped or
      repeated by the lookahead; no group of two or more exceeds the maximum. */
  lemma Phase2IsGrouping(chunks: seq<string>, s: Settings) returns (gs: seq<Group>)
    requires chunks != []
    ensures JoinAll(gs, s.sep) == MergedFrom(chunks[0], chunks[1..], s)
    ensures Flatten(gs) == chunks && GroupsFit(gs, s)
  {
    var first, rest := chunks[0], chunks[1..];
    gs := Phase2Groups([first], rest, s);
    assert Join([first], s.sep) == first;
    Phase2GroupsFlatten([first], rest, s);
    Phase2GroupsJoin([first], rest, s);
    Phase2GroupsFit([first], rest, s);
  }

  // ----- the result

  /** The last loop: trim, drop what is blank, split what is longer than a chunk. */
  function FinalPiece(m: string, n: int): seq<string> {
    var t := TrimSpace(m);
    if t == "" then [] else if n > 0 && |t| > n then SplitLongSentence(t, n) else [t]
  }

  function FinalChunks(merged: seq<string>, n: int): seq<string> {
    if merged == [] then [] else FinalPiece(merged[0], n) + FinalChunks(merged[1..], n)
  }

  lemma FinalFrom(final: seq<string>, merged: seq<string>, i: nat, n: int)
    requires i < |merged|
    ensures final + FinalChunks(merged[i..], n) == final + FinalPiece(merged[i], n) + FinalChunks(merged[i + 1..], n)
  {
    hide FinalPiece;
    assert merged[i..][1..] == merged[i + 1..];
  }

  method FinalLoop(merged: seq<string>, chunkSize: int) returns (final: seq<string>)
    ensures final == FinalChunks(merged, chunkSize)
  {
    final := [];
    var i := 0;
    assert merged[0..] == merged;
    hide FinalPiece;
    while i < |merged|
      invariant 0 <= i <= |merged| && FinalChunks(merged, chunkSize) == final + FinalChunks(merged[i..], chunkSize)
    {
      FinalFrom(final, merged, i, chunkSize);
      var more := FinalOne(merged[i], chunkSize);
      final := final + more;
      i := i + 1;
    }
    assert merged[i..] == [];
  }

  method FinalOne(m: string, chunkSize: int) returns (more: seq<string>)
    ensures more == FinalPiece(m, chunkSize)
  {
    hide TrimSpace, SplitLongSentence;
    var t := TrimSpace(m);
    if t == "" {
      return [];
    }
    if chunkSize > 0 && |t| > chunkSize {
      more := SplitLong(t, chunkSize);
    } else {
      more := [t];
    }
  }

  lemma {:induction false} FinalIsSized(merged: seq<string>, n: int)
    requires n > 0
    ensures Sized(FinalChunks(merged, n), n)
  {
    if merged != [] {
      LongSentenceIsSized(TrimSpace(merged[0]), n);
      hide SplitLongSentence, TrimSpace;
      FinalIsSized(merged[1..], n);
    }
  }

  lemma {:induction false} FinalKeepsEssence(merged: seq<string>, n: int, drop: set<char>)
    requires AllDropped(LONG_SENTENCE_SEPARATORS, drop)
    ensures Essence(Concat(FinalChunks(merged, n)), drop) == Essence(Concat(merged), drop)
  {
    if merged != [] {
      var m, more := merged[0], merged[1..];
      var t := TrimSpace(m);
      FinalKeepsEssence(more, n, drop);
      EssenceTrim(m, drop);
      EssenceAppend(m, Concat(more), drop);
      EssenceConcat(FinalPiece(m, n), FinalChunks(more, n), drop);
      if n > 0 && |t| > n {
        LongSentenceKeepsEssence(t, n, drop);
      } else {
        ConcatOne(t);
      }
    }
  }

  lemma {:induction false} JoinAllKeepsEssence(gs: seq<Group>, sep: string, drop: set<char>)
    requires Dropped(sep, drop)
    ensures Essence(Concat(JoinAll(gs, sep)), drop) == Essence(Concat(Flatten(gs)), drop)
  {
    if gs != [] {
      JoinAllKeepsEssence(gs[1..], sep, drop);
      EssenceJoin(gs[0], sep, drop);
      EssenceAppend(Join(gs[0], sep), Concat(JoinAll(gs[1..], sep)), drop);
      EssenceConcat(gs[0], Flatten(gs[1..]), drop);
      assert JoinAll(gs, sep)[1..] == JoinAll(gs[1..], sep);
    }
  }

  lemma {:induction false} UnitsKeepEssence(sentences: seq<string>, s: Settings, drop: set<char>)
    requires AllDropped(LONG_SENTENCE_SEPARATORS, drop) && s.max > 0
    ensures Essence(Concat(Units(sentences, s)), drop) == Essence(Concat(sentences), drop)
  {
    if sentences != [] {
      var x, more := sentences[0], sentences[1..];
      UnitsKeepEssence(more, s, drop);
      UnitsOfOne(x, s);
      UnitsFirst(sentences, s);
      EssenceConcat(Units([x], s), Units(more, s), drop);
      EssenceAppend(x, Concat(more), drop);
      ConcatOne(x);
      if Blank(x) {
        DroppedHasNoEssence(x, drop);
      } else if |x| > s.max {
        LongSentenceKeepsEssence(x, s.max, drop);
      }
    }
  }

  /** Indexing the first chunk panics when phase 1 has produced none. */
  datatype Result = Chunks(chunks: seq<string>) | IndexPanic

  /** The defaults that are filled in for sizes and range. */
  function Normalised(s: Settings, chunkSize: int, maxChunkSize: int, minChunkSize: int, mergingRange: int): Settings {
    var max := if maxChunkSize <= 0 then chunkSize else maxChunkSize;
    s.(max := if max <= 0 then 500 else max,
       min := if minChunkSize < 0 then 0 else minChunkSize,
       range := if mergingRange <= 0 then 1 else if mergingRange > 2 then 2 else mergingRange)
  }

  function DoubleMerged(sentences: seq<string>, s: Settings, chunkSize: int): Result {
    if sentences == [] then Chunks([])
    else
      var initial := InitialChunks(sentences, s);
      if initial == [] then IndexPanic
      else Chunks(FinalChunks(MergedFrom(initial[0], initial[1..], s), chunkSize))
  }

  /** semanticSplitDoubleMerging; s brings the thresholds, the separator and the similarity. */
  method SemanticSplitDoubleMerging(sentences: seq<string>, chunkSize: int, maxChunkSize: int, minChunkSize: int,
      mergingRange: int, s: Settings) returns (r: Result)
    ensures r == DoubleMerged(sentences, Normalised(s, chunkSize, maxChunkSize, minChunkSize, mergingRange), chunkSize)
  {
    if |sentences| == 0 {
      return Chunks([]);
    }
    var max, min, range := maxChunkSize, minChunkSize, mergingRange;
    if max <= 0 {
      max := chunkSize;
    }
    if max <= 0 {
      max := 500;
    }
    if min < 0 {
      min := 0;
    }
    if range <= 0 {
      range := 1;
    }
    if range > 2 {
      range := 2;
    }
    var settings := s.(max := max, min := min, range := range);
    assert settings == Normalised(s, chunkSize, maxChunkSize, minChunkSize, mergingRange);
    hide InitialChunks, MergedFrom, FinalChunks;
    var initialChunks := Phase1(sentences, settings);
    if |initialChunks| == 0 {
      return IndexPanic;
    }
    var merged := Phase2(initialChunks, settings);
    var final := FinalLoop(merged, chunkSize);
    r := Chunks(final);
  }

  lemma Phase1KeepsEssence(sentences: seq<string>, s: Settings, drop: set<char>)
    requires sentences != [] && !Blank(sentences[0]) && s.max > 0
    requires AllDropped(LONG_SENTENCE_SEPARATORS, drop) && Dropped(s.sep, drop)
    ensures InitialChunks(sentences, s) != []
    ensures Essence(Concat(InitialChunks(sentences, s)), drop) == Essence(Concat(sentences), drop)
  {
    var gs := Phase1IsGrouping(sentences, s);
    hide *;
    JoinAllKeepsEssence(gs, s.sep, drop);
    UnitsKeepEssence(sentences[1..], s, drop);
    assert sentences == [sentences[0]] + sentences[1..];
    EssenceConcat([sentences[0]], Units(sentences[1..], s), drop);
    EssenceConcat([sentences[0]], sentences[1..], drop);
  }

  /** For any similarity function and a first sentence that is not blank: every chunk of the result
      is non-empty and at most chunkSize long, and the chunks hold every rune of the sentences that
      is neither white space nor dropped with a separator or phrase mark, in order. */
  lemma DoubleMergingIsSound(sentences: seq<string>, s: Settings, chunkSize: int, drop: set<char>)
    requires sentences != [] && !Blank(sentences[0]) && s.max > 0
    requires AllDropped(LONG_SENTENCE_SEPARATORS, drop) && Dropped(s.sep, drop)
    ensures var r := DoubleMerged(sentences, s, chunkSize);
      && r.Chunks?
      && (chunkSize > 0 ==> Sized(r.chunks, chunkSize))
      && Essence(Concat(r.chunks), drop) == Essence(Concat(sentences), drop)
  {
    Phase1KeepsEssence(sentences, s, drop);
    var initial := InitialChunks(sentences, s);
    var merged := MergedFrom(initial[0], initial[1..], s);
    assert DoubleMerged(sentences, s, chunkSize) == Chunks(FinalChunks(merged, chunkSize));
    var hs := Phase2IsGrouping(initial, s);
    hide *;
    if chunkSize > 0 {
      FinalIsSized(merged, chunkSize);
    }
    FinalKeepsEssence(merged, chunkSize, drop);
    JoinAllKeepsEssence(hs, s.sep, drop);
  }

  // ----- when it panics

  /** Phase 1 has something to show. */
  predicate Alive(p: Scan) { p.done != [] || !Blank(p.chunk) }

  lemma TurnAlive(p: Scan, sentence: string, s: Settings)
    requires s.max > 0
    ensures Alive(Turn(p, sentence, s)) <==> Alive(p) || !Blank(sentence)
  {
    if !Blank(sentence) && |sentence| > s.max {
      LongSentenceHasPieces(sentence, s.max);
    }
    if p.chunk != "" {
      BlankAppend(p.chunk + s.sep, sentence);
      BlankAppend(p.chunk, s.sep);
      JoinPush([p.chunk], sentence, s.sep);
      assert [p.chunk] + [sentence] == [p.chunk, sentence];
    }
  }

  lemma {:induction false} ScannedAlive(p: Scan, rest: seq<string>, s: Settings)
    requires s.max > 0
    ensures Alive(Scanned(p, rest, s)) <==> Alive(p) || SomeNotBlank(rest)
    decreases |rest|
  {
    if rest != [] {
      TurnAlive(p, rest[0], s);
      hide Turn, Alive, Blank;
      ScannedAlive(Turn(p, rest[0], s), rest[1..], s);
      SomeFirst(rest);
    }
  }

  /** The index into the chunks of phase 1 fails exactly when there are sentences and all are blank. */
  lemma PanicsIffAllBlank(sentences: seq<string>, s: Settings, chunkSize: int)
    requires s.max > 0
    ensures DoubleMerged(sentences, s, chunkSize).IndexPanic? <==> sentences != [] && !SomeNotBlank(sentences)
  {
    if sentences != [] {
      var p := FirstScan(sentences[0]);
      ScannedAlive(p, sentences[1..], s);
      SomeFirst(sentences);
    }
  }
}
