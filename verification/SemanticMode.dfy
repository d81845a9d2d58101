/** Two of the semantic modes of aipkg/rag/split/semantic.go from the text on: what splitting into sentences
    and double merging, or cutting at breakpoints, are worth together. */
module SemanticMode {
  import opened Text
  import opened RecursiveCharacterProofs
  import opened Sentences
  import opened SentenceSplit
  import opened DoubleMerging
  import opened DoubleMergingProofs
  import opened WindowPipeline

  /** The mode calls double merging with the sentences of the text. */
  function DoubleMergingMode(text: string, s: Settings, chunkSize: int): Result {
    DoubleMerged(SentencesOf(text), s, chunkSize)
  }

  /** Split in the double-merging mode, without the steps before the sentences and after the chunks. */
  method SplitDoubleMerging(text: string, chunkSize: int, maxChunkSize: int, minChunkSize: int,
      mergingRange: int, s: Settings) returns (r: Result)
    ensures r == DoubleMergingMode(text, Normalised(s, chunkSize, maxChunkSize, minChunkSize, mergingRange), chunkSize)
  {
    hide SentencesOf, DoubleMerged, Normalised;
    var sentences := SplitIntoSentences(text);
    r := SemanticSplitDoubleMerging(sentences, chunkSize, maxChunkSize, minChunkSize, mergingRange, s);
  }

  /** For every text, similarity and setting, the mode never panics; its chunks are non-empty and fit a
      positive chunk size, and they hold every rune of the text that is neither white space nor dropped
      with a separator or phrase mark, in order. */
  lemma DoubleMergingModeIsSound(text: string, s: Settings, chunkSize: int, maxChunkSize: int, minChunkSize: int,
      mergingRange: int, drop: set<char>)
    requires AllDropped(LONG_SENTENCE_SEPARATORS, drop) && Dropped(s.sep, drop)
    ensures
      var settings := Normalised(s, chunkSize, maxChunkSize, minChunkSize, mergingRange);
      var r := DoubleMergingMode(text, settings, chunkSize);
      && r.Chunks?
      && (chunkSize > 0 ==> Sized(r.chunks, chunkSize))
      && Essence(Concat(r.chunks), drop) == Essence(text, drop)
  {
    var settings := Normalised(s, chunkSize, maxChunkSize, minChunkSize, mergingRange);
    var sentences := SentencesOf(text);
    SentencesAreNotBlank(text);
    SentencesKeepEssence(text, drop);
    assert settings.max > 0 && settings.sep == s.sep;
    if sentences == [] {
      assert DoubleMerged(sentences, settings, chunkSize) == Chunks([]);
    } else {
      assert !Blank(sentences[0]);
      DoubleMergingIsSound(sentences, settings, chunkSize, drop);
    }
  }

  /** For every text and any distances between its sentences, the window-breakpoint mode keeps to the chunk
      size exactly when the text is not a single over-long sentence; its chunks without what is repeated hold
      every rune of the text that is neither white space nor a phrase mark, in order. */
  lemma WindowBreakpointModeFitsIff(text: string, distances: seq<real>, percentile: int, threshold: real,
      minSize: int, n: int, limit: int)
    requires Spaced(SentencesOf(text), distances) && IsThreshold(threshold, distances, percentile) && n > 0
    ensures var sentences := SentencesOf(text);
      && (Sized(WindowChunks(sentences, distances, threshold, minSize, n, limit), n)
        <==> (|sentences| == 1 ==> |sentences[0]| <= n))
      && (|sentences| > 1 ==>
        var own := Texts(OwnGroups(sentences, distances, threshold, minSize, n));
        Essence(Concat(own), PHRASE_MARKS) == Essence(text, PHRASE_MARKS))
  {
    SentencesAreNotBlank(text);
    SentencesKeepEssence(text, PHRASE_MARKS);
    var sentences := SentencesOf(text);
    assert Filled(sentences) by {
      assert forall k | 0 <= k < |sentences| :: !Blank(sentences[k]);
      assert Blank("");
    }
    WindowChunksFitIff(sentences, distances, percentile, threshold, minSize, n, limit);
    hide *;
  }

  /** Such texts: a plain line at least as long as the chunk size is returned whole and longer than it. */
  lemma PlainLineIsTooLong(text: string, threshold: real, minSize: int, n: int, limit: int)
    requires PlainLine(text) && 0 < n <= |text|
    ensures Spaced(SentencesOf(text), [])
    ensures !Sized(WindowChunks(SentencesOf(text), [], threshold, minSize, n, limit), n)
  {
    PlainLineIsOneSentence(text);
    hide SentencesOf;
    assert text + "\n" in SentencesOf(text);
  }
}
