/** Sentence groups and over-long sentences: shared parts of aipkg/rag/split/semantic.go. */
module Sentences {
  import opened Text
  import opened RecursiveCharacter
  import opened RecursiveCharacterProofs

  type Group = seq<string>

  const LONG_SENTENCE_SEPARATORS: seq<string> := ["，", ",", "；", ";", "、", " "]

  /** The runes that splitting a long sentence may drop, besides white space. */
  const PHRASE_MARKS: set<char> := {'，', ',', '；', ';', '、', ' '}

  predicate StartsWith(s: string, prefix: string) { prefix <= s }

  predicate IsMarkdownHeadingLine(s: string) { StartsWith(TrimSpace(s), "#") }

  predicate IsCodeBlockSentence(s: string) { IsFence(s) }

  /** sentenceGroupLen. */
  function GroupLen(g: Group): nat {
    if g == [] then 0 else |g[0]| + GroupLen(g[1..])
  }

  method SentenceGroupLen(sentences: Group) returns (n: nat)
    ensures n == GroupLen(sentences)
  {
    n := 0;
    var i := 0;
    assert sentences[0..] == sentences;
    while i < |sentences|
      invariant 0 <= i <= |sentences| && n + GroupLen(sentences[i..]) == GroupLen(sentences)
    {
      assert sentences[i..][1..] == sentences[i + 1..];
      n := n + |sentences[i]|;
      i := i + 1;
    }
  }

  lemma {:induction false} GroupLenAppend(a: Group, b: Group)
    ensures GroupLen(a + b) == GroupLen(a) + GroupLen(b)
  {
    if a == [] {
      assert a + b == b;
    } else {
      assert (a + b)[1..] == a[1..] + b;
      GroupLenAppend(a[1..], b);
    }
  }

  lemma {:induction false} FlattenAppend<T>(a: seq<seq<T>>, b: seq<seq<T>>)
    ensures Flatten(a + b) == Flatten(a) + Flatten(b)
  {
    if a == [] {
      assert a + b == b;
    } else {
      assert (a + b)[1..] == a[1..] + b;
      FlattenAppend(a[1..], b);
    }
  }

  lemma FlattenOne<T>(g: seq<T>)
    ensures Flatten([g]) == g
  {
    assert Flatten([g]) == g + Flatten([]) == g;
  }

  // ----- over-long sentences

  /** What one piece contributes: nothing if blank, else the piece trimmed, cut hard if still too long. */
  function TrimPiece(piece: string, n: int): seq<string> {
    var p := TrimSpace(piece);
    if p == "" then [] else if |p| > n then HardSplit(p, n) else [p]
  }

  function TrimPieces(pieces: seq<string>, n: int): seq<string> {
    if pieces == [] then [] else TrimPiece(pieces[0], n) + TrimPieces(pieces[1..], n)
  }

  /** splitLongSentence. */
  function SplitLongSentence(sentence: string, n: int): seq<string> {
    if sentence == "" || n <= 0 then []
    else if |sentence| <= n then [sentence]
    else TrimPieces(RecursiveSplit(sentence, LONG_SENTENCE_SEPARATORS, n), n)
  }

  lemma TrimPiecesFrom(filtered: seq<string>, pieces: seq<string>, i: nat, n: int)
    requires i < |pieces|
    ensures filtered + TrimPieces(pieces[i..], n)
         == filtered + TrimPiece(pieces[i], n) + TrimPieces(pieces[i + 1..], n)
  {
    hide TrimPiece;
    assert pieces[i..][1..] == pieces[i + 1..];
  }

  method SplitLong(sentence: string, n: int) returns (filtered: seq<string>)
    ensures filtered == SplitLongSentence(sentence, n)
  {
    if sentence == "" || n <= 0 {
      return [];
    }
    if |sentence| <= n {
      return [sentence];
    }
    var parts := SplitText(sentence, LONG_SENTENCE_SEPARATORS, n);
    filtered := Filter(parts, n);
  }

  /** The loop of splitLongSentence. */
  method Filter(parts: seq<string>, n: int) returns (filtered: seq<string>)
    ensures filtered == TrimPieces(parts, n)
  {
    filtered := [];
    var i := 0;
    assert parts[0..] == parts;
    hide *;
    while i < |parts|
      invariant 0 <= i <= |parts|
      invariant TrimPieces(parts, n) == filtered + TrimPieces(parts[i..], n)
    {
      TrimPiecesFrom(filtered, parts, i, n);
      var more := FilterOne(parts[i], n);
      filtered := filtered + more;
      i := i + 1;
    }
    assert parts[i..] == [];
    NoPieces(n);
  }

  /** The body of that loop. */
  method FilterOne(part: string, n: int) returns (more: seq<string>)
    ensures more == TrimPiece(part, n)
  {
    more := [];
    var p := TrimSpace(part);
    if p != "" {
      if |p| > n {
        more := HardSplitByRunes(p, n);
      } else {
        more := [p];
      }
    }
  }

  lemma NoPieces(n: int)
    ensures TrimPieces([], n) == []
  {
  }

  lemma {:induction false} TrimPiecesAreSized(pieces: seq<string>, n: int)
    requires n > 0
    ensures Sized(TrimPieces(pieces, n), n)
  {
    if pieces != [] {
      TrimPiecesAreSized(pieces[1..], n);
      HardSplitIsSized(TrimSpace(pieces[0]), n);
    }
  }

  /** The pieces of a sentence are non-empty and at most n runes long. */
  lemma LongSentenceIsSized(sentence: string, n: int)
    requires n > 0
    ensures Sized(SplitLongSentence(sentence, n), n)
  {
    if sentence != "" && |sentence| > n {
      TrimPiecesAreSized(RecursiveSplit(sentence, LONG_SENTENCE_SEPARATORS, n), n);
    }
  }

  lemma {:induction false} TrimPiecesKeepEssence(pieces: seq<string>, n: int, drop: set<char>)
    requires n > 0
    ensures Essence(Concat(TrimPieces(pieces, n)), drop) == Essence(Concat(pieces), drop)
  {
    if pieces != [] {
      var p := TrimSpace(pieces[0]);
      TrimPiecesKeepEssence(pieces[1..], n, drop);
      EssenceTrim(pieces[0], drop);
      EssenceAppend(pieces[0], Concat(pieces[1..]), drop);
      HardSplitIsSized(p, n);
      ConcatOne(p);
      EssenceConcat(TrimPiece(pieces[0], n), TrimPieces(pieces[1..], n), drop);
    }
  }

  lemma MarksAreDropped()
    ensures AllDropped(LONG_SENTENCE_SEPARATORS, PHRASE_MARKS)
  {
  }

  /** Splitting a sentence loses nothing but white space and phrase marks. */
  lemma LongSentenceKeepsEssence(sentence: string, n: int, drop: set<char>)
    requires n > 0 && AllDropped(LONG_SENTENCE_SEPARATORS, drop)
    ensures Essence(Concat(SplitLongSentence(sentence, n)), drop) == Essence(sentence, drop)
  {
    if sentence == "" {
    } else if |sentence| <= n {
      ConcatOne(sentence);
    } else {
      SplitKeepsEssence(sentence, LONG_SENTENCE_SEPARATORS, n, drop);
      TrimPiecesKeepEssence(RecursiveSplit(sentence, LONG_SENTENCE_SEPARATORS, n), n, drop);
    }
  }

  lemma {:induction false} TrimPiecesSurvive(pieces: seq<string>, n: int)
    requires SomeNotBlank(pieces) && n > 0
    ensures TrimPieces(pieces, n) != []
  {
    SomeFirst(pieces);
    if Blank(pieces[0]) {
      TrimPiecesSurvive(pieces[1..], n);
    } else {
      TrimSpaceEmpty(pieces[0]);
      hide TrimSpace, Blank;
      assert TrimPiece(pieces[0], n) != [];
    }
  }

  /** A sentence that is not blank has at least one piece. */
  lemma LongSentenceHasPieces(sentence: string, n: int)
    requires !Blank(sentence) && n > 0
    ensures SplitLongSentence(sentence, n) != []
  {
    SplitSurvives(sentence, LONG_SENTENCE_SEPARATORS, n);
    if |sentence| > n {
      TrimPiecesSurvive(RecursiveSplit(sentence, LONG_SENTENCE_SEPARATORS, n), n);
    }
  }
}
