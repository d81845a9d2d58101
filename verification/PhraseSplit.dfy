/** splitLongSentence of aipkg/rag/split/semantic.go cuts at phrase marks before it cuts by runes. */
module PhraseSplit {
  import opened Text
  import opened Stretches
  import opened RecursiveCharacter
  import opened RecursiveCharacterProofs
  import opened RecursiveCharacterAtoms
  import opened Sentences

  lemma {:induction false} TrimLeftHolds(b: string, w: string, a: string) returns (b': string)
    requires Solid(w)
    ensures TrimLeft(b + w + a) == b' + w + a
    decreases |b|
  {
    var s := b + w + a;
    b' := b;
    if b == "" {
      assert s[0] == w[0];
    } else if IsSpace(b[0]) {
      assert s[0] == b[0] && s[1..] == b[1..] + w + a;
      b' := TrimLeftHolds(b[1..], w, a);
    } else {
      assert s[0] == b[0];
    }
  }

  lemma {:induction false} TrimRightHolds(b: string, w: string, a: string) returns (a': string)
    requires Solid(w)
    ensures TrimRight(b + w + a) == b + w + a'
    decreases |a|
  {
    var s := b + w + a;
    a' := a;
    var last := |a| - 1;
    if a == "" {
      assert s[|s| - 1] == w[|w| - 1];
    } else if IsSpace(a[last]) {
      assert s[|s| - 1] == a[last] && s[..|s| - 1] == b + w + a[..last];
      a' := TrimRightHolds(b, w, a[..last]);
    } else {
      assert s[|s| - 1] == a[last];
    }
  }

  lemma TrimHolds(s: string, w: string)
    requires Solid(w) && Holds(s, w)
    ensures Holds(TrimSpace(s), w)
  {
    var b, a :| s == b + w + a;
    hide TrimLeft, TrimRight, Solid;
    var b' := TrimLeftHolds(b, w, a);
    var a' := TrimRightHolds(b', w, a);
  }

  lemma {:induction false} PiecesTake(pieces: seq<string>, n: int, c: string)
    requires c in pieces && TrimSpace(c) != "" && |TrimSpace(c)| <= n
    ensures TrimSpace(c) in TrimPieces(pieces, n)
    decreases |pieces|
  {
    hide TrimSpace, HardSplit;
    if c != pieces[0] {
      PiecesTake(pieces[1..], n, c);
    }
  }

  lemma OnlyMarks(w: string, before: string, after: string)
    requires forall r <- w :: r !in "，,；;、 "
    requires (before == "" || before[|before| - 1] in "，,；;、 ") && (after == "" || after[0] in "，,；;、 ")
    ensures forall sep <- LONG_SENTENCE_SEPARATORS :: forall r <- w :: r !in sep
    ensures EndsAtSeparator(before, LONG_SENTENCE_SEPARATORS) && StartsAtSeparator(after, LONG_SENTENCE_SEPARATORS)
  {
  }

  /** A phrase that fits and lies between phrase marks is whole in one piece of its sentence. */
  lemma PhraseStaysWhole(before: string, w: string, after: string, n: int) returns (c: string)
    requires Solid(w) && |w| <= n && forall r <- w :: r !in "，,；;、 "
    requires (before == "" || before[|before| - 1] in "，,；;、 ") && (after == "" || after[0] in "，,；;、 ")
    ensures c in SplitLongSentence(before + w + after, n) && Holds(c, w)
  {
    var s := before + w + after;
    assert s != "" && n > 0;
    SolidIsNotBlank(w);
    if |s| <= n {
      c := s;
    } else {
      OnlyMarks(w, before, after);
      hide *;
      var piece := StretchStaysWhole(before, w, after, LONG_SENTENCE_SEPARATORS, n);
      SplitIsSized(s, LONG_SENTENCE_SEPARATORS, n);
      LongIsTrimmed(s, n);
      c := TrimSpace(piece);
      TrimHolds(piece, w);
      HeldIsShorter(c, w);
      SizedMember(RecursiveSplit(s, LONG_SENTENCE_SEPARATORS, n), n, piece);
      PiecesTake(RecursiveSplit(s, LONG_SENTENCE_SEPARATORS, n), n, piece);
    }
  }

  lemma LongIsTrimmed(s: string, n: int)
    requires |s| > n > 0
    ensures SplitLongSentence(s, n) == TrimPieces(RecursiveSplit(s, LONG_SENTENCE_SEPARATORS, n), n)
  {
  }

  lemma SizedMember(ss: seq<string>, n: int, s: string)
    requires Sized(ss, n) && s in ss
    ensures |TrimSpace(s)| <= n
  {
  }
}
