/** recursiveSplitWithSeparators of aipkg/rag/chunker/recursive_character.go: what the chunker's recursive
    strategy makes of a text, or that it never comes back. */
module ChunkSplit {
  import opened Common
  import opened Text
  import opened RecursiveCharacterProofs
  import opened ChunkMerge

  datatype Splitting = Done(chunks: seq<string>) | Endless

  function MergeOutcome(parts: seq<string>, sep: string, n: int, overlap: nat): Splitting {
    if n > 0 && !Advances(parts, sep, n, overlap, 0) then Endless else Done(Merged(parts, sep, n, overlap))
  }

  function ByRunes(text: string, n: int, overlap: nat): Splitting {
    if text == "" || n <= 0 then Done([]) else MergeOutcome(Runes(text), "", n, overlap)
  }

  function Both(first: Splitting, more: Splitting): Splitting {
    if first.Done? && more.Done? then Done(first.chunks + more.chunks) else Endless
  }

  function PartsOf(text: string, sep: string): seq<string> { if sep == "" then [text] else Split(text, sep) }

  /** recursiveSplitWithSeparators. */
  function SplitBy(text: string, separators: seq<string>, n: int, overlap: nat): Splitting
    decreases |separators|, 0
  {
    if text == "" then Done([])
    else if separators == [] then ByRunes(text, n, overlap)
    else
      var parts := PartsOf(text, separators[0]);
      if |parts| == 1 then SplitBy(text, separators[1..], n, overlap)
      else
        var refined := Refined(parts, separators[1..], n, overlap);
        if refined.Endless? then Endless else MergeOutcome(refined.chunks, separators[0], n, overlap)
  }

  /** The non-blank parts, over-long ones split by the remaining separators. */
  function Refined(parts: seq<string>, separators: seq<string>, n: int, overlap: nat): Splitting
    decreases |separators|, 2, |parts|
  {
    if parts == [] then Done([])
    else Both(RefinedPart(parts[0], separators, n, overlap), Refined(parts[1..], separators, n, overlap))
  }

  function RefinedPart(part: string, separators: seq<string>, n: int, overlap: nat): Splitting
    decreases |separators|, 1
  {
    if Blank(part) then Done([]) else if |part| > n then SplitBy(part, separators, n, overlap) else Done([part])
  }

  // ----- the code

  /** The body of the loop that refines the parts. */
  method RefineOne(part: string, separators: seq<string>, chunkSize: int, overlap: nat, ghost rest: seq<string>)
    returns (more: seq<string>)
    requires Refined([part] + rest, separators, chunkSize, overlap).Done?
    ensures Refined(rest, separators, chunkSize, overlap).Done?
    ensures Refined([part] + rest, separators, chunkSize, overlap).chunks
         == more + Refined(rest, separators, chunkSize, overlap).chunks
    decreases |separators|, 1
  {
    assert ([part] + rest)[1..] == rest;
    hide SplitBy, Blank, TrimSpace;
    TrimSpaceEmpty(part);
    if TrimSpace(part) == "" {
      NothingAdded(Refined(rest, separators, chunkSize, overlap).chunks);
      return [];
    }
    if |part| > chunkSize {
      more := SplitWithSeparators(part, separators, chunkSize, overlap);
    } else {
      more := [part];
    }
  }

  method Refine(parts: seq<string>, separators: seq<string>, chunkSize: int, overlap: nat)
    returns (refined: seq<string>)
    requires Refined(parts, separators, chunkSize, overlap).Done?
    ensures refined == Refined(parts, separators, chunkSize, overlap).chunks
    decreases |separators|, 2
  {
    hide *;
    refined := [];
    Whole(parts);
    NothingAdded(Refined(parts, separators, chunkSize, overlap).chunks);
    var i := 0;
    while i < |parts|
      invariant 0 <= i <= |parts| && Refined(parts[i..], separators, chunkSize, overlap).Done?
      invariant Refined(parts, separators, chunkSize, overlap).chunks
             == refined + Refined(parts[i..], separators, chunkSize, overlap).chunks
    {
      FirstAndRest(parts, i);
      var more := RefineOne(parts[i], separators, chunkSize, overlap, parts[i + 1..]);
      Assoc(refined, more, Refined(parts[i + 1..], separators, chunkSize, overlap).chunks);
      refined := refined + more;
      i := i + 1;
    }
    NothingRefined(separators, chunkSize, overlap);
    NothingAdded(refined);
  }

  lemma FirstAndRest(parts: seq<string>, i: nat)
    requires i < |parts|
    ensures parts[i..] == [parts[i]] + parts[i + 1..]
  {
  }

  lemma NothingRefined(separators: seq<string>, n: int, overlap: nat)
    ensures Refined([], separators, n, overlap) == Done([])
  {
  }

  /** recursiveSplitWithSeparators, where it comes back. */
  method SplitWithSeparators(text: string, separators: seq<string>, chunkSize: int, overlap: nat)
    returns (chunks: seq<string>)
    requires SplitBy(text, separators, chunkSize, overlap).Done?
    ensures chunks == SplitBy(text, separators, chunkSize, overlap).chunks
    decreases |separators|, 0
  {
    hide Split, Refined, Advances, Merged, Runes;
    if text == "" {
      return [];
    }
    if |separators| == 0 {
      chunks := SplitByRunes(text, chunkSize, overlap);
      return;
    }
    var sep := separators[0];
    var parts := [text];
    if sep != "" {
      parts := Split(text, sep);
    }
    if |parts| == 1 {
      chunks := SplitWithSeparators(text, separators[1..], chunkSize, overlap);
      return;
    }
    var refined := Refine(parts, separators[1..], chunkSize, overlap);
    chunks := MergePartsWithOverlap(refined, sep, chunkSize, overlap);
  }

  // ----- what comes back

  lemma {:induction false} ChunksAreSized(parts: seq<string>, sep: string, n: nat, overlap: nat, i: nat)
    requires Sized(parts, n) && i <= |parts| && Advances(parts, sep, n, overlap, i)
    ensures Sized(ChunksFrom(parts, sep, n, overlap, i), n)
    decreases |parts| - i
  {
    hide Stuck, NextAt, ChunkAt;
    if i < |parts| {
      BlockFits(parts, sep, n, i);
      ChunksAreSized(parts, sep, n, overlap, NextAt(parts, sep, n, overlap, i));
    }
  }

  lemma MergeIsSized(parts: seq<string>, sep: string, n: nat, overlap: nat)
    requires n > 0 && Sized(parts, n)
    ensures var r := MergeOutcome(parts, sep, n, overlap); r.Done? ==> Sized(r.chunks, n)
  {
    if Advances(parts, sep, n, overlap, 0) {
      ChunksAreSized(parts, sep, n, overlap, 0);
    }
    hide Advances, ChunksFrom;
  }

  lemma RunesAreSized(text: string, n: nat)
    requires n > 0
    ensures Sized(Runes(text), n)
  {
    forall r <- Runes(text)
      ensures 0 < |r| <= n
    {
      var k :| 0 <= k < |text| && Runes(text)[k] == r;
      RuneAt(text, k);
    }
  }

  lemma SizedAppend(a: seq<string>, b: seq<string>, n: nat)
    requires Sized(a, n) && Sized(b, n)
    ensures Sized(a + b, n)
  {
  }

  lemma SizedFew(s: string, n: nat)
    ensures Sized([], n) && (0 < |s| <= n ==> Sized([s], n))
  {
  }

  /** For every text, separators and overlap: where the strategy comes back, its chunks are non-empty and at
      most n runes long. */
  lemma {:induction false} SplitIsSized(text: string, separators: seq<string>, n: nat, overlap: nat)
    requires n > 0
    ensures var r := SplitBy(text, separators, n, overlap); r.Done? ==> Sized(r.chunks, n)
    decreases |separators|, 0
  {
    hide MergeOutcome, Split, Sized, Runes, Refined;
    if text == "" {
      SizedFew("", n);
    } else if separators == [] {
      RunesAreSized(text, n);
      MergeIsSized(Runes(text), "", n, overlap);
    } else {
      var parts := PartsOf(text, separators[0]);
      if |parts| == 1 {
        SplitIsSized(text, separators[1..], n, overlap);
      } else {
        RefinedIsSized(parts, separators[1..], n, overlap);
        var refined := Refined(parts, separators[1..], n, overlap);
        if refined.Done? {
          MergeIsSized(refined.chunks, separators[0], n, overlap);
        }
      }
    }
  }

  lemma {:induction false} RefinedIsSized(parts: seq<string>, separators: seq<string>, n: nat, overlap: nat)
    requires n > 0
    ensures var r := Refined(parts, separators, n, overlap); r.Done? ==> Sized(r.chunks, n)
    decreases |separators|, 1, |parts|
  {
    hide SplitBy, Sized, Blank;
    SizedFew("", n);
    if parts != [] {
      var part := parts[0];
      SizedFew(part, n);
      SplitIsSized(part, separators, n, overlap);
      RefinedIsSized(parts[1..], separators, n, overlap);
      var first := RefinedPart(part, separators, n, overlap);
      assert part == "" ==> Blank(part) by { EmptyIsBlank(); }
      var more := Refined(parts[1..], separators, n, overlap);
      if first.Done? && more.Done? {
        SizedAppend(first.chunks, more.chunks, n);
      }
    }
  }

  // ----- when it comes back

  /** Without overlap it always comes back. */
  lemma {:induction false} NoOverlapIsDone(text: string, separators: seq<string>, n: int)
    ensures SplitBy(text, separators, n, 0).Done?
    decreases |separators|, 0
  {
    hide Advances, Merged, Split, Runes, Refined;
    if text == "" {
    } else if separators == [] {
      if n > 0 {
        NoOverlapAdvances(Runes(text), "", n, 0);
      }
    } else {
      var parts := PartsOf(text, separators[0]);
      if |parts| == 1 {
        NoOverlapIsDone(text, separators[1..], n);
      } else {
        NoOverlapRefined(parts, separators[1..], n);
        if n > 0 {
          NoOverlapAdvances(Refined(parts, separators[1..], n, 0).chunks, separators[0], n, 0);
        }
      }
    }
  }

  lemma {:induction false} NoOverlapRefined(parts: seq<string>, separators: seq<string>, n: int)
    ensures Refined(parts, separators, n, 0).Done?
    decreases |separators|, 1, |parts|
  {
    hide SplitBy, Blank;
    if parts != [] {
      NoOverlapIsDone(parts[0], separators, n);
      NoOverlapRefined(parts[1..], separators, n);
    }
  }

  lemma {:induction false} NoFirstRune(a: string, b: string, sep: string, i: nat)
    requires sep != "" && sep[0] !in a && i <= |a|
    ensures IndexFrom(a, sep, i) == |a|
    ensures sep <= b ==> IndexFrom(a + b, sep, i) == |a|
    decreases |a| - i
  {
    var s := a + b;
    if i < |a| {
      NoFirstRune(a, b, sep, i + 1);
      assert s[i] == a[i] != sep[0];
      assert i + |sep| <= |s| ==> s[i..i + |sep|][0] != sep[0];
      assert i + |sep| <= |a| ==> a[i..i + |sep|][0] != sep[0];
    } else if sep <= b {
      assert s[i..i + |sep|] == b[..|sep|] == sep;
    }
  }

  /** A text with one separator is split into what is before and behind it. */
  lemma SplitInTwo(a: string, b: string, sep: string)
    requires sep != "" && sep[0] !in a && sep[0] !in b
    ensures Split(a + sep + b, sep) == [a, b]
  {
    var text := a + (sep + b);
    assert text == a + sep + b;
    assert sep <= sep + b;
    NoFirstRune(a, sep + b, sep, 0);
    NoFirstRune(b, "", sep, 0);
    assert text[..|a|] == a && text[|a| + |sep|..] == b;
    assert Split(b, sep) == [b];
  }

  lemma {:induction false} KeptAsTheyAre(a: string, b: string, separators: seq<string>, n: nat, overlap: nat)
    requires !Blank(a) && !Blank(b) && |a| <= n && |b| <= n
    ensures Refined([a, b], separators, n, overlap) == Done([a, b])
  {
    hide SplitBy, Blank;
    assert [a, b][1..] == [b] && [b][1..] == [];
    assert Refined([b], separators, n, overlap) == Both(Done([b]), Done([]));
  }

  /** Any text of two parts that fit, but not together, around the first separator: with any overlap the
      strategy never comes back. */
  lemma TwoPartsAreEndless(a: string, b: string, separators: seq<string>, n: nat, overlap: nat)
    requires separators != [] && separators[0] != "" && separators[0][0] !in a && separators[0][0] !in b
    requires !Blank(a) && !Blank(b) && |a| <= n && |b| <= n < |a| + |separators[0]| + |b| && overlap > 0
    ensures SplitBy(a + separators[0] + b, separators, n, overlap) == Endless
  {
    var sep := separators[0];
    SplitInTwo(a, b, sep);
    KeptAsTheyAre(a, b, separators[1..], n, overlap);
    TwoPartsStand(a, b, sep, n, overlap);
    hide Split, Refined, Advances, Blank;
  }

  lemma TwoPartsStand(a: string, b: string, sep: string, n: nat, overlap: nat)
    requires !Blank(a) && |a| <= n < |a| + |sep| + |b| && overlap > 0
    ensures !Advances([a, b], sep, n, overlap, 0)
  {
    assert a != "";
    LoneFirstPartIsStuck([a, b], sep, n, overlap);
    StuckStops([a, b], sep, n, overlap, 0);
  }

  /** Such a text, for the default separators. */
  lemma ParagraphsAreEndless()
    ensures SplitBy("aaa\n\nbbb", ["\n\n", "\n", " ", ""], 5, 1) == Endless
  {
    var a, b := "aaa", "bbb";
    assert a[0] in a && b[0] in b && !Blank(a) && !Blank(b);
    TwoPartsAreEndless(a, b, ["\n\n", "\n", " ", ""], 5, 1);
    assert a + "\n\n" + b == "aaa\n\nbbb";
    hide SplitBy;
  }
}
