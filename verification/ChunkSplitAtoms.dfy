/** The chunker's recursive strategy cuts by runes only as a last resort: where it comes back, every atom that
    fits is whole in one chunk. */
module ChunkSplitAtoms {
  import opened Common
  import opened Text
  import opened Stretches
  import opened RecursiveCharacterProofs
  import opened RecursiveCharacterAtoms
  import opened ChunkMerge
  import opened ChunkSplit

  lemma FirstChunk(parts: seq<string>, sep: string, n: nat, overlap: nat, i: nat)
    requires i < |parts| && Advances(parts, sep, n, overlap, i)
    ensures var next := NextAt(parts, sep, n, overlap, i);
      && i < next <= BlockEnd(parts, sep, n, i) && Advances(parts, sep, n, overlap, next)
      && ChunksFrom(parts, sep, n, overlap, i)
        == [ChunkAt(parts, sep, n, i)] + ChunksFrom(parts, sep, n, overlap, next)
  {
    hide ChunkAt, NextAt, Stuck;
  }

  lemma {:induction false} ChunksHold(parts: seq<string>, sep: string, n: nat, overlap: nat, i: nat, part: string,
      w: string) returns (c: string)
    requires Sized(parts, n) && i <= |parts| && Advances(parts, sep, n, overlap, i)
    requires part in parts[i..] && Holds(part, w)
    ensures c in ChunksFrom(parts, sep, n, overlap, i) && Holds(c, w)
    decreases |parts| - i
  {
    hide *;
    FirstChunk(parts, sep, n, overlap, i);
    BlockFits(parts, sep, n, i);
    var next, end := NextAt(parts, sep, n, overlap, i), BlockEnd(parts, sep, n, i);
    SliceAndMore(parts, i, end, |parts|);
    ToTheEnd(parts, i);
    ToTheEnd(parts, end);
    if part in parts[i..end] {
      c := ChunkAt(parts, sep, n, i);
      JoinHolds(parts[i..end], sep, part, w);
    } else {
      SliceAndMore(parts, next, end, |parts|);
      ToTheEnd(parts, next);
      c := ChunksHold(parts, sep, n, overlap, next, part, w);
    }
  }

  lemma MergeHolds(parts: seq<string>, sep: string, n: nat, overlap: nat, part: string, w: string)
    returns (c: string)
    requires n > 0 && Sized(parts, n) && MergeOutcome(parts, sep, n, overlap).Done?
    requires part in parts && Holds(part, w)
    ensures c in MergeOutcome(parts, sep, n, overlap).chunks && Holds(c, w)
  {
    hide Advances, ChunksFrom, Sized, Holds;
    Whole(parts);
    c := ChunksHold(parts, sep, n, overlap, 0, part, w);
  }

  lemma ShortByRunes(text: string, n: nat, overlap: nat)
    requires text != "" && |text| <= n && ByRunes(text, n, overlap).Done?
    ensures text in ByRunes(text, n, overlap).chunks
  {
    hide ChunkAt, Advances, ChunksFrom, Runes, Join;
    FirstChunk(Runes(text), "", n, overlap, 0);
    RuneChunk(text, n, 0);
    Whole(text);
  }

  lemma {:induction false} RefinedTakes(parts: seq<string>, separators: seq<string>, n: nat, overlap: nat,
      part: string)
    requires part in parts && Refined(parts, separators, n, overlap).Done?
    ensures var (one, all) := (RefinedPart(part, separators, n, overlap), Refined(parts, separators, n, overlap));
      one.Done? && forall c <- one.chunks :: c in all.chunks
    decreases |parts|
  {
    hide RefinedPart;
    if part != parts[0] {
      RefinedTakes(parts[1..], separators, n, overlap, part);
    }
  }

  lemma PartChunks(part: string, separators: seq<string>, n: nat, overlap: nat)
    requires !Blank(part)
    ensures RefinedPart(part, separators, n, overlap)
         == if |part| > n then SplitBy(part, separators, n, overlap) else Done([part])
  {
    hide Blank, SplitBy;
  }

  lemma SplitStep(text: string, separators: seq<string>, n: nat, overlap: nat)
    requires text != "" && separators != [] && SplitBy(text, separators, n, overlap).Done?
    ensures var (sep, rest, r) := (separators[0], separators[1..], SplitBy(text, separators, n, overlap));
      var parts := PartsOf(text, sep);
      if |parts| == 1 then r == SplitBy(text, rest, n, overlap)
      else
        && Refined(parts, rest, n, overlap).Done?
        && r == MergeOutcome(Refined(parts, rest, n, overlap).chunks, sep, n, overlap)
  {
    hide PartsOf, Refined, MergeOutcome;
  }

  lemma AtomsStep(text: string, separators: seq<string>, w: string) returns (part: string)
    requires separators != [] && w in Atoms(text, separators)
    ensures part in PartsOf(text, separators[0]) && w in Atoms(part, separators[1..])
    ensures |PartsOf(text, separators[0])| == 1 ==> part == text
  {
    hide Split;
    if separators[0] == "" {
      part := text;
    } else {
      part := AtomIsOfPart(Split(text, separators[0]), separators[1..], w);
      if |Split(text, separators[0])| == 1 {
        OnePart(text, separators[0]);
      }
    }
  }

  /** An atom that is not blank and fits occurs whole in one chunk. */
  lemma {:induction false} AtomStaysWhole(text: string, separators: seq<string>, n: nat, overlap: nat, w: string)
    returns (c: string)
    requires w in Atoms(text, separators) && !Blank(w) && |w| <= n
    requires SplitBy(text, separators, n, overlap).Done?
    ensures c in SplitBy(text, separators, n, overlap).chunks && Holds(c, w)
    decreases |separators|
  {
    NotBlank(text, separators, w);
    if separators == [] {
      ShortByRunes(text, n, overlap);
      HoldsItself(w);
      c := text;
      hide *;
      return;
    }
    hide *;
    SplitStep(text, separators, n, overlap);
    var sep, rest := separators[0], separators[1..];
    var part := AtomsStep(text, separators, w);
    var parts := PartsOf(text, sep);
    if |parts| == 1 {
      c := AtomStaysWhole(text, rest, n, overlap, w);
      return;
    }
    AtomIsHeld(part, rest, w);
    HeldIsShorter(part, w);
    RefinedTakes(parts, rest, n, overlap, part);
    PartChunks(part, rest, n, overlap);
    var whole := part;
    if |part| > n {
      whole := AtomStaysWhole(part, rest, n, overlap, w);
    }
    RefinedIsSized(parts, rest, n, overlap);
    c := MergeHolds(Refined(parts, rest, n, overlap).chunks, sep, n, overlap, whole, w);
  }

  lemma NotBlank(text: string, separators: seq<string>, w: string)
    requires w in Atoms(text, separators) && !Blank(w)
    ensures text != "" && w != ""
  {
    EmptyIsBlank();
    hide *;
    AtomIsHeld(text, separators, w);
    HeldIsShorter(text, w);
  }

  /** A stretch of the text that fits, is not blank, holds no rune of a separator and lies between separators of
      one rune (or ends of the text) occurs whole in one chunk. */
  lemma StretchStaysWhole(before: string, w: string, after: string, separators: seq<string>, n: nat, overlap: nat)
    returns (c: string)
    requires |w| <= n && !Blank(w) && forall sep <- separators :: forall r <- w :: r !in sep
    requires EndsAtSeparator(before, separators) && StartsAtSeparator(after, separators)
    requires SplitBy(before + w + after, separators, n, overlap).Done?
    ensures c in SplitBy(before + w + after, separators, n, overlap).chunks && Holds(c, w)
  {
    EmptyIsBlank();
    hide *;
    StretchIsAtom(before, w, after, separators);
    c := AtomStaysWhole(before + w + after, separators, n, overlap, w);
  }
}
