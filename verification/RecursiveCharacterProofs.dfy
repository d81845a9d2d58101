/** What recursiveSplit and mergeParts guarantee: bounded non-empty chunks, nothing of substance
    lost, and as few chunks as possible. */
module RecursiveCharacterProofs {
  import opened Common
  import opened Text
  import opened RecursiveCharacter

  /** Neither empty nor over-long. */
  predicate Sized(ss: seq<string>, n: int) { forall s <- ss :: 0 < |s| <= n }

  // ----- lengths of joins

  lemma {:induction false} JoinPrefix(ss: seq<string>, sep: string, k: nat)
    requires k < |ss|
    ensures |Join(ss[..k + 1], sep)| == |Join(ss[..k], sep)| + (if k > 0 then |sep| else 0) + |ss[k]|
  {
    if k == 0 {
      assert ss[..1] == [ss[0]] && ss[..0] == [];
    } else {
      JoinPrefix(ss[1..], sep, k - 1);
      assert ss[..k + 1][1..] == ss[1..][..k];
      assert ss[..k][1..] == ss[1..][..k - 1];
      assert ss[..k + 1][0] == ss[..k][0] == ss[0];
    }
  }

  lemma {:induction false} LongerPrefixIsLonger(ss: seq<string>, sep: string, j: nat, k: nat)
    requires j <= k <= |ss|
    ensures |Join(ss[..j], sep)| <= |Join(ss[..k], sep)|
    decreases k
  {
    if j < k {
      JoinPrefix(ss, sep, k - 1);
      LongerPrefixIsLonger(ss, sep, j, k - 1);
    }
  }

  lemma {:induction false} SuffixIsShorter(ss: seq<string>, sep: string, d: nat)
    requires d <= |ss|
    ensures |Join(ss[d..], sep)| <= |Join(ss, sep)|
    decreases d
  {
    if d > 0 {
      assert ss[d..] == ss[1..][d - 1..];
      SuffixIsShorter(ss[1..], sep, d - 1);
    } else {
      assert ss[d..] == ss;
    }
  }

  // ----- a block is the longest prefix that fits

  lemma {:induction false} ExtendIsMaximal(parts: seq<string>, sep: string, n: int, taken: nat, size: nat)
    requires Sized(parts, n) && taken <= |parts|
    requires size == |Join(parts[..taken], sep)| <= n && (taken == 0 <==> size == 0)
    ensures var k := Extend(parts, |sep|, n, taken, size);
      && |Join(parts[..k], sep)| <= n
      && (k < |parts| ==> |Join(parts[..k + 1], sep)| > n)
    decreases |parts| - taken
  {
    if taken < |parts| {
      hide Join;
      JoinPrefix(parts, sep, taken);
      var longer := |Join(parts[..taken + 1], sep)|;
      assert 0 < |parts[taken]| <= n;
      if longer <= n || size == 0 {
        ExtendIsMaximal(parts, sep, n, taken + 1, longer);
      }
    }
  }

  lemma BlockIsMaximal(parts: seq<string>, sep: string, n: int)
    requires Sized(parts, n) && parts != []
    ensures var k := BlockSize(parts, sep, n);
      && 0 < k && 0 < |Join(parts[..k], sep)| <= n
      && (forall m | k < m <= |parts| :: |Join(parts[..m], sep)| > n)
      && MergeParts(parts, sep, n) == [Join(parts[..k], sep)] + MergeParts(parts[k..], sep, n)
  {
    var k := BlockSize(parts, sep, n);
    assert 0 < |parts[0]| <= n;
    assert parts[..0] == [];
    ExtendIsMaximal(parts, sep, n, 0, 0);
    forall m | k < m <= |parts|
      ensures |Join(parts[..m], sep)| > n
    {
      LongerPrefixIsLonger(parts, sep, k + 1, m);
    }
    JoinPrefix(parts, sep, 0);
    LongerPrefixIsLonger(parts, sep, 1, k);
    if k == 1 {
      assert parts[..1][0] == parts[0];
    }
  }

  lemma {:induction false} MergeIsSized(parts: seq<string>, sep: string, n: int)
    requires Sized(parts, n)
    ensures Sized(MergeParts(parts, sep, n), n)
    decreases |parts|
  {
    if parts != [] {
      BlockIsMaximal(parts, sep, n);
      MergeIsSized(parts[BlockSize(parts, sep, n)..], sep, n);
    }
  }

  // ----- greedy merging is optimal

  function Flatten<T>(gs: seq<seq<T>>): seq<T> {
    if gs == [] then [] else gs[0] + Flatten(gs[1..])
  }

  lemma SizedSuffix(ss: seq<string>, n: int, d: nat)
    requires Sized(ss, n) && d <= |ss|
    ensures Sized(ss[d..], n)
  {
  }

  /** A block that starts inside another one reaches at least as far. */
  lemma LaterBlockReachesAsFar(parts: seq<string>, sep: string, n: int, d: nat)
    requires Sized(parts, n) && d < |parts|
    ensures BlockSize(parts, sep, n) <= d + BlockSize(parts[d..], sep, n)
  {
    hide *;
    var k := BlockSize(parts, sep, n);
    if d < k {
      SizedSuffix(parts, n, d);
      BlockIsMaximal(parts, sep, n);
      BlockIsMaximal(parts[d..], sep, n);
      SliceOfTail(parts, d, k - d);
      TailOfPrefix(parts, k, d);
      SuffixIsShorter(parts[..k], sep, d);
    }
  }

  lemma NothingMerged(sep: string, n: int)
    ensures MergeParts([], sep, n) == []
  {
  }

  /** Starting later never takes more blocks. */
  lemma {:induction false} LaterStartTakesNoMore(parts: seq<string>, sep: string, n: int, d: nat)
    requires Sized(parts, n) && d <= |parts|
    ensures |MergeParts(parts[d..], sep, n)| <= |MergeParts(parts, sep, n)|
    decreases |parts|
  {
    hide *;
    Whole(parts);
    if d == |parts| {
      NothingMerged(sep, n);
    } else if d > 0 {
      BlockIsMaximal(parts, sep, n);
      var k := BlockSize(parts, sep, n);
      var later, rest := parts[d..], parts[k..];
      SizedSuffix(parts, n, k);
      SizedSuffix(parts, n, d);
      if d >= k {
        TailOfTail(parts, k, d - k);
        LaterStartTakesNoMore(rest, sep, n, d - k);
      } else {
        BlockIsMaximal(later, sep, n);
        LaterBlockReachesAsFar(parts, sep, n, d);
        var j := BlockSize(later, sep, n);
        TailOfTail(parts, d, j);
        TailOfTail(parts, k, d + j - k);
        LaterStartTakesNoMore(rest, sep, n, d + j - k);
      }
    }
  }

  /** mergeParts makes the fewest chunks of any in-order grouping whose groups fit. */
  lemma {:induction false} MergeIsOptimal(parts: seq<string>, sep: string, n: int, gs: seq<seq<string>>)
    requires Sized(parts, n) && Flatten(gs) == parts
    requires forall g <- gs :: |Join(g, sep)| <= n
    ensures |MergeParts(parts, sep, n)| <= |gs|
    decreases |gs|
  {
    if parts != [] {
      var m := |gs[0]|;
      var tail := parts[m..];
      assert gs[0] == parts[..m] && Flatten(gs[1..]) == tail;
      SizedSuffix(parts, n, m);
      BlockIsMaximal(parts, sep, n);
      hide *;
      var k := BlockSize(parts, sep, n);
      assert m <= k;
      var rest := k - m;
      assert parts[k..] == tail[rest..];
      MergeIsOptimal(tail, sep, n, gs[1..]);
      LaterStartTakesNoMore(tail, sep, n, rest);
    }
  }

  /** The chunks that a grouping stands for. */
  function JoinAll(gs: seq<seq<string>>, sep: string): seq<string> {
    if gs == [] then [] else [Join(gs[0], sep)] + JoinAll(gs[1..], sep)
  }

  /** The groups that mergeParts makes. */
  function MergeGroups(parts: seq<string>, sep: string, n: int): seq<seq<string>>
    decreases |parts|
  {
    if parts == [] then []
    else
      var k := BlockSize(parts, sep, n);
      [parts[..k]] + MergeGroups(parts[k..], sep, n)
  }

  lemma {:induction false} MergeGroupsFlatten(parts: seq<string>, sep: string, n: int)
    ensures Flatten(MergeGroups(parts, sep, n)) == parts
    decreases |parts|
  {
    if parts != [] {
      hide Extend;
      var k := BlockSize(parts, sep, n);
      MergeGroupsFlatten(parts[k..], sep, n);
      assert parts == parts[..k] + parts[k..];
    }
  }

  /** ... and it is such a grouping itself. */
  lemma {:induction false} MergeIsGrouping(parts: seq<string>, sep: string, n: int)
    requires Sized(parts, n)
    ensures JoinAll(MergeGroups(parts, sep, n), sep) == MergeParts(parts, sep, n)
    ensures Flatten(MergeGroups(parts, sep, n)) == parts
    decreases |parts|
  {
    MergeGroupsFlatten(parts, sep, n);
    if parts != [] {
      BlockIsMaximal(parts, sep, n);
      hide MergeParts, Extend, Join, Sized, Flatten;
      var k := BlockSize(parts, sep, n);
      SizedSuffix(parts, n, k);
      MergeIsGrouping(parts[k..], sep, n);
    }
  }

  // ----- what recursiveSplit keeps

  lemma {:induction false} HardSplitIsSized(text: string, n: int)
    requires n > 0
    ensures Sized(HardSplit(text, n), n)
    ensures Concat(HardSplit(text, n)) == text
    decreases |text|
  {
    if |text| > n {
      HardSplitIsSized(text[n..], n);
      assert text == text[..n] + text[n..];
    } else if text != "" {
      assert Concat([text]) == text + Concat([]) == text;
    }
  }

  /** Every chunk is non-empty and at most n runes long. */
  lemma {:induction false} SplitIsSized(text: string, separators: seq<string>, n: int)
    requires n > 0
    ensures Sized(RecursiveSplit(text, separators, n), n)
    decreases |separators|, 0
  {
    if text != "" && |text| > n {
      if separators == [] {
        HardSplitIsSized(text, n);
      } else {
        var sep := separators[0];
        var parts := if sep == "" then [text] else Split(text, sep);
        SplitIsSized(text, separators[1..], n);
        RefineIsSized(parts, separators[1..], n);
        MergeIsSized(Refine(parts, separators[1..], n), sep, n);
      }
    }
  }

  lemma {:induction false} RefineIsSized(parts: seq<string>, separators: seq<string>, n: int)
    requires n > 0
    ensures Sized(Refine(parts, separators, n), n)
    decreases |separators|, 1, |parts|
  {
    if parts != [] {
      if |parts[0]| > n {
        SplitIsSized(parts[0], separators, n);
      }
      RefineIsSized(parts[1..], separators, n);
    }
  }

  lemma EssenceConcat(a: seq<string>, b: seq<string>, drop: set<char>)
    ensures Essence(Concat(a + b), drop) == Essence(Concat(a), drop) + Essence(Concat(b), drop)
  {
    ConcatAppend(a, b);
    EssenceAppend(Concat(a), Concat(b), drop);
  }

  lemma ConcatOne(s: string)
    ensures Concat([s]) == s
  {
    assert Concat([s]) == s + Concat([]) == s;
  }

  lemma BlockKeepsEssence(block: seq<string>, sep: string, n: int, drop: set<char>)
    requires Dropped(sep, drop) && n > 0
    ensures Essence(Concat(BlockChunks(block, sep, n)), drop) == Essence(Concat(block), drop)
  {
    EssenceJoin(block, sep, drop);
    if |block| == 1 && |block[0]| > n {
      HardSplitIsSized(block[0], n);
      ConcatOne(block[0]);
    } else {
      ConcatOne(Join(block, sep));
    }
  }

  lemma {:induction false} MergeKeepsEssence(parts: seq<string>, sep: string, n: int, drop: set<char>)
    requires Dropped(sep, drop)
    ensures Essence(Concat(MergeParts(parts, sep, n)), drop) == Essence(Concat(parts), drop)
    decreases |parts|
  {
    if parts == [] {
    } else if n <= 0 {
      EssenceJoin(parts, sep, drop);
      ConcatOne(Join(parts, sep));
    } else {
      hide Extend, Essence, Concat, BlockChunks;
      var k := BlockSize(parts, sep, n);
      BlockKeepsEssence(parts[..k], sep, n, drop);
      MergeKeepsEssence(parts[k..], sep, n, drop);
      EssenceConcat(BlockChunks(parts[..k], sep, n), MergeParts(parts[k..], sep, n), drop);
      EssenceConcat(parts[..k], parts[k..], drop);
      assert parts == parts[..k] + parts[k..];
    }
  }

  ghost predicate AllDropped(separators: seq<string>, drop: set<char>) {
    forall sep <- separators :: Dropped(sep, drop)
  }

  /** Every rune that is neither white space nor in a separator is kept, in order. */
  lemma {:induction false} SplitKeepsEssence(text: string, separators: seq<string>, n: int, drop: set<char>)
    requires AllDropped(separators, drop)
    ensures Essence(Concat(RecursiveSplit(text, separators, n)), drop) == Essence(text, drop)
    decreases |separators|, 0
  {
    if text == "" {
    } else if n <= 0 || |text| <= n {
      ConcatOne(text);
    } else if separators == [] {
      HardSplitIsSized(text, n);
    } else {
      var sep := separators[0];
      SplitKeepsEssence(text, separators[1..], n, drop);
      if sep != "" {
        var parts := Split(text, sep);
        var refined := Refine(parts, separators[1..], n);
        JoinSplit(text, sep);
        EssenceJoin(parts, sep, drop);
        RefineKeepsEssence(parts, separators[1..], n, drop);
        MergeKeepsEssence(refined, sep, n, drop);
      }
    }
  }

  lemma {:induction false} RefineKeepsEssence(parts: seq<string>, separators: seq<string>, n: int, drop: set<char>)
    requires AllDropped(separators, drop)
    ensures Essence(Concat(Refine(parts, separators, n)), drop) == Essence(Concat(parts), drop)
    decreases |separators|, 1, |parts|
  {
    if parts != [] {
      var p, rest := parts[0], parts[1..];
      RefineKeepsEssence(rest, separators, n, drop);
      EssenceConcat([p], rest, drop);
      assert parts == [p] + rest;
      ConcatOne(p);
      if Blank(p) {
        DroppedHasNoEssence(p, drop);
        assert Refine(parts, separators, n) == Refine(rest, separators, n);
      } else if |p| > n {
        SplitKeepsEssence(p, separators, n, drop);
        EssenceConcat(RecursiveSplit(p, separators, n), Refine(rest, separators, n), drop);
      } else {
        EssenceConcat([p], Refine(rest, separators, n), drop);
      }
    }
  }

  // ----- something always survives

  /** Some string holds a rune that is not white space. */
  ghost predicate SomeNotBlank(ss: seq<string>) { exists k :: 0 <= k < |ss| && !Blank(ss[k]) }

  lemma BlankAppend(a: string, b: string)
    ensures Blank(a + b) <==> Blank(a) && Blank(b)
  {
    assert forall i | 0 <= i < |a| :: a[i] == (a + b)[i];
    assert forall i | 0 <= i < |b| :: b[i] == (a + b)[|a| + i];
  }

  lemma SomeAppend(a: seq<string>, b: seq<string>)
    ensures SomeNotBlank(a + b) <==> SomeNotBlank(a) || SomeNotBlank(b)
  {
    hide Blank;
    assert forall k | 0 <= k < |a| :: a[k] == (a + b)[k];
    assert forall k | 0 <= k < |b| :: b[k] == (a + b)[|a| + k];
  }

  lemma SomeFirst(ss: seq<string>)
    requires ss != []
    ensures SomeNotBlank(ss) <==> !Blank(ss[0]) || SomeNotBlank(ss[1..])
  {
    hide Blank;
    assert ss == [ss[0]] + ss[1..];
    SomeAppend([ss[0]], ss[1..]);
    assert SomeNotBlank([ss[0]]) <==> !Blank(ss[0]) by {
      assert [ss[0]][0] == ss[0];
    }
  }

  lemma {:induction false} ConcatNotBlank(ss: seq<string>)
    ensures Blank(Concat(ss)) <==> !SomeNotBlank(ss)
  {
    if ss != [] {
      SomeFirst(ss);
      BlankAppend(ss[0], Concat(ss[1..]));
      ConcatNotBlank(ss[1..]);
    }
  }

  lemma {:induction false} JoinNotBlank(ss: seq<string>, sep: string)
    requires SomeNotBlank(ss)
    ensures !Blank(Join(ss, sep))
  {
    SomeFirst(ss);
    if |ss| > 1 {
      BlankAppend(ss[0] + sep, Join(ss[1..], sep));
      BlankAppend(ss[0], sep);
      if SomeNotBlank(ss[1..]) {
        JoinNotBlank(ss[1..], sep);
      }
    }
  }

  lemma BlockSurvives(block: seq<string>, sep: string, n: int)
    requires SomeNotBlank(block) && n > 0
    ensures SomeNotBlank(BlockChunks(block, sep, n))
  {
    SomeFirst(block);
    if |block| == 1 && |block[0]| > n {
      HardSplitIsSized(block[0], n);
      ConcatNotBlank(HardSplit(block[0], n));
    } else {
      JoinNotBlank(block, sep);
      SomeFirst([Join(block, sep)]);
    }
  }

  lemma {:induction false} MergeSurvives(parts: seq<string>, sep: string, n: int)
    requires SomeNotBlank(parts) && n > 0
    ensures SomeNotBlank(MergeParts(parts, sep, n))
    decreases |parts|
  {
    assert parts != [];
    hide Extend, BlockChunks, SomeNotBlank;
    SomeFirst(parts);
    var k := BlockSize(parts, sep, n);
    assert parts == parts[..k] + parts[k..];
    SomeAppend(parts[..k], parts[k..]);
    SomeAppend(BlockChunks(parts[..k], sep, n), MergeParts(parts[k..], sep, n));
    if SomeNotBlank(parts[..k]) {
      BlockSurvives(parts[..k], sep, n);
    } else {
      MergeSurvives(parts[k..], sep, n);
    }
  }

  /** A text that is not blank has a chunk that is not blank. */
  lemma {:induction false} SplitSurvives(text: string, separators: seq<string>, n: int)
    requires !Blank(text) && n > 0
    ensures SomeNotBlank(RecursiveSplit(text, separators, n))
    decreases |separators|, 0
  {
    if |text| <= n {
      SomeFirst([text]);
    } else if separators == [] {
      HardSplitIsSized(text, n);
      ConcatNotBlank(HardSplit(text, n));
    } else {
      var sep := separators[0];
      var parts := if sep == "" then [text] else Split(text, sep);
      SplitSurvives(text, separators[1..], n);
      var refined := Refine(parts, separators[1..], n);
      RefineSurvives(parts, separators[1..], n);
      if SomeNotBlank(parts) {
        MergeSurvives(refined, sep, n);
      }
    }
  }

  lemma {:induction false} RefineSurvives(parts: seq<string>, separators: seq<string>, n: int)
    requires n > 0
    ensures SomeNotBlank(parts) ==> SomeNotBlank(Refine(parts, separators, n))
    ensures !SomeNotBlank(parts) ==> Refine(parts, separators, n) == []
    decreases |separators|, 1, |parts|
  {
    if parts != [] {
      var p, rest := parts[0], parts[1..];
      hide SomeNotBlank, Blank;
      SomeFirst(parts);
      RefineSurvives(rest, separators, n);
      var first := if Blank(p) then [] else if |p| > n then RecursiveSplit(p, separators, n) else [p];
      SomeAppend(first, Refine(rest, separators, n));
      if !Blank(p) {
        if |p| > n {
          SplitSurvives(p, separators, n);
        } else {
          SomeFirst([p]);
        }
      }
    } else {
      assert !SomeNotBlank(parts);
    }
  }
}
