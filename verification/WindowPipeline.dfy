/** The end of the window-breakpoint mode of aipkg/rag/split/semantic.go, sentence overlap between
    neighbouring groups, and the whole pipeline. */
module WindowPipeline {
  import opened Common
  import opened Text
  import opened RecursiveCharacterProofs
  import opened Sentences
  import opened SemanticGroups
  import opened SmallGroups
  import opened Percentile
  import opened WindowBreakpoint

  // ----- the sentences to repeat

  /** tailSentencesByLen, when sum runes have been taken already: sentences are taken from the end
      until the limit is reached, stopping before one that would pass it. */
  function TailFrom(sentences: Group, limit: int, sum: nat): Group {
    if sentences == [] then []
    else
      var k := |sentences| - 1;
      var s := sentences[k];
      if sum + |s| > limit && sum > 0 then []
      else if sum + |s| >= limit then [s]
      else TailFrom(sentences[..k], limit, sum + |s|) + [s]
  }

  function TailByLen(sentences: Group, limit: int): Group {
    if limit <= 0 then [] else TailFrom(sentences, limit, 0)
  }

  method TailSentencesByLen(sentences: Group, limit: int) returns (tail: Group)
    ensures tail == TailByLen(sentences, limit)
  {
    if limit <= 0 || |sentences| == 0 {
      return [];
    }
    var sum := 0;
    tail := [];
    var i := |sentences| - 1;
    assert sentences[..i + 1] == sentences;
    while i >= 0
      invariant -1 <= i < |sentences| && sum >= 0
      invariant TailFrom(sentences, limit, 0) == TailFrom(sentences[..i + 1], limit, sum) + tail
    {
      var s := sentences[i];
      var l := |s|;
      assert sentences[..i + 1][..i] == sentences[..i];
      if sum + l > limit && sum > 0 {
        break;
      }
      Assoc(TailFrom(sentences[..i], limit, sum + l), [s], tail);
      tail := [s] + tail;
      sum := sum + l;
      if sum >= limit {
        break;
      }
      i := i - 1;
    }
  }

  predicate IsSuffix<T(==)>(t: seq<T>, s: seq<T>) { |t| <= |s| && s[|s| - |t|..] == t }

  /** The tail is a suffix; it is longer than the limit only when its first sentence is all it has but for
      empty sentences, and with sum runes taken before not at all. */
  lemma {:induction false} TailIsSuffix(sentences: Group, limit: int, sum: nat)
    ensures var tail := TailFrom(sentences, limit, sum);
      && IsSuffix(tail, sentences)
      && (sum > 0 ==> sum + GroupLen(tail) <= limit || tail == [])
      && (sum == 0 && GroupLen(tail) > limit ==> tail == [] || GroupLen(tail[1..]) == 0)
  {
    hide *;
    if sentences == [] {
      NoTail(limit, sum);
    } else {
      var k := |sentences| - 1;
      var s := sentences[k];
      var more := TailFrom(sentences[..k], limit, sum + |s|);
      TailTurn(sentences, limit, sum);
      TailIsSuffix(sentences[..k], limit, sum + |s|);
      SuffixPush(more, sentences[..k], s);
      OneMore(sentences, k);
      Whole(sentences);
      GroupLenPush(more, s);
      GroupLenPush([], s);
      NothingAdded([s]);
      PushTail(more, s);
    }
  }

  lemma NoTail(limit: int, sum: nat)
    ensures TailFrom([], limit, sum) == [] && IsSuffix<string>([], []) && GroupLen([]) == 0
  {
  }

  lemma TailTurn(sentences: Group, limit: int, sum: nat)
    requires sentences != []
    ensures var k := |sentences| - 1;
      var s := sentences[k];
      TailFrom(sentences, limit, sum) ==
        if sum + |s| > limit && sum > 0 then []
        else if sum + |s| >= limit then [s]
        else TailFrom(sentences[..k], limit, sum + |s|) + [s]
  {
  }

  lemma SuffixPush<T>(t: seq<T>, s: seq<T>, x: T)
    requires IsSuffix(t, s)
    ensures IsSuffix([], s + [x]) && IsSuffix([x], s + [x]) && IsSuffix(t + [x], s + [x])
  {
    assert (s + [x])[|s| - |t|..] == s[|s| - |t|..] + [x];
  }

  lemma PushTail(g: Group, s: string)
    ensures [s][1..] == [] && (g != [] ==> (g + [s])[1..] == g[1..] + [s])
    ensures GroupLen((g + [s])[1..]) == if g == [] then 0 else GroupLen(g[1..]) + |s|
  {
    if g != [] {
      assert (g + [s])[1..] == g[1..] + [s];
      GroupLenPush(g[1..], s);
    }
  }

  /** The tail is as long as it may be: before it there is nothing left, or the limit is reached, or one
      more sentence would pass it. */
  lemma {:induction false} TailIsMaximal(sentences: Group, limit: int, sum: nat)
    ensures var tail := TailFrom(sentences, limit, sum);
      var k := |sentences| - |tail|;
      && (sum == 0 && sentences != [] ==> tail != [])
      && 0 <= k
      && (k > 0 ==> sum + GroupLen(tail) >= limit || sum + |sentences[k - 1]| + GroupLen(tail) > limit)
  {
    if sentences != [] {
      var last := |sentences| - 1;
      var s := sentences[last];
      var more := TailFrom(sentences[..last], limit, sum + |s|);
      TailIsMaximal(sentences[..last], limit, sum + |s|);
      GroupLenPush(more, s);
      GroupLenPush([], s);
      assert [] + [s] == [s];
    }
  }

  // ----- repeating them

  function Overlapped(prev: Group, cur: Group, limit: int, n: int): Group {
    var tail := TailByLen(prev, limit);
    if GroupLen(tail + cur) > n && tail != [] then cur else tail + cur
  }

  function FollowGroups(prev: Group, rest: seq<Group>, limit: int, n: int): (out: seq<Group>)
    ensures |out| == |rest|
    decreases |rest|
  {
    if rest == [] then []
    else
      var first := Overlapped(prev, rest[0], limit, n);
      [first] + FollowGroups(first, rest[1..], limit, n)
  }

  function AddSentenceOverlap(groups: seq<Group>, limit: int, n: int): (out: seq<Group>)
    ensures |out| == |groups|
  {
    if |groups| <= 1 || limit <= 0 then groups
    else [groups[0]] + FollowGroups(groups[0], groups[1..], limit, n)
  }

  lemma FollowFrom(out: seq<Group>, prev: Group, groups: seq<Group>, i: nat, limit: int, n: int)
    requires i < |groups|
    ensures var next := Overlapped(prev, groups[i], limit, n);
      out + FollowGroups(prev, groups[i..], limit, n) == (out + [next]) + FollowGroups(next, groups[i + 1..], limit, n)
  {
    hide Overlapped;
    assert groups[i..][1..] == groups[i + 1..];
  }

  method ApplySentenceOverlapToGroups(groups: seq<Group>, overlapLimit: int, chunkSize: int) returns (out: seq<Group>)
    ensures out == AddSentenceOverlap(groups, overlapLimit, chunkSize)
  {
    if |groups| <= 1 || overlapLimit <= 0 {
      return groups;
    }
    out := [groups[0]];
    hide FollowGroups, Overlapped;
    for i := 1 to |groups|
      invariant |out| == i
      invariant AddSentenceOverlap(groups, overlapLimit, chunkSize)
             == out + FollowGroups(out[i - 1], groups[i..], overlapLimit, chunkSize)
    {
      FollowFrom(out, out[i - 1], groups, i, overlapLimit, chunkSize);
      var merged := OverlapOne(out[i - 1], groups[i], overlapLimit, chunkSize);
      out := out + [merged];
    }
    assert groups[|groups|..] == [];
  }

  method OverlapOne(last: Group, cur: Group, overlapLimit: int, chunkSize: int) returns (merged: Group)
    ensures merged == Overlapped(last, cur, overlapLimit, chunkSize)
  {
    var tail := TailSentencesByLen(last, overlapLimit);
    merged := tail + cur;
    var len := SentenceGroupLen(merged);
    if len > chunkSize && |tail| > 0 {
      merged := cur;
    }
  }

  /** Every group of out is a suffix of the one before it followed by its own group. */
  predicate Chained(prev: Group, out: seq<Group>, own: seq<Group>)
    requires |out| == |own|
    decreases |own|
  {
    own == [] || (
      && |own[0]| <= |out[0]|
      && out[0] == out[0][..|out[0]| - |own[0]|] + own[0]
      && IsSuffix(out[0][..|out[0]| - |own[0]|], prev)
      && Chained(out[0], out[1..], own[1..]))
  }

  lemma OverlappedIs(prev: Group, cur: Group, limit: int, n: int)
    ensures var r := Overlapped(prev, cur, limit, n);
      && |cur| <= |r| && r == r[..|r| - |cur|] + cur && IsSuffix(r[..|r| - |cur|], prev)
      && (GroupLen(cur) <= n ==> GroupLen(r) <= n)
  {
    TailIsSuffix(prev, limit, 0);
    var r := Overlapped(prev, cur, limit, n);
    var tail := if r == cur then [] else TailByLen(prev, limit);
    assert r == tail + cur;
    assert r[..|r| - |cur|] == tail;
  }

  lemma {:induction false} FollowIsChained(prev: Group, rest: seq<Group>, limit: int, n: int)
    requires AllShort(rest, n)
    ensures var out := FollowGroups(prev, rest, limit, n);
      Chained(prev, out, rest) && AllShort(out, n)
    decreases |rest|
  {
    if rest != [] {
      OverlappedIs(prev, rest[0], limit, n);
      hide Overlapped, GroupLen;
      var first := Overlapped(prev, rest[0], limit, n);
      FollowIsChained(first, rest[1..], limit, n);
      assert FollowGroups(prev, rest, limit, n)[1..] == FollowGroups(first, rest[1..], limit, n);
      ShortAppend([first], FollowGroups(first, rest[1..], limit, n), n);
    }
  }

  lemma {:induction false} UnchangedIsChained(prev: Group, groups: seq<Group>)
    ensures Chained(prev, groups, groups)
    decreases |groups|
  {
    if groups != [] {
      UnchangedIsChained(groups[0], groups[1..]);
    }
  }

  lemma ChainedBegins(first: Group, out: seq<Group>, own: seq<Group>)
    requires |out| == |own| && Chained(first, out, own)
    ensures Chained([], [first] + out, [first] + own)
  {
    assert ([first] + out)[1..] == out && ([first] + own)[1..] == own;
    assert first == first[..0] + first;
  }

  /** After overlap every group still fits, and is a suffix of the previous final group followed
      by its own group; without a limit nothing is repeated. */
  lemma OverlapIsChained(groups: seq<Group>, limit: int, n: int)
    requires AllShort(groups, n)
    ensures var out := AddSentenceOverlap(groups, limit, n);
      Chained([], out, groups) && AllShort(out, n) && (limit <= 0 ==> out == groups)
  {
    if |groups| <= 1 || limit <= 0 {
      UnchangedIsChained([], groups);
    } else {
      OverlapFollows(groups, limit, n);
    }
  }

  lemma FirstShort(groups: seq<Group>, n: int)
    requires groups != [] && AllShort(groups, n)
    ensures AllShort([groups[0]], n) && AllShort(groups[1..], n)
  {
    hide GroupLen;
  }

  lemma OverlapFollows(groups: seq<Group>, limit: int, n: int)
    requires groups != [] && AllShort(groups, n)
    ensures var out := [groups[0]] + FollowGroups(groups[0], groups[1..], limit, n);
      Chained([], out, groups) && AllShort(out, n)
  {
    hide *;
    var first, rest := groups[0], groups[1..];
    FirstShort(groups, n);
    FollowIsChained(first, rest, limit, n);
    var out := FollowGroups(first, rest, limit, n);
    ChainedBegins(first, out, rest);
    ShortAppend([first], out, n);
    FirstAndRest(groups);
  }

  /** The repeated sentences are the whole tail of the previous final group, or none if the group would
      not fit with them. */
  lemma {:induction false} FollowAt(prev: Group, rest: seq<Group>, limit: int, n: int, i: nat)
    requires i < |rest|
    ensures var out := FollowGroups(prev, rest, limit, n);
      var tail := TailByLen(if i == 0 then prev else out[i - 1], limit);
      out[i] == if GroupLen(tail + rest[i]) > n && tail != [] then rest[i] else tail + rest[i]
    decreases |rest|
  {
    FollowIs(prev, rest, limit, n, i);
    hide FollowGroups, TailByLen, GroupLen;
  }

  lemma {:induction false} FollowIs(prev: Group, rest: seq<Group>, limit: int, n: int, i: nat)
    requires i < |rest|
    ensures var out := FollowGroups(prev, rest, limit, n);
      out[i] == Overlapped(if i == 0 then prev else out[i - 1], rest[i], limit, n)
    decreases |rest|
  {
    hide Overlapped;
    if i > 0 {
      FollowIs(Overlapped(prev, rest[0], limit, n), rest[1..], limit, n, i - 1);
    }
  }

  /** The longest tail within the limit; one sentence more only where none at all would fit. */
  ghost predicate IsTail(tail: Group, sentences: Group, limit: int) {
    var k := |sentences| - |tail|;
    && IsSuffix(tail, sentences)
    && (GroupLen(tail) > limit ==> tail != [] && GroupLen(tail[1..]) == 0)
    && (tail != [] ==> GroupLen(tail[1..]) < limit)
    && (sentences != [] ==> tail != [])
    && (k > 0 ==> GroupLen(tail) >= limit || |sentences[k - 1]| + GroupLen(tail) > limit)
  }

  lemma {:induction false} TailStops(sentences: Group, limit: int, sum: nat)
    requires sum < limit
    ensures var tail := TailFrom(sentences, limit, sum);
      tail != [] ==> sum + GroupLen(tail[1..]) < limit
    decreases |sentences|
  {
    hide *;
    if sentences == [] {
      NoTail(limit, sum);
    } else {
      var k := |sentences| - 1;
      var s := sentences[k];
      var more := TailFrom(sentences[..k], limit, sum + |s|);
      TailTurn(sentences, limit, sum);
      PushTail(more, s);
      PushTail([], s);
      NothingAdded([s]);
      if sum + |s| < limit {
        TailStops(sentences[..k], limit, sum + |s|);
      }
    }
  }

  lemma TailIs(sentences: Group, limit: int)
    requires limit > 0
    ensures IsTail(TailByLen(sentences, limit), sentences, limit)
  {
    TailIsSuffix(sentences, limit, 0);
    TailIsMaximal(sentences, limit, 0);
    TailStops(sentences, limit, 0);
    hide TailFrom, IsSuffix;
    assert GroupLen([]) == 0;
  }

  /** With an overlap, every group but the first begins with the longest tail of the final group before it that
      is within the limit, unless the two together would be longer than the chunk size. */
  lemma OverlapAt(groups: seq<Group>, limit: int, n: int, i: nat) returns (tail: Group)
    requires 0 < i < |groups| && limit > 0
    ensures var out := AddSentenceOverlap(groups, limit, n);
      && out[0] == groups[0] && IsTail(tail, out[i - 1], limit)
      && out[i] == if GroupLen(tail + groups[i]) <= n || tail == [] then tail + groups[i] else groups[i]
  {
    var out := AddSentenceOverlap(groups, limit, n);
    FollowAt(groups[0], groups[1..], limit, n, i - 1);
    tail := TailByLen(out[i - 1], limit);
    TailIs(out[i - 1], limit);
    hide FollowGroups, TailByLen, GroupLen, IsTail;
  }

  // ----- what splitting keeps when sentences are over-long

  function EssenceOf(gs: seq<Group>): string { Essence(Concat(Flatten(gs)), PHRASE_MARKS) }

  lemma EssenceOfAppend(a: seq<Group>, b: seq<Group>)
    ensures EssenceOf(a + b) == EssenceOf(a) + EssenceOf(b)
  {
    FlattenAppend(a, b);
    EssenceConcat(Flatten(a), Flatten(b), PHRASE_MARKS);
  }

  lemma EssenceOfGroup(g: Group)
    ensures EssenceOf([g]) == Essence(Concat(g), PHRASE_MARKS)
    ensures EssenceOf(Flushed(g)) == Essence(Concat(g), PHRASE_MARKS)
  {
    FlattenOne(g);
    if g == [] {
      assert Flatten<string>([]) == [];
    }
  }

  lemma {:induction false} SinglesKeepEssence(pieces: seq<string>)
    ensures EssenceOf(Singles(pieces)) == Essence(Concat(pieces), PHRASE_MARKS)
  {
    if pieces == [] {
      assert Flatten<string>([]) == [];
    } else {
      var p := TrimSpace(pieces[0]);
      var first: seq<Group> := if p == "" then [] else [[p]];
      SinglesKeepEssence(pieces[1..]);
      EssenceOfAppend(first, Singles(pieces[1..]));
      EssenceTrim(pieces[0], PHRASE_MARKS);
      EssenceAppend(pieces[0], Concat(pieces[1..]), PHRASE_MARKS);
      EssenceOfGroup([p]);
      ConcatOne(p);
      if p == "" {
        assert Flatten<string>([]) == [] && Essence("", PHRASE_MARKS) == "";
      }
    }
  }

  lemma PackOneKeepsEssence(cur: Group, s: string, n: int)
    requires |s| > n > 0
    ensures EssenceOf(Flushed(cur) + Singles(SplitLongSentence(s, n)))
         == Essence(Concat(cur), PHRASE_MARKS) + Essence(s, PHRASE_MARKS)
  {
    hide *;
    EssenceOfGroup(cur);
    MarksAreDropped();
    LongSentenceKeepsEssence(s, n, PHRASE_MARKS);
    SinglesKeepEssence(SplitLongSentence(s, n));
    EssenceOfAppend(Flushed(cur), Singles(SplitLongSentence(s, n)));
  }

  lemma {:induction false} PackKeepsEssence(cur: Group, rest: Group, n: int)
    requires n > 0
    ensures EssenceOf(Pack(cur, rest, n)) == Essence(Concat(cur + rest), PHRASE_MARKS)
    decreases |rest|
  {
    if rest == [] {
      assert cur + rest == cur;
      EssenceOfGroup(cur);
    } else {
      hide SplitLongSentence, Singles, Essence, Concat, GroupLen, EssenceOf, Flushed;
      var s, more := rest[0], rest[1..];
      assert rest == [s] + more;
      EssenceConcat(cur, rest, PHRASE_MARKS);
      EssenceConcat([s], more, PHRASE_MARKS);
      ConcatOne(s);
      if |s| > n {
        PackOneKeepsEssence(cur, s, n);
        PackKeepsEssence([], more, n);
        assert [] + more == more;
        EssenceOfAppend(Flushed(cur) + Singles(SplitLongSentence(s, n)), Pack([], more, n));
        Assoc(Essence(Concat(cur), PHRASE_MARKS), Essence(s, PHRASE_MARKS), Essence(Concat(more), PHRASE_MARKS));
      } else if GroupLen(cur) + |s| > n && GroupLen(cur) > 0 {
        PackKeepsEssence([s], more, n);
        EssenceOfGroup(cur);
        EssenceOfAppend([cur], Pack([s], more, n));
      } else {
        PackKeepsEssence(cur + [s], more, n);
        Assoc(cur, [s], more);
      }
    }
  }

  /** Splitting loses nothing but white space and phrase marks of over-long sentences. */
  lemma {:induction false} SplitGroupsKeepEssence(groups: seq<Group>, n: int)
    requires n > 0
    ensures EssenceOf(SplitGroups(groups, n)) == EssenceOf(groups)
  {
    if groups != [] {
      var g, rest := groups[0], groups[1..];
      assert groups == [g] + rest;
      SplitGroupsKeepEssence(rest, n);
      PackKeepsEssence([], g, n);
      assert [] + g == g;
      EssenceOfGroup(g);
      hide Pack, EssenceOf;
      assert SplitGroup(g, n) == Flushed(g) || SplitGroup(g, n) == Pack([], g, n);
      EssenceOfAppend([g], rest);
      EssenceOfAppend(SplitGroup(g, n), SplitGroups(rest, n));
    }
  }

  // ----- the pipeline

  /** The groups before overlap. */
  function OwnGroups(sentences: Group, distances: seq<real>, threshold: real, minSize: int, n: int): seq<Group>
    requires |distances| <= |sentences|
  {
    SplitByMaxSize(MergeSmall(Cut(sentences, distances, threshold), minSize, n), n)
  }

  /** The groups after overlap. */
  function FinalGroups(sentences: Group, distances: seq<real>, threshold: real, minSize: int, n: int,
      limit: int): seq<Group>
    requires |distances| <= |sentences|
  {
    AddSentenceOverlap(OwnGroups(sentences, distances, threshold, minSize, n), limit, n)
  }

  function Texts(groups: seq<Group>): seq<string> {
    if groups == [] then [] else (if groups[0] == [] then [] else [Concat(groups[0])]) + Texts(groups[1..])
  }

  /** What the mode returns: a lone sentence as it is. */
  function WindowChunks(sentences: Group, distances: seq<real>, threshold: real, minSize: int, n: int,
      limit: int): seq<string>
    requires |distances| <= |sentences|
  {
    if |sentences| <= 1 then sentences else Texts(FinalGroups(sentences, distances, threshold, minSize, n, limit))
  }

  /** The threshold is the percentile of the distances, where there are any. */
  ghost predicate IsThreshold(threshold: real, distances: seq<real>, percentile: int) {
    distances != [] ==> IsOrderStatistic(distances, Rank(percentile, |distances|), threshold)
  }

  /** There is a distance between any two neighbours. */
  predicate Spaced(sentences: Group, distances: seq<real>) {
    |distances| == if sentences == [] then 0 else |sentences| - 1
  }

  /** semanticSplitWindowBreakpoint, given the distances. */
  method SplitAtBreakpoints(sentences: Group, distances: seq<real>, chunkSize: int, percentile: int,
      minChunkSize: int, overlapLimit: int) returns (out: seq<string>)
    requires Spaced(sentences, distances)
    ensures exists threshold | IsThreshold(threshold, distances, percentile) ::
      out == WindowChunks(sentences, distances, threshold, minChunkSize, chunkSize, overlapLimit)
  {
    if |sentences| == 0 {
      assert IsThreshold(0.0, distances, percentile);
      return [];
    }
    if |sentences| <= 1 {
      ConcatOne(sentences[0]);
      assert sentences == [sentences[0]];
      assert IsThreshold(0.0, distances, percentile);
      return [Concat(sentences)];
    }
    var threshold := PercentileValue(distances, percentile);
    var groups := CutIntoGroups(sentences, distances, threshold);
    groups := MergeSmallSemanticGroups(groups, minChunkSize, chunkSize);
    groups := SplitGroupsByMaxSize(groups, chunkSize);
    groups := ApplySentenceOverlapToGroups(groups, overlapLimit, chunkSize);
    out := JoinGroups(groups);
    assert IsThreshold(threshold, distances, percentile);
    hide *;
  }

  method JoinGroups(groups: seq<Group>) returns (out: seq<string>)
    ensures out == Texts(groups)
  {
    hide *;
    out := [];
    var i := 0;
    Whole(groups);
    NothingAdded(Texts(groups));
    while i < |groups|
      invariant 0 <= i <= |groups| && Texts(groups) == out + Texts(groups[i..])
    {
      TextAdded(out, groups, i);
      if |groups[i]| != 0 {
        out := out + [Concat(groups[i])];
      }
      i := i + 1;
    }
    NoTexts(out);
  }

  lemma TextAdded(out: seq<string>, groups: seq<Group>, i: nat)
    requires i < |groups|
    ensures out + Texts(groups[i..])
         == (if groups[i] == [] then out else out + [Concat(groups[i])]) + Texts(groups[i + 1..])
  {
    NextTail(groups, i);
    Assoc(out, [Concat(groups[i])], Texts(groups[i + 1..]));
    NothingAdded(Texts(groups[i + 1..]));
    hide Concat;
  }

  lemma NoTexts(out: seq<string>)
    ensures out + Texts([]) == out
  {
  }

  lemma MergeSmallKeepsAll(groups: seq<Group>, minSize: int, n: int)
    ensures Flatten(MergeSmall(groups, minSize, n)) == Flatten(groups)
  {
    MergeSmallKeeps([], groups, minSize, n);
  }

  // ----- the pipeline as text

  /** A group of sentences none of which is empty. */
  predicate Filled(g: Group) { forall k | 0 <= k < |g| :: g[k] != "" }

  predicate AllFilled(gs: seq<Group>) { forall k | 0 <= k < |gs| :: Filled(gs[k]) }

  lemma FilledAppend(a: Group, b: Group)
    ensures Filled(a + b) <==> Filled(a) && Filled(b)
  {
    assert forall k | 0 <= k < |a| :: (a + b)[k] == a[k];
    assert forall k | 0 <= k < |b| :: (a + b)[|a| + k] == b[k];
  }

  lemma AllFilledAppend(a: seq<Group>, b: seq<Group>)
    requires AllFilled(a) && AllFilled(b)
    ensures AllFilled(a + b)
  {
    hide Filled;
  }

  lemma {:induction false} FilledFlatten(gs: seq<Group>)
    requires Filled(Flatten(gs))
    ensures AllFilled(gs)
  {
    if gs != [] {
      FilledAppend(gs[0], Flatten(gs[1..]));
      FilledFlatten(gs[1..]);
      hide Filled;
      assert forall k | 0 < k < |gs| :: gs[k] == gs[1..][k - 1];
    }
  }

  lemma {:induction false} SinglesAreFilled(pieces: seq<string>)
    ensures AllFilled(Singles(pieces))
  {
    if pieces != [] {
      hide TrimSpace;
      SinglesAreFilled(pieces[1..]);
    }
  }

  lemma {:induction false} PackIsFilled(cur: Group, rest: Group, n: int)
    requires Filled(cur) && Filled(rest)
    ensures AllFilled(Pack(cur, rest, n))
    decreases |rest|
  {
    if rest != [] {
      var s := rest[0];
      FilledAppend(cur, [s]);
      assert Filled([s]) && Filled(rest[1..]) && Filled([]);
      hide SplitLongSentence, Singles, GroupLen, Filled;
      if |s| > n {
        SinglesAreFilled(SplitLongSentence(s, n));
        PackIsFilled([], rest[1..], n);
        AllFilledAppend(Flushed(cur), Singles(SplitLongSentence(s, n)));
        AllFilledAppend(Flushed(cur) + Singles(SplitLongSentence(s, n)), Pack([], rest[1..], n));
      } else if GroupLen(cur) + |s| > n && GroupLen(cur) > 0 {
        PackIsFilled([s], rest[1..], n);
        AllFilledAppend([cur], Pack([s], rest[1..], n));
      } else {
        PackIsFilled(cur + [s], rest[1..], n);
      }
    }
  }

  lemma {:induction false} SplitGroupsAreFilled(groups: seq<Group>, n: int)
    requires AllFilled(groups)
    ensures AllFilled(SplitGroups(groups, n))
  {
    if groups != [] {
      PackIsFilled([], groups[0], n);
      SplitGroupsAreFilled(groups[1..], n);
      hide Pack, Filled, GroupLen;
      AllFilledAppend(SplitGroup(groups[0], n), SplitGroups(groups[1..], n));
    }
  }

  lemma {:induction false} ChainedIsFilled(prev: Group, out: seq<Group>, own: seq<Group>)
    requires |out| == |own| && Chained(prev, out, own) && Filled(prev) && AllFilled(own)
    ensures AllFilled(out)
    decreases |own|
  {
    if own != [] {
      var taken := out[0][..|out[0]| - |own[0]|];
      FilledAppend(prev[..|prev| - |taken|], taken);
      assert prev == prev[..|prev| - |taken|] + taken;
      FilledAppend(taken, own[0]);
      hide Filled;
      ChainedIsFilled(out[0], out[1..], own[1..]);
      assert forall k | 0 < k < |out| :: out[k] == out[1..][k - 1];
    }
  }

  /** A group as text is as long as its sentences together. */
  lemma {:induction false} ConcatLength(g: Group)
    ensures |Concat(g)| == GroupLen(g)
  {
    if g != [] {
      ConcatLength(g[1..]);
    }
  }

  lemma {:induction false} TextsAreSized(groups: seq<Group>, n: int)
    requires AllShort(groups, n) && AllFilled(groups)
    ensures Sized(Texts(groups), n)
  {
    if groups != [] {
      var g := groups[0];
      ConcatLength(g);
      assert Filled(g) && GroupLen(g) <= n;
      assert g != [] ==> GroupLen(g) > 0 by {
        assert g != [] ==> g[0] != "";
      }
      hide Filled, GroupLen, Concat;
      assert AllShort(groups[1..], n) && AllFilled(groups[1..]);
      TextsAreSized(groups[1..], n);
    }
  }

  lemma {:induction false} ConcatTexts(groups: seq<Group>)
    ensures Concat(Texts(groups)) == Concat(Flatten(groups))
  {
    if groups == [] {
      assert Flatten(groups) == [] && Texts(groups) == [];
    } else {
      ConcatTexts(groups[1..]);
      ConcatAppend(groups[0], Flatten(groups[1..]));
      var first := if groups[0] == [] then [] else [Concat(groups[0])];
      ConcatAppend(first, Texts(groups[1..]));
      ConcatOne(Concat(groups[0]));
    }
  }

  /** The pipeline on two or more sentences, for any distances and thresholds: every final group fits
      the chunk size; it is a suffix of the previous final group followed by its own group; the own
      groups hold the sentences in order, exactly when none is over-long and up to white space and
      phrase marks always; and before splitting there are no more groups than the percentile allows. */
  lemma WindowBreakpointIsSound(sentences: Group, distances: seq<real>, percentile: int, threshold: real,
      minSize: int, n: int, limit: int)
    requires 0 < |distances| < |sentences| && n > 0
    requires IsOrderStatistic(distances, Rank(percentile, |distances|), threshold)
    ensures var own := OwnGroups(sentences, distances, threshold, minSize, n);
      var out := FinalGroups(sentences, distances, threshold, minSize, n, limit);
      && AllShort(out, n) && Chained([], out, own)
      && EssenceOf(own) == Essence(Concat(sentences), PHRASE_MARKS)
      && (NoLongSentence(sentences, n) ==> Flatten(own) == sentences)
      && |Cut(sentences, distances, threshold)| <= |distances| - Rank(percentile, |distances|)
  {
    CutKeepsSentences(sentences, distances, percentile, threshold);
    var cut := Cut(sentences, distances, threshold);
    MergeSmallKeepsAll(cut, minSize, n);
    var merged := MergeSmall(cut, minSize, n);
    hide Cut, MergeSmall, SplitGroups, AddSentenceOverlap, Chained, Flatten, IsOrderStatistic;
    SplitGroupsAreShort(merged, n);
    OverlapIsChained(SplitGroups(merged, n), limit, n);
    SplitGroupsKeepEssence(merged, n);
    if NoLongSentence(sentences, n) {
      SplitGroupsKeep(merged, n);
    }
  }

  /** The stages in their order, each as it is described by itself: cut between neighbours, join small groups by
      the rule if there is a minimum, split what is too long if there is a chunk size. */
  lemma OwnGroupsAre(sentences: Group, distances: seq<real>, threshold: real, minSize: int, n: int)
    requires |distances| < |sentences|
    ensures var cut := CutByPairs(sentences, distances, threshold);
      var joined := if minSize <= 0 then cut else Joined(cut, |cut|, minSize, n);
      OwnGroups(sentences, distances, threshold, minSize, n) == if n <= 0 then joined else SplitGroups(joined, n)
  {
    CutIsByPairs(sentences, distances, threshold);
    hide Cut, CutByPairs;
    MergeFollowsRule(CutByPairs(sentences, distances, threshold), minSize, n);
    hide Joined, SplitGroups;
  }

  /** Sentences that are not empty stay so in every group, whatever the distances. */
  lemma FinalGroupsAreFilled(sentences: Group, distances: seq<real>, threshold: real, minSize: int, n: int, limit: int)
    requires 0 < |distances| < |sentences| && n > 0 && Filled(sentences)
    ensures AllFilled(OwnGroups(sentences, distances, threshold, minSize, n))
    ensures AllFilled(FinalGroups(sentences, distances, threshold, minSize, n, limit))
  {
    var cut := Cut(sentences, distances, threshold);
    var merged := MergeSmall(cut, minSize, n);
    CutIsByPairs(sentences, distances, threshold);
    CutByPairsKeeps(sentences, distances, threshold);
    MergeSmallKeepsAll(cut, minSize, n);
    FilledFlatten(merged);
    SplitGroupsAreFilled(merged, n);
    SplitGroupsAreShort(merged, n);
    OverlapIsChained(SplitGroups(merged, n), limit, n);
    assert Filled([]);
    hide Cut, MergeSmall, SplitGroups, AddSentenceOverlap, Chained, Flatten, Filled, AllFilled;
    ChainedIsFilled([], AddSentenceOverlap(SplitGroups(merged, n), limit, n), SplitGroups(merged, n));
  }

  /** The mode on sentences that are not empty, for any distances: every chunk is non-empty and fits the
      chunk size exactly when the text is not a single over-long sentence, and the chunks without what is
      repeated hold every rune that is neither white space nor a phrase mark, in order. */
  lemma WindowChunksFitIff(sentences: Group, distances: seq<real>, percentile: int, threshold: real,
      minSize: int, n: int, limit: int)
    requires Spaced(sentences, distances) && IsThreshold(threshold, distances, percentile) && n > 0 && Filled(sentences)
    ensures Sized(WindowChunks(sentences, distances, threshold, minSize, n, limit), n)
      <==> (|sentences| == 1 ==> |sentences[0]| <= n)
    ensures |sentences| > 1 ==>
      var own := Texts(OwnGroups(sentences, distances, threshold, minSize, n));
      Essence(Concat(own), PHRASE_MARKS) == Essence(Concat(sentences), PHRASE_MARKS)
  {
    if |sentences| > 1 {
      FinalGroupsAreFilled(sentences, distances, threshold, minSize, n, limit);
      WindowBreakpointIsSound(sentences, distances, percentile, threshold, minSize, n, limit);
      TextsAreSized(FinalGroups(sentences, distances, threshold, minSize, n, limit), n);
      ConcatTexts(OwnGroups(sentences, distances, threshold, minSize, n));
    } else if |sentences| == 1 {
      assert sentences[0] != "" && sentences == [sentences[0]];
    }
    hide *;
  }
}
