/** What the window-breakpoint mode of aipkg/rag/split/semantic.go does with its groups after the
    cut: merge small ones, split large ones, repeat sentences between neighbours. */
module SemanticGroups {
  import opened Common
  import opened Text
  import opened RecursiveCharacterProofs
  import opened Sentences

  // ----- merging small groups

  /** One turn of mergeSmallSemanticGroups: merged is what it has produced, rest what is left; the
      result is what it has produced then, and how many groups it took. */
  function SmallTurn(merged: seq<Group>, rest: seq<Group>, minSize: int, n: int): (r: (seq<Group>, nat))
    requires rest != []
    ensures 1 <= r.1 <= |rest|
  {
    var g := rest[0];
    var fitsNext := |rest| > 1 && GroupLen(g + rest[1]) <= n;
    if |g| == 1 && IsMarkdownHeadingLine(g[0]) && fitsNext then (merged + [g + rest[1]], 2)
    else if GroupLen(g) >= minSize || |rest| == 1 then (merged + [g], 1)
    else if fitsNext then (merged + [g + rest[1]], 2)
    else if merged != [] && GroupLen(merged[|merged| - 1] + g) <= n then
      (merged[..|merged| - 1] + [merged[|merged| - 1] + g], 1)
    else (merged + [g], 1)
  }

  function MergeSmallFrom(merged: seq<Group>, rest: seq<Group>, minSize: int, n: int): seq<Group>
    decreases |rest|
  {
    if rest == [] then merged
    else
      var (next, k) := SmallTurn(merged, rest, minSize, n);
      MergeSmallFrom(next, rest[k..], minSize, n)
  }

  function MergeSmall(groups: seq<Group>, minSize: int, n: int): seq<Group> {
    if groups == [] then [] else if minSize <= 0 then groups else MergeSmallFrom([], groups, minSize, n)
  }

  method MergeSmallSemanticGroups(groups: seq<Group>, minChunkSize: int, chunkSize: int) returns (merged: seq<Group>)
    ensures merged == MergeSmall(groups, minChunkSize, chunkSize)
  {
    if |groups| == 0 {
      return [];
    }
    if minChunkSize <= 0 {
      return groups;
    }
    merged := [];
    var i := 0;
    assert groups[0..] == groups;
    while i < |groups|
      invariant 0 <= i <= |groups|
      invariant MergeSmallFrom([], groups, minChunkSize, chunkSize)
             == MergeSmallFrom(merged, groups[i..], minChunkSize, chunkSize)
    {
      merged, i := MergeSmallTurn(groups, i, merged, minChunkSize, chunkSize);
    }
    assert groups[i..] == [];
  }

  /** The body of the loop, with its four ways on. */
  method MergeSmallTurn(groups: seq<Group>, i: nat, before: seq<Group>, minChunkSize: int, chunkSize: int)
      returns (merged: seq<Group>, next: nat)
    requires i < |groups|
    ensures i < next <= |groups|
    ensures MergeSmallFrom(before, groups[i..], minChunkSize, chunkSize)
         == MergeSmallFrom(merged, groups[next..], minChunkSize, chunkSize)
  {
    merged := before;
    assert groups[i..][1..] == groups[i + 1..];
    assert i + 1 < |groups| ==> groups[i..][2..] == groups[i + 2..];
    hide GroupLen, TrimSpace;
    var g := groups[i];
    if |g| == 1 && IsMarkdownHeadingLine(g[0]) && i + 1 < |groups| {
      var combined := g + groups[i + 1];
      var len := SentenceGroupLen(combined);
      if len <= chunkSize {
        return merged + [combined], i + 2;
      }
    }
    var glen := SentenceGroupLen(g);
    if glen >= minChunkSize || i == |groups| - 1 {
      return merged + [g], i + 1;
    }
    if i + 1 < |groups| {
      var combined := g + groups[i + 1];
      var len := SentenceGroupLen(combined);
      if len <= chunkSize {
        return merged + [combined], i + 2;
      }
    }
    if |merged| > 0 {
      var combined := merged[|merged| - 1] + g;
      var len := SentenceGroupLen(combined);
      if len <= chunkSize {
        return merged[..|merged| - 1] + [combined], i + 1;
      }
    }
    return merged + [g], i + 1;
  }

  lemma FlattenFirst(gs: seq<Group>)
    requires gs != []
    ensures Flatten(gs) == gs[0] + Flatten(gs[1..])
  {
  }

  /** Appending a group appends its sentences ... */
  lemma FlattenPush(gs: seq<Group>, g: Group)
    ensures Flatten(gs + [g]) == Flatten(gs) + g
  {
    FlattenAppend(gs, [g]);
    FlattenOne(g);
  }

  /** ... and so does extending the last one. */
  lemma FlattenExtend(init: seq<Group>, last: Group, g: Group)
    ensures Flatten(init + [last + g]) == Flatten(init + [last]) + g
  {
    FlattenPush(init, last);
    FlattenPush(init, last + g);
    Assoc(Flatten(init), last, g);
  }

  lemma FlattenTwo(gs: seq<Group>)
    requires |gs| > 1
    ensures Flatten(gs) == gs[0] + gs[1] + Flatten(gs[2..])
  {
    assert gs[1..][1..] == gs[2..];
  }

  lemma SmallTurnKeeps(merged: seq<Group>, rest: seq<Group>, minSize: int, n: int)
    requires rest != []
    ensures var (next, k) := SmallTurn(merged, rest, minSize, n);
      Flatten(next) + Flatten(rest[k..]) == Flatten(merged) + Flatten(rest)
  {
    hide GroupLen, IsMarkdownHeadingLine, Flatten;
    var g := rest[0];
    var last := |merged| - 1;
    var (next, k) := SmallTurn(merged, rest, minSize, n);
    if k == 2 {
      FlattenPush(merged, g + rest[1]);
      FlattenTwo(rest);
      Assoc(Flatten(merged), g + rest[1], Flatten(rest[2..]));
    } else {
      FlattenFirst(rest);
      Assoc(Flatten(merged), g, Flatten(rest[1..]));
      if next == merged + [g] {
        FlattenPush(merged, g);
      } else {
        FlattenExtend(merged[..last], merged[last], g);
        assert merged[..last] + [merged[last]] == merged;
      }
    }
  }

  /** Merging keeps every sentence in order. */
  lemma {:induction false} MergeSmallKeeps(merged: seq<Group>, rest: seq<Group>, minSize: int, n: int)
    ensures Flatten(MergeSmallFrom(merged, rest, minSize, n)) == Flatten(merged) + Flatten(rest)
    decreases |rest|
  {
    if rest == [] {
      assert Flatten(rest) == [];
    } else {
      SmallTurnKeeps(merged, rest, minSize, n);
      var (next, k) := SmallTurn(merged, rest, minSize, n);
      MergeSmallKeeps(next, rest[k..], minSize, n);
    }
  }

  predicate ShortOrFrom(gs: seq<Group>, n: int, originals: seq<Group>) {
    forall k | 0 <= k < |gs| :: GroupLen(gs[k]) <= n || gs[k] in originals
  }

  /** A merged group is longer than the chunk size only if it was one of the groups before. */
  lemma {:induction false} MergeSmallMakesNoLargeGroup(merged: seq<Group>, rest: seq<Group>, minSize: int, n: int,
      originals: seq<Group>)
    requires ShortOrFrom(merged, n, originals)
    requires forall k | 0 <= k < |rest| :: rest[k] in originals
    ensures ShortOrFrom(MergeSmallFrom(merged, rest, minSize, n), n, originals)
    decreases |rest|
  {
    if rest != [] {
      var (next, k) := SmallTurn(merged, rest, minSize, n);
      assert ShortOrFrom(next, n, originals) by {
        hide GroupLen, IsMarkdownHeadingLine;
      }
      MergeSmallMakesNoLargeGroup(next, rest[k..], minSize, n, originals);
    }
  }

  // ----- splitting large groups

  /** The trimmed non-blank pieces, each a group of its own. */
  function Singles(pieces: seq<string>): seq<Group> {
    if pieces == [] then []
    else (if TrimSpace(pieces[0]) == "" then [] else [[TrimSpace(pieces[0])]]) + Singles(pieces[1..])
  }

  function Flushed(cur: Group): seq<Group> { if cur == [] then [] else [cur] }

  /** The inner loop of splitGroupsByMaxSize: cur is the group being filled. */
  function Pack(cur: Group, rest: Group, n: int): seq<Group>
    decreases |rest|
  {
    if rest == [] then Flushed(cur)
    else
      var s := rest[0];
      var full := GroupLen(cur) + |s| > n && GroupLen(cur) > 0;
      if |s| > n then Flushed(cur) + Singles(SplitLongSentence(s, n)) + Pack([], rest[1..], n)
      else if full then [cur] + Pack([s], rest[1..], n)
      else Pack(cur + [s], rest[1..], n)
  }

  function SplitGroup(g: Group, n: int): seq<Group> {
    if g == [] then [] else if GroupLen(g) <= n then [g] else Pack([], g, n)
  }

  function SplitGroups(groups: seq<Group>, n: int): seq<Group> {
    if groups == [] then [] else SplitGroup(groups[0], n) + SplitGroups(groups[1..], n)
  }

  function SplitByMaxSize(groups: seq<Group>, n: int): seq<Group> {
    if n <= 0 then groups else SplitGroups(groups, n)
  }

  method SplitGroupsByMaxSize(groups: seq<Group>, chunkSize: int) returns (out: seq<Group>)
    ensures out == SplitByMaxSize(groups, chunkSize)
  {
    if |groups| == 0 || chunkSize <= 0 {
      return groups;
    }
    out := [];
    var i := 0;
    assert groups[0..] == groups;
    hide SplitGroup;
    while i < |groups|
      invariant 0 <= i <= |groups|
      invariant SplitGroups(groups, chunkSize) == out + SplitGroups(groups[i..], chunkSize)
    {
      assert groups[i..][1..] == groups[i + 1..];
      var more := SplitOneGroup(groups[i], chunkSize);
      Assoc(out, more, SplitGroups(groups[i + 1..], chunkSize));
      out := out + more;
      i := i + 1;
    }
    assert groups[i..] == [];
  }

  method SplitOneGroup(g: Group, chunkSize: int) returns (out: seq<Group>)
    ensures out == SplitGroup(g, chunkSize)
  {
    if |g| == 0 {
      return [];
    }
    var len := SentenceGroupLen(g);
    if len <= chunkSize {
      return [g];
    }
    out := PackSentences(g, chunkSize);
  }

  method PackSentences(g: Group, chunkSize: int) returns (out: seq<Group>)
    ensures out == Pack([], g, chunkSize)
  {
    out := [];
    var cur: Group := [];
    var curLen := 0;
    var i := 0;
    assert g[0..] == g;
    while i < |g|
      invariant 0 <= i <= |g| && curLen == GroupLen(cur)
      invariant Pack([], g, chunkSize) == out + Pack(cur, g[i..], chunkSize)
    {
      ghost var before := out;
      var more;
      more, cur, curLen := PackOne(g, i, cur, curLen, chunkSize);
      Assoc(out, more, Pack(cur, g[i + 1..], chunkSize));
      out := out + more;
      i := i + 1;
    }
    assert g[i..] == [];
    if |cur| != 0 {
      out := out + [cur];
    }
  }

  lemma PackFrom(cur: Group, g: Group, i: nat, n: int)
    requires i < |g|
    ensures Pack(cur, g[i..], n)
         == if |g[i]| > n then Flushed(cur) + Singles(SplitLongSentence(g[i], n)) + Pack([], g[i + 1..], n)
            else if GroupLen(cur) + |g[i]| > n && GroupLen(cur) > 0 then [cur] + Pack([g[i]], g[i + 1..], n)
            else Pack(cur + [g[i]], g[i + 1..], n)
  {
    hide SplitLongSentence, Singles;
    assert g[i..][1..] == g[i + 1..];
  }

  lemma GroupLenPush(g: Group, s: string)
    ensures GroupLen(g + [s]) == GroupLen(g) + |s|
    ensures GroupLen([]) == 0 && (GroupLen(g) > 0 ==> g != [])
  {
    GroupLenAppend(g, [s]);
    assert GroupLen([s]) == |s|;
  }

  /** The body of the inner loop; flush appends cur if it is not empty, and clears it. */
  method PackOne(g: Group, i: nat, before: Group, beforeLen: nat, chunkSize: int)
      returns (more: seq<Group>, cur: Group, curLen: nat)
    requires i < |g| && beforeLen == GroupLen(before)
    ensures curLen == GroupLen(cur)
    ensures Pack(before, g[i..], chunkSize) == more + Pack(cur, g[i + 1..], chunkSize)
  {
    PackFrom(before, g, i, chunkSize);
    hide SplitLongSentence, Singles, Pack, GroupLen;
    more, cur, curLen := [], before, beforeLen;
    var s := g[i];
    var l := |s|;
    GroupLenPush(cur, s);
    if curLen + l > chunkSize && curLen > 0 {
      more, cur, curLen := [cur], [], 0;
    }
    if l > chunkSize {
      if |cur| != 0 {
        more, cur, curLen := more + [cur], [], 0;
      }
      assert more == Flushed(before) && cur == [];
      var parts := SplitLong(s, chunkSize);
      var singles := TrimmedSingles(parts);
      more := more + singles;
    } else {
      GroupLenPush(cur, s);
      ghost var flushed := cur;
      cur := cur + [s];
      curLen := curLen + l;
      assert flushed == [] ==> cur == [s];
    }
  }

  lemma SinglesFrom(out: seq<Group>, pieces: seq<string>, i: nat)
    requires i < |pieces|
    ensures out + Singles(pieces[i..])
         == out + (if TrimSpace(pieces[i]) == "" then [] else [[TrimSpace(pieces[i])]]) + Singles(pieces[i + 1..])
  {
    hide TrimSpace;
    assert pieces[i..][1..] == pieces[i + 1..];
  }

  method TrimmedSingles(parts: seq<string>) returns (out: seq<Group>)
    ensures out == Singles(parts)
  {
    out := [];
    var i := 0;
    assert parts[0..] == parts;
    while i < |parts|
      invariant 0 <= i <= |parts| && Singles(parts) == out + Singles(parts[i..])
    {
      SinglesFrom(out, parts, i);
      hide *;
      var p := TrimSpace(parts[i]);
      if p != "" {
        out := out + [[p]];
      } else {
        assert out + [] == out;
      }
      i := i + 1;
    }
    assert parts[i..] == [];
  }

  /** No group is longer than n. */
  predicate AllShort(gs: seq<Group>, n: int) { forall k | 0 <= k < |gs| :: GroupLen(gs[k]) <= n }

  lemma {:induction false} SinglesAreShort(pieces: seq<string>, n: int)
    requires Sized(pieces, n)
    ensures AllShort(Singles(pieces), n)
  {
    if pieces != [] {
      assert |pieces[0]| <= n;
      hide TrimSpace;
      var p := TrimSpace(pieces[0]);
      SinglesAreShort(pieces[1..], n);
      assert GroupLen([p]) == |p|;
    }
  }

  lemma ShortAppend(a: seq<Group>, b: seq<Group>, n: int)
    requires AllShort(a, n) && AllShort(b, n)
    ensures AllShort(a + b, n)
  {
  }

  lemma {:induction false} PackIsShort(cur: Group, rest: Group, n: int)
    requires n > 0 && GroupLen(cur) <= n
    ensures AllShort(Pack(cur, rest, n), n)
    decreases |rest|
  {
    if rest != [] {
      var s := rest[0];
      GroupLenPush(cur, s);
      GroupLenPush([], s);
      assert [] + [s] == [s];
      hide SplitLongSentence, Singles, GroupLen;
      if |s| > n {
        LongSentenceIsSized(s, n);
        SinglesAreShort(SplitLongSentence(s, n), n);
        PackIsShort([], rest[1..], n);
        ShortAppend(Flushed(cur), Singles(SplitLongSentence(s, n)), n);
        ShortAppend(Flushed(cur) + Singles(SplitLongSentence(s, n)), Pack([], rest[1..], n), n);
      } else if GroupLen(cur) + |s| > n && GroupLen(cur) > 0 {
        PackIsShort([s], rest[1..], n);
        ShortAppend([cur], Pack([s], rest[1..], n), n);
      } else {
        PackIsShort(cur + [s], rest[1..], n);
      }
    }
  }

  /** After splitting, every group fits the chunk size. */
  lemma {:induction false} SplitGroupsAreShort(groups: seq<Group>, n: int)
    requires n > 0
    ensures AllShort(SplitGroups(groups, n), n)
  {
    if groups != [] {
      PackIsShort([], groups[0], n);
      hide Pack;
      SplitGroupsAreShort(groups[1..], n);
    }
  }

  predicate NoLongSentence(g: Group, n: int) { forall k | 0 <= k < |g| :: |g[k]| <= n }

  /** Each group could not have taken in the first sentence of the next. */
  predicate Tight(gs: seq<Group>, n: int) {
    |gs| > 1 ==> gs[1] != [] && GroupLen(gs[0]) + |gs[1][0]| > n && Tight(gs[1..], n)
  }

  /** Packing is greedy. */
  lemma {:induction false} PackIsTight(cur: Group, rest: Group, n: int)
    requires NoLongSentence(rest, n)
    ensures var gs := Pack(cur, rest, n);
      Tight(gs, n) && (cur != [] ==> gs != [] && cur <= gs[0])
    decreases |rest|
  {
    if rest != [] {
      var s := rest[0];
      hide GroupLen;
      if GroupLen(cur) + |s| > n && GroupLen(cur) > 0 {
        var more := Pack([s], rest[1..], n);
        PackIsTight([s], rest[1..], n);
        assert more[0][0] == s;
        assert ([cur] + more)[1..] == more;
      } else {
        PackIsTight(cur + [s], rest[1..], n);
        assert cur <= cur + [s];
      }
    }
  }

  lemma {:induction false} PackKeeps(cur: Group, rest: Group, n: int)
    requires NoLongSentence(rest, n)
    ensures Flatten(Pack(cur, rest, n)) == cur + rest
    decreases |rest|
  {
    if rest == [] {
      FlattenOne(cur);
    } else {
      var s := rest[0];
      Assoc(cur, [s], rest[1..]);
      assert rest == [s] + rest[1..];
      if GroupLen(cur) + |s| > n && GroupLen(cur) > 0 {
        PackKeeps([s], rest[1..], n);
      } else {
        PackKeeps(cur + [s], rest[1..], n);
      }
    }
  }

  lemma SplitGroupKeeps(g: Group, n: int)
    requires NoLongSentence(g, n)
    ensures Flatten(SplitGroup(g, n)) == g
  {
    PackKeeps([], g, n);
    FlattenOne(g);
  }

  /** Splitting keeps every sentence in order when none is over-long. */
  lemma {:induction false} SplitGroupsKeep(groups: seq<Group>, n: int)
    requires NoLongSentence(Flatten(groups), n)
    ensures Flatten(SplitGroups(groups, n)) == Flatten(groups)
  {
    if groups != [] {
      var g, rest := groups[0], groups[1..];
      FlattenFirst(groups);
      hide SplitGroup, Flatten;
      assert NoLongSentence(g, n) by {
        assert forall k | 0 <= k < |g| :: g[k] == (g + Flatten(rest))[k];
      }
      assert NoLongSentence(Flatten(rest), n) by {
        assert forall k | 0 <= k < |Flatten(rest)| :: Flatten(rest)[k] == (g + Flatten(rest))[|g| + k];
      }
      SplitGroupsKeep(rest, n);
      SplitGroupKeeps(g, n);
      FlattenAppend(SplitGroup(g, n), SplitGroups(rest, n));
    }
  }
}
