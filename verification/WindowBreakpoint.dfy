/** The window-breakpoint pipeline of aipkg/rag/split/semantic.go: cut the sentences where the
    distance between neighbouring windows is above a percentile, merge small groups, split large
    ones, and repeat some sentences between neighbours. The distances may be any numbers. */
module WindowBreakpoint {
  import opened Common
  import opened RecursiveCharacterProofs
  import opened Sentences
  import opened Percentile

  // ----- cutting

  /** The positions from i on whose distance is above the threshold. */
  function BreaksFrom(distances: seq<real>, threshold: real, i: nat): seq<nat>
    requires i <= |distances|
    decreases |distances| - i
  {
    if i == |distances| then []
    else (if distances[i] > threshold then [i] else []) + BreaksFrom(distances, threshold, i + 1)
  }

  predicate InRange(breaks: seq<nat>, n: nat) { forall k | 0 <= k < |breaks| :: breaks[k] < n }

  /** The groups from start on; the breakpoints are positions after which a group ends. */
  function GroupsFrom(sentences: Group, breaks: seq<nat>, start: nat): seq<Group>
    requires start <= |sentences| && InRange(breaks, |sentences|)
    decreases |breaks|
  {
    if breaks == [] then if start < |sentences| then [sentences[start..]] else []
    else if breaks[0] + 1 <= start then GroupsFrom(sentences, breaks[1..], start)
    else [sentences[start..breaks[0] + 1]] + GroupsFrom(sentences, breaks[1..], breaks[0] + 1)
  }

  lemma {:induction false} BreaksAreInRange(distances: seq<real>, threshold: real, i: nat)
    requires i <= |distances|
    ensures InRange(BreaksFrom(distances, threshold, i), |distances|)
    ensures forall k | 0 <= k < |BreaksFrom(distances, threshold, i)| :: i <= BreaksFrom(distances, threshold, i)[k]
    decreases |distances| - i
  {
    if i < |distances| {
      BreaksAreInRange(distances, threshold, i + 1);
    }
  }

  function Cut(sentences: Group, distances: seq<real>, threshold: real): seq<Group>
    requires |distances| <= |sentences|
  {
    BreaksAreInRange(distances, threshold, 0);
    GroupsFrom(sentences, BreaksFrom(distances, threshold, 0), 0)
  }

  method CutIntoGroups(sentences: Group, distances: seq<real>, threshold: real) returns (groups: seq<Group>)
    requires |distances| <= |sentences|
    ensures groups == Cut(sentences, distances, threshold)
  {
    hide *;
    var breakpoints := Breakpoints(distances, threshold);
    CutIs(sentences, distances, threshold);
    groups := [];
    var start := 0;
    var i := 0;
    Whole(breakpoints);
    NothingAdded(GroupsFrom(sentences, breakpoints, 0));
    while i < |breakpoints|
      invariant 0 <= i <= |breakpoints| && 0 <= start <= |sentences|
      invariant InRange(breakpoints[i..], |sentences|)
      invariant Cut(sentences, distances, threshold) == groups + GroupsFrom(sentences, breakpoints[i..], start)
    {
      GroupTurn(groups, sentences, breakpoints, i, start);
      var end := breakpoints[i] + 1;
      if end > start {
        groups := groups + [sentences[start..end]];
        start := end;
      }
      i := i + 1;
    }
    LastGroupLeft(groups, sentences, start);
    if start < |sentences| {
      groups := groups + [sentences[start..]];
    }
  }

  lemma CutIs(sentences: Group, distances: seq<real>, threshold: real)
    requires |distances| <= |sentences|
    ensures var breaks := BreaksFrom(distances, threshold, 0);
      InRange(breaks, |sentences|) && Cut(sentences, distances, threshold) == GroupsFrom(sentences, breaks, 0)
  {
    BreaksAreInRange(distances, threshold, 0);
    hide BreaksFrom, GroupsFrom;
  }

  lemma GroupTurn(groups: seq<Group>, sentences: Group, breaks: seq<nat>, i: nat, start: nat)
    requires i < |breaks| && start <= |sentences| && InRange(breaks[i..], |sentences|)
    ensures InRange(breaks[i + 1..], |sentences|)
    ensures var end := breaks[i] + 1;
      && end <= |sentences|
      && groups + GroupsFrom(sentences, breaks[i..], start)
        == if end <= start then groups + GroupsFrom(sentences, breaks[i + 1..], start)
           else (groups + [sentences[start..end]]) + GroupsFrom(sentences, breaks[i + 1..], end)
  {
    NextTail(breaks, i);
    assert breaks[i..][0] < |sentences|;
    var now, later := breaks[i..], breaks[i + 1..];
    forall k | 0 <= k < |later|
      ensures later[k] < |sentences|
    {
      assert later[k] == now[k + 1];
    }
    hide InRange;
    var end := breaks[i] + 1;
    if end > start {
      Assoc(groups, [sentences[start..end]], GroupsFrom(sentences, breaks[i + 1..], end));
    }
  }

  lemma LastGroupLeft(groups: seq<Group>, sentences: Group, start: nat)
    requires start <= |sentences|
    ensures InRange([], |sentences|)
    ensures groups + GroupsFrom(sentences, [], start)
         == if start < |sentences| then groups + [sentences[start..]] else groups
  {
  }

  method Breakpoints(distances: seq<real>, threshold: real) returns (breakpoints: seq<nat>)
    ensures breakpoints == BreaksFrom(distances, threshold, 0)
  {
    hide *;
    breakpoints := [];
    NothingAdded(BreaksFrom(distances, threshold, 0));
    var i := 0;
    while i < |distances|
      invariant 0 <= i <= |distances|
      invariant BreaksFrom(distances, threshold, 0) == breakpoints + BreaksFrom(distances, threshold, i)
    {
      AddBreak(breakpoints, distances, threshold, i);
      if distances[i] > threshold {
        breakpoints := breakpoints + [i];
      }
      i := i + 1;
    }
    NoBreaks(breakpoints, distances, threshold);
  }

  lemma AddBreak(breakpoints: seq<nat>, distances: seq<real>, threshold: real, i: nat)
    requires i < |distances|
    ensures breakpoints + BreaksFrom(distances, threshold, i)
         == (if distances[i] > threshold then breakpoints + [i] else breakpoints)
            + BreaksFrom(distances, threshold, i + 1)
  {
    Assoc(breakpoints, [i], BreaksFrom(distances, threshold, i + 1));
    NothingAdded(BreaksFrom(distances, threshold, i + 1));
  }

  lemma NoBreaks(breakpoints: seq<nat>, distances: seq<real>, threshold: real)
    ensures breakpoints + BreaksFrom(distances, threshold, |distances|) == breakpoints
  {
  }

  /** An independent reading of the cut: a sentence goes to the group of the one before it unless
      the distance between them is above the threshold. */
  function CutByPairs(sentences: Group, distances: seq<real>, threshold: real): seq<Group>
    requires |distances| <= |sentences|
  {
    if sentences == [] then []
    else if distances == [] then [sentences]
    else
      var rest := CutByPairs(sentences[1..], distances[1..], threshold);
      if distances[0] > threshold || rest == [] then [[sentences[0]]] + rest
      else [[sentences[0]] + rest[0]] + rest[1..]
  }

  /** rest with its first group extended to the front. */
  function Extended(prefix: Group, rest: seq<Group>): seq<Group>
    requires rest != []
  {
    [prefix + rest[0]] + rest[1..]
  }

  lemma PairsFrom(sentences: Group, distances: seq<real>, threshold: real, i: nat)
    requires i < |distances| < |sentences|
    requires CutByPairs(sentences[i + 1..], distances[i + 1..], threshold) != []
    ensures var next := CutByPairs(sentences[i + 1..], distances[i + 1..], threshold);
      CutByPairs(sentences[i..], distances[i..], threshold)
        == if distances[i] > threshold then [[sentences[i]]] + next else Extended([sentences[i]], next)
  {
    assert sentences[i..][1..] == sentences[i + 1..] && distances[i..][1..] == distances[i + 1..];
  }

  lemma GroupEndsAt(sentences: Group, breaks: seq<nat>, start: nat, i: nat)
    requires start <= i < |sentences| && InRange(breaks, |sentences|)
    ensures InRange([i] + breaks, |sentences|)
    ensures GroupsFrom(sentences, [i] + breaks, start)
      == [sentences[start..i + 1]] + GroupsFrom(sentences, breaks, i + 1)
  {
    assert ([i] + breaks)[1..] == breaks;
  }

  lemma ExtendTwice(sentences: Group, start: nat, i: nat, next: seq<Group>)
    requires start <= i < |sentences| && next != []
    ensures Extended(sentences[start..i + 1], next) == Extended(sentences[start..i], Extended([sentences[i]], next))
    ensures [sentences[start..i + 1]] + next == Extended(sentences[start..i], [[sentences[i]]] + next)
    ensures Extended(sentences[i + 1..i + 1], next) == next
  {
    assert sentences[start..i + 1] == sentences[start..i] + [sentences[i]];
    assert sentences[start..i + 1] + next[0] == sentences[start..i] + ([sentences[i]] + next[0]);
    assert sentences[i + 1..i + 1] + next[0] == next[0];
  }

  lemma {:induction false} GroupsAreCutByPairs(sentences: Group, distances: seq<real>, threshold: real, start: nat,
      i: nat)
    requires start <= i <= |distances| < |sentences|
    ensures InRange(BreaksFrom(distances, threshold, i), |sentences|)
    ensures CutByPairs(sentences[i..], distances[i..], threshold) != []
    ensures GroupsFrom(sentences, BreaksFrom(distances, threshold, i), start)
         == Extended(sentences[start..i], CutByPairs(sentences[i..], distances[i..], threshold))
    decreases |distances| - i
  {
    hide *;
    BreaksInSentences(sentences, distances, threshold, i);
    if i == |distances| {
      LastGroup(sentences, distances, threshold, start);
    } else {
      NextBreak(sentences, distances, threshold, i);
      var breaks := BreaksFrom(distances, threshold, i + 1);
      var next := CutByPairs(sentences[i + 1..], distances[i + 1..], threshold);
      ExtendTwice(sentences, start, i, next);
      PairsFrom(sentences, distances, threshold, i);
      if distances[i] > threshold {
        GroupsAreCutByPairs(sentences, distances, threshold, i + 1, i + 1);
        GroupEndsAt(sentences, breaks, start, i);
      } else {
        GroupsAreCutByPairs(sentences, distances, threshold, start, i + 1);
      }
    }
  }

  lemma BreaksInSentences(sentences: Group, distances: seq<real>, threshold: real, i: nat)
    requires i <= |distances| < |sentences|
    ensures InRange(BreaksFrom(distances, threshold, i), |sentences|)
    ensures CutByPairs(sentences[i..], distances[i..], threshold) != []
  {
    BreaksAreInRange(distances, threshold, i);
    hide BreaksFrom;
  }

  lemma NextBreak(sentences: Group, distances: seq<real>, threshold: real, i: nat)
    requires i < |distances| < |sentences|
    ensures InRange(BreaksFrom(distances, threshold, i + 1), |sentences|)
    ensures CutByPairs(sentences[i + 1..], distances[i + 1..], threshold) != []
    ensures BreaksFrom(distances, threshold, i)
         == (if distances[i] > threshold then [i] else []) + BreaksFrom(distances, threshold, i + 1)
    ensures [] + BreaksFrom(distances, threshold, i + 1) == BreaksFrom(distances, threshold, i + 1)
  {
    BreaksInSentences(sentences, distances, threshold, i + 1);
    NothingAdded(BreaksFrom(distances, threshold, i + 1));
    hide InRange, CutByPairs;
  }

  lemma LastGroup(sentences: Group, distances: seq<real>, threshold: real, start: nat)
    requires start <= |distances| < |sentences|
    ensures var i := |distances|;
      && BreaksFrom(distances, threshold, i) == []
      && CutByPairs(sentences[i..], distances[i..], threshold) == [sentences[i..]]
      && GroupsFrom(sentences, [], start) == Extended(sentences[start..i], [sentences[i..]])
  {
    var i := |distances|;
    assert distances[i..] == [];
    assert sentences[start..] == sentences[start..i] + sentences[i..];
  }

  /** Two neighbours are parted exactly when their distance is above the threshold. */
  lemma CutIsByPairs(sentences: Group, distances: seq<real>, threshold: real)
    requires |distances| < |sentences|
    ensures Cut(sentences, distances, threshold) == CutByPairs(sentences, distances, threshold)
  {
    GroupsAreCutByPairs(sentences, distances, threshold, 0, 0);
    assert sentences[0..] == sentences && distances[0..] == distances;
    var groups := CutByPairs(sentences, distances, threshold);
    assert sentences[0..0] + groups[0] == groups[0];
    assert [groups[0]] + groups[1..] == groups;
  }

  lemma {:induction false} CutByPairsKeeps(sentences: Group, distances: seq<real>, threshold: real)
    requires |distances| < |sentences|
    ensures var groups := CutByPairs(sentences, distances, threshold);
      && groups != [] && Flatten(groups) == sentences
      && |groups| == CountAbove(distances, threshold) + 1
  {
    if distances == [] {
      FlattenOne(sentences);
    } else {
      CutByPairsKeeps(sentences[1..], distances[1..], threshold);
    }
  }

  /** Cutting keeps all sentences in order and makes one group more than there are distances above
      the threshold; at the percentile value that is at most one more than the rank leaves over. */
  lemma CutKeepsSentences(sentences: Group, distances: seq<real>, percentile: int, threshold: real)
    requires 0 < |distances| < |sentences|
    requires IsOrderStatistic(distances, Rank(percentile, |distances|), threshold)
    ensures var groups := Cut(sentences, distances, threshold);
      && Flatten(groups) == sentences
      && |groups| == CountAbove(distances, threshold) + 1
      && |groups| <= |distances| - Rank(percentile, |distances|)
  {
    CutIsByPairs(sentences, distances, threshold);
    CutByPairsKeeps(sentences, distances, threshold);
    PercentileBoundsCuts(distances, percentile, threshold);
  }
}
