/** Which groups mergeSmallSemanticGroups of aipkg/rag/split/semantic.go joins, and which small ones it leaves. */
module SmallGroups {
  import opened Common
  import opened Text
  import opened RecursiveCharacterProofs
  import opened Sentences
  import opened SemanticGroups

  /** A group that is to be joined with the next one: a heading by itself, or one below the minimum. */
  predicate Wanting(g: Group, minSize: int) {
    (|g| == 1 && TrimSpace(g[0]) != "" && TrimSpace(g[0])[0] == '#') || GroupLen(g) < minSize
  }

  /** The first of the groups that end up together with group i, as far as groups before i are concerned. */
  function First(groups: seq<Group>, i: nat, minSize: int, n: int): (first: nat)
    requires i < |groups|
    ensures first <= i
    decreases i, 1
  {
    if Joins(groups, i, minSize, n) then First(groups, i - 1, minSize, n) else i
  }

  /** Group i is joined to what precedes it: only if they fit, and then if that is a single group which is to be
      joined, or if group i is below the minimum, not the last, and does not fit with the next. */
  predicate Joins(groups: seq<Group>, i: nat, minSize: int, n: int)
    requires i < |groups|
    decreases i, 0
  {
    && i > 0
    && var first := First(groups, i - 1, minSize, n);
      && GroupLen(Flatten(groups[first..i]) + groups[i]) <= n
      && (|| (first == i - 1 && Wanting(groups[first], minSize))
          || (i + 1 < |groups| && GroupLen(groups[i]) < minSize && GroupLen(groups[i] + groups[i + 1]) > n))
  }

  /** The first k groups, joined by that rule. */
  function Joined(groups: seq<Group>, k: nat, minSize: int, n: int): (merged: seq<Group>)
    requires k <= |groups|
    ensures k > 0 <==> merged != []
  {
    if k == 0 then []
    else
      var merged := Joined(groups, k - 1, minSize, n);
      if Joins(groups, k - 1, minSize, n) then merged[..|merged| - 1] + [merged[|merged| - 1] + groups[k - 1]]
      else merged + [groups[k - 1]]
  }

  lemma {:induction false} LastIsBlock(groups: seq<Group>, k: nat, minSize: int, n: int)
    requires 0 < k <= |groups|
    ensures var merged := Joined(groups, k, minSize, n);
      merged[|merged| - 1] == Flatten(groups[First(groups, k - 1, minSize, n)..k])
    decreases k
  {
    hide Joins, Flatten;
    var first := First(groups, k - 1, minSize, n);
    if Joins(groups, k - 1, minSize, n) {
      JoinsLater(groups, k - 1, minSize, n);
      LastIsBlock(groups, k - 1, minSize, n);
      assert groups[first..k] == groups[first..k - 1] + [groups[k - 1]];
      FlattenPush(groups[first..k - 1], groups[k - 1]);
    } else {
      assert groups[k - 1..k] == [groups[k - 1]];
      FlattenOne(groups[k - 1]);
    }
  }

  lemma JoinsLater(groups: seq<Group>, i: nat, minSize: int, n: int)
    requires i < |groups| && Joins(groups, i, minSize, n)
    ensures i > 0
  {
  }

  /** A single group before i that is to be joined and fits with group i. */
  predicate Pulled(groups: seq<Group>, i: nat, minSize: int, n: int)
    requires i < |groups|
  {
    && i > 0 && First(groups, i - 1, minSize, n) == i - 1
    && Wanting(groups[i - 1], minSize) && GroupLen(groups[i - 1] + groups[i]) <= n
  }

  lemma OneGroup(groups: seq<Group>, i: nat)
    requires i < |groups|
    ensures Flatten(groups[i..i + 1]) == groups[i]
  {
    FlattenOne(groups[i]);
    assert groups[i..i + 1] == [groups[i]];
  }

  lemma PulledJoins(groups: seq<Group>, i: nat, minSize: int, n: int)
    requires i < |groups| && Pulled(groups, i, minSize, n)
    ensures Joins(groups, i, minSize, n)
  {
    OneGroup(groups, i - 1);
    hide Flatten, First, GroupLen;
  }

  lemma NotPulled(groups: seq<Group>, i: nat, minSize: int, n: int)
    requires i < |groups| && !Pulled(groups, i, minSize, n)
    ensures Joins(groups, i, minSize, n) <==>
      && 0 < i && i + 1 < |groups| && GroupLen(groups[i]) < minSize && GroupLen(groups[i] + groups[i + 1]) > n
      && GroupLen(Flatten(groups[First(groups, i - 1, minSize, n)..i]) + groups[i]) <= n
  {
    if i > 0 {
      OneGroup(groups, i - 1);
    }
    hide Flatten, First, GroupLen;
  }

  lemma FirstOf(groups: seq<Group>, i: nat, minSize: int, n: int)
    requires i < |groups|
    ensures First(groups, i, minSize, n) == i <==> !Joins(groups, i, minSize, n)
  {
    hide Joins;
    if Joins(groups, i, minSize, n) {
      JoinsLater(groups, i, minSize, n);
    }
  }

  lemma TurnIs(merged: seq<Group>, groups: seq<Group>, i: nat, minSize: int, n: int)
    requires i < |groups|
    ensures var g := groups[i];
      var fitsNext := i + 1 < |groups| && GroupLen(g + groups[i + 1]) <= n;
      SmallTurn(merged, groups[i..], minSize, n) ==
        if Wanting(g, minSize) && fitsNext then (merged + [g + groups[i + 1]], 2)
        else if GroupLen(g) < minSize && i + 1 < |groups| && merged != []
          && GroupLen(merged[|merged| - 1] + g) <= n then
          (merged[..|merged| - 1] + [merged[|merged| - 1] + g], 1)
        else (merged + [g], 1)
  {
    hide GroupLen, TrimSpace;
    NextTail(groups, i);
  }

  lemma JoinedNext(groups: seq<Group>, i: nat, minSize: int, n: int)
    requires i < |groups|
    ensures var (merged, next) := (Joined(groups, i, minSize, n), Joined(groups, i + 1, minSize, n));
      next == if Joins(groups, i, minSize, n) then
          (if merged == [] then next else merged[..|merged| - 1] + [merged[|merged| - 1] + groups[i]])
        else merged + [groups[i]]
  {
    hide Joins;
  }

  lemma PulledNext(groups: seq<Group>, i: nat, minSize: int, n: int)
    requires i + 1 < |groups|
    ensures GroupLen(groups[i]) < minSize ==> Wanting(groups[i], minSize)
    ensures Pulled(groups, i + 1, minSize, n) <==>
      && !Joins(groups, i, minSize, n) && Wanting(groups[i], minSize) && GroupLen(groups[i] + groups[i + 1]) <= n
  {
    FirstOf(groups, i, minSize, n);
    hide First, Joins, GroupLen;
  }

  lemma JoinedPair(groups: seq<Group>, i: nat, minSize: int, n: int)
    requires i + 1 < |groups| && !Joins(groups, i, minSize, n) && Pulled(groups, i + 1, minSize, n)
    ensures Joined(groups, i + 2, minSize, n) == Joined(groups, i, minSize, n) + [groups[i] + groups[i + 1]]
    ensures i + 2 < |groups| ==> !Pulled(groups, i + 2, minSize, n)
  {
    hide *;
    PulledJoins(groups, i + 1, minSize, n);
    JoinedNext(groups, i, minSize, n);
    JoinedNext(groups, i + 1, minSize, n);
    if i + 2 < |groups| {
      PulledNext(groups, i + 1, minSize, n);
    }
  }

  /** One turn of the loop follows the rule. */
  lemma TurnFollows(groups: seq<Group>, i: nat, minSize: int, n: int)
    requires i < |groups| && !Pulled(groups, i, minSize, n)
    ensures var (next, k) := SmallTurn(Joined(groups, i, minSize, n), groups[i..], minSize, n);
      && i + k <= |groups| && next == Joined(groups, i + k, minSize, n)
      && (i + k < |groups| ==> !Pulled(groups, i + k, minSize, n))
  {
    hide *;
    var g, merged := groups[i], Joined(groups, i, minSize, n);
    NotPulled(groups, i, minSize, n);
    if i > 0 {
      LastIsBlock(groups, i, minSize, n);
    }
    TurnIs(merged, groups, i, minSize, n);
    JoinedNext(groups, i, minSize, n);
    if i + 1 < |groups| {
      PulledNext(groups, i, minSize, n);
      if Wanting(g, minSize) && GroupLen(g + groups[i + 1]) <= n {
        JoinedPair(groups, i, minSize, n);
      }
    }
  }

  lemma {:induction false} LoopFollows(groups: seq<Group>, i: nat, minSize: int, n: int)
    requires i <= |groups| && (i < |groups| ==> !Pulled(groups, i, minSize, n))
    ensures MergeSmallFrom(Joined(groups, i, minSize, n), groups[i..], minSize, n)
         == Joined(groups, |groups|, minSize, n)
    decreases |groups| - i
  {
    hide SmallTurn, Pulled, Joined;
    if i < |groups| {
      TurnFollows(groups, i, minSize, n);
      var (next, k) := SmallTurn(Joined(groups, i, minSize, n), groups[i..], minSize, n);
      TailOfTail(groups, i, k);
      LoopFollows(groups, i + k, minSize, n);
    }
  }

  /** The merging joins exactly the groups that the rule tells, and none without a minimum. */
  lemma MergeFollowsRule(groups: seq<Group>, minSize: int, n: int)
    ensures MergeSmall(groups, minSize, n)
         == if minSize <= 0 then groups else Joined(groups, |groups|, minSize, n)
  {
    Whole(groups);
    hide MergeSmallFrom;
    if minSize > 0 {
      LoopFollows(groups, 0, minSize, n);
    }
  }

  /** A group below the minimum that is joined to nothing is the last one, or it fits neither with the next nor
      with what precedes it. */
  lemma SmallGroupLeft(groups: seq<Group>, i: nat, minSize: int, n: int)
    requires i + 1 < |groups| && GroupLen(groups[i]) < minSize
    requires !Joins(groups, i, minSize, n) && !Joins(groups, i + 1, minSize, n)
    ensures GroupLen(groups[i] + groups[i + 1]) > n
    ensures i > 0 ==>
      GroupLen(Flatten(groups[First(groups, i - 1, minSize, n)..i]) + groups[i]) > n
  {
    FirstOf(groups, i, minSize, n);
    hide Flatten, First, GroupLen;
    if GroupLen(groups[i] + groups[i + 1]) <= n {
      PulledJoins(groups, i + 1, minSize, n);
    }
  }
}
