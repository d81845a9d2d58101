/** GetIndirectRelationChunks: the chunks at distance two, the heaviest first. Weights are reals. */
module IndirectChunks {
  import opened Common
  import opened ChunkGraph

  const DECAY: real := 0.5

  /** d is a first step from id, and c a second one that is neither id nor a neighbour of id. */
  predicate TwoSteps(g: Graph, id: string, d: string, c: string) {
    Look(g, id, d).Some? && Look(g, d, c).Some? && c != id && Look(g, id, c).None?
  }

  /** What two steps are worth together: the decayed product of the weights, and the larger degree. */
  function Path(g: Graph, id: string, d: string, c: string): Relation
    requires TwoSteps(g, id, d, c)
  {
    var (first, second) := (Look(g, id, d).value, Look(g, d, c).value);
    Relation(first.weight * second.weight * DECAY, Max(first.degree, second.degree))
  }

  function Max(a: int, b: int): int { if a < b then b else a }

  ghost predicate Indirect(g: Graph, id: string, c: string) { exists d :: TwoSteps(g, id, d, c) }

  /** r is what the best of the ways to c in two steps is worth, or one of the best by weight. */
  ghost predicate IsBest(g: Graph, id: string, c: string, r: Relation) {
    && (exists d :: TwoSteps(g, id, d, c) && r == Path(g, id, d, c))
    && forall d | TwoSteps(g, id, d, c) :: Path(g, id, d, c).weight <= r.weight
  }

  /** Best so far, when the pairs in seen have been met. */
  ghost predicate BestOf(m: map<string, Relation>, g: Graph, id: string, seen: set<(string, string)>) {
    && (forall d, c | (d, c) in seen && TwoSteps(g, id, d, c) :: c in m && Path(g, id, d, c).weight <= m[c].weight)
    && forall c | c in m :: exists d :: (d, c) in seen && TwoSteps(g, id, d, c) && m[c] == Path(g, id, d, c)
  }

  function Improved(m: map<string, Relation>, c: string, r: Relation): map<string, Relation> {
    if c !in m || r.weight > m[c].weight then m[c := r] else m
  }

  lemma ImprovedIsBest(m: map<string, Relation>, g: Graph, id: string, seen: set<(string, string)>,
      d: string, c: string)
    requires BestOf(m, g, id, seen) && TwoSteps(g, id, d, c)
    ensures BestOf(Improved(m, c, Path(g, id, d, c)), g, id, seen + {(d, c)})
  {
    var r := Path(g, id, d, c);
    var n := Improved(m, c, r);
    var more := seen + {(d, c)};
    hide TwoSteps, Path;
    forall x | x in n
      ensures exists e :: (e, x) in more && TwoSteps(g, id, e, x) && n[x] == Path(g, id, e, x)
    {
      if x == c && n[x] == r {
        assert (d, x) in more;
      } else {
        var e :| (e, x) in seen && TwoSteps(g, id, e, x) && m[x] == Path(g, id, e, x);
        assert (e, x) in more;
      }
    }
  }

  lemma SkippedIsBest(m: map<string, Relation>, g: Graph, id: string, seen: set<(string, string)>,
      d: string, c: string)
    requires BestOf(m, g, id, seen) && !TwoSteps(g, id, d, c)
    ensures BestOf(m, g, id, seen + {(d, c)})
  {
    var more := seen + {(d, c)};
    hide TwoSteps, Path;
    forall x | x in m
      ensures exists e :: (e, x) in more && TwoSteps(g, id, e, x) && m[x] == Path(g, id, e, x)
    {
      var e :| (e, x) in seen && TwoSteps(g, id, e, x) && m[x] == Path(g, id, e, x);
      assert (e, x) in more;
    }
  }

  function Neighbours(g: Graph, id: string): (s: set<string>)
    ensures forall d :: d in s <==> Look(g, id, d).Some?
  {
    if id in g then g[id].Keys else {}
  }

  /** The second steps through d. */
  ghost function PairsOf(d: string, cs: set<string>): set<(string, string)> { set c | c in cs :: (d, c) }

  /** The loop over the neighbours of one neighbour. */
  method ThroughNeighbour(g: Graph, id: string, d: string, direct: set<string>, m: map<string, Relation>,
      ghost seen: set<(string, string)>) returns (n: map<string, Relation>)
    requires Look(g, id, d).Some? && BestOf(m, g, id, seen) && direct == {id} + Neighbours(g, id)
    ensures BestOf(n, g, id, seen + PairsOf(d, Neighbours(g, d)))
  {
    n := m;
    ghost var more := seen;
    var left := Neighbours(g, d);
    while left != {}
      invariant left <= Neighbours(g, d) && BestOf(n, g, id, more)
      invariant more == seen + PairsOf(d, Neighbours(g, d) - left)
      decreases |left|
    {
      var c :| c in left;
      left := left - {c};
      assert TwoSteps(g, id, d, c) <==> c !in direct;
      hide BestOf, Improved, Look, TwoSteps, Path;
      if c in direct {
        SkippedIsBest(n, g, id, more, d, c);
      } else {
        var r := Combine(g, id, d, c);
        ImprovedIsBest(n, g, id, more, d, c);
        n := Improved(n, c, r);
      }
      more := more + {(d, c)};
    }
    assert Neighbours(g, d) - left == Neighbours(g, d);
  }

  /** combinedWeight and combinedDegree. */
  method Combine(g: Graph, id: string, d: string, c: string) returns (r: Relation)
    requires TwoSteps(g, id, d, c)
    ensures r == Path(g, id, d, c)
  {
    var first, second := Look(g, id, d).value, Look(g, d, c).value;
    r := Relation(first.weight * second.weight * DECAY, Max(first.degree, second.degree));
  }

  /** The two nested loops: for every chunk at distance two, and no other, what its best path is worth. */
  method CollectIndirect(g: Graph, id: string) returns (m: map<string, Relation>)
    ensures forall c :: c in m <==> Indirect(g, id, c)
    ensures forall c | c in m :: IsBest(g, id, c, m[c])
  {
    m := map[];
    ghost var seen: set<(string, string)> := {};
    var direct := {id} + Neighbours(g, id);
    var left := Neighbours(g, id);
    while left != {}
      invariant left <= Neighbours(g, id) && BestOf(m, g, id, seen)
      invariant forall d, c | d in Neighbours(g, id) - left && c in Neighbours(g, d) :: (d, c) in seen
      decreases |left|
    {
      var d :| d in left;
      left := left - {d};
      hide BestOf, TwoSteps;
      m := ThroughNeighbour(g, id, d, direct, m, seen);
      seen := seen + PairsOf(d, Neighbours(g, d));
    }
    AllSeen(m, g, id, seen);
  }

  lemma AllSeen(m: map<string, Relation>, g: Graph, id: string, seen: set<(string, string)>)
    requires BestOf(m, g, id, seen)
    requires forall d, c | d in Neighbours(g, id) && c in Neighbours(g, d) :: (d, c) in seen
    ensures forall c :: c in m <==> Indirect(g, id, c)
    ensures forall c | c in m :: IsBest(g, id, c, m[c])
  {
    assert forall d, c | TwoSteps(g, id, d, c) :: (d, c) in seen;
    hide TwoSteps, Path, Neighbours, Look;
    forall c
      ensures c in m <==> Indirect(g, id, c)
      ensures c in m ==> IsBest(g, id, c, m[c])
    {
      if c in m {
        var d :| (d, c) in seen && TwoSteps(g, id, d, c) && m[c] == Path(g, id, d, c);
      }
    }
  }

  // ----- ranking

  datatype Weighted = Weighted(id: string, weight: real, degree: int)

  /** The order of the result: heavier first, then higher degree. */
  predicate Ahead(a: Weighted, b: Weighted) { a.weight > b.weight || (a.weight == b.weight && a.degree >= b.degree) }

  /** In order, no two entries for one chunk. */
  predicate Ranked(ws: seq<Weighted>) {
    ws != [] ==> (forall y <- ws[1..] :: Ahead(ws[0], y) && y.id != ws[0].id) && Ranked(ws[1..])
  }

  function Insert(ws: seq<Weighted>, x: Weighted): seq<Weighted> {
    if ws == [] then [x] else if Ahead(x, ws[0]) then [x] + ws else [ws[0]] + Insert(ws[1..], x)
  }

  lemma {:induction false} InsertIs(ws: seq<Weighted>, x: Weighted)
    requires Ranked(ws) && forall y <- ws :: y.id != x.id
    ensures var r := Insert(ws, x);
      Ranked(r) && |r| == |ws| + 1 && forall y :: y in r <==> y in ws || y == x
  {
    if ws == [] {
      assert [x][1..] == [];
    } else if Ahead(x, ws[0]) {
      assert ([x] + ws)[1..] == ws;
      assert ws == [ws[0]] + ws[1..];
    } else {
      var more := Insert(ws[1..], x);
      InsertIs(ws[1..], x);
      assert ([ws[0]] + more)[1..] == more;
      assert ws == [ws[0]] + ws[1..];
    }
  }

  /** The entries of the map as a list, in the order of slices.SortFunc. */
  method Rank(m: map<string, Relation>) returns (ws: seq<Weighted>)
    ensures Ranked(ws) && forall w :: w in ws <==> w.id in m && w == Weighted(w.id, m[w.id].weight, m[w.id].degree)
  {
    ws := [];
    var left := m.Keys;
    while left != {}
      invariant left <= m.Keys && Ranked(ws)
      invariant forall w :: w in ws <==>
        w.id in m && w.id !in left && w == Weighted(w.id, m[w.id].weight, m[w.id].degree)
      decreases |left|
    {
      var c :| c in left;
      var x := Weighted(c, m[c].weight, m[c].degree);
      left := left - {c};
      hide Ranked, Insert;
      InsertIs(ws, x);
      ws := Insert(ws, x);
    }
  }

  function Ids(ws: seq<Weighted>): (ids: seq<string>)
    ensures |ids| == |ws| && forall i | 0 <= i < |ws| :: ids[i] == ws[i].id
  {
    if ws == [] then [] else [ws[0].id] + Ids(ws[1..])
  }

  lemma {:induction false} RankedAt(ws: seq<Weighted>, i: nat, j: nat)
    requires Ranked(ws) && i < j < |ws|
    ensures Ahead(ws[i], ws[j]) && ws[i].id != ws[j].id
    decreases i
  {
    hide Ahead;
    if i == 0 {
      assert ws[j] == ws[1..][j - 1];
    } else {
      RankedAt(ws[1..], i - 1, j - 1);
    }
  }

  /** The chunks at distance two, each once, with what its best path is worth, in order: the heavier first,
      and of equally heavy ones the one with the higher degree. */
  ghost predicate IsRanking(g: Graph, id: string, ws: seq<Weighted>) {
    && Ranked(ws)
    && (forall c :: c in Ids(ws) <==> Indirect(g, id, c))
    && forall w <- ws :: IsBest(g, id, w.id, Relation(w.weight, w.degree))
  }

  /** The ids of a ranking of the chunks at distance two, cut off after topK when topK is positive. */
  method GetIndirectRelationChunks(g: Graph, id: string, topK: int) returns (ids: seq<string>)
    ensures exists ws :: IsRanking(g, id, ws) && ids == Ids(ws)[..if 0 < topK < |ws| then topK else |ws|]
  {
    var indirect := CollectIndirect(g, id);
    var ws := Rank(indirect);
    IdsAreKeys(indirect, ws);
    ids := FirstIds(ws, topK);
    assert IsRanking(g, id, ws);
  }

  /** The cut, and the loop that takes the ids. */
  method FirstIds(ws: seq<Weighted>, topK: int) returns (ids: seq<string>)
    ensures ids == Ids(ws)[..if 0 < topK < |ws| then topK else |ws|]
  {
    var resultCount := |ws|;
    if topK > 0 && topK < resultCount {
      resultCount := topK;
    }
    ids := [];
    for i := 0 to resultCount
      invariant ids == Ids(ws)[..i]
    {
      ids := ids + [ws[i].id];
    }
  }

  lemma BestIsUnique(g: Graph, id: string, c: string, r: Relation, q: Relation)
    requires IsBest(g, id, c, r) && IsBest(g, id, c, q)
    ensures r.weight == q.weight
  {
  }

  lemma IdsAreKeys(m: map<string, Relation>, ws: seq<Weighted>)
    requires forall w :: w in ws <==> w.id in m && w == Weighted(w.id, m[w.id].weight, m[w.id].degree)
    ensures forall c :: c in Ids(ws) <==> c in m
  {
    var ids := Ids(ws);
    forall c
      ensures c in ids <==> c in m
    {
      if c in ids {
        var i :| 0 <= i < |ids| && ids[i] == c;
        assert ws[i] in ws;
      }
      if c in m {
        var x := Weighted(c, m[c].weight, m[c].degree);
        assert x in ws;
        var i :| 0 <= i < |ws| && ws[i] == x;
        assert ids[i] == c;
      }
    }
  }

  /** What a ranking says of two chunks, whichever ranking it is: a chunk with a smaller best weight never
      comes first, of equally heavy ones the higher degree does, and no chunk comes twice. */
  lemma RankingFollowsWeight(g: Graph, id: string, ws: seq<Weighted>, i: nat, j: nat, r: Relation, q: Relation)
    requires IsRanking(g, id, ws) && i < j < |ws|
    requires IsBest(g, id, ws[i].id, r) && IsBest(g, id, ws[j].id, q)
    ensures r.weight >= q.weight && ws[i].id != ws[j].id
    ensures r.weight == q.weight ==> ws[i].degree >= ws[j].degree
  {
    hide IsBest, Ranked;
    RankedAt(ws, i, j);
    var v, w := ws[i], ws[j];
    assert v in ws && w in ws;
    BestIsUnique(g, id, v.id, r, Relation(v.weight, v.degree));
    BestIsUnique(g, id, w.id, q, Relation(w.weight, w.degree));
  }

  // ----- both ways

  lemma StepsBack(g: Graph, a: string, d: string, c: string)
    requires Symmetric(g)
    ensures TwoSteps(g, a, d, c) == TwoSteps(g, c, d, a)
    ensures TwoSteps(g, a, d, c) ==> Path(g, a, d, c) == Path(g, c, d, a)
  {
    assert Look(g, a, d) == Look(g, d, a) && Look(g, d, c) == Look(g, c, d) && Look(g, a, c) == Look(g, c, a);
    hide Look;
    if TwoSteps(g, a, d, c) {
      var v, w := Look(g, a, d).value.weight, Look(g, d, c).value.weight;
      assert v * w == w * v;
    }
  }

  /** In a symmetric graph, being indirectly related is symmetric, and so is what it is worth. */
  lemma IndirectIsSymmetric(g: Graph, a: string, c: string, r: Relation)
    requires Symmetric(g)
    ensures Indirect(g, a, c) == Indirect(g, c, a)
    ensures IsBest(g, a, c, r) == IsBest(g, c, a, r)
  {
    forall d
      ensures TwoSteps(g, a, d, c) == TwoSteps(g, c, d, a)
      ensures TwoSteps(g, a, d, c) ==> Path(g, a, d, c) == Path(g, c, d, a)
    {
      StepsBack(g, a, d, c);
    }
    hide TwoSteps, Path, Symmetric;
    if d :| TwoSteps(g, a, d, c) && r == Path(g, a, d, c) {
      assert TwoSteps(g, c, d, a);
    }
    if d :| TwoSteps(g, c, d, a) && r == Path(g, c, d, a) {
      assert TwoSteps(g, a, d, c);
    }
  }

  // ----- what indirect means

  /** There is a walk of k steps from a to b. */
  ghost predicate Walk(g: Graph, a: string, b: string, k: nat)
    decreases k
  {
    if k == 0 then a == b else exists d :: Look(g, a, d).Some? && Walk(g, d, b, k - 1)
  }

  lemma WalkOne(g: Graph, a: string, b: string)
    ensures Walk(g, a, b, 1) <==> Look(g, a, b).Some?
  {
    hide Look;
    assert Walk(g, b, b, 0);
  }

  /** The indirect chunks are those at distance two: reached in two steps, and not in fewer. */
  lemma IndirectIsDistanceTwo(g: Graph, id: string, c: string)
    ensures Indirect(g, id, c) <==> Walk(g, id, c, 2) && !Walk(g, id, c, 1) && !Walk(g, id, c, 0)
  {
    hide Look;
    WalkOne(g, id, c);
    if d :| Look(g, id, d).Some? && Walk(g, d, c, 1) && c != id && Look(g, id, c).None? {
      WalkOne(g, d, c);
      assert TwoSteps(g, id, d, c);
    }
    if d :| TwoSteps(g, id, d, c) {
      WalkOne(g, d, c);
    }
  }

  /** What the best way is worth: half the product of its two weights, no less than by any other way, and the
      larger of its two degrees. */
  lemma BestIs(g: Graph, id: string, c: string, r: Relation) returns (d: string)
    requires IsBest(g, id, c, r)
    ensures Look(g, id, d).Some? && Look(g, d, c).Some?
    ensures var (first, second) := (Look(g, id, d).value, Look(g, d, c).value);
      && r.weight == first.weight * second.weight / 2.0
      && r.degree >= first.degree && r.degree >= second.degree
      && (r.degree == first.degree || r.degree == second.degree)
    ensures forall e | Look(g, id, e).Some? && Look(g, e, c).Some? ::
      Look(g, id, e).value.weight * Look(g, e, c).value.weight / 2.0 <= r.weight
  {
    hide Look;
    d :| TwoSteps(g, id, d, c) && r == Path(g, id, d, c);
    forall e | Look(g, id, e).Some? && Look(g, e, c).Some?
      ensures Look(g, id, e).value.weight * Look(g, e, c).value.weight / 2.0 <= r.weight
    {
      assert TwoSteps(g, id, e, c);
      assert Path(g, id, e, c).weight <= r.weight;
    }
  }
}
