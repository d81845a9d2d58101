/** The chunk graph of the knowledge-graph builder: how relationships between entities become
    relations between chunks. */
module ChunkGraph {
  import opened Common

  datatype Relation = Relation(weight: real, degree: int)

  datatype Relationship = Relationship(source: string, target: string, weight: real, combinedDegree: int)

  type Graph = map<string, map<string, Relation>>

  /** How chunk a is related to chunk b. */
  function Look(g: Graph, a: string, b: string): Option<Relation> {
    if a in g && b in g[a] then Some(g[a][b]) else None
  }

  /** Symmetric in keys and in values. */
  ghost predicate Symmetric(g: Graph) { forall a, b :: Look(g, a, b) == Look(g, b, a) }

  function WithNode(g: Graph, a: string): Graph { if a in g then g else g[a := map[]] }

  /** The innermost step: the relation stored both ways. */
  function Link(g: Graph, a: string, b: string, r: Relation): Graph
    requires a in g && b in g
  {
    var h := g[a := g[a][b := r]];
    h[b := h[b][a := r]]
  }

  predicate Ends(a: string, b: string, x: string, y: string) { (x == a && y == b) || (x == b && y == a) }

  lemma LookLink(g: Graph, a: string, b: string, r: Relation)
    requires a in g && b in g
    ensures forall x, y :: Look(Link(g, a, b, r), x, y) == if Ends(a, b, x, y) then Some(r) else Look(g, x, y)
  {
  }

  lemma LookWithNode(g: Graph, a: string)
    ensures forall x, y :: Look(WithNode(g, a), x, y) == Look(g, x, y)
  {
  }

  /** One of the chunks comes from the sources and the other from the targets. */
  predicate Across(sources: seq<string>, targets: seq<string>, a: string, b: string) {
    (a in sources && b in targets) || (b in sources && a in targets)
  }

  predicate Joins(rel: Relationship, entities: map<string, seq<string>>, a: string, b: string) {
    && rel.source in entities && rel.target in entities
    && Across(entities[rel.source], entities[rel.target], a, b)
  }

  function RelationOf(rel: Relationship): Relation { Relation(rel.weight, rel.combinedDegree) }

  /** The last relationship that joins the two chunks, in iteration order. */
  function Latest(rels: seq<Relationship>, entities: map<string, seq<string>>, a: string, b: string): Option<Relation> {
    if rels == [] then None
    else
      var last := rels[|rels| - 1];
      if Joins(last, entities, a, b) then Some(RelationOf(last)) else Latest(rels[..|rels| - 1], entities, a, b)
  }

  /** What a build leaves between two chunks: the latest relation that joins them, or what was there. */
  function After(before: Option<Relation>, latest: Option<Relation>): Option<Relation> {
    if latest.Some? then latest else before
  }

  class GraphBuilder {
    var chunkGraph: Graph

    constructor ()
      ensures chunkGraph == map[] && Symmetric(chunkGraph)
    {
      chunkGraph := map[];
    }

    /** The loop over the target chunks for one source chunk. */
    method LinkSource(source: string, targets: seq<string>, r: Relation)
      modifies this
      ensures forall a, b :: (Look(chunkGraph, a, b) ==
        if Across([source], targets, a, b) then Some(r) else Look(old(chunkGraph), a, b))
    {
      LookWithNode(chunkGraph, source);
      chunkGraph := WithNode(chunkGraph, source);
      ghost var before := chunkGraph;
      for j := 0 to |targets|
        invariant source in chunkGraph
        invariant forall a, b :: (Look(chunkGraph, a, b) ==
          if Across([source], targets[..j], a, b) then Some(r) else Look(before, a, b))
      {
        var target := targets[j];
        assert targets[..j + 1] == targets[..j] + [target];
        LookWithNode(chunkGraph, target);
        chunkGraph := WithNode(chunkGraph, target);
        LookLink(chunkGraph, source, target, r);
        chunkGraph := Link(chunkGraph, source, target, r);
        assert source in chunkGraph;
        hide Look, Link, WithNode;
      }
      assert targets[..|targets|] == targets;
    }

    /** The two loops over the chunks of one relationship's entities. */
    method LinkEntities(sources: seq<string>, targets: seq<string>, r: Relation)
      modifies this
      ensures forall a, b :: (Look(chunkGraph, a, b) ==
        if Across(sources, targets, a, b) then Some(r) else Look(old(chunkGraph), a, b))
    {
      ghost var before := chunkGraph;
      hide Look;
      for i := 0 to |sources|
        invariant forall a, b :: (Look(chunkGraph, a, b) ==
          if Across(sources[..i], targets, a, b) then Some(r) else Look(before, a, b))
      {
        assert sources[..i + 1] == sources[..i] + [sources[i]];
        LinkSource(sources[i], targets, r);
      }
      assert sources[..|sources|] == sources;
    }

    /** buildChunkGraph: whatever the iteration order of the relationships, the graph stays symmetric,
        and every pair of chunks holds the latest relation that joins it. */
    method BuildChunkGraph(rels: seq<Relationship>, entities: map<string, seq<string>>)
      requires Symmetric(chunkGraph)
      modifies this
      ensures Symmetric(chunkGraph)
      ensures forall a, b :: Look(chunkGraph, a, b) == After(Look(old(chunkGraph), a, b), Latest(rels, entities, a, b))
    {
      ghost var before := chunkGraph;
      hide Look;
      for i := 0 to |rels|
        invariant forall a, b :: Look(chunkGraph, a, b) == After(Look(before, a, b), Latest(rels[..i], entities, a, b))
      {
        var rel := rels[i];
        LatestNext(rels, entities, i);
        if rel.source !in entities || rel.target !in entities {
          continue;
        }
        hide Across, Latest;
        LinkEntities(entities[rel.source], entities[rel.target], RelationOf(rel));
      }
      assert rels[..|rels|] == rels;
      LatestSymmetric(rels, entities);
      hide Latest;
    }
  }

  lemma LatestNext(rels: seq<Relationship>, entities: map<string, seq<string>>, i: nat)
    requires i < |rels|
    ensures forall a, b :: (Latest(rels[..i + 1], entities, a, b) ==
      if Joins(rels[i], entities, a, b) then Some(RelationOf(rels[i])) else Latest(rels[..i], entities, a, b))
  {
    assert rels[..i + 1][..i] == rels[..i];
  }

  lemma {:induction false} LatestSymmetric(rels: seq<Relationship>, entities: map<string, seq<string>>)
    ensures forall a, b :: Latest(rels, entities, a, b) == Latest(rels, entities, b, a)
  {
    if rels != [] {
      LatestSymmetric(rels[..|rels| - 1], entities);
    }
  }

  /** A chunk of one end of the relationship and a chunk of the other. */
  ghost predicate Links(rel: Relationship, entities: map<string, seq<string>>, a: string, b: string) {
    && rel.source in entities && rel.target in entities
    && ((a in entities[rel.source] && b in entities[rel.target])
        || (b in entities[rel.source] && a in entities[rel.target]))
  }

  /** The latest relation is that of the last relationship that links the two chunks, if any does. */
  lemma {:induction false} LatestIsLast(rels: seq<Relationship>, entities: map<string, seq<string>>, a: string,
      b: string) returns (k: nat)
    ensures var r := Latest(rels, entities, a, b);
      if r.None? then forall i | 0 <= i < |rels| :: !Links(rels[i], entities, a, b)
      else
        && k < |rels| && Links(rels[k], entities, a, b)
        && r.value == Relation(rels[k].weight, rels[k].combinedDegree)
        && forall i | k < i < |rels| :: !Links(rels[i], entities, a, b)
  {
    k := 0;
    if rels != [] {
      var last := |rels| - 1;
      if Joins(rels[last], entities, a, b) {
        k := last;
      } else {
        k := LatestIsLast(rels[..last], entities, a, b);
      }
    }
  }
}
