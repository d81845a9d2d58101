/** Connected components of the relationship graph: a depth-first search along and against the
    relationships, sharing the visited map and the component, and the loop that starts it. */
module Components {

  /** For every entity title the titles its relationships lead to. */
  type Adjacency = map<string, set<string>>

  /** The two ends of a relationship; its other fields play no part here. */
  datatype Link = Link(source: string, target: string)

  predicate Edge(adj: Adjacency, u: string, v: string) { (u in adj && v in adj[u]) || (v in adj && u in adj[v]) }

  /** The titles of path, after u, lead to v, each one step along or against a relationship. */
  predicate Path(adj: Adjacency, u: string, path: seq<string>, v: string)
    decreases path
  {
    if path == [] then u == v else Edge(adj, u, path[0]) && Path(adj, path[0], path[1..], v)
  }

  /** Weakly connected. */
  ghost predicate Connected(adj: Adjacency, u: string, v: string) { exists path :: Path(adj, u, path, v) }

  lemma {:induction false} PathAppend(adj: Adjacency, u: string, p: seq<string>, v: string, q: seq<string>, w: string)
    requires Path(adj, u, p, v) && Path(adj, v, q, w)
    ensures Path(adj, u, p + q, w)
    decreases p
  {
    if p == [] {
      assert p + q == q;
    } else {
      assert (p + q)[1..] == p[1..] + q;
      PathAppend(adj, p[0], p[1..], v, q, w);
    }
  }

  lemma {:induction false} PathBack(adj: Adjacency, u: string, p: seq<string>, v: string) returns (q: seq<string>)
    requires Path(adj, u, p, v)
    ensures Path(adj, v, q, u)
    decreases p
  {
    if p == [] {
      q := [];
    } else {
      q := PathBack(adj, p[0], p[1..], v);
      assert Path(adj, p[0], [u], u) by { assert Edge(adj, p[0], u); assert [u][1..] == []; }
      PathAppend(adj, v, q, p[0], [u], u);
      q := q + [u];
    }
  }

  lemma ConnectedSelf(adj: Adjacency, u: string)
    ensures Connected(adj, u, u)
  {
    assert Path(adj, u, [], u);
  }

  lemma ConnectedSymmetric(adj: Adjacency, u: string, v: string)
    requires Connected(adj, u, v)
    ensures Connected(adj, v, u)
  {
    var p :| Path(adj, u, p, v);
    var q := PathBack(adj, u, p, v);
  }

  lemma ConnectedTransitive(adj: Adjacency, u: string, v: string, w: string)
    requires Connected(adj, u, v) && Connected(adj, v, w)
    ensures Connected(adj, u, w)
  {
    var p :| Path(adj, u, p, v);
    var q :| Path(adj, v, q, w);
    PathAppend(adj, u, p, v, q, w);
  }

  lemma EdgeConnects(adj: Adjacency, u: string, v: string, w: string)
    requires Edge(adj, u, v) && Connected(adj, v, w)
    ensures Connected(adj, u, w)
  {
    var p :| Path(adj, v, p, w);
    assert Path(adj, u, [v] + p, w) by { assert ([v] + p)[1..] == p; }
  }

  /** A set that edges do not leave. */
  ghost predicate Closed(adj: Adjacency, s: set<string>) { forall u, v | u in s && Edge(adj, u, v) :: v in s }

  lemma {:induction false} PathStays(adj: Adjacency, s: set<string>, u: string, p: seq<string>, v: string)
    requires Closed(adj, s) && u in s && Path(adj, u, p, v)
    ensures v in s
    decreases p
  {
    if p != [] {
      PathStays(adj, s, p[0], p[1..], v);
    }
  }

  /** Every edge stays within universe. */
  ghost predicate Within(adj: Adjacency, universe: set<string>) {
    forall u, v | Edge(adj, u, v) :: u in universe && v in universe
  }

  /** The titles of a component, each once. */
  ghost predicate Lists(component: seq<string>, s: set<string>) {
    && (forall u :: u in component <==> u in s)
    && forall i, j | 0 <= i < j < |component| :: component[i] != component[j]
  }

  lemma ListsAppend(a: seq<string>, s: set<string>, b: seq<string>, t: set<string>)
    requires Lists(a, s) && Lists(b, t) && s !! t
    ensures Lists(a + b, s + t)
  {
    var c := a + b;
    forall i, j | 0 <= i < j < |c|
      ensures c[i] != c[j]
    {
      if i < |a| <= j {
        assert c[i] == a[i] && c[j] == b[j - |a|];
        assert c[i] in a && c[j] in b;
      }
    }
  }

  /** What a search that starts at title adds: new titles only, all connected to title, none of them
      with a neighbour that is not visited. */
  ghost predicate Found(adj: Adjacency, title: string, before: set<string>, after: set<string>) {
    && before <= after
    && (forall u | u in after - before :: Connected(adj, title, u))
    && (forall u, v | u in after - before && Edge(adj, u, v) :: v in after)
  }

  /** visited and component, which all calls of dfs share. */
  class Search {
    var visited: set<string>
    var component: seq<string>

    constructor ()
      ensures visited == {} && component == []
    {
      visited := {};
      component := [];
    }

    method Dfs(title: string, adj: Adjacency, ghost universe: set<string>)
      requires title in universe && Within(adj, universe) && title !in visited && visited <= universe
      modifies this
      ensures title in visited && visited <= universe && Found(adj, title, old(visited), visited)
      ensures old(component) <= component && Lists(component[|old(component)|..], visited - old(visited))
      decreases universe - visited, 0
    {
      ghost var before, prior := visited, component;
      visited := visited + {title};
      component := component + [title];
      assert component[|prior|..] == [title];
      ConnectedSelf(adj, title);
      VisitTargets(title, adj, universe, before, prior);
      VisitSources(title, adj, universe, before, prior);
      assert forall v | Edge(adj, title, v) :: v in visited;
      hide Connected, Lists, Edge;
    }

    /** The first loop of dfs: along the relationships. */
    method VisitTargets(title: string, adj: Adjacency, ghost universe: set<string>, ghost before: set<string>,
        ghost prior: seq<string>)
      requires Within(adj, universe) && title in visited && visited <= universe
      requires Progress(adj, title, before, visited, prior, component)
      modifies this
      ensures old(visited) <= visited <= universe && (title in adj ==> adj[title] <= visited)
      ensures Progress(adj, title, before, visited, prior, component)
      decreases universe - visited, 2
    {
      ghost var entry := visited;
      var left := if title in adj then adj[title] else {};
      while left != {}
        invariant entry <= visited <= universe && left <= if title in adj then adj[title] else {}
        invariant title in adj ==> adj[title] - left <= visited
        invariant Progress(adj, title, before, visited, prior, component)
        decreases |left|
      {
        var target :| target in left;
        left := left - {target};
        if target !in visited {
          assert Edge(adj, title, target);
          hide Progress, Within, Edge;
          Visit(title, target, adj, universe, before, prior);
        }
      }
    }

    /** The second loop of dfs: against the relationships. */
    method VisitSources(title: string, adj: Adjacency, ghost universe: set<string>, ghost before: set<string>,
        ghost prior: seq<string>)
      requires Within(adj, universe) && title in visited && visited <= universe
      requires Progress(adj, title, before, visited, prior, component)
      modifies this
      ensures old(visited) <= visited <= universe && forall s | s in adj && title in adj[s] :: s in visited
      ensures Progress(adj, title, before, visited, prior, component)
      decreases universe - visited, 2
    {
      ghost var entry := visited;
      var sources := adj.Keys;
      while sources != {}
        invariant entry <= visited <= universe && sources <= adj.Keys
        invariant forall s | s in adj && s !in sources && title in adj[s] :: s in visited
        invariant Progress(adj, title, before, visited, prior, component)
        decreases |sources|
      {
        var source :| source in sources;
        sources := sources - {source};
        var targets := adj[source];
        ghost var seen := visited;
        while targets != {}
          invariant seen <= visited <= universe && targets <= adj[source]
          invariant title in adj[source] && title !in targets ==> source in visited
          invariant Progress(adj, title, before, visited, prior, component)
          decreases |targets|
        {
          var target :| target in targets;
          targets := targets - {target};
          if target == title && source !in visited {
            assert Edge(adj, title, source);
            hide Progress, Within, Edge;
            Visit(title, source, adj, universe, before, prior);
          }
        }
      }
    }

    /** The recursive call for a neighbour, and what it adds to the progress of the caller. */
    method Visit(title: string, next: string, adj: Adjacency, ghost universe: set<string>,
        ghost before: set<string>, ghost prior: seq<string>)
      requires Within(adj, universe) && Edge(adj, title, next) && next !in visited && visited <= universe
      requires title in visited && Progress(adj, title, before, visited, prior, component)
      modifies this
      ensures next in visited && old(visited) <= visited <= universe
      ensures Progress(adj, title, before, visited, prior, component)
      decreases universe - visited, 1
    {
      ghost var middle, soFar := visited, component;
      Dfs(next, adj, universe);
      ProgressGrows(adj, title, next, before, middle, visited, prior, soFar, component);
    }
  }

  /** Between calls: as Found, but title itself may still have neighbours to visit. */
  ghost predicate Progress(adj: Adjacency, title: string, before: set<string>, visited: set<string>,
      prior: seq<string>, component: seq<string>)
  {
    && before <= visited
    && (forall u | u in visited - before :: Connected(adj, title, u))
    && (forall u, v | u in visited - before && u != title && Edge(adj, u, v) :: v in visited)
    && prior <= component
    && Lists(component[|prior|..], visited - before)
  }

  lemma ProgressGrows(adj: Adjacency, title: string, next: string, before: set<string>, middle: set<string>,
      visited: set<string>,
      prior: seq<string>, soFar: seq<string>, component: seq<string>)
    requires Progress(adj, title, before, middle, prior, soFar) && Edge(adj, title, next)
    requires Found(adj, next, middle, visited)
    requires soFar <= component && Lists(component[|soFar|..], visited - middle)
    ensures Progress(adj, title, before, visited, prior, component)
  {
    forall u | u in visited - before
      ensures Connected(adj, title, u)
    {
      if u !in middle {
        EdgeConnects(adj, title, next, u);
      }
    }
    var a, b := soFar[|prior|..], component[|soFar|..];
    assert component[|prior|..] == a + b;
    ListsAppend(a, middle - before, b, visited - middle);
    assert (middle - before) + (visited - middle) == visited - before;
    hide Connected, Edge, Lists;
  }

  /** The titles of one component: each once, and with every title exactly those connected to it. */
  ghost predicate IsComponent(adj: Adjacency, part: seq<string>) {
    && part != []
    && (forall i, j | 0 <= i < j < |part| :: part[i] != part[j])
    && forall u, v | u in part :: v in part <==> Connected(adj, u, v)
  }

  /** The parts are components, they share no title, and together they hold the covered titles. */
  ghost predicate Partition(adj: Adjacency, parts: seq<seq<string>>, covered: set<string>) {
    && (forall k | 0 <= k < |parts| :: IsComponent(adj, parts[k]) && forall u <- parts[k] :: u in covered)
    && (forall u | u in covered :: exists k | 0 <= k < |parts| :: u in parts[k])
    && forall k, l, u | 0 <= k < l < |parts| && u in parts[k] :: u !in parts[l]
  }

  /** A search that starts outside a closed set of visited titles finds exactly one component. */
  lemma SearchFindsComponent(adj: Adjacency, title: string, before: set<string>, after: set<string>, part: seq<string>)
    requires Closed(adj, before) && title in after - before && Found(adj, title, before, after)
    requires Lists(part, after - before)
    ensures IsComponent(adj, part) && Closed(adj, after)
  {
    var fresh_ := after - before;
    forall u, v | u in fresh_ && Edge(adj, u, v)
      ensures v in fresh_
    {
      assert Edge(adj, v, u);
    }
    forall u, v | u in part
      ensures v in part <==> Connected(adj, u, v)
    {
      if v in part {
        ConnectedSymmetric(adj, title, u);
        ConnectedTransitive(adj, u, title, v);
      }
      if Connected(adj, u, v) {
        var p :| Path(adj, u, p, v);
        PathStays(adj, fresh_, u, p, v);
      }
    }
    assert title in part;
  }

  lemma PartitionGrows(adj: Adjacency, parts: seq<seq<string>>, covered: set<string>, part: seq<string>,
      after: set<string>)
    requires Partition(adj, parts, covered) && IsComponent(adj, part) && covered <= after
    requires Lists(part, after - covered)
    ensures Partition(adj, parts + [part], after)
  {
    hide IsComponent;
    var all := parts + [part];
    forall u | u in after
      ensures exists k | 0 <= k < |all| :: u in all[k]
    {
      if u in covered {
        var k :| 0 <= k < |parts| && u in parts[k];
        assert u in all[k];
      } else {
        assert u in all[|parts|];
      }
    }
  }

  /** What a partition says: two titles are in the same part exactly when they are connected. */
  lemma SamePartIffConnected(adj: Adjacency, parts: seq<seq<string>>, covered: set<string>, u: string, v: string)
    requires Partition(adj, parts, covered) && u in covered
    ensures (exists k | 0 <= k < |parts| :: u in parts[k] && v in parts[k]) <==> Connected(adj, u, v)
  {
    var k :| 0 <= k < |parts| && u in parts[k];
    assert IsComponent(adj, parts[k]);
    if j: int :| 0 <= j < |parts| && u in parts[j] && v in parts[j] {
      assert j == k;
    }
  }

  /** The loop over the entities. */
  method FindComponents(titles: seq<string>, adj: Adjacency) returns (subgraphs: seq<seq<string>>)
    requires Within(adj, set t | t in titles)
    ensures Partition(adj, subgraphs, set t | t in titles)
  {
    ghost var universe := set t | t in titles;
    var search := new Search();
    subgraphs := [];
    var i := 0;
    while i < |titles|
      invariant 0 <= i <= |titles|
      invariant (forall k | 0 <= k < i :: titles[k] in search.visited) && search.visited <= universe
      invariant Closed(adj, search.visited) && Partition(adj, subgraphs, search.visited)
    {
      var title := titles[i];
      if title !in search.visited {
        ghost var before := search.visited;
        search.component := [];
        search.Dfs(title, adj, universe);
        var component := search.component;
        assert component[0..] == component;
        SearchFindsComponent(adj, title, before, search.visited, component);
        if |component| > 0 {
          PartitionGrows(adj, subgraphs, before, component, search.visited);
          subgraphs := subgraphs + [component];
        }
      }
      i := i + 1;
    }
    assert search.visited == universe;
  }

  /** The adjacency list: an entry for every entity, a target for every relationship whose two ends
      are entities. */
  function AdjacencyOf(titles: seq<string>, rels: seq<Link>): Adjacency {
    map u | u in titles :: set v | v in titles && Link(u, v) in rels
  }

  method BuildAdjacency(titles: seq<string>, rels: seq<Link>) returns (adj: Adjacency)
    ensures adj == AdjacencyOf(titles, rels)
  {
    adj := map t | t in titles :: {};
    for i := 0 to |rels|
      invariant forall u :: u in adj <==> u in titles
      invariant forall u, v | u in adj :: v in adj[u] <==> (Link(u, v) in rels[..i] && v in titles)
    {
      var rel := rels[i];
      assert rels[..i + 1] == rels[..i] + [rel];
      if rel.source in adj {
        if rel.target in adj {
          adj := adj[rel.source := adj[rel.source] + {rel.target}];
        }
      }
    }
    assert rels[..|rels|] == rels;
    forall u | u in adj
      ensures adj[u] == set v | v in titles && Link(u, v) in rels
    {
    }
  }

  /** Two entities are related when a relationship joins them in either direction. */
  predicate Related(titles: seq<string>, rels: seq<Link>, u: string, v: string) {
    u in titles && v in titles && (Link(u, v) in rels || Link(v, u) in rels)
  }

  /** The edges that the search follows are the relationships between entities, either way. */
  lemma EdgesAreRelated(titles: seq<string>, rels: seq<Link>, u: string, v: string)
    ensures Edge(AdjacencyOf(titles, rels), u, v) == Related(titles, rels, u, v)
  {
  }

  /** The subgraphs of a knowledge graph: every entity title in exactly one of them, and two titles in
      the same one exactly when relationships connect them, followed in either direction. */
  method Subgraphs(titles: seq<string>, rels: seq<Link>) returns (subgraphs: seq<seq<string>>)
    ensures Partition(AdjacencyOf(titles, rels), subgraphs, set t | t in titles)
  {
    var adjacencyList := BuildAdjacency(titles, rels);
    subgraphs := FindComponents(titles, adjacencyList);
  }
}
