/** Breadth-first search over a directed graph, with the path rebuilt from the predecessor map. */
module BreadthFirstSearch {

  type Node = nat

  /** Each node with the targets of its edges, in the order of the edges. */
  type Graph = map<Node, seq<Node>>

  /** Edges lead to nodes of the graph. */
  ghost predicate Closed(g: Graph) {
    forall v, i :: v in g && 0 <= i < |g[v]| ==> g[v][i] in g
  }

  /** A path along edges from `source` to `target`. */
  ghost predicate IsPath(g: Graph, source: Node, target: Node, p: seq<Node>) {
    && p != [] && p[0] == source && p[|p| - 1] == target
    && (forall i :: 0 <= i < |p| ==> p[i] in g)
    && (forall i :: 0 <= i < |p| - 1 ==> p[i + 1] in g[p[i]])
  }

  ghost predicate Reachable(g: Graph, source: Node, target: Node) {
    exists p :: IsPath(g, source, target, p)
  }

  /** The nodes visited so far form a tree of predecessors. `dist` is the depth in this tree, and the
      predecessors of all nodes but the source are among `expanded`. */
  ghost predicate Tree(g: Graph, source: Node, actions: map<Node, Node>, dist: map<Node, nat>, expanded: set<Node>) {
    && source in dist && dist[source] == 0
    && dist.Keys == actions.Keys && dist.Keys <= g.Keys
    && forall v :: v in actions && v != source ==>
         actions[v] in dist && actions[v] in expanded && v in g[actions[v]] && dist[v] == dist[actions[v]] + 1
  }

  /** The nodes of `processed` have all their targets visited, one step farther at most. */
  ghost predicate Expanded(g: Graph, dist: map<Node, nat>, processed: set<Node>) {
    forall u, i :: u in processed && u in dist && u in g && 0 <= i < |g[u]| ==>
      g[u][i] in dist && dist[g[u][i]] <= dist[u] + 1
  }

  /** The queue is ordered by distance. */
  ghost predicate Ordered(queue: seq<Node>, dist: map<Node, nat>) {
    && (forall i :: 0 <= i < |queue| ==> queue[i] in dist)
    && (forall i, j :: 0 <= i <= j < |queue| ==> dist[queue[i]] <= dist[queue[j]])
  }

  /** All nodes of `queue` lie at distance `depth` or one farther, and no node of `processed` is farther than
      `depth`. */
  ghost predicate Frontier(queue: seq<Node>, dist: map<Node, nat>, processed: set<Node>, depth: nat) {
    && (forall v :: v in queue && v in dist ==> depth <= dist[v] <= depth + 1)
    && (forall v :: v in processed && v in dist ==> dist[v] <= depth)
  }

  /** The visited nodes. */
  ghost predicate Visited(dist: map<Node, nat>, queue: seq<Node>, processed: set<Node>) {
    forall v :: v in dist <==> v in processed || v in queue
  }

  ghost predicate Close(dist: map<Node, nat>, nodes: seq<Node>, depth: nat) {
    forall i :: 0 <= i < |nodes| ==> nodes[i] in dist && dist[nodes[i]] <= depth
  }

  ghost predicate Search(
    g: Graph, source: Node, queue: seq<Node>, actions: map<Node, Node>, dist: map<Node, nat>, processed: set<Node>)
  {
    && Tree(g, source, actions, dist, processed)
    && Expanded(g, dist, processed)
    && Ordered(queue, dist)
    && (queue != [] ==> Frontier(queue, dist, processed, dist[queue[0]]))
    && Visited(dist, queue, processed)
  }

  /** While the targets of `u` are looked at, the first `done` of them having been visited. */
  ghost predicate Expanding(
    g: Graph, source: Node, queue: seq<Node>, actions: map<Node, Node>, dist: map<Node, nat>, processed: set<Node>,
    u: Node, done: nat)
  {
    && u in dist && u in g && done <= |g[u]|
    && Tree(g, source, actions, dist, processed + {u})
    && Expanded(g, dist, processed)
    && Close(dist, g[u][..done], dist[u] + 1)
    && Ordered(queue, dist)
    && Frontier(queue, dist, processed, dist[u])
    && Visited(dist, queue, processed + {u})
  }

  lemma TakeFront(
    g: Graph, source: Node, queue: seq<Node>, actions: map<Node, Node>, dist: map<Node, nat>, processed: set<Node>)
    requires Search(g, source, queue, actions, dist, processed) && queue != []
    ensures Expanding(g, source, queue[1..], actions, dist, processed, queue[0], 0)
  {
    TailOfQueue(queue, dist, processed);
    assert g[queue[0]][..0] == [];
  }

  lemma TailOfQueue(queue: seq<Node>, dist: map<Node, nat>, processed: set<Node>)
    requires queue != [] && Ordered(queue, dist) && Frontier(queue, dist, processed, dist[queue[0]])
    requires Visited(dist, queue, processed)
    ensures Ordered(queue[1..], dist) && Frontier(queue[1..], dist, processed, dist[queue[0]])
    ensures Visited(dist, queue[1..], processed + {queue[0]})
  {
    assert queue == [queue[0]] + queue[1..];
  }

  lemma DiscoverInTree(
    g: Graph, source: Node, actions: map<Node, Node>, dist: map<Node, nat>, expanded: set<Node>, u: Node, to: Node)
    requires Tree(g, source, actions, dist, expanded)
    requires u in dist && u in g && u in expanded && to in g[u] && to in g && to !in dist
    ensures Tree(g, source, actions[to := u], dist[to := dist[u] + 1], expanded)
  {
  }

  lemma DiscoverInOrder(queue: seq<Node>, dist: map<Node, nat>, depth: nat, to: Node)
    requires Ordered(queue, dist) && to !in dist
    requires forall v :: v in queue ==> dist[v] <= depth
    ensures Ordered(queue + [to], dist[to := depth])
  {
  }

  lemma DiscoverInFrontier(
    queue: seq<Node>, dist: map<Node, nat>, processed: set<Node>, u: Node, depth: nat, to: Node)
    requires Frontier(queue, dist, processed, depth) && Visited(dist, queue, processed + {u}) && to !in dist
    ensures Frontier(queue + [to], dist[to := depth + 1], processed, depth)
    ensures Visited(dist[to := depth + 1], queue + [to], processed + {u})
  {
    assert to !in processed;
  }

  lemma DiscoverInQueue(
    queue: seq<Node>, dist: map<Node, nat>, processed: set<Node>, u: Node, depth: nat, to: Node)
    requires Ordered(queue, dist) && Frontier(queue, dist, processed, depth) && Visited(dist, queue, processed + {u})
    requires to !in dist
    ensures to !in processed
    ensures Ordered(queue + [to], dist[to := depth + 1])
    ensures Frontier(queue + [to], dist[to := depth + 1], processed, depth)
    ensures Visited(dist[to := depth + 1], queue + [to], processed + {u})
  {
    DiscoverInOrder(queue, dist, depth + 1, to);
    DiscoverInFrontier(queue, dist, processed, u, depth, to);
    assert to !in processed + {u};
  }

  lemma DiscoverIsClose(dist: map<Node, nat>, nodes: seq<Node>, depth: nat, to: Node)
    requires Close(dist, nodes, depth) && to !in dist
    ensures Close(dist[to := depth], nodes + [to], depth)
  {
  }

  lemma DiscoverInGraph(g: Graph, dist: map<Node, nat>, processed: set<Node>, to: Node, depth: nat)
    requires Expanded(g, dist, processed) && to !in dist && to !in processed
    ensures Expanded(g, dist[to := depth], processed)
  {
  }

  lemma OneMore(nodes: seq<Node>, done: nat)
    requires done < |nodes|
    ensures nodes[..done + 1] == nodes[..done] + [nodes[done]]
  {
  }

  lemma TargetInGraph(g: Graph, u: Node, i: nat)
    requires Closed(g) && u in g && i < |g[u]|
    ensures g[u][i] in g && g[u][i] in g[u]
  {
  }

  lemma DiscoverTarget(g: Graph, dist: map<Node, nat>, processed: set<Node>, u: Node, done: nat)
    requires u in dist && u in g && done < |g[u]| && g[u][done] !in dist && g[u][done] !in processed
    requires Expanded(g, dist, processed) && Close(dist, g[u][..done], dist[u] + 1)
    ensures Expanded(g, dist[g[u][done] := dist[u] + 1], processed)
    ensures Close(dist[g[u][done] := dist[u] + 1], g[u][..done + 1], dist[u] + 1)
  {
    OneMore(g[u], done);
    DiscoverIsClose(dist, g[u][..done], dist[u] + 1, g[u][done]);
    DiscoverInGraph(g, dist, processed, g[u][done], dist[u] + 1);
  }

  lemma Discover(
    g: Graph, source: Node, queue: seq<Node>, actions: map<Node, Node>, dist: map<Node, nat>, processed: set<Node>,
    u: Node, done: nat)
    requires Closed(g) && Expanding(g, source, queue, actions, dist, processed, u, done) && done < |g[u]|
    requires g[u][done] !in dist
    ensures var to := g[u][done];
            Expanding(g, source, queue + [to], actions[to := u], dist[to := dist[u] + 1], processed, u, done + 1)
  {
    var to := g[u][done];
    TargetInGraph(g, u, done);
    DiscoverInTree(g, source, actions, dist, processed + {u}, u, to);
    DiscoverInQueue(queue, dist, processed, u, dist[u], to);
    DiscoverTarget(g, dist, processed, u, done);
    IsExpanding(g, source, queue + [to], actions[to := u], dist[to := dist[u] + 1], processed, u, done + 1, dist[u]);
  }

  lemma IsExpanding(
    g: Graph, source: Node, queue: seq<Node>, actions: map<Node, Node>, dist: map<Node, nat>, processed: set<Node>,
    u: Node, done: nat, depth: nat)
    requires u in dist && u in g && done <= |g[u]| && dist[u] == depth
    requires Tree(g, source, actions, dist, processed + {u}) && Expanded(g, dist, processed)
    requires Close(dist, g[u][..done], depth + 1) && Ordered(queue, dist)
    requires Frontier(queue, dist, processed, depth) && Visited(dist, queue, processed + {u})
    ensures Expanding(g, source, queue, actions, dist, processed, u, done)
  {
  }

  /** A target seen before is close enough already. */
  lemma Known(
    g: Graph, source: Node, queue: seq<Node>, actions: map<Node, Node>, dist: map<Node, nat>, processed: set<Node>,
    u: Node, done: nat)
    requires Expanding(g, source, queue, actions, dist, processed, u, done) && done < |g[u]| && g[u][done] in dist
    ensures Expanding(g, source, queue, actions, dist, processed, u, done + 1)
  {
    OneMore(g[u], done);
  }

  lemma EndExpanding(
    g: Graph, source: Node, queue: seq<Node>, actions: map<Node, Node>, dist: map<Node, nat>, processed: set<Node>,
    u: Node)
    requires u in g && Expanding(g, source, queue, actions, dist, processed, u, |g[u]|)
    ensures Search(g, source, queue, actions, dist, processed + {u})
  {
    assert g[u][..|g[u]|] == g[u];
  }

  /** A path too short to leave the expanded nodes ends in a visited node, no closer than its distance. */
  lemma {:induction false} ShortPathVisited(
    g: Graph, source: Node, dist: map<Node, nat>, processed: set<Node>, target: Node, p: seq<Node>, limit: nat)
    requires source in dist && dist[source] == 0 && Expanded(g, dist, processed)
    requires forall v :: v in dist && dist[v] < limit ==> v in processed
    requires IsPath(g, source, target, p) && |p| - 1 <= limit
    ensures target in dist && dist[target] <= |p| - 1
    decreases |p|
  {
    if |p| > 1 {
      var q := p[..|p| - 1];
      var u := p[|p| - 2];
      ShortPathVisited(g, source, dist, processed, u, q, limit);
      var i :| 0 <= i < |g[u]| && g[u][i] == target;
    }
  }

  /** The front of the queue is at its true distance. */
  lemma FrontIsNearest(
    g: Graph, source: Node, queue: seq<Node>, actions: map<Node, Node>, dist: map<Node, nat>, processed: set<Node>,
    p: seq<Node>)
    requires Search(g, source, queue, actions, dist, processed) && queue != [] && IsPath(g, source, queue[0], p)
    ensures dist[queue[0]] <= |p| - 1
  {
    assert forall v :: v in queue ==> dist[queue[0]] <= dist[v];
    if |p| - 1 < dist[queue[0]] {
      ShortPathVisited(g, source, dist, processed, queue[0], p, dist[queue[0]]);
    }
  }

  /** An empty queue means that every reachable node has been processed. */
  lemma AllProcessed(
    g: Graph, source: Node, actions: map<Node, Node>, dist: map<Node, nat>, processed: set<Node>, target: Node,
    p: seq<Node>)
    requires Search(g, source, [], actions, dist, processed) && IsPath(g, source, target, p)
    ensures target in processed
  {
    ShortPathVisited(g, source, dist, processed, target, p, |p|);
  }

  /** The depth at which the search meets the destination is that of the nearest path, and a search that
      runs dry has no path. */
  lemma SearchIsRight(
    g: Graph, source: Node, queue: seq<Node>, actions: map<Node, Node>, dist: map<Node, nat>, processed: set<Node>,
    destination: Node)
    requires Search(g, source, queue, actions, dist, processed) && destination !in processed
    requires queue != [] ==> queue[0] == destination
    ensures queue == [] ==> !Reachable(g, source, destination)
    ensures queue != [] ==> destination in dist
    ensures queue != [] ==> forall p :: IsPath(g, source, destination, p) ==> dist[destination] + 1 <= |p|
  {
    forall p | IsPath(g, source, destination, p)
      ensures queue != [] && dist[destination] + 1 <= |p|
    {
      if queue == [] {
        AllProcessed(g, source, actions, dist, processed, destination, p);
      } else {
        FrontIsNearest(g, source, queue, actions, dist, processed, p);
      }
    }
  }

  /** The search loop up to the destination or an empty queue, then the path. */
  method Bfs(g: Graph, source: Node, destination: Node) returns (path: seq<Node>)
    requires Closed(g) && source in g
    ensures path != [] <==> Reachable(g, source, destination)
    ensures path != [] ==> IsPath(g, source, destination, path)
    ensures path != [] ==> forall p :: IsPath(g, source, destination, p) ==> |path| <= |p|
  {
    var processing: seq<Node> := [source];
    var possibleActions: map<Node, Node> := map[source := source];
    var visited: set<Node> := {source};
    ghost var dist: map<Node, nat> := map[source := 0];
    ghost var processed: set<Node> := {};
    var found := false;
    while processing != []
      invariant Search(g, source, processing, possibleActions, dist, processed)
      invariant visited == dist.Keys && destination !in processed && !found
      decreases |g.Keys - visited|, |processing|
    {
      var considered := processing[0];
      if considered == destination {
        found := true;
        break;
      }
      ghost var before := visited;
      processing, possibleActions, visited, dist :=
        Expand(g, source, considered, processing, possibleActions, visited, dist, processed);
      processed := processed + {considered};
      FewerLeft(g.Keys, before, visited);
    }
    SearchIsRight(g, source, processing, possibleActions, dist, processed, destination);
    if !found {
      return [];
    }
    path := Reconstruct(g, source, destination, possibleActions, dist, processed);
  }

  lemma FewerLeft(all: set<Node>, before: set<Node>, after: set<Node>)
    requires before <= after <= all
    ensures before != after ==> |all - after| < |all - before|
  {
    assert all - after <= all - before;
    SetSizes(all - after, all - before);
    if before != after {
      assert exists v :: v in after && v !in before;
      var v :| v in after && v !in before;
      assert v in all - before && v !in all - after;
    }
  }

  lemma SetSizes(a: set<Node>, b: set<Node>)
    requires a <= b
    ensures a != b ==> |a| < |b|
  {
    assert b == a + (b - a);
  }

  /** The front of the queue is removed and its unvisited targets are added at the back. */
  method Expand(
    g: Graph, ghost source: Node, considered: Node, queue: seq<Node>, actions: map<Node, Node>, seen: set<Node>,
    ghost depths: map<Node, nat>, ghost processed: set<Node>)
    returns (processing: seq<Node>, possibleActions: map<Node, Node>, visited: set<Node>, ghost dist: map<Node, nat>)
    requires Closed(g) && Search(g, source, queue, actions, depths, processed) && seen == depths.Keys
    requires queue != [] && considered == queue[0] && considered in g
    ensures Search(g, source, processing, possibleActions, dist, processed + {considered})
    ensures visited == dist.Keys && seen <= visited <= g.Keys
    ensures visited == seen ==> processing == queue[1..]
  {
    TakeFront(g, source, queue, actions, depths, processed);
    processing, possibleActions, visited, dist := queue[1..], actions, seen, depths;
    for i := 0 to |g[considered]|
      invariant Expanding(g, source, processing, possibleActions, dist, processed, considered, i)
      invariant visited == dist.Keys && seen <= visited && (visited == seen ==> processing == queue[1..])
    {
      processing, possibleActions, visited, dist :=
        LookAt(g, source, considered, i, processing, possibleActions, visited, dist, processed);
    }
    EndExpanding(g, source, processing, possibleActions, dist, processed, considered);
  }

  /** One edge of `considered`. */
  method LookAt(
    g: Graph, ghost source: Node, considered: Node, edge: nat, queue: seq<Node>, actions: map<Node, Node>,
    seen: set<Node>, ghost depths: map<Node, nat>, ghost processed: set<Node>)
    returns (processing: seq<Node>, possibleActions: map<Node, Node>, visited: set<Node>, ghost dist: map<Node, nat>)
    requires Closed(g) && Expanding(g, source, queue, actions, depths, processed, considered, edge)
    requires edge < |g[considered]| && seen == depths.Keys
    ensures Expanding(g, source, processing, possibleActions, dist, processed, considered, edge + 1)
    ensures visited == dist.Keys && seen <= visited && (visited == seen ==> processing == queue)
  {
    processing, possibleActions, visited, dist := queue, actions, seen, depths;
    var to := g[considered][edge];
    if to !in visited {
      Discover(g, source, processing, possibleActions, dist, processed, considered, edge);
      visited := visited + {to};
      possibleActions := possibleActions[to := considered];
      processing := processing + [to];
      dist := dist[to := dist[considered] + 1];
    } else {
      Known(g, source, processing, possibleActions, dist, processed, considered, edge);
    }
  }

  /** The reconstruction loop: the path is as long as the destination is deep. */
  method Reconstruct(
    g: Graph, source: Node, destination: Node, possibleActions: map<Node, Node>, ghost dist: map<Node, nat>,
    ghost processed: set<Node>)
    returns (path: seq<Node>)
    requires Tree(g, source, possibleActions, dist, processed) && destination in dist
    ensures IsPath(g, source, destination, path) && |path| == dist[destination] + 1
  {
    path := [destination];
    var latest := path[0];
    while latest != source
      invariant path != [] && latest == path[0] && latest in dist
      invariant |path| + dist[latest] == dist[destination] + 1
      invariant IsPath(g, latest, destination, path)
      decreases dist[latest]
    {
      if latest !in possibleActions {
        break;
      }
      path := [possibleActions[latest]] + path;
      latest := path[0];
    }
  }
}
