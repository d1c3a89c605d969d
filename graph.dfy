/**
 * `Graph` and `Path` of main/walk.py: named places joined by weighted,
 * directed edges in an adjacency matrix, and the shortest-path table that
 * `dijkstra` fills in once the graph is finalized.
 *
 * A path is the list of node indices it visits. The source keeps `Path`
 * objects in the table; each one is built by `copy` and `append` and never
 * changed afterwards, so the table here holds their node lists.
 */
module Graphs {
  import opened Wrappers

  /** `Graph.NOT_CONNECTED`: the matrix entry of a missing edge. */
  const NotConnected: int := -1

  /** `edges` is an `n` by `n` matrix. */
  predicate Square(edges: seq<seq<int>>, n: nat) {
    |edges| == n && forall i :: 0 <= i < n ==> |edges[i]| == n
  }

  /** `containsEdge`. */
  predicate Linked(edges: seq<seq<int>>, a: nat, b: nat) {
    a < |edges| && b < |edges[a]| && edges[a][b] != NotConnected
  }

  /**
   * `after` is `before` grown to a larger square: the old entries stay,
   * the new rows and columns are `NOT_CONNECTED`, except the entry at
   * `s`, `t`, which is `w`.
   */
  predicate Grown(before: seq<seq<int>>, after: seq<seq<int>>, s: nat, t: nat, w: int) {
    && Square(before, |before|) && Square(after, |after|) && |before| <= |after|
    && forall i, j :: 0 <= i < |after| && 0 <= j < |after| ==>
         after[i][j] == (if i == s && j == t then w
                         else if i < |before| && j < |before| then before[i][j]
                         else NotConnected)
  }

  /** `after` is `before` grown to a larger square by rows and columns of `NOT_CONNECTED`. */
  predicate Padded(before: seq<seq<int>>, after: seq<seq<int>>) {
    && Square(before, |before|) && Square(after, |after|) && |before| <= |after|
    && forall i, j :: 0 <= i < |after| && 0 <= j < |after| ==>
         after[i][j] == (if i < |before| && j < |before| then before[i][j] else NotConnected)
  }

  /** What `addNode` does to the matrix pads it. */
  lemma PaddedByNode(before: seq<seq<int>>, after: seq<seq<int>>)
    requires Square(before, |before|) && Square(after, |before| + 1)
    requires forall i, j :: 0 <= i < |before| && 0 <= j < |before| ==> after[i][j] == before[i][j]
    requires forall i :: 0 <= i < |after| ==> after[i][|before|] == NotConnected
    requires forall j :: 0 <= j < |after| ==> after[|before|][j] == NotConnected
    ensures Padded(before, after)
  {
    forall i, j | 0 <= i < |after| && 0 <= j < |after|
      ensures after[i][j] == (if i < |before| && j < |before| then before[i][j] else NotConnected)
    {
      if i == |before| || j == |before| {
      }
    }
  }

  lemma PaddedSelf(edges: seq<seq<int>>)
    requires Square(edges, |edges|)
    ensures Padded(edges, edges)
  {
  }

  lemma PaddedTrans(a: seq<seq<int>>, b: seq<seq<int>>, c: seq<seq<int>>)
    requires Padded(a, b) && Padded(b, c)
    ensures Padded(a, c)
  {
  }

  /** Linking one entry of a padded matrix gives the grown one. */
  lemma PaddedLinked(before: seq<seq<int>>, mid: seq<seq<int>>, s: nat, t: nat, w: int)
    requires Padded(before, mid) && s < |mid| && t < |mid|
    ensures Grown(before, mid[s := mid[s][t := w]], s, t, w)
  {
  }

  /**
   * Appending names moves no name's first position: an old name keeps
   * its position and a new one comes after all the old names.
   */
  lemma IndexOfAppend(nodes: seq<string>, extra: seq<string>, name: string)
    requires name in nodes + extra
    ensures name in nodes ==> IndexOf(nodes + extra, name) == IndexOf(nodes, name)
    ensures name !in nodes ==> IndexOf(nodes + extra, name) >= |nodes|
  {
    var k := IndexOf(nodes + extra, name);
    if name in nodes {
      var i := IndexOf(nodes, name);
      assert (nodes + extra)[i] == name;
      assert k <= i;
      assert nodes[k] == name;
    }
  }

  /**
   * The steps of `addEdge` on values: `nodes1`, `edges1` after the start
   * is added if missing, `nodes2`, `edges2` after the end is, and `edges3`
   * after `link`.
   */
  lemma AddEdgeSteps(mutable: bool, nodes0: seq<string>, edges0: seq<seq<int>>,
                     nodes1: seq<string>, edges1: seq<seq<int>>, nodes2: seq<string>, edges2: seq<seq<int>>,
                     edges3: seq<seq<int>>, start: string, end: string, weight: int, ok: bool)
    requires Square(edges0, |nodes0|) && Square(edges2, |nodes2|)
    requires mutable || start in nodes0
    requires start in nodes1 && Padded(edges0, edges1)
    requires start in nodes0 ==> nodes1 == nodes0 && edges1 == edges0
    requires start !in nodes0 ==> nodes1 == nodes0 + [start]
    requires mutable || end in nodes1
    requires end in nodes2 && Padded(edges1, edges2)
    requires end in nodes1 ==> nodes2 == nodes1 && edges2 == edges1
    requires end !in nodes1 ==> nodes2 == nodes1 + [end]
    requires ok <==> mutable && !Linked(edges2, IndexOf(nodes2, start), IndexOf(nodes2, end))
    requires ok ==> edges3 == edges2[IndexOf(nodes2, start) := edges2[IndexOf(nodes2, start)][IndexOf(nodes2, end) := weight]]
    requires !ok ==> edges3 == edges2
    ensures ok <==> mutable && !(start in nodes0 && end in nodes0
                                 && Linked(edges0, IndexOf(nodes0, start), IndexOf(nodes0, end)))
    ensures !ok ==> nodes2 == nodes0 && edges3 == edges0
    ensures ok ==>
      nodes2 == nodes0 + (if start in nodes0 then [] else [start])
                       + (if end in nodes0 || end == start then [] else [end])
    ensures ok ==> Grown(edges0, edges3, IndexOf(nodes2, start), IndexOf(nodes2, end), weight)
  {
    PaddedTrans(edges0, edges1, edges2);
    AddedNodes(nodes0, nodes1, nodes2, start, end);
    var si, ei := IndexOf(nodes2, start), IndexOf(nodes2, end);
    if start in nodes0 && end in nodes0 {
      PaddedSameSize(edges0, edges2);
    } else {
      assert edges2[si][ei] == NotConnected;
    }
    if ok {
      PaddedLinked(edges0, edges2, si, ei, weight);
    }
  }

  /** The names `addEdge` adds: the ends that were missing, start first. */
  lemma AddedNodes(nodes0: seq<string>, nodes1: seq<string>, nodes2: seq<string>, start: string, end: string)
    requires start in nodes1 && end in nodes2
    requires start in nodes0 ==> nodes1 == nodes0
    requires start !in nodes0 ==> nodes1 == nodes0 + [start]
    requires end in nodes1 ==> nodes2 == nodes1
    requires end !in nodes1 ==> nodes2 == nodes1 + [end]
    ensures nodes2 == nodes0 + (if start in nodes0 then [] else [start])
                             + (if end in nodes0 || end == start then [] else [end])
    ensures start in nodes0 ==> IndexOf(nodes2, start) == IndexOf(nodes0, start)
    ensures end in nodes0 ==> IndexOf(nodes2, end) == IndexOf(nodes0, end)
    ensures start !in nodes0 ==> IndexOf(nodes2, start) >= |nodes0|
    ensures end !in nodes0 ==> IndexOf(nodes2, end) >= |nodes0|
  {
    var added1: seq<string> := if start in nodes0 then [] else [start];
    var added2: seq<string> := if end in nodes0 || end == start then [] else [end];
    assert nodes1 == nodes0 + added1;
    assert end in nodes1 <==> end in nodes0 || end == start;
    if end in nodes1 {
      assert added2 == [];
    } else {
      assert added2 == [end];
    }
    assert nodes2 == nodes1 + added2;
    assert nodes2 == nodes0 + (added1 + added2);
    IndexOfAppend(nodes0, added1 + added2, start);
    IndexOfAppend(nodes0, added1 + added2, end);
  }

  /** Padding to the same size changes nothing. */
  lemma PaddedSameSize(before: seq<seq<int>>, after: seq<seq<int>>)
    requires Padded(before, after) && |before| == |after|
    ensures after == before
  {
    forall i | 0 <= i < |after|
      ensures after[i] == before[i]
    {
      assert forall j :: 0 <= j < |after| ==> after[i][j] == before[i][j];
    }
  }

  /** Every node of `p` is an index of the matrix. */
  predicate InRange(edges: seq<seq<int>>, p: seq<nat>) {
    forall k :: 0 <= k < |p| ==> p[k] < |edges| && |edges[p[k]]| == |edges|
  }

  /** `p` goes from `s` to `t` along edges of the graph. */
  predicate IsPath(edges: seq<seq<int>>, p: seq<nat>, s: nat, t: nat) {
    && |p| >= 1 && p[0] == s && p[|p| - 1] == t
    && InRange(edges, p)
    && forall k :: 0 <= k < |p| - 1 ==> Linked(edges, p[k], p[k + 1])
  }

  /** The weight of path `p`: the sum of the matrix entries between consecutive nodes. */
  function PathWeight(edges: seq<seq<int>>, p: seq<nat>): int
    requires InRange(edges, p)
  {
    if |p| <= 1 then 0
    else PathWeight(edges, p[..|p| - 1]) + edges[p[|p| - 2]][p[|p| - 1]]
  }

  /** `p` with its nodes in the opposite order. */
  function Reversed(p: seq<nat>): (r: seq<nat>)
    ensures |r| == |p|
  {
    seq(|p|, i requires 0 <= i < |p| => p[|p| - 1 - i])
  }

  /** Every edge has its twin the other way with the same weight, as `buildgraph` makes them. */
  predicate Symmetric(edges: seq<seq<int>>) {
    forall a, b :: 0 <= a < |edges| && 0 <= b < |edges| && b < |edges[a]| && a < |edges[b]| ==>
      edges[a][b] == edges[b][a]
  }

  /** Extending a path by one node adds the weight of the edge to it. */
  lemma PathWeightAppend(edges: seq<seq<int>>, p: seq<nat>, n: nat)
    requires |p| >= 1 && InRange(edges, p + [n])
    ensures InRange(edges, p)
    ensures var q := p + [n]; PathWeight(edges, q) == PathWeight(edges, p) + edges[q[|p| - 1]][q[|p|]]
  {
    assert (p + [n])[..|p|] == p;
  }

  /** The weight of a path whose first edge is split off. */
  lemma {:induction false} PathWeightCons(edges: seq<seq<int>>, a: nat, p: seq<nat>)
    requires |p| >= 1 && InRange(edges, [a] + p)
    ensures InRange(edges, p)
    ensures var q := [a] + p; PathWeight(edges, q) == edges[q[0]][q[1]] + PathWeight(edges, p)
    decreases |p|
  {
    forall k | 0 <= k < |p| ensures p[k] < |edges| && |edges[p[k]]| == |edges| {
      assert p[k] == ([a] + p)[k + 1];
    }
    if |p| > 1 {
      var init := p[..|p| - 1];
      assert ([a] + p)[..|p|] == [a] + init;
      PathWeightCons(edges, a, init);
    }
  }

  /** On a graph whose edges come in twins, the way back weighs as much as the way there. */
  lemma {:induction false} PathWeightReversed(edges: seq<seq<int>>, p: seq<nat>)
    requires Symmetric(edges) && InRange(edges, p)
    ensures InRange(edges, Reversed(p))
    ensures PathWeight(edges, Reversed(p)) == PathWeight(edges, p)
    decreases |p|
  {
    var r := Reversed(p);
    assert InRange(edges, r) by {
      forall k | 0 <= k < |r| ensures r[k] < |edges| && |edges[r[k]]| == |edges| {
        assert r[k] == p[|p| - 1 - k];
      }
    }
    if |p| > 1 {
      var init := p[..|p| - 1];
      var last := p[|p| - 1];
      ReversedSnoc(init, last);
      assert r == [last] + Reversed(init);
      PathWeightCons(edges, last, Reversed(init));
      PathWeightReversed(edges, init);
      assert Reversed(init)[0] == p[|p| - 2];
    }
  }

  lemma ReversedSnoc(p: seq<nat>, n: nat)
    ensures Reversed(p + [n]) == [n] + Reversed(p)
  {
  }

  lemma ReversedCons(n: nat, p: seq<nat>)
    ensures Reversed([n] + p) == Reversed(p) + [n]
  {
  }

  /** Reversing twice gives the path back. */
  lemma ReversedTwice(p: seq<nat>)
    ensures Reversed(Reversed(p)) == p
  {
  }

  /** The way back of a path from `s` to `t` is a path from `t` to `s` when the edges come in twins. */
  lemma ReversedIsPath(edges: seq<seq<int>>, p: seq<nat>, s: nat, t: nat)
    requires Symmetric(edges) && IsPath(edges, p, s, t)
    ensures IsPath(edges, Reversed(p), t, s)
  {
    var r := Reversed(p);
    forall k | 0 <= k < |r| - 1
      ensures Linked(edges, r[k], r[k + 1])
    {
      var j := |p| - 2 - k;
      assert r[k] == p[j + 1] && r[k + 1] == p[j];
      assert Linked(edges, p[j], p[j + 1]);
    }
    forall k | 0 <= k < |r|
      ensures r[k] < |edges| && |edges[r[k]]| == |edges|
    {
      assert r[k] == p[|p| - 1 - k];
    }
  }

  /**
   * A total weight, with `None` for the source's `INFINITY`: it is larger
   * than every number and equal only to itself, and adding to it leaves it.
   */
  predicate Less(a: Option<int>, b: Option<int>) {
    a.Some? && (b.None? || a.value < b.value)
  }

  function Plus(a: Option<int>, w: int): (r: Option<int>)
    ensures r.None? <==> a.None?
    ensures r.Some? ==> r.value == a.value + w
  {
    match a
    case None => None
    case Some(v) => Some(v + w)
  }

  /** `findShortestPath`: the path, or the reason the source gives up with `fatal`. */
  datatype Shortest =
    | Route(path: Option<seq<nat>>)
    | NotFinalized   // "can't perform shortest-path calculations on an unfinalized Graph."
    | NoNode(name: string)  // "no node '<name>' in Graph."

  /** `nodes.index(name)`: the first position of `name`. */
  function IndexOf(nodes: seq<string>, name: string): (i: nat)
    requires name in nodes
    ensures i < |nodes| && nodes[i] == name
    ensures forall j :: 0 <= j < i ==> nodes[j] != name
  {
    if nodes[0] == name then 0 else 1 + IndexOf(nodes[1..], name)
  }

  /** The number of nodes not yet visited by `dijkstra`. */
  function Unvisited(visited: seq<bool>): (n: nat)
    ensures n <= |visited|
  {
    if visited == [] then 0 else Unvisited(visited[..|visited| - 1]) + (if visited[|visited| - 1] then 0 else 1)
  }

  /** Marking an unvisited node lowers the count by one. */
  lemma {:induction false} UnvisitedMark(visited: seq<bool>, i: nat)
    requires i < |visited| && !visited[i]
    ensures Unvisited(visited[i := true]) == Unvisited(visited) - 1
    decreases |visited|
  {
    var n := |visited| - 1;
    if i < n {
      assert visited[i := true][..n] == visited[..n][i := true];
      UnvisitedMark(visited[..n], i);
    } else {
      assert visited[i := true][..n] == visited[..n];
    }
  }

  /** The weight of a table entry: `None` for no path, as the source's `INFINITY`. */
  function EntryWeight(edges: seq<seq<int>>, entry: Option<seq<nat>>): Option<int> {
    if entry.None? || !InRange(edges, entry.value) then None else Some(PathWeight(edges, entry.value))
  }

  /** `a` is no larger than `b`, with `None` above every number. */
  predicate NoWorse(a: Option<int>, b: Option<int>) {
    b.None? || (a.Some? && a.value <= b.value)
  }

  /** Every path found before is still there, or one no heavier in its place. */
  predicate Improves(edges: seq<seq<int>>, before: seq<Option<seq<nat>>>, after: seq<Option<seq<nat>>>) {
    && |after| == |before|
    && forall t :: 0 <= t < |before| && before[t].Some? ==>
         after[t].Some? && NoWorse(EntryWeight(edges, after[t]), EntryWeight(edges, before[t]))
  }

  /** Every node linked from a node of `row` that has a path and is in `from` has a path too. */
  predicate ClosedFrom(edges: seq<seq<int>>, row: seq<Option<seq<nat>>>, from: seq<bool>) {
    forall v, u :: 0 <= v < |from| && v < |row| && 0 <= u < |row| && from[v] && row[v].Some? && Linked(edges, v, u) ==>
      row[u].Some?
  }

  /**
   * Once a node without a path has been visited, no unvisited node has a
   * path: `dijkstra` visits the nodes with paths first.
   */
  predicate Barrier(row: seq<Option<seq<nat>>>, visited: seq<bool>) {
    forall v, u ::
      (0 <= v < |visited| && 0 <= u < |visited| && |visited| <= |row|
       && visited[v] && row[v].None? && !visited[u]) ==> row[u].None?
  }

  /** The table is square and each entry is a path from its row's node to its column's node. */
  predicate Table(edges: seq<seq<int>>, paths: seq<seq<Option<seq<nat>>>>, n: nat) {
    && |paths| == n
    && (forall s :: 0 <= s < n ==> |paths[s]| == n && paths[s][s].Some?)
    && forall s, t :: 0 <= s < n && 0 <= t < n && paths[s][t].Some? ==> IsPath(edges, paths[s][t].value, s, t)
  }

  /** A path extended along an edge from its end. */
  lemma PathExtend(edges: seq<seq<int>>, p: seq<nat>, s: nat, t: nat, u: nat)
    requires IsPath(edges, p, s, t) && Linked(edges, t, u) && u < |edges| && |edges[u]| == |edges|
    ensures IsPath(edges, p + [u], s, u)
    ensures EntryWeight(edges, Some(p + [u])) == Plus(EntryWeight(edges, Some(p)), edges[t][u])
  {
    var q := p + [u];
    forall k | 0 <= k < |q| - 1 ensures Linked(edges, q[k], q[k + 1]) {
      if k < |p| - 1 { assert q[k] == p[k] && q[k + 1] == p[k + 1]; }
    }
    PathWeightAppend(edges, p, u);
  }

  /** Storing a path from `s` to `t` keeps the table well formed. */
  lemma TableUpdate(edges: seq<seq<int>>, paths: seq<seq<Option<seq<nat>>>>, n: nat, s: nat, t: nat, p: seq<nat>)
    requires Table(edges, paths, n) && s < n && t < n && IsPath(edges, p, s, t)
    ensures Table(edges, paths[s := paths[s][t := Some(p)]], n)
  {
  }

  /** When the nodes with paths are closed under edges, every node reachable from `src` has one. */
  lemma {:induction false} ReachableHasPath(edges: seq<seq<int>>, row: seq<Option<seq<nat>>>, src: nat, p: seq<nat>, t: nat)
    requires |row| == |edges| && src < |row| && row[src].Some?
    requires ClosedFrom(edges, row, seq(|row|, _ => true))
    requires IsPath(edges, p, src, t)
    ensures row[t].Some?
    decreases |p|
  {
    if |p| > 1 {
      var q := p[..|p| - 1];
      var v := p[|p| - 2];
      assert IsPath(edges, q, src, v) by {
        forall k | 0 <= k < |q| - 1 ensures Linked(edges, q[k], q[k + 1]) {
          assert q[k] == p[k] && q[k + 1] == p[k + 1];
        }
      }
      ReachableHasPath(edges, row, src, q, v);
      assert Linked(edges, p[|p| - 2], p[|p| - 1]);
      assert seq(|row|, _ => true)[v];
    }
  }

  class Graph {
    var nodes: seq<string>
    var edges: seq<seq<int>>
    var mutable: bool
    /**
     * `shortest_paths`, which exists once the graph is finalized:
     * `shortestPaths[s][t]` is the best path from `s` to `t` found so far.
     */
    var shortestPaths: seq<seq<Option<seq<nat>>>>

    /**
     * The matrix has a row and a column per node, and once the graph is
     * finalized every path in the table goes from its row's node to its
     * column's node along edges of the graph.
     */
    ghost predicate Valid()
      reads this
    {
      && Square(edges, |nodes|)
      && (!mutable ==> PathsValid())
    }

    ghost predicate PathsValid()
      reads this
    {
      Table(edges, shortestPaths, |nodes|)
    }

    /** `__init__`: an empty graph that can still be built. */
    constructor ()
      ensures Valid() && mutable && nodes == [] && edges == []
    {
      nodes, edges, mutable := [], [], true;
      shortestPaths := [];
    }

    /** `containsNode`. */
    predicate ContainsNode(name: string)
      reads this
    {
      name in nodes
    }

    /**
     * `getTotalWeight(start, end)` of the graph: the weight of the path in
     * the table, or `None` (the source's `INFINITY`) when there is none.
     */
    function TotalWeight(start: nat, end: nat): (r: Option<int>)
      requires Valid() && !mutable && start < |nodes| && end < |nodes|
      reads this
      ensures r == EntryWeight(edges, shortestPaths[start][end])
      ensures r.None? <==> shortestPaths[start][end].None?
    {
      match shortestPaths[start][end]
      case None => None
      case Some(p) => Some(PathWeight(edges, p))
    }

    /**
     * `addNode`: a new node with a new row and column of `NOT_CONNECTED`;
     * every existing entry stays. A finalized graph refuses (`fatal`).
     */
    method AddNode(name: string) returns (ok: bool)
      requires Valid()
      modifies this
      ensures Valid() && mutable == old(mutable) && shortestPaths == old(shortestPaths)
      ensures ok <==> old(mutable)
      ensures !ok ==> nodes == old(nodes) && edges == old(edges)
      ensures ok ==> nodes == old(nodes) + [name] && Padded(old(edges), edges)
    {
      if !mutable {
        return false;
      }
      var n := |nodes|;
      nodes := nodes + [name];
      var i := 0;
      while i < n
        invariant 0 <= i <= n && |edges| == n
        invariant nodes == old(nodes) + [name] && mutable && shortestPaths == old(shortestPaths)
        invariant forall k :: 0 <= k < i ==> edges[k] == old(edges)[k] + [NotConnected]
        invariant forall k :: i <= k < n ==> edges[k] == old(edges)[k]
      {
        edges := edges[i := edges[i] + [NotConnected]];
        i := i + 1;
      }
      edges := edges + [seq(n + 1, _ => NotConnected)];
      PaddedByNode(old(edges), edges);
      ok := true;
    }

    /**
     * `link`: the edge from `start` to `end` gets `weight`, and no other
     * entry changes. A finalized graph, an index that is not a node and an
     * edge that is already there are refused (`fatal`).
     */
    method Link(start: nat, end: nat, weight: int) returns (ok: bool)
      requires Valid()
      modifies this
      ensures Valid() && nodes == old(nodes) && mutable == old(mutable) && shortestPaths == old(shortestPaths)
      ensures ok <==> mutable && start < |nodes| && end < |nodes| && !Linked(old(edges), start, end)
      ensures ok ==> edges == old(edges)[start := old(edges)[start][end := weight]]
      ensures !ok ==> edges == old(edges)
    {
      if !mutable {
        return false;
      }
      if start >= |nodes| || end >= |nodes| {
        return false;
      }
      if edges[start][end] != NotConnected {
        return false;
      }
      edges := edges[start := edges[start][end := weight]];
      ok := true;
    }

    /**
     * `addEdge`: a missing end is added as a node first, then the ends are
     * linked. A finalized graph and an edge that is already there are
     * refused (`fatal`), and a refused call changes nothing. Otherwise the
     * matrix grows by the new nodes' rows and columns of `NOT_CONNECTED`,
     * every old entry stays, and the one entry from `start` to `end` gets
     * `weight`.
     */
    method AddEdge(start: string, end: string, weight: int) returns (ok: bool)
      requires Valid()
      modifies this
      ensures Valid() && mutable == old(mutable) && shortestPaths == old(shortestPaths)
      ensures ok <==> old(mutable) && !(start in old(nodes) && end in old(nodes)
                                        && Linked(old(edges), IndexOf(old(nodes), start), IndexOf(old(nodes), end)))
      ensures !ok ==> nodes == old(nodes) && edges == old(edges)
      ensures ok ==>
        nodes == old(nodes) + (if start in old(nodes) then [] else [start])
                            + (if end in old(nodes) || end == start then [] else [end])
      ensures ok ==> start in nodes && end in nodes
      ensures ok ==> Grown(old(edges), edges, IndexOf(nodes, start), IndexOf(nodes, end), weight)
    {
      ghost var nodes0, edges0 := nodes, edges;
      ok := AddMissingNode(start);
      if !ok {
        return;
      }
      ghost var nodes1, edges1 := nodes, edges;
      ok := AddMissingNode(end);
      if !ok {
        return;
      }
      ghost var nodes2, edges2 := nodes, edges;
      var si := IndexOf(nodes, start);
      var ei := IndexOf(nodes, end);
      ok := Link(si, ei, weight);
      AddEdgeSteps(old(mutable), nodes0, edges0, nodes1, edges1, nodes2, edges2, edges, start, end, weight, ok);
    }

    /** One end of `addEdge`: a name that is not yet a node is added. */
    method AddMissingNode(name: string) returns (ok: bool)
      requires Valid()
      modifies this
      ensures Valid() && mutable == old(mutable) && shortestPaths == old(shortestPaths)
      ensures ok <==> old(mutable) || name in old(nodes)
      ensures !ok || name in old(nodes) ==> nodes == old(nodes) && edges == old(edges)
      ensures ok ==> name in nodes && Padded(old(edges), edges)
      ensures ok && name !in old(nodes) ==> nodes == old(nodes) + [name]
    {
      if name !in nodes {
        ok := AddNode(name);
      } else {
        PaddedSelf(edges);
        ok := true;
      }
    }

    /**
     * `finalize`: the graph can no longer change, and the table starts
     * with the one-node path from each node to itself and nothing else.
     */
    method Finalize()
      requires Valid()
      modifies this
      ensures Valid() && !mutable && nodes == old(nodes) && edges == old(edges)
      ensures |shortestPaths| == |nodes|
      ensures forall s, t :: 0 <= s < |nodes| && 0 <= t < |nodes| ==>
        |shortestPaths[s]| == |nodes| && shortestPaths[s][t] == (if s == t then Some([s]) else None)
    {
      var n := |nodes|;
      mutable := false;
      shortestPaths := seq(n, _ => seq(n, _ => None));
      var i := 0;
      while i < n
        invariant 0 <= i <= n && |shortestPaths| == n
        invariant nodes == old(nodes) && edges == old(edges) && !mutable
        invariant forall s :: 0 <= s < n ==> |shortestPaths[s]| == n
        invariant forall s, t :: 0 <= s < n && 0 <= t < n ==>
          shortestPaths[s][t] == (if s == t && s < i then Some([s]) else None)
      {
        shortestPaths := shortestPaths[i := shortestPaths[i][i := Some([i])]];
        i := i + 1;
      }
    }

    /**
     * The first loop of a round of `dijkstra` at `curr`: every unvisited
     * node linked from `curr` whose path through `curr` would be lighter
     * gets that path, the path to `curr` with the node added.
     */
    method Relax(src: nat, curr: nat, visited: seq<bool>)
      requires Valid() && !mutable && src < |nodes| && curr < |nodes| && |visited| == |nodes|
      modifies this
      ensures Valid() && !mutable && nodes == old(nodes) && edges == old(edges)
      ensures |shortestPaths| == |old(shortestPaths)|
      ensures forall s :: 0 <= s < |nodes| && s != src ==> shortestPaths[s] == old(shortestPaths)[s]
      ensures Improves(edges, old(shortestPaths)[src], shortestPaths[src])
      ensures old(shortestPaths)[src][curr].None? ==> shortestPaths == old(shortestPaths)
      ensures old(shortestPaths)[src][curr].Some? ==>
        forall j :: 0 <= j < |nodes| && !visited[j] && Linked(edges, curr, j) ==> shortestPaths[src][j].Some?
      ensures forall j :: 0 <= j < |nodes| && !visited[j] && Linked(edges, curr, j) ==>
        NoWorse(EntryWeight(edges, shortestPaths[src][j]), Plus(EntryWeight(edges, old(shortestPaths)[src][curr]), edges[curr][j]))
    {
      var n := |nodes|;
      var i := 0;
      while i < n
        invariant 0 <= i <= n
        invariant Valid() && !mutable && nodes == old(nodes) && edges == old(edges)
        invariant |shortestPaths| == |old(shortestPaths)|
        invariant forall s :: 0 <= s < n && s != src ==> shortestPaths[s] == old(shortestPaths)[s]
        invariant Improves(edges, old(shortestPaths)[src], shortestPaths[src])
        invariant old(shortestPaths)[src][curr].None? ==> shortestPaths == old(shortestPaths)
        invariant old(shortestPaths)[src][curr].Some? ==>
          forall j :: 0 <= j < i && !visited[j] && Linked(edges, curr, j) ==> shortestPaths[src][j].Some?
        invariant forall j :: 0 <= j < i && !visited[j] && Linked(edges, curr, j) ==>
          NoWorse(EntryWeight(edges, shortestPaths[src][j]), Plus(EntryWeight(edges, old(shortestPaths)[src][curr]), edges[curr][j]))
        invariant forall j :: i <= j < n ==> shortestPaths[src][j] == old(shortestPaths)[src][j]
      {
        if !visited[i] && edges[curr][i] != NotConnected {
          var dist := Plus(TotalWeight(src, curr), edges[curr][i]);
          if Less(dist, TotalWeight(src, i)) {
            var path := shortestPaths[src][curr].value;
            PathExtend(edges, path, src, curr, i);
            TableUpdate(edges, shortestPaths, n, src, i, path + [i]);
            shortestPaths := shortestPaths[src := shortestPaths[src][i := Some(path + [i])]];
          }
        }
        i := i + 1;
      }
    }

    /**
     * The second loop of a round of `dijkstra`: the unvisited node with the
     * lightest path, the first one among equals, or -1 when every node has
     * been visited.
     */
    method Closest(src: nat, visited: seq<bool>) returns (closest: int)
      requires Valid() && !mutable && src < |nodes| && |visited| == |nodes|
      ensures closest == -1 <==> forall j :: 0 <= j < |nodes| ==> visited[j]
      ensures closest != -1 ==> 0 <= closest < |nodes| && !visited[closest]
      ensures closest != -1 ==>
        forall j :: 0 <= j < |nodes| && !visited[j] ==> !Less(TotalWeight(src, j), TotalWeight(src, closest))
      ensures closest != -1 ==>
        forall j :: 0 <= j < closest && !visited[j] ==> Less(TotalWeight(src, closest), TotalWeight(src, j))
    {
      var n := |nodes|;
      closest := -1;
      var i := 0;
      while i < n
        invariant 0 <= i <= n
        invariant closest == -1 <==> forall j :: 0 <= j < i ==> visited[j]
        invariant closest != -1 ==> 0 <= closest < i && !visited[closest]
        invariant closest != -1 ==>
          forall j :: 0 <= j < i && !visited[j] ==> !Less(TotalWeight(src, j), TotalWeight(src, closest))
        invariant closest != -1 ==>
          forall j :: 0 <= j < closest && !visited[j] ==> Less(TotalWeight(src, closest), TotalWeight(src, j))
      {
        if !visited[i] {
          if closest == -1 || Less(TotalWeight(src, i), TotalWeight(src, closest)) {
            closest := i;
          }
        }
        i := i + 1;
      }
    }

    /**
     * `dijkstra(src)`: the row of `src` in the table is filled in. Paths
     * already there are kept or replaced by lighter ones, and afterwards
     * every node linked from a node with a path has a path too, so that
     * every node reachable from `src` has one (`ReachableHasPath`).
     */
    method Dijkstra(src: nat)
      requires Valid() && !mutable && src < |nodes|
      modifies this
      ensures Valid() && !mutable && nodes == old(nodes) && edges == old(edges)
      ensures |shortestPaths| == |old(shortestPaths)|
      ensures forall s :: 0 <= s < |nodes| && s != src ==> shortestPaths[s] == old(shortestPaths)[s]
      ensures Improves(edges, old(shortestPaths)[src], shortestPaths[src])
      ensures ClosedFrom(edges, shortestPaths[src], seq(|nodes|, _ => true))
    {
      var n := |nodes|;
      var visited := seq(n, _ => false);
      var curr: nat := src;
      var done := false;
      while !done
        invariant Valid() && !mutable && nodes == old(nodes) && edges == old(edges)
        invariant |shortestPaths| == |old(shortestPaths)|
        invariant forall s :: 0 <= s < n && s != src ==> shortestPaths[s] == old(shortestPaths)[s]
        invariant Improves(edges, old(shortestPaths)[src], shortestPaths[src])
        invariant |visited| == n && curr < n
        invariant !done ==> !visited[curr]
        invariant !done && shortestPaths[src][curr].None? ==>
          forall u :: 0 <= u < n && !visited[u] ==> shortestPaths[src][u].None?
        invariant done ==> forall v :: 0 <= v < n ==> visited[v]
        invariant ClosedFrom(edges, shortestPaths[src], visited)
        invariant Barrier(shortestPaths[src], visited)
        decreases Unvisited(visited) + (if done then 0 else 1)
      {
        ghost var before := shortestPaths;
        Relax(src, curr, visited);
        DijkstraRound(edges, before[src], shortestPaths[src], visited, curr);
        UnvisitedMark(visited, curr);
        visited := visited[curr := true];
        var closest := Closest(src, visited);
        if closest == -1 {
          done := true;
        } else {
          curr := closest;
        }
      }
      assert visited == seq(n, _ => true);
    }

    /**
     * `findShortestPath`: for a finalized graph holding both names, the
     * path in the table from the first to the second, after `dijkstra`
     * from the first when there was none yet. A path returned goes from
     * `src` to `dest` along edges; no path is returned only when `dest`
     * cannot be reached from `src` at all.
     */
    method FindShortestPath(src: string, dest: string) returns (r: Shortest)
      requires Valid()
      modifies this
      ensures Valid() && nodes == old(nodes) && edges == old(edges) && mutable == old(mutable)
      ensures old(mutable) ==> r == NotFinalized && unchanged(this)
      ensures !old(mutable) && src !in nodes ==> r == NoNode(src) && unchanged(this)
      ensures !old(mutable) && src in nodes && dest !in nodes ==> r == NoNode(dest) && unchanged(this)
      ensures !old(mutable) && src in nodes && dest in nodes ==> r.Route?
      ensures r.Route? ==> !mutable && src in nodes && dest in nodes && Answers(r.path, IndexOf(nodes, src), IndexOf(nodes, dest))
    {
      if mutable {
        return NotFinalized;
      }
      if src !in nodes {
        return NoNode(src);
      }
      if dest !in nodes {
        return NoNode(dest);
      }
      var s := IndexOf(nodes, src);
      var d := IndexOf(nodes, dest);
      if shortestPaths[s][d].None? {
        Dijkstra(s);
        forall p | IsPath(edges, p, s, d)
          ensures shortestPaths[s][d].Some?
        {
          ReachableHasPath(edges, shortestPaths[s], s, p, d);
        }
      }
      r := Route(shortestPaths[s][d]);
    }

    /**
     * What `findShortestPath` promises of its answer from `s` to `d`: it is
     * the entry of the table, a path from `s` to `d` along edges when there
     * is one, and missing only when no such path exists.
     */
    ghost predicate Answers(path: Option<seq<nat>>, s: nat, d: nat)
      requires Valid() && !mutable && s < |nodes| && d < |nodes|
      reads this
    {
      && path == shortestPaths[s][d]
      && (path.Some? ==> IsPath(edges, path.value, s, d))
      && (path.None? ==> forall p :: !IsPath(edges, p, s, d))
    }
  }

  /** One round of `dijkstra` keeps its two invariants. */
  lemma DijkstraRound(edges: seq<seq<int>>, before: seq<Option<seq<nat>>>, after: seq<Option<seq<nat>>>,
                      visited: seq<bool>, curr: nat)
    requires |before| == |after| == |visited| == |edges| && curr < |visited| && !visited[curr]
    requires ClosedFrom(edges, before, visited) && Barrier(before, visited)
    requires before[curr].None? ==> forall u :: 0 <= u < |visited| && !visited[u] ==> before[u].None?
    requires Improves(edges, before, after)
    requires before[curr].None? ==> after == before
    requires before[curr].Some? ==>
      forall j :: 0 <= j < |visited| && !visited[j] && Linked(edges, curr, j) ==> after[j].Some?
    ensures ClosedFrom(edges, after, visited[curr := true])
    ensures Barrier(after, visited[curr := true])
  {
    var marked := visited[curr := true];
    forall v, u | 0 <= v < |marked| && 0 <= u < |after| && marked[v] && after[v].Some? && Linked(edges, v, u)
      ensures after[u].Some?
    {
      if v == curr && visited[u] {
        assert before[u].Some?;
      }
    }
  }

  /**
   * `Path`: the node indices of a path of a finalized graph, built by
   * `append`, `copy` and `reverse`.
   */
  class Path {
    const graph: Graph
    var nodes: seq<nat>

    /** `Path(g, first)`: the one-node path. */
    constructor (g: Graph, first: nat)
      requires !g.mutable
      ensures graph == g && nodes == [first]
    {
      graph := g;
      nodes := [first];
    }

    /** `append`: one more node at the end. */
    method Append(n: nat)
      modifies this
      ensures nodes == old(nodes) + [n]
    {
      nodes := nodes + [n];
    }

    /** `copy`: a new path over the same nodes, which later appends to either do not share. */
    method Copy() returns (p: Path)
      requires !graph.mutable && |nodes| >= 1
      ensures fresh(p) && p.graph == graph && p.nodes == nodes
    {
      p := new Path(graph, nodes[0]);
      var i := 1;
      while i < |nodes|
        invariant 1 <= i <= |nodes| && p.graph == graph
        invariant p.nodes == nodes[..i]
      {
        p.Append(nodes[i]);
        assert nodes[..i + 1] == nodes[..i] + [nodes[i]];
        i := i + 1;
      }
    }

    /** `reverse`: a new path over the same nodes in the opposite order. */
    method Reverse() returns (p: Path)
      requires !graph.mutable && |nodes| >= 1
      ensures fresh(p) && p.graph == graph && p.nodes == Reversed(nodes)
    {
      var last := |nodes| - 1;
      p := new Path(graph, nodes[last]);
      var i := last;
      while i > 0
        invariant 0 <= i <= last && p.graph == graph
        invariant p.nodes == Reversed(nodes[i..])
      {
        i := i - 1;
        ReversedCons(nodes[i], nodes[i + 1..]);
        assert nodes[i..] == [nodes[i]] + nodes[i + 1..];
        p.Append(nodes[i]);
      }
      assert nodes[0..] == nodes;
    }

    /** `getTotalWeight` of a path: the sum of the weights of its edges. */
    method GetTotalWeight() returns (weight: int)
      requires InRange(graph.edges, nodes)
      ensures weight == PathWeight(graph.edges, nodes)
    {
      weight := 0;
      if |nodes| <= 1 {
        return;
      }
      var i := 0;
      while i < |nodes| - 1
        invariant 0 <= i < |nodes|
        invariant weight == PathWeight(graph.edges, nodes[..i + 1])
      {
        PathWeightAppend(graph.edges, nodes[..i + 1], nodes[i + 1]);
        assert nodes[..i + 2] == nodes[..i + 1] + [nodes[i + 1]];
        weight := weight + graph.edges[nodes[i]][nodes[i + 1]];
        i := i + 1;
      }
      assert nodes[..|nodes|] == nodes;
    }
  }
}
