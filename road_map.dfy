/** The labelled directed graph of locations and roads the trip planner
    builds on, and the name index that resolves location names to its
    vertices. The graph comes from a library; only the operations the
    planner uses are modelled: adding a vertex, adding or relabelling an
    edge, and reading labels. */
module RoadMaps {
  import opened Roads

  /** Vertex v is labelled locations[v]; edge (u, v) exists exactly when
      (u, v) is a key of roads, and is labelled roads[(u, v)]. */
  datatype RoadMap = RoadMap(locations: seq<Location>, roads: map<(int, int), Road>)
  {
    predicate IsVertex(v: int) {
      0 <= v < |locations|
    }

    /** Adds a vertex labelled loc and returns the new vertex number. */
    function AddVertex(loc: Location): (r: (RoadMap, int))
      ensures r.1 == |locations| && !IsVertex(r.1) && r.0.IsVertex(r.1)
      ensures r.0.locations == locations + [loc] && r.0.roads == roads
    {
      (RoadMap(locations + [loc], roads), |locations|)
    }

    /** Adds edge (u, v) labelled road; an existing label is replaced. */
    function AddEdge(u: int, v: int, road: Road): (g: RoadMap)
      ensures g.locations == locations
      ensures (u, v) in g.roads && g.roads[(u, v)] == road
      ensures forall e :: e != (u, v) ==> (e in g.roads <==> e in roads)
      ensures forall e :: e != (u, v) && e in roads ==> g.roads[e] == roads[e]
    {
      RoadMap(locations, roads[(u, v) := road])
    }
  }

  /** Every edge joins two vertices of the graph. */
  ghost predicate EdgesJoinVertices(g: RoadMap) {
    forall e :: e in g.roads ==> g.IsVertex(e.0) && g.IsVertex(e.1)
  }

  /** Every road between two distinct locations comes with its mirror:
      the same road, travelled the other way. A road from a location to
      itself has no separate mirror (both share the one edge). */
  ghost predicate Mirrored(roads: map<(int, int), Road>) {
    forall e :: e in roads && e.0 != e.1 ==>
      (e.1, e.0) in roads && roads[(e.1, e.0)] == Reversed(roads[e])
  }

  /** The name index agrees with the graph: every name is bound to the
      vertex that carries that name, and every vertex is reachable through
      the index by its own name. */
  ghost predicate Indexed(sites: map<string, int>, g: RoadMap) {
    && (forall name :: name in sites ==> g.IsVertex(sites[name]) && g.locations[sites[name]].name == name)
    && (forall v :: g.IsVertex(v) ==> g.locations[v].name in sites && sites[g.locations[v].name] == v)
  }

  /** The invariant the trip planner keeps for its name index and graph. */
  ghost predicate Consistent(sites: map<string, int>, g: RoadMap) {
    Indexed(sites, g) && EdgesJoinVertices(g) && Mirrored(g.roads)
  }

  /** Adding a road together with its mirror keeps every road mirrored. */
  lemma {:induction false} AddMirroredPair(roads: map<(int, int), Road>, u: int, v: int, road: Road)
    requires Mirrored(roads)
    ensures Mirrored(roads[(u, v) := road][(v, u) := Reversed(road)])
  {
    var r := roads[(u, v) := road][(v, u) := Reversed(road)];
    forall e | e in r && e.0 != e.1
      ensures (e.1, e.0) in r && r[(e.1, e.0)] == Reversed(r[e])
    {
      if e == (u, v) {
        assert r[(e.1, e.0)] == Reversed(road);
      } else if e == (v, u) {
        ReversedInvolutive(road);
      } else {
        assert (e.1, e.0) != (u, v) && (e.1, e.0) != (v, u);
      }
    }
  }

  /** The j-th hop of a path: from its j-th vertex to the next. */
  function Hop(path: seq<int>, j: int): (int, int)
    requires 0 <= j < |path| - 1
  {
    (path[j], path[j + 1])
  }

  /** A path of at least one road: each hop is an edge. */
  ghost predicate IsPath(roads: map<(int, int), Road>, path: seq<int>) {
    |path| >= 2 && forall j :: 0 <= j < |path| - 1 ==> Hop(path, j) in roads
  }

  /** A path starting at `from` and ending at `to`. */
  ghost predicate IsRoute(roads: map<(int, int), Road>, path: seq<int>, from: int, to: int) {
    IsPath(roads, path) && path[0] == from && path[|path| - 1] == to
  }

  /** The location at the end of a path. */
  function Destination(g: RoadMap, path: seq<int>): Location
    requires EdgesJoinVertices(g) && IsPath(g.roads, path)
  {
    assert Hop(path, |path| - 2) in g.roads;
    g.locations[path[|path| - 1]]
  }

  /** The labels of the hops of a path, in order. */
  function RoadsAlong(roads: map<(int, int), Road>, path: seq<int>): (labels: seq<Road>)
    requires forall j :: 0 <= j < |path| - 1 ==> Hop(path, j) in roads
    ensures |labels| == if |path| == 0 then 0 else |path| - 1
    ensures forall j :: 0 <= j < |labels| ==> labels[j] == roads[Hop(path, j)]
  {
    if |path| < 2 then []
    else
      assert forall j :: 0 <= j < |path| - 2 ==> Hop(path[1..], j) == Hop(path, j + 1);
      [roads[Hop(path, 0)]] + RoadsAlong(roads, path[1..])
  }
}
