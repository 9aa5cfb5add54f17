/** Building the road network: registering locations under their names
    and adding roads in mirrored pairs. The functions here say what one
    call does to the name index and the graph; the class in module Trip
    performs the same changes in place. */
module Network {
  import opened Roads
  import opened RoadMaps
  import opened TripErrors

  /** The name index and the graph together. */
  datatype Network = Network(sites: map<string, int>, roadMap: RoadMap)

  ghost predicate Valid(net: Network) {
    Consistent(net.sites, net.roadMap)
  }

  /** Registers a new location `name` at (x, y). A name may be registered
      only once; otherwise it is bound to the new vertex, and no other
      binding and no road changes. */
  function WithLocation(net: Network, name: string, x: real, y: real): (r: (Network, Outcome))
    ensures name in net.sites ==> r == (net, Fail(DuplicateLocation(name)))
    ensures name !in net.sites ==>
      && r.1 == Pass
      && r.0.roadMap.locations == net.roadMap.locations + [Location(name, x, y)]
      && r.0.roadMap.roads == net.roadMap.roads
      && r.0.sites == net.sites[name := |net.roadMap.locations|]
    ensures Valid(net) ==> Valid(r.0)
  {
    if name in net.sites then (net, Fail(DuplicateLocation(name)))
    else
      var (g, v) := net.roadMap.AddVertex(Location(name, x, y));
      var r := (Network(net.sites[name := v], g), Pass);
      assert Valid(net) ==> Indexed(r.0.sites, g) by {
        if Valid(net) {
          forall w | g.IsVertex(w)
            ensures g.locations[w].name in r.0.sites && r.0.sites[g.locations[w].name] == w
          {
            if w < v {
              assert g.locations[w] == net.roadMap.locations[w];
            }
          }
        }
      }
      r
  }

  /** Adds a road `name` from location `from` to location `to`, running in
      direction `dir` and `length` long, and the same road back from `to`
      to `from` in the reverse direction. An undefined `from` is reported
      before an undefined `to`; on either error nothing changes. */
  function WithRoad(net: Network, from: string, name: string, length: real, dir: Direction, to: string): (r: (Network, Outcome))
    ensures from !in net.sites ==> r == (net, Fail(UndefinedLocation(from)))
    ensures from in net.sites && to !in net.sites ==> r == (net, Fail(UndefinedLocation(to)))
    ensures from in net.sites && to in net.sites ==>
      var v0, v1 := net.sites[from], net.sites[to];
      && r.1 == Pass
      && r.0.sites == net.sites
      && r.0.roadMap.locations == net.roadMap.locations
      && r.0.roadMap.roads == net.roadMap.roads[(v0, v1) := Road(name, dir, length)][(v1, v0) := Road(name, Reverse(dir), length)]
    ensures Valid(net) ==> Valid(r.0)
  {
    if from !in net.sites then (net, Fail(UndefinedLocation(from)))
    else if to !in net.sites then (net, Fail(UndefinedLocation(to)))
    else
      var v0, v1 := net.sites[from], net.sites[to];
      var road := Road(name, dir, length);
      var g := net.roadMap.AddEdge(v0, v1, road).AddEdge(v1, v0, Reversed(road));
      assert Valid(net) ==> Mirrored(g.roads) by {
        if Valid(net) {
          AddMirroredPair(net.roadMap.roads, v0, v1, road);
        }
      }
      (Network(net.sites, g), Pass)
  }

  /** Adding a road between two distinct locations makes both the road
      and its mirror edges of the graph, whatever was there before. */
  lemma {:induction false} RoadAndMirrorAdded(net: Network, from: string, name: string, length: real, dir: Direction, to: string)
    requires Valid(net)
    requires from in net.sites && to in net.sites && from != to
    ensures var r := WithRoad(net, from, name, length, dir, to);
            var v0, v1 := net.sites[from], net.sites[to];
            && r.1 == Pass
            && r.0.roadMap.roads[(v0, v1)] == Road(name, dir, length)
            && r.0.roadMap.roads[(v1, v0)] == Reversed(Road(name, dir, length))
  {
    assert net.roadMap.locations[net.sites[from]].name == from;
  }

  /** A road from a location to itself ends up with only its reversed
      label: the mirror is added second, on the same edge. */
  lemma {:induction false} SelfRoadKeepsMirror(net: Network, at: string, name: string, length: real, dir: Direction)
    requires at in net.sites
    ensures var r := WithRoad(net, at, name, length, dir, at);
            var v := net.sites[at];
            r.0.roadMap.roads[(v, v)] == Road(name, Reverse(dir), length) != Road(name, dir, length)
  {
  }
}
