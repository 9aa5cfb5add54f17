/** Planning a trip through a list of destinations: the edge weight the
    shortest-path search is given, and the report of all legs of a trip
    with their step numbers threaded from one leg to the next. The search
    itself is an oracle `pathTo` from two vertices to a path. */
module TripPlans {
  import opened Roads
  import opened RoadMaps
  import opened Itinerary

  /** The largest finite double, (2 - 2^-52) * 2^1023: the weight of a
      missing edge. */
  const MaxDouble: real := 179769313486231570814527423731704356798070567525844996598917476803157260780028538760589558632766878171540458953514382464234321326889464182768467546703537516986049910576551282076245490090389328944075868508455133942304583236903222948165808559332123348274797826204144723168738177180919299881250404026184124858368.0

  /** The weight of the edge from u to v as the search sees it: the length
      of its road, or the largest double when there is no such edge. */
  function Weight(roads: map<(int, int), Road>, u: int, v: int): (w: real)
    ensures (u, v) in roads ==> w == roads[(u, v)].length
    ensures (u, v) !in roads ==> w == MaxDouble
  {
    if (u, v) !in roads then MaxDouble else roads[(u, v)].length
  }

  /** In a network whose roads all come with their mirrors the weight of
      an edge does not depend on the way it is travelled. */
  lemma {:induction false} WeightSymmetric(roads: map<(int, int), Road>, u: int, v: int)
    requires Mirrored(roads)
    ensures Weight(roads, u, v) == Weight(roads, v, u)
  {
    if u != v {
      assert (u, v) in roads ==> (v, u) in roads;
      assert (v, u) in roads ==> (u, v) in roads by {
        if (v, u) in roads {
          var e := (v, u);
          assert (e.1, e.0) in roads;
        }
      }
    }
  }

  /** Sum of the weights of the edges along a path. */
  function PathWeight(roads: map<(int, int), Road>, path: seq<int>): real {
    if |path| < 2 then 0.0 else Weight(roads, path[0], path[1]) + PathWeight(roads, path[1..])
  }

  /** Along a path of existing roads the search's weight is the length of
      the roads. */
  lemma {:induction false} PathWeightIsMiles(roads: map<(int, int), Road>, path: seq<int>)
    requires IsPath(roads, path)
    ensures PathWeight(roads, path) == Miles(RoadsAlong(roads, path))
  {
    assert Hop(path, 0) in roads;
    if |path| > 2 {
      assert IsPath(roads, path[1..]) by {
        forall j | 0 <= j < |path| - 2 ensures Hop(path[1..], j) in roads {
          assert Hop(path[1..], j) == Hop(path, j + 1);
        }
      }
      PathWeightIsMiles(roads, path[1..]);
    }
  }

  /** The lines reported for a leg add up to the weight of its path. */
  lemma {:induction false} LegMilesAreWeight(roads: map<(int, int), Road>, path: seq<int>, first: int, dest: string)
    requires IsPath(roads, path)
    ensures StepMiles(SegmentSteps(first, RoadsAlong(roads, path), dest)) == PathWeight(roads, path)
  {
    SegmentMiles(first, RoadsAlong(roads, path), dest);
    PathWeightIsMiles(roads, path);
  }

  /** Leg i of a trip runs from dests[i - 1] to dests[i]. A trip reaches
      it only when dests[0], ..., dests[i] are all registered, and then the
      search finds a path of at least one road for it. */
  ghost predicate LegRouted(roads: map<(int, int), Road>, sites: map<string, int>,
                            dests: seq<string>, pathTo: (int, int) -> seq<int>, i: int)
    requires 0 < i < |dests|
  {
    (forall j :: 0 <= j <= i ==> dests[j] in sites) ==>
      IsRoute(roads, pathTo(sites[dests[i - 1]], sites[dests[i]]), sites[dests[i - 1]], sites[dests[i]])
  }

  ghost predicate SearchRoutesLegs(roads: map<(int, int), Road>, sites: map<string, int>,
                                   dests: seq<string>, pathTo: (int, int) -> seq<int>) {
    forall i :: 0 < i < |dests| ==> LegRouted(roads, sites, dests, pathTo, i)
  }

  /** A trip whose first name is not registered stops before any search,
      so it asks nothing of the search, whatever the names after it. */
  lemma {:induction false} UnknownStartNeedsNoRoute(roads: map<(int, int), Road>, sites: map<string, int>,
                                                    dests: seq<string>, pathTo: (int, int) -> seq<int>)
    requires |dests| > 0 && dests[0] !in sites
    ensures SearchRoutesLegs(roads, sites, dests, pathTo)
  {
    forall i | 0 < i < |dests|
      ensures LegRouted(roads, sites, dests, pathTo, i)
    {
      assert !(forall j :: 0 <= j <= i ==> dests[j] in sites);
    }
  }

  /** The names of the first k legs, dests[0..k], are all registered. */
  ghost predicate LegsKnown(sites: map<string, int>, dests: seq<string>, k: nat) {
    k < |dests| && (k == 0 || forall j :: 0 <= j <= k ==> dests[j] in sites)
  }

  /** The report of leg k of a trip, numbered from `first`: the lines for
      the path the search finds from dests[k - 1] to dests[k], ending at
      the location of that path's last vertex. It is defined for every leg
      the trip reaches, since the trip stops at an unknown name and the
      search finds a route for every leg it is asked about; the empty
      report outside that is only a placeholder. */
  ghost function LegSteps(g: RoadMap, sites: map<string, int>, dests: seq<string>,
                          pathTo: (int, int) -> seq<int>, k: nat, first: int): seq<Step>
  {
    if EdgesJoinVertices(g) && 0 < k && LegsKnown(sites, dests, k)
       && LegRouted(g.roads, sites, dests, pathTo, k)
    then
      var path := pathTo(sites[dests[k - 1]], sites[dests[k]]);
      SegmentSteps(first, RoadsAlong(g.roads, path), Destination(g, path).name)
    else []
  }

  /** The legs of a trip, as a function of a leg's index and the number of
      its first line. */
  ghost function Legs(g: RoadMap, sites: map<string, int>, dests: seq<string>,
                      pathTo: (int, int) -> seq<int>): (nat, int) -> seq<Step>
  {
    (k: nat, first: int) => LegSteps(g, sites, dests, pathTo, k, first)
  }

  /** The lines of legs 1 through k of a trip whose leg i reports
      leg(i, first) when numbered from `first`. Each leg is numbered from
      one more than the number of lines before it, so the numbering runs
      on across legs. */
  ghost function Chain(leg: (nat, int) -> seq<Step>, k: nat): seq<Step>
    decreases k, 1
  {
    if k == 0 then [] else Chain(leg, k - 1) + LegAt(leg, k)
  }

  /** Leg k of a chain, numbered from the line after the legs before it. */
  ghost function LegAt(leg: (nat, int) -> seq<Step>, k: nat): seq<Step>
    requires k > 0
    decreases k, 0
  {
    leg(k, 1 + |Chain(leg, k - 1)|)
  }

  /** The report of the first k legs of a trip. */
  ghost function TripSteps(g: RoadMap, sites: map<string, int>, dests: seq<string>,
                           pathTo: (int, int) -> seq<int>, k: nat): seq<Step>
  {
    Chain(Legs(g, sites, dests, pathTo), k)
  }

  /** Once k legs are reported, the next leg, from dests[k] to
      dests[k + 1], adds the lines for the path the search finds between
      them, numbered on from there. */
  lemma {:induction false} TripGrows(g: RoadMap, sites: map<string, int>, dests: seq<string>,
                                     pathTo: (int, int) -> seq<int>, k: nat, before: seq<Step>, leg: seq<Step>)
    requires EdgesJoinVertices(g)
    requires k + 1 < |dests| && dests[k] in sites && dests[k + 1] in sites
    requires LegsKnown(sites, dests, k + 1) && LegRouted(g.roads, sites, dests, pathTo, k + 1)
    requires before == TripSteps(g, sites, dests, pathTo, k)
    requires var path := pathTo(sites[dests[k]], sites[dests[k + 1]]);
             leg == SegmentSteps(1 + |before|, RoadsAlong(g.roads, path), Destination(g, path).name)
    ensures TripSteps(g, sites, dests, pathTo, k + 1) == before + leg
  {
    assert LegAt(Legs(g, sites, dests, pathTo), k + 1) == leg;
  }

  /** One more registered name extends the known names by one leg. */
  lemma {:induction false} LegsKnownNext(sites: map<string, int>, dests: seq<string>, k: nat)
    requires LegsKnown(sites, dests, k) && k + 1 < |dests|
    requires dests[k] in sites && dests[k + 1] in sites
    ensures LegsKnown(sites, dests, k + 1)
  {
  }

  lemma {:induction false} NumberedConcat(before: seq<Step>, leg: seq<Step>, first: int)
    requires Numbered(before, first) && Numbered(leg, first + |before|)
    ensures Numbered(before + leg, first)
  {
  }

  lemma {:induction false} ArrivalsConcat(a: seq<Step>, b: seq<Step>)
    ensures Arrivals(a + b) == Arrivals(a) + Arrivals(b)
  {
    if a == [] {
      assert a + b == b;
    } else {
      assert (a + b)[0] == a[0];
      assert (a + b)[1..] == a[1..] + b;
      ArrivalsConcat(a[1..], b);
    }
  }

  /** A leg's lines are numbered from `first` on, and only the last names a
      destination: the name of dests[k]. */
  lemma {:induction false} LegReport(g: RoadMap, sites: map<string, int>, dests: seq<string>,
                  pathTo: (int, int) -> seq<int>, k: nat, first: int)
    requires EdgesJoinVertices(g) && Indexed(sites, g)
    requires 0 < k && LegsKnown(sites, dests, k)
    requires LegRouted(g.roads, sites, dests, pathTo, k)
    ensures Numbered(LegSteps(g, sites, dests, pathTo, k, first), first)
    ensures Arrivals(LegSteps(g, sites, dests, pathTo, k, first)) == [dests[k]]
  {
    var path := pathTo(sites[dests[k - 1]], sites[dests[k]]);
    assert Hop(path, |path| - 2) in g.roads;
    var roads := RoadsAlong(g.roads, path);
    var dest := Destination(g, path).name;
    assert dest == dests[k];
    SegmentNumbering(first, roads, dest);
    SegmentArrivals(first, roads, dest);
  }

  /** When every leg i numbers its lines from wherever it starts and
      arrives at dests[i] alone, the chained report numbers its lines
      1, 2, 3, ... and arrives at dests[1], ..., dests[k] in order. */
  lemma {:induction false} ChainReport(leg: (nat, int) -> seq<Step>, dests: seq<string>, k: nat)
    requires k < |dests|
    requires forall i: nat, first: int :: 0 < i <= k ==>
               Numbered(leg(i, first), first) && Arrivals(leg(i, first)) == [dests[i]]
    ensures Numbered(Chain(leg, k), 1)
    ensures Arrivals(Chain(leg, k)) == dests[1..k + 1]
  {
    if k > 0 {
      ChainReport(leg, dests, k - 1);
      var before := Chain(leg, k - 1);
      var next := leg(k, 1 + |before|);
      assert LegAt(leg, k) == next;
      NumberedConcat(before, next, 1);
      ArrivalsConcat(before, next);
      assert dests[1..k] + [dests[k]] == dests[1..k + 1];
    }
  }

  /** A trip's report numbers its lines 1, 2, 3, ... across all legs, and
      leg i contributes exactly one line that names a destination, naming
      dests[i]: the report of k legs arrives at dests[1..k+1], in order. */
  lemma {:induction false} TripReport(g: RoadMap, sites: map<string, int>, dests: seq<string>,
                   pathTo: (int, int) -> seq<int>, k: nat)
    requires EdgesJoinVertices(g) && Indexed(sites, g)
    requires SearchRoutesLegs(g.roads, sites, dests, pathTo)
    requires LegsKnown(sites, dests, k)
    ensures Numbered(TripSteps(g, sites, dests, pathTo, k), 1)
    ensures Arrivals(TripSteps(g, sites, dests, pathTo, k)) == dests[1..k + 1]
  {
    var leg := Legs(g, sites, dests, pathTo);
    forall i: nat, first: int | 0 < i <= k
      ensures Numbered(leg(i, first), first) && Arrivals(leg(i, first)) == [dests[i]]
    {
      assert LegRouted(g.roads, sites, dests, pathTo, i);
      LegReport(g, sites, dests, pathTo, i, first);
    }
    ChainReport(leg, dests, k);
  }

  /** The position of the first name in `names` that is not registered. */
  function FirstUnknown(sites: map<string, int>, names: seq<string>): (j: nat)
    requires exists k :: 0 <= k < |names| && names[k] !in sites
    ensures j < |names| && names[j] !in sites
    ensures forall k :: 0 <= k < j ==> names[k] in sites
  {
    if names[0] !in sites then 0
    else
      assert exists k :: 0 <= k < |names[1..]| && names[1..][k] !in sites by {
        var k :| 0 <= k < |names| && names[k] !in sites;
        assert names[1..][k - 1] == names[k];
      }
      1 + FirstUnknown(sites, names[1..])
  }

  /** The position of the first unknown name is i when every name before
      it is known and it is not. */
  lemma {:induction false} FirstUnknownIs(sites: map<string, int>, names: seq<string>, i: nat)
    requires i < |names| && names[i] !in sites
    requires forall j :: 0 <= j < i ==> names[j] in sites
    ensures FirstUnknown(sites, names) == i
  {
  }

  /** A trip that stops at leg k + 1 because dests[j] is not registered,
      j being k or k + 1, stops at the first unknown name of the trip, and
      has reported its first k legs, numbered 1, 2, 3, .... */
  lemma {:induction false} TripStops(g: RoadMap, sites: map<string, int>, dests: seq<string>,
                                     pathTo: (int, int) -> seq<int>, k: nat, j: nat, steps: seq<Step>)
    requires EdgesJoinVertices(g) && Indexed(sites, g)
    requires SearchRoutesLegs(g.roads, sites, dests, pathTo)
    requires LegsKnown(sites, dests, k) && k + 1 < |dests|
    requires j == if dests[k] !in sites then k else k + 1
    requires dests[j] !in sites
    requires steps == TripSteps(g, sites, dests, pathTo, k)
    ensures exists i :: 0 <= i < |dests| && dests[i] !in sites
    ensures FirstUnknown(sites, dests) == j
    ensures steps == TripSteps(g, sites, dests, pathTo, if j == 0 then 0 else j - 1)
    ensures Numbered(steps, 1)
  {
    FirstUnknownIs(sites, dests, j);
    TripReport(g, sites, dests, pathTo, k);
  }

  /** A trip that has made its last leg has met only registered names,
      numbers its lines 1, 2, 3, ... and arrives at dests[1], dests[2], ...
      in order. */
  lemma {:induction false} TripEnds(g: RoadMap, sites: map<string, int>, dests: seq<string>,
                                    pathTo: (int, int) -> seq<int>, k: nat, steps: seq<Step>)
    requires EdgesJoinVertices(g) && Indexed(sites, g)
    requires SearchRoutesLegs(g.roads, sites, dests, pathTo)
    requires LegsKnown(sites, dests, k) && k > 0 && k + 1 == |dests|
    requires steps == TripSteps(g, sites, dests, pathTo, k)
    ensures forall i :: 0 <= i < |dests| ==> dests[i] in sites
    ensures Numbered(steps, 1)
    ensures Arrivals(steps) == dests[1..]
  {
    TripReport(g, sites, dests, pathTo, k);
    assert dests[1..k + 1] == dests[1..];
  }
}
