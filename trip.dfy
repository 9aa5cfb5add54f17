/** The trip planner: a road network built in place from a map file, and
    the written itinerary of a trip through a list of destinations. */
module Trip {
  import opened Options
  import opened Roads
  import opened RoadMaps
  import opened TripErrors
  import opened Network
  import opened Itinerary
  import opened TripPlans
  import opened MapFormat

  class Trip {
    /** The vertex of each registered location name. */
    var sites: map<string, int>
    /** The network of locations and roads. */
    var roadMap: RoadMap

    ghost predicate Valid()
      reads this
    {
      Consistent(sites, roadMap)
    }

    /** The name index and the graph, as a value. */
    function State(): Network
      reads this
    {
      Network(sites, roadMap)
    }

    /** A planner with no locations and no roads. */
    constructor ()
      ensures sites == map[] && roadMap == RoadMap([], map[])
      ensures Valid()
    {
      sites := map[];
      roadMap := RoadMap([], map[]);
    }

    /** Registers location `name` at (x, y), unless the name is taken. */
    method AddLocation(name: string, x: real, y: real) returns (status: Outcome)
      modifies this
      ensures (State(), status) == WithLocation(old(State()), name, x, y)
      ensures old(Valid()) ==> Valid()
    {
      if name in sites {
        return Fail(DuplicateLocation(name));
      }
      var (g, v) := roadMap.AddVertex(Location(name, x, y));
      roadMap := g;
      sites := sites[name := v];
      status := Pass;
    }

    /** Adds road `name` from `from` to `to` and its mirror back, once both
        names are known. */
    method AddRoad(from: string, name: string, length: real, dir: Direction, to: string)
      returns (status: Outcome)
      modifies this
      ensures (State(), status) == WithRoad(old(State()), from, name, length, dir, to)
      ensures old(Valid()) ==> Valid()
    {
      if from !in sites {
        return Fail(UndefinedLocation(from));
      } else if to !in sites {
        return Fail(UndefinedLocation(to));
      }
      var v0, v1 := sites[from], sites[to];
      var road := Road(name, dir, length);
      roadMap := roadMap.AddEdge(v0, v1, road);
      var back := Road(name, Reverse(dir), length);
      roadMap := roadMap.AddEdge(v1, v0, back);
      status := Pass;
    }

    /** The lines describing the walk along `segment`, numbered from
        `number`, and the number of the line after them. The walk keeps
        the road it is on (name, direction, distance so far) and, at each
        further road, either adds its length or announces the road so far
        and moves on to the new one. */
    method ReportSegment(number: int, segment: seq<int>) returns (steps: seq<Step>, next: int)
      requires EdgesJoinVertices(roadMap) && IsPath(roadMap.roads, segment)
      ensures steps == SegmentSteps(number, RoadsAlong(roadMap.roads, segment), Destination(roadMap, segment).name)
      ensures next == number + |steps|
    {
      ghost var roads := RoadsAlong(roadMap.roads, segment);
      ghost var dest := Destination(roadMap, segment).name;
      var first := segment[0];
      var second := segment[1];
      var firstRoad := roadMap.roads[(first, second)];
      var firstDist := firstRoad.length;
      var firstName := firstRoad.name;
      var firstDirection := FullName(firstRoad.dir);
      var secondDist := 0.0;
      var secondName := "";
      var secondDirection := "";
      var line := number;
      steps := [];
      assert Hop(segment, 0) == (first, second);
      ghost var report := WalkFrom(roads, 1, Start(roads[0], number), dest);
      var i := 2;
      while i < |segment|
        invariant 2 <= i <= |segment|
        invariant second == segment[i - 1]
        invariant line == number + |steps|
        invariant report == WalkFrom(roads, i - 1, Walker(steps, line, firstName, firstDirection, firstDist,
                                                         secondName, secondDirection), dest)
      {
        first := second;
        second := segment[i];
        assert Hop(segment, i - 1) == (first, second);
        var secondRoad := roadMap.roads[(first, second)];
        secondDist := secondRoad.length;
        secondName := secondRoad.name;
        secondDirection := FullName(secondRoad.dir);
        if secondDirection == firstDirection && secondName == firstName {
          firstDist := firstDist + secondDist;
        } else {
          steps := steps + [Step(line, firstName, firstDirection, firstDist, None)];
          firstName := secondName;
          firstDirection := secondDirection;
          firstDist := secondDist;
          line := line + 1;
        }
        i := i + 1;
      }
      assert Hop(segment, i - 2) in roadMap.roads;
      assert roadMap.locations[second].name == dest;
      steps := steps + [Step(line, secondName, secondDirection, firstDist, Some(roadMap.locations[second].name))];
      line := line + 1;
      next := line;
      WalkReports(roads, number, dest);
    }

    /** Leg done + 1 of a trip, from vertex `from` of dests[done] to vertex
        `to` of dests[done + 1]: the lines for the path the search finds
        between them, numbered on from `step`, the line after the legs
        `before` reported so far. */
    method ReportLeg(dests: seq<string>, pathTo: (int, int) -> seq<int>, done: nat, from: int, to: int,
                     step: int, ghost before: seq<Step>)
      returns (legSteps: seq<Step>, next: int)
      requires Valid()
      requires SearchRoutesLegs(roadMap.roads, sites, dests, pathTo)
      requires done + 1 < |dests| && dests[done] in sites && dests[done + 1] in sites
      requires LegsKnown(sites, dests, done + 1)
      requires from == sites[dests[done]] && to == sites[dests[done + 1]]
      requires before == TripSteps(roadMap, sites, dests, pathTo, done) && step == 1 + |before|
      ensures before + legSteps == TripSteps(roadMap, sites, dests, pathTo, done + 1)
      ensures next == step + |legSteps|
    {
      assert LegRouted(roadMap.roads, sites, dests, pathTo, done + 1);
      var segment := pathTo(from, to);
      legSteps, next := ReportSegment(step, segment);
      TripGrows(roadMap, sites, dests, pathTo, done, before, legSteps);
    }

    /** The itinerary of a trip visiting `dests` in order, each leg along
        the path `pathTo` finds between its ends: the origin announced
        first, then the lines of every leg, numbered on from 1. The trip
        stops at the first name that is not a registered location,
        checking each leg's start before its end, and needs at least two
        destinations. */
    method MakeTrip(dests: seq<string>, pathTo: (int, int) -> seq<int>)
      returns (origin: Option<string>, steps: seq<Step>, status: Outcome)
      requires Valid()
      requires SearchRoutesLegs(roadMap.roads, sites, dests, pathTo)
      ensures |dests| < 2 ==> origin == None && steps == [] && status == Fail(TooFewLocations)
      ensures |dests| >= 2 ==> origin == Some(dests[0])
      ensures |dests| >= 2 && (forall j :: 0 <= j < |dests| ==> dests[j] in sites) ==>
                status == Pass && steps == TripSteps(roadMap, sites, dests, pathTo, |dests| - 1)
      ensures |dests| >= 2 && (exists j :: 0 <= j < |dests| && dests[j] !in sites) ==>
                var j := FirstUnknown(sites, dests);
                && status == Fail(NoLocationNamed(dests[j]))
                && steps == TripSteps(roadMap, sites, dests, pathTo, if j == 0 then 0 else j - 1)
      ensures Numbered(steps, 1)
      ensures status == Pass ==> Arrivals(steps) == dests[1..]
    {
      if |dests| < 2 {
        return None, [], Fail(TooFewLocations);
      }
      origin := Some(dests[0]);
      var step := 1;
      steps := [];
      var done := 0;
      while done < |dests| - 1
        invariant LegsKnown(sites, dests, done)
        decreases |dests| - done
        invariant steps == TripSteps(roadMap, sites, dests, pathTo, done)
        invariant step == 1 + |steps|
      {
        if dests[done] !in sites {
          TripStops(roadMap, sites, dests, pathTo, done, done, steps);
          return origin, steps, Fail(NoLocationNamed(dests[done]));
        } else if dests[done + 1] !in sites {
          TripStops(roadMap, sites, dests, pathTo, done, done + 1, steps);
          return origin, steps, Fail(NoLocationNamed(dests[done + 1]));
        }
        LegsKnownNext(sites, dests, done);
        var from, to := sites[dests[done]], sites[dests[done + 1]];
        var legSteps;
        legSteps, step := ReportLeg(dests, pathTo, done, from, to, step, steps);
        steps := steps + legSteps;
        done := done + 1;
      }
      TripEnds(roadMap, sites, dests, pathTo, done, steps);
      status := Pass;
    }

    /** Reads the entries of a map file in order and registers each, up to
        the first entry that cannot be read or registered. */
    method ReadMap(tokens: seq<Token>, parse: string -> Direction) returns (status: Outcome)
      modifies this
      ensures (State(), status) == Load(old(State()), tokens, 0, parse)
      ensures old(Valid()) ==> Valid()
    {
      var n := 0;
      var pos := 0;
      while pos < |tokens|
        invariant 0 <= pos <= |tokens|
        invariant Load(old(State()), tokens, 0, parse) == Load(State(), tokens[pos..], n, parse)
        invariant old(Valid()) ==> Valid()
        decreases |tokens| - pos
      {
        var reading := ReadEntry(tokens[pos..], n + 1, parse);
        ghost var before := State();
        LoadEntry(before, tokens[pos..], n, parse, reading);
        n := n + 1;
        if reading.Unreadable? {
          return Fail(reading.error);
        }
        var outcome;
        match reading.entry {
          case LocationEntry(name, x, y) =>
            outcome := AddLocation(name, x, y);
          case RoadEntry(from, road, length, dir, to) =>
            outcome := AddRoad(from, road, length, dir, to);
        }
        assert (State(), outcome) == Apply(before, reading.entry);
        if outcome.Fail? {
          return outcome;
        }
        assert tokens[pos..][reading.used..] == tokens[pos + reading.used..];
        pos := pos + reading.used;
      }
      status := Pass;
    }
  }
}
