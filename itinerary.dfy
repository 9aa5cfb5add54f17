/** The itinerary report: how the roads along one leg of a trip are
    merged into numbered steps. The reference definition groups the
    roads into maximal runs of the same road name and direction. */
module Itinerary {
  import opened Options
  import opened Roads

  /** A road's name and direction. Two consecutive roads are merged when
      their names and the printed names of their directions agree; since
      distinct directions print differently (Roads.FullNameInjective),
      that is when their ways are equal. */
  datatype Way = Way(name: string, dir: Direction)

  function WayOf(r: Road): Way {
    Way(r.name, r.dir)
  }

  /** A maximal run of consecutive roads sharing a way, with the total of
      their lengths and how many roads it covers. */
  datatype Run = Run(way: Way, miles: real, count: nat)

  /** One numbered line of the report: "<number>. Take <name> <direction>
      for <miles> miles", with "to <destination>" on the last line of a
      leg. */
  datatype Step = Step(number: int, name: string, direction: string, miles: real, to: Option<string>)

  function Single(r: Road): Run {
    Run(WayOf(r), r.length, 1)
  }

  /** Run `run` preceded by a road of the same way, `length` long. */
  function Extend(run: Run, length: real): Run {
    Run(run.way, length + run.miles, run.count + 1)
  }

  /** Sum of the lengths of a sequence of roads. */
  function Miles(roads: seq<Road>): real {
    if roads == [] then 0.0 else roads[0].length + Miles(roads[1..])
  }

  function RunMiles(rs: seq<Run>): real {
    if rs == [] then 0.0 else rs[0].miles + RunMiles(rs[1..])
  }

  function RoadsCovered(rs: seq<Run>): nat {
    if rs == [] then 0 else rs[0].count + RoadsCovered(rs[1..])
  }

  /** Number of places where a road differs, in name or direction, from
      the road before it. */
  function Changes(roads: seq<Road>): nat {
    if |roads| < 2 then 0
    else (if WayOf(roads[1]) == WayOf(roads[0]) then 0 else 1) + Changes(roads[1..])
  }

  /** Groups a nonempty sequence of roads into its maximal runs, front to
      back: the first road joins the run that follows it when it has the
      same way, and starts a run of its own otherwise. */
  function Runs(roads: seq<Road>): (rs: seq<Run>)
    requires |roads| > 0
    ensures 0 < |rs| <= |roads|
    ensures rs[0].way == WayOf(roads[0])
    ensures rs[|rs| - 1].way == WayOf(roads[|roads| - 1])
  {
    if |roads| == 1 then [Single(roads[0])] else Prepend(roads[0], Runs(roads[1..]))
  }

  /** One step of the grouping, for a road in front of a nonempty stretch. */
  lemma {:induction false} RunsCons(x: Road, t: seq<Road>)
    requires |t| > 0
    ensures Runs([x] + t) == Prepend(x, Runs(t))
  {
    assert ([x] + t)[1..] == t;
  }

  /** Appending a road either extends the last run, when the road has its
      way, or starts a new run. */
  lemma {:induction false} RunsSnoc(roads: seq<Road>, r: Road)
    requires |roads| > 0
    ensures Runs(roads + [r]) == Append(Runs(roads), r)
  {
    var x := roads[0];
    if |roads| == 1 {
      assert roads + [r] == [x] + [r];
      RunsCons(x, [r]);
    } else {
      var t := roads[1..];
      assert roads == [x] + t;
      assert roads + [r] == [x] + (t + [r]);
      RunsSnoc(t, r);
      RunsCons(x, t);
      RunsCons(x, t + [r]);
      PrependAppend(x, Runs(t), r);
    }
  }

  /** What one grouping step does with the runs of the rest: the run the
      front road produces, merged into the first of rs or put before it. */
  function Prepend(x: Road, rs: seq<Run>): seq<Run>
    requires |rs| > 0
  {
    if WayOf(x) == rs[0].way then [Extend(rs[0], x.length)] + rs[1..] else [Single(x)] + rs
  }

  /** Extends the last run with road r, or starts a new run with it. */
  function Append(rs: seq<Run>, r: Road): seq<Run>
    requires |rs| > 0
  {
    var last := rs[|rs| - 1];
    if WayOf(r) == last.way then rs[..|rs| - 1] + [Run(last.way, last.miles + r.length, last.count + 1)]
    else rs + [Single(r)]
  }

  /** Grouping at the front and at the back commute. */
  lemma {:induction false} PrependAppend(x: Road, rs: seq<Run>, r: Road)
    requires |rs| > 0
    ensures Prepend(x, Append(rs, r)) == Append(Prepend(x, rs), r)
  {
    var last := rs[|rs| - 1];
    var ext := Run(last.way, last.miles + r.length, last.count + 1);
    var app := Append(rs, r);
    if WayOf(r) == last.way {
      if |rs| == 1 {
        assert app == [ext];
      } else {
        assert app[0] == rs[0];
        assert app[1..] == rs[1..|rs| - 1] + [ext];
      }
    } else {
      assert app[0] == rs[0];
      assert app[1..] == rs[1..] + [Single(r)];
    }
  }

  /** Grouping at the front distributes over a concatenation. */
  lemma {:induction false} PrependConcat(x: Road, rs: seq<Run>, rb: seq<Run>)
    requires |rs| > 0
    ensures Prepend(x, rs + rb) == Prepend(x, rs) + rb
  {
    assert (rs + rb)[0] == rs[0];
    assert (rs + rb)[1..] == rs[1..] + rb;
  }

  /** A stretch of roads that all share one way is a single run whose
      length is the sum of theirs. */
  lemma {:induction false} RunsOfUniform(roads: seq<Road>)
    requires |roads| > 0
    requires forall j :: 0 <= j < |roads| ==> WayOf(roads[j]) == WayOf(roads[0])
    ensures Runs(roads) == [Run(WayOf(roads[0]), Miles(roads), |roads|)]
  {
    if |roads| > 1 {
      RunsOfUniform(roads[1..]);
    }
  }

  /** A change of road name or direction between two stretches starts a
      new run: the runs of the whole are the runs of each part. */
  lemma {:induction false} RunsSplit(a: seq<Road>, b: seq<Road>)
    requires |a| > 0 && |b| > 0
    requires WayOf(b[0]) != WayOf(a[|a| - 1])
    ensures Runs(a + b) == Runs(a) + Runs(b)
  {
    var x := a[0];
    if |a| == 1 {
      assert a + b == [x] + b;
      RunsCons(x, b);
    } else {
      var t := a[1..];
      assert a == [x] + t;
      assert a + b == [x] + (t + b);
      RunsSplit(t, b);
      RunsCons(x, t);
      RunsCons(x, t + b);
      PrependConcat(x, Runs(t), Runs(b));
    }
  }

  /** Runs next to each other differ in road name or direction. */
  ghost predicate Maximal(rs: seq<Run>) {
    forall i :: 0 < i < |rs| ==> rs[i - 1].way != rs[i].way
  }

  lemma {:induction false} PrependMaximal(x: Road, rs: seq<Run>)
    requires |rs| > 0 && Maximal(rs)
    ensures Maximal(Prepend(x, rs))
  {
    var p := Prepend(x, rs);
    forall i | 0 < i < |p|
      ensures p[i - 1].way != p[i].way
    {
      if WayOf(x) == rs[0].way {
        assert p[i] == rs[i] && (i > 1 ==> p[i - 1] == rs[i - 1]);
      } else {
        assert p[i] == rs[i - 1] && (i > 1 ==> p[i - 1] == rs[i - 2]);
      }
    }
  }

  /** No two neighbouring runs could have been merged. */
  lemma {:induction false} RunsMaximal(roads: seq<Road>)
    requires |roads| > 0
    ensures Maximal(Runs(roads))
  {
    if |roads| > 1 {
      RunsMaximal(roads[1..]);
      PrependMaximal(roads[0], Runs(roads[1..]));
    }
  }

  /** Merging loses no distance and no road. */
  lemma {:induction false} RunsTotals(roads: seq<Road>)
    requires |roads| > 0
    ensures RunMiles(Runs(roads)) == Miles(roads)
    ensures RoadsCovered(Runs(roads)) == |roads|
    ensures forall run :: run in Runs(roads) ==> run.count > 0
  {
    if |roads| > 1 {
      RunsTotals(roads[1..]);
      var rest := Runs(roads[1..]);
      if WayOf(roads[0]) == rest[0].way {
        assert Runs(roads)[1..] == rest[1..];
      } else {
        assert Runs(roads)[1..] == rest;
      }
    }
  }

  /** There is one run per change of road or direction, plus one. */
  lemma {:induction false} RunsCount(roads: seq<Road>)
    requires |roads| > 0
    ensures |Runs(roads)| == Changes(roads) + 1
  {
    if |roads| > 1 {
      RunsCount(roads[1..]);
    }
  }

  /** The line announcing run `run` as step `number`, without a destination. */
  function Announce(run: Run, number: int): Step {
    Step(number, run.way.name, FullName(run.way.dir), run.miles, None)
  }

  /** The runs `rs` announced as consecutive steps numbered from `first`. */
  function AnnounceAll(rs: seq<Run>, first: int): (steps: seq<Step>)
    ensures |steps| == |rs|
    ensures forall i :: 0 <= i < |rs| ==> steps[i] == Announce(rs[i], first + i)
  {
    if rs == [] then [] else [Announce(rs[0], first)] + AnnounceAll(rs[1..], first + 1)
  }

  /** Announcing one more run adds one line, numbered after the others. */
  lemma {:induction false} AnnounceAllSnoc(rs: seq<Run>, first: int)
    requires |rs| > 0
    ensures AnnounceAll(rs, first)
         == AnnounceAll(rs[..|rs| - 1], first) + [Announce(rs[|rs| - 1], first + |rs| - 1)]
  {
  }

  /** The runs `rs` as report lines numbered from `first`: every run but
      the last announced as it is, and a last line that gives the length
      of the last run, the road name and direction name `final` and the
      destination `dest`. */
  function Report(rs: seq<Run>, first: int, final: (string, string), dest: string): (steps: seq<Step>)
    requires |rs| > 0
    ensures |steps| == |rs|
  {
    if |rs| == 1 then [Step(first, final.0, final.1, rs[0].miles, Some(dest))]
    else [Announce(rs[0], first)] + Report(rs[1..], first + 1, final, dest)
  }

  /** The road name and direction name the last line of a leg gives: those
      of its last road, or two empty strings when the leg is a single
      road. */
  function FinalLabel(roads: seq<Road>): (tag: (string, string))
    requires |roads| > 0
    ensures tag.0 == "" <==> |roads| == 1 || roads[|roads| - 1].name == ""
    ensures tag.1 == "" <==> |roads| == 1
  {
    if |roads| == 1 then ("", "") else (roads[|roads| - 1].name, FullName(roads[|roads| - 1].dir))
  }

  /** The report of one leg along `roads`, numbered from `first`
      and ending at the location named `dest`: one line per maximal run of
      roads. */
  function SegmentSteps(first: int, roads: seq<Road>, dest: string): (steps: seq<Step>)
    requires |roads| > 0
    ensures |steps| == |Runs(roads)|
  {
    Report(Runs(roads), first, FinalLabel(roads), dest)
  }

  /** A report is the announcement of all runs but the last, followed by
      its last line. */
  lemma {:induction false} ReportSplitsLast(rs: seq<Run>, first: int, final: (string, string), dest: string)
    requires |rs| > 0
    ensures Report(rs, first, final, dest)
         == AnnounceAll(rs[..|rs| - 1], first)
            + [Step(first + |rs| - 1, final.0, final.1, rs[|rs| - 1].miles, Some(dest))]
  {
    if |rs| > 1 {
      ReportSplitsLast(rs[1..], first + 1, final, dest);
      assert rs[1..][..|rs| - 2] == rs[..|rs| - 1][1..];
      assert AnnounceAll(rs[..|rs| - 1], first)
          == [Announce(rs[0], first)] + AnnounceAll(rs[..|rs| - 1][1..], first + 1);
    }
  }

  /** Where a walk along a leg stands when the runs of the roads walked
      so far are `rs`: `steps` announces every run but the current (last)
      one, numbered from `first`; `line` is the number the current run
      will get; and `name`, `direction` and `dist` are the current run's
      road name, direction name and length so far. */
  ghost predicate Walked(rs: seq<Run>, first: int, steps: seq<Step>, line: int,
                         name: string, direction: string, dist: real)
    requires |rs| > 0
  {
    var last := rs[|rs| - 1];
    && steps == AnnounceAll(rs[..|rs| - 1], first)
    && line == first + |rs| - 1
    && name == last.way.name
    && direction == FullName(last.way.dir)
    && dist == last.miles
  }

  /** A road of the current run's way lengthens that run. */
  lemma {:induction false} WalkExtends(rs: seq<Run>, r: Road, first: int, steps: seq<Step>, line: int,
                                       name: string, direction: string, dist: real)
    requires |rs| > 0 && WayOf(r) == rs[|rs| - 1].way
    requires Walked(rs, first, steps, line, name, direction, dist)
    ensures Walked(Append(rs, r), first, steps, line, name, direction, dist + r.length)
  {
    assert Append(rs, r)[..|rs| - 1] == rs[..|rs| - 1];
  }

  /** A road of another way closes the current run with a line of its own
      and starts a new run. */
  lemma {:induction false} WalkBreaks(rs: seq<Run>, r: Road, first: int, steps: seq<Step>, line: int,
                                      name: string, direction: string, dist: real)
    requires |rs| > 0 && WayOf(r) != rs[|rs| - 1].way
    requires Walked(rs, first, steps, line, name, direction, dist)
    ensures Walked(Append(rs, r), first, steps + [Step(line, name, direction, dist, None)], line + 1,
                   r.name, FullName(r.dir), r.length)
  {
    var longer := rs + [Single(r)];
    assert Append(rs, r) == longer;
    assert longer[..|longer| - 1] == rs;
    AnnounceAllSnoc(rs, first);
    assert Announce(rs[|rs| - 1], first + |rs| - 1) == Step(line, name, direction, dist, None);
  }

  /** One more road either lengthens the current run, when its road name
      and direction name are those of the run, or closes the run with a
      line of its own and starts a new run. */
  lemma {:induction false} WalkStep(rs: seq<Run>, r: Road, first: int, steps: seq<Step>, line: int,
                 name: string, direction: string, dist: real)
    requires |rs| > 0
    requires Walked(rs, first, steps, line, name, direction, dist)
    ensures if r.name == name && FullName(r.dir) == direction
            then Walked(Append(rs, r), first, steps, line, name, direction, dist + r.length)
            else Walked(Append(rs, r), first, steps + [Step(line, name, direction, dist, None)], line + 1,
                        r.name, FullName(r.dir), r.length)
  {
    var way := rs[|rs| - 1].way;
    FullNameInjective(r.dir, way.dir);
    if WayOf(r) == way {
      WalkExtends(rs, r, first, steps, line, name, direction, dist);
    } else {
      WalkBreaks(rs, r, first, steps, line, name, direction, dist);
    }
  }

  /** Walking on along one more road r, in terms of the roads walked. */
  lemma {:induction false} WalkOn(walked: seq<Road>, r: Road, first: int, steps: seq<Step>, line: int,
                                  name: string, direction: string, dist: real)
    requires |walked| > 0
    requires Walked(Runs(walked), first, steps, line, name, direction, dist)
    ensures if r.name == name && FullName(r.dir) == direction
            then Walked(Runs(walked + [r]), first, steps, line, name, direction, dist + r.length)
            else Walked(Runs(walked + [r]), first, steps + [Step(line, name, direction, dist, None)], line + 1,
                        r.name, FullName(r.dir), r.length)
    ensures FinalLabel(walked + [r]) == (r.name, FullName(r.dir))
  {
    RunsSnoc(walked, r);
    WalkStep(Runs(walked), r, first, steps, line, name, direction, dist);
  }

  /** At the end of the walk along `roads`, the lines so far and a last line
      for the current run, naming the leg's final road name and direction
      and the destination, make the report of the leg. */
  lemma {:induction false} WalkEnd(roads: seq<Road>, first: int, steps: seq<Step>, line: int,
                name: string, direction: string, dist: real, dest: string)
    requires |roads| > 0
    requires Walked(Runs(roads), first, steps, line, name, direction, dist)
    ensures steps + [Step(line, FinalLabel(roads).0, FinalLabel(roads).1, dist, Some(dest))]
         == SegmentSteps(first, roads, dest)
  {
    ReportSplitsLast(Runs(roads), first, FinalLabel(roads), dest);
  }

  /** What the walk along a leg keeps between roads: the lines written,
      the number of the next line, the current run's road name, direction
      name and length so far, and the road name and direction name of the
      last road taken after the first (empty before there is one). */
  datatype Walker = Walker(steps: seq<Step>, line: int, name: string, direction: string, dist: real,
                           lastName: string, lastDirection: string)

  /** The walk standing on its first road r, numbering from `first`. */
  function Start(r: Road, first: int): Walker {
    Walker([], first, r.name, FullName(r.dir), r.length, "", "")
  }

  /** Taking road r: the same road name and direction name lengthen the
      current run; anything else writes the run out and starts another. */
  function Next(w: Walker, r: Road): Walker {
    if r.name == w.name && FullName(r.dir) == w.direction
    then w.(dist := w.dist + r.length, lastName := r.name, lastDirection := FullName(r.dir))
    else Walker(w.steps + [Step(w.line, w.name, w.direction, w.dist, None)], w.line + 1,
                r.name, FullName(r.dir), r.length, r.name, FullName(r.dir))
  }

  /** The walk starts on the single run of its first road, with no line
      written and no last road recorded. */
  lemma {:induction false} WalkStarts(r: Road, first: int)
    ensures var w := Start(r, first);
            && Walked([Single(r)], first, w.steps, w.line, w.name, w.direction, w.dist)
            && (w.lastName, w.lastDirection) == ("", "")
  {
  }

  /** Taking a road writes at most one line, keeps the lines written, and
      keeps the next line number in step with them; the current length
      grows by the road's length when no line is written and restarts at
      it otherwise. */
  lemma {:induction false} WalkNext(w: Walker, r: Road)
    ensures var n := Next(w, r);
            && w.steps <= n.steps && |n.steps| <= |w.steps| + 1
            && n.line - |n.steps| == w.line - |w.steps|
            && n.dist == (if |n.steps| == |w.steps| then w.dist + r.length else r.length)
            && (n.lastName, n.lastDirection) == (r.name, FullName(r.dir))
  {
  }

  /** The lines of the walk once road k of `roads` is reached in state w,
      ending at `dest`: the roads from k on are taken in turn, then the
      last line is written with the last road's name and direction. */
  function WalkFrom(roads: seq<Road>, k: nat, w: Walker, dest: string): seq<Step>
    requires 0 < k <= |roads|
    decreases |roads| - k
  {
    if k == |roads| then w.steps + [Step(w.line, w.lastName, w.lastDirection, w.dist, Some(dest))]
    else WalkFrom(roads, k + 1, Next(w, roads[k]), dest)
  }

  /** The walk never takes back a line it has written: from road k on it
      adds between one line and one line per remaining road, plus one,
      numbered on from where it stands, and its last line names the
      destination. */
  lemma {:induction false} WalkWrites(roads: seq<Road>, k: nat, w: Walker, dest: string)
    requires 0 < k <= |roads|
    ensures var steps := WalkFrom(roads, k, w, dest);
            && w.steps < steps && |steps| <= |w.steps| + |roads| - k + 1
            && steps[|steps| - 1].to == Some(dest)
            && steps[|steps| - 1].number == w.line + |steps| - |w.steps| - 1
    decreases |roads| - k
  {
    if k < |roads| {
      WalkNext(w, roads[k]);
      WalkWrites(roads, k + 1, Next(w, roads[k]), dest);
    }
  }

  /** Taking road k keeps the walk in agreement with the runs of the
      roads taken, road k now included. */
  lemma {:induction false} WalkAhead(roads: seq<Road>, k: nat, w: Walker, first: int)
    requires 0 < k < |roads|
    requires Walked(Runs(roads[..k]), first, w.steps, w.line, w.name, w.direction, w.dist)
    ensures var next := Next(w, roads[k]);
            && Walked(Runs(roads[..k + 1]), first, next.steps, next.line, next.name, next.direction, next.dist)
            && (next.lastName, next.lastDirection) == FinalLabel(roads[..k + 1])
  {
    assert roads[..k] + [roads[k]] == roads[..k + 1];
    WalkOn(roads[..k], roads[k], first, w.steps, w.line, w.name, w.direction, w.dist);
  }

  /** From any point of the walk that agrees with the runs of the roads
      taken so far, the walk produces the report of the leg. */
  lemma {:induction false} WalkFromReports(roads: seq<Road>, k: nat, w: Walker, first: int, dest: string)
    requires 0 < k <= |roads|
    requires Walked(Runs(roads[..k]), first, w.steps, w.line, w.name, w.direction, w.dist)
    requires (w.lastName, w.lastDirection) == if k == 1 then ("", "") else FinalLabel(roads[..k])
    ensures WalkFrom(roads, k, w, dest) == SegmentSteps(first, roads, dest)
    decreases |roads| - k
  {
    if k == |roads| {
      assert roads[..k] == roads;
      WalkEnd(roads, first, w.steps, w.line, w.name, w.direction, w.dist, dest);
    } else {
      WalkAhead(roads, k, w, first);
      WalkFromReports(roads, k + 1, Next(w, roads[k]), first, dest);
    }
  }

  /** The walk along a whole leg, from its first road, writes exactly the
      report of the leg: one line per maximal run of road name and
      direction, numbered from `first`. */
  lemma {:induction false} WalkReports(roads: seq<Road>, first: int, dest: string)
    requires |roads| > 0
    ensures WalkFrom(roads, 1, Start(roads[0], first), dest) == SegmentSteps(first, roads, dest)
  {
    assert roads[..1] == [roads[0]];
    WalkFromReports(roads, 1, Start(roads[0], first), first, dest);
  }

  /** Total of the miles of a sequence of report lines. */
  function StepMiles(steps: seq<Step>): real {
    if steps == [] then 0.0 else steps[0].miles + StepMiles(steps[1..])
  }

  /** The lines `steps` are numbered consecutively from `first`. */
  ghost predicate Numbered(steps: seq<Step>, first: int) {
    forall i :: 0 <= i < |steps| ==> steps[i].number == first + i
  }

  /** The destinations named by report lines, in order. */
  function Arrivals(steps: seq<Step>): seq<string> {
    if steps == [] then []
    else (if steps[0].to.Some? then [steps[0].to.value] else []) + Arrivals(steps[1..])
  }

  lemma {:induction false} ReportNumbered(rs: seq<Run>, first: int, final: (string, string), dest: string)
    requires |rs| > 0
    ensures Numbered(Report(rs, first, final, dest), first)
  {
    if |rs| > 1 {
      ReportNumbered(rs[1..], first + 1, final, dest);
    }
  }

  lemma {:induction false} ReportMiles(rs: seq<Run>, first: int, final: (string, string), dest: string)
    requires |rs| > 0
    ensures StepMiles(Report(rs, first, final, dest)) == RunMiles(rs)
  {
    if |rs| > 1 {
      ReportMiles(rs[1..], first + 1, final, dest);
      assert Report(rs, first, final, dest)[1..] == Report(rs[1..], first + 1, final, dest);
    }
  }

  lemma {:induction false} ReportArrivals(rs: seq<Run>, first: int, final: (string, string), dest: string)
    requires |rs| > 0
    ensures Arrivals(Report(rs, first, final, dest)) == [dest]
  {
    if |rs| > 1 {
      ReportArrivals(rs[1..], first + 1, final, dest);
      assert Report(rs, first, final, dest)[1..] == Report(rs[1..], first + 1, final, dest);
    }
  }

  /** The lines of a leg are numbered consecutively from `first`, one per
      maximal run of roads, so the next free number is `first` plus the
      number of runs: one more than the number of changes of road or
      direction. */
  lemma {:induction false} SegmentNumbering(first: int, roads: seq<Road>, dest: string)
    requires |roads| > 0
    ensures |SegmentSteps(first, roads, dest)| == |Runs(roads)| == Changes(roads) + 1
    ensures Numbered(SegmentSteps(first, roads, dest), first)
  {
    RunsCount(roads);
    ReportNumbered(Runs(roads), first, FinalLabel(roads), dest);
  }

  /** Every line but the last announces one maximal run: its road name,
      its direction and the sum of the lengths of its roads. The last line
      carries the length of the last run and names the destination; it
      gives the name and direction of the leg's last road, unless the leg
      is a single road, when both are empty. */
  lemma {:induction false} SegmentLines(first: int, roads: seq<Road>, dest: string)
    requires |roads| > 0
    ensures var rs := Runs(roads);
            var steps := SegmentSteps(first, roads, dest);
            && |steps| == |rs|
            && (forall i :: 0 <= i < |rs| - 1 ==>
                  steps[i] == Announce(rs[i], first + i))
            && steps[|rs| - 1].miles == rs[|rs| - 1].miles
            && steps[|rs| - 1].to == Some(dest)
            && (|roads| == 1 ==> steps == [Step(first, "", "", roads[0].length, Some(dest))])
            && (|roads| > 1 ==> steps[|rs| - 1].name == roads[|roads| - 1].name
                                && steps[|rs| - 1].direction == FullName(roads[|roads| - 1].dir))
  {
    var rs := Runs(roads);
    ReportSplitsLast(rs, first, FinalLabel(roads), dest);
  }

  /** A leg's report names exactly one destination: its own. */
  lemma {:induction false} SegmentArrivals(first: int, roads: seq<Road>, dest: string)
    requires |roads| > 0
    ensures Arrivals(SegmentSteps(first, roads, dest)) == [dest]
  {
    ReportArrivals(Runs(roads), first, FinalLabel(roads), dest);
  }

  /** The lines of a leg add up to the length of the leg. */
  lemma {:induction false} SegmentMiles(first: int, roads: seq<Road>, dest: string)
    requires |roads| > 0
    ensures StepMiles(SegmentSteps(first, roads, dest)) == Miles(roads)
  {
    ReportMiles(Runs(roads), first, FinalLabel(roads), dest);
    RunsTotals(roads);
  }

  /** Two miles of the same road north then a mile of another road north
      make two lines: the first merges the two stretches. */
  lemma {:induction false} MergingExample()
    ensures var x3 := Road("X", North, 3.0);
            var x2 := Road("X", North, 2.0);
            var y1 := Road("Y", North, 1.0);
            SegmentSteps(1, [x3, x2, y1], "C")
              == [Step(1, "X", "north", 5.0, None), Step(2, "Y", "north", 1.0, Some("C"))]
  {
    var x3 := Road("X", North, 3.0);
    var x2 := Road("X", North, 2.0);
    var y1 := Road("Y", North, 1.0);
    RunsSplit([x3, x2], [y1]);
    assert [x3, x2] + [y1] == [x3, x2, y1];
    RunsOfUniform([x3, x2]);
  }
}
