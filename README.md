# Trip planner core, modelled in Dafny

This project models the core of the trip planner class `Trip` (`Trip.java`):

- **Building the road network.** A map file is a stream of entries. `L <name> <x> <y>` registers a location. `R <from> <name> <length> <direction> <to>` adds a road and its mirror back in the reverse direction.
- **Planning a trip.** A trip runs through a list of destinations, one leg per consecutive pair. Each leg follows the path a shortest-path search finds between its two ends.
- **Writing the itinerary.** Each leg is written as numbered lines. Consecutive roads with the same road name and the same direction are merged into one line whose length is the sum of theirs. Numbering runs on from leg to leg, and the last line of every leg names the leg's destination.

The model is split into these modules:

- `Roads`: directions, roads and locations.
- `RoadMaps`: the labelled directed graph, as a value.
- `Network`: the name index and the graph, and what one addition does to them.
- `Itinerary`: the reference definition of a leg's report, as maximal runs of road name and direction, with the walk that computes it.
- `TripPlans`: the edge weight given to the search, and the report of a whole trip.
- `MapFormat`: the map file's entries.
- `Trip`: the class `Trip`, whose fields `sites` and `roadMap` are updated in place by `AddLocation`, `AddRoad` and `ReadMap`. `ReportSegment` and `MakeTrip` are loops proved against the `Itinerary` and `TripPlans` specifications.

The source writes lines to the standard output, and `Main.error` stops the program. Here the lines are returned as `Step` values, and an error is returned as `Fail(error)`, which ends the operation.

A leg of a single road is written as the source writes it. The last line of a leg takes its road name and direction from the variables the loop sets for the second and later roads (Trip.java:104-106, 128-129). So for a one-road leg both are empty strings. `Itinerary.FinalLabel` states this and `Itinerary.SegmentLines` proves it.

## Model

| member | source | states |
|---|---|---|
| Trip.Trip.ReportSegment | Trip.java:95-136 | The lines written for a path equal the reference report `SegmentSteps` of the roads along it, ending at the name of the path's last vertex. The returned number is the line after the last one written. |
| Itinerary.SegmentSteps | Trip.java:107-135 | The reference report of a leg: one line per maximal run of road name and direction (every run but the last announced as it is, the last giving the leg's final label and destination). Its contract: there are exactly as many lines as runs. |
| Itinerary.FinalLabel | Trip.java:104-106 | The road name and direction printed on a leg's last line: the direction is empty exactly when the leg is a single road, and the name is empty then too (or when the last road has an empty name). |
| Itinerary.WalkStarts | Trip.java:97-106 | The start of reportSegment's walk (`Start`): on the single run of the first road, nothing written, and empty "second" name and direction. |
| Itinerary.WalkNext | Trip.java:107-126 | One iteration of reportSegment's loop (`Next`): it writes at most one line and never takes back a written line. The next line number stays in step with the lines written. The current length grows by the road's length when nothing is written and restarts at it otherwise. The "second" name and direction become the road's. |
| Itinerary.WalkWrites | Trip.java:107-135 | The rest of the walk from road k (`WalkFrom`) keeps every line written so far. It adds between one line and one per remaining road plus one, numbered on from the current line, and its last line names the destination. |
| Itinerary.WalkAhead | Trip.java:107-126 | Taking the next road keeps the walk in agreement with the runs of the roads taken so far. |
| Itinerary.WalkReports | Trip.java:107-135 | The road-by-road walk of reportSegment (keep the current name, direction and distance; extend on a match, write and restart otherwise; write the last line) produces exactly the report made of maximal runs. |
| Itinerary.SegmentNumbering | Trip.java:118-135 | A leg's lines are numbered consecutively from the first number. There is one line per maximal run, so the returned counter is the first number plus one more than the number of changes of road or direction. |
| Itinerary.SegmentLines | Trip.java:114-133 | Every line but the last announces one maximal run: its name, direction name and summed length. The last line has the last run's length and names the destination. Its road name and direction are the last road's, or empty strings for a one-road leg. |
| Itinerary.SegmentArrivals | Trip.java:128-133 | Exactly one line of a leg names a destination, and it names the leg's own destination. |
| Itinerary.SegmentMiles | Trip.java:114-131 | The lengths on a leg's lines add up to the total length of its roads: merging loses no distance. |
| Itinerary.Runs | Trip.java:107-127 | Grouping a nonempty leg gives between one run and one run per road. The first run has the first road's way and the last run has the last road's. |
| Itinerary.RunsSplit | Trip.java:114-126 | A change of road name or direction between two stretches starts a new line: the runs of the whole are the runs of each part. |
| Itinerary.RunsOfUniform | Trip.java:114-116 | Consecutive roads that share name and direction make one run whose length is the sum of theirs. |
| Itinerary.RunsMaximal | Trip.java:114-126 | Neighbouring runs always differ in road name or direction, so no two written lines could have been merged. |
| Itinerary.RunsTotals | Trip.java:114-126 | The runs cover every road exactly once and their lengths add up to the total length. |
| Itinerary.RunsCount | Trip.java:114-126 | The number of runs is the number of changes of road or direction, plus one. |
| Itinerary.MergingExample | Trip.java:107-135 | Three and two miles of road X north followed by a mile of Y north give two lines, "X north 5" and "Y north 1 to C". |
| TripPlans.UnknownStartNeedsNoRoute | Trip.java:67-71 | A trip whose first name is not registered asks nothing of the search, whatever the names after it: it stops before any leg is searched. |
| Trip.Trip.MakeTrip | Trip.java:57-80 | Fewer than two destinations fail with no lines. Otherwise the origin is dests[0]. With all names registered the lines are the legs' reports, numbered on from 1, arriving at dests[1..] in order. Otherwise the trip stops at the first unknown name, having reported the legs before it. |
| Trip.Trip.ReportLeg | Trip.java:75-78 | One iteration of makeTrip's loop: the leg's lines, numbered from the counter, extend the trip's report by exactly the next leg, and the counter moves past them. |
| TripPlans.TripGrows | Trip.java:66-78 | The report of k + 1 legs (`TripSteps`) is the report of k legs followed by leg k + 1 numbered from the line after them: the counter returned by one leg is fed into the next. |
| TripPlans.TripReport | Trip.java:65-79 | The trip's lines are numbered 1, 2, 3, … across all legs, and the destinations named are dests[1], …, dests[k] in order. |
| TripPlans.ChainReport | Trip.java:65-78 | Legs that each number from where they start and name their own destination chain into lines numbered from 1 that name every destination in order. |
| TripPlans.LegReport | Trip.java:75-78 | One leg's lines (`LegSteps`: the report of the path the search finds for it) are numbered from the counter, and the only destination they name is dests[k]. |
| TripPlans.TripStops | Trip.java:67-74 | Checking the start of each leg before its end stops the trip at the first unknown name of the whole list, having reported the legs before it. |
| TripPlans.TripEnds | Trip.java:66-79 | When the loop completes, every name was registered and the report arrives at dests[1..] in order. |
| TripPlans.FirstUnknown | Trip.java:66-74 | The position of the first destination that is not a registered location: every earlier name is registered. |
| TripPlans.FirstUnknownIs | Trip.java:66-74 | A position holding an unknown name with only known names before it is the first unknown position. |
| Trip.Trip.AddLocation | Trip.java:139-145 | Updates the fields as `Network.WithLocation` says and keeps the planner's invariant. |
| Network.WithLocation | Trip.java:139-145 | A name already registered fails with "multiple entries" and changes nothing. Otherwise the name is bound to the new vertex carrying the location, no other binding or road changes, and the index stays consistent with the graph. |
| Trip.Trip.AddRoad | Trip.java:151-165 | Updates the fields as `Network.WithRoad` says and keeps the planner's invariant. |
| Network.WithRoad | Trip.java:151-165 | An undefined `from` fails naming it; otherwise an undefined `to` fails naming it; on either error nothing changes. Otherwise edge v0→v1 gets (name, dir, length), then edge v1→v0 gets (name, reverse of dir, length), and every road keeps its mirror. |
| Network.RoadAndMirrorAdded | Trip.java:161-164 | Between two distinct locations, both the road and its reverse are edges of the graph afterwards. |
| Network.SelfRoadKeepsMirror | Trip.java:161-164 | A road from a location to itself keeps only the reversed label, because the mirror is added second on the same edge. |
| RoadMaps.AddMirroredPair | Trip.java:161-164 | Adding a road and its reverse keeps every road of the graph mirrored. |
| RoadMaps.RoadMap.AddVertex | Trip.java:143 | Adding a location gives it the next vertex number and leaves the roads alone. |
| RoadMaps.RoadMap.AddEdge | Trip.java:162 | Adding an edge labels it with the road and leaves every other edge and label as it was. |
| RoadMaps.RoadsAlong | Trip.java:100-113 | The roads along a path are the labels of its hops, in order, one per hop. |
| Trip.Trip.constructor | Trip.java:168-170 | A new planner has no locations and no roads, and is consistent. |
| TripPlans.Weight | Trip.java:193-200 | An existing edge weighs its road's length. A missing edge weighs Double.MAX_VALUE. |
| TripPlans.WeightSymmetric | Trip.java:193-200 | Because roads are added with their mirrors, an edge weighs the same both ways. |
| TripPlans.PathWeightIsMiles | Trip.java:193-200 | Along a path of existing roads the search's total weight is the total length of the roads. |
| TripPlans.LegMilesAreWeight | Trip.java:193-200 | The lengths on a leg's written lines add up to the weight the search gives its path. |
| Trip.Trip.ReadMap | Trip.java:25-53 | The planner ends in the state, with the outcome, that `MapFormat.Load` gives for the tokens, and keeps its invariant. |
| MapFormat.ReadEntry | Trip.java:33-51 | Tag L reads a name and two numbers (4 tokens), and tag R reads two names, a number, a direction and a name (6 tokens). Any other tag is "unknown type" with the entry's number. A failed L or R entry reports the error of reading its fields, as `FieldError` gives it. |
| MapFormat.FieldError | Trip.java:46-51 | Reading an entry's fields fails exactly when they do not fit. It is "bad entry #n" exactly when some number field is present but not a number (the fields before it are then all there). Otherwise a failure is "entry incomplete", which only happens when the tokens run out. |
| MapFormat.Apply | Trip.java:33-40 | An entry is registered by its tag: a location entry as addLocation, a road entry as addRoad. Its contract: registering keeps the planner's invariant. |
| MapFormat.ApplyFailsCleanly | Trip.java:33-40 | An entry that cannot be registered changes nothing, and a registered one forgets no name. |
| MapFormat.LoadEntry | Trip.java:31-45 | Loading from the next entry: an unreadable entry stops with its error, and a readable one is registered, after which loading goes on unless that failed. |
| MapFormat.Load | Trip.java:31-45 | Loading the entries in turn keeps the planner's invariant. |
| MapFormat.LoadRendered | Trip.java:31-45 | A map file written out from a list of entries loads as exactly those entries, applied in order up to the first failure. |
| MapFormat.ReadRendered | Trip.java:33-40 | A written-out entry reads back as itself, with the number of tokens it took. |
| MapFormat.UnknownTypeStops | Trip.java:41-43 | An entry with an unknown tag stops loading with "unknown type" and the entry's 1-based number. |
| Roads.FullNameInjective | Trip.java:114-115 | Comparing the printed direction names, as reportSegment does, is the same as comparing directions. |
| Roads.Reverse | Trip.java:163 | The reverse of a direction differs from it. |
| Roads.ReverseInvolutive | Trip.java:163 | Reversing a direction twice gives it back. |
| Roads.Reversed | Trip.java:163 | The road back has the same name and length and the reversed direction. |
| Roads.ReversedInvolutive | Trip.java:163 | The mirror of the mirror of a road is the road itself. |

## Left out

- The shortest-path search (`SimpleShortestPaths`, `TripPlan.setPaths`, `pathTo`) is part of a graph library that is not part of this model. It is a parameter `pathTo` of `MakeTrip`. The trip requires it to return, for every leg the trip reaches (every name up to and including the leg's end is registered), a path of at least one road from the leg's start to its end.
- `TripPlan.estimatedDistance` and `Location.dist`: floating-point Euclidean distance in classes that are not part of this model. They only guide the search.
- Lengths are exact reals. The rounding to one decimal place (`Math.round(x * 10) / 10`) and the printing of lines are left out, so a `Step` holds the unrounded length. The "From <origin>:" header is returned as `origin`.
- File opening and `Scanner`'s reading of numbers are I/O. The file is a sequence of tokens, each carrying the number it denotes if it is one. The "cannot find file" error is left out.
- `Direction.java`, `Road.java` and `Location.java` are not part of this model. Directions are taken to be the eight compass points with lower-case printed names. `Direction.parse` is a total parameter of `ReadMap`, so a bad direction word is not modelled. Road and location names stand for their `toString`.
- `Main.error` is not part of this model. It is taken to end the operation, and is modelled as a returned `Fail` outcome.
- Vertex numbers are taken to be 0, 1, 2, … in the order locations are added. Adding an edge that exists replaces its label.
- Trip.Trip.MakeTrip: a leg from a location to itself (the same name twice in a row) is outside the model. The search then gives a path of one vertex, on which reportSegment fails (Trip.java:98-99), and `SearchRoutesLegs` requires a path of at least one road for each leg the trip reaches.
- Trip.Trip.ReportSegment: the step counter is an unbounded integer, so Java `int` overflow after 2^31 - 1 lines is not modelled.
- TripPlans.Weight: `Double.MAX_VALUE` is its exact real value; no other floating-point behaviour of the search's sums is modelled.
- Trip.Trip.ReportLeg is one iteration of makeTrip's loop, written as its own method so that each leg's proof is checked on its own.
