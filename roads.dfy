/** The values the road network is labelled with: directions, roads
    (edge labels) and locations (vertex labels). */
module Roads {

  /** A compass direction of travel along a road. */
  datatype Direction =
    | North | South | East | West
    | Northeast | Northwest | Southeast | Southwest

  /** The name a direction is printed with in an itinerary. */
  function FullName(d: Direction): (s: string)
    ensures |s| > 0
  {
    match d
    case North => "north"
    case South => "south"
    case East => "east"
    case West => "west"
    case Northeast => "northeast"
    case Northwest => "northwest"
    case Southeast => "southeast"
    case Southwest => "southwest"
  }

  /** The direction of travel along the same road taken the other way. */
  function Reverse(d: Direction): (r: Direction)
    ensures r != d
  {
    match d
    case North => South
    case South => North
    case East => West
    case West => East
    case Northeast => Southwest
    case Southwest => Northeast
    case Northwest => Southeast
    case Southeast => Northwest
  }

  lemma {:induction false} ReverseInvolutive(d: Direction)
    ensures Reverse(Reverse(d)) == d
  {
  }

  /** Two directions are told apart by their printed names. */
  lemma {:induction false} FullNameInjective(d: Direction, e: Direction)
    ensures FullName(d) == FullName(e) <==> d == e
  {
  }

  /** A stretch of road: the label of one directed edge. Its printed form
      is its name. */
  datatype Road = Road(name: string, dir: Direction, length: real)

  /** The same stretch of road travelled the other way. */
  function Reversed(r: Road): (b: Road)
    ensures b.name == r.name && b.length == r.length && b.dir == Reverse(r.dir)
    ensures b != r
  {
    Road(r.name, Reverse(r.dir), r.length)
  }

  lemma {:induction false} ReversedInvolutive(r: Road)
    ensures Reversed(Reversed(r)) == r
  {
    ReverseInvolutive(r.dir);
  }

  /** A named site at planar coordinates: the label of one vertex. Its
      printed form is its name. */
  datatype Location = Location(name: string, x: real, y: real)
}
