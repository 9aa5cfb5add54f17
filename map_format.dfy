/** The map file: a stream of whitespace-separated tokens holding entries
    "L <name> <x> <y>" for a location and
    "R <from> <name> <length> <direction> <to>" for a road, numbered from
    1 in the order they appear. Reading a word never fails while tokens
    remain; reading a number fails on a token that is not one. */
module MapFormat {
  import opened Options
  import opened Roads
  import opened TripErrors
  import opened Network

  /** One token of the file: its text, and the value it denotes when it
      is a decimal number. */
  datatype Token = Token(text: string, number: Option<real>)

  /** What an entry expects in each place after its tag. */
  datatype Field = Word | Number

  /** A decoded entry. */
  datatype Entry =
    | LocationEntry(name: string, x: real, y: real)
    | RoadEntry(from: string, road: string, length: real, dir: Direction, to: string)

  /** The result of reading one entry: the entry and how many tokens it
      took, or the error that stops the reading. */
  datatype Reading = Read(entry: Entry, used: nat) | Unreadable(error: Error)

  const LocationFields: seq<Field> := [Word, Number, Number]
  const RoadFields: seq<Field> := [Word, Word, Number, Word, Word]

  /** The tokens from `start` on supply every field of `shape`. */
  ghost predicate Fits(tokens: seq<Token>, start: nat, shape: seq<Field>) {
    && start + |shape| <= |tokens|
    && forall i :: 0 <= i < |shape| && shape[i] == Number ==> tokens[start + i].number.Some?
  }

  /** The error of reading the fields `shape` of entry n from position
      `start`, field by field: running out of tokens leaves the entry
      incomplete, and a token that is not a number where one is expected
      is a bad entry. None when every field reads. */
  function FieldError(tokens: seq<Token>, start: nat, shape: seq<Field>, n: int): (r: Option<Error>)
    requires start <= |tokens|
    ensures r == None <==> Fits(tokens, start, shape)
    ensures r == Some(IncompleteEntry) ==> start + |shape| > |tokens|
    ensures r.Some? ==> r == Some(IncompleteEntry) || r == Some(BadEntry(n))
    ensures r == Some(BadEntry(n)) <==>
              exists i :: 0 <= i < |shape| && start + i < |tokens| && shape[i] == Number && tokens[start + i].number.None?
    decreases |shape|
  {
    if shape == [] then None
    else if start >= |tokens| then Some(IncompleteEntry)
    else if shape[0] == Number && tokens[start].number.None? then Some(BadEntry(n))
    else
      var rest := FieldError(tokens, start + 1, shape[1..], n);
      assert rest == None ==> Fits(tokens, start, shape) by {
        if rest == None {
          forall i | 0 <= i < |shape| && shape[i] == Number
            ensures tokens[start + i].number.Some?
          {
            if i > 0 {
              assert shape[1..][i - 1] == shape[i];
            }
          }
        }
      }
      assert Fits(tokens, start, shape) ==> Fits(tokens, start + 1, shape[1..]) by {
        if Fits(tokens, start, shape) {
          forall i | 0 <= i < |shape[1..]| && shape[1..][i] == Number
            ensures tokens[start + 1 + i].number.Some?
          {
            assert shape[i + 1] == Number;
          }
        }
      }
      rest
  }

  /** Reads entry number n from the front of `tokens`: its tag chooses the
      fields that follow, and `parse` reads a direction. */
  function ReadEntry(tokens: seq<Token>, n: int, parse: string -> Direction): (r: Reading)
    requires |tokens| > 0
    ensures tokens[0].text == "L" ==>
              (r.Read? <==> |tokens| >= 4 && tokens[2].number.Some? && tokens[3].number.Some?)
    ensures tokens[0].text == "L" && r.Read? ==>
              r == Read(LocationEntry(tokens[1].text, tokens[2].number.value, tokens[3].number.value), 4)
    ensures tokens[0].text == "R" ==> (r.Read? <==> |tokens| >= 6 && tokens[3].number.Some?)
    ensures tokens[0].text == "R" && r.Read? ==>
              r == Read(RoadEntry(tokens[1].text, tokens[2].text, tokens[3].number.value,
                                  parse(tokens[4].text), tokens[5].text), 6)
    ensures tokens[0].text == "L" && r.Unreadable? ==> Some(r.error) == FieldError(tokens, 1, LocationFields, n)
    ensures tokens[0].text == "R" && r.Unreadable? ==> Some(r.error) == FieldError(tokens, 1, RoadFields, n)
    ensures tokens[0].text != "L" && tokens[0].text != "R" ==> r == Unreadable(UnknownEntryType(n))
    ensures r.Unreadable? ==> r.error in {UnknownEntryType(n), IncompleteEntry, BadEntry(n)}
    ensures r.Read? ==> 0 < r.used <= |tokens|
  {
    var tag := tokens[0].text;
    if tag == "L" then
      match FieldError(tokens, 1, LocationFields, n)
      case Some(e) => Unreadable(e)
      case None =>
        assert LocationFields[1] == Number && LocationFields[2] == Number;
        Read(LocationEntry(tokens[1].text, tokens[2].number.value, tokens[3].number.value), 4)
    else if tag == "R" then
      match FieldError(tokens, 1, RoadFields, n)
      case Some(e) => Unreadable(e)
      case None =>
        assert RoadFields[2] == Number;
        Read(RoadEntry(tokens[1].text, tokens[2].text, tokens[3].number.value, parse(tokens[4].text), tokens[5].text), 6)
    else Unreadable(UnknownEntryType(n))
  }

  /** Registers what one entry describes. */
  function Apply(net: Network, entry: Entry): (r: (Network, Outcome))
    ensures Valid(net) ==> Valid(r.0)
  {
    match entry
    case LocationEntry(name, x, y) => WithLocation(net, name, x, y)
    case RoadEntry(from, road, length, dir, to) => WithRoad(net, from, road, length, dir, to)
  }

  /** An entry that cannot be registered changes nothing, and one that is
      registered forgets no name. */
  lemma {:induction false} ApplyFailsCleanly(net: Network, entry: Entry)
    ensures var (next, outcome) := Apply(net, entry);
            && (outcome.Fail? ==> next == net)
            && (outcome.Pass? ==> next.sites.Keys >= net.sites.Keys)
  {
  }

  /** Loading the rest of a map file, `n` entries having been read: each
      entry in turn is read and registered, and the first error stops the
      loading, keeping what the entries before it registered. */
  function Load(net: Network, tokens: seq<Token>, n: int, parse: string -> Direction): (r: (Network, Outcome))
    ensures Valid(net) ==> Valid(r.0)
    decreases |tokens|
  {
    if tokens == [] then (net, Pass)
    else
      match ReadEntry(tokens, n + 1, parse)
      case Unreadable(e) => (net, Fail(e))
      case Read(entry, used) =>
        var (next, outcome) := Apply(net, entry);
        if outcome.Fail? then (next, outcome) else Load(next, tokens[used..], n + 1, parse)
  }

  /** Loading from the next entry: an unreadable entry stops with its
      error; a readable one is registered, and unless that fails loading
      goes on after it. */
  lemma {:induction false} LoadEntry(net: Network, tokens: seq<Token>, n: int, parse: string -> Direction,
                                     reading: Reading)
    requires |tokens| > 0 && reading == ReadEntry(tokens, n + 1, parse)
    ensures reading.Unreadable? ==> Load(net, tokens, n, parse) == (net, Fail(reading.error))
    ensures reading.Read? ==>
              var (next, outcome) := Apply(net, reading.entry);
              Load(net, tokens, n, parse)
                == if outcome.Fail? then (next, outcome) else Load(next, tokens[reading.used..], n + 1, parse)
  {
  }

  /** Registers the entries one after another, up to the first failure. */
  function ApplyAll(net: Network, entries: seq<Entry>): (Network, Outcome)
    decreases |entries|
  {
    if entries == [] then (net, Pass)
    else
      var (next, outcome) := Apply(net, entries[0]);
      if outcome.Fail? then (next, outcome) else ApplyAll(next, entries[1..])
  }

  /** The tokens that write an entry out, given how numbers are spelled
      and how directions are written. */
  function Render(entry: Entry, spell: real -> string, show: Direction -> string): (ts: seq<Token>)
    ensures |ts| > 0
  {
    match entry
    case LocationEntry(name, x, y) =>
      [Token("L", None), Token(name, None), Token(spell(x), Some(x)), Token(spell(y), Some(y))]
    case RoadEntry(from, road, length, dir, to) =>
      [Token("R", None), Token(from, None), Token(road, None), Token(spell(length), Some(length)),
       Token(show(dir), None), Token(to, None)]
  }

  function RenderAll(entries: seq<Entry>, spell: real -> string, show: Direction -> string): seq<Token> {
    if entries == [] then [] else Render(entries[0], spell, show) + RenderAll(entries[1..], spell, show)
  }

  /** A written-out entry reads back as itself, whatever follows it, as
      long as `parse` reads back what `show` writes. */
  lemma {:induction false} ReadRendered(entry: Entry, rest: seq<Token>, n: int, spell: real -> string,
                     show: Direction -> string, parse: string -> Direction)
    requires forall d :: parse(show(d)) == d
    ensures var ts := Render(entry, spell, show);
            ReadEntry(ts + rest, n, parse) == Read(entry, |ts|)
  {
    var ts := Render(entry, spell, show) + rest;
    if entry.LocationEntry? {
      assert Fits(ts, 1, LocationFields);
    } else {
      assert Fits(ts, 1, RoadFields);
    }
  }

  /** Loading a file written out from a list of entries registers exactly
      those entries, in order, and numbers them from n + 1. */
  lemma {:induction false} LoadRendered(net: Network, entries: seq<Entry>, n: int, spell: real -> string,
                                        show: Direction -> string, parse: string -> Direction)
    requires forall d :: parse(show(d)) == d
    ensures Load(net, RenderAll(entries, spell, show), n, parse) == ApplyAll(net, entries)
    decreases |entries|
  {
    if entries != [] {
      var ts := Render(entries[0], spell, show);
      var rest := RenderAll(entries[1..], spell, show);
      ReadRendered(entries[0], rest, n + 1, spell, show, parse);
      assert (ts + rest)[|ts|..] == rest;
      var (next, outcome) := Apply(net, entries[0]);
      if outcome.Pass? {
        LoadRendered(next, entries[1..], n + 1, spell, show, parse);
      }
    }
  }

  /** An entry of unknown type stops the loading, naming its number. */
  lemma {:induction false} UnknownTypeStops(net: Network, tokens: seq<Token>, n: int, parse: string -> Direction)
    requires |tokens| > 0 && tokens[0].text != "L" && tokens[0].text != "R"
    ensures Load(net, tokens, n, parse) == (net, Fail(UnknownEntryType(n + 1)))
  {
  }
}
