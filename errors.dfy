/** The conditions the trip planner reports and stops on. */
module TripErrors {

  datatype Error =
    | DuplicateLocation(name: string)   // "multiple entries for <name>"
    | UndefinedLocation(name: string)   // "location <name> not defined"
    | UnknownEntryType(entry: int)      // "map entry #<entry>: unknown type"
    | BadEntry(entry: int)              // "bad entry #<entry>": a number was expected
    | IncompleteEntry                   // "entry incomplete at end of file"
    | TooFewLocations                   // "must have at least two locations for a trip"
    | NoLocationNamed(name: string)     // "No location named <name>"

  /** Whether an operation completed or stopped on an error. */
  datatype Outcome = Pass | Fail(error: Error)
}
