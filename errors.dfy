/** The ways a run of the comparison stops with an exception. */
module Errors {

  datatype Error =
    /** The input table lacks one of `date`, `city`, `temperature`; `found` is the set of columns it has. */
    | MissingColumns(found: set<string>)
    /** No cleaned record names `city`. */
    | NoData(city: string)
    /** Two cleaned records of `city` share a date, so the daily reindex is refused. */
    | DuplicateDates(city: string)
    /** The series of `city` has no entry on the comparison day `day`. */
    | MissingDay(city: string, day: int)
}
