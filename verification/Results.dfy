/** Optional values, and results that carry the services' and the repository's errors. */
module Results {

  datatype Option<+T> = None | Some(value: T)

  datatype Error =
    | NotFound            // no live row with that key
    | InvalidInput        // a mandatory business field is blank
    | InvalidTransition   // the status graph has no such edge
    | Forbidden           // the role may not do this
    | Locked              // the record has left draft
    | SeparationOfDuty    // the actor may not review their own submission
    | VersionConflict     // the conditional update matched no row
    | Duplicate           // a unique index rejected an insert
    | StatementFailed     // the database failed a statement

  datatype Result<+T> = Ok(value: T) | Err(error: Error)
}
