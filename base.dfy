/** Error values and the two wrappers every store operation returns. */
module Base {

  datatype Option<+T> = None | Some(value: T)

  datatype Result<+T, +E> = Ok(value: T) | Err(error: E)

  /** The sentinel errors of the storage packages (db.go and the db package), plus the one storage
      error the model produces itself: a statement that names a table or column the schema
      does not have. */
  datatype Error =
    | ErrLanguageIndex    // "Language index wrong."
    | ErrCountryID        // "Country ID must be 2 charactor."
    | ErrCountryExisted   // "Country is already existed."
    | ErrUndefinedColumn  // the database rejects the statement: unknown table or column
}
