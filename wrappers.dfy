/** `Option` and `Result`, shared by every module of the model. */
module Wrappers {

  /** A value that may be missing: Ruby's `nil` is `None`. */
  datatype Option<+T> = None | Some(value: T)

  /** The outcome of an operation that may raise. */
  datatype Result<+T, +E> = Ok(value: T) | Err(error: E)
}

/** The Ruby and ActiveRecord exceptions the core can raise. */
module Exceptions {

  datatype Error =
    | ArgumentError(message: string)     // an invalid enum label assigned to `gender`
    | UnknownAttribute(name: string)     // ActiveModel::UnknownAttributeError
    | RecordNotUnique                    // the unique index on customer_id refused a write
    | NoMethodError(message: string)     // a method called on nil
    | TypeError(message: string)         // secure_compare given a nil header
    | TableExists(table: string)         // create_table on a table that is already there
    | RangeError(value: int)             // ActiveModel::RangeError: an integer outside its column's 4 bytes
}
