/** Values shared by the cron modules: the keys of an entry's hash and the errors the library raises. */
module CronTypes {

  /** The keys of a hash definition: the six of CronEntry::DEFAULTS, or any other key a caller supplies. */
  datatype Key = Minute | Hour | Day | Month | Weekday | Command | Other(name: string)

  /** The exceptions CronEntry.new can raise. */
  datatype Error =
    /** CronEntry::FormatError "out of range (given for limit)": a range bound outside the field's domain. */
    | FormatError(given: string, limit: int)
    /** ZeroDivisionError: a step of 0 applied to a non-empty range. */
    | ZeroStep
    /** NoMethodError on nil: an empty comma sub-term, which has no range part to split. */
    | EmptyTerm
    /** NoMethodError on nil: the text has no five whitespace-separated fields (and, for the command, whitespace after them). */
    | TooFewFields
    /** RuntimeError "Wrong definition, invalid constructs ...": hash keys outside the six known ones. */
    | InvalidConstructs(keys: set<Key>)

  /** A value that may be absent, as Ruby's nil. */
  datatype Option<T> = None | Some(value: T)

  /** A value, or the exception that aborted computing it. */
  datatype Result<T> = Ok(value: T) | Err(error: Error) {
    predicate IsFailure() {
      Err?
    }

    function PropagateFailure<U>(): Result<U>
      requires Err?
    {
      Err(error)
    }

    function Extract(): T
      requires Ok?
    {
      value
    }
  }
}
