// Values that cross the boundary of the persistence layer: the dynamically
// typed arguments a caller may pass to a setter, the errors the entities raise,
// and the result wrappers that stand for Python's exceptions and None.

datatype Option<T> = None | Some(value: T)

/** The outcome of an operation that returns a value or raises. */
datatype Result<T> = Ok(value: T) | Err(error: Error)

/** The outcome of an operation that returns nothing or raises. */
datatype Outcome = Pass | Fail(error: Error)

/** The exceptions the entity classes raise. */
datatype Error =
  | BlankHotelName   // ValueError from the Hotel name setter
  | BlankLocation    // ValueError from the Hotel location setter
  | BlankGuestName   // ValueError from the Guest name setter
  | UnknownHotel     // ValueError from the Guest hotel_id setter
  | KeyError         // `del all[id]` on a key the class cache does not hold
  | Overflow         // OverflowError from `sqlite3` binding an int outside 64 bits

/** An argument as Python sees it: a str, an int, or anything else
    (None, a bool, a float, ...). */
datatype Value = Str(s: string) | Int(i: int) | Other

/** The range of SQLite's INTEGER. `sqlite3` checks it when it binds a Python
    int as a statement parameter, and raises OverflowError outside it. */
predicate FitsInt64(i: int)
{
  -0x8000_0000_0000_0000 <= i < 0x8000_0000_0000_0000
}

/** An int that `sqlite3` can bind. */
type Int64 = i: int | FitsInt64(i)

/** A string that passed a name or location setter. */
type NonBlank = s: string | |s| > 0 witness "-"

/** The test the name and location setters apply: a str of positive length. */
predicate IsText(v: Value)
{
  v.Str? && |v.s| > 0
}
