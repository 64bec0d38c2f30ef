/**
 * Values shared by every part of the model: the Python values that flow
 * through the application (request bodies, session entries, configuration
 * dictionaries), the exceptions the modelled code raises, and the two
 * wrappers used for results.
 */
module Common {

  datatype Option<+T> = None | Some(value: T)

  /** The outcome of Python code that either returns a value or raises. */
  datatype Result<+T> = Ok(value: T) | Raise(exc: Exception)

  /** The Python exceptions that the modelled code raises or lets escape. */
  datatype Exception =
    | KeyError            // d[k] on a missing key, also Flask's BadRequestKeyError
    | IndexError          // list index out of range, and DatabaseDriver's bad type
    | TypeError           // subscripting or assigning into a non-dict
    | AttributeError      // calling a method on None or on a non-dict
    | ValueError          // int() on text that is not an integer
    | SyntaxError         // raised by DatabaseDriver for an incomplete data source
    | FileNotFoundError   // raised by DatabaseDriver for a missing SQLite source
    | NotImplementedError // raised by DatabaseDriver for DatabaseType.NONE
    | OperationalError    // sqlite3.connect could not open the file
    | IntegrityError      // an INSERT on a primary key that is already taken
    | ProgrammingError    // a query parameter of a type the database cannot bind

  /** The members of the `DatabaseType` enumeration of database_driver.py. */
  datatype DatabaseType = NONE | SQLITE | MARIADB

  /**
   * A `pathlib.Path`: either built from a string, or another path with a
   * relative part joined onto it (`joinpath`).  Path normalisation is not
   * modelled: two paths are the same file only when they are equal values.
   */
  datatype Path = Path(text: string) | Joined(base: Path, rel: Path)

  newtype byte = x: int | 0 <= x < 256

  /** A Python value, as far as the modelled code distinguishes values. */
  datatype Val =
    | VNone
    | VBool(b: bool)
    | VInt(i: int)
    | VStr(s: string)
    | VPath(p: Path)
    | VType(t: DatabaseType)
    | VDict(d: map<string, Val>)

  /** `d.get(k)`: the value stored under `k`, or None when `k` is absent. */
  function Get(d: map<string, Val>, k: string): Val
  {
    if k in d then d[k] else VNone
  }
}
