/** Small value wrappers shared by every module of the model. */
module Wrappers {

  /** A value that may be missing: `None` stands for JavaScript's `undefined` and `null`. */
  datatype Option<+T> = None | Some(value: T)

  /** One field of a `Partial<Record>` update object: absent from it, or given a value. */
  datatype Patch<+T> = Keep | Put(value: T)

  /** The field after the spread `{ ...record, ...update }`. */
  function Over<T>(p: Patch<T>, current: T): T
  {
    match p
    case Keep => current
    case Put(v) => v
  }
}
