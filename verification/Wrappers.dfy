/** Types that several modules share. */
module Wrappers {
  datatype Option<+T> = None | Some(value: T)

  /** String pairs, as in a query or in the data of an announced object. */
  type KVMap = map<string, string>
}
