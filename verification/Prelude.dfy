/** Small shared vocabulary. */
module Prelude {

  datatype Option<+T> = None | Some(value: T)

  /** Drop the last element of a non-empty sequence. */
  function Init<T>(s: seq<T>): seq<T>
    requires |s| > 0
  {
    s[..|s| - 1]
  }

  function Last<T>(s: seq<T>): T
    requires |s| > 0
  {
    s[|s| - 1]
  }
}
