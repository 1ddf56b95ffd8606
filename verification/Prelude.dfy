/** Small definitions that several modules use. */
module Prelude {
  /** The usual optional value. */
  datatype Option<+T> = None | Some(value: T)

  /** A condition, counted. */
  function One(b: bool): nat {
    if b then 1 else 0
  }

  /** Lower case within ASCII. */
  function LowerChar(c: char): char {
    if 'A' <= c <= 'Z' then (c as int + 32) as char else c
  }
}
