/** Shared result types and string search. */
module Prelude {

  datatype Option<+T> = None | Some(value: T)

  datatype Result<+T> = Ok(value: T) | Err

  /** What comes of a write to the database. A write whose acknowledgement is lost takes effect, but
      its caller is told that it failed. */
  datatype Written = Acknowledged | AckLost | Failed

  /** strings.Contains: `part` occurs somewhere in `s`. */
  predicate Contains(s: string, part: string) {
    exists i :: 0 <= i <= |s| - |part| && OccursAt(s, part, i)
  }

  predicate OccursAt(s: string, part: string, i: int)
    requires 0 <= i <= |s| - |part|
  {
    s[i..i + |part|] == part
  }
}
