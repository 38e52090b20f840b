/** Generic helpers: the optional value used wherever the source has a null, a missing key or
    a failed parse, and a fact about sequences the proofs of appending writers share. */
module Wrappers {
  datatype Option<T> = None | Some(value: T)

  /** The value held, or `default` when there is none. */
  function GetOr<T>(o: Option<T>, default: T): T
  {
    if o.Some? then o.value else default
  }

  /** Appending in two steps is appending once. */
  lemma AppendAssoc<T>(a: seq<T>, b: seq<T>, c: seq<T>)
    ensures (a + b) + c == a + (b + c)
  {
  }
}
