/** A value that may be absent. */
module Options {
  datatype Option<T> = None | Some(value: T)

  function ToSeq<T>(o: Option<T>): (s: seq<T>)
    ensures |s| == if o.Some? then 1 else 0
  {
    if o.Some? then [o.value] else []
  }
}
