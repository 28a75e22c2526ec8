/** Shared result types. */
module Prelude {

  datatype Option<+T> = None | Some(value: T)

  /** What an operation hands back: its value, or the refusal the caller sees. */
  datatype Result<+T, +E> = Ok(value: T) | Err(error: E)

  /** The items that satisfy `keep`, in their order. */
  function Filter<T(!new)>(items: seq<T>, keep: T -> bool): (kept: seq<T>)
    ensures forall x :: x in kept <==> x in items && keep(x)
  {
    if items == [] then []
    else
      var init, last := Filter(items[..|items| - 1], keep), items[|items| - 1];
      if keep(last) then init + [last] else init
  }

  newtype Byte = b: int | 0 <= b < 256
}
