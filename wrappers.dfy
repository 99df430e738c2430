/** Results of operations that may raise one of the Python exceptions the
    modelled code can raise. */
module Wrappers {

  /** The exception kinds raised by the modelled code. */
  datatype PyError =
    | IndexError         // list index out of range
    | AssertionError     // a failed `assert`
    | TypeError          // arithmetic with `None`
    | ValueError         // `randint` called with an empty range
    | ZeroDivisionError  // `//` by zero

  /** A Python value that may be `None`. */
  datatype Option<+T> = None | Some(value: T)

  datatype Result<+T> = Ok(value: T) | Err(error: PyError)

  /** Python's `lst[idx]`: negative indices count from the end. */
  function PyIndex<E>(lst: seq<E>, idx: int): (r: Result<E>)
    ensures r.Ok? <==> -|lst| <= idx < |lst|
    ensures r.Err? ==> r.error == IndexError
    ensures r.Ok? ==> r.value == lst[idx % |lst|]
  {
    if 0 <= idx < |lst| then Ok(lst[idx])
    else if -|lst| <= idx < 0 then Ok(lst[|lst| + idx])
    else Err(IndexError)
  }
}
