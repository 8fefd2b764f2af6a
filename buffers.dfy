/** `Vec<T>` passed as `&mut Vec<T>`: a growable list the traversals append to. */
module Buffers {

  class Vec<T> {
    var items: seq<T>

    constructor ()
      ensures items == []
    {
      items := [];
    }

    /** `push` */
    method Push(x: T)
      modifies this
      ensures items == old(items) + [x]
    {
      items := items + [x];
    }
  }
}
