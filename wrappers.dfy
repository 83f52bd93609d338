/** The optional result the registry returns where the Go code may return nil. */
module Wrappers {
  datatype Option<+T> = None | Some(value: T)

  /** The values of the non-nil entries of `xs`, in order: what a loop that appends every non-nil result builds. */
  function Somes<T(!new)>(xs: seq<Option<T>>): (r: seq<T>)
    ensures |r| <= |xs|
    ensures forall x :: x in r <==> Some(x) in xs
    decreases |xs|
  {
    if xs == [] then []
    else
      var init := xs[..|xs| - 1];
      assert xs == init + [xs[|xs| - 1]];
      Somes(init) + match xs[|xs| - 1] case Some(x) => [x] case None => []
  }
}
