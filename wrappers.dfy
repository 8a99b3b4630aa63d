/** An option type, used where the crawler would raise, and
    small helpers on integers and sequences shared by the modules. */
module Wrappers {

  /** `None` stands for a Python exception (IndexError, KeyError, TypeError)
      at the point where the original code would raise it. */
  datatype Option<+T> = None | Some(value: T)

  function Max0(x: int): (r: nat)
    ensures r >= x && (x >= 0 ==> r == x)
  {
    if x > 0 then x else 0
  }

  function Min(a: int, b: int): (r: int)
    ensures r <= a && r <= b && (r == a || r == b)
  {
    if a <= b then a else b
  }

  /** The lists of a list joined end to end, in order. */
  function Flatten<T>(parts: seq<seq<T>>): seq<T>
  {
    if |parts| == 0 then []
    else Flatten(parts[..|parts| - 1]) + parts[|parts| - 1]
  }

  /** Joining one more part appends it. */
  lemma FlattenSnoc<T>(x: seq<seq<T>>, p: seq<T>)
    ensures Flatten(x + [p]) == Flatten(x) + p
  {
    assert (x + [p])[..|x|] == x;
  }

  /** Joining two lists of parts is joining each and concatenating. */
  lemma {:induction false} FlattenConcat<T>(x: seq<seq<T>>, y: seq<seq<T>>)
    ensures Flatten(x + y) == Flatten(x) + Flatten(y)
    decreases |y|
  {
    if |y| == 0 {
      assert x + y == x;
    } else {
      var y' := y[..|y| - 1];
      assert (x + y)[..|x + y| - 1] == x + y';
      FlattenConcat(x, y');
    }
  }
}
