/** Optional values, results and the Python exceptions the model raises. */
module Common {

  /** Python's `None` or a value. */
  datatype Option<+T> = None | Some(value: T)

  /** A value or the exception an operation raised instead. */
  datatype Result<+T, +E> = Ok(value: T) | Err(error: E)

  /** The built-in Python exceptions raised by the modelled code. A
      `ValueError` keeps the code it complains about. */
  datatype Error =
    | TypeError
    | KeyError
    | ValueError(code: string)
    | AttributeError
    | AssertionError

  /** Appending to an empty list gives the appended list. */
  lemma AppendToEmpty<T>(s: seq<T>)
    ensures [] + s == s
  {
  }

  /** Moving the head of the rest of a list to the end of the part already
      collected keeps the whole. */
  lemma MoveHead<T>(done: seq<T>, head: T, tail: seq<T>, rest: seq<T>, whole: seq<T>)
    requires done + rest == whole && rest == [head] + tail
    ensures (done + [head]) + tail == whole
  {
    assert (done + [head]) + tail == done + ([head] + tail);
  }

  // Set facts for loops that drain a work set `todo` taken from `all`.

  lemma DrainStart<T>(all: set<T>)
    ensures all - all == {}
  {
  }

  lemma DrainStep<T>(all: set<T>, todo: set<T>, x: T)
    requires todo <= all && x in todo
    ensures all - (todo - {x}) == (all - todo) + {x}
  {
  }

  lemma AddToNothing<T>(x: T)
    ensures {} + {x} == {x}
  {
  }

  lemma DrainEnd<T>(all: set<T>)
    ensures all - {} == all
  {
  }

  // Set facts for a set built as a union of parts.

  lemma UnionParts<T>(whole: set<T>, own: set<T>, part: set<T>)
    requires whole == own + part
    ensures own <= whole && part <= whole
  {
  }

  lemma UnionBelow<T>(a: set<T>, b: set<T>, bound: set<T>)
    requires a <= bound && b <= bound
    ensures a + b <= bound
  {
  }
}
