/** Types and functions that several modules share. */
module Basics {

  datatype Option<+T> = None | Some(value: T)

  function Min(a: nat, b: nat): nat {
    if b < a then b else a
  }

  /** First in, first out: what was put in is what was taken out and then what is left; `more` is put in,
      `gone` is taken out. */
  lemma {:induction false} FifoNext<T>(put: seq<T>, taken: seq<T>, left: seq<T>,
                                       more: seq<T>, gone: seq<T>, left': seq<T>)
    requires put == taken + left && left + more == gone + left'
    ensures put + more == taken + gone + left'
  {
    assert taken + left + more == taken + (left + more);
  }
}
