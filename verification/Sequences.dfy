/** What the run lemmas of several modules need about sequences. */
module Sequences {

  lemma Unsnoc<T>(a: seq<T>, b: seq<T>)
    requires b != []
    ensures a + b == a + b[..|b| - 1] + [b[|b| - 1]]
  {
  }

  lemma Reassociate<T>(a: seq<T>, b: seq<T>, c: seq<T>)
    ensures a + (b + c) == a + b + c
  {
  }
}
