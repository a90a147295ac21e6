/** Sequences as lists without repetition. */
module Sequences {
  ghost predicate NoRepeat<T>(v: seq<T>) {
    forall i, j :: 0 <= i < j < |v| ==> v[i] != v[j]
  }
}
