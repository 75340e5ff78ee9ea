/** Regrouping a concatenation, instance by instance. The generator and the runtime extend a
    string or a stream segment by segment, while the functions that specify them group the
    segments per node; these instances let the verifier match the two without searching. */
module Sequences {

  lemma Append2<T>(c: seq<T>, a1: seq<T>, a2: seq<T>)
    ensures c + (a1 + a2) == c + a1 + a2
  {
  }

  lemma Append3<T>(c: seq<T>, a1: seq<T>, a2: seq<T>, a3: seq<T>)
    ensures c + (a1 + a2 + a3) == c + a1 + a2 + a3
  {
  }

  lemma Append4<T>(c: seq<T>, a1: seq<T>, a2: seq<T>, a3: seq<T>, a4: seq<T>)
    ensures c + (a1 + a2 + a3 + a4) == c + a1 + a2 + a3 + a4
  {
  }

  lemma Append6<T>(c: seq<T>, a1: seq<T>, a2: seq<T>, a3: seq<T>, a4: seq<T>, a5: seq<T>, a6: seq<T>)
    ensures c + (a1 + a2 + a3 + a4 + a5 + a6) == c + a1 + a2 + a3 + a4 + a5 + a6
  {
  }
}
