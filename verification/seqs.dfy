/** Sequence helpers shared by the word splitter and the chunker. */
module Seqs {

  /** Concatenation of a sequence of sequences, in order. */
  function Concat<T>(parts: seq<seq<T>>): seq<T>
  {
    if |parts| == 0 then [] else parts[0] + Concat(parts[1..])
  }

  function Min(a: int, b: int): int
  {
    if a <= b then a else b
  }
}
