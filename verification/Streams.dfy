/** What the operators of the word-count job pass on. */
module Streams {

  /** A (word, count) pair: Flink's Tuple2 and Java's Map.Entry alike. */
  datatype Entry = Entry(word: string, count: int)

  /** Flink's Collector: what was handed to it, in order. */
  class Collector<T> {
    var collected: seq<T>

    constructor ()
      ensures collected == []
    {
      collected := [];
    }

    method Collect(x: T)
      modifies this
      ensures collected == old(collected) + [x]
    {
      collected := collected + [x];
    }
  }
}
