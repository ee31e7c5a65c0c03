/** bz_stream (bzlib.h), without the byte counters. */
module Streams {
  import opened Arith

  /** bz_stream, as the caller sees it; `output` is all that was ever written. */
  class BzStream {
    var nextIn: seq<Byte>
    var availOut: nat
    var output: seq<Byte>

    constructor ()
      ensures nextIn == [] && availOut == 0 && output == []
    {
      nextIn, availOut, output := [], 0, [];
    }
  }
}
