/** The stream record through which callers of both sides pass input and take output. */
module Streaming {
  import opened Rotations

  /** How things stood at some time: input taken and not yet taken, bytes written, output handed out, and room for more. */
  datatype Mark = Mark(taken: seq<Byte>, next: seq<Byte>, sent: seq<Byte>, out: seq<Byte>, avail: nat)

  /** What caller and library share: input not yet taken, room for output, and the output so far. */
  class BzStream {
    var nextIn: seq<Byte>
    var availOut: nat
    var out: seq<Byte>

    constructor ()
      ensures nextIn == [] && availOut == 0 && out == []
    {
      nextIn, availOut, out := [], 0, [];
    }
  }
}
