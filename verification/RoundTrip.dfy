/** The two sides together: decompressing what was compressed gives the input back, for every input, every block size
    and every schedule of calls on either side.
 */
module RoundTrip {
  import opened AnyInput
  import opened BitIO
  import opened Bits
  import opened BlockParser
  import opened Expansion
  import opened Header
  import opened InverseBwt
  import opened OutputStage
  import opened Rotations
  import opened Stream
  import opened StreamMachine
  import opened Streaming
  import opened Verified
  import D = Decompressor
  import E = Encoder

  /** Bits of a whole stream, filled up to a byte. */
  ghost predicate IsStream(z: seq<Byte>, blocks: seq<Block>, level: nat) {
    && 1 <= level <= 9 && BlocksFit(blocks, level)
    && exists pad :: pad < 8 && BytesToBits(z) == StreamBits(blocks, level) + Zeros(pad)
  }

  /** Where the machine can be in a stream: on its way to the end.  It has written a prefix of the data and found no
      fault, and where nothing more happens all of the data has been written. */
  lemma OnTheWay(z: seq<Byte>, blocks: seq<Block>, level: nat, k: nat, s: State)
    requires IsStream(z, blocks, level) && Reaches(z, k, s)
    ensures s.m.out <= AllData(blocks, level) && !AtIncomplete(s.m)
    ensures Stuck(s) ==> Finished(s.m, AllData(blocks, level))
  {
    hide Goes, BytesToBits, StreamBits, AllData, StartMachine, BlockFits, OverrunOutput, WellPlaced;
    var pad: nat :| pad < 8 && BytesToBits(z) == StreamBits(blocks, level) + Zeros(pad);
    var n, e := StreamGoes(blocks, level, Zeros(pad));
    assert Reaches(z, n, State(e, Zeros(pad)));
    var j := BeforeEnd(z, k, s, State(e, Zeros(pad)));
    if AtIncomplete(s.m) {
      var out0, done := IncompleteEnds(z, k, s, State(e, Zeros(pad)));
    }
  }

  /** What the compressor writes is in the format. */
  lemma StreamStands(z: seq<Byte>, blocks: seq<Block>, level: nat)
    requires IsStream(z, blocks, level)
    ensures StandsFor(z, AllData(blocks, level))
  {
    hide Goes, BytesToBits, StreamBits, AllData, StartMachine, BlockFits, StandsFor, Stuck;
    var pad: nat :| pad < 8 && BytesToBits(z) == StreamBits(blocks, level) + Zeros(pad);
    var n, m := StreamGoes(blocks, level, Zeros(pad));
    var s := State(m, Zeros(pad));
    var e := EveryInputEnds(z);
    EndStuck(s);
    var j := BeforeEnd(z, n, s, e);
    AcceptedIff(z, e, AllData(blocks, level));
  }

  lemma NoBits()
    ensures BytesToBits([]) == []
  {
  }

  // ----- The objects.

  /** When the compressor reports the end, what it has handed out is a stream of blocks that stand for all it has taken. */
  lemma EndOfStream(es: E.EState)
    requires es.Valid() && es.mode == E.Idle
    ensures es.BlocksOk() && IsStream(es.Sent(), es.blocks, es.level) && es.taken == AllData(es.blocks, es.level)
  {
    hide BytesToBits, StreamBits, AllData, BlockFits;
    assert es.bb.Pending() == [];
    assert es.Sent() == es.prior + es.bw.zbits[..es.bw.numZ];
  }

  /** A decompressor is where the machine gets to when it is given what is still to come as well. */
  lemma OnRun(ds: D.DState, rest: seq<Byte>)
    requires ds.Valid()
    ensures Reaches(ds.consumed + rest, ds.steps, State(ds.m, ds.live + BytesToBits(rest)))
    ensures rest == [] ==> ds.live + BytesToBits(rest) == ds.live
  {
    hide Goes, BytesToBits, StartMachine;
    GoesMore(State(StartMachine(), BytesToBits(ds.consumed)), ds.steps, State(ds.m, ds.live), BytesToBits(rest));
    BytesToBitsConcat(ds.consumed, rest);
    NoBits();
  }

  /** A decompressor that has been fed a prefix of a stream, whoever wrote it: it has written a prefix of the data; it
      reports no error; when it reports the end, it has written all of it; and when it has all of the stream it does not
      wait for more. */
  lemma Follows(z: seq<Byte>, blocks: seq<Block>, level: nat, ds: D.DState, rest: seq<Byte>)
    requires IsStream(z, blocks, level) && ds.Valid() && ds.consumed + rest == z
    ensures ds.m.out <= AllData(blocks, level)
    ensures !ds.CodeMeans(D.DataError) && !ds.CodeMeans(D.DataErrorMagic) && !ds.CodeMeans(D.Unsupported)
    ensures ds.CodeMeans(D.StreamEnd) || ds.CodeMeans(D.SequenceError) ==> ds.m.out == AllData(blocks, level)
    ensures rest == ds.strm.nextIn && ds.CodeMeans(D.CallOk) ==> ds.strm.availOut == 0
  {
    hide Goes, BytesToBits, IsStream, AllData, StartMachine, Unsorted;
    OnRun(ds, rest);
    OnTheWay(z, blocks, level, ds.steps, State(ds.m, ds.live + BytesToBits(rest)));
  }

  /** Has the decompressor, whose last call returned `code`, come as far as it can with its input and `rest`, the input
      still to come?  Either the call reported an end or a fault, or the parser waits and nothing is left to come. */
  ghost predicate AllDone(ds: D.DState, rest: seq<Byte>, code: D.Code)
    requires ds.Valid()
    reads ds, ds.Own(), ds.strm
  {
    && ds.CodeMeans(code)
    && (code == D.CallOk ==> !Stopped(ds.br.rd.ctl) && rest == [] && ds.bsLive < Need(ds.br.rd.ctl))
  }

  /** A decompressor that has come as far as it can stands where the machine ends, or in the incomplete block that the
      machine ends in. */
  lemma WhenDone(ds: D.DState, rest: seq<Byte>, code: D.Code, z: seq<Byte>, e: State)
    requires ds.Valid() && ds.consumed + rest == z && EndsIn(z, e)
    ensures ds.m.out <= e.m.out
    ensures AllDone(ds, rest, code) && !ReachesIncomplete(z) ==> ds.m == e.m
    ensures AllDone(ds, rest, code) && ReachesIncomplete(z) ==>
              code == D.DataError && AtIncomplete(ds.m) && ds.m.x == e.m.x && ds.m.comb == e.m.comb
  {
    hide Goes, BytesToBits, StartMachine, OverrunOutput, WellPlaced, Unsorted, ReachesIncomplete, EndsIn;
    OnRun(ds, rest);
    var s := State(ds.m, ds.live + BytesToBits(rest));
    var j := BeforeEnd(z, ds.steps, s, e);
    IncompleteAtEnd(z, e);
    if AtIncomplete(ds.m) {
      var out0, done := IncompleteEnds(z, ds.steps, s, e);
    }
  }

  /** The decompressor does not depend on how its input and output are cut up, nor on its representation: of two that are
      given the same bytes, well-formed or not, one has written a prefix of what the other has, and when both have come
      as far as they can they stand at the same place with the same combined checksum and the same code, unless one has
      been called again after the end.  They have then also reported the same bytes, unless the input leads to a block
      that ends between the four bytes of a run and its count; `PiecesMatter` and `DecompressTwice` say what is reported then. */
  lemma ChunksDoNotMatter(a: D.DState, b: D.DState, restA: seq<Byte>, restB: seq<Byte>, codeA: D.Code, codeB: D.Code)
    requires a.Valid() && b.Valid() && a.consumed + restA == b.consumed + restB
    ensures a.m.out <= b.m.out || b.m.out <= a.m.out
    ensures AllDone(a, restA, codeA) && AllDone(b, restB, codeB) ==>
              && a.br.rd.ctl == b.br.rd.ctl && a.calculatedCombinedCRC == b.calculatedCombinedCRC
              && (codeA == codeB || codeA == D.SequenceError || codeB == D.SequenceError)
              && (!ReachesIncomplete(a.consumed + restA) ==> a.m == b.m)
  {
    hide Goes, BytesToBits, StartMachine, ReachesIncomplete, EndsIn, Unsorted;
    var z := a.consumed + restA;
    var e := EveryInputEnds(z);
    WhenDone(a, restA, codeA, z, e);
    WhenDone(b, restB, codeB, z, e);
  }

  lemma CodeMeansCode(ds: D.DState, code: D.Code)
    requires ds.Valid() && ds.CodeMeans(code)
    ensures code.CallOk? || code.StreamEnd? || code.SequenceError? || code.DataError? || code.DataErrorMagic? || code.Unsupported?
  {
  }

  /** One call of either interface: how much new input it comes with, and how much room for output. */
  datatype Call = Call(action: E.Action, input: nat, room: nat)

  method GiveInput(strm: BzStream, data: seq<Byte>, given0: nat, n: nat, room: nat) returns (given: nat)
    requires given0 <= |data|
    modifies strm
    ensures given == (if given0 + n <= |data| then given0 + n else |data|)
    ensures strm.nextIn == old(strm.nextIn) + data[given0..given]
    ensures strm.out == old(strm.out) && strm.availOut == room
  {
    given := if given0 + n <= |data| then given0 + n else |data|;
    strm.nextIn := strm.nextIn + data[given0..given];
    strm.availOut := room;
  }

  lemma Conserved(taken: seq<Byte>, next: seq<Byte>, data: seq<Byte>, i: nat, j: nat)
    requires i <= j <= |data| && taken + next == data[..i]
    ensures taken + (next + data[i..j]) == data[..j]
  {
    assert taken + (next + data[i..j]) == taken + next + data[i..j];
  }

  lemma Collected(out: seq<Byte>, sent0: seq<Byte>, out0: seq<Byte>, sent: seq<Byte>)
    requires out0 <= out && sent0 == out0 && sent == sent0 + out[|out0|..]
    ensures sent == out
  {
  }

  /** The compressor between calls: nothing is lost, and what it has handed out is in the stream record. */
  ghost predicate Compressing(es: E.EState, data: seq<Byte>, given: nat)
    reads es, es.strm, es.bb, es.bb.block, es.bb.inUse, es.bw, es.bw.zbits
  {
    && es.Valid() && es.stateOutPos <= es.bw.numZ <= es.bw.zbits.Length && given <= |data|
    && es.taken + es.strm.nextIn == data[..given] && es.Sent() == es.strm.out
  }

  /** The compressor is in the middle of `action`, and the caller has not tampered with the input. */
  ghost predicate Midway(es: E.EState, action: E.Action)
    reads es, es.strm, es.bw
  {
    || (action == E.FLUSH && es.mode == E.Flushing && es.availInExpect == |es.strm.nextIn|)
    || (action == E.FINISH && es.mode == E.Finishing && es.availInExpect == |es.strm.nextIn| && !es.AllSent())
  }

  /** The compressor has completed `action`. */
  ghost predicate Done(es: E.EState, action: E.Action)
    reads es, es.strm
  {
    if action == E.FINISH then es.mode == E.Idle && es.strm.nextIn == [] else es.mode == E.Running
  }

  method CompressCall(es: E.EState, data: seq<Byte>, given0: nat, call: Call) returns (given: nat, code: E.Code)
    requires Compressing(es, data, given0)
    modifies es.Repr()
    ensures Compressing(es, data, given) && given == (if given0 + call.input <= |data| then given0 + call.input else |data|)
    ensures es.strm.availOut + |es.strm.out| == call.room + |old(es.strm.out)|
    ensures old(es.mode) == E.Running && call.action == E.RUN ==> es.mode == E.Running
    ensures call.action != E.RUN && call.room > 0 && old(es.mode == E.Running || (Midway(es, call.action) && call.input == 0)) ==>
              if code == E.FlushOk || code == E.FinishOk then Midway(es, call.action) && es.strm.availOut == 0
              else Done(es, call.action)
  {
    hide E.EState.Valid;
    Conserved(es.taken, es.strm.nextIn, data, given0, if given0 + call.input <= |data| then given0 + call.input else |data|);
    given := GiveInput(es.strm, data, given0, call.input, call.room);
    ghost var sent0, out0 := es.Sent(), es.strm.out;
    code := es.BzCompress(call.action);
    Collected(es.strm.out, sent0, out0, es.Sent());
  }

  /** Any sequence of calls of the compressor. */
  method CompressCalls(data: seq<Byte>, level: nat, workFactor: nat, calls: seq<Call>) returns (es: E.EState, given: nat)
    requires 1 <= level <= 9
    ensures Compressing(es, data, given) && fresh(es.Repr())
  {
    hide Compressing, BlocksFit, AllData, StreamBits, BytesToBits;
    es, given := StartCompressing(data, level, workFactor);
    var i := 0;
    while i < |calls|
      invariant 0 <= i <= |calls| && fresh(es.Repr()) && Compressing(es, data, given)
    {
      var code;
      given, code := CompressCall(es, data, given, calls[i]);
      i := i + 1;
    }
  }

  method StartCompressing(data: seq<Byte>, level: nat, workFactor: nat) returns (es: E.EState, given: nat)
    requires 1 <= level <= 9
    ensures Compressing(es, data, given) && fresh(es.Repr()) && given == 0 && es.level == level
    ensures es.taken == [] && es.strm.nextIn == [] && es.strm.out == [] && es.mode == E.Running
  {
    hide E.EState.Valid, E.EState.IsNew, E.EState.Sent;
    var strm := new BzStream();
    es := new E.EState(level, workFactor, strm);
    es.Initially();
    given := 0;
  }

  // ----- The usual loops.

  /** Calls for `call.action`, FLUSH or FINISH, until it is complete; every call but the first comes with room only.  The
      loop ends because the output is bounded. */
  method CompressUntilDone(es: E.EState, data: seq<Byte>, given0: nat, call: Call) returns (given: nat)
    requires Compressing(es, data, given0) && es.mode == E.Running && call.action != E.RUN && call.room > 0
    modifies es.Repr()
    ensures Compressing(es, data, given) && given == (if given0 + call.input <= |data| then given0 + call.input else |data|)
    ensures Done(es, call.action)
  {
    hide Compressing;
    var code;
    given, code := CompressCall(es, data, given0, call);
    while code == E.FlushOk || code == E.FinishOk
      invariant Compressing(es, data, given) && given == (if given0 + call.input <= |data| then given0 + call.input else |data|)
      invariant if code == E.FlushOk || code == E.FinishOk then Midway(es, call.action) else Done(es, call.action)
      decreases code == E.FlushOk || code == E.FinishOk, MostBits(|data|) - 8 * |es.strm.out|
    {
      OutputBounded(es, data, given);
      given, code := CompressCall(es, data, given, call.(input := 0));
      OutputBounded(es, data, given);
    }
  }

  lemma OutputBounded(es: E.EState, data: seq<Byte>, given: nat)
    requires Compressing(es, data, given)
    ensures 8 * |es.strm.out| <= MostBits(|data|)
  {
    hide E.EState.Valid, MostBits;
    es.SentBound();
    assert |es.taken| <= |data|;
    MostBitsMono(|es.taken|, |data|);
  }

  /** What an application does before it finishes: calls with RUN as it likes, and flushes each of which it completes. */
  ghost predicate Orderly(calls: seq<Call>) {
    forall i :: 0 <= i < |calls| ==> calls[i].action != E.FINISH && (calls[i].action == E.FLUSH ==> calls[i].room > 0)
  }

  /** Compressing comes to an end, whatever the calls and however little room each of them has, with a stream that stands
      for exactly the input and is not longer than its bound. */
  method Compress(data: seq<Byte>, level: nat, workFactor: nat, calls: seq<Call>, room: nat) returns (z: seq<Byte>,
                  ghost blocks: seq<Block>)
    requires 1 <= level <= 9 && Orderly(calls) && room > 0
    ensures IsStream(z, blocks, level) && AllData(blocks, level) == data && 8 * |z| <= MostBits(|data|)
    ensures StandsFor(z, data)
  {
    hide Compressing, IsStream, BlocksFit, AllData, MostBits, StandsFor;
    var es, given := StartCompressing(data, level, workFactor);
    var i := 0;
    while i < |calls|
      invariant 0 <= i <= |calls| && fresh(es.Repr()) && Compressing(es, data, given) && es.level == level && es.mode == E.Running
    {
      if calls[i].action == E.FLUSH {
        given := CompressUntilDone(es, data, given, calls[i]);
      } else {
        var code;
        given, code := CompressCall(es, data, given, calls[i]);
      }
      i := i + 1;
    }
    given := CompressUntilDone(es, data, given, Call(E.FINISH, |data|, room));
    OutputBounded(es, data, given);
    z := es.strm.out;
    blocks := es.blocks;
    AtTheEnd(es, data, given);
    StreamStands(z, blocks, level);
  }

  lemma AtTheEnd(es: E.EState, data: seq<Byte>, given: nat)
    requires Compressing(es, data, given) && es.mode == E.Idle && es.strm.nextIn == [] && given == |data|
    ensures es.BlocksOk() && IsStream(es.strm.out, es.blocks, es.level) && AllData(es.blocks, es.level) == data
  {
    hide E.EState.Valid, IsStream, AllData;
    EndOfStream(es);
    assert data[..given] == data && es.taken + [] == es.taken;
  }

  /** All input in one call: the compressor comes to the end of its stream, or else uses up all the room it was given;
      it never gives up.  What it has written at the end is a stream that stands for the input. */
  method CompressAtOnce(data: seq<Byte>, level: nat, workFactor: nat, room: nat) returns (ended: bool, z: seq<Byte>,
                        ghost blocks: seq<Block>)
    requires 1 <= level <= 9 && room > 0
    ensures ended || |z| == room
    ensures 8 * room > MostBits(|data|) ==> ended
    ensures ended ==> IsStream(z, blocks, level) && AllData(blocks, level) == data
  {
    hide E.EState.Valid, BytesToBits, StreamBits, AllData, BlockFits;
    var es, in0 := StartCompressing(data, level, workFactor);
    var given := GiveInput(es.strm, data, in0, |data|, room);
    assert es.strm.nextIn == data && es.taken + es.strm.nextIn == data;
    ghost var sent0, out0 := es.Sent(), es.strm.out;
    var code := es.BzCompress(E.FINISH);
    Collected(es.strm.out, sent0, out0, es.Sent());
    z := es.strm.out;
    ended := code == E.StreamEnd;
    OutputBounded(es, data, given);
    blocks := es.blocks;
    if ended {
      EndOfStream(es);
    }
  }

  /** The decompressor between calls. */
  ghost predicate Decompressing(ds: D.DState, z: seq<Byte>, given: nat)
    reads ds, ds.Own(), ds.strm
  {
    ds.Valid() && given <= |z| && ds.consumed + ds.strm.nextIn == z[..given] && ds.m.out == ds.strm.out
  }

  method DecompressCall(ds: D.DState, z: seq<Byte>, given0: nat, call: Call) returns (given: nat, code: D.Code)
    requires Decompressing(ds, z, given0)
    modifies ds.Repr()
    ensures Decompressing(ds, z, given) && ds.CodeMeans(code) && ds.Leaves(code, old(ds.m))
    ensures given == (if given0 + call.input <= |z| then given0 + call.input else |z|)
    ensures ds.strm.availOut + |ds.strm.out| == call.room + |old(ds.strm.out)| && old(ds.strm.out) <= ds.strm.out
    ensures code == D.SequenceError <==> old(ds.br.rd.ctl.End?)
  {
    hide D.DState.Valid, D.DState.CodeMeans, D.DState.Leaves;
    Conserved(ds.consumed, ds.strm.nextIn, z, given0, if given0 + call.input <= |z| then given0 + call.input else |z|);
    given := GiveInput(ds.strm, z, given0, call.input, call.room);
    ghost var sent0, out0 := ds.m.out, ds.strm.out;
    code := ds.BzDecompress();
    Collected(ds.strm.out, sent0, out0, ds.m.out);
  }

  method StartDecompressing(z: seq<Byte>, small: bool) returns (ds: D.DState, given: nat)
    ensures Decompressing(ds, z, given) && fresh(ds.Repr())
    ensures given == 0 && ds.strm.out == [] && !ds.br.rd.ctl.End? && ds.m == StartMachine() && ds.br.col.small == small
  {
    hide Goes, BytesToBits, MachineOk, ToBits, D.DState.Valid;
    var strm := new BzStream();
    ds := new D.DState(strm, small);
    ds.Initially();
    given := 0;
  }

  /** Any sequence of calls of the decompressor; the code is that of the last one. */
  method DecompressCalls(z: seq<Byte>, small: bool, calls: seq<Call>) returns (ds: D.DState, given: nat, code: D.Code)
    requires |calls| > 0
    ensures Decompressing(ds, z, given) && ds.CodeMeans(code) && fresh(ds.Repr())
    ensures |calls| == 1 ==> code != D.SequenceError
  {
    hide D.DState.Valid, D.DState.CodeMeans;
    ds, given := StartDecompressing(z, small);
    given, code := DecompressCall(ds, z, given, calls[0]);
    var i := 1;
    while i < |calls|
      invariant 1 <= i <= |calls| && fresh(ds.Repr()) && Decompressing(ds, z, given)
      invariant ds.CodeMeans(code) && (i == 1 ==> code != D.SequenceError)
    {
      given, code := DecompressCall(ds, z, given, calls[i]);
      i := i + 1;
    }
  }

  /** A decompressor that is on its way through a stream. */
  lemma FollowsCode(z: seq<Byte>, blocks: seq<Block>, level: nat, ds: D.DState, given: nat, code: D.Code)
    requires IsStream(z, blocks, level) && Decompressing(ds, z, given) && ds.CodeMeans(code)
    ensures ds.strm.out <= AllData(blocks, level)
    ensures code != D.CallOk ==> ds.strm.out == AllData(blocks, level) && (code == D.StreamEnd || code == D.SequenceError)
    ensures code == D.CallOk && given == |z| ==> ds.strm.availOut == 0
  {
    hide IsStream, D.DState.Valid, D.DState.CodeMeans, AllData, AtIncomplete;
    CodeMeansCode(ds, code);
    assert ds.consumed + (ds.strm.nextIn + z[given..]) == z;
    assert given == |z| ==> ds.strm.nextIn + z[given..] == ds.strm.nextIn;
    Follows(z, blocks, level, ds, ds.strm.nextIn + z[given..]);
  }

  lemma TakenSoFar(es: E.EState, data: seq<Byte>, given: nat)
    requires Compressing(es, data, given)
    ensures |es.strm.nextIn| <= given <= |data| && es.taken == data[..given - |es.strm.nextIn|]
    ensures es.mode == E.Idle ==>
              es.BlocksOk() && IsStream(es.strm.out, es.blocks, es.level) && AllData(es.blocks, es.level) == es.taken
  {
    hide E.EState.Valid, IsStream, AllData;
    assert es.taken == data[..given][..given - |es.strm.nextIn|];
    if es.mode == E.Idle {
      EndOfStream(es);
    }
  }

  /** The round trip: for every input, block size, representation and pair of schedules.  If the compressor's calls
      bring it to the end of its stream, then what the decompressor has written after any calls on that stream is a
      prefix of the compressed input; it never reports an error; at the end it is the whole input; and with the whole
      stream given it only stops short for lack of room. */
  method CompressAndDecompress(data: seq<Byte>, level: nat, workFactor: nat, small: bool, calls: seq<Call>, calls': seq<Call>)
    returns (ended: bool, taken: seq<Byte>, result: seq<Byte>, code: D.Code, given: nat, z: seq<Byte>, room: nat)
    requires 1 <= level <= 9 && |calls'| > 0
    ensures taken <= data
    ensures ended ==> result <= taken && (code == D.CallOk || code == D.StreamEnd || code == D.SequenceError)
    ensures ended && (code == D.StreamEnd || code == D.SequenceError) ==> result == taken
    ensures ended && code == D.CallOk && given == |z| ==> room == 0
  {
    hide Compressing, Decompressing, D.DState.CodeMeans, AllData, IsStream, BlocksFit;
    var es, in0 := CompressCalls(data, level, workFactor, calls);
    ended := es.mode == E.Idle;
    TakenSoFar(es, data, in0);
    taken := data[..in0 - |es.strm.nextIn|];
    z := es.strm.out;
    ghost var blocks, l := es.blocks, es.level;
    var ds;
    ds, given, code := DecompressCalls(z, small, calls');
    result, room := ds.strm.out, ds.strm.availOut;
    if ended {
      FollowsCode(z, blocks, l, ds, given, code);
    }
  }

  /** Decompressing a stream comes to an end with exactly its data: after any calls at all, the rest of the stream is
      given, and calls with some room are made until the code is not BZ_OK. */
  method Decompress(z: seq<Byte>, small: bool, calls: seq<Call>, room: nat, ghost blocks: seq<Block>, ghost level: nat)
    returns (result: seq<Byte>)
    requires IsStream(z, blocks, level) && room > 0
    ensures result == AllData(blocks, level)
  {
    hide D.DState.Valid, D.DState.CodeMeans, AllData;
    ghost var data := AllData(blocks, level);
    var ds, given, code := DecompressCalls(z, small, calls + [Call(E.RUN, |z|, room)]);
    FollowsCode(z, blocks, level, ds, given, code);
    while code == D.CallOk
      invariant fresh(ds.Repr()) && Decompressing(ds, z, given) && ds.CodeMeans(code)
      invariant |ds.strm.out| <= |data| && (code != D.CallOk ==> ds.strm.out == data)
      decreases code == D.CallOk, |z| - given, |data| - |ds.strm.out|
    {
      given, code := DecompressCall(ds, z, given, Call(E.RUN, |z|, room));
      FollowsCode(z, blocks, level, ds, given, code);
    }
    result := ds.strm.out;
  }

  /** All of a stream in one call with more room than its data take: the call reports the end. */
  method DecompressAtOnce(z: seq<Byte>, small: bool, room: nat, ghost blocks: seq<Block>,
                          ghost level: nat) returns (result: seq<Byte>, code: D.Code)
    requires IsStream(z, blocks, level) && room > |AllData(blocks, level)|
    ensures code == D.StreamEnd && result == AllData(blocks, level)
  {
    hide D.DState.Valid, D.DState.CodeMeans, AllData;
    var ds, given := StartDecompressing(z, small);
    given, code := DecompressCall(ds, z, given, Call(E.RUN, |z|, room));
    FollowsCode(z, blocks, level, ds, given, code);
    result := ds.strm.out;
  }

  /** The round trip as a whole, unconditionally: whatever the input, the block size, the work factor and the decoder's
      representation, however both sides' calls cut up their input, flush, and leave room, both loops end, and what
      comes out is what went in. */
  method CompressThenDecompress(data: seq<Byte>, level: nat, workFactor: nat, small: bool,
                                calls: seq<Call>, room: nat, calls': seq<Call>, room': nat)
    returns (z: seq<Byte>, result: seq<Byte>)
    requires 1 <= level <= 9 && Orderly(calls) && room > 0 && room' > 0
    ensures result == data && StandsFor(z, data) && 8 * |z| <= MostBits(|data|)
  {
    hide IsStream, BlocksFit, AllData, Orderly, MostBits, StandsFor;
    ghost var blocks;
    z, blocks := Compress(data, level, workFactor, calls, room);
    result := Decompress(z, small, calls', room', blocks, level);
  }

  // ----- Any input.

  /** A call that had all the input and did not run out of room. */
  lemma RoomLeft(ds: D.DState, z: seq<Byte>, given: nat, code: D.Code, e: State)
    requires Decompressing(ds, z, given) && given == |z| && ds.CodeMeans(code) && EndsIn(z, e)
    ensures Reaches(z, ds.steps, State(ds.m, ds.live + BytesToBits(ds.strm.nextIn))) && ds.m.out <= e.m.out
    ensures code != D.CallOk || ds.strm.availOut > 0 ==>
              if ReachesIncomplete(z) then code == D.DataError && AtIncomplete(ds.m) else ds.m == e.m
    ensures code == D.CallOk && ReachesIncomplete(z) ==> ds.strm.availOut == 0
  {
    hide Goes, BytesToBits, StartMachine, ReachesIncomplete, EndsIn, Unsorted, Reaches;
    assert z[..given] == z;
    OnRun(ds, ds.strm.nextIn);
    WhenDone(ds, ds.strm.nextIn, code, z, e);
    if code == D.CallOk && ds.strm.availOut > 0 {
      assert AllDone(ds, [], code);
    }
  }

  /** How the first call leaves the fast decoder. */
  ghost predicate AfterFirst(s: State, avail: nat, code: D.Code)
    requires MachineOk(s.m)
  {
    if code == D.CallOk then avail == 0 && !Overrun(s.m) else AtBlockStart(s.m) && OverrunsWithin(s.m, avail)
  }

  lemma FirstCall(ds: D.DState, z: seq<Byte>, given: nat, code: D.Code, s: State)
    requires Decompressing(ds, z, given) && ds.Leaves(code, StartMachine()) && s.m == ds.m && !ds.br.col.small
    requires if code == D.CallOk then ds.strm.availOut == 0 else code == D.DataError && AtIncomplete(ds.m)
    ensures MachineOk(s.m) && AfterFirst(s, ds.strm.availOut, code)
  {
    hide Goes, BytesToBits, AtBlockStart, OverrunsWithin, Unsorted;
  }

  lemma SecondCall(z: seq<Byte>, e: State, ds: D.DState, given: nat, code1: D.Code, k1: nat, s1: State, avail1: nat, room1: nat)
    requires Decompressing(ds, z, given) && ds.Leaves(D.DataError, s1.m)
    requires EndsIn(z, e) && Reaches(z, ds.steps, State(ds.m, ds.live + BytesToBits(ds.strm.nextIn))) && AtIncomplete(ds.m)
    requires Reaches(z, k1, s1) && (!ds.br.col.small ==> AfterFirst(s1, avail1, code1))
    requires |s1.m.out| + avail1 == room1 && s1.m.out <= ds.m.out
    ensures ds.strm.out == Reported(e.m, ds.br.col.small, room1)
  {
    hide Goes, BytesToBits, AtBlockStart, OverrunsWithin, Unsorted, EndsIn, D.DState.Valid, StartMachine;
    var s2 := State(ds.m, ds.live + BytesToBits(ds.strm.nextIn));
    assert ds.br.rd.ctl.Output? by {
      InOutput(ds);
    }
    if ds.br.col.small {
      var out0, done := IncompleteEnds(z, ds.steps, s2, e);
    } else {
      FastReports(z, e, k1, s1, avail1, room1, ds.steps, s2);
    }
  }

  lemma InOutput(ds: D.DState)
    requires ds.Valid()
    ensures MachineOk(ds.m) && (ds.br.rd.ctl.Output? <==> ds.m.x.ctl.Output?)
  {
    hide Goes, BytesToBits;
  }

  /** Any input at all, in two calls: the first with all of it and with room for `room1` bytes, the second with room for
      everything.  What is reported is all that the machine writes, except that of a block that ends between the four
      bytes of a run and its count the fast representation drops what the last call wrote; see `PiecesMatter`. */
  method DecompressTwice(z: seq<Byte>, small: bool, room1: nat, room: nat, ghost e: State)
    returns (result: seq<Byte>, code: D.Code)
    requires EndsIn(z, e) && room > |e.m.out|
    ensures result == Reported(e.m, small, room1)
    ensures ReachesIncomplete(z) ==> code == D.DataError
  {
    hide D.DState.Valid, D.DState.CodeMeans, D.DState.Leaves, EndsIn, ReachesIncomplete, Reaches, AtIncomplete, Overrun,
         MachineOk;
    var ds, given := StartDecompressing(z, small);
    given, code := DecompressCall(ds, z, given, Call(E.RUN, |z|, room1));
    RoomLeft(ds, z, given, code, e);
    ghost var k1, s1 := ds.steps, State(ds.m, ds.live + BytesToBits(ds.strm.nextIn));
    ghost var code1, avail1 := code, ds.strm.availOut;
    if ReachesIncomplete(z) && !small {
      FirstCall(ds, z, given, code, s1);
    }
    given, code := DecompressCall(ds, z, given, Call(E.RUN, |z|, room));
    RoomLeft(ds, z, given, code, e);
    result := ds.strm.out;
    IncompleteAtEnd(z, e);
    if ReachesIncomplete(z) {
      SecondCall(z, e, ds, given, code1, k1, s1, avail1, room1);
    }
  }

  /** What the code of a decompressor says of the machine. */
  lemma CodeOfMachine(ds: D.DState, code: D.Code)
    requires ds.Valid() && ds.CodeMeans(code)
    ensures var ctl := ds.m.x.ctl;
            && (code == D.StreamEnd ==> ctl.End? && ctl.stored == ds.m.comb)
            && (ctl.End? && ctl.stored == ds.m.comb ==> code == D.StreamEnd || code == D.SequenceError)
            && (ctl.End? && ctl.stored != ds.m.comb ==> code == D.DataError || code == D.SequenceError)
            && (ctl == Failed(BadData) ==> code == D.DataError) && (ctl == Failed(BadMagic) <==> code == D.DataErrorMagic)
            && (ctl.Randomised? <==> code == D.Unsupported)
            && (code == D.DataError ==> ctl == Failed(BadData) || AtIncomplete(ds.m) || (ctl.End? && ctl.stored != ds.m.comb))
            && (code == D.CallOk ==> ctl.Output? || !Stopped(ctl))
  {
    hide Goes, BytesToBits, Unsorted;
  }

  lemma NoMoreThanEnd(ds: D.DState, z: seq<Byte>, given: nat, e: State)
    requires Decompressing(ds, z, given) && EndsIn(z, e)
    ensures ds.strm.out <= e.m.out
  {
    hide D.DState.Valid, EndsIn, ReachesIncomplete, AllDone;
    assert ds.consumed + (ds.strm.nextIn + z[given..]) == z;
    WhenDone(ds, ds.strm.nextIn + z[given..], D.CallOk, z, e);
  }

  /** A call that reported an end or a fault, or that had all the input and room to spare. */
  lemma StopsAtEnd(ds: D.DState, z: seq<Byte>, given: nat, code: D.Code, e: State, rest: seq<Byte>)
    requires Decompressing(ds, z, given) && ds.CodeMeans(code) && EndsIn(z, e) && rest == ds.strm.nextIn + z[given..]
    requires code == D.CallOk ==> given == |z| && ds.strm.availOut > 0
    ensures Reaches(z, ds.steps, State(ds.m, ds.live + BytesToBits(rest))) && ds.m.out <= e.m.out
    ensures if ReachesIncomplete(z) then code == D.DataError && AtIncomplete(ds.m) else ds.m == e.m
  {
    hide Goes, BytesToBits, StartMachine, ReachesIncomplete, EndsIn, Unsorted, Reaches;
    assert ds.consumed + rest == z;
    assert given == |z| ==> rest == ds.strm.nextIn;
    OnRun(ds, rest);
    assert AllDone(ds, rest, code);
    WhenDone(ds, rest, code, z, e);
  }

  lemma NotEndedYet(ds: D.DState)
    requires ds.Valid() && ds.CodeMeans(D.CallOk)
    ensures !ds.br.rd.ctl.End?
  {
    hide Goes, BytesToBits, Unsorted;
  }

  lemma FoundIncomplete(z: seq<Byte>, k: nat, s: State)
    requires Reaches(z, k, s) && AtIncomplete(s.m)
    ensures ReachesIncomplete(z)
  {
  }

  /** What the last code says of the input. */
  lemma Verdict(ds: D.DState, z: seq<Byte>, given: nat, code: D.Code, e: State)
    requires Decompressing(ds, z, given) && ds.CodeMeans(code) && EndsIn(z, e)
    requires code == D.CallOk ==> given == |z| && ds.strm.availOut > 0
    ensures code == D.StreamEnd ==> StandsFor(z, ds.strm.out)
    ensures forall data :: StandsFor(z, data) ==> ds.strm.out == data && (code == D.StreamEnd || code == D.SequenceError)
    ensures ds.strm.out <= e.m.out && (!ReachesIncomplete(z) ==> ds.strm.out == e.m.out)
    ensures Refused(z) || ReachesDamaged(z) || ReachesIncomplete(z) ==> code == D.DataError
    ensures code == D.DataError ==> Refused(z) || ReachesIncomplete(z) || (e.m.x.ctl.End? && e.m.x.ctl.stored != e.m.comb)
    ensures e.m.x.ctl.End? && e.m.x.ctl.stored != e.m.comb ==> code == D.DataError || code == D.SequenceError
    ensures WrongHeader(z) <==> code == D.DataErrorMagic
    ensures e.m.x.ctl.Randomised? <==> code == D.Unsupported
  {
    hide D.DState.Valid, D.DState.CodeMeans, EndsIn, ReachesIncomplete, ReachesDamaged, Goes, StartMachine, AtIncomplete, MachineOk, StandsFor,
         Refused, WrongHeader, BytesToBits;
    var rest := ds.strm.nextIn + z[given..];
    StopsAtEnd(ds, z, given, code, e, rest);
    CodeOfMachine(ds, code);
    IncompleteAtEnd(z, e);
    if ReachesDamaged(z) {
      DamagedEnds(z, e);
    }
    if AtIncomplete(ds.m) {
      FoundIncomplete(z, ds.steps, State(ds.m, ds.live + BytesToBits(rest)));
    }
    RefusedIff(z, e);
    HeaderEnds(z, e);
    AcceptedIff(z, e, e.m.out);
    forall data | StandsFor(z, data)
      ensures ds.strm.out == data && (code == D.StreamEnd || code == D.SequenceError)
    {
      AcceptedIff(z, e, data);
    }
  }

  /** The usual loop on any input at all, after any calls: the rest of the input is given, and calls with some room are made
      until the code is not BZ_OK or there was room to spare.  Unless the input leads to an incomplete block, all that the
      machine writes comes out, and the last code is that of the place where the machine ends.  BZ_STREAM_END means that the input
      begins with a stream and that the output is what it stands for, and every such input ends so.  BZ_DATA_ERROR means that the
      input goes on with what no block begins with, that a block or the whole has a wrong checksum, or that a block is not
      complete, and every such input ends so.  (After calls that reached the end, one more call is out of order.) */
  method DecompressUntilStop(z: seq<Byte>, small: bool, calls: seq<Call>, room: nat, ghost e: State)
    returns (result: seq<Byte>, code: D.Code)
    requires EndsIn(z, e) && room > 0
    ensures code == D.StreamEnd ==> StandsFor(z, result)
    ensures forall data :: StandsFor(z, data) ==> result == data && (code == D.StreamEnd || code == D.SequenceError)
    ensures calls == [] ==> code != D.SequenceError
    ensures result <= e.m.out && (!ReachesIncomplete(z) ==> result == e.m.out)
    ensures Refused(z) || ReachesDamaged(z) || ReachesIncomplete(z) ==> code == D.DataError
    ensures code == D.DataError ==> Refused(z) || ReachesIncomplete(z) || (e.m.x.ctl.End? && e.m.x.ctl.stored != e.m.comb)
    ensures e.m.x.ctl.End? && e.m.x.ctl.stored != e.m.comb ==> code == D.DataError || code == D.SequenceError
    ensures WrongHeader(z) <==> code == D.DataErrorMagic
    ensures e.m.x.ctl.Randomised? <==> code == D.Unsupported
  {
    hide D.DState.Valid, D.DState.CodeMeans, D.DState.Leaves, EndsIn, ReachesIncomplete, ReachesDamaged, Reaches, AtIncomplete,
         MachineOk, StandsFor, Refused, WrongHeader, BytesToBits;
    var ds;
    var given: nat;
    ds, given, code := DecompressCalls(z, small, calls + [Call(E.RUN, |z|, room)]);
    NoMoreThanEnd(ds, z, given, e);
    while code == D.CallOk && (given < |z| || ds.strm.availOut == 0)
      invariant fresh(ds.Repr()) && Decompressing(ds, z, given) && ds.CodeMeans(code)
      invariant ds.strm.out <= e.m.out && (calls == [] ==> code != D.SequenceError)
      decreases code == D.CallOk && (given < |z| || ds.strm.availOut == 0), |z| - given, |e.m.out| - |ds.strm.out|
    {
      NotEndedYet(ds);
      given, code := DecompressCall(ds, z, given, Call(E.RUN, |z|, room));
      NoMoreThanEnd(ds, z, given, e);
    }
    Verdict(ds, z, given, code, e);
    result := ds.strm.out;
  }
}
