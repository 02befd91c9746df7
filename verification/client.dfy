/** The client's segment buffer: at most three downloaded segments, played
    last-in first-out, and a flag that records a stall. */
module Client {

  /** `buffer_size`. */
  const BufferSize: nat := 3

  /** The buffered segments (their bitrates, oldest first) and `play_stop`,
      which is -1 until the player finds the buffer empty. */
  datatype ClientState = ClientState(buffer: seq<real>, playStop: int)

  /** The state after construction. */
  const Initial: ClientState := ClientState([], -1)

  /** `buffer_add`: a segment is kept only while there is room for it. */
  function BufferAdd(c: ClientState, bitrate: real): (r: ClientState)
    ensures |c.buffer| < BufferSize ==> r.buffer == c.buffer + [bitrate]
    ensures |c.buffer| >= BufferSize ==> r == c
    ensures r.playStop == c.playStop
  {
    if |c.buffer| < BufferSize then c.(buffer := c.buffer + [bitrate]) else c
  }

  /** `seg_play`: the newest segment is played; with nothing buffered the
      player stalls instead. */
  function SegPlay(c: ClientState): (r: ClientState)
    ensures |c.buffer| > 0 ==> r.buffer == c.buffer[..|c.buffer| - 1] && r.playStop == c.playStop
    ensures |c.buffer| == 0 ==> r.buffer == [] && r.playStop == 1
  {
    if |c.buffer| != 0 then c.(buffer := c.buffer[..|c.buffer| - 1]) else c.(playStop := 1)
  }

  /** `reset`: the network and gaze traces are drawn again, which this
      model leaves out; the buffer and the stall flag are left as they are. */
  function Reset(c: ClientState): ClientState {
    c
  }

  datatype Op = Add(bitrate: real) | Play | ResetOp

  function Apply(c: ClientState, op: Op): ClientState {
    match op
    case Add(b) => BufferAdd(c, b)
    case Play => SegPlay(c)
    case ResetOp => Reset(c)
  }

  /** The state after a sequence of client calls, in order. */
  function Run(c: ClientState, ops: seq<Op>): ClientState
    decreases |ops|
  {
    if |ops| == 0 then c else Run(Apply(c, ops[0]), ops[1..])
  }

  /** What every reachable state satisfies: at most three segments, and the
      flag is either its initial -1 or the stall mark 1. */
  predicate Valid(c: ClientState) {
    |c.buffer| <= BufferSize && (c.playStop == -1 || c.playStop == 1)
  }

  lemma {:induction false} RunPreservesValid(c: ClientState, ops: seq<Op>)
    requires Valid(c)
    ensures Valid(Run(c, ops))
    decreases |ops|
  {
    if |ops| > 0 {
      RunPreservesValid(Apply(c, ops[0]), ops[1..]);
    }
  }

  /** Every state reachable from construction is valid. */
  lemma ReachableValid(ops: seq<Op>)
    ensures Valid(Run(Initial, ops))
  {
    RunPreservesValid(Initial, ops);
  }

  /** Once the player has stalled, no call clears the flag. */
  lemma {:induction false} StallIsPermanent(c: ClientState, ops: seq<Op>)
    requires c.playStop == 1
    ensures Run(c, ops).playStop == 1
    decreases |ops|
  {
    if |ops| > 0 {
      StallIsPermanent(Apply(c, ops[0]), ops[1..]);
    }
  }

  /** Playing right after adding returns the segment just added: the buffer
      is last-in first-out. */
  lemma PlayUndoesAdd(c: ClientState, bitrate: real)
    requires |c.buffer| < BufferSize
    ensures SegPlay(BufferAdd(c, bitrate)) == c
  {
    assert (c.buffer + [bitrate])[..|c.buffer|] == c.buffer;
  }

  /** The flag becomes 1 exactly when a play finds the buffer empty: along
      a run from a state without a stall, the flag is 1 at the end iff some
      play met an empty buffer. */
  function Stalls(c: ClientState, ops: seq<Op>): bool
    decreases |ops|
  {
    if |ops| == 0 then false
    else (ops[0] == Play && |c.buffer| == 0) || Stalls(Apply(c, ops[0]), ops[1..])
  }

  lemma {:induction false} StallIffEmptyPlay(c: ClientState, ops: seq<Op>)
    requires c.playStop == -1
    ensures Run(c, ops).playStop == 1 <==> Stalls(c, ops)
    ensures !Stalls(c, ops) ==> Run(c, ops).playStop == -1
    decreases |ops|
  {
    if |ops| > 0 {
      var next := Apply(c, ops[0]);
      if ops[0] == Play && |c.buffer| == 0 {
        StallIsPermanent(next, ops[1..]);
      } else {
        assert next.playStop == -1;
        StallIffEmptyPlay(next, ops[1..]);
      }
    }
  }
}
