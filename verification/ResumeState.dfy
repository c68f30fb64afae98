/**
 The per-stream resume state: byte counters and a bounded ring of sent bytes.

 The library that owns this type is not part of the repository. Its contract is
 taken from the call sites in `pkg/session` and the tests beside them: writes
 append and evict the oldest bytes beyond the capacity, a checkpoint from the
 peer raises `peerAck` and frees the ring below it, and a retransmission from a
 position the ring no longer holds is refused.
 */
module ResumeState {
  import opened Common

  newtype Byte = x: int | 0 <= x < 256

  datatype Gap = Bytes(bytes: seq<Byte>) | BeforeRing | BeyondSent

  datatype State = State(cap: nat, sent: nat, received: nat, peerAck: nat, tail: nat, ring: seq<Byte>)
  {
    function OnWrite(p: seq<Byte>): State {
      var all := ring + p;
      var drop := Max(0, |all| - cap);
      this.(sent := sent + |p|, tail := tail + drop, ring := all[drop..])
    }

    function OnRead(n: nat): State {
      this.(received := received + n)
    }

    // An ack beyond `sent` is clamped to it.
    function OnCheckpointFromPeer(ack: nat): State {
      var a := Min(ack, sent);
      var freed := Min(Max(0, a - tail), |ring|);
      this.(peerAck := Max(peerAck, a), tail := tail + freed, ring := ring[freed..])
    }

    function RetransmitFrom(pos: nat): Gap {
      if pos < tail then BeforeRing
      else if pos > tail + |ring| then BeyondSent
      else Bytes(ring[pos - tail..])
    }

    /** The state of a stream that wrote exactly `log`: the ring is the part of the log that is
        neither acknowledged nor evicted. */
    ghost predicate Tracks(log: seq<Byte>) {
      && sent == |log|
      && peerAck <= |log|
      && tail == Max(peerAck, |log| - cap)
      && tail <= |log|
      && ring == log[tail..]
    }
  }

  function NewState(cap: nat): State {
    State(cap, 0, 0, 0, 0, [])
  }

  lemma WriteTracks(st: State, log: seq<Byte>, p: seq<Byte>)
    requires st.Tracks(log)
    ensures st.OnWrite(p).Tracks(log + p)
  {
    var all := st.ring + p;
    assert all == (log + p)[st.tail..];
  }

  lemma CheckpointTracks(st: State, log: seq<Byte>, ack: nat)
    requires st.Tracks(log)
    ensures st.OnCheckpointFromPeer(ack).Tracks(log)
    ensures st.OnCheckpointFromPeer(ack).peerAck == Max(st.peerAck, Min(ack, |log|))
    ensures |st.OnCheckpointFromPeer(ack).ring| <= |log| - Min(ack, |log|)
  {
  }

  /** An ack that is the highest so far leaves just the bytes above it, or what capacity leaves of them. */
  lemma AckedRing(st: State, log: seq<Byte>, ack: nat)
    requires st.Tracks(log) && st.peerAck <= ack <= |log|
    ensures var kept := Min(st.cap, |log| - ack);
            st.OnCheckpointFromPeer(ack).ring == log[|log| - kept..]
  {
    CheckpointTracks(st, log, ack);
  }

  /** How a write is cut into chunks leaves no trace in the state. */
  lemma ChunksCompose(st: State, log: seq<Byte>, p: seq<Byte>, q: seq<Byte>)
    requires st.Tracks(log)
    ensures st.OnWrite(p).OnWrite(q) == st.OnWrite(p + q)
  {
    TwoWritesTrack(st, log, p, q);
    WriteTracks(st, log, p + q);
    TracksOnce(st.OnWrite(p).OnWrite(q), st.OnWrite(p + q), log + (p + q));
  }

  lemma TwoWritesTrack(st: State, log: seq<Byte>, p: seq<Byte>, q: seq<Byte>)
    requires st.Tracks(log)
    ensures st.OnWrite(p).OnWrite(q).Tracks(log + (p + q))
  {
    WriteTracks(st, log, p);
    WriteTracks(st.OnWrite(p), log + p, q);
    assert log + p + q == log + (p + q);
  }

  /** The log, the capacity, the ack and the received count determine the state. */
  lemma TracksOnce(a: State, b: State, log: seq<Byte>)
    requires a.Tracks(log) && b.Tracks(log)
    requires a.cap == b.cap && a.peerAck == b.peerAck && a.received == b.received
    ensures a == b
  {
  }

  /** What is left of a log from `pos` on, once it is acknowledged up to `ack` and cut to `cap` bytes. */
  function Kept(log: seq<Byte>, ack: nat, cap: nat, pos: nat): Gap {
    if pos < Max(ack, |log| - cap) then BeforeRing
    else if |log| < pos then BeyondSent
    else Bytes(log[pos..])
  }

  /** The ring gives back just that, from any position whatever. */
  lemma RetransmitAnywhere(st: State, log: seq<Byte>, pos: nat)
    requires st.Tracks(log)
    ensures st.RetransmitFrom(pos) == Kept(log, st.peerAck, st.cap, pos)
  {
    if st.tail <= pos <= |log| {
      assert log[st.tail..][pos - st.tail..] == log[pos..];
    }
  }

  /** At any position the peer may really stand at, the ring gives back the log itself, and it fails
      exactly when the unreceived backlog is larger than the ring. */
  lemma RetransmitExact(st: State, log: seq<Byte>, pos: nat)
    requires st.Tracks(log)
    requires st.peerAck <= pos <= |log|
    ensures st.RetransmitFrom(pos) == if |log| - pos <= st.cap then Bytes(log[pos..]) else BeforeRing
  {
    RetransmitAnywhere(st, log, pos);
  }

  lemma RetransmitIsSlice(st: State, log: seq<Byte>, pos: nat)
    requires st.Tracks(log) && st.RetransmitFrom(pos).Bytes?
    ensures pos <= |log| && st.RetransmitFrom(pos).bytes == log[pos..]
  {
    assert log[st.tail..][pos - st.tail..] == log[pos..];
  }

  lemma Grown(log: seq<Byte>, bytes: seq<Byte>, k: nat)
    requires k <= |log|
    ensures (log + bytes)[..k] == log[..k] && (log + bytes)[k..] == log[k..] + bytes
  {
  }

  // ---- Histories of one stream's state ----

  datatype Op = Wrote(p: seq<Byte>) | GotBytes(n: nat) | Acked(ack: nat)

  function Apply(st: State, op: Op): State {
    match op
    case Wrote(p) => st.OnWrite(p)
    case GotBytes(n) => st.OnRead(n)
    case Acked(ack) => st.OnCheckpointFromPeer(ack)
  }

  function History(cap: nat, ops: seq<Op>): State {
    if ops == [] then NewState(cap) else Apply(History(cap, ops[..|ops| - 1]), ops[|ops| - 1])
  }

  function LogOf(ops: seq<Op>): seq<Byte> {
    if ops == [] then []
    else
      var before := LogOf(ops[..|ops| - 1]);
      match ops[|ops| - 1]
      case Wrote(p) => before + p
      case _ => before
  }

  function WithoutAcks(ops: seq<Op>): seq<Op> {
    if ops == [] then []
    else
      var before := WithoutAcks(ops[..|ops| - 1]);
      if ops[|ops| - 1].Acked? then before else before + [ops[|ops| - 1]]
  }

  /** The highest acknowledged position, an ack beyond the bytes written counting as all of them. */
  function HighestAck(ops: seq<Op>): nat {
    if ops == [] then 0
    else
      var before := ops[..|ops| - 1];
      match ops[|ops| - 1]
      case Acked(ack) => Max(HighestAck(before), Min(ack, |LogOf(before)|))
      case _ => HighestAck(before)
  }

  lemma {:induction false} HistoryTracks(cap: nat, ops: seq<Op>)
    ensures History(cap, ops).Tracks(LogOf(ops)) && History(cap, ops).cap == cap
  {
    if ops != [] {
      var before := ops[..|ops| - 1];
      HistoryTracks(cap, before);
      match ops[|ops| - 1]
      case Wrote(p) => WriteTracks(History(cap, before), LogOf(before), p);
      case GotBytes(n) =>
      case Acked(ack) => CheckpointTracks(History(cap, before), LogOf(before), ack);
    }
  }

  lemma {:induction false} HistoryAck(cap: nat, ops: seq<Op>)
    ensures History(cap, ops).peerAck == HighestAck(ops)
  {
    if ops != [] {
      HistoryAck(cap, ops[..|ops| - 1]);
      HistoryTracks(cap, ops[..|ops| - 1]);
    }
  }

  lemma {:induction false} DroppingAcks(ops: seq<Op>)
    ensures LogOf(WithoutAcks(ops)) == LogOf(ops)
    ensures HighestAck(WithoutAcks(ops)) == 0
  {
    if ops != [] {
      var before, last := ops[..|ops| - 1], ops[|ops| - 1];
      DroppingAcks(before);
      if !last.Acked? {
        assert (WithoutAcks(before) + [last])[..|WithoutAcks(before)|] == WithoutAcks(before);
      }
    }
  }

  lemma HistoryRetransmits(cap: nat, ops: seq<Op>, pos: nat)
    ensures History(cap, ops).RetransmitFrom(pos) == Kept(LogOf(ops), HighestAck(ops), cap, pos)
    ensures HighestAck(ops) <= |LogOf(ops)|
  {
    HistoryTracks(cap, ops);
    HistoryAck(cap, ops);
    RetransmitAnywhere(History(cap, ops), LogOf(ops), pos);
  }

  /** Trimming by checkpoints changes what a resume can get if and only if it asks for bytes that were
      acknowledged and that capacity alone would have kept: after any history, and at any other
      position, a retransmission gives the same answer as if no checkpoint had ever been applied. */
  lemma TrimmingIsInvisible(cap: nat, ops: seq<Op>, pos: nat)
    ensures History(cap, ops).RetransmitFrom(pos) == History(cap, WithoutAcks(ops)).RetransmitFrom(pos)
            <==> HighestAck(ops) <= pos || pos < |LogOf(ops)| - cap
  {
    HistoryRetransmits(cap, ops, pos);
    HistoryRetransmits(cap, WithoutAcks(ops), pos);
    DroppingAcks(ops);
    AckShows(LogOf(ops), HighestAck(ops), cap, pos);
  }

  lemma AckShows(log: seq<Byte>, ack: nat, cap: nat, pos: nat)
    requires ack <= |log|
    ensures Kept(log, ack, cap, pos) == Kept(log, 0, cap, pos) <==> ack <= pos || pos < |log| - cap
  {
  }
}
