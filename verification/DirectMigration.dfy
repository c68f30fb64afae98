/**
 Moving a stream from the relay to a direct connection.

 The initiator snapshots its counters, writes them in a STREAM_RESUME on the direct stream and swaps,
 retransmitting nothing. The responder retransmits from the initiator's position and later swaps.
 No lock is held from one of these actions to the next, and unlike in a relay resume the old path is
 alive throughout. So both applications go on reading and writing between any two of them, and a call
 that fetched the transport before a swap still acts on the old path after it.

 Read and Write are three steps each, as in the code: fetch the current transport, move the bytes,
 update the counter. Each side has one reader and one writer.
 */
module DirectMigration {
  import opened Common
  import opened ResumeState
  import P = ResumeProtocol

  datatype Role = Initiator | Responder

  function Other(x: Role): Role {
    if x == Initiator then Responder else Initiator
  }

  datatype Path = Relay | Direct

  /** A reliable first-in first-out channel: all bytes put into it, and how many were taken out. */
  datatype Chan = Chan(sent: seq<Byte>, read: nat)

  /** Where a reader or a writer stands in its call. */
  datatype Call =
    | Idle
    | Using(path: Path)            // it has fetched this transport
    | Settling(bytes: seq<Byte>)   // these bytes moved, the counter has not
  {
    function Lag(): seq<Byte> {
      if Settling? then bytes else []
    }
  }

  datatype End = End(
    log: seq<Byte>, got: seq<Byte>,    // every byte written, every byte read
    state: State,
    relay: Chan, direct: Chan,         // the channels this side writes on
    moved: bool,                       // its SwapInner has run
    writer: Call, reader: Call)
  {
    function Current(): Path {
      if moved then Direct else Relay
    }

    function Out(path: Path): Chan {
      if path == Relay then relay else direct
    }

    function SetOut(path: Path, c: Chan): End {
      if path == Relay then this.(relay := c) else this.(direct := c)
    }

    /** No call on this side will touch the relay path again. */
    predicate OffRelay() {
      moved && writer != Using(Relay) && reader != Using(Relay)
    }
  }

  // The STREAM_RESUME on the direct path.
  datatype Frame = NoFrame | Frame(sent: nat, recv: nat)

  // What the responder retransmitted, and its sent counter at that moment.
  datatype Replay = NotYet | Replayed(bytes: seq<Byte>, at: nat)
  {
    function Gap(): seq<Byte> {
      if Replayed? then bytes else []
    }
  }

  datatype Sys = Sys(initiator: End, responder: End, frame: Frame, replay: Replay)
  {
    function End(x: Role): End {
      if x == Initiator then initiator else responder
    }

    function Set(x: Role, e: End): Sys {
      if x == Initiator then this.(initiator := e) else this.(responder := e)
    }

    /** What side `x` put on the direct path besides its own new writes. */
    function Extra(x: Role): seq<Byte> {
      if x == Initiator then [] else replay.Gap()
    }
  }

  datatype Step =
    | StartWrite(x: Role)
    | Put(x: Role, bytes: seq<Byte>)
    | Logged(x: Role)
    | StartRead(x: Role)
    | Take(x: Role, n: nat)     // n = 0: the read was cancelled or failed
    | Counted(x: Role)
    | Ack(x: Role, ack: nat)    // a checkpoint is applied
    | Snapshot                  // MigrateToDirect: ResumePayload, STREAM_RESUME
    | SwapInitiator             // MigrateToDirect: SwapInner
    | Retransmit                // handleDirectStream: RetransmitFrom, Write
    | SwapResponder             // handleDirectStream: SwapInner

  /** The channel the reader of side `x` is reading. */
  function Source(m: Sys, x: Role): Chan
    requires m.End(x).reader.Using?
  {
    m.End(Other(x)).Out(m.End(x).reader.path)
  }

  predicate Enabled(m: Sys, step: Step) {
    match step
    case StartWrite(x) => m.End(x).writer.Idle?
    case Put(x, bytes) => m.End(x).writer.Using?
    case Logged(x) => m.End(x).writer.Settling?
    case StartRead(x) => m.End(x).reader.Idle?
    case Take(x, n) => m.End(x).reader.Using? && Source(m, x).read + n <= |Source(m, x).sent|
    case Counted(x) => m.End(x).reader.Settling?
    case Ack(x, ack) => ack <= m.End(Other(x)).state.received
    case Snapshot => m.frame.NoFrame?
    case SwapInitiator => m.frame.Frame? && !m.initiator.moved
    case Retransmit =>
      m.frame.Frame? && m.replay.NotYet? && m.responder.state.RetransmitFrom(m.frame.recv).Bytes?
    case SwapResponder => m.replay.Replayed? && !m.responder.moved
  }

  function WriterAfter(e: End, bytes: seq<Byte>): End
    requires e.writer.Using?
  {
    var c := e.Out(e.writer.path);
    e.SetOut(e.writer.path, Chan(c.sent + bytes, c.read)).(log := e.log + bytes, writer := Settling(bytes))
  }

  function ReaderAfter(e: End, bytes: seq<Byte>): End {
    e.(got := e.got + bytes, reader := Settling(bytes))
  }

  function TakenFrom(f: End, path: Path, n: nat): End {
    f.SetOut(path, Chan(f.Out(path).sent, f.Out(path).read + n))
  }

  function Do(m: Sys, step: Step): Sys
    requires Enabled(m, step)
  {
    match step
    case StartWrite(x) => m.Set(x, m.End(x).(writer := Using(m.End(x).Current())))
    case Put(x, bytes) => m.Set(x, WriterAfter(m.End(x), bytes))
    case Logged(x) =>
      var e := m.End(x);
      m.Set(x, e.(state := e.state.OnWrite(e.writer.bytes), writer := Idle))
    case StartRead(x) => m.Set(x, m.End(x).(reader := Using(m.End(x).Current())))
    case Take(x, n) =>
      var e, c := m.End(x), Source(m, x);
      m.Set(x, ReaderAfter(e, c.sent[c.read..c.read + n]))
       .Set(Other(x), TakenFrom(m.End(Other(x)), e.reader.path, n))
    case Counted(x) =>
      var e := m.End(x);
      m.Set(x, e.(state := e.state.OnRead(|e.reader.bytes|), reader := Idle))
    case Ack(x, ack) => m.Set(x, m.End(x).(state := m.End(x).state.OnCheckpointFromPeer(ack)))
    case Snapshot => m.(frame := Frame(m.initiator.state.sent, m.initiator.state.received))
    case SwapInitiator => m.(initiator := m.initiator.(moved := true))
    case Retransmit =>
      var r := m.responder;
      var gap := r.state.RetransmitFrom(m.frame.recv).bytes;
      m.(responder := r.(direct := Chan(r.direct.sent + gap, r.direct.read)),
         replay := Replayed(gap, r.state.sent))
    case SwapResponder => m.(responder := m.responder.(moved := true))
  }

  predicate Legal(m: Sys, steps: seq<Step>)
    decreases |steps|
  {
    steps == [] || (Enabled(m, steps[0]) && Legal(Do(m, steps[0]), steps[1..]))
  }

  function After(m: Sys, steps: seq<Step>): Sys
    requires Legal(m, steps)
    decreases |steps|
  {
    if steps == [] then m else After(Do(m, steps[0]), steps[1..])
  }

  // ---- Before a migration ----

  ghost predicate OneEndOnRelay(e: End, f: End) {
    && !e.moved && e.relay.sent == e.log && e.relay.read <= |e.log| && f.got == e.log[..e.relay.read]
    && e.direct == Chan([], 0)
    && e.writer != Using(Direct) && e.reader != Using(Direct) && Counters(e)
  }

  /** In each direction, what was read and what is in flight on the relay is what was written. */
  ghost predicate OnRelay(m: Sys) {
    && OneEndOnRelay(m.initiator, m.responder) && OneEndOnRelay(m.responder, m.initiator)
    && m.frame.NoFrame? && m.replay.NotYet?
  }

  function FromRelay(e: P.Endpoint, read: nat): End
    requires e.uncounted <= |e.got|
  {
    End(e.log, e.got, e.state, Chan(e.log, read), Chan([], 0), false,
        if e.pend == [] then Idle else Settling(e.pend),
        if e.uncounted == 0 then Idle else Settling(e.got[|e.got| - e.uncounted..]))
  }

  lemma FromRelayCounters(e: P.Endpoint, read: nat)
    requires P.Sound(e)
    ensures Counters(FromRelay(e, read))
  {
  }

  lemma StartsOneEnd(s: P.Sys, x: P.Side)
    requires P.Inv(s)
    requires s.left.phase.Live? && s.right.phase == s.left.phase && !s.Broken(s.left.phase.link, x)
    ensures s.End(x).uncounted <= |s.End(x).got| && s.End(P.Peer(x)).uncounted <= |s.End(P.Peer(x)).got|
    ensures var e, f := s.End(x), s.End(P.Peer(x));
            && OneEndOnRelay(FromRelay(e, |f.got|), FromRelay(f, |e.got|))
            && s.Queue(s.left.phase.link, x) == e.log[|f.got|..]
  {
    assert P.Flow(s, x) && P.Sound(s.End(x)) && P.Sound(s.End(P.Peer(x)));
    FromRelayCounters(s.End(x), |s.End(P.Peer(x)).got|);
    Prefixed(s.End(P.Peer(x)).got, s.Queue(s.left.phase.link, x));
  }

  lemma Prefixed(a: seq<Byte>, b: seq<Byte>)
    ensures (a + b)[..|a|] == a && (a + b)[|a|..] == b
  {
  }

  /** Every state the two sides of the relay protocol are in while live on one unbroken link, with
      calls in progress or not, is such a starting point, carrying the same bytes in flight. */
  lemma StartsOnRelay(s: P.Sys, x: P.Side)
    requires P.Reachable(s)
    requires s.left.phase.Live? && s.right.phase == s.left.phase && s.left.phase.link < |s.links|
    requires var l := s.left.phase.link; !s.Broken(l, P.Left) && !s.Broken(l, P.Right)
    ensures s.End(x).uncounted <= |s.End(x).got| && s.End(P.Peer(x)).uncounted <= |s.End(P.Peer(x)).got|
    ensures var e, f, l := s.End(x), s.End(P.Peer(x)), s.left.phase.link;
            && OnRelay(Sys(FromRelay(e, |f.got|), FromRelay(f, |e.got|), NoFrame, NotYet))
            && s.Queue(l, x) == e.log[|f.got|..] && s.Queue(l, P.Peer(x)) == f.log[|e.got|..]
  {
    P.ReachableInv(s);
    StartsOneEnd(s, x);
    StartsOneEnd(s, P.Peer(x));
  }

  // ---- What every step keeps ----

  /** The counters and the ring lag behind the bytes by the call in progress. */
  ghost predicate Counters(e: End) {
    && |e.writer.Lag()| <= |e.log|
    && e.log[|e.log| - |e.writer.Lag()|..] == e.writer.Lag()
    && e.state.Tracks(e.log[..|e.log| - |e.writer.Lag()|])
    && e.state.received + |e.reader.Lag()| == |e.got|
  }

  /** The bytes `w` wrote and `r` read: first over the relay, then over the direct path, where `extra`
      is ahead of everything `w` wrote there. */
  ghost predicate Direction(w: End, r: End, extra: seq<Byte>) {
    && w.relay.read <= |w.relay.sent| && w.direct.read <= |w.direct.sent|
    && extra <= w.direct.sent
    && w.log == w.relay.sent + w.direct.sent[|extra|..]
    && r.got == w.relay.sent[..w.relay.read] + w.direct.sent[..w.direct.read]
    && (|w.direct.sent| > |extra| ==> w.moved && w.writer != Using(Relay))
    && (w.direct.read > 0 ==> r.moved && r.reader != Using(Relay))
    && (w.writer == Using(Direct) ==> w.moved)
    && (r.reader == Using(Direct) ==> r.moved)
  }

  /** The retransmission is the stretch of the relay bytes from the frame's position to the
      responder's counter; the frame's position is one the initiator had reached. */
  ghost predicate Handover(m: Sys) {
    && (m.initiator.moved ==> m.frame.Frame?)
    && (m.responder.moved ==> m.replay.Replayed?)
    && (m.frame.Frame? ==> m.frame.recv <= m.responder.relay.read && m.frame.sent <= |m.initiator.relay.sent|)
    && (m.replay.Replayed? ==>
          && m.frame.Frame? && m.frame.recv <= m.replay.at <= |m.responder.relay.sent|
          && m.replay.bytes == m.responder.relay.sent[m.frame.recv..m.replay.at])
  }

  /** Both directions between two ends, and their counters. */
  ghost predicate Pair(e: End, f: End, extraE: seq<Byte>, extraF: seq<Byte>) {
    Counters(e) && Counters(f) && Direction(e, f, extraE) && Direction(f, e, extraF)
  }

  ghost predicate Inv(m: Sys) {
    Pair(m.initiator, m.responder, [], m.replay.Gap()) && Handover(m)
  }

  lemma OneEndDirection(e: End, f: End)
    requires OneEndOnRelay(e, f) && !f.moved && f.reader != Using(Direct)
    ensures Direction(e, f, [])
  {
    assert e.direct.sent[..0] == e.direct.sent[|e.direct.sent|..] == [];
    assert e.log + [] == e.log && f.got + [] == f.got;
  }

  lemma OnRelayInv(m: Sys)
    requires OnRelay(m)
    ensures Inv(m)
  {
    OneEndDirection(m.initiator, m.responder);
    OneEndDirection(m.responder, m.initiator);
  }

  lemma FromInv(m: Sys, x: Role)
    requires Inv(m)
    ensures Pair(m.End(x), m.End(Other(x)), m.Extra(x), m.Extra(Other(x)))
  {
  }

  lemma ToInv(m: Sys, x: Role)
    requires Pair(m.End(x), m.End(Other(x)), m.Extra(x), m.Extra(Other(x))) && Handover(m)
    ensures Inv(m)
  {
  }

  lemma PutCounters(e: End, bytes: seq<Byte>)
    requires Counters(e) && e.writer.Using?
    ensures Counters(WriterAfter(e, bytes))
  {
    assert (e.log + bytes)[..|e.log|] == e.log[..|e.log|];
  }

  lemma PutDirection(w: End, r: End, extra: seq<Byte>, bytes: seq<Byte>)
    requires Direction(w, r, extra) && w.writer.Using?
    ensures Direction(WriterAfter(w, bytes), r, extra)
  {
    if w.writer.path == Relay {
      assert w.direct.sent[|extra|..] == [];
      assert (w.relay.sent + bytes)[..w.relay.read] == w.relay.sent[..w.relay.read];
    } else {
      Grown(w.direct.sent, bytes, |extra|);
      Grown(w.direct.sent, bytes, w.direct.read);
      assert w.log + bytes == w.relay.sent + (w.direct.sent[|extra|..] + bytes);
    }
  }

  lemma PutPair(e: End, f: End, extraE: seq<Byte>, extraF: seq<Byte>, bytes: seq<Byte>)
    requires Pair(e, f, extraE, extraF) && e.writer.Using?
    ensures Pair(WriterAfter(e, bytes), f, extraE, extraF)
  {
    PutCounters(e, bytes);
    PutDirection(e, f, extraE, bytes);
  }

  lemma PutHandover(m: Sys, x: Role, bytes: seq<Byte>)
    requires Handover(m) && Enabled(m, Put(x, bytes))
    ensures Handover(Do(m, Put(x, bytes)))
  {
  }

  lemma PutInv(m: Sys, x: Role, bytes: seq<Byte>)
    requires Inv(m) && Enabled(m, Put(x, bytes))
    ensures Inv(Do(m, Put(x, bytes)))
  {
    FromInv(m, x);
    PutPair(m.End(x), m.End(Other(x)), m.Extra(x), m.Extra(Other(x)), bytes);
    PutHandover(m, x, bytes);
    ToInv(Do(m, Put(x, bytes)), x);
  }

  lemma LoggedCounters(e: End)
    requires Counters(e) && e.writer.Settling?
    ensures Counters(e.(state := e.state.OnWrite(e.writer.bytes), writer := Idle))
  {
    var bytes := e.writer.bytes;
    var known := e.log[..|e.log| - |bytes|];
    WriteTracks(e.state, known, bytes);
    assert known + bytes == e.log == e.log[..|e.log|];
  }

  lemma TakeFromRelay(w: End, r: End, extra: seq<Byte>, n: nat)
    requires Direction(w, r, extra) && r.reader == Using(Relay) && w.relay.read + n <= |w.relay.sent|
    ensures Direction(TakenFrom(w, Relay, n),
                      ReaderAfter(r, w.relay.sent[w.relay.read..w.relay.read + n]), extra)
  {
    var c := w.relay;
    assert w.direct.sent[..w.direct.read] == [];
    assert c.sent[..c.read] + c.sent[c.read..c.read + n] == c.sent[..c.read + n];
  }

  lemma Joined(head: seq<Byte>, s: seq<Byte>, a: nat, b: nat)
    requires a <= b <= |s|
    ensures (head + s[..a]) + s[a..b] == head + s[..b]
  {
  }

  lemma TakeFromDirect(w: End, r: End, extra: seq<Byte>, n: nat)
    requires Direction(w, r, extra) && r.reader == Using(Direct) && w.direct.read + n <= |w.direct.sent|
    ensures Direction(TakenFrom(w, Direct, n),
                      ReaderAfter(r, w.direct.sent[w.direct.read..w.direct.read + n]), extra)
  {
    Joined(w.relay.sent[..w.relay.read], w.direct.sent, w.direct.read, w.direct.read + n);
  }

  /** Taking bytes leaves the direction in which the reader itself writes alone. */
  lemma TakeBackwards(w: End, r: End, extra: seq<Byte>, bytes: seq<Byte>, path: Path, n: nat)
    requires Direction(w, r, extra) && w.reader.Using?
    ensures Direction(ReaderAfter(w, bytes), TakenFrom(r, path, n), extra)
  {
  }

  lemma TakeCounters(e: End, bytes: seq<Byte>)
    requires Counters(e) && e.reader.Using?
    ensures Counters(ReaderAfter(e, bytes))
  {
  }

  lemma TakenCounters(f: End, path: Path, n: nat)
    requires Counters(f)
    ensures Counters(TakenFrom(f, path, n))
  {
  }

  lemma TakeHandover(m: Sys, x: Role, n: nat)
    requires Handover(m) && Enabled(m, Take(x, n))
    ensures Handover(Do(m, Take(x, n)))
  {
  }

  lemma TakeEnds(m: Sys, x: Role, n: nat)
    requires Enabled(m, Take(x, n))
    ensures var t, c := Do(m, Take(x, n)), Source(m, x);
            && t.End(x) == ReaderAfter(m.End(x), c.sent[c.read..c.read + n])
            && t.End(Other(x)) == TakenFrom(m.End(Other(x)), m.End(x).reader.path, n)
            && t.replay == m.replay
  {
  }

  lemma TakePair(e: End, f: End, extraE: seq<Byte>, extraF: seq<Byte>, n: nat)
    requires Pair(e, f, extraE, extraF) && e.reader.Using?
    requires f.Out(e.reader.path).read + n <= |f.Out(e.reader.path).sent|
    ensures var c := f.Out(e.reader.path);
            Pair(ReaderAfter(e, c.sent[c.read..c.read + n]), TakenFrom(f, e.reader.path, n), extraE, extraF)
  {
    var c := f.Out(e.reader.path);
    var bytes := c.sent[c.read..c.read + n];
    TakeCounters(e, bytes);
    TakenCounters(f, e.reader.path, n);
    TakeBackwards(e, f, extraE, bytes, e.reader.path, n);
    if e.reader.path == Relay {
      TakeFromRelay(f, e, extraF, n);
    } else {
      TakeFromDirect(f, e, extraF, n);
    }
  }

  lemma TakenPair(m: Sys, x: Role, n: nat)
    requires Pair(m.End(x), m.End(Other(x)), m.Extra(x), m.Extra(Other(x))) && Enabled(m, Take(x, n))
    ensures var t := Do(m, Take(x, n));
            Pair(t.End(x), t.End(Other(x)), t.Extra(x), t.Extra(Other(x)))
  {
    TakePair(m.End(x), m.End(Other(x)), m.Extra(x), m.Extra(Other(x)), n);
    TakeEnds(m, x, n);
  }

  lemma TakeInv(m: Sys, x: Role, n: nat)
    requires Inv(m) && Enabled(m, Take(x, n))
    ensures Inv(Do(m, Take(x, n)))
  {
    FromInv(m, x);
    TakenPair(m, x, n);
    TakeHandover(m, x, n);
    ToInv(Do(m, Take(x, n)), x);
  }

  /** Starting or settling a call, or applying a checkpoint, moves no byte. */
  predicate SameBytes(e: End, g: End) {
    && g == e.(state := g.state, writer := g.writer, reader := g.reader)
    && (g.writer.Using? ==> g.writer == e.writer || g.writer.path == e.Current())
    && (g.reader.Using? ==> g.reader == e.reader || g.reader.path == e.Current())
  }

  lemma SameBytesDirection(w: End, r: End, v: End, q: End, extra: seq<Byte>)
    requires Direction(w, r, extra) && SameBytes(w, v) && SameBytes(r, q)
    ensures Direction(v, q, extra)
  {
  }

  lemma SameBytesInv(m: Sys, x: Role, g: End)
    requires Inv(m) && SameBytes(m.End(x), g) && Counters(g)
    ensures Inv(m.Set(x, g))
  {
    var e, f := m.End(x), m.End(Other(x));
    FromInv(m, x);
    SameBytesDirection(e, f, g, f, m.Extra(x));
    SameBytesDirection(f, e, f, g, m.Extra(Other(x)));
    ToInv(m.Set(x, g), x);
  }

  lemma CallCounters(e: End)
    requires Counters(e)
    ensures e.writer.Idle? ==> Counters(e.(writer := Using(e.Current())))
    ensures e.reader.Idle? ==> Counters(e.(reader := Using(e.Current())))
    ensures e.reader.Settling? ==>
              Counters(e.(state := e.state.OnRead(|e.reader.bytes|), reader := Idle))
  {
  }

  lemma AckCounters(e: End, ack: nat)
    requires Counters(e)
    ensures Counters(e.(state := e.state.OnCheckpointFromPeer(ack)))
  {
    CheckpointTracks(e.state, e.log[..|e.log| - |e.writer.Lag()|], ack);
  }

  lemma CallInv(m: Sys, x: Role, step: Step)
    requires Inv(m) && Enabled(m, step)
    requires step == StartWrite(x) || step == StartRead(x) || step == Counted(x) || step == Logged(x)
             || (step.Ack? && step.x == x)
    ensures Inv(Do(m, step))
  {
    var e := m.End(x);
    FromInv(m, x);
    CallCounters(e);
    match step {
      case Logged(_) => LoggedCounters(e);
      case Ack(_, ack) => AckCounters(e, ack);
      case _ =>
    }
    SameBytesInv(m, x, Do(m, step).End(x));
  }

  lemma SnapshotInv(m: Sys)
    requires Inv(m) && Enabled(m, Snapshot)
    ensures Inv(Do(m, Snapshot))
  {
  }

  lemma SwapInv(m: Sys, step: Step)
    requires Inv(m) && Enabled(m, step) && (step.SwapInitiator? || step.SwapResponder?)
    ensures Inv(Do(m, step))
  {
  }

  lemma RetransmitInv(m: Sys)
    requires Inv(m) && Enabled(m, Retransmit)
    ensures Inv(Do(m, Retransmit))
  {
    var r := m.responder;
    var known := r.log[..|r.log| - |r.writer.Lag()|];
    RetransmitIsSlice(r.state, known, m.frame.recv);
    assert r.direct.sent == [] && r.log == r.relay.sent;
    assert r.relay.sent[m.frame.recv..r.state.sent] == known[m.frame.recv..];
  }

  lemma StepInv(m: Sys, step: Step)
    requires Inv(m) && Enabled(m, step)
    ensures Inv(Do(m, step))
  {
    match step
    case Put(x, bytes) => PutInv(m, x, bytes);
    case Take(x, n) => TakeInv(m, x, n);
    case Snapshot => SnapshotInv(m);
    case SwapInitiator => SwapInv(m, step);
    case SwapResponder => SwapInv(m, step);
    case Retransmit => RetransmitInv(m);
    case _ => CallInv(m, step.x, step);
  }

  lemma {:induction false} RunInv(m: Sys, steps: seq<Step>)
    requires Inv(m) && Legal(m, steps)
    ensures Inv(After(m, steps))
    decreases |steps|
  {
    if steps != [] {
      StepInv(m, steps[0]);
      RunInv(Do(m, steps[0]), steps[1..]);
    }
  }

  // ---- What a migration delivers ----

  ghost predicate Reachable(m: Sys) {
    exists start, steps :: OnRelay(start) && Legal(start, steps) && m == After(start, steps)
  }

  lemma ReachableInv(m: Sys)
    requires Reachable(m)
    ensures Inv(m)
  {
    var start, steps :| OnRelay(start) && Legal(start, steps) && m == After(start, steps);
    OnRelayInv(start);
    RunInv(start, steps);
  }

  ghost predicate Exact(m: Sys) {
    m.initiator.got <= m.responder.log && m.responder.got <= m.initiator.log
  }

  /** The bytes read stay a prefix of the bytes written, whatever follows. */
  ghost predicate ExactForever(m: Sys) {
    forall steps | Legal(m, steps) :: Exact(After(m, steps))
  }

  /** The bytes taken from the relay, followed by `extra`, are all bytes put on the relay. */
  ghost predicate Seamless(w: End, extra: seq<Byte>)
    requires w.relay.read <= |w.relay.sent|
  {
    w.relay.sent[..w.relay.read] + extra == w.relay.sent
  }

  lemma SeamlessIsExact(w: End, r: End, extra: seq<Byte>)
    requires Direction(w, r, extra) && Seamless(w, extra)
    ensures r.got + w.direct.sent[w.direct.read..] == w.log
  {
    var head, rest := w.relay.sent[..w.relay.read], w.direct.sent[|extra|..];
    assert w.direct.sent == extra + rest;
    assert head + (extra + rest) == (head + extra) + rest;
    Joined(head, w.direct.sent, w.direct.read, |w.direct.sent|);
  }

  lemma Repaired(m: Sys)
    requires Inv(m) && m.frame.Frame? && m.replay.Replayed?
    requires m.responder.relay.read == m.frame.recv && m.replay.at == |m.responder.relay.sent|
    ensures m.responder.direct.read <= |m.responder.direct.sent|
    ensures m.initiator.got + m.responder.direct.sent[m.responder.direct.read..] == m.responder.log
  {
    assert m.replay.bytes == m.responder.relay.sent[m.frame.recv..];
    SeamlessIsExact(m.responder, m.initiator, m.replay.bytes);
  }

  /** The responder's retransmission repairs its own direction: as long as the initiator takes
      nothing from the relay beyond the position in its frame, and the responder puts nothing on the
      relay beyond its counter at the retransmission, the initiator reads exactly what was written. */
  lemma ResponderRepairsItsDirection(m: Sys)
    requires Reachable(m)
    requires m.initiator.moved && m.frame.Frame? && m.replay.Replayed? ==>
               m.responder.relay.read == m.frame.recv && m.replay.at == |m.responder.relay.sent|
    ensures m.initiator.got <= m.responder.log
    ensures m.responder.direct.read <= |m.responder.direct.sent|
    ensures m.initiator.moved && m.replay.Replayed? ==>
              m.initiator.got + m.responder.direct.sent[m.responder.direct.read..] == m.responder.log
  {
    ReachableInv(m);
    if m.initiator.moved && m.replay.Replayed? {
      Repaired(m);
    } else {
      assert m.responder.direct.read == 0;
    }
  }

  /** No call in progress on either side will touch the relay path again. */
  predicate Settled(m: Sys) {
    m.initiator.OffRelay() && m.responder.OffRelay()
  }

  predicate SameHandover(m: Sys, t: Sys) {
    && t.frame == m.frame && t.replay == m.replay
    && t.initiator.relay == m.initiator.relay && t.responder.relay == m.responder.relay
  }

  lemma SettledStep(m: Sys, step: Step)
    requires Handover(m) && Settled(m) && Enabled(m, step)
    ensures Settled(Do(m, step)) && SameHandover(m, Do(m, step))
  {
  }

  lemma {:induction false} SettledRun(m: Sys, steps: seq<Step>)
    requires Inv(m) && Settled(m) && Legal(m, steps)
    ensures Settled(After(m, steps)) && SameHandover(m, After(m, steps))
    decreases |steps|
  {
    if steps != [] {
      SettledStep(m, steps[0]);
      StepInv(m, steps[0]);
      SettledRun(Do(m, steps[0]), steps[1..]);
    }
  }

  lemma SeamlessForever(m: Sys)
    requires Inv(m) && Settled(m)
    requires Seamless(m.initiator, []) && Seamless(m.responder, m.replay.Gap())
    ensures ExactForever(m)
  {
    forall steps | Legal(m, steps)
      ensures Exact(After(m, steps))
    {
      RunInv(m, steps);
      SettledRun(m, steps);
      var t := After(m, steps);
      SeamlessIsExact(t.initiator, t.responder, []);
      SeamlessIsExact(t.responder, t.initiator, t.replay.Gap());
    }
  }

  // ---- and what shows when it is not seamless ----

  ghost predicate Follows(m: Sys, t: Sys) {
    exists steps :: Legal(m, steps) && After(m, steps) == t
  }

  lemma FollowsNowhere(m: Sys)
    ensures Follows(m, m)
  {
    assert Legal(m, []) && After(m, []) == m;
  }

  lemma {:induction false} OneMore(m: Sys, steps: seq<Step>, step: Step)
    requires Legal(m, steps) && Enabled(After(m, steps), step)
    ensures Legal(m, steps + [step]) && After(m, steps + [step]) == Do(After(m, steps), step)
    decreases |steps|
  {
    if steps == [] {
      assert [step][1..] == [] && Legal(Do(m, step), []);
      assert [] + [step] == [step];
    } else {
      OneMore(Do(m, steps[0]), steps[1..], step);
      assert (steps + [step])[1..] == steps[1..] + [step];
    }
  }

  lemma Onward(m: Sys, t: Sys, step: Step) returns (u: Sys)
    requires Follows(m, t) && Inv(t) && Enabled(t, step)
    ensures u == Do(t, step) && Follows(m, u) && Inv(u)
  {
    var steps :| Legal(m, steps) && After(m, steps) == t;
    OneMore(m, steps, step);
    StepInv(t, step);
    u := Do(t, step);
  }

  lemma OnlyDirect(call: Call)
    requires call != Using(Relay)
    ensures call.Using? ==> call == Using(Direct)
  {
    if call.Using? {
      assert call.path == Relay || call.path == Direct;
    }
  }

  /** A side that has left the relay finishes its write call and starts another. */
  lemma ReadyToWrite(m: Sys, t: Sys, x: Role) returns (u: Sys)
    requires Follows(m, t) && Inv(t) && t.End(x).OffRelay()
    ensures Follows(m, u) && Inv(u) && u.End(x).writer == Using(Direct)
    ensures u == t.Set(x, t.End(x).(state := u.End(x).state, writer := Using(Direct)))
  {
    u := t;
    OnlyDirect(t.End(x).writer);
    if u.End(x).writer.Settling? {
      u := Onward(m, u, Logged(x));
    }
    if u.End(x).writer.Idle? {
      u := Onward(m, u, StartWrite(x));
    }
  }

  lemma ReadyToRead(m: Sys, t: Sys, x: Role) returns (u: Sys)
    requires Follows(m, t) && Inv(t) && t.End(x).OffRelay()
    ensures Follows(m, u) && Inv(u) && u.End(x).reader == Using(Direct)
    ensures u == t.Set(x, t.End(x).(state := u.End(x).state, reader := Using(Direct)))
  {
    u := t;
    OnlyDirect(t.End(x).reader);
    if u.End(x).reader.Settling? {
      u := Onward(m, u, Counted(x));
    }
    if u.End(x).reader.Idle? {
      u := Onward(m, u, StartRead(x));
    }
  }

  lemma Write(m: Sys, x: Role, c: Byte) returns (t: Sys)
    requires Inv(m) && Settled(m)
    ensures Follows(m, t) && Inv(t) && Settled(t)
    ensures t.End(x).log == m.End(x).log + [c]
    ensures t.End(x).relay == m.End(x).relay && t.End(x).direct.sent == m.End(x).direct.sent + [c]
  {
    FollowsNowhere(m);
    t := ReadyToWrite(m, m, x);
    t := Onward(m, t, Put(x, [c]));
  }

  lemma TakeRest(m: Sys, s: Sys, x: Role) returns (t: Sys)
    requires Follows(m, s) && Inv(s) && s.End(Other(x)).reader == Using(Direct)
    ensures Follows(m, t) && Inv(t) && t.End(x).log == s.End(x).log && t.End(x).relay == s.End(x).relay
    ensures t.End(x).direct == Chan(s.End(x).direct.sent, |s.End(x).direct.sent|)
  {
    var d := s.End(x).direct;
    FromInv(s, x);
    t := Onward(m, s, Take(Other(x), |d.sent| - d.read));
  }

  lemma Drain(m: Sys, s: Sys, x: Role) returns (t: Sys)
    requires Follows(m, s) && Inv(s) && Settled(s)
    ensures Follows(m, t) && t.End(x).log == s.End(x).log
    ensures var w := s.End(x);
            && w.relay.read <= |w.relay.sent|
            && t.End(Other(x)).got == w.relay.sent[..w.relay.read] + w.direct.sent
  {
    t := ReadyToRead(m, s, Other(x));
    t := TakeRest(m, t, x);
    FromInv(t, x);
    assert s.End(x).direct.sent[..|s.End(x).direct.sent|] == s.End(x).direct.sent;
  }

  /** One more byte is written and everything on the direct path is read. */
  lemma WriteAndDrain(m: Sys, x: Role, c: Byte) returns (t: Sys)
    requires Inv(m) && Settled(m)
    ensures Follows(m, t)
    ensures t.End(x).log == m.End(x).log + [c]
    ensures var w := m.End(x);
            && w.relay.read <= |w.relay.sent|
            && t.End(Other(x)).got == w.relay.sent[..w.relay.read] + (w.direct.sent + [c])
  {
    t := Write(m, x, c);
    t := Drain(m, t, x);
  }

  lemma Mismatch(sent: seq<Byte>, got: seq<Byte>, rest: seq<Byte>, c: Byte)
    requires got != sent
    requires |got| < |sent| ==> c != (sent + rest)[|got| + |rest|]
    ensures !(got + rest + [c] <= sent + rest + [c])
  {
    var a, b := got + rest + [c], sent + rest + [c];
    if |got| == |sent| {
      assert a[..|sent|] == got && b[..|sent|] == sent;
    } else if |got| < |sent| {
      var k := |got| + |rest|;
      assert a[k] == c && b[k] == (sent + rest)[k];
    }
  }

  function Telling(log: seq<Byte>, k: nat): Byte {
    if k < |log| && log[k] == 0 then 1 else 0
  }

  /** Read with `c` appended, an imperfect seam shows. */
  lemma SeamReads(w: End, r: End, extra: seq<Byte>)
    requires Direction(w, r, extra) && !Seamless(w, extra)
    ensures var head := w.relay.sent[..w.relay.read];
            var c := Telling(w.log, |head| + |w.direct.sent|);
            !(head + (w.direct.sent + [c]) <= w.log + [c])
  {
    var head, rest := w.relay.sent[..w.relay.read], w.direct.sent[|extra|..];
    var c := Telling(w.log, |head| + |w.direct.sent|);
    Mismatch(w.relay.sent, head + extra, rest, c);
    assert head + (w.direct.sent + [c]) == (head + extra) + rest + [c];
  }

  lemma SeamAt(m: Sys, x: Role) returns (c: Byte)
    requires Inv(m)
    requires m.End(x).relay.read <= |m.End(x).relay.sent| && !Seamless(m.End(x), m.Extra(x))
    ensures var w := m.End(x);
            !(w.relay.sent[..w.relay.read] + (w.direct.sent + [c]) <= w.log + [c])
  {
    FromInv(m, x);
    var w := m.End(x);
    SeamReads(w, m.End(Other(x)), m.Extra(x));
    c := Telling(w.log, |w.relay.sent[..w.relay.read]| + |w.direct.sent|);
  }

  lemma SeamShows(m: Sys, x: Role)
    requires Inv(m) && Settled(m)
    requires m.End(x).relay.read <= |m.End(x).relay.sent| && !Seamless(m.End(x), m.Extra(x))
    ensures !ExactForever(m)
  {
    var c := SeamAt(m, x);
    var t := WriteAndDrain(m, x, c);
    NotExactForever(m, t, x);
  }

  lemma NotExactForever(m: Sys, t: Sys, x: Role)
    requires Follows(m, t) && !(t.End(Other(x)).got <= t.End(x).log)
    ensures !ExactForever(m)
  {
    var steps :| Legal(m, steps) && After(m, steps) == t;
    assert !Exact(After(m, steps));
  }

  /** The condition, in positions: the responder took everything the initiator put on the relay; the
      initiator took as many bytes beyond its frame's position as the responder put there beyond its
      retransmission, and what was retransmitted is what the initiator had left. */
  predicate Complete(m: Sys)
    requires m.frame.Frame? && m.replay.Replayed?
    requires m.frame.recv <= m.replay.at <= |m.responder.relay.sent|
    requires m.responder.relay.read <= |m.responder.relay.sent|
  {
    var r := m.responder.relay;
    && m.initiator.relay.read == |m.initiator.relay.sent|
    && r.read - m.frame.recv == |r.sent| - m.replay.at
    && r.sent[m.frame.recv..m.replay.at] == r.sent[r.read..]
  }

  lemma CompleteIsSeamless(m: Sys)
    requires Inv(m) && m.replay.Replayed?
    ensures Complete(m) <==> Seamless(m.initiator, []) && Seamless(m.responder, m.replay.Gap())
  {
    var i, r := m.initiator.relay, m.responder.relay;
    assert i.sent[..i.read] + [] == i.sent[..i.read];
    assert r.sent[..r.read] + r.sent[r.read..] == r.sent;
    if r.sent[..r.read] + m.replay.bytes == r.sent {
      assert (r.sent[..r.read] + m.replay.bytes)[r.read..] == m.replay.bytes;
    }
  }

  /** Once both sides have left the relay, in whatever order the calls and the swaps fell, the stream
      stays exact if and only if the positions at which they left fit together. */
  lemma MigrationExactIff(m: Sys)
    requires Reachable(m) && Settled(m)
    ensures Inv(m) && m.replay.Replayed?
    ensures ExactForever(m) <==> Complete(m)
  {
    ReachableInv(m);
    CompleteIsSeamless(m);
    if Complete(m) {
      SeamlessForever(m);
    } else if !Seamless(m.initiator, []) {
      SeamShows(m, Initiator);
    } else {
      SeamShows(m, Responder);
    }
  }

  /** If either window stayed empty -- the initiator took nothing beyond its frame, or the responder put
      nothing beyond its retransmission -- the stream stays exact if and only if both did and the
      responder left nothing on the relay. */
  lemma ExactIffNoWindow(m: Sys)
    requires Reachable(m) && Settled(m) && m.frame.Frame? && m.replay.Replayed?
    requires m.responder.relay.read == m.frame.recv || m.replay.at == |m.responder.relay.sent|
    ensures ExactForever(m) <==>
            && m.initiator.relay.read == |m.initiator.relay.sent|
            && m.responder.relay.read == m.frame.recv
            && m.replay.at == |m.responder.relay.sent|
  {
    MigrationExactIff(m);
    var r := m.responder.relay;
    assert r.sent[m.frame.recv..] == r.sent[m.frame.recv..|r.sent|];
  }

  /** A checkpoint applied during a migration makes the retransmission impossible if and only if it was
      so already, or it acknowledges bytes beyond the frame's position: bytes the initiator had read
      but not counted when it took its snapshot. */
  lemma AckDuringMigration(m: Sys, ack: nat)
    requires Reachable(m) && m.frame.Frame? && m.replay.NotYet? && Enabled(m, Ack(Responder, ack))
    ensures Enabled(Do(m, Ack(Responder, ack)), Retransmit) <==>
            Enabled(m, Retransmit) && Min(ack, m.responder.state.sent) <= m.frame.recv
    ensures Enabled(Do(m, Ack(Responder, ack)), Retransmit) ==>
              Do(Do(m, Ack(Responder, ack)), Retransmit).replay == Do(m, Retransmit).replay
  {
    ReachableInv(m);
    CountersAck(m.responder, ack, m.frame.recv);
  }

  lemma CountersAck(r: End, ack: nat, pos: nat)
    requires Counters(r)
    ensures var st := r.state.OnCheckpointFromPeer(ack);
            && st.sent == r.state.sent
            && (st.RetransmitFrom(pos).Bytes? <==>
                r.state.RetransmitFrom(pos).Bytes? && Min(ack, r.state.sent) <= pos)
            && (st.RetransmitFrom(pos).Bytes? ==> st.RetransmitFrom(pos) == r.state.RetransmitFrom(pos))
  {
    AckedRetransmit(r.state, r.log[..|r.log| - |r.writer.Lag()|], ack, pos);
  }

  lemma AckedRetransmit(st: State, log: seq<Byte>, ack: nat, pos: nat)
    requires st.Tracks(log)
    ensures st.sent == st.OnCheckpointFromPeer(ack).sent == |log|
    ensures st.OnCheckpointFromPeer(ack).RetransmitFrom(pos).Bytes? <==>
            st.RetransmitFrom(pos).Bytes? && Min(ack, |log|) <= pos
    ensures st.OnCheckpointFromPeer(ack).RetransmitFrom(pos).Bytes? ==>
              st.OnCheckpointFromPeer(ack).RetransmitFrom(pos) == st.RetransmitFrom(pos)
  {
    CheckpointTracks(st, log, ack);
    RetransmitAnywhere(st, log, pos);
    RetransmitAnywhere(st.OnCheckpointFromPeer(ack), log, pos);
  }

  // ---- What the responder could check ----

  /** The initiator is done with the relay and moved no byte after its snapshot. */
  predicate InitiatorQuiescent(m: Sys) {
    && m.frame.Frame? && m.initiator.OffRelay()
    && m.responder.relay.read == m.frame.recv && |m.initiator.relay.sent| == m.frame.sent
  }

  /** No call of the responder is about to touch the relay, and its ring is up to date. */
  predicate ResponderQuiescent(m: Sys) {
    m.responder.writer.Idle? && m.responder.reader != Using(Relay)
  }

  /** handleDirectStream, with nothing in between. */
  function Accept(m: Sys): Sys
    requires Enabled(m, Retransmit) && !m.responder.moved
  {
    Do(Do(m, Retransmit), SwapResponder)
  }

  lemma ReachableFollows(m: Sys, t: Sys)
    requires Reachable(m) && Follows(m, t)
    ensures Reachable(t)
  {
    var start, a :| OnRelay(start) && Legal(start, a) && m == After(start, a);
    var b :| Legal(m, b) && After(m, b) == t;
    Concat(start, a, b);
  }

  lemma {:induction false} Concat(m: Sys, a: seq<Step>, b: seq<Step>)
    requires Legal(m, a) && Legal(After(m, a), b)
    ensures Legal(m, a + b) && After(m, a + b) == After(After(m, a), b)
    decreases |a|
  {
    if a == [] {
      assert a + b == b;
    } else {
      assert (a + b)[0] == a[0] && (a + b)[1..] == a[1..] + b;
      Concat(Do(m, a[0]), a[1..], b);
    }
  }

  lemma Waiting(m: Sys)
    requires Inv(m) && m.frame.Frame? && m.replay.NotYet?
    ensures !m.responder.moved
    ensures m.responder.log == m.responder.relay.sent
    ensures |m.responder.got| == m.initiator.relay.read
    ensures m.responder.writer.Idle? ==> m.responder.state.sent == |m.responder.log|
  {
  }

  /** The responder could tell from the frame: behind a quiescent initiator, accepting at once keeps
      the stream exact if and only if everything up to the frame's position has been received. The
      code carries that position and never compares it. */
  lemma AcceptExactIff(m: Sys)
    requires Reachable(m) && Enabled(m, Retransmit) && InitiatorQuiescent(m) && ResponderQuiescent(m)
    ensures !m.responder.moved && Reachable(Accept(m)) && Settled(Accept(m))
    ensures ExactForever(Accept(m)) <==> |m.responder.got| == m.frame.sent
  {
    ReachableInv(m);
    Waiting(m);
    FollowsNowhere(m);
    var t := Onward(m, m, Retransmit);
    t := Onward(m, t, SwapResponder);
    ReachableFollows(m, t);
    ExactIffNoWindow(t);
  }

  /** The responder's application writes while the responder is accepting: between the retransmission
      and the swap, or in a call that fetched the transport before the swap and writes after it. */
  function AcceptWhileWriting(m: Sys, bytes: seq<Byte>, late: bool): Sys
    requires Enabled(m, Retransmit) && !m.responder.moved && m.responder.writer.Idle?
  {
    var a := Do(Do(m, Retransmit), StartWrite(Responder));
    if late then Do(Do(a, SwapResponder), Put(Responder, bytes))
    else Do(Do(a, Put(Responder, bytes)), SwapResponder)
  }

  lemma AcceptWhileWritingIs(m: Sys, bytes: seq<Byte>, late: bool)
    requires Inv(m) && Enabled(m, Retransmit) && !m.responder.moved && m.responder.writer.Idle?
    ensures var t := AcceptWhileWriting(m, bytes, late);
            && Follows(m, t) && t.initiator == m.initiator && t.frame == m.frame
            && t.replay.Replayed? && t.replay.at == m.responder.state.sent
            && t.responder.relay == Chan(m.responder.relay.sent + bytes, m.responder.relay.read)
            && t.responder.direct == Do(m, Retransmit).responder.direct
            && t.responder.log == m.responder.log + bytes
            && t.responder.moved && t.responder.writer.Settling? && t.responder.reader == m.responder.reader
  {
    FollowsNowhere(m);
    var t := Onward(m, m, Retransmit);
    t := Onward(m, t, StartWrite(Responder));
    if late {
      t := Onward(m, t, SwapResponder);
      t := Onward(m, t, Put(Responder, bytes));
    } else {
      t := Onward(m, t, Put(Responder, bytes));
      t := Onward(m, t, SwapResponder);
    }
  }

  /** Bytes written that way are lost, however well everything else is timed, and only they: what the
      initiator reads, now or later, is what the responder wrote before. */
  lemma LateWriteIsLost(m: Sys, bytes: seq<Byte>, late: bool)
    requires Reachable(m) && Enabled(m, Retransmit) && InitiatorQuiescent(m) && ResponderQuiescent(m)
    requires |m.responder.got| == m.frame.sent
    ensures !m.responder.moved
    ensures var t := AcceptWhileWriting(m, bytes, late);
            && Reachable(t) && Settled(t) && (ExactForever(t) <==> bytes == [])
            && t.responder.log == m.responder.log + bytes
            && t.responder.direct.read <= |t.responder.direct.sent|
            && t.initiator.got + t.responder.direct.sent[t.responder.direct.read..] == m.responder.log
  {
    ReachableInv(m);
    Waiting(m);
    AcceptWhileWritingIs(m, bytes, late);
    var t := AcceptWhileWriting(m, bytes, late);
    ReachableFollows(m, t);
    ExactIffNoWindow(t);
    Undisturbed(m);
  }

  /** What the initiator has read and the retransmission make up the responder's log. */
  lemma Undisturbed(m: Sys)
    requires Inv(m) && Enabled(m, Retransmit) && InitiatorQuiescent(m) && ResponderQuiescent(m)
    ensures var d := Do(m, Retransmit).responder.direct;
            d.read <= |d.sent| && m.initiator.got + d.sent[d.read..] == m.responder.log
  {
    var t := Do(m, Retransmit);
    Waiting(m);
    StepInv(m, Retransmit);
    Repaired(t);
  }

  function IdleEnd(cap: nat, sent: seq<Byte>): End {
    End(sent, [], NewState(cap).OnWrite(sent), Chan(sent, 0), Chan([], 0), false, Idle, Idle)
  }

  lemma IdleCounters(cap: nat, sent: seq<Byte>)
    ensures Counters(IdleEnd(cap, sent))
  {
    WriteTracks(NewState(cap), [], sent);
    assert [] + sent == sent == sent[..|sent|];
  }

  lemma IdleOnRelay(cap: nat, sent: seq<Byte>)
    ensures OnRelay(Sys(IdleEnd(cap, sent), IdleEnd(cap, []), NoFrame, NotYet))
  {
    IdleCounters(cap, sent);
    IdleCounters(cap, []);
  }

  lemma IdleCounts(cap: nat, sent: seq<Byte>)
    ensures IdleEnd(cap, sent).state.sent == |sent| && IdleEnd(cap, sent).state.received == 0
    ensures sent == [] ==> IdleEnd(cap, sent).state.RetransmitFrom(0).Bytes?
  {
  }

  /** Between two idle ends the initiator goes first. */
  lemma GoFirst(i: End, r: End) returns (m: Sys)
    requires OnRelay(Sys(i, r, NoFrame, NotYet))
    requires i.writer.Idle? && i.reader.Idle? && r.writer.Idle? && r.reader.Idle?
    requires |i.relay.sent| == i.state.sent && r.relay.read == i.state.received
    requires r.state.RetransmitFrom(i.state.received).Bytes?
    ensures Reachable(m) && Enabled(m, Retransmit) && InitiatorQuiescent(m) && ResponderQuiescent(m)
    ensures m.initiator == i.(moved := true) && m.responder == r && m.frame.sent == i.state.sent
  {
    var start := Sys(i, r, NoFrame, NotYet);
    OnRelayInv(start);
    FollowsNowhere(start);
    m := Onward(start, start, Snapshot);
    m := Onward(start, m, SwapInitiator);
    var steps :| Legal(start, steps) && After(start, steps) == m;
  }

  /** Two idle ends with `sent` still on its way to the responder. */
  lemma InitiatorFirst(cap: nat, sent: seq<Byte>) returns (m: Sys)
    ensures Reachable(m) && Enabled(m, Retransmit) && InitiatorQuiescent(m) && ResponderQuiescent(m)
    ensures m.initiator.log == sent && m.responder.got == [] && m.frame.sent == |sent|
  {
    IdleOnRelay(cap, sent);
    IdleCounts(cap, sent);
    IdleCounts(cap, []);
    m := GoFirst(IdleEnd(cap, sent), IdleEnd(cap, []));
  }

  /** So a byte in flight when the responder accepts is lost, */
  lemma InFlightWitness(cap: nat, b: Byte) returns (t: Sys)
    ensures Reachable(t) && Settled(t) && !ExactForever(t)
  {
    var m := InitiatorFirst(cap, [b]);
    AcceptExactIff(m);
    t := Accept(m);
  }

  /** and so is one it writes while accepting. */
  lemma LateWitness(cap: nat, b: Byte) returns (t: Sys)
    ensures Reachable(t) && Settled(t) && !ExactForever(t)
  {
    var m := InitiatorFirst(cap, []);
    LateWriteIsLost(m, [b], false);
    t := AcceptWhileWriting(m, [b], false);
  }
}
