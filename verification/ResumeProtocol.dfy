/**
 The stream-resume protocol as a two-party step system.

 Each side holds one resumable stream. A link is one spliced path through the relay: a first-in
 first-out channel in each direction that may break at any moment and lose whatever it still
 carries. Losing links, reconnecting and resuming may happen any number of times, and checkpoint
 frames may arrive late, repeatedly, out of order or never.

 The code holds no lock across the transport call and the counter update that follows it, so each of
 Read and Write is two steps here: the bytes move, and later the counter moves.
 */
module ResumeProtocol {
  import opened Common
  import opened ResumeState

  datatype Side = Left | Right

  function Peer(x: Side): Side {
    if x == Left then Right else Left
  }

  /** Where a stream stands with respect to its transport. */
  datatype Phase =
    | Live(link: nat)                   // reads and writes go to this link
    | Closed                            // the old connection is closed
    | Offered(recv: nat)                // STREAM_RESUME written with this position, not yet paired
    | Matched(link: nat)                // paired by the relay; the echo is there to be read
    | Replayed(link: nat)               // the gap is written; SwapInner has not run yet
  {
    predicate Attached() {
      Live? || Matched? || Replayed?
    }
  }

  datatype Checkpoint = Checkpoint(myPos: nat, peerAck: nat)

  datatype Endpoint = Endpoint(
    log: seq<Byte>,          // every byte a transport accepted from this side
    got: seq<Byte>,          // every byte a transport handed to this side
    pend: seq<Byte>,         // accepted, but OnWrite has not run yet
    uncounted: nat,          // handed over, but OnRead has not run yet
    state: State,
    phase: Phase,
    lost: bool,              // abandoned
    frames: set<Checkpoint>) // every checkpoint this side ever emitted
  {
    /** No counter lags behind the bytes. */
    predicate Quiet() {
      pend == [] && uncounted == 0
    }
  }

  datatype Chan = Chan(queue: seq<Byte>, broken: bool)

  // recvLeft and recvRight are the positions carried by the two paired STREAM_RESUME frames.
  datatype Link = Link(fromLeft: Chan, fromRight: Chan, recvLeft: nat, recvRight: nat)
  {
    function From(x: Side): Chan {
      if x == Left then fromLeft else fromRight
    }

    function Recv(x: Side): nat {
      if x == Left then recvLeft else recvRight
    }

    function Set(x: Side, c: Chan): Link {
      if x == Left then this.(fromLeft := c) else this.(fromRight := c)
    }
  }

  datatype Sys = Sys(left: Endpoint, right: Endpoint, links: seq<Link>)
  {
    function End(x: Side): Endpoint {
      if x == Left then left else right
    }

    function Set(x: Side, e: Endpoint): Sys {
      if x == Left then this.(left := e) else this.(right := e)
    }

    function Queue(l: nat, from: Side): seq<Byte>
      requires l < |links|
    {
      links[l].From(from).queue
    }

    function Broken(l: nat, from: Side): bool
      requires l < |links|
    {
      links[l].From(from).broken
    }

    function SetChan(l: nat, from: Side, c: Chan): Sys
      requires l < |links|
    {
      this.(links := links[l := links[l].Set(from, c)])
    }

    /** A transport write: a broken channel swallows what it is given. */
    function Send(l: nat, from: Side, bytes: seq<Byte>): Sys
      requires l < |links|
    {
      if Broken(l, from) then this else SetChan(l, from, Chan(Queue(l, from) + bytes, false))
    }
  }

  function FreshLink(recvLeft: nat, recvRight: nat): Link {
    Link(Chan([], false), Chan([], false), recvLeft, recvRight)
  }

  function Start(cap: nat): Endpoint {
    Endpoint([], [], [], 0, NewState(cap), Live(0), false, {})
  }

  function Init(capLeft: nat, capRight: nat): Sys {
    Sys(Start(capLeft), Start(capRight), [FreshLink(0, 0)])
  }

  // ---- Steps ----

  datatype Step =
    | Put(x: Side, bytes: seq<Byte>)            // inner.Write accepts bytes
    | Logged(x: Side)                           // the OnWrite that follows
    | Take(x: Side, n: nat)                     // inner.Read hands over n bytes
    | Counted(x: Side)                          // the OnRead that follows
    | Break(l: nat, from: Side, keep: nat)      // one direction dies; at most a prefix survives
    | CloseInner(x: Side)                       // Reconnect closes the dead connection
    | Offer(x: Side)                            // Resume writes STREAM_RESUME
    | Match                                     // the relay pairs the two frames
    | Replay(x: Side)                           // completeResume succeeds
    | ResumeFails(x: Side, n: nat)              // Resume errs after n bytes of the gap; forgetStream
    | Swap(x: Side)                             // SwapInner
    | Emit(x: Side)                             // emitOnce for this stream
    | Receive(x: Side, frame: Checkpoint)       // applyCheckpoint
    | Abandon(x: Side)                          // Close or forgetStream

  function GapAt(s: Sys, x: Side): Gap
    requires s.End(x).phase.Matched? && s.End(x).phase.link < |s.links|
  {
    s.End(x).state.RetransmitFrom(s.links[s.End(x).phase.link].Recv(Peer(x)))
  }

  predicate Enabled(s: Sys, step: Step) {
    match step
    case Put(x, bytes) =>
      var e := s.End(x);
      e.phase.Live? && e.phase.link < |s.links| && !e.lost && e.pend == [] && bytes != []
    case Logged(x) => s.End(x).pend != []
    case Take(x, n) =>
      var e := s.End(x);
      && e.phase.Live? && e.phase.link < |s.links| && !e.lost && e.uncounted == 0
      && 0 < n <= |s.Queue(e.phase.link, Peer(x))|
    case Counted(x) => s.End(x).uncounted > 0
    case Break(l, from, keep) => l < |s.links| && keep <= |s.Queue(l, from)|
    case CloseInner(x) => s.End(x).phase.Live?
    case Offer(x) => s.End(x).phase.Closed?
    case Match => s.left.phase.Offered? && s.right.phase.Offered?
    case Replay(x) =>
      var e := s.End(x);
      e.phase.Matched? && e.phase.link < |s.links| && GapAt(s, x).Bytes?
    case ResumeFails(x, n) =>
      var e := s.End(x);
      || (e.phase.Offered? && n == 0)
      || (e.phase.Matched? && e.phase.link < |s.links|
          && n <= if GapAt(s, x).Bytes? then |GapAt(s, x).bytes| else 0)
    case Swap(x) => s.End(x).phase.Replayed?
    case Emit(x) => true
    case Receive(x, frame) => frame in s.End(Peer(x)).frames
    case Abandon(x) => true
  }

  function Do(s: Sys, step: Step): Sys
    requires Enabled(s, step)
  {
    match step
    case Put(x, bytes) =>
      var e := s.End(x);
      s.Send(e.phase.link, x, bytes).Set(x, e.(log := e.log + bytes, pend := bytes))
    case Logged(x) =>
      var e := s.End(x);
      s.Set(x, e.(state := e.state.OnWrite(e.pend), pend := []))
    case Take(x, n) =>
      var e := s.End(x);
      var c := s.links[e.phase.link].From(Peer(x));
      s.SetChan(e.phase.link, Peer(x), c.(queue := c.queue[n..]))
       .Set(x, e.(got := e.got + c.queue[..n], uncounted := n))
    case Counted(x) =>
      var e := s.End(x);
      s.Set(x, e.(state := e.state.OnRead(e.uncounted), uncounted := 0))
    case Break(l, from, keep) =>
      s.SetChan(l, from, Chan(s.Queue(l, from)[..keep], true))
    case CloseInner(x) => s.Set(x, s.End(x).(phase := Closed))
    case Offer(x) =>
      var e := s.End(x);
      s.Set(x, e.(phase := Offered(e.state.received)))
    case Match =>
      var l := |s.links|;
      Sys(s.left.(phase := Matched(l)), s.right.(phase := Matched(l)),
          s.links + [FreshLink(s.left.phase.recv, s.right.phase.recv)])
    case Replay(x) =>
      var l := s.End(x).phase.link;
      s.Send(l, x, GapAt(s, x).bytes).Set(x, s.End(x).(phase := Replayed(l)))
    case ResumeFails(x, n) =>
      var e := s.End(x).(phase := Closed, lost := true);
      (if n == 0 then s else s.Send(s.End(x).phase.link, x, GapAt(s, x).bytes[..n])).Set(x, e)
    case Swap(x) => s.Set(x, s.End(x).(phase := Live(s.End(x).phase.link)))
    case Emit(x) =>
      var e := s.End(x);
      s.Set(x, e.(frames := e.frames + {Checkpoint(e.state.sent, e.state.received)}))
    case Receive(x, frame) =>
      var e := s.End(x);
      s.Set(x, e.(state := e.state.OnCheckpointFromPeer(frame.peerAck)))
    case Abandon(x) => s.Set(x, s.End(x).(lost := true))
  }

  predicate Legal(s: Sys, steps: seq<Step>)
    decreases |steps|
  {
    steps == [] || (Enabled(s, steps[0]) && Legal(Do(s, steps[0]), steps[1..]))
  }

  function After(s: Sys, steps: seq<Step>): Sys
    requires Legal(s, steps)
    decreases |steps|
  {
    if steps == [] then s else After(Do(s, steps[0]), steps[1..])
  }

  /** Resume reads the two counters while they are up to date: the received counter when it writes
      STREAM_RESUME, the ring when it retransmits. */
  predicate Settled(s: Sys, step: Step) {
    && (step.Offer? ==> s.End(step.x).uncounted == 0)
    && (step.Replay? || (step.ResumeFails? && step.n > 0) ==> s.End(step.x).pend == [])
  }

  predicate Disciplined(s: Sys, steps: seq<Step>)
    requires Legal(s, steps)
    decreases |steps|
  {
    || steps == []
    || (Settled(s, steps[0]) && Disciplined(Do(s, steps[0]), steps[1..]))
  }

  // ---- The invariant, one direction at a time ----

  /** Counters and ring follow the bytes, and no ack emitted is ahead of its sender's counter. */
  ghost predicate Accounts(e: Endpoint) {
    && |e.pend| <= |e.log|
    && e.log[|e.log| - |e.pend|..] == e.pend
    && e.state.Tracks(e.log[..|e.log| - |e.pend|])
    && e.state.received + e.uncounted == |e.got|
    && (forall f <- e.frames :: f.peerAck <= e.state.received)
  }

  /** What one endpoint alone keeps. */
  ghost predicate Sound(e: Endpoint) {
    && Accounts(e)
    && (e.phase.Offered? || e.phase.Matched? || e.phase.Replayed? ==> e.uncounted == 0)
    && (e.phase.Replayed? ==> e.pend == [])
    && (e.phase.Offered? ==> e.phase.recv == |e.got|)
  }

  /** What the bytes written by side `w` keep. */
  ghost predicate Flow(s: Sys, w: Side) {
    var W, R := s.End(w), s.End(Peer(w));
    && (W.phase.Attached() ==> W.phase.link < |s.links|)
    && (R.phase.Attached() ==> R.phase.link < |s.links|)
    && R.got <= W.log
    && W.state.peerAck <= R.state.received
    && (W.phase.Matched? ==> s.links[W.phase.link].Recv(Peer(w)) == |R.got|)
    && (R.phase.Attached() ==>
          var l := R.phase.link;
          && R.got + s.Queue(l, w) <= W.log
          && (W.phase.Matched? ==> W.phase.link == l && s.Queue(l, w) == [])
          && ((W.phase.Replayed? || W.phase.Live?) && W.phase.link == l && !s.Broken(l, w)
              ==> R.got + s.Queue(l, w) == W.log))
  }

  ghost predicate Inv(s: Sys) {
    Sound(s.left) && Sound(s.right) && Flow(s, Left) && Flow(s, Right)
  }

  lemma InitInv(capLeft: nat, capRight: nat)
    ensures Inv(Init(capLeft, capRight))
  {
  }

  // ---- Each step keeps it ----

  lemma BothSides(s: Sys, x: Side)
    requires Sound(s.End(x)) && Sound(s.End(Peer(x))) && Flow(s, x) && Flow(s, Peer(x))
    ensures Inv(s)
  {
  }

  lemma PutAccounts(e: Endpoint, bytes: seq<Byte>)
    requires Accounts(e) && e.pend == []
    ensures Accounts(e.(log := e.log + bytes, pend := bytes))
  {
    assert (e.log + bytes)[..|e.log|] == e.log[..|e.log|];
  }

  lemma LoggedAccounts(e: Endpoint)
    requires Accounts(e)
    ensures Accounts(e.(state := e.state.OnWrite(e.pend), pend := []))
  {
    var known := e.log[..|e.log| - |e.pend|];
    WriteTracks(e.state, known, e.pend);
    assert known + e.pend == e.log == e.log[..|e.log|];
  }

  lemma TakeAccounts(e: Endpoint, bytes: seq<Byte>)
    requires Accounts(e) && e.uncounted == 0
    ensures Accounts(e.(got := e.got + bytes, uncounted := |bytes|))
  {
  }

  lemma CountedAccounts(e: Endpoint)
    requires Accounts(e)
    ensures Accounts(e.(state := e.state.OnRead(e.uncounted), uncounted := 0))
  {
  }

  lemma EmitAccounts(e: Endpoint)
    requires Accounts(e)
    ensures Accounts(e.(frames := e.frames + {Checkpoint(e.state.sent, e.state.received)}))
  {
  }

  lemma ReceiveAccounts(e: Endpoint, ack: nat)
    requires Accounts(e)
    ensures Accounts(e.(state := e.state.OnCheckpointFromPeer(ack)))
  {
    CheckpointTracks(e.state, e.log[..|e.log| - |e.pend|], ack);
  }

  /** A direction does not depend on the other direction's channel. */
  lemma Reframed(s: Sys, t: Sys, w: Side)
    requires Flow(s, w)
    requires |t.links| == |s.links|
    requires forall l | 0 <= l < |s.links| ::
               t.links[l].From(w) == s.links[l].From(w) && t.links[l].Recv(Peer(w)) == s.links[l].Recv(Peer(w))
    requires t.End(w).phase == s.End(w).phase && t.End(Peer(w)).phase == s.End(Peer(w)).phase
    requires t.End(w).log == s.End(w).log && t.End(Peer(w)).got == s.End(Peer(w)).got
    requires t.End(w).state.peerAck <= t.End(Peer(w)).state.received
    ensures Flow(t, w)
  {
  }

  lemma PutFlow(s: Sys, x: Side, bytes: seq<Byte>)
    requires Flow(s, x) && Enabled(s, Put(x, bytes))
    ensures Flow(Do(s, Put(x, bytes)), x)
  {
    var W, R := s.End(x), s.End(Peer(x));
    if R.phase.Attached() {
      var l := R.phase.link;
      assert R.got + (s.Queue(l, x) + bytes) == (R.got + s.Queue(l, x)) + bytes;
    }
  }

  lemma PutFlowBack(s: Sys, x: Side, bytes: seq<Byte>)
    requires Inv(s) && Enabled(s, Put(x, bytes))
    ensures Flow(Do(s, Put(x, bytes)), Peer(x))
  {
    Reframed(s, Do(s, Put(x, bytes)), Peer(x));
  }

  lemma PutInv(s: Sys, x: Side, bytes: seq<Byte>)
    requires Inv(s) && Enabled(s, Put(x, bytes))
    ensures Inv(Do(s, Put(x, bytes)))
  {
    PutAccounts(s.End(x), bytes);
    PutFlow(s, x, bytes);
    PutFlowBack(s, x, bytes);
    BothSides(Do(s, Put(x, bytes)), x);
  }

  /** Steps that move neither bytes nor phases. */
  lemma TouchedInv(s: Sys, x: Side, e: Endpoint)
    requires Inv(s) && Accounts(e)
    requires e.log == s.End(x).log && e.got == s.End(x).got && e.phase == s.End(x).phase
    requires e.uncounted <= s.End(x).uncounted && (s.End(x).pend == [] ==> e.pend == [])
    requires s.End(x).state.received <= e.state.received
    requires e.state.peerAck <= s.End(Peer(x)).state.received
    ensures Inv(s.Set(x, e))
  {
    var t := s.Set(x, e);
    assert Sound(s.End(x)) && Sound(e);
    Reframed(s, t, x);
    Reframed(s, t, Peer(x));
    BothSides(t, x);
  }

  lemma LoggedInv(s: Sys, x: Side)
    requires Inv(s) && Enabled(s, Logged(x))
    ensures Inv(Do(s, Logged(x)))
  {
    var e := s.End(x);
    PeerAckBound(s, x);
    LoggedAccounts(e);
    TouchedInv(s, x, e.(state := e.state.OnWrite(e.pend), pend := []));
  }

  lemma TakeFlow(s: Sys, x: Side, n: nat)
    requires Inv(s) && Enabled(s, Take(x, n))
    ensures Flow(Do(s, Take(x, n)), Peer(x))
  {
    var q := s.Queue(s.End(x).phase.link, Peer(x));
    assert q == q[..n] + q[n..];
    assert s.End(x).got + q == (s.End(x).got + q[..n]) + q[n..];
  }

  lemma TakeFlowBack(s: Sys, x: Side, n: nat)
    requires Inv(s) && Enabled(s, Take(x, n))
    ensures Flow(Do(s, Take(x, n)), x)
  {
    Reframed(s, Do(s, Take(x, n)), x);
  }

  lemma TakeInv(s: Sys, x: Side, n: nat)
    requires Inv(s) && Enabled(s, Take(x, n))
    ensures Inv(Do(s, Take(x, n)))
  {
    TakeFlow(s, x, n);
    TakeFlowBack(s, x, n);
    TakeAccounts(s.End(x), s.Queue(s.End(x).phase.link, Peer(x))[..n]);
    BothSides(Do(s, Take(x, n)), x);
  }

  lemma PeerAckBound(s: Sys, x: Side)
    requires Inv(s)
    ensures s.End(x).state.peerAck <= s.End(Peer(x)).state.received && Sound(s.End(x))
  {
    assert Flow(s, x);
  }

  lemma CountedInv(s: Sys, x: Side)
    requires Inv(s) && Enabled(s, Counted(x))
    ensures Inv(Do(s, Counted(x)))
  {
    var e := s.End(x);
    PeerAckBound(s, x);
    CountedAccounts(e);
    TouchedInv(s, x, e.(state := e.state.OnRead(e.uncounted), uncounted := 0));
  }

  lemma BreakFlow(s: Sys, l: nat, from: Side, keep: nat, w: Side)
    requires Flow(s, w) && Enabled(s, Break(l, from, keep))
    ensures Flow(Do(s, Break(l, from, keep)), w)
  {
  }

  lemma BreakInv(s: Sys, l: nat, from: Side, keep: nat)
    requires Inv(s) && Enabled(s, Break(l, from, keep))
    ensures Inv(Do(s, Break(l, from, keep)))
  {
    BreakFlow(s, l, from, keep, Left);
    BreakFlow(s, l, from, keep, Right);
  }

  lemma DetachedInv(s: Sys, x: Side, lost: bool)
    requires Inv(s)
    ensures Inv(s.Set(x, s.End(x).(phase := Closed, lost := lost)))
  {
  }

  lemma OfferFlow(s: Sys, x: Side, w: Side)
    requires Flow(s, w) && Enabled(s, Offer(x))
    ensures Flow(Do(s, Offer(x)), w)
  {
  }

  lemma OfferInv(s: Sys, x: Side)
    requires Inv(s) && Enabled(s, Offer(x)) && s.End(x).uncounted == 0
    ensures Inv(Do(s, Offer(x)))
  {
    assert Sound(s.End(x)) && Sound(s.End(Peer(x)));
    OfferSound(s.End(x));
    OfferFlow(s, x, x);
    OfferFlow(s, x, Peer(x));
    BothSides(Do(s, Offer(x)), x);
  }

  lemma OfferSound(e: Endpoint)
    requires Sound(e) && e.uncounted == 0
    ensures Sound(e.(phase := Offered(e.state.received)))
  {
  }

  lemma MatchInv(s: Sys)
    requires Inv(s) && Enabled(s, Match)
    ensures Inv(Do(s, Match))
  {
  }

  /** What an endpoint has logged from `pos` on, if that fits its ring. */
  function LoggedFrom(e: Endpoint, pos: nat): Gap
    requires e.state.sent <= |e.log|
  {
    if e.state.sent < pos then BeyondSent
    else if e.state.sent - pos <= e.state.cap then Bytes(e.log[pos..e.state.sent])
    else BeforeRing
  }

  lemma LoggedGap(e: Endpoint, pos: nat)
    requires Accounts(e) && e.state.peerAck <= pos
    ensures e.state.RetransmitFrom(pos) == LoggedFrom(e, pos)
  {
    var known := e.log[..|e.log| - |e.pend|];
    if pos <= |known| {
      RetransmitExact(e.state, known, pos);
      assert known[pos..] == e.log[pos..e.state.sent];
    }
  }

  /** A paired side finds exactly the bytes it has logged and its peer is missing, unless they do not
      fit its ring. */
  lemma GapIsBacklog(s: Sys, x: Side)
    requires Inv(s) && s.End(x).phase.Matched?
    ensures s.End(x).phase.link < |s.links|
    ensures |s.End(Peer(x)).got| <= |s.End(x).log| && s.End(x).state.sent == |s.End(x).log| - |s.End(x).pend|
    ensures GapAt(s, x) == LoggedFrom(s.End(x), |s.End(Peer(x)).got|)
  {
    assert Flow(s, x) && Sound(s.End(x)) && Sound(s.End(Peer(x)));
    LoggedGap(s.End(x), |s.End(Peer(x)).got|);
  }

  lemma ReplayFlow(s: Sys, x: Side, bytes: seq<Byte>, e: Endpoint)
    requires Inv(s) && s.End(x).phase.Matched? && s.End(x).phase.link < |s.links|
    requires s.End(Peer(x)).got + bytes <= s.End(x).log
    requires e == s.End(x).(phase := e.phase, lost := e.lost)
    requires e.phase.Closed?
             || (e.phase == Replayed(s.End(x).phase.link) && s.End(Peer(x)).got + bytes == s.End(x).log)
    ensures Flow(s.Send(s.End(x).phase.link, x, bytes).Set(x, e), x)
  {
    assert [] + bytes == bytes;
  }

  lemma ReplayFlowBack(s: Sys, x: Side, bytes: seq<Byte>, e: Endpoint)
    requires Flow(s, Peer(x)) && s.End(x).phase.Matched? && s.End(x).phase.link < |s.links|
    requires e == s.End(x).(phase := e.phase, lost := e.lost)
    requires e.phase.Closed? || e.phase == Replayed(s.End(x).phase.link)
    ensures Flow(s.Send(s.End(x).phase.link, x, bytes).Set(x, e), Peer(x))
  {
  }

  lemma SentAndSet(s: Sys, x: Side, l: nat, bytes: seq<Byte>, e: Endpoint)
    requires l < |s.links|
    ensures s.Send(l, x, bytes).Set(x, e).End(x) == e
    ensures s.Send(l, x, bytes).Set(x, e).End(Peer(x)) == s.End(Peer(x))
  {
  }

  lemma ReplaySends(s: Sys, x: Side, bytes: seq<Byte>, e: Endpoint)
    requires Inv(s) && s.End(x).phase.Matched? && s.End(x).phase.link < |s.links|
    requires s.End(Peer(x)).got + bytes <= s.End(x).log
    requires e == s.End(x).(phase := e.phase, lost := e.lost)
    requires e.phase.Closed?
             || (&& e.phase == Replayed(s.End(x).phase.link) && e.pend == []
                 && s.End(Peer(x)).got + bytes == s.End(x).log)
    ensures Inv(s.Send(s.End(x).phase.link, x, bytes).Set(x, e))
  {
    assert Sound(e) by {
      assert Sound(s.End(x));
    }
    SentAndSet(s, x, s.End(x).phase.link, bytes, e);
    ReplayFlow(s, x, bytes, e);
    ReplayFlowBack(s, x, bytes, e);
    BothSides(s.Send(s.End(x).phase.link, x, bytes).Set(x, e), x);
  }

  /** With every write logged, the gap is all that the peer is missing. */
  lemma GapCompletes(s: Sys, x: Side)
    requires Inv(s) && s.End(x).phase.Matched? && s.End(x).pend == []
    ensures s.End(x).phase.link < |s.links|
    ensures GapAt(s, x).Bytes? ==> s.End(Peer(x)).got + GapAt(s, x).bytes == s.End(x).log
  {
    GapIsBacklog(s, x);
    assert Flow(s, x);
  }

  lemma ReplayInv(s: Sys, x: Side)
    requires Inv(s) && Enabled(s, Replay(x)) && s.End(x).pend == []
    ensures Inv(Do(s, Replay(x)))
  {
    GapCompletes(s, x);
    ReplaySends(s, x, GapAt(s, x).bytes, Do(s, Replay(x)).End(x));
  }

  lemma ResumeFailsInv(s: Sys, x: Side, n: nat)
    requires Inv(s) && Enabled(s, ResumeFails(x, n)) && (n > 0 ==> s.End(x).pend == [])
    ensures Inv(Do(s, ResumeFails(x, n)))
  {
    if n == 0 {
      DetachedInv(s, x, true);
    } else {
      GapCompletes(s, x);
      PartialReplay(s, x, GapAt(s, x).bytes, n);
    }
  }

  lemma PartialReplay(s: Sys, x: Side, gap: seq<Byte>, n: nat)
    requires Inv(s) && s.End(x).phase.Matched? && s.End(x).phase.link < |s.links| && n <= |gap|
    requires s.End(Peer(x)).got + gap == s.End(x).log
    ensures Inv(s.Send(s.End(x).phase.link, x, gap[..n]).Set(x, s.End(x).(phase := Closed, lost := true)))
  {
    ReplaySends(s, x, gap[..n], s.End(x).(phase := Closed, lost := true));
  }

  lemma SwapInv(s: Sys, x: Side)
    requires Inv(s) && Enabled(s, Swap(x))
    ensures Inv(Do(s, Swap(x)))
  {
  }

  lemma EmitInv(s: Sys, x: Side)
    requires Inv(s)
    ensures Inv(Do(s, Emit(x)))
  {
    var e := s.End(x);
    var f := e.(frames := e.frames + {Checkpoint(e.state.sent, e.state.received)});
    assert Do(s, Emit(x)) == s.Set(x, f);
    PeerAckBound(s, x);
    EmitAccounts(e);
    TouchedInv(s, x, f);
  }

  lemma ReceivedAck(s: Sys, x: Side, frame: Checkpoint)
    requires Inv(s) && Enabled(s, Receive(x, frame))
    ensures s.End(x).state.OnCheckpointFromPeer(frame.peerAck).peerAck <= s.End(Peer(x)).state.received
  {
    PeerAckBound(s, x);
    PeerAckBound(s, Peer(x));
  }

  lemma ReceiveInv(s: Sys, x: Side, frame: Checkpoint)
    requires Inv(s) && Enabled(s, Receive(x, frame))
    ensures Inv(Do(s, Receive(x, frame)))
  {
    PeerAckBound(s, x);
    ReceiveAccounts(s.End(x), frame.peerAck);
    ReceivedAck(s, x, frame);
    TouchedInv(s, x, s.End(x).(state := s.End(x).state.OnCheckpointFromPeer(frame.peerAck)));
  }

  lemma AbandonInv(s: Sys, x: Side)
    requires Inv(s)
    ensures Inv(Do(s, Abandon(x)))
  {
    PeerAckBound(s, x);
    TouchedInv(s, x, s.End(x).(lost := true));
  }

  lemma StepInv(s: Sys, step: Step)
    requires Inv(s) && Enabled(s, step)
    requires Settled(s, step)
    ensures Inv(Do(s, step))
  {
    match step
    case Put(x, bytes) => PutInv(s, x, bytes);
    case Logged(x) => LoggedInv(s, x);
    case Take(x, n) => TakeInv(s, x, n);
    case Counted(x) => CountedInv(s, x);
    case Break(l, from, keep) => BreakInv(s, l, from, keep);
    case CloseInner(x) => DetachedInv(s, x, s.End(x).lost);
    case Offer(x) => OfferInv(s, x);
    case Match => MatchInv(s);
    case Replay(x) => ReplayInv(s, x);
    case ResumeFails(x, n) => ResumeFailsInv(s, x, n);
    case Swap(x) => SwapInv(s, x);
    case Emit(x) => EmitInv(s, x);
    case Receive(x, frame) => ReceiveInv(s, x, frame);
    case Abandon(x) => AbandonInv(s, x);
  }

  lemma {:induction false} RunInv(s: Sys, steps: seq<Step>)
    requires Inv(s) && Legal(s, steps) && Disciplined(s, steps)
    ensures Inv(After(s, steps))
    decreases |steps|
  {
    if steps != [] {
      StepInv(s, steps[0]);
      RunInv(Do(s, steps[0]), steps[1..]);
    }
  }

  // ---- What every run keeps ----

  /** The states at the end of some disciplined run. */
  ghost predicate Reachable(s: Sys) {
    exists capLeft: nat, capRight: nat, steps ::
      && Legal(Init(capLeft, capRight), steps)
      && Disciplined(Init(capLeft, capRight), steps)
      && s == After(Init(capLeft, capRight), steps)
  }

  lemma ReachableInv(s: Sys)
    requires Reachable(s)
    ensures Inv(s)
  {
    var capLeft: nat, capRight: nat, steps :|
      && Legal(Init(capLeft, capRight), steps)
      && Disciplined(Init(capLeft, capRight), steps)
      && s == After(Init(capLeft, capRight), steps);
    InitInv(capLeft, capRight);
    RunInv(Init(capLeft, capRight), steps);
  }

  /** Byte exactness: whatever links are lost and however often the sides resume, the bytes a side
      has read are a prefix of the bytes the other side has written. */
  lemma ReadIsPrefixOfWritten(s: Sys, x: Side)
    requires Reachable(s)
    ensures s.End(x).got <= s.End(Peer(x)).log
  {
    ReachableInv(s);
    assert Flow(s, Peer(x));
  }

  /** Conservation: once both sides have replayed onto the same link, what was read plus what is in
      flight is the writer's whole log, as long as that direction is unbroken. */
  lemma NothingIsMissing(s: Sys, w: Side)
    requires Reachable(s)
    requires s.End(w).phase.Live? || s.End(w).phase.Replayed?
    requires s.End(Peer(w)).phase.Live? || s.End(Peer(w)).phase.Replayed?
    requires s.End(w).phase.link == s.End(Peer(w)).phase.link
    ensures var l := s.End(w).phase.link;
            && l < |s.links|
            && (!s.Broken(l, w) ==> s.End(Peer(w)).got + s.Queue(l, w) == s.End(w).log)
  {
    ReachableInv(s);
    assert Flow(s, w);
  }

  // ---- What every run keeps, disciplined or not ----

  predicate Linked(s: Sys) {
    && (s.left.phase.Attached() ==> s.left.phase.link < |s.links|)
    && (s.right.phase.Attached() ==> s.right.phase.link < |s.links|)
  }

  ghost predicate Honest(s: Sys) {
    && Linked(s)
    && Accounts(s.left) && Accounts(s.right)
    && s.left.state.peerAck <= s.right.state.received && s.right.state.peerAck <= s.left.state.received
  }

  lemma LinkedStep(s: Sys, step: Step)
    requires Linked(s) && Enabled(s, step)
    ensures Linked(Do(s, step))
  {
  }

  predicate MovesData(step: Step) {
    step.Put? || step.Take? || step.Logged? || step.Counted? || step.Emit? || step.Receive?
  }

  lemma SteeringStep(s: Sys, step: Step, x: Side)
    requires Enabled(s, step) && !MovesData(step)
    ensures var e := Do(s, step).End(x); e == s.End(x).(phase := e.phase, lost := e.lost)
  {
  }

  lemma DataStepElsewhere(s: Sys, step: Step)
    requires Enabled(s, step) && MovesData(step)
    ensures Do(s, step).End(Peer(step.x)) == s.End(Peer(step.x))
  {
  }

  lemma DataStep(s: Sys, step: Step)
    requires MovesData(step) && Enabled(s, step) && Accounts(s.End(step.x))
    ensures var e, f := s.End(step.x), Do(s, step).End(step.x);
            Accounts(f) && e.state.received <= f.state.received
  {
    var e := s.End(step.x);
    match step
    case Put(x, bytes) => PutAccounts(e, bytes);
    case Logged(x) => LoggedAccounts(e);
    case Take(x, n) => TakeAccounts(e, s.Queue(e.phase.link, Peer(x))[..n]);
    case Counted(x) => CountedAccounts(e);
    case Emit(x) => EmitAccounts(e);
    case Receive(x, frame) => ReceiveAccounts(e, frame.peerAck);
  }

  lemma DataStepAck(s: Sys, step: Step)
    requires MovesData(step) && Enabled(s, step) && Accounts(s.End(Peer(step.x)))
    requires s.End(step.x).state.peerAck <= s.End(Peer(step.x)).state.received
    ensures Do(s, step).End(step.x).state.peerAck <= s.End(Peer(step.x)).state.received
  {
  }

  lemma HonestEnds(s: Sys, x: Side)
    requires Linked(s) && Accounts(s.End(x)) && Accounts(s.End(Peer(x)))
    requires s.End(x).state.peerAck <= s.End(Peer(x)).state.received
    requires s.End(Peer(x)).state.peerAck <= s.End(x).state.received
    ensures Honest(s)
  {
  }

  lemma HonestData(s: Sys, step: Step)
    requires MovesData(step) && Honest(s) && Enabled(s, step)
    ensures Honest(Do(s, step))
  {
    assert Accounts(s.End(step.x)) && Accounts(s.End(Peer(step.x)));
    DataStep(s, step);
    DataStepAck(s, step);
    DataStepElsewhere(s, step);
    LinkedStep(s, step);
    HonestEnds(Do(s, step), step.x);
  }

  lemma HonestStep(s: Sys, step: Step)
    requires Honest(s) && Enabled(s, step)
    ensures Honest(Do(s, step))
  {
    if MovesData(step) {
      HonestData(s, step);
    } else {
      SteeringStep(s, step, Left);
      SteeringStep(s, step, Right);
      LinkedStep(s, step);
    }
  }

  lemma InitHonest(capLeft: nat, capRight: nat)
    ensures Honest(Init(capLeft, capRight))
  {
  }

  lemma {:induction false} HonestRun(s: Sys, steps: seq<Step>)
    requires Honest(s) && Legal(s, steps)
    ensures Honest(After(s, steps))
    decreases |steps|
  {
    if steps != [] {
      HonestStep(s, steps[0]);
      HonestRun(Do(s, steps[0]), steps[1..]);
    }
  }

  /** Every ack `r` ever emitted, or `w` ever recorded from it, is at most what `r` has read; the ring of
      `w` has dropped nothing above that except what its capacity forced out, and holds exactly the
      rest of what was logged. */
  ghost predicate AckedOnlyWhatWasRead(w: Endpoint, r: Endpoint) {
    && (forall c <- r.frames :: c.peerAck <= |r.got|)
    && w.state.peerAck <= |r.got|
    && w.state.tail <= Max(|r.got|, w.state.sent - w.state.cap)
    && w.state.tail <= w.state.sent <= |w.log| && w.state.ring == w.log[w.state.tail..w.state.sent]
  }

  lemma AccountsAck(w: Endpoint, r: Endpoint)
    requires Accounts(w) && Accounts(r) && w.state.peerAck <= r.state.received
    ensures AckedOnlyWhatWasRead(w, r)
  {
  }

  /** The states at the end of any run. */
  ghost predicate Arises(s: Sys) {
    exists capLeft: nat, capRight: nat, steps ::
      Legal(Init(capLeft, capRight), steps) && s == After(Init(capLeft, capRight), steps)
  }

  lemma ArisesHonest(s: Sys)
    requires Arises(s)
    ensures Honest(s)
  {
    var capLeft: nat, capRight: nat, steps :|
      Legal(Init(capLeft, capRight), steps) && s == After(Init(capLeft, capRight), steps);
    var start := Init(capLeft, capRight);
    InitHonest(capLeft, capRight);
    HonestRun(start, steps);
  }

  /** Acks are honest and only delivered bytes are discarded, in every run whatever. */
  lemma AcksAreHonest(s: Sys, w: Side)
    requires Arises(s)
    ensures AckedOnlyWhatWasRead(s.End(w), s.End(Peer(w)))
  {
    ArisesHonest(s);
    AccountsAck(s.End(w), s.End(Peer(w)));
  }

  /** A stream that was given up writes and reads nothing more, whatever happens to it. */
  lemma {:induction false} LostIsFinal(s: Sys, x: Side, steps: seq<Step>)
    requires s.End(x).lost && Legal(s, steps)
    ensures After(s, steps).End(x).log == s.End(x).log && After(s, steps).End(x).got == s.End(x).got
    decreases |steps|
  {
    if steps != [] {
      LostStep(s, x, steps[0]);
      LostIsFinal(Do(s, steps[0]), x, steps[1..]);
    }
  }

  lemma LostStep(s: Sys, x: Side, step: Step)
    requires s.End(x).lost && Enabled(s, step)
    ensures Do(s, step).End(x).lost
    ensures Do(s, step).End(x).log == s.End(x).log && Do(s, step).End(x).got == s.End(x).got
  {
  }

  /** A failed resume, like Close, gives the stream up for good: in no continuation does the application
      get another byte through it, in either direction. */
  lemma GivingUpIsFinal(s: Sys, x: Side, step: Step, steps: seq<Step>)
    requires step == Abandon(x) || (step.ResumeFails? && step.x == x)
    requires Enabled(s, step) && Legal(Do(s, step), steps)
    ensures var t := After(Do(s, step), steps);
            t.End(x).log == s.End(x).log && t.End(x).got == s.End(x).got
  {
    LostIsFinal(Do(s, step), x, steps);
  }

  /** Reader `r` is still on link `l` and can get no more than `rest` there, or it has left the link. */
  ghost predicate CutOff(s: Sys, l: nat, r: Side, rest: seq<Byte>) {
    && l < |s.links|
    && (s.End(r).phase.Attached() && s.End(r).phase.link == l ==>
          && s.End(r).phase.Live? && s.Broken(l, Peer(r))
          && s.End(r).got + s.Queue(l, Peer(r)) <= rest)
  }

  lemma CutOffTake(s: Sys, l: nat, r: Side, rest: seq<Byte>, n: nat)
    requires CutOff(s, l, r, rest) && Enabled(s, Take(r, n)) && s.End(r).phase == Live(l)
    ensures CutOff(Do(s, Take(r, n)), l, r, rest)
  {
    var q := s.Queue(l, Peer(r));
    assert s.End(r).got + q == (s.End(r).got + q[..n]) + q[n..];
  }

  lemma CutOffBreak(s: Sys, l: nat, r: Side, rest: seq<Byte>, k: nat, from: Side, keep: nat)
    requires CutOff(s, l, r, rest) && Enabled(s, Break(k, from, keep))
    ensures CutOff(Do(s, Break(k, from, keep)), l, r, rest)
  {
    var q := s.Queue(k, from);
    assert s.End(r).got + q[..keep] <= s.End(r).got + q;
  }

  lemma CutOffReader(s: Sys, l: nat, r: Side, rest: seq<Byte>, step: Step)
    requires CutOff(s, l, r, rest) && Enabled(s, step) && !step.Match? && !step.Break? && step.x == r
    ensures CutOff(Do(s, step), l, r, rest)
  {
    if step.Take? && s.End(r).phase == Live(l) {
      CutOffTake(s, l, r, rest, step.n);
    }
  }

  lemma CutOffWriter(s: Sys, l: nat, r: Side, rest: seq<Byte>, step: Step)
    requires CutOff(s, l, r, rest) && Enabled(s, step) && !step.Match? && !step.Break? && step.x == Peer(r)
    ensures CutOff(Do(s, step), l, r, rest)
  {
  }

  lemma CutOffStep(s: Sys, l: nat, r: Side, rest: seq<Byte>, step: Step)
    requires CutOff(s, l, r, rest) && Enabled(s, step)
    ensures CutOff(Do(s, step), l, r, rest)
  {
    if step.Break? {
      CutOffBreak(s, l, r, rest, step.l, step.from, step.keep);
    } else if !step.Match? {
      if step.x == r {
        CutOffReader(s, l, r, rest, step);
      } else {
        CutOffWriter(s, l, r, rest, step);
      }
    }
  }

  lemma {:induction false} CutOffRun(s: Sys, l: nat, r: Side, rest: seq<Byte>, steps: seq<Step>)
    requires CutOff(s, l, r, rest) && Legal(s, steps)
    ensures CutOff(After(s, steps), l, r, rest)
    decreases |steps|
  {
    if steps != [] {
      CutOffStep(s, l, r, rest, steps[0]);
      CutOffRun(Do(s, steps[0]), l, r, rest, steps[1..]);
    }
  }

  /** A direction that breaks delivers at most what survived: whatever is written or happens afterwards,
      a reader still on that link has read no more than the first `keep` bytes that were in flight. */
  lemma BreakCutsOff(s: Sys, l: nat, from: Side, keep: nat, steps: seq<Step>)
    requires Enabled(s, Break(l, from, keep)) && s.End(Peer(from)).phase == Live(l)
    requires Legal(Do(s, Break(l, from, keep)), steps)
    ensures var t := After(Do(s, Break(l, from, keep)), steps);
            t.End(Peer(from)).phase == Live(l) ==>
              t.End(Peer(from)).got <= s.End(Peer(from)).got + s.Queue(l, from)[..keep]
  {
    var rest := s.End(Peer(from)).got + s.Queue(l, from)[..keep];
    CutOffRun(Do(s, Break(l, from, keep)), l, Peer(from), rest, steps);
  }

  // ---- What a resume finds ----

  function Backlog(s: Sys, w: Side): int {
    |s.End(w).log| - |s.End(Peer(w)).got|
  }

  /** What an endpoint still holds of the bytes it logged, from `pos` on. */
  function HeldFrom(e: Endpoint, pos: nat): Gap
    requires e.state.sent <= |e.log|
  {
    Kept(e.log[..e.state.sent], e.state.peerAck, e.state.cap, pos)
  }

  lemma Held(e: Endpoint, pos: nat)
    requires Accounts(e)
    ensures e.state.sent == |e.log| - |e.pend| && e.state.RetransmitFrom(pos) == HeldFrom(e, pos)
  {
    RetransmitAnywhere(e.state, e.log[..|e.log| - |e.pend|], pos);
  }

  /** In every run whatever, what a paired side retransmits is decided by the position its peer offered,
      its own counter, its ring and the highest ack it has applied. */
  lemma GapInAnyRun(s: Sys, x: Side)
    requires Arises(s) && s.End(x).phase.Matched?
    ensures s.End(x).phase.link < |s.links| && s.End(x).state.sent == |s.End(x).log| - |s.End(x).pend|
    ensures GapAt(s, x) == HeldFrom(s.End(x), s.links[s.End(x).phase.link].Recv(Peer(x)))
  {
    ArisesHonest(s);
    Held(s.End(x), s.links[s.End(x).phase.link].Recv(Peer(x)));
  }

  lemma HeldAfterAck(e: Endpoint, ack: nat, pos: nat)
    requires Accounts(e)
    ensures var gap, after := e.state.RetransmitFrom(pos), e.state.OnCheckpointFromPeer(ack).RetransmitFrom(pos);
            && (after == BeforeRing <==> gap == BeforeRing || pos < Min(ack, e.state.sent))
            && (after != BeforeRing ==> after == gap)
  {
    var known := e.log[..|e.log| - |e.pend|];
    CheckpointTracks(e.state, known, ack);
    RetransmitAnywhere(e.state, known, pos);
    RetransmitAnywhere(e.state.OnCheckpointFromPeer(ack), known, pos);
  }

  /** A checkpoint exchanged while a resume is under way makes the retransmission fail if and only if it
      would fail anyway, or the peer has meanwhile counted past the position it offered. */
  lemma CheckpointDuringResume(s: Sys, x: Side)
    requires Arises(s) && s.End(x).phase.Matched?
    ensures s.End(x).phase.link < |s.links|
    ensures var t, pos := CheckpointRound(s, x), s.links[s.End(x).phase.link].Recv(Peer(x));
            && t.End(x).phase == s.End(x).phase && t.links == s.links
            && (GapAt(t, x) == BeforeRing <==>
                GapAt(s, x) == BeforeRing || pos < Min(s.End(Peer(x)).state.received, s.End(x).state.sent))
            && (GapAt(t, x) != BeforeRing ==> GapAt(t, x) == GapAt(s, x))
  {
    GapInAnyRun(s, x);
    ArisesHonest(s);
    RoundState(s, x);
    HeldAfterAck(s.End(x), s.End(Peer(x)).state.received, s.links[s.End(x).phase.link].Recv(Peer(x)));
  }

  /** In a disciplined run a paired side's retransmission succeeds exactly when what it has logged
      reaches what its peer has read and the difference fits the ring, whatever checkpoints were
      applied before, and then replays precisely that difference. With every write logged it is the
      peer's whole backlog, and the peer never asks for bytes beyond it. */
  lemma ResumeOutcome(s: Sys, x: Side)
    requires Reachable(s) && s.End(x).phase.Matched?
    ensures s.End(x).phase.link < |s.links| && 0 <= Backlog(s, x)
    ensures var e, got := s.End(x), |s.End(Peer(x)).got|;
            && e.state.sent == |e.log| - |e.pend|
            && (Enabled(s, Replay(x)) <==> 0 <= e.state.sent - got <= e.state.cap)
            && (Enabled(s, Replay(x)) ==> GapAt(s, x) == Bytes(e.log[got..e.state.sent]))
            && (GapAt(s, x) == BeyondSent <==> e.state.sent < got)
    ensures s.End(x).pend == [] ==>
              GapAt(s, x) == if Backlog(s, x) <= s.End(x).state.cap
                             then Bytes(s.End(x).log[|s.End(Peer(x)).got|..])
                             else BeforeRing
  {
    ReachableGap(s, x);
  }

  lemma ReachableGap(s: Sys, x: Side)
    requires Reachable(s) && s.End(x).phase.Matched?
    ensures s.End(x).phase.link < |s.links|
    ensures |s.End(Peer(x)).got| <= |s.End(x).log| && s.End(x).state.sent == |s.End(x).log| - |s.End(x).pend|
    ensures GapAt(s, x) == LoggedFrom(s.End(x), |s.End(Peer(x)).got|)
  {
    ReachableInv(s);
    GapIsBacklog(s, x);
  }

  /** One checkpoint round: side `x` applies what its peer emits. */
  function CheckpointRound(s: Sys, x: Side): Sys {
    var r := s.End(Peer(x));
    Do(Do(s, Emit(Peer(x))), Receive(x, Checkpoint(r.state.sent, r.state.received)))
  }

  /** A round cuts the ring down to exactly what the peer has not counted, or what capacity leaves of
      it, and changes nothing else of that side. */
  lemma RoundTrimsToUndelivered(s: Sys, x: Side)
    requires Reachable(s) && s.End(x).pend == []
    ensures var e, f := s.End(x), CheckpointRound(s, x).End(x);
            var kept := Min(e.state.cap, |e.log| - s.End(Peer(x)).state.received);
            && 0 <= kept <= |e.log|
            && f == e.(state := f.state)
            && f.state.ring == e.log[|e.log| - kept..]
            && f.state.sent == e.state.sent && f.state.received == e.state.received
  {
    SettledAck(s, x);
    RoundState(s, x);
    TrimmedTo(s.End(x), s.End(Peer(x)).state.received);
  }

  lemma TrimmedTo(e: Endpoint, ack: nat)
    requires e.state.Tracks(e.log) && e.state.peerAck <= ack <= |e.log|
    ensures var st, kept := e.state.OnCheckpointFromPeer(ack), Min(e.state.cap, |e.log| - ack);
            && 0 <= kept <= |e.log| && st.ring == e.log[|e.log| - kept..]
            && st.sent == e.state.sent && st.received == e.state.received
  {
    AckedRing(e.state, e.log, ack);
  }

  lemma SettledAck(s: Sys, x: Side)
    requires Reachable(s) && s.End(x).pend == []
    ensures s.End(x).state.Tracks(s.End(x).log)
    ensures s.End(x).state.peerAck <= s.End(Peer(x)).state.received <= |s.End(x).log|
  {
    ReachableInv(s);
    var e := s.End(x);
    assert Sound(e) && Sound(s.End(Peer(x))) && Flow(s, x);
    assert e.log[..|e.log|] == e.log;
  }

  lemma RoundState(s: Sys, x: Side)
    ensures CheckpointRound(s, x).links == s.links
    ensures CheckpointRound(s, x).End(x)
            == s.End(x).(state := s.End(x).state.OnCheckpointFromPeer(s.End(Peer(x)).state.received))
  {
  }
}
