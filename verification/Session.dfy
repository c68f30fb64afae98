/**
 The session's streams as mutable objects: the retry loops of Read and Write, SwapInner and
 abandonment, and Reconnect over the table of active streams.
 */
module Session {
  import opened Common
  import opened ResumeState

  /** A transport stream: the connection it lives on and its number there. */
  datatype Inner = Inner(conn: nat, stream: nat)

  datatype IoErr = NoErr | Eof | Broken

  datatype CallErr = Nil | Io(e: IoErr) | StreamLost

  // Blocked: the call has not returned when the script of its environment ends.
  datatype Outcome = Returned(n: nat, err: CallErr) | Blocked(n: nat)

  /** What other goroutines do to a stream between two iterations of a retry loop. */
  datatype Env = SwapTo(inner: Inner) | Abandon | Ack(pos: nat)

  // One iteration of Write: interference, then what inner.Write returns and how waiting ends.
  datatype WriteTurn = WriteTurn(env: seq<Env>, n: nat, err: IoErr, woken: bool)

  datatype ReadTurn = ReadTurn(env: seq<Env>, bytes: seq<Byte>, err: IoErr, woken: bool)

  /** The transport installed last. */
  ghost function LastSwap(env: seq<Env>, inner: Inner): Inner {
    if env == [] then inner
    else if env[|env| - 1].SwapTo? then env[|env| - 1].inner
    else LastSwap(env[..|env| - 1], inner)
  }

  ghost function AllAcks(env: seq<Env>, state: State): State {
    if env == [] then state
    else
      var before := AllAcks(env[..|env| - 1], state);
      if env[|env| - 1].Ack? then before.OnCheckpointFromPeer(env[|env| - 1].pos) else before
  }

  // ---- What the retry loops return ----

  /** Where one iteration of Write leaves the count, and whether the call ends there. */
  function WriteTurnResult(len: nat, written: nat, turn: WriteTurn, lost: bool): (nat, Option<CallErr>)
    requires written < len
  {
    if lost || Abandon in turn.env then (written, Some(StreamLost))
    else
      var w := written + Min(turn.n, len - written);
      (w,
       if w == len then Some(Nil)
       else if turn.err == Eof || (turn.err == Broken && !turn.woken) then Some(Io(turn.err))
       else None)
  }

  /** The outcome of a Write of `len` bytes of which `written` are done. */
  function WriteResult(len: nat, written: nat, turns: seq<WriteTurn>, lost: bool): Outcome
    requires written <= len
    decreases |turns|
  {
    if written == len then Returned(len, Nil)
    else if turns == [] then Blocked(written)
    else
      var (w, end) := WriteTurnResult(len, written, turns[0], lost);
      if end.Some? then Returned(w, end.value) else WriteResult(len, w, turns[1..], false)
  }

  /** The outcome of a Read into `limit` bytes. */
  function ReadResult(limit: nat, turns: seq<ReadTurn>, lost: bool): (Outcome, seq<Byte>)
    decreases |turns|
  {
    if turns == [] then (Blocked(0), [])
    else
      var turn := turns[0];
      var n := Min(|turn.bytes|, limit);
      if lost || Abandon in turn.env then (Returned(0, StreamLost), [])
      else if n > 0 then (Returned(n, if turn.err == NoErr then Nil else Io(turn.err)), turn.bytes[..n])
      else if turn.err == NoErr then (Returned(0, Nil), [])
      else if turn.err == Eof || !turn.woken then (Returned(0, Io(turn.err)), [])
      else ReadResult(limit, turns[1..], false)
  }

  function Accepted(turns: seq<WriteTurn>): nat {
    if turns == [] then 0 else turns[0].n + Accepted(turns[1..])
  }

  /** A turn that does not end a Write for good: no clean close, no abandonment, and an error only if a
      swap follows in time. */
  predicate Recovers(t: WriteTurn) {
    Abandon !in t.env && t.err != Eof && (t.err == Broken ==> t.woken)
  }

  predicate AllRecover(turns: seq<WriteTurn>) {
    forall t <- turns :: Recovers(t)
  }

  /** Turns that recover do nothing but add up. */
  lemma {:induction false} WriteGoesOn(len: nat, written: nat, turns: seq<WriteTurn>, k: nat)
    requires written <= len && k <= |turns| && AllRecover(turns[..k])
    ensures var w := written + Accepted(turns[..k]);
            WriteResult(len, written, turns, false)
            == if w >= len then Returned(len, Nil) else WriteResult(len, w, turns[k..], false)
    decreases k
  {
    if k > 0 {
      assert turns[0] in turns[..k] && turns[..k][1..] == turns[1..][..k - 1];
      assert forall t <- turns[1..][..k - 1] :: t in turns[..k];
      var w := written + Min(turns[0].n, len - written);
      if written < len && w < len {
        WriteGoesOn(len, w, turns[1..], k - 1);
        assert turns[1..][k - 1..] == turns[k..];
      }
    } else {
      assert turns[0..] == turns;
    }
  }

  /** Errors a swap follows in time are invisible: the call delivers all that the transports accept,
      and it returns, with no error, exactly when they have accepted everything. */
  lemma WriteRidesOutLosses(len: nat, written: nat, turns: seq<WriteTurn>)
    requires written <= len && AllRecover(turns)
    ensures WriteResult(len, written, turns, false) ==
            if written + Accepted(turns) >= len then Returned(len, Nil) else Blocked(written + Accepted(turns))
  {
    assert turns[..|turns|] == turns;
    WriteGoesOn(len, written, turns, |turns|);
  }

  lemma {:induction false} AcceptedOneMore(turns: seq<WriteTurn>, k: nat)
    requires k < |turns|
    ensures Accepted(turns[..k + 1]) == Accepted(turns[..k]) + turns[k].n
    decreases k
  {
    if k > 0 {
      assert turns[..k + 1][1..] == turns[1..][..k] && turns[..k][1..] == turns[1..][..k - 1];
      AcceptedOneMore(turns[1..], k - 1);
    }
  }

  /** The first turn that does not recover ends the call, with the count of what was accepted until then:
      abandonment before that turn's bytes, a clean close or an unanswered error after them, unless they
      were the last. */
  lemma WriteEnds(len: nat, written: nat, turns: seq<WriteTurn>, k: nat)
    requires k < |turns| && AllRecover(turns[..k]) && !Recovers(turns[k])
    requires written + Accepted(turns[..k]) < len
    ensures WriteResult(len, written, turns, false)
            == if Abandon in turns[k].env then Returned(written + Accepted(turns[..k]), StreamLost)
               else if written + Accepted(turns[..k + 1]) >= len then Returned(len, Nil)
               else Returned(written + Accepted(turns[..k + 1]), Io(turns[k].err))
  {
    WriteGoesOn(len, written, turns, k);
    AcceptedOneMore(turns, k);
  }

  /** A turn that makes Read try again: no byte, an error, and a swap in time. */
  predicate TriesAgain(limit: nat, t: ReadTurn) {
    Abandon !in t.env && Min(|t.bytes|, limit) == 0 && t.err == Broken && t.woken
  }

  /** Read goes past losses a swap follows in time and returns what the first other turn has: its bytes,
      as many as fit, with its error beside them; StreamLost if the stream was given up. */
  lemma {:induction false} ReadRidesOutLosses(limit: nat, turns: seq<ReadTurn>, k: nat)
    requires k <= |turns| && forall i | 0 <= i < k :: TriesAgain(limit, turns[i])
    requires k < |turns| ==> !TriesAgain(limit, turns[k])
    ensures k == |turns| ==> ReadResult(limit, turns, false) == (Blocked(0), [])
    ensures k < |turns| ==>
              ReadResult(limit, turns, false)
              == if Abandon in turns[k].env then (Returned(0, StreamLost), [])
                 else
                   var n := Min(|turns[k].bytes|, limit);
                   (Returned(n, if turns[k].err == NoErr then Nil else Io(turns[k].err)), turns[k].bytes[..n])
    decreases k
  {
    if k > 0 {
      assert TriesAgain(limit, turns[0]);
      ReadRidesOutLosses(limit, turns[1..], k - 1);
    }
  }

  class ResumableStream {
    const id: nat
    var inner: Inner
    var state: State
    var ready: Option<nat>     // the current generation channel; None once abandoned
    var generation: nat
    var abandoned: bool
    ghost var log: seq<Byte>   // every byte Write has accepted
    ghost var got: seq<Byte>   // every byte Read has returned

    ghost predicate Valid()
      reads this
    {
      && state.Tracks(log)
      && state.received == |got|
      && (!abandoned ==> ready.Some?)
    }

    constructor (id: nat, inner: Inner, cap: nat)
      ensures Valid() && this.id == id && this.inner == inner && !abandoned
      ensures log == [] && got == [] && state == NewState(cap)
    {
      this.id := id;
      this.inner := inner;
      this.state := NewState(cap);
      this.ready := Some(0);
      this.generation := 1;
      this.abandoned := false;
      this.log := [];
      this.got := [];
    }

    /** Installs a transport and a new generation. An abandoned stream stays abandoned. */
    method SwapInner(s: Inner)
      requires Valid()
      modifies this`inner, this`ready, this`generation
      ensures Valid() && inner == s
      ensures ready == Some(old(generation)) && generation == old(generation) + 1
    {
      inner := s;
      ready := Some(generation);
      generation := generation + 1;
    }

    /** Idempotent, and final. */
    method MarkAbandoned()
      requires Valid()
      modifies this`abandoned, this`ready
      ensures Valid() && abandoned
      ensures ready == if old(abandoned) then old(ready) else None
    {
      if !abandoned {
        abandoned := true;
        ready := None;
      }
    }

    method Checkpointed(pos: nat)
      requires Valid()
      modifies this`state
      ensures Valid() && state == old(state).OnCheckpointFromPeer(pos)
    {
      CheckpointTracks(state, log, pos);
      state := state.OnCheckpointFromPeer(pos);
    }

    method Accepts(chunk: seq<Byte>)
      requires Valid()
      modifies this`state, this`log
      ensures Valid() && log == old(log) + chunk && state == old(state).OnWrite(chunk)
    {
      WriteTracks(state, log, chunk);
      state := state.OnWrite(chunk);
      log := log + chunk;
    }

    /** Whatever the environment does, no byte of either history moves, and abandonment stays; the last
        swap decides the transport, every checkpoint is applied. */
    method Disturb(env: seq<Env>)
      requires Valid()
      modifies this`inner, this`ready, this`generation, this`abandoned, this`state
      ensures Valid()
      ensures old(abandoned) ==> abandoned
      ensures abandoned <==> old(abandoned) || Abandon in env
      ensures inner == LastSwap(env, old(inner)) && state == AllAcks(env, old(state))
    {
      for i := 0 to |env|
        invariant Valid()
        invariant abandoned <==> old(abandoned) || Abandon in env[..i]
        invariant inner == LastSwap(env[..i], old(inner)) && state == AllAcks(env[..i], old(state))
      {
        assert env[..i + 1][..i] == env[..i] && env[..i + 1] == env[..i] + [env[i]];
        match env[i]
        case SwapTo(s) => SwapInner(s);
        case Abandon => MarkAbandoned();
        case Ack(pos) => Checkpointed(pos);
      }
      assert env[..|env|] == env;
    }

    /** One iteration of the retry loop: the transport accepts a chunk, or the call ends. */
    method WriteOnce(p: seq<Byte>, written: nat, turn: WriteTurn) returns (w: nat, end: Option<CallErr>)
      requires Valid() && written < |p|
      modifies this
      ensures Valid() && got == old(got)
      ensures (w, end) == WriteTurnResult(|p|, written, turn, old(abandoned))
      ensures written <= w <= |p| && log == old(log) + p[written..w]
      ensures abandoned <==> old(abandoned) || end == Some(StreamLost)
    {
      Disturb(turn.env);
      if abandoned {
        return written, Some(StreamLost);
      }
      var n := Min(turn.n, |p| - written);
      if n > 0 {
        Accepts(p[written..written + n]);
      }
      w := written + n;
      if w == |p| {
        return w, Some(Nil);
      }
      if turn.err == NoErr {
        return w, None;
      }
      if turn.err == Eof {
        return w, Some(Io(turn.err));
      }
      if !turn.woken {
        return w, Some(Io(turn.err));
      }
      return w, None;
    }

    /** One Write call, across any partial writes, errors and swaps: exactly p[..n] joins the log, in
        order and once, and the error is nil exactly when n is the whole length. */
    method Write(p: seq<Byte>, turns: seq<WriteTurn>) returns (out: Outcome)
      requires Valid()
      modifies this
      ensures Valid() && got == old(got)
      ensures out == WriteResult(|p|, 0, turns, old(abandoned))
      ensures out.n <= |p| && log == old(log) + p[..out.n]
      ensures out.Returned? ==> (out.err == Nil <==> out.n == |p|)
      ensures old(abandoned) ==> abandoned && out.n == 0
      ensures old(abandoned) && p != [] && turns != [] ==> out == Returned(0, StreamLost)
      ensures out.Returned? && out.err == StreamLost ==> abandoned
      ensures out.Blocked? ==> out.n < |p|
    {
      var written := 0;
      var k := 0;
      while written < |p|
        invariant 0 <= written <= |p| && 0 <= k <= |turns|
        invariant Valid() && got == old(got) && log == old(log) + p[..written]
        invariant old(abandoned) ==> abandoned && written == 0 && k == 0
        invariant WriteResult(|p|, 0, turns, old(abandoned)) == WriteResult(|p|, written, turns[k..], abandoned)
        decreases |turns| - k
      {
        if k == |turns| {
          return Blocked(written);
        }
        assert turns[k..][1..] == turns[k + 1..];
        var w, end := WriteOnce(p, written, turns[k]);
        assert p[..written] + p[written..w] == p[..w];
        written, k := w, k + 1;
        if end.Some? {
          return Returned(written, end.value);
        }
      }
      return Returned(written, Nil);
    }

    /** One Read call: whatever it returns is counted and appended, and a call that returns no bytes
        leaves both histories alone. */
    method Read(limit: nat, turns: seq<ReadTurn>) returns (out: Outcome, bytes: seq<Byte>)
      requires Valid()
      modifies this
      ensures Valid() && log == old(log)
      ensures (out, bytes) == ReadResult(limit, turns, old(abandoned))
      ensures out.n == |bytes| <= limit && got == old(got) + bytes
      ensures state.received == old(state).received + out.n
      ensures old(abandoned) ==> abandoned && bytes == []
      ensures old(abandoned) && turns != [] ==> out == Returned(0, StreamLost)
      ensures abandoned <==> old(abandoned) || (out.Returned? && out.err == StreamLost)
      ensures out.Returned? && out.err == StreamLost ==> bytes == []
    {
      var k := 0;
      while k < |turns|
        invariant 0 <= k <= |turns|
        invariant Valid() && log == old(log) && got == old(got)
        invariant abandoned == old(abandoned) && (abandoned ==> k == 0)
        invariant ReadResult(limit, turns, old(abandoned)) == ReadResult(limit, turns[k..], abandoned)
      {
        var turn := turns[k];
        assert turns[k..][1..] == turns[k + 1..];
        k := k + 1;
        Disturb(turn.env);
        if abandoned {
          return Returned(0, StreamLost), [];
        }
        var n := Min(|turn.bytes|, limit);
        if n > 0 {
          state := state.OnRead(n);
          got := got + turn.bytes[..n];
          return Returned(n, if turn.err == NoErr then Nil else Io(turn.err)), turn.bytes[..n];
        }
        if turn.err == NoErr {
          return Returned(0, Nil), [];
        }
        if turn.err == Eof {
          return Returned(0, Io(turn.err)), [];
        }
        if !turn.woken {
          return Returned(0, Io(turn.err)), [];
        }
      }
      return Blocked(0), [];
    }
  }

  // ---- Bridging a stream and a local connection ----

  /** The other end of a bridge, a plain connection: one call, one answer. A write that takes less than
      it was given reports an error. */
  class LocalConn {
    ghost var log: seq<Byte>   // every byte Write has accepted
    ghost var got: seq<Byte>   // every byte Read has returned

    constructor ()
      ensures log == [] && got == []
    {
      log, got := [], [];
    }

    method Write(p: seq<Byte>, n: nat, err: IoErr) returns (w: nat, e: IoErr)
      modifies this`log
      ensures w == Min(n, |p|) && log == old(log) + p[..w] && (e == NoErr <==> w == |p| && err == NoErr)
    {
      w := Min(n, |p|);
      e := if w < |p| && err == NoErr then Broken else err;
      log := log + p[..w];
    }

    method Read(limit: nat, available: seq<Byte>) returns (bytes: seq<Byte>)
      modifies this`got
      ensures bytes == available[..Min(|available|, limit)] && got == old(got) + bytes
    {
      bytes := available[..Min(|available|, limit)];
      got := got + bytes;
    }
  }

  datatype CopyEnd = ReadEnded | WriteFailed | StillRunning

  const COPY_BUFFER := 65536

  datatype InboundTurn = InboundTurn(available: seq<Byte>, err: IoErr, write: seq<WriteTurn>)

  datatype OutboundTurn = OutboundTurn(read: seq<ReadTurn>, n: nat, err: IoErr)

  /** What a connection that has these bytes available hands over, one buffer a turn. */
  function Inbound(script: seq<InboundTurn>): seq<Byte> {
    if script == [] then []
    else
      var last := script[|script| - 1].available;
      Inbound(script[..|script| - 1]) + last[..Min(|last|, COPY_BUFFER)]
  }

  /** What the stream hands over in the same way. */
  function Outbound(script: seq<OutboundTurn>, lost: bool): seq<Byte> {
    if script == [] then []
    else
      var last := |script| - 1;
      Outbound(script[..last], lost) + ReadResult(COPY_BUFFER, script[last].read, lost && last == 0).1
  }

  lemma Appended(log: seq<Byte>, before: seq<Byte>, bytes: seq<Byte>, n: nat)
    requires n <= |bytes|
    ensures (log + before) + bytes[..n] == log + (before + bytes)[..|before| + n]
  {
  }

  /** One round of the loop: a read, and a write of what it gave. */
  method CopyInOnce(dst: ResumableStream, src: LocalConn, turn: InboundTurn)
    returns (bytes: seq<Byte>, n: nat, end: Option<CopyEnd>)
    requires dst.Valid()
    modifies dst, src
    ensures dst.Valid() && dst.got == old(dst.got) && src.log == old(src.log)
    ensures bytes == turn.available[..Min(|turn.available|, COPY_BUFFER)] && src.got == old(src.got) + bytes
    ensures n <= |bytes| && dst.log == old(dst.log) + bytes[..n]
    ensures n == |bytes| ==> end == if turn.err == NoErr then None else Some(ReadEnded)
    ensures n < |bytes| ==> end == Some(WriteFailed) || end == Some(StillRunning)
  {
    bytes := src.Read(COPY_BUFFER, turn.available);
    n := 0;
    if |bytes| > 0 {
      var w := dst.Write(bytes, turn.write);
      n := w.n;
      if w.Blocked? {
        return bytes, n, Some(StillRunning);
      }
      if w.err != Nil {
        return bytes, n, Some(WriteFailed);
      }
    }
    end := if turn.err != NoErr then Some(ReadEnded) else None;
  }

  /** copyAndDone from the local connection into the stream: it reads turn by turn up to the first that
      reports an error. What the stream accepts is a prefix of what was read, and all of it unless a
      write failed or is still going on. */
  method CopyIntoStream(dst: ResumableStream, src: LocalConn, script: seq<InboundTurn>)
    returns (end: CopyEnd, turns: nat, ghost read: seq<Byte>, ghost copied: nat)
    requires dst.Valid()
    modifies dst, src
    ensures dst.Valid() && dst.got == old(dst.got) && src.log == old(src.log)
    ensures turns <= |script| && read == Inbound(script[..turns]) && src.got == old(src.got) + read
    ensures forall i | 0 <= i < turns - 1 :: script[i].err == NoErr
    ensures copied <= |read| && dst.log == old(dst.log) + read[..copied]
    ensures end.ReadEnded? <==> turns > 0 && script[turns - 1].err != NoErr && copied == |read|
    ensures end.WriteFailed? ==> copied < |read|
    ensures end.StillRunning? ==> copied < |read| || turns == |script|
  {
    read, copied, turns := [], 0, 0;
    while turns < |script|
      invariant turns <= |script| && read == Inbound(script[..turns])
      invariant forall i | 0 <= i < turns :: script[i].err == NoErr
      invariant dst.Valid() && dst.got == old(dst.got) && src.log == old(src.log)
      invariant src.got == old(src.got) + read && copied == |read| && dst.log == old(dst.log) + read
    {
      var bytes, n, stop := CopyInOnce(dst, src, script[turns]);
      assert script[..turns + 1][..turns] == script[..turns];
      turns := turns + 1;
      Appended(old(dst.log), read, bytes, n);
      read, copied := read + bytes, copied + n;
      if stop.Some? {
        return stop.value, turns, read, copied;
      }
    }
    assert read[..copied] == read;
    return StillRunning, turns, read, copied;
  }

  method CopyOutOnce(dst: LocalConn, src: ResumableStream, turn: OutboundTurn)
    returns (bytes: seq<Byte>, n: nat, end: Option<CopyEnd>)
    requires src.Valid()
    modifies dst, src
    ensures src.Valid() && dst.got == old(dst.got) && src.log == old(src.log)
    ensures src.got == old(src.got) + bytes && n <= |bytes| && dst.log == old(dst.log) + bytes[..n]
    ensures var (out, b) := ReadResult(COPY_BUFFER, turn.read, old(src.abandoned));
            && bytes == b
            && (end.None? ==> n == |bytes| && out == Returned(n, Nil) && !src.abandoned)
            && (end == Some(ReadEnded) ==> n == |bytes| && out.Returned? && out.err != Nil)
            && (end == Some(StillRunning) ==> out.Blocked?)
  {
    var out;
    out, bytes := src.Read(COPY_BUFFER, turn.read);
    n := 0;
    if |bytes| > 0 {
      var e;
      n, e := dst.Write(bytes, turn.n, turn.err);
      if e != NoErr {
        return bytes, n, Some(WriteFailed);
      }
    }
    end := if out.Blocked? then Some(StillRunning) else if out.err != Nil then Some(ReadEnded) else None;
  }

  /** copyAndDone from the stream into the local connection, likewise. */
  method CopyFromStream(dst: LocalConn, src: ResumableStream, script: seq<OutboundTurn>)
    returns (end: CopyEnd, turns: nat, ghost read: seq<Byte>, ghost copied: nat)
    requires src.Valid()
    modifies dst, src
    ensures src.Valid() && dst.got == old(dst.got) && src.log == old(src.log)
    ensures turns <= |script| && read == Outbound(script[..turns], old(src.abandoned))
    ensures src.got == old(src.got) + read
    ensures copied <= |read| && dst.log == old(dst.log) + read[..copied]
    ensures end.ReadEnded? ==> turns > 0 && copied == |read|
    ensures end.ReadEnded? ==>
              var out := ReadResult(COPY_BUFFER, script[turns - 1].read, old(src.abandoned) && turns == 1).0;
              out.Returned? && out.err != Nil
    ensures end.StillRunning? && turns < |script| ==>
              turns > 0 && ReadResult(COPY_BUFFER, script[turns - 1].read, old(src.abandoned) && turns == 1).0.Blocked?
  {
    read, copied, turns := [], 0, 0;
    while turns < |script|
      invariant turns <= |script| && read == Outbound(script[..turns], old(src.abandoned))
      invariant src.abandoned <==> old(src.abandoned) && turns == 0
      invariant src.Valid() && dst.got == old(dst.got) && src.log == old(src.log)
      invariant src.got == old(src.got) + read && copied == |read| && dst.log == old(dst.log) + read
    {
      var bytes, n, stop := CopyOutOnce(dst, src, script[turns]);
      assert script[..turns + 1][..turns] == script[..turns];
      turns := turns + 1;
      Appended(old(dst.log), read, bytes, n);
      read, copied := read + bytes, copied + n;
      if stop.Some? {
        return stop.value, turns, read, copied;
      }
    }
    assert read[..copied] == read;
    return StillRunning, turns, read, copied;
  }

  // ---- Resume and Reconnect ----

  /** What comes back on a fresh stream after STREAM_RESUME: nothing, or the peer's frame; and
      whether the retransmission can be written. */
  datatype Echo = NoEcho | Echo(id: nat, peerAck: nat, writable: bool)

  /** Resume succeeds if the echo names this stream and the gap is held and can be written. */
  predicate Resumes(id: nat, state: State, echo: Echo) {
    && echo.Echo? && echo.id == id
    && state.RetransmitFrom(echo.peerAck).Bytes?
    && (state.RetransmitFrom(echo.peerAck).bytes == [] || echo.writable)
  }

  datatype CheckpointFrame = CheckpointFrame(id: nat, myPosition: nat, peerAck: nat)

  datatype DialOutcome = Refused(err: nat) | HalfOpen | Connected

  datatype ReconnectErr = Ok | NoAddrs | DialErr(err: nat) | AllFailed | RegisterErr(name: string)

  function FirstConnected(attempts: seq<DialOutcome>): (k: nat)
    ensures k <= |attempts|
    ensures k < |attempts| ==> attempts[k] == Connected
    ensures forall i | 0 <= i < k :: attempts[i] != Connected
  {
    if attempts == [] || attempts[0] == Connected then 0
    else
      assert forall i | 1 <= i < |attempts| :: attempts[i] == attempts[1..][i - 1];
      1 + FirstConnected(attempts[1..])
  }

  /** The error of a round of dials none of which connected. */
  function DialError(attempts: seq<DialOutcome>): (r: ReconnectErr)
    ensures r.AllFailed? || r.DialErr?
    ensures r.AllFailed? <==> forall i | 0 <= i < |attempts| :: !attempts[i].Refused?
    ensures r.DialErr? ==> exists k | 0 <= k < |attempts| ::
              attempts[k] == Refused(r.err) && forall i | 0 <= i < k :: !attempts[i].Refused?
  {
    if attempts == [] then AllFailed
    else if attempts[0].Refused? then DialErr(attempts[0].err)
    else
      assert forall i | 1 <= i < |attempts| :: attempts[i] == attempts[1..][i - 1];
      DialError(attempts[1..])
  }

  class Session {
    var conn: nat                               // the current connection
    var nextConn: nat
    var closed: set<nat>                        // connections closed so far
    var handlers: set<string>
    var streams: map<nat, ResumableStream>
    var registered: seq<string>                 // REGISTER frames written on the current connection

    ghost predicate Valid()
      reads this, streams.Values
    {
      && conn < nextConn
      && (forall c <- closed :: c < nextConn)
      && (forall id <- streams :: streams[id].id == id && streams[id].Valid() && !streams[id].abandoned)
    }

    constructor ()
      ensures Valid() && fresh(this) && streams == map[]
    {
      conn, nextConn, closed, handlers, streams, registered := 0, 1, {}, {}, map[], [];
    }

    /** A new wrapper replaces whatever the table held under its id. */
    method WrapStream(id: nat, inner: Inner, cap: nat) returns (rs: ResumableStream)
      requires Valid()
      modifies this`streams
      ensures fresh(rs) && rs.id == id && rs.inner == inner && streams == old(streams)[id := rs]
      ensures rs.state == NewState(cap) && rs.log == rs.got == [] && !rs.abandoned
      ensures Valid()
    {
      rs := new ResumableStream(id, inner, cap);
      streams := streams[id := rs];
    }

    /** The wrapper under an id, if any. */
    ghost function Held(id: nat): set<ResumableStream>
      reads this`streams
    {
      if id in streams then {streams[id]} else {}
    }

    /** Forgetting an id removes it and abandons the wrapper the table held, whichever that is. */
    method ForgetStream(id: nat)
      requires Valid()
      modifies this`streams, Held(id)`abandoned, Held(id)`ready
      ensures Valid() && streams == old(streams) - {id}
      ensures forall rs <- old(Held(id)) :: rs.abandoned && rs.Valid()
    {
      if id in streams {
        var rs := streams[id];
        streams := streams - {id};
        rs.MarkAbandoned();
      }
    }

    /** Closing a wrapper forgets its id and abandons it; with unique ids no other wrapper changes. */
    method CloseStream(rs: ResumableStream)
      requires Valid() && rs.Valid()
      modifies this`streams, rs`abandoned, rs`ready, Held(rs.id)`abandoned, Held(rs.id)`ready
      ensures Valid() && streams == old(streams) - {rs.id} && rs.abandoned
      ensures forall other <- old(Held(rs.id)) :: other.abandoned
    {
      ForgetStream(rs.id);
      rs.MarkAbandoned();
    }

    /** Only the named stream's ring moves; an unknown id is ignored. */
    method ApplyCheckpoint(id: nat, ack: nat)
      requires Valid()
      modifies Held(id)`state
      ensures Valid()
      ensures id in streams ==> streams[id].state == old(streams[id].state).OnCheckpointFromPeer(ack)
    {
      if id in streams {
        streams[id].Checkpointed(ack);
      }
    }

    /** Resume on the current connection: on success the gap is written and the transport swapped; on
        failure the wrapper is untouched. */
    method Resume(rs: ResumableStream, echo: Echo) returns (ok: bool, wrote: seq<Byte>)
      requires rs.Valid()
      modifies rs`inner, rs`ready, rs`generation
      ensures rs.Valid() && (ok <==> Resumes(rs.id, rs.state, echo))
      ensures echo.NoEcho? || echo.id != rs.id ==> !ok
      ensures echo.Echo? && echo.id == rs.id ==>
                var held := Max(rs.state.peerAck, |rs.log| - rs.state.cap) <= echo.peerAck <= |rs.log|;
                ok <==> held && (echo.writable || echo.peerAck == |rs.log|)
      ensures ok ==> rs.inner == Inner(conn, rs.id) && echo.peerAck <= |rs.log| && wrote == rs.log[echo.peerAck..]
      ensures !ok ==> rs.inner == old(rs.inner) && rs.ready == old(rs.ready)
    {
      if echo.NoEcho? || echo.id != rs.id {
        return false, [];
      }
      RetransmitAnywhere(rs.state, rs.log, echo.peerAck);
      var gap := rs.state.RetransmitFrom(echo.peerAck);
      if !gap.Bytes? || (gap.bytes != [] && !echo.writable) {
        return false, [];
      }
      rs.SwapInner(Inner(conn, rs.id));
      return true, gap.bytes;
    }

    /** Try each address in turn. The first to complete HELLO wins, and every other connection opened
        on the way is closed; if none wins, the first dial error is reported. */
    method DialRelay(attempts: seq<DialOutcome>) returns (won: Option<nat>, err: ReconnectErr)
      requires forall c <- closed :: c < nextConn
      modifies this`nextConn, this`closed
      ensures won.Some? <==> FirstConnected(attempts) < |attempts|
      ensures won.None? ==> err == DialError(attempts)
      ensures var h := multiset(attempts[..FirstConnected(attempts)])[HalfOpen];
              && (won.Some? ==> won.value == old(nextConn) + h && nextConn == won.value + 1)
              && (won.None? ==> nextConn == old(nextConn) + h)
      ensures forall c :: c in closed <==>
                          c in old(closed) || (old(nextConn) <= c < nextConn && won != Some(c))
    {
      err := AllFailed;
      var i := 0;
      while i < |attempts|
        invariant 0 <= i <= |attempts| && i <= FirstConnected(attempts)
        invariant nextConn == old(nextConn) + multiset(attempts[..i])[HalfOpen]
        invariant forall c :: c in closed <==> c in old(closed) || old(nextConn) <= c < nextConn
        invariant DialError(attempts) == if err == AllFailed then DialError(attempts[i..]) else err
      {
        assert attempts[i..][1..] == attempts[i + 1..];
        assert attempts[..i + 1] == attempts[..i] + [attempts[i]];
        match attempts[i] {
          case Refused(e) =>
            if err == AllFailed {
              err := DialErr(e);
            }
          case HalfOpen =>
            closed := closed + {nextConn};
            nextConn := nextConn + 1;
          case Connected =>
            nextConn := nextConn + 1;
            return Some(nextConn - 1), err;
        }
        i := i + 1;
      }
      return None, err;
    }

    /** Replay REGISTER for every exposed service, each exactly once. */
    method RegisterAll(acked: set<string>) returns (err: ReconnectErr)
      modifies this`registered
      ensures err == Ok <==> handlers <= acked
      ensures err != Ok ==> err.RegisterErr? && err.name in handlers - acked
      ensures err == Ok ==> multiset(registered) == multiset(handlers)
    {
      registered := [];
      var todo := handlers;
      while todo != {}
        invariant todo <= handlers && handlers - todo <= acked
        invariant multiset(registered) == multiset(handlers - todo)
        decreases todo
      {
        var name :| name in todo;
        registered := registered + [name];
        if name !in acked {
          return RegisterErr(name);
        }
        assert handlers - (todo - {name}) == (handlers - todo) + {name};
        todo := todo - {name};
      }
      assert handlers - {} == handlers;
      return Ok;
    }

    /** The active wrappers, in no particular order. */
    method ActiveStreams() returns (out: seq<ResumableStream>)
      requires Valid()
      ensures forall i, j | 0 <= i < j < |out| :: out[i].id != out[j].id
      ensures forall i | 0 <= i < |out| :: out[i].id in streams && streams[out[i].id] == out[i]
      ensures forall id <- streams :: streams[id] in out
      ensures |out| == |streams|
    {
      out := [];
      var todo := streams.Keys;
      while todo != {}
        invariant todo <= streams.Keys && |out| + |todo| == |streams|
        invariant forall i, j | 0 <= i < j < |out| :: out[i].id != out[j].id
        invariant forall i | 0 <= i < |out| :: out[i].id in streams.Keys - todo && streams[out[i].id] == out[i]
        invariant forall id <- streams.Keys - todo :: streams[id] in out
        decreases todo
      {
        var id :| id in todo;
        out := out + [streams[id]];
        todo := todo - {id};
      }
    }

    /** One tick of the emitter: a frame per active stream, carrying that stream's counters, until the
        control stream refuses one. */
    method EmitOnce(writable: nat) returns (frames: seq<CheckpointFrame>)
      requires Valid()
      ensures |frames| == Min(writable, |streams|)
      ensures forall i, j | 0 <= i < j < |frames| :: frames[i].id != frames[j].id
      ensures forall f <- frames ::
                && f.id in streams
                && f.myPosition == streams[f.id].state.sent && f.peerAck == streams[f.id].state.received
    {
      var active := ActiveStreams();
      frames := [];
      var i := 0;
      while i < |active|
        invariant i == |frames| <= |active| && i <= writable
        invariant forall k | 0 <= k < i ::
                    frames[k] == CheckpointFrame(active[k].id, active[k].state.sent, active[k].state.received)
      {
        if i == writable {
          return;
        }
        var st := active[i].state;
        frames := frames + [CheckpointFrame(active[i].id, st.sent, st.received)];
        i := i + 1;
      }
    }

    /** How a stream ends up: live on the current connection, or given up with its transport left. */
    ghost predicate Placed(rs: ResumableStream, ok: bool, before: Inner)
      reads this`conn, rs
    {
      if ok then rs.inner == Inner(conn, rs.id) && !rs.abandoned else rs.inner == before && rs.abandoned
    }

    /** One active stream: resumed onto the current connection, or removed and abandoned. */
    method ResumeOne(rs: ResumableStream, echo: Echo) returns (ok: bool)
      requires Valid() && rs.id in streams && streams[rs.id] == rs
      modifies this`streams, rs`inner, rs`ready, rs`generation, rs`abandoned
      ensures Valid()
      ensures ok <==> Resumes(rs.id, rs.state, echo)
      ensures streams == if ok then old(streams) else old(streams) - {rs.id}
      ensures Placed(rs, ok, old(rs.inner))
    {
      var wrote;
      ok, wrote := Resume(rs, echo);
      if !ok {
        ForgetStream(rs.id);
      }
    }

    /** Replay STREAM_RESUME for each of the given wrappers. */
    method ResumeEach(active: seq<ResumableStream>, echoes: nat -> Echo, ghost good: seq<bool>)
      requires Valid() && |good| == |active|
      requires forall i, j | 0 <= i < |active| && 0 <= j < |active| && i != j ::
                 active[i].id != active[j].id && active[i] != active[j]
      requires forall i | 0 <= i < |active| :: active[i].id in streams && streams[active[i].id] == active[i]
      requires forall i | 0 <= i < |active| :: good[i] == Resumes(active[i].id, active[i].state, echoes(active[i].id))
      modifies this`streams, active`inner, active`ready, active`generation, active`abandoned
      ensures Valid() && streams == old(streams) - Dropped(active, good, |active|)
      ensures forall i | 0 <= i < |active| :: Placed(active[i], good[i], old(active[i].inner))
    {
      ghost var table := streams;
      var i := 0;
      while i < |active|
        invariant 0 <= i <= |active| && Valid()
        invariant streams == table - Dropped(active, good, i)
        invariant forall k | 0 <= k < i :: Placed(active[k], good[k], old(active[k].inner))
        invariant forall k | i <= k < |active| :: active[k].inner == old(active[k].inner)
      {
        var rs := active[i];
        var ok := ResumeOne(rs, echoes(rs.id));
        DroppedGrows(active, good, i, ok);
        RemoveMore(table, Dropped(active, good, i), {rs.id});
        i := i + 1;
      }
    }

    /** Every active stream is visited, and the order does not matter. */
    method ResumeAll(echoes: nat -> Echo)
      requires Valid()
      modifies this`streams, streams.Values`inner, streams.Values`ready, streams.Values`generation,
               streams.Values`abandoned
      ensures Valid()
      ensures forall id :: id in streams <==> id in old(streams) && Resumes(id, old(streams[id]).state, echoes(id))
      ensures forall id <- streams :: streams[id] == old(streams[id])
      ensures forall id <- old(streams) :: Placed(old(streams[id]), id in streams, old(streams[id].inner))
    {
      ghost var table := streams;
      var active := ActiveStreams();
      ghost var good := seq(|active|, i requires 0 <= i < |active| reads active =>
                                        Resumes(active[i].id, active[i].state, echoes(active[i].id)));
      ResumeEach(active, echoes, good);
      forall id <- table
        ensures id in streams <==> Resumes(id, table[id].state, echoes(id))
        ensures Placed(table[id], id in streams, old(table[id].inner))
      {
        var i :| 0 <= i < |active| && active[i] == table[id];
        assert id in Dropped(active, good, |active|) <==> !good[i];
      }
    }

    /** Close the dead connection, dial, replay REGISTER, resume every stream. Unless all of that up to
        the last REGISTER succeeds, no stream is touched. If it does, the table splits into exactly the
        streams that can resume, now live on the new connection, and the others, removed and abandoned,
        whatever order they are visited in; counters, rings and histories move in neither case. */
    method Reconnect(attempts: seq<DialOutcome>, acked: set<string>, echoes: nat -> Echo)
      returns (err: ReconnectErr)
      requires Valid()
      modifies this, streams.Values`inner, streams.Values`ready, streams.Values`generation, streams.Values`abandoned
      ensures Valid() && handlers == old(handlers)
      ensures err == Ok <==> FirstConnected(attempts) < |attempts| && handlers <= acked
      ensures attempts == [] ==> err == NoAddrs && closed == old(closed)
      ensures attempts != [] ==> old(conn) in closed
      ensures attempts != [] && FirstConnected(attempts) == |attempts| ==>
                err == DialError(attempts) && conn == old(conn)
      ensures attempts != [] && FirstConnected(attempts) < |attempts| ==>
                && conn == old(nextConn) + multiset(attempts[..FirstConnected(attempts)])[HalfOpen]
                && conn !in closed && nextConn == conn + 1
      ensures attempts != [] ==> forall c :: c in closed <==>
                c in old(closed) || c == old(conn) || (old(nextConn) <= c < nextConn && c != conn)
      ensures err == Ok ==> multiset(registered) == multiset(handlers)
      ensures err != Ok ==> streams == old(streams)
      ensures err != Ok ==> forall id <- old(streams) ::
                var rs := old(streams[id]); !rs.abandoned && rs.inner == old(rs.inner) && rs.ready == old(rs.ready)
      ensures err == Ok ==> forall id :: id in streams <==>
                id in old(streams) && Resumes(id, old(streams[id]).state, echoes(id))
      ensures forall id <- streams :: streams[id] == old(streams[id])
      ensures err == Ok ==> forall id <- old(streams) ::
                Placed(old(streams[id]), id in streams, old(streams[id].inner))
    {
      if attempts == [] {
        return NoAddrs;
      }
      closed := closed + {conn};
      var won, dialErr := DialRelay(attempts);
      if won.None? {
        return dialErr;
      }
      conn := won.value;
      err := RegisterAll(acked);
      if err != Ok {
        return;
      }
      ResumeAll(echoes);
    }
  }

  /** The ids among the first n wrappers whose resume failed. */
  ghost function Dropped(active: seq<ResumableStream>, good: seq<bool>, n: nat): set<nat>
    requires n <= |active| == |good|
  {
    set k | 0 <= k < n && !good[k] :: active[k].id
  }

  lemma RemoveMore<V>(m: map<nat, V>, a: set<nat>, b: set<nat>)
    ensures m - a - b == m - (a + b)
  {
  }

  lemma DroppedGrows(active: seq<ResumableStream>, good: seq<bool>, n: nat, ok: bool)
    requires n < |active| == |good| && good[n] == ok
    ensures Dropped(active, good, n + 1) == Dropped(active, good, n) + (if ok then {} else {active[n].id})
  {
  }
}
