/**
 Parking and waking on a resumable stream, in every interleaving.

 Readers and writers snapshot the current transport and the current generation channel under the
 lock, use the transport outside it, and on a transport error park on the channel of their snapshot.
 SwapInner installs a new transport and a new channel under the lock, then closes the old channel and
 cancels reads on the old transport after releasing it. markAbandoned does all its work under the
 lock. A SwapInner may still run after the stream was abandoned.
 */
module ParkWake {

  datatype Ready = Nil | Gen(c: nat)

  datatype Result = Data | StreamLost | IoFailed

  datatype Pc =
    | Idle                                // no call in progress
    | Top                                 // at the head of the retry loop
    | InCall(inner: nat, ready: Ready)    // inside inner.Read or inner.Write
    | Parked(inner: nat, ready: Ready)    // in waitForResume
    | Returned(result: Result)
  {
    predicate Holds() {
      InCall? || Parked?
    }
  }

  // moved: the bytes this caller has moved a counter by
  datatype Caller = Caller(pc: Pc, moved: nat)

  datatype Stream = Stream(
    inner: nat, ready: Ready, abandoned: bool,
    nextInner: nat, nextGen: nat,
    closed: set<nat>,            // channels closed so far
    owed: multiset<nat>,         // closes SwapInner calls in flight still have to do
    owedCancels: set<nat>,       // transports they still have to cancel
    cancelled: set<nat>,
    callers: map<nat, Caller>,
    panicked: bool)              // a closed channel was closed again
  {
    function Get(t: nat): Caller {
      if t in callers then callers[t] else Caller(Idle, 0)
    }

    function At(t: nat, pc: Pc): Stream {
      this.(callers := callers[t := Get(t).(pc := pc)])
    }

    function Moved(t: nat, n: nat, pc: Pc): Stream {
      this.(callers := callers[t := Caller(pc, Get(t).moved + n)])
    }

    /** close(c), which panics on a closed channel. */
    function CloseChan(c: nat): Stream {
      this.(closed := closed + {c}, panicked := panicked || c in closed)
    }
  }

  function Fresh(): Stream {
    Stream(0, Gen(0), false, 1, 1, {}, multiset{}, {}, {}, map[], false)
  }

  datatype Step =
    | Call(t: nat)                // the application calls Read or Write
    | Snapshot(t: nat)            // the locked head of one loop iteration
    | Finish(t: nat, n: nat)      // the transport moved n bytes; the call returns
    | Continue(t: nat, n: nat)    // a partial write without error; loop again
    | Errs(t: nat, n: nat)        // a transport error, after n bytes; park
    | GivesUp(t: nat, n: nat)     // io.EOF, or the deadline has passed
    | Wake(t: nat)
    | TimesOut(t: nat)
    | SwapLocked                  // SwapInner up to its unlock
    | SwapCloses(c: nat)          // close(oldReady)
    | SwapCancels(i: nat)         // old.CancelRead
    | MarkAbandoned

  predicate Enabled(s: Stream, step: Step) {
    match step
    case Call(t) => s.Get(t).pc.Idle? || s.Get(t).pc.Returned?
    case Snapshot(t) => s.Get(t).pc.Top?
    case Finish(t, n) => s.Get(t).pc.InCall?
    case Continue(t, n) => s.Get(t).pc.InCall?
    case Errs(t, n) => s.Get(t).pc.InCall?
    case GivesUp(t, n) => s.Get(t).pc.InCall?
    case Wake(t) => s.Get(t).pc.Parked? && s.Get(t).pc.ready.Gen? && s.Get(t).pc.ready.c in s.closed
    case TimesOut(t) => s.Get(t).pc.Parked?
    case SwapLocked => true
    case SwapCloses(c) => c in s.owed
    case SwapCancels(i) => i in s.owedCancels
    case MarkAbandoned => true
  }

  function Do(s: Stream, step: Step): Stream
    requires Enabled(s, step)
  {
    match step
    case Call(t) => s.At(t, Top)
    case Snapshot(t) => s.At(t, if s.abandoned then Returned(StreamLost) else InCall(s.inner, s.ready))
    case Finish(t, n) => s.Moved(t, n, Returned(Data))
    case Continue(t, n) => s.Moved(t, n, Top)
    case Errs(t, n) => s.Moved(t, n, Parked(s.Get(t).pc.inner, s.Get(t).pc.ready))
    case GivesUp(t, n) => s.Moved(t, n, Returned(IoFailed))
    case Wake(t) => s.At(t, Top)
    case TimesOut(t) => s.At(t, Returned(IoFailed))
    case SwapLocked =>
      s.(inner := s.nextInner, nextInner := s.nextInner + 1,
         ready := Gen(s.nextGen), nextGen := s.nextGen + 1,
         owed := if s.ready.Gen? then s.owed + multiset{s.ready.c} else s.owed,
         owedCancels := s.owedCancels + {s.inner})
    case SwapCloses(c) => s.CloseChan(c).(owed := s.owed - multiset{c})
    case SwapCancels(i) => s.(owedCancels := s.owedCancels - {i}, cancelled := s.cancelled + {i})
    case MarkAbandoned =>
      if s.abandoned then s
      else (if s.ready.Gen? then s.CloseChan(s.ready.c) else s).(abandoned := true, ready := Nil)
  }

  predicate Legal(s: Stream, steps: seq<Step>)
    decreases |steps|
  {
    steps == [] || (Enabled(s, steps[0]) && Legal(Do(s, steps[0]), steps[1..]))
  }

  function After(s: Stream, steps: seq<Step>): Stream
    requires Legal(s, steps)
    decreases |steps|
  {
    if steps == [] then s else After(Do(s, steps[0]), steps[1..])
  }

  // ---- Invariant ----

  /** Each channel is current, owed one close, or closed once; never two of these. */
  ghost predicate ChannelsOk(s: Stream) {
    && !s.panicked
    && (!s.abandoned ==> s.ready.Gen?)
    && (s.ready.Gen? ==> s.ready.c < s.nextGen && s.ready.c !in s.closed && s.ready.c !in s.owed)
    && (forall c <- s.owed :: c < s.nextGen && c !in s.closed && s.owed[c] == 1)
    && (forall c <- s.closed :: c < s.nextGen)
  }

  /** A caller's snapshot is current, or its channel is closed or about to be. */
  ghost predicate SnapshotOk(s: Stream, pc: Pc) {
    pc.Holds() ==>
      && pc.ready.Gen? && pc.ready.c < s.nextGen && pc.inner < s.nextInner
      && (|| pc.ready.c in s.closed
          || pc.ready.c in s.owed
          || (pc.ready == s.ready && pc.inner == s.inner && !s.abandoned))
      && (pc.inner == s.inner || pc.inner in s.cancelled || pc.inner in s.owedCancels)
  }

  /** The current transport is newer than every replaced one; only replaced ones are cancelled. */
  ghost predicate TransportsOk(s: Stream) {
    && s.inner < s.nextInner
    && (forall i <- s.cancelled :: i < s.inner) && (forall i <- s.owedCancels :: i < s.inner)
  }

  ghost predicate Inv(s: Stream) {
    && ChannelsOk(s)
    && TransportsOk(s)
    && (forall t <- s.callers :: SnapshotOk(s, s.callers[t].pc))
  }

  lemma ChannelsStep(s: Stream, step: Step)
    requires ChannelsOk(s) && Enabled(s, step)
    ensures ChannelsOk(Do(s, step))
  {
  }

  lemma TransportsStep(s: Stream, step: Step)
    requires TransportsOk(s) && Enabled(s, step)
    ensures TransportsOk(Do(s, step))
  {
  }

  lemma SnapshotKept(s: Stream, step: Step, pc: Pc)
    requires ChannelsOk(s) && Enabled(s, step) && SnapshotOk(s, pc)
    ensures SnapshotOk(Do(s, step), pc)
  {
  }

  lemma StepInv(s: Stream, step: Step)
    requires Inv(s) && Enabled(s, step)
    ensures Inv(Do(s, step))
  {
    var s' := Do(s, step);
    ChannelsStep(s, step);
    TransportsStep(s, step);
    forall t <- s'.callers
      ensures SnapshotOk(s', s'.callers[t].pc)
    {
      if t in s.callers {
        SnapshotKept(s, step, s.callers[t].pc);
      }
    }
  }

  lemma {:induction false} RunInv(s: Stream, steps: seq<Step>)
    requires Inv(s) && Legal(s, steps)
    ensures Inv(After(s, steps))
    decreases |steps|
  {
    if steps != [] {
      StepInv(s, steps[0]);
      RunInv(Do(s, steps[0]), steps[1..]);
    }
  }

  ghost predicate Reachable(s: Stream) {
    exists steps :: Legal(Fresh(), steps) && s == After(Fresh(), steps)
  }

  lemma ReachableInv(s: Stream)
    requires Reachable(s)
    ensures Inv(s)
  {
    var steps :| Legal(Fresh(), steps) && s == After(Fresh(), steps);
    RunInv(Fresh(), steps);
  }

  // ---- What every interleaving keeps ----

  /** No channel is ever closed twice. */
  lemma NoDoubleClose(s: Stream)
    requires Reachable(s)
    ensures !s.panicked
    ensures forall c <- s.owed :: s.owed[c] == 1 && c !in s.closed
  {
    ReachableInv(s);
  }

  /** No lost wakeup: a parked caller whose channel is open holds the current transport and
      generation of a live stream, or a SwapInner in flight still owes it the close. */
  lemma NoLostWakeup(s: Stream, t: nat)
    requires Reachable(s) && s.Get(t).pc.Parked?
    ensures s.Get(t).pc.ready.Gen?
    ensures || s.Get(t).pc.ready.c in s.closed
            || s.Get(t).pc.ready.c in s.owed
            || (s.Get(t).pc.ready == s.ready && s.Get(t).pc.inner == s.inner && !s.abandoned)
  {
    ReachableInv(s);
  }

  /** No reader is left inside a replaced transport: it is cancelled, or SwapInner still owes that. */
  lemma NoStrandedReader(s: Stream, t: nat)
    requires Reachable(s) && s.Get(t).pc.InCall?
    ensures s.Get(t).pc.inner == s.inner || s.Get(t).pc.inner in s.cancelled + s.owedCancels
  {
    ReachableInv(s);
  }

  lemma {:induction false} Extends(s: Stream, a: seq<Step>, b: seq<Step>)
    requires Legal(s, a) && Legal(After(s, a), b)
    ensures Legal(s, a + b) && After(s, a + b) == After(After(s, a), b)
    decreases |a|
  {
    if a == [] {
      assert a + b == b;
    } else {
      assert (a + b)[0] == a[0] && (a + b)[1..] == a[1..] + b;
      Extends(Do(s, a[0]), a[1..], b);
    }
  }

  lemma ReachableOn(s: Stream, step: Step, steps: seq<Step>)
    requires Reachable(s) && Enabled(s, step) && Legal(Do(s, step), steps)
    ensures Reachable(After(Do(s, step), steps))
  {
    var a :| Legal(Fresh(), a) && s == After(Fresh(), a);
    var b := [step] + steps;
    assert b[1..] == steps;
    Extends(Fresh(), a, b);
  }

  /** Channels and transports only get newer, and abandonment is never taken back, not even by
      SwapInner. */
  lemma {:induction false} OnlyForward(s: Stream, steps: seq<Step>, g: nat, i: nat)
    requires Legal(s, steps) && g <= s.nextGen && (s.ready.Gen? ==> g <= s.ready.c)
    requires i <= s.inner < s.nextInner
    ensures After(s, steps).ready.Gen? ==> g <= After(s, steps).ready.c
    ensures s.abandoned ==> After(s, steps).abandoned
    ensures i <= After(s, steps).inner
    decreases |steps|
  {
    if steps != [] {
      OnlyForward(Do(s, steps[0]), steps[1..], g, i);
    }
  }

  /** A caller keeps the transport and the channel it fetched until it fetches again. */
  lemma {:induction false} KeepsSnapshot(s: Stream, steps: seq<Step>, t: nat)
    requires Legal(s, steps) && Snapshot(t) !in steps
    ensures After(s, steps).Get(t).pc.Holds() ==>
              && s.Get(t).pc.Holds()
              && After(s, steps).Get(t).pc.inner == s.Get(t).pc.inner
              && After(s, steps).Get(t).pc.ready == s.Get(t).pc.ready
    decreases |steps|
  {
    if steps != [] {
      KeepsSnapshot(Do(s, steps[0]), steps[1..], t);
    }
  }

  /** What a caller that parked before the last swap holds is older than the current transport. */
  lemma HoldsOlder(s: Stream, steps: seq<Step>, t: nat)
    requires Inv(s) && Legal(Do(s, SwapLocked), steps) && Snapshot(t) !in steps
    requires After(Do(s, SwapLocked), steps).Get(t).pc.Parked?
    ensures var v := After(Do(s, SwapLocked), steps);
            && v.Get(t).pc.inner < v.inner && v.Get(t).pc.ready != v.ready
  {
    var u := Do(s, SwapLocked);
    OnlyForward(u, steps, s.nextGen, s.nextInner);
    KeepsSnapshot(u, steps, t);
    assert u.Get(t) == s.Get(t);
    assert SnapshotOk(s, s.Get(t).pc);
  }

  lemma WakesToCurrent(v: Stream, t: nat)
    requires Inv(v) && v.owed == multiset{} && v.Get(t).pc.Parked?
    requires v.Get(t).pc.inner < v.inner && v.Get(t).pc.ready != v.ready
    ensures Enabled(v, Wake(t)) && Enabled(Do(v, Wake(t)), Snapshot(t))
    ensures var pc := Do(Do(v, Wake(t)), Snapshot(t)).Get(t).pc;
            if v.abandoned then pc == Returned(StreamLost)
            else
              && pc.InCall? && pc.inner != v.Get(t).pc.inner
              && pc.inner !in v.cancelled && pc.inner !in v.owedCancels
  {
    assert SnapshotOk(v, v.Get(t).pc);
  }

  /** Once a SwapInner and every other one in flight have finished, each caller that fetched its
      transport before it and has parked, then or since, can wake. It then finds a transport that is not
      the one it failed on and that nobody has cancelled or is about to; or, if the stream was given up
      meanwhile, StreamLost. */
  lemma SwapWakesEveryone(s: Stream, steps: seq<Step>, t: nat)
    requires Reachable(s) && Legal(Do(s, SwapLocked), steps) && Snapshot(t) !in steps
    requires var v := After(Do(s, SwapLocked), steps);
             v.owed == multiset{} && v.Get(t).pc.Parked?
    ensures var v := After(Do(s, SwapLocked), steps);
            && Enabled(v, Wake(t))
            && Enabled(Do(v, Wake(t)), Snapshot(t))
            && var pc := Do(Do(v, Wake(t)), Snapshot(t)).Get(t).pc;
               if v.abandoned then pc == Returned(StreamLost)
               else
                 && pc.InCall? && pc.inner != v.Get(t).pc.inner
                 && pc.inner !in v.cancelled && pc.inner !in v.owedCancels
  {
    ReachableInv(s);
    HoldsOlder(s, steps, t);
    StepInv(s, SwapLocked);
    RunInv(Do(s, SwapLocked), steps);
    WakesToCurrent(After(Do(s, SwapLocked), steps), t);
  }

  /** A SwapInner that has run to its end leaves nothing owed of its own, the replaced transport
      cancelled, the replaced channel closed, and every caller where it was. */
  lemma SwapLeavesNothingOwed(s: Stream) returns (v: Stream)
    requires Reachable(s) && !s.abandoned
    ensures s.ready.Gen?
    ensures var a := Do(s, SwapLocked);
            && Enabled(a, SwapCloses(s.ready.c))
            && Enabled(Do(a, SwapCloses(s.ready.c)), SwapCancels(s.inner))
            && v == Do(Do(a, SwapCloses(s.ready.c)), SwapCancels(s.inner))
    ensures v.owed == s.owed && v.owedCancels == s.owedCancels && v.callers == s.callers
    ensures s.inner in v.cancelled && s.ready.c in v.closed && !v.abandoned
    ensures v.inner != s.inner && v.ready != s.ready
  {
    ReachableInv(s);
    var a := Do(s, SwapLocked);
    var b := Do(a, SwapCloses(s.ready.c));
    assert b.owed == s.owed;
    v := Do(b, SwapCancels(s.inner));
  }

  /** The same for abandoning: nobody stays parked on a stream that was given up. */
  lemma AbandonWakesEveryone(s: Stream, steps: seq<Step>, t: nat)
    requires Reachable(s)
    requires Legal(Do(s, MarkAbandoned), steps)
    requires var v := After(Do(s, MarkAbandoned), steps);
             v.owed == multiset{} && v.Get(t).pc.Parked?
    ensures Enabled(After(Do(s, MarkAbandoned), steps), Wake(t))
  {
    ReachableOn(s, MarkAbandoned, steps);
    ReachableInv(s);
    OnlyForward(Do(s, MarkAbandoned), steps, 0, 0);
    NoLostWakeup(After(Do(s, MarkAbandoned), steps), t);
  }

  /** Giving up a stream again, at any later time, changes nothing, not even what a SwapInner put in since. */
  lemma AbandonedOnce(s: Stream, steps: seq<Step>)
    requires Legal(Do(s, MarkAbandoned), steps) && s.inner < s.nextInner
    ensures var v := After(Do(s, MarkAbandoned), steps); Do(v, MarkAbandoned) == v
  {
    OnlyForward(Do(s, MarkAbandoned), steps, 0, 0);
  }

  /** Abandonment is terminal: a caller outside the transport when the stream is abandoned never
      enters it again and moves no counter, whatever runs later, SwapInner included; and a caller at
      the head of its loop can only return StreamLost. */
  lemma {:induction false} AbandonIsTerminal(s: Stream, steps: seq<Step>, t: nat)
    requires s.abandoned && !s.Get(t).pc.InCall? && Legal(s, steps)
    ensures After(s, steps).abandoned && !After(s, steps).Get(t).pc.InCall?
    ensures After(s, steps).Get(t).moved == s.Get(t).moved
    ensures s.Get(t).pc.Top? || s.Get(t).pc == Returned(StreamLost) ==>
              After(s, steps).Get(t).pc in {Top, Returned(StreamLost)}
    decreases |steps|
  {
    if steps != [] {
      AbandonIsTerminal(Do(s, steps[0]), steps[1..], t);
    }
  }

  // ---- What the calls of one caller report ----

  predicate ByCaller(step: Step, t: nat) {
    !step.SwapLocked? && !step.SwapCloses? && !step.SwapCancels? && !step.MarkAbandoned? && step.t == t
  }

  /** The bytes the transports moved for a caller during a run. */
  function Transferred(steps: seq<Step>, t: nat): nat {
    if steps == [] then 0
    else
      (match steps[0]
       case Finish(u, n) => if u == t then n else 0
       case Continue(u, n) => if u == t then n else 0
       case Errs(u, n) => if u == t then n else 0
       case GivesUp(u, n) => if u == t then n else 0
       case _ => 0)
      + Transferred(steps[1..], t)
  }

  /** Every byte a transport moves is counted, once, whatever the call then comes to. */
  lemma {:induction false} EveryByteCounts(s: Stream, steps: seq<Step>, t: nat)
    requires Legal(s, steps)
    ensures After(s, steps).Get(t).moved == s.Get(t).moved + Transferred(steps, t)
    decreases |steps|
  {
    if steps != [] {
      EveryByteCounts(Do(s, steps[0]), steps[1..], t);
    }
  }

  /** What a caller's last step tells about where it is. */
  predicate Tells(s: Stream, step: Step, pc: Pc) {
    match step
    case Finish(_, _) => pc == Returned(Data)
    case GivesUp(_, _) => pc == Returned(IoFailed)
    case TimesOut(_) => pc == Returned(IoFailed)
    case Snapshot(_) => pc.InCall? || (pc == Returned(StreamLost) && s.abandoned)
    case Errs(_, _) => pc.Parked?
    case _ => pc.Top?
  }

  /** A call returns data exactly after a successful transfer, StreamLost only on a stream that was given
      up, and the transport's error otherwise; a partial write and a wake-up go round the loop again. */
  lemma {:induction false} ReturnsTell(s: Stream, steps: seq<Step>, last: nat, t: nat)
    requires Legal(s, steps) && last < |steps| && ByCaller(steps[last], t)
    requires forall i | last < i < |steps| :: !ByCaller(steps[i], t)
    ensures Tells(After(s, steps), steps[last], After(s, steps).Get(t).pc)
    decreases |steps|
  {
    if last > 0 {
      ReturnsTell(Do(s, steps[0]), steps[1..], last - 1, t);
    } else {
      Undisturbed(Do(s, steps[0]), steps[1..], t);
    }
  }

  lemma {:induction false} Undisturbed(s: Stream, steps: seq<Step>, t: nat)
    requires Legal(s, steps) && forall i | 0 <= i < |steps| :: !ByCaller(steps[i], t)
    ensures After(s, steps).Get(t) == s.Get(t) && (s.abandoned ==> After(s, steps).abandoned)
    decreases |steps|
  {
    if steps != [] {
      assert !ByCaller(steps[0], t);
      assert Do(s, steps[0]).Get(t) == s.Get(t);
      Undisturbed(Do(s, steps[0]), steps[1..], t);
    }
  }
}
