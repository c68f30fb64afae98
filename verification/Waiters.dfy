/**
 The per-stream waiter tables filled by the control-stream reader.

 A waiter registers a one-slot channel under a stream id. A delivery looks the channel up under the
 lock and sends without blocking after releasing it, dropping the message when the slot is full.
 Several readers may be delivering at once. Two tables share this shape: stream-mode notices leave
 the entry in place for the waiter to cancel, candidate answers remove it at the lookup.
 */
module Waiters {

  // id: the stream id it was registered for; sent: messages the channel accepted, in order, of which
  // the slot holds sent[received..].
  datatype Chan<M> = Chan(id: nat, sent: seq<M>, received: nat, waited: bool)

  datatype Held<M> = Held(ch: nat, msg: M)

  datatype Outcome<M> = Message(msg: M) | CtxDone

  datatype Waiter<M> =
    | Waiting(id: nat, ch: nat)
    | Leaving(id: nat, ch: nat, outcome: Outcome<M>)   // the deferred cancel is still to run
    | Done(id: nat, ch: nat, outcome: Outcome<M>)
    | NotRegistered(id: nat)

  datatype Table<M> = Table(
    takes: bool,                      // does a delivery remove the entry it looks up?
    entries: map<nat, nat>,           // stream id -> channel
    chans: seq<Chan<M>>,
    readers: map<nat, Held<M>>,       // deliveries between lookup and send
    waiters: map<nat, Waiter<M>>,
    overflowed: set<nat>)             // channels on which a delivery found the slot full

  function Empty<M>(takes: bool): Table<M> {
    Table(takes, map[], [], map[], map[], {})
  }

  datatype Step<M> =
    | Register(id: nat)
    | Cancel(id: nat)
    | Look(r: nat, id: nat, msg: M)   // a reader looks the channel up; no waiter drops the message
    | Send(r: nat)                    // and sends without blocking
    | Wait(w: nat, id: nat)
    | Receive(w: nat)
    | Expire(w: nat)                  // the waiter's context fires
    | Leave(w: nat)                   // the deferred cancel

  // The only assumption: a registered channel is waited on by one call.
  predicate Enabled<M>(s: Table<M>, step: Step<M>) {
    match step
    case Register(id) => true
    case Cancel(id) => true
    case Look(r, id, msg) => r !in s.readers
    case Send(r) => r in s.readers && s.readers[r].ch < |s.chans|
    case Wait(w, id) =>
      && w !in s.waiters
      && (id in s.entries ==> s.entries[id] < |s.chans| && !s.chans[s.entries[id]].waited)
    case Receive(w) =>
      && w in s.waiters && s.waiters[w].Waiting? && s.waiters[w].ch < |s.chans|
      && s.chans[s.waiters[w].ch].received < |s.chans[s.waiters[w].ch].sent|
    case Expire(w) => w in s.waiters && s.waiters[w].Waiting?
    case Leave(w) => w in s.waiters && s.waiters[w].Leaving?
  }

  function Do<M>(s: Table<M>, step: Step<M>): Table<M>
    requires Enabled(s, step)
  {
    match step
    case Register(id) =>
      s.(entries := s.entries[id := |s.chans|], chans := s.chans + [Chan(id, [], 0, false)])
    case Cancel(id) => s.(entries := s.entries - {id})
    case Look(r, id, msg) =>
      if id !in s.entries then s
      else s.(readers := s.readers[r := Held(s.entries[id], msg)],
              entries := if s.takes then s.entries - {id} else s.entries)
    case Send(r) =>
      var h := s.readers[r];
      var c := s.chans[h.ch];
      var t := s.(readers := s.readers - {r});
      if c.received < |c.sent| then t.(overflowed := s.overflowed + {h.ch})
      else t.(chans := s.chans[h.ch := c.(sent := c.sent + [h.msg])])
    case Wait(w, id) =>
      if id !in s.entries then s.(waiters := s.waiters[w := NotRegistered(id)])
      else
        var ch := s.entries[id];
        s.(waiters := s.waiters[w := Waiting(id, ch)],
           chans := s.chans[ch := s.chans[ch].(waited := true)])
    case Receive(w) =>
      var x := s.waiters[w];
      var c := s.chans[x.ch];
      s.(waiters := s.waiters[w := Leaving(x.id, x.ch, Message(c.sent[c.received]))],
         chans := s.chans[x.ch := c.(received := c.received + 1)])
    case Expire(w) =>
      s.(waiters := s.waiters[w := Leaving(s.waiters[w].id, s.waiters[w].ch, CtxDone)])
    case Leave(w) =>
      var x := s.waiters[w];
      s.(waiters := s.waiters[w := Done(x.id, x.ch, x.outcome)], entries := s.entries - {x.id})
  }

  predicate Legal<M>(s: Table<M>, steps: seq<Step<M>>)
    decreases |steps|
  {
    steps == [] || (Enabled(s, steps[0]) && Legal(Do(s, steps[0]), steps[1..]))
  }

  function After<M>(s: Table<M>, steps: seq<Step<M>>): Table<M>
    requires Legal(s, steps)
    decreases |steps|
  {
    if steps == [] then s else After(Do(s, steps[0]), steps[1..])
  }

  // ---- Invariant ----

  ghost predicate EntriesOk<M>(s: Table<M>) {
    && (forall id <- s.entries :: s.entries[id] < |s.chans| && s.chans[s.entries[id]].id == id)
    && (forall r <- s.readers :: s.readers[r].ch < |s.chans|)
  }

  ghost predicate ChanOk<M>(c: Chan<M>) {
    c.received <= |c.sent| <= c.received + 1 && (c.received > 0 ==> c.waited)
  }

  /** A waiter has received nothing yet, or exactly the first message of its channel. */
  ghost predicate WaiterOk<M>(s: Table<M>, x: Waiter<M>) {
    x.NotRegistered? ||
    (&& x.ch < |s.chans| && s.chans[x.ch].waited && s.chans[x.ch].id == x.id
     && (x.Waiting? ==> s.chans[x.ch].received == 0)
     && ((x.Leaving? || x.Done?) && x.outcome.CtxDone? ==> s.chans[x.ch].received == 0)
     && ((x.Leaving? || x.Done?) && x.outcome.Message? ==>
           s.chans[x.ch].received == 1 && |s.chans[x.ch].sent| >= 1 && s.chans[x.ch].sent[0] == x.outcome.msg)
     && (x.Done? && x.id in s.entries ==> s.entries[x.id] != x.ch))
  }

  /** Two waiters never share a channel. */
  ghost predicate Unshared<M>(s: Table<M>) {
    forall v, w | v in s.waiters && w in s.waiters && v != w
                  && !s.waiters[v].NotRegistered? && !s.waiters[w].NotRegistered? ::
      s.waiters[v].ch != s.waiters[w].ch
  }

  ghost predicate OverflowOk<M>(s: Table<M>) {
    forall ch <- s.overflowed :: ch < |s.chans| && s.chans[ch].sent != []
  }

  ghost predicate ChansOk<M>(s: Table<M>) {
    forall i | 0 <= i < |s.chans| :: ChanOk(s.chans[i])
  }

  ghost predicate WaitersOk<M>(s: Table<M>) {
    forall w <- s.waiters :: WaiterOk(s, s.waiters[w])
  }

  ghost predicate Inv<M>(s: Table<M>) {
    EntriesOk(s) && ChansOk(s) && WaitersOk(s) && Unshared(s) && OverflowOk(s)
  }

  lemma EntriesStep<M>(s: Table<M>, step: Step<M>)
    requires EntriesOk(s) && Enabled(s, step)
    ensures EntriesOk(Do(s, step))
  {
  }

  lemma ChansStep<M>(s: Table<M>, step: Step<M>)
    requires EntriesOk(s) && ChansOk(s) && WaitersOk(s) && OverflowOk(s) && Enabled(s, step)
    ensures ChansOk(Do(s, step)) && OverflowOk(Do(s, step))
  {
  }

  lemma UnsharedStep<M>(s: Table<M>, step: Step<M>)
    requires WaitersOk(s) && Unshared(s) && Enabled(s, step)
    ensures Unshared(Do(s, step))
  {
    if step.Wait? && step.id in s.entries {
      assert forall v <- s.waiters :: WaiterOk(s, s.waiters[v]);
    }
  }

  /** A waiter that is not itself stepping is undisturbed. */
  lemma OthersKept<M>(s: Table<M>, step: Step<M>, w: nat)
    requires Inv(s) && Enabled(s, step) && w in s.waiters
    requires step.Receive? || step.Expire? || step.Leave? || step.Wait? ==> step.w != w
    ensures WaiterOk(Do(s, step), s.waiters[w])
  {
    assert WaiterOk(s, s.waiters[w]);
  }

  lemma SelfKept<M>(s: Table<M>, step: Step<M>)
    requires Inv(s) && Enabled(s, step)
    requires step.Receive? || step.Expire? || step.Leave? || step.Wait?
    ensures WaiterOk(Do(s, step), Do(s, step).waiters[step.w])
  {
    if !step.Wait? {
      assert WaiterOk(s, s.waiters[step.w]);
      assert ChanOk(s.chans[s.waiters[step.w].ch]);
    } else if step.id in s.entries {
      assert ChanOk(s.chans[s.entries[step.id]]);
    }
  }

  lemma StepInv<M>(s: Table<M>, step: Step<M>)
    requires Inv(s) && Enabled(s, step)
    ensures Inv(Do(s, step))
  {
    var t := Do(s, step);
    EntriesStep(s, step);
    ChansStep(s, step);
    UnsharedStep(s, step);
    forall w <- t.waiters
      ensures WaiterOk(t, t.waiters[w])
    {
      if (step.Receive? || step.Expire? || step.Leave? || step.Wait?) && step.w == w {
        SelfKept(s, step);
      } else {
        OthersKept(s, step, w);
      }
    }
  }

  lemma {:induction false} RunInv<M>(s: Table<M>, steps: seq<Step<M>>)
    requires Inv(s) && Legal(s, steps)
    ensures Inv(After(s, steps))
    decreases |steps|
  {
    if steps != [] {
      StepInv(s, steps[0]);
      RunInv(Do(s, steps[0]), steps[1..]);
    }
  }

  ghost predicate Reachable<M(!new)>(s: Table<M>) {
    exists steps :: Legal(Empty<M>(s.takes), steps) && s == After(Empty(s.takes), steps)
  }

  lemma ReachableInv<M(!new)>(s: Table<M>)
    requires Reachable(s)
    ensures Inv(s)
  {
    var steps :| Legal(Empty<M>(s.takes), steps) && s == After(Empty(s.takes), steps);
    RunInv(Empty(s.takes), steps);
  }

  // ---- Stream-mode notices ----

  /** Stream id `id` has been registered exactly once. */
  ghost predicate RegisteredOnce<M>(s: Table<M>, id: nat) {
    && (exists i | 0 <= i < |s.chans| :: s.chans[i].id == id)
    && (forall i, j | 0 <= i < j < |s.chans| :: s.chans[i].id != id || s.chans[j].id != id)
  }

  /** A wait that ends with a message ends with the first one its channel accepted, and a finished
      wait leaves no entry for its channel, in every interleaving of readers, waiters and cancels. If
      its stream id was registered once, it leaves no entry at all. */
  lemma WaitReturnsFirst<M(!new)>(s: Table<M>, w: nat)
    requires Reachable(s) && w in s.waiters && (s.waiters[w].Leaving? || s.waiters[w].Done?)
    ensures s.waiters[w].ch < |s.chans|
    ensures s.waiters[w].outcome.Message? ==>
              s.chans[s.waiters[w].ch].sent != [] && s.waiters[w].outcome.msg == s.chans[s.waiters[w].ch].sent[0]
    ensures s.waiters[w].Done? ==> forall id <- s.entries :: s.entries[id] != s.waiters[w].ch
    ensures s.waiters[w].Done? && RegisteredOnce(s, s.waiters[w].id) ==> s.waiters[w].id !in s.entries
  {
    ReachableInv(s);
    assert WaiterOk(s, s.waiters[w]);
  }

  /** The first message on a channel is never the one that is dropped. */
  lemma FirstIsNeverDropped<M(!new)>(s: Table<M>, ch: nat)
    requires Reachable(s) && ch in s.overflowed
    ensures ch < |s.chans| && s.chans[ch].sent != []
  {
    ReachableInv(s);
  }

  /** A channel no delivery can reach any more: no entry leads to it and no reader holds it. */
  ghost predicate Orphaned<M>(s: Table<M>, ch: nat) {
    && ch < |s.chans|
    && (forall id <- s.entries :: s.entries[id] != ch)
    && (forall r <- s.readers :: s.readers[r].ch != ch)
  }

  lemma OrphanedStep<M>(s: Table<M>, ch: nat, step: Step<M>)
    requires Orphaned(s, ch) && Enabled(s, step)
    ensures Orphaned(Do(s, step), ch) && Do(s, step).chans[ch].sent == s.chans[ch].sent
  {
  }

  lemma {:induction false} OrphanedRun<M>(s: Table<M>, ch: nat, steps: seq<Step<M>>)
    requires Orphaned(s, ch) && Legal(s, steps)
    ensures Orphaned(After(s, steps), ch) && After(s, steps).chans[ch].sent == s.chans[ch].sent
    decreases |steps|
  {
    if steps != [] {
      OrphanedStep(s, ch, steps[0]);
      OrphanedRun(Do(s, steps[0]), ch, steps[1..]);
    }
  }

  /** Some run makes the wait end with a message. */
  ghost predicate CanReceive<M(!new)>(s: Table<M>, w: nat) {
    exists steps :: Legal(s, steps) && w in After(s, steps).waiters
                    && After(s, steps).waiters[w].Leaving? && After(s, steps).waiters[w].outcome.Message?
  }

  lemma {:induction false} WaiterKeepsChannel<M>(s: Table<M>, w: nat, steps: seq<Step<M>>)
    requires Legal(s, steps) && w in s.waiters && !s.waiters[w].NotRegistered?
    ensures var t := After(s, steps);
            w in t.waiters && !t.waiters[w].NotRegistered? && t.waiters[w].ch == s.waiters[w].ch
    decreases |steps|
  {
    if steps != [] {
      WaiterKeepsChannel(Do(s, steps[0]), w, steps[1..]);
    }
  }

  lemma Runs<M>(s: Table<M>, a: Step<M>, rest: seq<Step<M>>)
    requires Enabled(s, a) && Legal(Do(s, a), rest)
    ensures Legal(s, [a] + rest) && After(s, [a] + rest) == After(Do(s, a), rest)
  {
    assert ([a] + rest)[1..] == rest;
  }

  lemma ReceiveNow<M(!new)>(s: Table<M>, w: nat) returns (steps: seq<Step<M>>)
    requires Enabled(s, Step<M>.Receive(w))
    ensures Legal(s, steps) && w in After(s, steps).waiters
    ensures After(s, steps).waiters[w].Leaving? && After(s, steps).waiters[w].outcome.Message?
  {
    steps := [Step<M>.Receive(w)] + [];
    assert Legal(Do(s, Step<M>.Receive(w)), []);
    Runs(s, Step<M>.Receive(w), []);
  }

  /** Whatever a held message finds in the slot, the wait can then end with a message. */
  lemma SendThenReceive<M(!new)>(s: Table<M>, w: nat, r: nat) returns (steps: seq<Step<M>>)
    requires Inv(s) && w in s.waiters && s.waiters[w].Waiting?
    requires r in s.readers && s.readers[r].ch == s.waiters[w].ch
    ensures Legal(s, steps) && w in After(s, steps).waiters
    ensures After(s, steps).waiters[w].Leaving? && After(s, steps).waiters[w].outcome.Message?
  {
    assert WaiterOk(s, s.waiters[w]);
    var t := Do(s, Step<M>.Send(r));
    var rest := ReceiveNow(t, w);
    Runs(s, Step<M>.Send(r), rest);
    steps := [Step<M>.Send(r)] + rest;
  }

  /** A waiting call can still end with a message if and only if one is in its slot, a reader holds one
      for it, or its entry is in place. The reader never blocks on the way. */
  lemma DeliveryReachesWaiter<M(!new)>(s: Table<M>, w: nat, r: nat, msg: M)
    requires Reachable(s) && w in s.waiters && s.waiters[w].Waiting? && r !in s.readers
    ensures s.waiters[w].ch < |s.chans|
    ensures CanReceive(s, w) <==>
            s.chans[s.waiters[w].ch].sent != [] || !Orphaned(s, s.waiters[w].ch)
  {
    ReachableInv(s);
    var ch := s.waiters[w].ch;
    assert WaiterOk(s, s.waiters[w]);
    if s.chans[ch].sent != [] {
      var steps := ReceiveNow(s, w);
    } else if !Orphaned(s, ch) {
      if q :| q in s.readers && s.readers[q].ch == ch {
        var steps := SendThenReceive(s, w, q);
      } else {
        var id :| id in s.entries && s.entries[id] == ch;
        StepInv(s, Look(r, id, msg));
        var rest := SendThenReceive(Do(s, Look(r, id, msg)), w, r);
        Runs(s, Look(r, id, msg), rest);
      }
    } else {
      forall steps | Legal(s, steps) && w in After(s, steps).waiters
                     && After(s, steps).waiters[w].Leaving?
        ensures !After(s, steps).waiters[w].outcome.Message?
      {
        OrphanedRun(s, ch, steps);
        WaiterKeepsChannel(s, w, steps);
        RunInv(s, steps);
        assert WaiterOk(After(s, steps), After(s, steps).waiters[w]);
      }
    }
  }

  lemma OrphanedIff<M>(s: Table<M>, w: nat)
    requires Inv(s) && w in s.waiters && s.waiters[w].Waiting?
    ensures var x := s.waiters[w];
            !Orphaned(s, x.ch) <==>
            || (exists q :: q in s.readers && s.readers[q].ch == x.ch)
            || (x.id in s.entries && s.entries[x.id] == x.ch)
  {
    assert WaiterOk(s, s.waiters[w]);
  }

  /** The stream id a cancelling step names. */
  function Cancelled<M>(s: Table<M>, step: Step<M>): nat
    requires Enabled(s, step) && (step.Cancel? || step.Leave?)
  {
    if step.Cancel? then step.id else s.waiters[step.w].id
  }

  /** A cancel, and the deferred cancel of a wait alike, names the stream, not the channel: if the id was
      registered again meanwhile, it takes the newer wait's entry away, and that wait can no longer be
      reached unless a message for it is already there. Otherwise it disturbs no other wait. */
  lemma CancelDropsNewer<M(!new)>(s: Table<M>, step: Step<M>, w: nat, r: nat, msg: M)
    requires Reachable(s) && Enabled(s, step) && (step.Cancel? || step.Leave?) && r !in s.readers
    requires w in s.waiters && s.waiters[w].Waiting?
    ensures s.waiters[w].ch < |s.chans|
    ensures CanReceive(Do(s, step), w) <==>
            || s.chans[s.waiters[w].ch].sent != []
            || (exists q :: q in s.readers && s.readers[q].ch == s.waiters[w].ch)
            || (&& s.waiters[w].id != Cancelled(s, step) && s.waiters[w].id in s.entries
                && s.entries[s.waiters[w].id] == s.waiters[w].ch)
  {
    ReachableInv(s);
    var t := Do(s, step);
    StepInv(s, step);
    OrphanedIff(t, w);
    ReachableOn(s, step);
    DeliveryReachesWaiter(t, w, r, msg);
  }

  lemma ReachableOn<M(!new)>(s: Table<M>, step: Step<M>)
    requires Reachable(s) && Enabled(s, step)
    ensures Reachable(Do(s, step))
  {
    var steps :| Legal(Empty<M>(s.takes), steps) && s == After(Empty(s.takes), steps);
    OneMore(Empty(s.takes), steps, step);
  }

  lemma {:induction false} OneMore<M>(s: Table<M>, steps: seq<Step<M>>, step: Step<M>)
    requires Legal(s, steps) && Enabled(After(s, steps), step)
    ensures Legal(s, steps + [step]) && After(s, steps + [step]) == Do(After(s, steps), step)
    decreases |steps|
  {
    if steps == [] {
      assert [step][1..] == [] && Legal(Do(s, step), []);
      assert [] + [step] == [step];
    } else {
      OneMore(Do(s, steps[0]), steps[1..], step);
      assert (steps + [step])[1..] == steps[1..] + [step];
    }
  }

  // ---- A notice is for its own stream ----

  /** A message for stream `id` is in a channel or on its way to one. */
  ghost predicate Carries<M>(s: Table<M>, id: nat, msg: M) {
    || (exists i :: 0 <= i < |s.chans| && s.chans[i].id == id && msg in s.chans[i].sent)
    || (exists r :: r in s.readers && s.readers[r].msg == msg
                    && s.readers[r].ch < |s.chans| && s.chans[s.readers[r].ch].id == id)
  }

  ghost predicate WasDelivered<M>(steps: seq<Step<M>>, id: nat, msg: M) {
    exists j :: 0 <= j < |steps| && steps[j].Look? && steps[j].id == id && steps[j].msg == msg
  }

  lemma CarriedSend<M>(s: Table<M>, r: nat, id: nat, msg: M)
    requires Enabled(s, Step<M>.Send(r)) && Carries(Do(s, Step<M>.Send(r)), id, msg)
    ensures Carries(s, id, msg)
  {
    var t := Do(s, Step<M>.Send(r));
    if i :| 0 <= i < |t.chans| && t.chans[i].id == id && msg in t.chans[i].sent {
      if msg !in s.chans[i].sent {
        assert r in s.readers && s.readers[r].msg == msg && s.readers[r].ch == i;
      }
    } else {
      var q :| q in t.readers && t.readers[q].msg == msg
               && t.readers[q].ch < |t.chans| && t.chans[t.readers[q].ch].id == id;
      assert q in s.readers && s.readers[q].msg == msg && s.chans[s.readers[q].ch].id == id;
    }
  }

  lemma CarriedLook<M>(s: Table<M>, r: nat, key: nat, m: M, id: nat, msg: M)
    requires EntriesOk(s) && Enabled(s, Look(r, key, m)) && Carries(Do(s, Look(r, key, m)), id, msg)
    ensures Carries(s, id, msg) || (key == id && m == msg)
  {
    var t := Do(s, Look(r, key, m));
    if !(exists i :: 0 <= i < |t.chans| && t.chans[i].id == id && msg in t.chans[i].sent) {
      var q :| q in t.readers && t.readers[q].msg == msg
               && t.readers[q].ch < |t.chans| && t.chans[t.readers[q].ch].id == id;
      if q != r {
        assert q in s.readers && s.readers[q].msg == msg && s.chans[s.readers[q].ch].id == id;
      }
    }
  }

  lemma CarriedStep<M>(s: Table<M>, step: Step<M>, id: nat, msg: M)
    requires EntriesOk(s) && Enabled(s, step) && Carries(Do(s, step), id, msg)
    ensures Carries(s, id, msg) || (step.Look? && step.id == id && step.msg == msg)
  {
    match step
    case Send(r) => CarriedSend(s, r, id, msg);
    case Look(r, key, m) => CarriedLook(s, r, key, m, id, msg);
    case _ => CarriedElsewhere(s, step, id, msg);
  }

  lemma CarriedElsewhere<M>(s: Table<M>, step: Step<M>, id: nat, msg: M)
    requires EntriesOk(s) && Enabled(s, step) && !step.Send? && !step.Look? && Carries(Do(s, step), id, msg)
    ensures Carries(s, id, msg)
  {
    var t := Do(s, step);
    assert t.readers == s.readers;
    if i :| 0 <= i < |t.chans| && t.chans[i].id == id && msg in t.chans[i].sent {
      assert 0 <= i < |s.chans| && s.chans[i].id == id && msg in s.chans[i].sent;
    } else {
      var q :| q in t.readers && t.readers[q].msg == msg
               && t.readers[q].ch < |t.chans| && t.chans[t.readers[q].ch].id == id;
      assert q in s.readers && s.chans[s.readers[q].ch].id == id;
    }
  }

  lemma {:induction false} CarriedRun<M>(s: Table<M>, steps: seq<Step<M>>, id: nat, msg: M)
    requires EntriesOk(s) && Legal(s, steps) && Carries(After(s, steps), id, msg)
    ensures Carries(s, id, msg) || WasDelivered(steps, id, msg)
    decreases |steps|
  {
    if steps != [] {
      EntriesStep(s, steps[0]);
      CarriedRun(Do(s, steps[0]), steps[1..], id, msg);
      if WasDelivered(steps[1..], id, msg) {
        var j :| 0 <= j < |steps[1..]| && steps[1..][j].Look? && steps[1..][j].id == id && steps[1..][j].msg == msg;
        assert steps[j + 1].Look? && steps[j + 1].id == id && steps[j + 1].msg == msg;
      } else {
        CarriedStep(s, steps[0], id, msg);
      }
    }
  }

  /** Whatever a wait returns was delivered for the very stream it waited on, in every run. */
  lemma NoticesAreForTheirStream<M>(takes: bool, steps: seq<Step<M>>, w: nat)
    requires Legal(Empty(takes), steps)
    requires var s := After(Empty(takes), steps);
             && w in s.waiters && (s.waiters[w].Leaving? || s.waiters[w].Done?)
             && s.waiters[w].outcome.Message?
    ensures var x := After(Empty(takes), steps).waiters[w];
            WasDelivered(steps, x.id, x.outcome.msg)
  {
    var s := After(Empty<M>(takes), steps);
    RunInv(Empty(takes), steps);
    assert WaiterOk(s, s.waiters[w]);
    var x := s.waiters[w];
    assert s.chans[x.ch].id == x.id && x.outcome.msg in s.chans[x.ch].sent;
    CarriedRun(Empty(takes), steps, x.id, x.outcome.msg);
  }

  /** A delivery, done at once, ends the wait of its stream with that very message. A notice leaves the
      entry for the waiter to cancel, an answer takes it. */
  lemma DeliveredAtOnce<M(!new)>(s: Table<M>, w: nat, r: nat, msg: M) returns (a: Table<M>, b: Table<M>, c: Table<M>)
    requires Reachable(s) && w in s.waiters && s.waiters[w].Waiting? && r !in s.readers
    requires s.waiters[w].ch < |s.chans| && s.chans[s.waiters[w].ch].sent == []
    requires s.waiters[w].id in s.entries && s.entries[s.waiters[w].id] == s.waiters[w].ch
    ensures a == Do(s, Look(r, s.waiters[w].id, msg)) && (s.waiters[w].id in a.entries <==> !s.takes)
    ensures Enabled(a, Step<M>.Send(r)) && b == Do(a, Step<M>.Send(r)) && b.entries == a.entries
    ensures Enabled(b, Step<M>.Receive(w)) && c == Do(b, Step<M>.Receive(w))
    ensures c.waiters[w] == Leaving(s.waiters[w].id, s.waiters[w].ch, Message(msg))
    ensures c.readers == s.readers && c.overflowed == s.overflowed
  {
    ReachableInv(s);
    assert WaiterOk(s, s.waiters[w]);
    a := Do(s, Look(r, s.waiters[w].id, msg));
    b := Do(a, Step<M>.Send(r));
    c := Do(b, Step<M>.Receive(w));
  }

  /** From any state, a registration and a wait on it are answered by the next delivery for that stream,
      and the wait leaves no entry behind; a wait whose context fires first ends with that. */
  lemma RegisteredWait<M(!new)>(s: Table<M>, id: nat, w: nat, r: nat, msg: M) returns (s2: Table<M>, done: Table<M>)
    requires Reachable(s) && w !in s.waiters && r !in s.readers
    ensures Enabled(Do(s, Step<M>.Register(id)), Step<M>.Wait(w, id))
    ensures s2 == Do(Do(s, Step<M>.Register(id)), Step<M>.Wait(w, id)) && s2.waiters[w].Waiting?
    ensures Reachable(s2) && s2.waiters[w].id == id && s2.readers == s.readers
    ensures Legal(s2, [Look(r, id, msg), Send(r), Receive(w), Leave(w)])
    ensures done == After(s2, [Look(r, id, msg), Send(r), Receive(w), Leave(w)])
    ensures w in done.waiters && done.waiters[w].Done? && done.waiters[w].outcome == Message(msg) && id !in done.entries
  {
    ReachableInv(s);
    s2 := Do(Do(s, Step<M>.Register(id)), Step<M>.Wait(w, id));
    ReachableOn(s, Step<M>.Register(id));
    ReachableOn(Do(s, Step<M>.Register(id)), Step<M>.Wait(w, id));
    var a, b, c := DeliveredAtOnce(s2, w, r, msg);
    done := Do(c, Step<M>.Leave(w));
    FourSteps(s2, Look(r, id, msg), Send(r), Receive(w), Leave(w));
  }

  lemma FourSteps<M>(s: Table<M>, a: Step<M>, b: Step<M>, c: Step<M>, d: Step<M>)
    requires Enabled(s, a) && Enabled(Do(s, a), b) && Enabled(Do(Do(s, a), b), c)
    requires Enabled(Do(Do(Do(s, a), b), c), d)
    ensures Legal(s, [a, b, c, d]) && After(s, [a, b, c, d]) == Do(Do(Do(Do(s, a), b), c), d)
  {
    var end := Do(Do(Do(Do(s, a), b), c), d);
    assert Legal(end, []) && After(end, []) == end;
    Runs(Do(Do(Do(s, a), b), c), d, []);
    Runs(Do(Do(s, a), b), c, [d] + []);
    Runs(Do(s, a), b, [c] + ([d] + []));
    Runs(s, a, [b] + ([c] + ([d] + [])));
    assert [a] + ([b] + ([c] + ([d] + []))) == [a, b, c, d];
  }

  /** A second notice finds the slot full and is dropped; a second answer finds no entry. */
  lemma SecondIsDropped<M(!new)>(s: Table<M>, w: nat, r: nat, first: M, second: M)
    requires Reachable(s) && w in s.waiters && s.waiters[w].Waiting? && r !in s.readers
    requires s.waiters[w].ch < |s.chans| && s.chans[s.waiters[w].ch].sent == []
    requires s.waiters[w].id in s.entries && s.entries[s.waiters[w].id] == s.waiters[w].ch
    ensures var id := s.waiters[w].id;
            var a := Do(s, Look(r, id, first));
            && Enabled(a, Step<M>.Send(r))
            && var b := Do(a, Step<M>.Send(r));
            && Enabled(b, Look(r, id, second))
            && var c := Do(b, Look(r, id, second));
            && (s.takes ==> c == b)
            && (!s.takes ==> Enabled(c, Step<M>.Send(r))
                             && Do(c, Step<M>.Send(r)) == b.(overflowed := b.overflowed + {s.waiters[w].ch}))
  {
    var a, b, c := DeliveredAtOnce(s, w, r, first);
    var id := s.waiters[w].id;
    var d := Do(b, Look(r, id, second));
    if !s.takes {
      assert Do(d, Step<M>.Send(r)).readers == b.readers;
    }
  }

  /** A wait whose context fires ends with that and leaves no entry, and a wait after a cancel is refused. */
  lemma ExpiredOrCancelled<M>(s: Table<M>, w: nat, id: nat, v: nat)
    requires w in s.waiters && s.waiters[w].Waiting? && v !in s.waiters
    ensures Enabled(s, Step<M>.Expire(w)) && Enabled(Do(s, Step<M>.Expire(w)), Step<M>.Leave(w))
    ensures var t := Do(Do(s, Step<M>.Expire(w)), Step<M>.Leave(w));
            t.waiters[w] == Done(s.waiters[w].id, s.waiters[w].ch, CtxDone) && s.waiters[w].id !in t.entries
    ensures Enabled(Do(s, Step<M>.Cancel(id)), Step<M>.Wait(v, id))
    ensures Do(Do(s, Step<M>.Cancel(id)), Step<M>.Wait(v, id)).waiters[v] == NotRegistered(id)
  {
  }

  // ---- Candidate answers ----

  /** With removal at the lookup, a channel is registered, or held by one reader, or used. */
  ghost predicate OneShot<M>(s: Table<M>) {
    && s.takes
    && s.overflowed == {}
    && (forall i | 0 <= i < |s.chans| :: |s.chans[i].sent| <= 1)
    && (forall q, r | q in s.readers && r in s.readers && q != r :: s.readers[q].ch != s.readers[r].ch)
    && (forall r <- s.readers :: s.readers[r].ch < |s.chans| && s.chans[s.readers[r].ch].sent == [])
    && (forall id <- s.entries :: s.entries[id] < |s.chans| && s.chans[s.entries[id]].sent == [])
    && (forall id, r | id in s.entries && r in s.readers :: s.entries[id] != s.readers[r].ch)
  }

  lemma OneShotSend<M>(s: Table<M>, r: nat)
    requires OneShot(s) && Enabled(s, Step<M>.Send(r))
    ensures OneShot(Do(s, Step<M>.Send(r)))
  {
    assert s.chans[s.readers[r].ch].sent == [];
  }

  lemma OneShotFrame<M>(s: Table<M>, t: Table<M>)
    requires OneShot(s) && t.takes && t.overflowed == {} && t.readers == s.readers
    requires |t.chans| == |s.chans|
    requires forall i | 0 <= i < |s.chans| :: t.chans[i].sent == s.chans[i].sent
    requires forall id <- t.entries :: id in s.entries && t.entries[id] == s.entries[id]
    ensures OneShot(t)
  {
  }

  lemma OneShotLook<M>(s: Table<M>, r: nat, id: nat, msg: M)
    requires EntriesOk(s) && OneShot(s) && Enabled(s, Look(r, id, msg))
    ensures OneShot(Do(s, Look(r, id, msg)))
  {
  }

  lemma OneShotRegister<M>(s: Table<M>, id: nat)
    requires EntriesOk(s) && OneShot(s)
    ensures OneShot(Do(s, Step<M>.Register(id)))
  {
  }

  lemma OneShotStep<M>(s: Table<M>, step: Step<M>)
    requires Inv(s) && OneShot(s) && Enabled(s, step)
    ensures OneShot(Do(s, step))
  {
    match step
    case Send(r) => OneShotSend(s, r);
    case Look(r, id, msg) => OneShotLook(s, r, id, msg);
    case Register(id) => OneShotRegister(s, id);
    case _ => OneShotFrame(s, Do(s, step));
  }

  lemma {:induction false} OneShotRun<M>(s: Table<M>, steps: seq<Step<M>>)
    requires Inv(s) && OneShot(s) && Legal(s, steps)
    ensures OneShot(After(s, steps))
    decreases |steps|
  {
    if steps != [] {
      StepInv(s, steps[0]);
      OneShotStep(s, steps[0]);
      OneShotRun(Do(s, steps[0]), steps[1..]);
    }
  }

  /** Each answer channel accepts at most one answer, so no delivery ever finds it full, even when an
      id is registered again and several readers deliver at once. */
  lemma AnswersNeverOverflow<M(!new)>(s: Table<M>)
    requires Reachable(s) && s.takes
    ensures s.overflowed == {}
    ensures forall c <- s.chans :: |c.sent| <= 1
  {
    var steps :| Legal(Empty<M>(s.takes), steps) && s == After(Empty(s.takes), steps);
    OneShotRun(Empty(s.takes), steps);
    assert OneShot(s);
  }
}
