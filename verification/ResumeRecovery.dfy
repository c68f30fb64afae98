/**
 When a stream can be brought back, and when it cannot.

 From any reachable state in which neither side has given up, the protocol has a run that delivers
 every byte, provided each side's undelivered backlog fits its ring. If what a side has logged and its
 peer has not read does not fit, no run ever delivers it, and the peer never reads another byte. A
 resume begun while counters lag behind the bytes is exact only if the lags cancel.
 */
module ResumeRecovery {
  import opened ResumeState
  import opened ResumeProtocol

  /** Some disciplined run takes `s` to `t`. */
  ghost predicate Leads(s: Sys, t: Sys) {
    exists steps :: Legal(s, steps) && Disciplined(s, steps) && After(s, steps) == t
  }

  lemma LeadsNowhere(s: Sys)
    ensures Leads(s, s)
  {
    assert Legal(s, []) && Disciplined(s, []) && After(s, []) == s;
  }

  lemma {:induction false} Compose(s: Sys, a: seq<Step>, b: seq<Step>)
    requires Legal(s, a) && Disciplined(s, a)
    requires Legal(After(s, a), b) && Disciplined(After(s, a), b)
    ensures Legal(s, a + b) && Disciplined(s, a + b) && After(s, a + b) == After(After(s, a), b)
    decreases |a|
  {
    if a == [] {
      assert a + b == b;
    } else {
      assert (a + b)[0] == a[0] && (a + b)[1..] == a[1..] + b;
      Compose(Do(s, a[0]), a[1..], b);
    }
  }

  lemma LeadsOn(s: Sys, t: Sys, u: Sys)
    requires Leads(s, t) && Leads(t, u)
    ensures Leads(s, u)
  {
    var a :| Legal(s, a) && Disciplined(s, a) && After(s, a) == t;
    var b :| Legal(t, b) && Disciplined(t, b) && After(t, b) == u;
    Compose(s, a, b);
  }

  lemma OneStep(s: Sys, step: Step)
    requires Enabled(s, step) && Settled(s, step)
    ensures Leads(s, Do(s, step))
  {
    var steps := [step];
    assert steps[1..] == [];
    assert Legal(Do(s, step), []) && Disciplined(Do(s, step), []);
    assert Legal(s, steps) && Disciplined(s, steps) && After(s, steps) == Do(s, step);
  }

  lemma LeadsInv(s: Sys, t: Sys)
    requires Inv(s) && Leads(s, t)
    ensures Inv(t)
  {
    var steps :| Legal(s, steps) && Disciplined(s, steps) && After(s, steps) == t;
    RunInv(s, steps);
  }

  // ---- Recovery ----

  predicate Fits(s: Sys, w: Side) {
    Backlog(s, w) <= s.End(w).state.cap
  }

  predicate Synced(s: Sys) {
    s.left.got == s.right.log && s.right.got == s.left.log
  }

  /** Nothing was read, written or given up by an endpoint between `e` and `f`. */
  predicate SameData(e: Endpoint, f: Endpoint) {
    && f.log == e.log && f.got == e.got && f.lost == e.lost && f.state.cap == e.state.cap
  }

  lemma Extend(s: Sys, t: Sys, step: Step) returns (u: Sys)
    requires Inv(s) && Leads(s, t) && Enabled(t, step) && Settled(t, step)
    ensures u == Do(t, step) && Leads(s, u) && Inv(u)
  {
    u := Do(t, step);
    OneStep(t, step);
    LeadsOn(s, t, u);
    LeadsInv(s, u);
  }

  lemma Settle(s: Sys, x: Side) returns (t: Sys)
    requires Inv(s)
    ensures Leads(s, t) && Inv(t) && t.End(x).Quiet() && t.End(x).phase == s.End(x).phase
    ensures SameData(s.End(x), t.End(x)) && t.End(Peer(x)) == s.End(Peer(x))
  {
    LeadsNowhere(s);
    t := s;
    if t.End(x).pend != [] {
      t := Extend(s, t, Logged(x));
    }
    if t.End(x).uncounted > 0 {
      t := Extend(s, t, Counted(x));
    }
  }

  /** A closed side lets its counters settle and offers. */
  lemma OfferFromClosed(s: Sys, x: Side) returns (t: Sys)
    requires Inv(s) && s.End(x).phase.Closed?
    ensures Leads(s, t) && Inv(t) && t.End(x).phase.Offered? && t.End(x).Quiet()
    ensures SameData(s.End(x), t.End(x)) && t.End(Peer(x)) == s.End(Peer(x))
  {
    var u := Settle(s, x);
    t := Extend(s, u, Offer(x));
  }

  lemma ReplayNow(s: Sys, x: Side) returns (t: Sys)
    requires Inv(s) && Fits(s, x) && s.End(x).phase.Matched? && s.End(x).pend == []
    ensures Enabled(s, Replay(x)) && t == Do(s, Replay(x)) && Leads(s, t) && Inv(t)
    ensures t.End(x) == s.End(x).(phase := Replayed(s.End(x).phase.link))
    ensures t.End(Peer(x)) == s.End(Peer(x))
  {
    LeadsNowhere(s);
    GapIsBacklog(s, x);
    t := Extend(s, s, Replay(x));
  }

  /** A paired side finishes the resume it is in. */
  lemma FinishResume(s: Sys, x: Side) returns (t: Sys)
    requires Inv(s) && Fits(s, x) && (s.End(x).phase.Matched? || s.End(x).phase.Replayed?)
    ensures Leads(s, t) && Inv(t) && t.End(x).phase.Live?
    ensures SameData(s.End(x), t.End(x)) && t.End(Peer(x)) == s.End(Peer(x))
  {
    t := Settle(s, x);
    if t.End(x).phase.Matched? {
      var u := ReplayNow(t, x);
      LeadsOn(s, t, u);
      t := u;
    }
    t := Extend(s, t, Swap(x));
  }

  lemma OfferFromLive(s: Sys, x: Side) returns (t: Sys)
    requires Inv(s) && s.End(x).phase.Live?
    ensures Leads(s, t) && Inv(t) && t.End(x).phase.Offered? && t.End(x).Quiet()
    ensures SameData(s.End(x), t.End(x)) && t.End(Peer(x)) == s.End(Peer(x))
  {
    LeadsNowhere(s);
    var u := Extend(s, s, CloseInner(x));
    t := OfferFromClosed(u, x);
    LeadsOn(s, u, t);
  }

  /** A side in any phase gets ready to resume, on its own. */
  lemma GetOffered(s: Sys, x: Side) returns (t: Sys)
    requires Inv(s) && Fits(s, x)
    ensures Leads(s, t) && Inv(t) && t.End(x).phase.Offered? && t.End(x).Quiet()
    ensures SameData(s.End(x), t.End(x)) && t.End(Peer(x)) == s.End(Peer(x))
  {
    match s.End(x).phase
    case Offered(_) =>
      t := Settle(s, x);
    case Closed => t := OfferFromClosed(s, x);
    case Live(_) => t := OfferFromLive(s, x);
    case _ =>
      var u := FinishResume(s, x);
      t := OfferFromLive(u, x);
      LeadsOn(s, u, t);
  }

  predicate OnFreshLink(s: Sys, l: nat) {
    l < |s.links| && !s.Broken(l, Left) && !s.Broken(l, Right)
  }

  predicate Resuming(s: Sys, t: Sys, l: nat) {
    && SameData(s.left, t.left) && SameData(s.right, t.right) && OnFreshLink(t, l)
    && t.left.Quiet() && t.right.Quiet()
  }

  /** Two offered sides get matched and replay. */
  lemma MatchedReplay(s: Sys) returns (t: Sys)
    requires Inv(s) && s.left.phase.Offered? && s.right.phase.Offered? && s.left.Quiet() && s.right.Quiet()
    requires Fits(s, Left) && Fits(s, Right)
    ensures Leads(s, t) && Inv(t) && Resuming(s, t, |s.links|)
    ensures t.left.phase == t.right.phase == Replayed(|s.links|)
  {
    LeadsNowhere(s);
    t := Extend(s, s, Match);
    var u := ReplayNow(t, Left);
    LeadsOn(s, t, u);
    t := ReplayNow(u, Right);
    LeadsOn(s, u, t);
  }

  /** Then they swap onto the one unbroken link. */
  lemma MatchedResume(s: Sys) returns (t: Sys)
    requires Inv(s) && s.left.phase.Offered? && s.right.phase.Offered? && s.left.Quiet() && s.right.Quiet()
    requires Fits(s, Left) && Fits(s, Right)
    ensures Leads(s, t) && Inv(t) && Resuming(s, t, |s.links|)
    ensures t.left.phase == t.right.phase == Live(|s.links|)
  {
    t := MatchedReplay(s);
    t := Extend(s, t, Swap(Left));
    t := Extend(s, t, Swap(Right));
  }

  /** A live reader drains what is in flight towards it. */
  lemma Drain(s: Sys, x: Side) returns (t: Sys)
    requires Inv(s) && s.End(x).phase.Live? && !s.End(x).lost && s.End(x).uncounted == 0
    requires s.End(Peer(x)).phase == s.End(x).phase && OnFreshLink(s, s.End(x).phase.link)
    ensures Leads(s, t) && Inv(t)
    ensures t.End(x).got == s.End(Peer(x)).log
    ensures t.End(x).log == s.End(x).log && t.End(x).phase == s.End(x).phase
    ensures t.End(Peer(x)) == s.End(Peer(x)) && OnFreshLink(t, s.End(x).phase.link)
  {
    LeadsNowhere(s);
    t := s;
    assert Flow(s, Peer(x));
    var n := |s.Queue(s.End(x).phase.link, Peer(x))|;
    if n > 0 {
      t := Extend(s, t, Take(x, n));
    }
  }

  /** Whatever happened before, two sides that have not given up and whose backlogs fit their rings
      can still deliver every byte to each other. */
  lemma Recover(s: Sys) returns (t: Sys)
    requires Inv(s) && !s.left.lost && !s.right.lost
    requires Fits(s, Left) && Fits(s, Right)
    ensures Leads(s, t) && Synced(t)
    ensures t.left.log == s.left.log && t.right.log == s.right.log
  {
    var a := GetOffered(s, Left);
    var b := GetOffered(a, Right);
    LeadsOn(s, a, b);
    var c := MatchedResume(b);
    LeadsOn(s, b, c);
    var d := Drain(c, Left);
    LeadsOn(s, c, d);
    t := Drain(d, Right);
    LeadsOn(s, d, t);
  }

  /** A paired side replays, swaps and reads what is on its link. */
  lemma ResumeAndRead(s: Sys, x: Side) returns (t: Sys)
    requires Inv(s) && s.End(x).phase.Matched? && s.End(x).pend == [] && Fits(s, x) && !s.End(x).lost
    requires s.End(x).phase.link < |s.links| && s.Queue(s.End(x).phase.link, Peer(x)) != []
    ensures Leads(s, t) && t.End(x).got == s.End(x).got + s.Queue(s.End(x).phase.link, Peer(x))
    ensures t.End(x).phase == Live(s.End(x).phase.link) && s.End(x).phase.link < |t.links|
    ensures t.Queue(s.End(x).phase.link, Peer(x)) == []
  {
    assert Sound(s.End(x));
    t := ReplayNow(s, x);
    OtherQueueStays(s, x);
    t := Extend(s, t, Swap(x));
    t := ReadAll(s, t, x);
  }

  lemma ReadAll(s: Sys, r: Sys, x: Side) returns (t: Sys)
    requires Inv(s) && Leads(s, r) && r.End(x).phase.Live? && !r.End(x).lost && r.End(x).uncounted == 0
    requires r.End(x).phase.link < |r.links| && r.Queue(r.End(x).phase.link, Peer(x)) != []
    ensures Leads(s, t) && t.End(x).got == r.End(x).got + r.Queue(r.End(x).phase.link, Peer(x))
    ensures t.End(x).phase == r.End(x).phase && |t.links| == |r.links|
    ensures t.Queue(r.End(x).phase.link, Peer(x)) == []
  {
    var q := r.Queue(r.End(x).phase.link, Peer(x));
    t := Extend(s, r, Take(x, |q|));
    assert q[..|q|] == q;
  }

  lemma OtherQueueStays(s: Sys, x: Side)
    requires Enabled(s, Replay(x))
    ensures var l, t := s.End(x).phase.link, Do(s, Replay(x));
            |t.links| == |s.links| && t.Queue(l, Peer(x)) == s.Queue(l, Peer(x))
  {
  }

  lemma PartQueued(s: Sys, x: Side, n: nat, gap: seq<Byte>)
    requires s.End(x).phase.Matched? && s.End(x).phase.link < |s.links| && 0 < n <= |gap|
    requires s.links[s.End(x).phase.link].From(x) == Chan([], false) && GapAt(s, x) == Bytes(gap)
    ensures Enabled(s, ResumeFails(x, n))
    ensures var r, l := Do(s, ResumeFails(x, n)), s.End(x).phase.link;
            && l < |r.links| && r.Queue(l, x) == gap[..n]
            && r.End(Peer(x)) == s.End(Peer(x)) && r.End(x).got == s.End(x).got && r.End(x).log == s.End(x).log
  {
  }

  lemma PartOfGap(s: Sys, x: Side, n: nat)
    requires Inv(s) && s.End(x).phase.Matched? && s.End(Peer(x)).phase == s.End(x).phase
    requires OnFreshLink(s, s.End(x).phase.link) && s.End(x).pend == []
    requires n > 0 && Enabled(s, ResumeFails(x, n))
    ensures var got, log := s.End(Peer(x)).got, s.End(x).log;
            got <= log && GapAt(s, x) == Bytes(log[|got|..]) && |got| + n <= |log|
    ensures s.links[s.End(x).phase.link].From(x) == Chan([], false)
  {
    GapIsBacklog(s, x);
    assert Flow(s, x);
  }

  /** A resume that fails half-way has still delivered the part of the gap it wrote, and no more. */
  lemma PartOfTheGapArrives(s: Sys, x: Side, n: nat) returns (t: Sys)
    requires Reachable(s) && s.End(x).phase.Matched? && s.End(Peer(x)).phase == s.End(x).phase
    requires OnFreshLink(s, s.End(x).phase.link) && s.End(x).pend == [] && s.End(Peer(x)).pend == []
    requires Fits(s, Peer(x)) && !s.End(Peer(x)).lost && n > 0 && Enabled(s, ResumeFails(x, n))
    ensures Leads(Do(s, ResumeFails(x, n)), t) && |s.End(Peer(x)).got| + n <= |s.End(x).log|
    ensures t.End(Peer(x)).got == s.End(x).log[..|s.End(Peer(x)).got| + n]
    ensures t.End(Peer(x)).phase.Live? && t.End(Peer(x)).phase.link < |t.links|
    ensures t.Queue(t.End(Peer(x)).phase.link, x) == []
  {
    ReachableInv(s);
    PartLeft(s, x, n);
    t := ResumeAndRead(Do(s, ResumeFails(x, n)), Peer(x));
  }

  lemma PartLeft(s: Sys, x: Side, n: nat)
    requires Inv(s) && s.End(x).phase.Matched? && s.End(Peer(x)).phase == s.End(x).phase
    requires OnFreshLink(s, s.End(x).phase.link) && s.End(x).pend == []
    requires n > 0 && Enabled(s, ResumeFails(x, n))
    ensures var r, l, log := Do(s, ResumeFails(x, n)), s.End(x).phase.link, s.End(x).log;
            && Inv(r) && l < |r.links| && r.Queue(l, x) != [] && r.End(Peer(x)) == s.End(Peer(x))
            && |s.End(Peer(x)).got| + n <= |log| && r.End(x).got == s.End(x).got
            && s.End(Peer(x)).got + r.Queue(l, x) == log[..|s.End(Peer(x)).got| + n]
  {
    PartOfGap(s, x, n);
    var got, log := s.End(Peer(x)).got, s.End(x).log;
    PartQueued(s, x, n, log[|got|..]);
    ResumeFailsInv(s, x, n);
    Continued(got, log, n);
  }

  lemma Continued(got: seq<Byte>, log: seq<Byte>, n: nat)
    requires got <= log && |got| + n <= |log|
    ensures got + log[|got|..][..n] == log[..|got| + n]
  {
  }

  // ---- No recovery ----

  predicate Retransmits(step: Step, w: Side) {
    (step.Replay? || (step.ResumeFails? && step.n > 0)) && step.x == w
  }

  /** The log of `w` reaches position `k`, further beyond what its peer has read than the ring holds, and
      nothing is on a link the peer reads. Positions the peer has offered are among those it read. */
  ghost predicate Stuck(s: Sys, w: Side, got: seq<Byte>, k: nat) {
    var W, R := s.End(w), s.End(Peer(w));
    && |got| + W.state.cap < k <= |W.log|
    && R.got == got
    && (W.phase.Closed? || W.phase.Offered? || W.phase.Matched?)
    && (R.phase.Offered? ==> R.phase.recv <= |got|)
    && (W.phase.Matched? ==> W.phase.link < |s.links| && s.links[W.phase.link].Recv(Peer(w)) <= |got|)
    && (R.phase.Attached() ==> R.phase.link < |s.links| && s.Queue(R.phase.link, w) == [])
  }

  lemma StuckRefuses(s: Sys, w: Side, got: seq<Byte>, k: nat)
    requires Honest(s) && Stuck(s, w, got, k) && s.End(w).phase.Matched? && k <= s.End(w).state.sent
    ensures GapAt(s, w) == BeforeRing
  {
    Held(s.End(w), s.links[s.End(w).phase.link].Recv(Peer(w)));
  }

  lemma StuckWriter(s: Sys, w: Side, got: seq<Byte>, k: nat, step: Step)
    requires Honest(s) && Stuck(s, w, got, k) && Enabled(s, step)
    requires !step.Match? && !step.Break? && step.x == w
    requires Retransmits(step, w) ==> k <= s.End(w).state.sent
    ensures Stuck(Do(s, step), w, got, k)
  {
    if Retransmits(step, w) && s.End(w).phase.Matched? {
      StuckRefuses(s, w, got, k);
    }
  }

  /** What the reader does on its own moves nothing of the writer's and takes nothing from its links. */
  lemma ReaderAlone(s: Sys, w: Side, step: Step)
    requires Enabled(s, step) && !step.Match? && !step.Break? && !step.Take? && step.x == Peer(w)
    ensures Do(s, step).End(w) == s.End(w) && Do(s, step).End(Peer(w)).got == s.End(Peer(w)).got
    ensures Do(s, step).End(Peer(w)).phase.Offered? ==>
              || Do(s, step).End(Peer(w)).phase == s.End(Peer(w)).phase
              || Do(s, step).End(Peer(w)).phase.recv == s.End(Peer(w)).state.received
  {
  }

  lemma ReaderLinks(s: Sys, w: Side, step: Step)
    requires Enabled(s, step) && !step.Match? && !step.Break? && !step.Take? && step.x == Peer(w)
    ensures |Do(s, step).links| == |s.links|
    ensures forall l: nat | l < |s.links| ::
              Do(s, step).Queue(l, w) == s.Queue(l, w) && Do(s, step).links[l].Recv(Peer(w)) == s.links[l].Recv(Peer(w))
    ensures Do(s, step).End(Peer(w)).phase.Attached() ==>
              s.End(Peer(w)).phase.Attached() && Do(s, step).End(Peer(w)).phase.link == s.End(Peer(w)).phase.link
  {
  }

  lemma StuckReader(s: Sys, w: Side, got: seq<Byte>, k: nat, step: Step)
    requires Honest(s) && Stuck(s, w, got, k) && Enabled(s, step)
    requires !step.Match? && !step.Break? && step.x == Peer(w)
    ensures Stuck(Do(s, step), w, got, k)
  {
    assert Accounts(s.End(Peer(w)));
    if !step.Take? {
      ReaderAlone(s, w, step);
      ReaderLinks(s, w, step);
    }
  }

  lemma StuckElsewhere(s: Sys, w: Side, got: seq<Byte>, k: nat, step: Step)
    requires Stuck(s, w, got, k) && Enabled(s, step) && (step.Match? || step.Break?)
    ensures Stuck(Do(s, step), w, got, k)
  {
  }

  lemma StuckStep(s: Sys, w: Side, got: seq<Byte>, k: nat, step: Step)
    requires Honest(s) && Stuck(s, w, got, k) && Enabled(s, step)
    requires Retransmits(step, w) ==> k <= s.End(w).state.sent
    ensures Stuck(Do(s, step), w, got, k)
  {
    if step.Match? || step.Break? {
      StuckElsewhere(s, w, got, k, step);
    } else if step.x == w {
      StuckWriter(s, w, got, k, step);
    } else {
      StuckReader(s, w, got, k, step);
    }
  }

  lemma SentGrows(s: Sys, w: Side, step: Step)
    requires Enabled(s, step)
    ensures s.End(w).state.sent <= Do(s, step).End(w).state.sent
  {
  }

  lemma {:induction false} StuckInAnyRun(s: Sys, w: Side, got: seq<Byte>, k: nat, steps: seq<Step>)
    requires Honest(s) && Stuck(s, w, got, k) && k <= s.End(w).state.sent && Legal(s, steps)
    ensures Stuck(After(s, steps), w, got, k)
    decreases |steps|
  {
    if steps != [] {
      StuckStep(s, w, got, k, steps[0]);
      HonestStep(s, steps[0]);
      SentGrows(s, w, steps[0]);
      StuckInAnyRun(Do(s, steps[0]), w, got, k, steps[1..]);
    }
  }

  lemma {:induction false} StuckInDisciplinedRun(s: Sys, w: Side, got: seq<Byte>, k: nat, steps: seq<Step>)
    requires Honest(s) && Stuck(s, w, got, k) && Legal(s, steps) && Disciplined(s, steps)
    ensures Stuck(After(s, steps), w, got, k)
    decreases |steps|
  {
    if steps != [] {
      assert Accounts(s.End(w));
      StuckStep(s, w, got, k, steps[0]);
      HonestStep(s, steps[0]);
      StuckInDisciplinedRun(Do(s, steps[0]), w, got, k, steps[1..]);
    }
  }

  /** Some run, disciplined or not, takes `s` to `t`. */
  ghost predicate Follows(s: Sys, t: Sys) {
    exists steps :: Legal(s, steps) && After(s, steps) == t
  }

  lemma LeadsFollows(s: Sys, t: Sys)
    requires Leads(s, t)
    ensures Follows(s, t)
  {
    var steps :| Legal(s, steps) && Disciplined(s, steps) && After(s, steps) == t;
  }

  /** Logged bytes that no longer fit are lost for good: whatever happens next, disciplined or not, the
      peer of a closed stream never reads another byte. */
  lemma LostForGood(s: Sys, w: Side, t: Sys)
    requires Arises(s) && s.left.phase.Closed? && s.right.phase.Closed?
    requires s.End(w).state.sent - |s.End(Peer(w)).got| > s.End(w).state.cap
    requires Follows(s, t)
    ensures t.End(Peer(w)).got == s.End(Peer(w)).got && !Synced(t)
  {
    ArisesHonest(s);
    var steps :| Legal(s, steps) && After(s, steps) == t;
    assert Accounts(s.End(w));
    StuckInAnyRun(s, w, s.End(Peer(w)).got, s.End(w).state.sent, steps);
  }

  /** Two closed sides with nothing unlogged can be brought back in step, by any run whatever, if and
      only if both backlogs fit. */
  lemma RecoverableIffItFits(s: Sys)
    requires Reachable(s) && s.left.phase.Closed? && s.right.phase.Closed?
    requires !s.left.lost && !s.right.lost && s.left.pend == [] && s.right.pend == []
    ensures (exists t :: Follows(s, t) && Synced(t)) <==> Fits(s, Left) && Fits(s, Right)
  {
    ReachableInv(s);
    ReachableArises(s);
    if Fits(s, Left) && Fits(s, Right) {
      var t := Recover(s);
      LeadsFollows(s, t);
    } else {
      var w := if Fits(s, Left) then Right else Left;
      assert Sound(s.End(w));
      forall t | Follows(s, t)
        ensures !Synced(t)
      {
        LostForGood(s, w, t);
      }
    }
  }

  lemma ReachableArises(s: Sys)
    requires Reachable(s)
    ensures Arises(s)
  {
    var capLeft: nat, capRight: nat, steps :|
      && Legal(Init(capLeft, capRight), steps)
      && Disciplined(Init(capLeft, capRight), steps)
      && s == After(Init(capLeft, capRight), steps);
  }

  /** With unlogged bytes too, if the runs are disciplined. */
  lemma RecoverableExactlyWhenItFits(s: Sys)
    requires Reachable(s) && s.left.phase.Closed? && s.right.phase.Closed?
    requires !s.left.lost && !s.right.lost
    ensures (exists t :: Leads(s, t) && Synced(t)) <==> Fits(s, Left) && Fits(s, Right)
  {
    ReachableInv(s);
    if Fits(s, Left) && Fits(s, Right) {
      var t := Recover(s);
    } else {
      var w := if Fits(s, Left) then Right else Left;
      forall t | Leads(s, t)
        ensures !Synced(t)
      {
        UnfitInDisciplinedRun(s, w, t);
      }
    }
  }

  lemma UnfitInDisciplinedRun(s: Sys, w: Side, t: Sys)
    requires Reachable(s) && s.left.phase.Closed? && s.right.phase.Closed? && !Fits(s, w) && Leads(s, t)
    ensures !Synced(t)
  {
    ReachableArises(s);
    ArisesHonest(s);
    var steps :| Legal(s, steps) && Disciplined(s, steps) && After(s, steps) == t;
    StuckInDisciplinedRun(s, w, s.End(Peer(w)).got, |s.End(w).log|, steps);
  }

  // ---- A resume begun while a counter lags ----

  /** Both closed sides offer, and the relay pairs them. */
  function Paired(s: Sys, x: Side): Sys
    requires s.left.phase.Closed? && s.right.phase.Closed?
  {
    Do(Do(Do(s, Offer(x)), Offer(Peer(x))), Match)
  }

  /** Both sides replay, and each direction then carries exactly what its reader misses. */
  predicate ReplaysExactly(m: Sys, x: Side) {
    && Enabled(m, Replay(x))
    && var n := Do(m, Replay(x));
    && Enabled(n, Replay(Peer(x)))
    && var t := Do(n, Replay(Peer(x)));
    && t.End(x).phase.Replayed? && t.End(x).phase.link < |t.links|
    && t.End(x).got + t.Queue(t.End(x).phase.link, Peer(x)) == t.End(Peer(x)).log
    && t.End(Peer(x)).got + t.Queue(t.End(x).phase.link, x) == t.End(x).log
  }

  /** Two transport-level states after pairing: an empty link carrying the two counters. */
  lemma PairedIs(s: Sys, x: Side)
    requires s.left.phase.Closed? && s.right.phase.Closed?
    ensures var m, l := Paired(s, x), |s.links|;
            && m.End(x) == s.End(x).(phase := Matched(l))
            && m.End(Peer(x)) == s.End(Peer(x)).(phase := Matched(l))
            && m.links == s.links + [FreshLink(s.left.state.received, s.right.state.received)]
  {
  }

  /** What a side retransmits depends only on its own ring and on the counter its peer offered. */
  lemma ReplayedQueues(s: Sys, x: Side)
    requires s.left.phase.Closed? && s.right.phase.Closed?
    ensures var mine := s.End(x).state.RetransmitFrom(s.End(Peer(x)).state.received);
            var theirs := s.End(Peer(x)).state.RetransmitFrom(s.End(x).state.received);
            ReplaysExactly(Paired(s, x), x) <==>
            && mine.Bytes? && theirs.Bytes?
            && s.End(x).got + theirs.bytes == s.End(Peer(x)).log
            && s.End(Peer(x)).got + mine.bytes == s.End(x).log
  {
    PairedIs(s, x);
    var m, l := Paired(s, x), |s.links|;
    if Enabled(m, Replay(x)) {
      var n := Do(m, Replay(x));
      assert n.links[l].From(x).queue == GapAt(m, x).bytes;
      assert n.links[l].From(Peer(x)) == Chan([], false);
      if Enabled(n, Replay(Peer(x))) {
        var t := Do(n, Replay(Peer(x)));
        assert t.links[l].From(Peer(x)).queue == GapAt(n, Peer(x)).bytes;
        assert t.links[l].From(x) == n.links[l].From(x);
      }
    }
  }

  /** The bytes read but not counted are as many as the bytes written but not logged, and sending the
      former again looks like sending the latter. */
  predicate LagsCancel(w: Endpoint, r: Endpoint) {
    && |w.pend| == r.uncounted && r.state.received + |w.pend| <= |w.log| && |r.got| <= |w.log|
    && w.log[|r.got|..] == w.log[r.state.received..|w.log| - |w.pend|]
  }

  lemma OfferedTooEarly(w: Endpoint, r: Endpoint)
    requires Accounts(w) && Accounts(r)
    requires r.got <= w.log && w.state.peerAck <= r.state.received
    ensures var gap := w.state.RetransmitFrom(r.state.received);
            gap.Bytes? && r.got + gap.bytes == w.log <==>
            LagsCancel(w, r) && |w.log| - |r.got| <= w.state.cap
  {
    LoggedGap(w, r.state.received);
    var gap := w.state.RetransmitFrom(r.state.received);
    if gap.Bytes? {
      Completes(w.log, r.got, gap.bytes);
    }
  }

  lemma Completes(log: seq<Byte>, got: seq<Byte>, gap: seq<Byte>)
    requires got <= log
    ensures got + gap == log <==> gap == log[|got|..]
  {
    assert got + log[|got|..] == log;
    assert (got + gap)[|got|..] == gap;
  }

  /** Read and Write take no lock across the transport call and the counter update. A resume between
      two closed sides is exact if and only if both backlogs fit and, in each direction, what the reader
      has not counted makes up for what the writer has not logged. */
  lemma ResumeExactIff(s: Sys, x: Side)
    requires Reachable(s) && s.left.phase.Closed? && s.right.phase.Closed?
    ensures ReplaysExactly(Paired(s, x), x) <==>
            && LagsCancel(s.End(x), s.End(Peer(x))) && LagsCancel(s.End(Peer(x)), s.End(x))
            && Fits(s, Left) && Fits(s, Right)
  {
    ReachableInv(s);
    var e, f := s.End(x), s.End(Peer(x));
    assert Sound(e) && Sound(f) && Flow(s, x) && Flow(s, Peer(x));
    ReplayedQueues(s, x);
    OfferedTooEarly(e, f);
    OfferedTooEarly(f, e);
  }

  lemma LagsCancelWhenQuiet(w: Endpoint, r: Endpoint)
    requires Accounts(w) && Accounts(r) && r.got <= w.log
    requires w.pend == [] || r.uncounted == 0
    ensures LagsCancel(w, r) <==> w.pend == [] && r.uncounted == 0
  {
    assert w.log[|r.got|..] == w.log[|r.got|..|w.log|];
  }

  /** So where no direction lags at both ends, a resume is exact if and only if no counter lags and both
      backlogs fit. */
  lemma ResumeExactlyWhenQuiet(s: Sys, x: Side)
    requires Reachable(s) && s.left.phase.Closed? && s.right.phase.Closed?
    requires s.left.pend == [] || s.right.uncounted == 0
    requires s.right.pend == [] || s.left.uncounted == 0
    ensures ReplaysExactly(Paired(s, x), x) <==>
            s.left.Quiet() && s.right.Quiet() && Fits(s, Left) && Fits(s, Right)
  {
    ResumeExactIff(s, x);
    ReachableInv(s);
    assert Flow(s, Left) && Flow(s, Right);
    LagsCancelWhenQuiet(s.left, s.right);
    LagsCancelWhenQuiet(s.right, s.left);
  }

  // ---- and what an inexact resume does ----

  lemma {:induction false} Append(s: Sys, a: seq<Step>, b: seq<Step>)
    requires Legal(s, a) && Legal(After(s, a), b)
    ensures Legal(s, a + b) && After(s, a + b) == After(After(s, a), b)
    decreases |a|
  {
    if a == [] {
      assert a + b == b;
    } else {
      assert (a + b)[0] == a[0] && (a + b)[1..] == a[1..] + b;
      Append(Do(s, a[0]), a[1..], b);
    }
  }

  lemma FollowsOn(s: Sys, t: Sys, u: Sys)
    requires Follows(s, t) && Follows(t, u)
    ensures Follows(s, u)
  {
    var a :| Legal(s, a) && After(s, a) == t;
    var b :| Legal(t, b) && After(t, b) == u;
    Append(s, a, b);
  }

  lemma FollowOn(s: Sys, t: Sys, step: Step) returns (u: Sys)
    requires Follows(s, t) && Enabled(t, step)
    ensures u == Do(t, step) && Follows(s, u)
  {
    u := Do(t, step);
    assert [step][1..] == [] && Legal(u, []);
    assert Legal(t, [step]) && After(t, [step]) == u;
    FollowsOn(s, t, u);
  }

  lemma PairUp(s: Sys, r: Sys, x: Side) returns (m: Sys)
    requires Follows(s, r) && r.left.phase.Closed? && r.right.phase.Closed?
    ensures m == Paired(r, x) && Follows(s, m)
  {
    m := FollowOn(s, r, Offer(x));
    m := FollowOn(s, m, Offer(Peer(x)));
    m := FollowOn(s, m, Match);
  }

  lemma ReplayOne(s: Sys, m: Sys, x: Side, l: nat) returns (t: Sys)
    requires Follows(s, m) && m.End(x).phase == Matched(l) && l < |m.links| && m.links[l].From(x) == Chan([], false)
    requires GapAt(m, x).Bytes?
    ensures Follows(s, t) && l < |t.links|
    ensures t.End(x) == m.End(x).(phase := Replayed(l)) && t.End(Peer(x)) == m.End(Peer(x))
    ensures t.links[l].From(x) == Chan(GapAt(m, x).bytes, false)
    ensures t.links[l].From(Peer(x)) == m.links[l].From(Peer(x)) && t.links[l].Recv(x) == m.links[l].Recv(x)
  {
    assert [] + GapAt(m, x).bytes == GapAt(m, x).bytes;
    t := FollowOn(s, m, Replay(x));
  }

  /** Both sides replay after pairing: each finds what its peer retransmits for it on the new link. */
  lemma ReplayBoth(s: Sys, r: Sys, x: Side) returns (t: Sys)
    requires Follows(s, r) && r.left.phase.Closed? && r.right.phase.Closed?
    requires r.End(x).state.RetransmitFrom(r.End(Peer(x)).state.received).Bytes?
    requires r.End(Peer(x)).state.RetransmitFrom(r.End(x).state.received).Bytes?
    ensures Follows(s, t) && |r.links| < |t.links|
    ensures t.End(x) == r.End(x).(phase := Replayed(|r.links|))
    ensures t.End(Peer(x)) == r.End(Peer(x)).(phase := Replayed(|r.links|))
    ensures t.links[|r.links|].From(Peer(x))
            == Chan(r.End(Peer(x)).state.RetransmitFrom(r.End(x).state.received).bytes, false)
    ensures t.links[|r.links|].From(x)
            == Chan(r.End(x).state.RetransmitFrom(r.End(Peer(x)).state.received).bytes, false)
  {
    PairedIs(r, x);
    t := PairUp(s, r, x);
    t := ReplayOne(s, t, x, |r.links|);
    t := ReplayOne(s, t, Peer(x), |r.links|);
  }

  /** Every counter catches up except the received counter of `x`. */
  lemma AllButCounted(s: Sys, x: Side) returns (t: Sys)
    requires Inv(s)
    ensures Follows(s, t) && Inv(t) && t.End(x).pend == [] && t.End(Peer(x)).Quiet()
    ensures t.End(x).uncounted == s.End(x).uncounted && t.End(x).state.received == s.End(x).state.received
    ensures SameData(s.End(x), t.End(x)) && SameData(s.End(Peer(x)), t.End(Peer(x)))
    ensures t.End(x).phase == s.End(x).phase && t.End(Peer(x)).phase == s.End(Peer(x)).phase
  {
    t := Settle(s, Peer(x));
    if t.End(x).pend != [] {
      t := Extend(s, t, Logged(x));
    }
    LeadsFollows(s, t);
  }

  /** Every counter catches up except the ring of `x`. */
  lemma AllButLogged(s: Sys, x: Side) returns (t: Sys)
    requires Inv(s)
    ensures Follows(s, t) && Inv(t) && t.End(x).uncounted == 0 && t.End(Peer(x)).Quiet()
    ensures t.End(x).pend == s.End(x).pend && t.End(x).state.sent == s.End(x).state.sent
    ensures SameData(s.End(x), t.End(x)) && SameData(s.End(Peer(x)), t.End(Peer(x)))
    ensures t.End(x).phase == s.End(x).phase && t.End(Peer(x)).phase == s.End(Peer(x)).phase
  {
    t := Settle(s, Peer(x));
    if t.End(x).uncounted > 0 {
      t := Extend(s, t, Counted(x));
    }
    LeadsFollows(s, t);
  }

  /** What the two sides would retransmit to each other. */
  lemma Gaps(s: Sys, x: Side)
    requires Inv(s)
    ensures var e, f := s.End(x), s.End(Peer(x));
            && e.state.sent <= |e.log|
            && e.state.RetransmitFrom(f.state.received) == LoggedFrom(e, f.state.received)
            && e.state.sent == |e.log| - |e.pend| && f.state.received + f.uncounted == |f.got| <= |e.log|
            && f.got == e.log[..|f.got|]
  {
    var e, f := s.End(x), s.End(Peer(x));
    assert Sound(e) && Sound(f) && Flow(s, x);
    LoggedGap(e, f.state.received);
  }

  lemma GapsUncounted(s: Sys, x: Side)
    requires Inv(s) && Fits(s, x) && s.End(x).pend == [] && s.End(Peer(x)).Quiet()
    requires |s.End(Peer(x)).log| - s.End(x).state.received <= s.End(Peer(x)).state.cap
    ensures s.End(x).state.received <= |s.End(Peer(x)).log|
    ensures s.End(x).state.RetransmitFrom(s.End(Peer(x)).state.received).Bytes?
    ensures s.End(Peer(x)).state.RetransmitFrom(s.End(x).state.received)
            == Bytes(s.End(Peer(x)).log[s.End(x).state.received..])
  {
    Gaps(s, x);
    Gaps(s, Peer(x));
    var log := s.End(Peer(x)).log;
    assert log[s.End(x).state.received..] == log[s.End(x).state.received..|log|];
  }

  /** What `x` has logged and its peer has not read fits the ring of `x`. */
  predicate LoggedFits(s: Sys, x: Side) {
    0 <= s.End(x).state.sent - |s.End(Peer(x)).got| <= s.End(x).state.cap
  }

  lemma GapsUnlogged(s: Sys, x: Side)
    requires Inv(s) && LoggedFits(s, x) && Fits(s, Peer(x)) && s.End(x).uncounted == 0 && s.End(Peer(x)).Quiet()
    ensures s.End(x).state.sent <= |s.End(x).log|
    ensures s.End(Peer(x)).state.RetransmitFrom(s.End(x).state.received).Bytes?
    ensures s.End(x).state.RetransmitFrom(s.End(Peer(x)).state.received)
            == Bytes(s.End(x).log[|s.End(Peer(x)).got|..s.End(x).state.sent])
  {
    Gaps(s, x);
    Gaps(s, Peer(x));
  }

  /** They resume before `x` has counted what it read. */
  lemma ResumeUncounted(s: Sys, x: Side) returns (t: Sys)
    requires Inv(s) && s.left.phase.Closed? && s.right.phase.Closed?
    requires Fits(s, x) && |s.End(Peer(x)).log| - s.End(x).state.received <= s.End(Peer(x)).state.cap
    ensures s.End(x).state.received + s.End(x).uncounted == |s.End(x).got| <= |s.End(Peer(x)).log|
    ensures Follows(s, t) && t.End(Peer(x)).log == s.End(Peer(x)).log
    ensures t.End(x).got == s.End(x).got && t.End(x).lost == s.End(x).lost
    ensures t.End(x).uncounted == s.End(x).uncounted
    ensures t.End(x).phase.Replayed? && t.End(x).phase.link < |t.links|
    ensures t.Queue(t.End(x).phase.link, Peer(x)) == s.End(Peer(x)).log[s.End(x).state.received..]
  {
    Gaps(s, Peer(x));
    var r := AllButCounted(s, x);
    GapsUncounted(r, x);
    t := ReplayBoth(s, r, x);
  }

  /** Bytes read but not yet counted when a side offers are read again: from every such state some run
      makes it read more bytes than were ever written to it. */
  lemma UncountedBytesArriveTwice(s: Sys, x: Side) returns (t: Sys)
    requires Reachable(s) && s.left.phase.Closed? && s.right.phase.Closed? && !s.End(x).lost
    requires s.End(x).uncounted > 0
    requires Fits(s, x) && |s.End(Peer(x)).log| - s.End(x).state.received <= s.End(Peer(x)).state.cap
    ensures Follows(s, t) && t.End(Peer(x)).log == s.End(Peer(x)).log
    ensures |t.End(x).got| == |t.End(Peer(x)).log| + s.End(x).uncounted
    ensures !(t.End(x).got <= t.End(Peer(x)).log)
  {
    ReachableInv(s);
    t := ResumeUncounted(s, x);
    t := FollowOn(s, t, Swap(x));
    t := FollowOn(s, t, Counted(x));
    t := FollowOn(s, t, Take(x, |s.End(Peer(x)).log| - s.End(x).state.received));
  }

  /** Both sides go live on the link they replayed onto, and `x` logs its write only then. */
  lemma SwapBothThenLog(s: Sys, r: Sys, x: Side) returns (t: Sys)
    requires Follows(s, r) && r.End(x).pend != []
    requires r.End(x).phase.Replayed? && r.End(Peer(x)).phase == r.End(x).phase
    ensures Follows(s, t) && t.links == r.links
    ensures SameData(r.End(x), t.End(x)) && t.End(x).pend == []
    ensures t.End(Peer(x)) == r.End(Peer(x)).(phase := t.End(x).phase)
    ensures t.End(x).phase == Live(r.End(x).phase.link)
  {
    t := FollowOn(s, r, Swap(x));
    t := FollowOn(s, t, Swap(Peer(x)));
    t := FollowOn(s, t, Logged(x));
  }

  /** The next byte follows whatever is on the link. */
  lemma PutAndTake(s: Sys, r: Sys, x: Side, c: Byte) returns (t: Sys)
    requires Follows(s, r) && r.End(x).phase.Live? && r.End(Peer(x)).phase == r.End(x).phase
    requires r.End(x).phase.link < |r.links| && !r.Broken(r.End(x).phase.link, x)
    requires !r.End(x).lost && !r.End(Peer(x)).lost && r.End(x).pend == [] && r.End(Peer(x)).uncounted == 0
    ensures Follows(s, t) && t.End(x).log == r.End(x).log + [c]
    ensures t.End(Peer(x)).got == r.End(Peer(x)).got + r.Queue(r.End(x).phase.link, x) + [c]
  {
    var q := r.Queue(r.End(x).phase.link, x);
    t := FollowOn(s, r, Put(x, [c]));
    assert t.Queue(r.End(x).phase.link, x) == q + [c];
    t := FollowOn(s, t, Take(Peer(x), |q| + 1));
    assert (q + [c])[..|q| + 1] == q + [c];
  }

  lemma NextByte(s: Sys, r: Sys, x: Side, c: Byte) returns (t: Sys)
    requires Follows(s, r) && r.End(x).pend != [] && r.End(Peer(x)).uncounted == 0
    requires r.End(x).phase.Replayed? && r.End(Peer(x)).phase == r.End(x).phase
    requires r.End(x).phase.link < |r.links| && !r.Broken(r.End(x).phase.link, x)
    requires !r.End(x).lost && !r.End(Peer(x)).lost
    ensures Follows(s, t) && t.End(x).log == r.End(x).log + [c]
    ensures t.End(Peer(x)).got == r.End(Peer(x)).got + r.Queue(r.End(x).phase.link, x) + [c]
  {
    t := SwapBothThenLog(s, r, x);
    t := PutAndTake(s, t, x, c);
  }

  lemma Skipped(log: seq<Byte>, k: nat, c: Byte)
    requires k < |log| && c != log[k]
    ensures !(log[..k] + [c] <= log + [c])
  {
    assert (log[..k] + [c])[k] == c && (log + [c])[k] == log[k];
  }

  /** They resume before `x` has logged what it wrote. */
  lemma ResumeUnlogged(s: Sys, x: Side) returns (t: Sys)
    requires Inv(s) && s.left.phase.Closed? && s.right.phase.Closed? && s.End(x).pend != []
    requires LoggedFits(s, x) && Fits(s, Peer(x))
    ensures s.End(x).state.sent == |s.End(x).log| - |s.End(x).pend| && s.End(Peer(x)).got <= s.End(x).log
    ensures Follows(s, t) && t.End(x).log == s.End(x).log && t.End(x).pend == s.End(x).pend
    ensures SameData(s.End(x), t.End(x)) && SameData(s.End(Peer(x)), t.End(Peer(x)))
    ensures t.End(Peer(x)).uncounted == 0
    ensures t.End(x).phase.Replayed? && t.End(Peer(x)).phase == t.End(x).phase
    ensures t.End(x).phase.link < |t.links|
    ensures t.links[t.End(x).phase.link].From(x)
            == Chan(s.End(x).log[|s.End(Peer(x)).got|..s.End(x).state.sent], false)
  {
    Gaps(s, x);
    var r := AllButLogged(s, x);
    GapsUnlogged(r, x);
    t := ReplayBoth(s, r, x);
  }

  lemma NextByteInstead(s: Sys, r: Sys, x: Side, k: nat) returns (t: Sys, c: Byte)
    requires Follows(s, r) && r.End(x).pend != [] && r.End(Peer(x)).uncounted == 0
    requires r.End(x).phase.Replayed? && r.End(Peer(x)).phase == r.End(x).phase
    requires !r.End(x).lost && !r.End(Peer(x)).lost && r.End(x).phase.link < |r.links|
    requires r.End(Peer(x)).got <= r.End(x).log && |r.End(Peer(x)).got| <= k < |r.End(x).log|
    requires r.links[r.End(x).phase.link].From(x) == Chan(r.End(x).log[|r.End(Peer(x)).got|..k], false)
    ensures Follows(s, t) && t.End(x).log == r.End(x).log + [c]
    ensures t.End(Peer(x)).got == r.End(x).log[..k] + [c]
    ensures !(t.End(Peer(x)).got <= t.End(x).log)
  {
    var log, got := r.End(x).log, r.End(Peer(x)).got;
    c := if log[k] == 0 then 1 else 0;
    t := NextByte(s, r, x, c);
    assert got + log[|got|..k] == log[..k];
    Skipped(log, k, c);
  }

  /** Bytes written but not yet logged when a side retransmits are never sent again: from every such
      state some run makes its peer read the next byte `c` in their place. */
  lemma UnloggedBytesAreSkipped(s: Sys, x: Side) returns (t: Sys, c: Byte)
    requires Reachable(s) && s.left.phase.Closed? && s.right.phase.Closed? && !s.left.lost && !s.right.lost
    requires s.End(x).pend != [] && LoggedFits(s, x) && Fits(s, Peer(x))
    ensures s.End(x).state.sent < |s.End(x).log|
    ensures Follows(s, t) && t.End(x).log == s.End(x).log + [c]
    ensures t.End(Peer(x)).got == s.End(x).log[..s.End(x).state.sent] + [c]
    ensures !(t.End(Peer(x)).got <= t.End(x).log)
  {
    ReachableInv(s);
    t := ResumeUnlogged(s, x);
    t, c := NextByteInstead(s, t, x, s.End(x).state.sent);
  }

  // ---- Unlogged bytes can make a backlog fit ----

  lemma FollowsHonest(s: Sys, t: Sys)
    requires Honest(s) && Follows(s, t)
    ensures Honest(t)
  {
    var steps :| Legal(s, steps) && After(s, steps) == t;
    HonestRun(s, steps);
  }

  /** However two closed sides got there, they are sound if what each has read is right. */
  lemma ClosedInv(s: Sys)
    requires Honest(s) && s.left.phase.Closed? && s.right.phase.Closed?
    requires s.left.got <= s.right.log && s.right.got <= s.left.log
    ensures Inv(s)
  {
  }

  /** The reader `x` takes everything on its link, and both sides lose the connection. */
  lemma TakeAndClose(s: Sys, r: Sys, x: Side) returns (t: Sys)
    requires Follows(s, r) && r.End(x).phase.Live? && r.End(Peer(x)).phase.Live?
    requires r.End(x).phase.link < |r.links| && !r.End(x).lost && r.End(x).uncounted == 0
    ensures Follows(s, t) && t.left.phase.Closed? && t.right.phase.Closed?
    ensures t.End(x) == r.End(x).(phase := Closed, got := t.End(x).got, uncounted := t.End(x).uncounted)
    ensures t.End(x).got == r.End(x).got + r.Queue(r.End(x).phase.link, Peer(x))
    ensures t.End(Peer(x)) == r.End(Peer(x)).(phase := Closed)
  {
    t := r;
    var q := r.Queue(r.End(x).phase.link, Peer(x));
    if q != [] {
      t := FollowOn(s, t, Take(x, |q|));
      assert q[..|q|] == q;
    }
    t := FollowOn(s, t, CloseInner(x));
    t := FollowOn(s, t, CloseInner(Peer(x)));
  }

  /** One resume with the last write unlogged delivers just the bytes before it. */
  lemma FirstRound(s: Sys, x: Side) returns (t: Sys)
    requires Inv(s) && s.left.phase.Closed? && s.right.phase.Closed? && !s.left.lost && !s.right.lost
    requires s.End(x).pend != [] && LoggedFits(s, x) && Fits(s, Peer(x))
    ensures Follows(s, t) && t.left.phase.Closed? && t.right.phase.Closed? && !t.left.lost && !t.right.lost
    ensures SameData(s.End(x), t.End(x)) && s.End(x).state.sent == |s.End(x).log| - |s.End(x).pend|
    ensures t.End(Peer(x)).log == s.End(Peer(x)).log && t.End(Peer(x)).state.cap == s.End(Peer(x)).state.cap
    ensures t.End(Peer(x)).got == s.End(x).log[..s.End(x).state.sent]
  {
    t := ResumeUnlogged(s, x);
    var got, log, k := s.End(Peer(x)).got, s.End(x).log, s.End(x).state.sent;
    assert got + log[|got|..k] == log[..k];
    t := SwapBothThenLog(s, t, x);
    t := TakeAndClose(s, t, Peer(x));
  }

  /** The bytes before an unlogged write and the write itself can go in two rounds, each of which fits
      although together they do not. */
  lemma UnloggedGoInTwoRounds(s: Sys, x: Side) returns (t: Sys)
    requires Reachable(s) && s.left.phase.Closed? && s.right.phase.Closed? && !s.left.lost && !s.right.lost
    requires s.End(x).pend != [] && LoggedFits(s, x) && Fits(s, Peer(x))
    requires |s.End(x).pend| <= s.End(x).state.cap
    ensures Follows(s, t) && Synced(t)
  {
    ReachableInv(s);
    ReachableArises(s);
    ArisesHonest(s);
    var u := SecondRound(s, x);
    t := Recover(u);
    LeadsFollows(u, t);
    FollowsOn(s, u, t);
  }

  lemma SecondRound(s: Sys, x: Side) returns (t: Sys)
    requires Inv(s) && Honest(s) && s.left.phase.Closed? && s.right.phase.Closed? && !s.left.lost && !s.right.lost
    requires s.End(x).pend != [] && LoggedFits(s, x) && Fits(s, Peer(x))
    requires |s.End(x).pend| <= s.End(x).state.cap
    ensures Follows(s, t) && Inv(t) && Fits(t, Left) && Fits(t, Right) && !t.left.lost && !t.right.lost
  {
    t := FirstRound(s, x);
    FollowsHonest(s, t);
    assert Flow(s, Peer(x));
    ClosedInv(t);
  }

  /** If the peer has already counted past what was logged, the resume is refused instead, however
      small the backlog: that is the only way to be asked for bytes beyond the ring. */
  lemma UnloggedBytesRefused(s: Sys, x: Side)
    requires Reachable(s) && s.left.phase.Closed? && s.right.phase.Closed?
    ensures var m, e, f := Paired(s, x), s.End(x), s.End(Peer(x));
            && m.End(x).phase.Matched? && m.End(x).phase.link < |m.links|
            && (GapAt(m, x) == BeyondSent <==> |e.log| - |e.pend| < |f.got| - f.uncounted)
            && (GapAt(m, x) == BeyondSent ==> |e.pend| > f.uncounted && !Enabled(m, Replay(x)))
  {
    ReachableInv(s);
    PairedIs(s, x);
    Gaps(s, x);
  }

  // ---- Such states exist ----

  /** A byte is read, and both sides lose the connection before it is counted. */
  lemma UncountedWitness(cap: nat, b: Byte) returns (s: Sys)
    requires cap > 0
    ensures Reachable(s) && s.left.phase.Closed? && s.right.phase.Closed? && !s.right.lost
    ensures s.right.uncounted == 1 && Fits(s, Right)
    ensures s.left.log == s.right.got == [b] && s.left.pend == [] && s.left.state.sent == 1
    ensures s.left.state.cap == cap && s.left.state.peerAck == s.right.state.received == 0
    ensures |s.left.log| - s.right.state.received <= s.left.state.cap
  {
    var start := Init(cap, cap);
    InitInv(cap, cap);
    LeadsNowhere(start);
    s := Extend(start, start, Put(Left, [b]));
    s := Extend(start, s, Logged(Left));
    s := Extend(start, s, Take(Right, 1));
    s := Extend(start, s, CloseInner(Left));
    s := Extend(start, s, CloseInner(Right));
  }

  /** A byte is written, and both sides lose the connection before it is logged. */
  lemma UnloggedWitness(cap: nat, b: Byte) returns (s: Sys)
    requires cap > 0
    ensures Reachable(s) && s.left.phase.Closed? && s.right.phase.Closed? && !s.left.lost && !s.right.lost
    ensures s.left.pend == [b] && |s.right.got| <= s.left.state.sent && Fits(s, Left) && Fits(s, Right)
  {
    var start := Init(cap, cap);
    InitInv(cap, cap);
    LeadsNowhere(start);
    s := WriteAndClose(start, start, b);
  }

  lemma NeitherLoggedNorCounted(cap: nat, b: Byte) returns (s: Sys)
    requires cap > 0
    ensures Reachable(s) && s.left.phase.Closed? && s.right.phase.Closed?
    ensures s.left.log == s.left.pend == s.right.got == [b] && s.right.uncounted == 1
    ensures s.right.log == s.right.pend == s.left.got == [] && s.left.uncounted == 0
    ensures s.left.state.received == s.right.state.received == 0 && s.left.state.cap == cap
  {
    var start := Init(cap, cap);
    InitInv(cap, cap);
    LeadsNowhere(start);
    s := Extend(start, start, Put(Left, [b]));
    s := Extend(start, s, Take(Right, 1));
    s := Extend(start, s, CloseInner(Left));
    s := Extend(start, s, CloseInner(Right));
  }

  /** The byte is read but neither logged nor counted: the two lags cancel and the resume is exact. */
  lemma CancellingWitness(cap: nat, b: Byte) returns (s: Sys)
    requires cap > 0
    ensures Reachable(s) && s.left.phase.Closed? && s.right.phase.Closed?
    ensures !s.left.Quiet() && !s.right.Quiet() && ReplaysExactly(Paired(s, Left), Left)
  {
    s := NeitherLoggedNorCounted(cap, b);
    assert LagsCancel(s.left, s.right) && LagsCancel(s.right, s.left);
    ResumeExactIff(s, Left);
  }

  /** One more byte is written, and both sides lose the connection before it is logged. */
  lemma WriteAndClose(start: Sys, r: Sys, b: Byte) returns (s: Sys)
    requires Inv(start) && Leads(start, r) && Enabled(r, Put(Left, [b])) && r.right.phase.Live?
    ensures Leads(start, s)
    ensures s.left == r.left.(log := r.left.log + [b], pend := [b], phase := Closed)
    ensures s.right == r.right.(phase := Closed)
  {
    s := Extend(start, r, Put(Left, [b]));
    s := Extend(start, s, CloseInner(Left));
    s := Extend(start, s, CloseInner(Right));
  }

  /** A full ring of bytes is logged and one more byte is not. */
  lemma OneTooMany(cap: nat, bytes: seq<Byte>, b: Byte) returns (s: Sys)
    requires cap > 0 && |bytes| == cap
    ensures Reachable(s) && s.left.phase.Closed? && s.right.phase.Closed? && !s.left.lost && !s.right.lost
    ensures s.left.log == bytes + [b] && s.left.pend == [b] && s.right.log == [] && s.left.got == s.right.got == []
    ensures s.left.state.sent == s.left.state.cap == cap
  {
    var start := Init(cap, cap);
    InitInv(cap, cap);
    LeadsNowhere(start);
    s := Extend(start, start, Put(Left, bytes));
    s := Extend(start, s, Logged(Left));
    s := WriteAndClose(start, s, b);
  }

  /** So a backlog that does not fit may still be delivered, while no disciplined run delivers it. */
  lemma TwoRoundsWitness(cap: nat, bytes: seq<Byte>, b: Byte) returns (s: Sys, t: Sys)
    requires cap > 0 && |bytes| == cap
    ensures Reachable(s) && !Fits(s, Left) && Follows(s, t) && Synced(t)
    ensures forall u | Leads(s, u) :: !Synced(u)
  {
    s := OneTooMany(cap, bytes, b);
    t := UnloggedGoInTwoRounds(s, Left);
    RecoverableExactlyWhenItFits(s);
  }

  lemma ArisesOn(s: Sys, t: Sys)
    requires Arises(s) && Follows(s, t)
    ensures Arises(t)
  {
    var capLeft: nat, capRight: nat, a :|
      Legal(Init(capLeft, capRight), a) && s == After(Init(capLeft, capRight), a);
    var b :| Legal(s, b) && After(s, b) == t;
    Append(Init(capLeft, capRight), a, b);
  }

  lemma PairThenCount(s: Sys) returns (t: Sys)
    requires Arises(s) && s.left.phase.Closed? && s.right.phase.Closed? && s.right.uncounted > 0
    ensures Arises(t) && t.left == s.left.(phase := Matched(|s.links|)) && |s.links| < |t.links|
    ensures t.links[|s.links|].Recv(Right) == s.right.state.received && t.right.got == s.right.got
    ensures t.right.state.received == s.right.state.received + s.right.uncounted
  {
    assert Legal(s, []) && After(s, []) == s;
    PairedIs(s, Left);
    t := PairUp(s, s, Left);
    t := FollowOn(s, t, Counted(Right));
    ArisesOn(s, t);
  }

  /** A byte is counted after its reader offered. The resume would replay it, but a checkpoint that
      arrives first makes it fail, although nothing is unlogged and nothing is missing. */
  lemma LateCheckpointWitness(cap: nat, b: Byte) returns (s: Sys)
    requires cap > 0
    ensures Arises(s) && s.left.phase.Matched? && s.left.phase.link < |s.links|
    ensures s.left.pend == [] && Backlog(s, Left) == 0 && Enabled(s, Replay(Left))
    ensures var t := CheckpointRound(s, Left);
            t.left.phase == s.left.phase && t.links == s.links && GapAt(t, Left) == BeforeRing
  {
    s := UncountedWitness(cap, b);
    ReachableArises(s);
    s := PairThenCount(s);
    GapInAnyRun(s, Left);
    CheckpointDuringResume(s, Left);
  }
}
