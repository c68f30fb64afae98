/**
 Getting connected and staying so: the dial race, the reconnect backoff and fresh stream ids.
 */
module Connect {
  import opened Common

  // ---- The dial race ----

  datatype Attempt = Opened(session: nat) | Failed(err: nat)

  datatype RaceErr = NoErr | NoAddrs | Only(err: nat) | AllFailed(first: nat)

  /** The sessions that opened, in order of arrival. */
  function Opens(results: seq<Attempt>): seq<nat> {
    if results == [] then []
    else if results[|results| - 1].Opened? then Opens(results[..|results| - 1]) + [results[|results| - 1].session]
    else Opens(results[..|results| - 1])
  }

  /** Each session that opened stands where the earlier ones end. */
  lemma {:induction false} OpensInOrder(results: seq<Attempt>, i: nat)
    requires i < |results| && results[i].Opened?
    ensures |Opens(results[..i])| < |Opens(results)| && Opens(results)[|Opens(results[..i])|] == results[i].session
    decreases |results|
  {
    var n := |results| - 1;
    if i < n {
      OpensInOrder(results[..n], i);
      assert results[..n][..i] == results[..i];
    }
  }

  /** And nothing else stands there. */
  lemma {:induction false} OpensOnlyThose(results: seq<Attempt>, k: nat) returns (i: nat)
    requires k < |Opens(results)|
    ensures i < |results| && results[i].Opened? && |Opens(results[..i])| == k
    decreases |results|
  {
    var n := |results| - 1;
    if k < |Opens(results[..n])| {
      i := OpensOnlyThose(results[..n], k);
      assert results[..n][..i] == results[..i];
    } else {
      i := n;
    }
  }

  /** The error of the first attempt to fail. */
  function FirstErr(results: seq<Attempt>): (r: Option<nat>)
    ensures r.None? <==> forall i | 0 <= i < |results| :: results[i].Opened?
    ensures r.Some? ==> exists k | 0 <= k < |results| ::
              results[k] == Failed(r.value) && forall i | 0 <= i < k :: results[i].Opened?
  {
    if results == [] then None
    else if results[0].Failed? then Some(results[0].err)
    else
      assert forall i | 1 <= i < |results| :: results[i] == results[1..][i - 1];
      FirstErr(results[1..])
  }

  predicate AllFail(results: seq<Attempt>) {
    forall i | 0 <= i < |results| :: results[i].Failed?
  }

  ghost predicate FirstToOpen(results: seq<Attempt>, session: nat) {
    exists k | 0 <= k < |results| :: results[k] == Opened(session) && AllFail(results[..k])
  }

  /** No session opened, or the first that did opened after failures only. */
  lemma FirstOpened(results: seq<Attempt>)
    ensures Opens(results) == [] <==> AllFail(results)
    ensures Opens(results) != [] ==> FirstToOpen(results, Opens(results)[0])
  {
    forall i | 0 <= i < |results| && results[i].Opened?
      ensures Opens(results) != []
    {
      OpensInOrder(results, i);
    }
    if Opens(results) != [] {
      var k := OpensOnlyThose(results, 0);
      OpensInOrder(results, k);
      forall i | 0 <= i < k
        ensures results[..k][i].Failed?
      {
        if results[i].Opened? {
          OpensInOrder(results[..k], i);
        }
      }
    }
  }

  lemma {:induction false} FirstErrOfPrefix(results: seq<Attempt>, n: nat)
    requires n <= |results|
    ensures FirstErr(results) == if FirstErr(results[..n]).Some? then FirstErr(results[..n]) else FirstErr(results[n..])
    decreases n
  {
    if n > 0 {
      FirstErrOfPrefix(results[1..], n - 1);
      assert results[..n][1..] == results[1..][..n - 1];
      assert results[1..][n - 1..] == results[n..];
    }
  }

  ghost predicate Distinct(s: seq<nat>) {
    forall i, j | 0 <= i < j < |s| :: s[i] != s[j]
  }

  lemma OnceEach(opens: seq<nat>)
    requires opens != [] && Distinct(opens)
    ensures opens[0] !in opens[1..] && Distinct(opens[1..])
    ensures multiset(opens) == multiset{opens[0]} + multiset(opens[1..])
  {
    assert opens == [opens[0]] + opens[1..];
  }

  /** DialAnyHappy over its results in order of arrival, one per address. All are consumed: the first
      session to open wins, every later one is closed, once and in order, and only when none opened is
      an error returned, the first to arrive. So distinct sessions are accounted for once each: the
      winner is not closed and no other is closed twice. */
  method DialAnyHappy(results: seq<Attempt>) returns (winner: Option<nat>, err: RaceErr, closes: seq<nat>)
    ensures results == [] ==> winner == None && err == NoAddrs && closes == []
    ensures results != [] && Opens(results) == [] ==>
              winner == None && closes == []
              && FirstErr(results).Some?
              && err == if |results| == 1 then Only(FirstErr(results).value) else AllFailed(FirstErr(results).value)
    ensures Opens(results) != [] ==>
              winner == Some(Opens(results)[0]) && err == NoErr && closes == Opens(results)[1..]
    ensures winner.Some? ==> FirstToOpen(results, winner.value)
    ensures winner.None? <==> AllFail(results)
    ensures winner.Some? && Distinct(Opens(results)) ==>
              winner.value !in closes && Distinct(closes)
              && multiset(Opens(results)) == multiset{winner.value} + multiset(closes)
  {
    FirstOpened(results);
    if results == [] {
      return None, NoAddrs, [];
    }
    if |results| == 1 {
      assert results[..0] == [];
      match results[0] {
        case Opened(s) => return Some(s), NoErr, [];
        case Failed(e) => return None, Only(e), [];
      }
    }
    winner, closes := None, [];
    var firstErr: Option<nat> := None;
    var i := 0;
    while i < |results|
      invariant 0 <= i <= |results|
      invariant winner == if Opens(results[..i]) == [] then None else Some(Opens(results[..i])[0])
      invariant closes == if Opens(results[..i]) == [] then [] else Opens(results[..i])[1..]
      invariant firstErr == FirstErr(results[..i])
      invariant Opens(results[..i]) == [] && i > 0 ==> firstErr.Some?
    {
      assert results[..i + 1][..i] == results[..i];
      FirstErrOfPrefix(results[..i + 1], i);
      match results[i] {
        case Opened(s) =>
          if winner == None {
            winner := Some(s);
          } else {
            closes := closes + [s];
          }
        case Failed(e) =>
          if firstErr == None {
            firstErr := Some(e);
          }
      }
      i := i + 1;
    }
    assert results[..i] == results;
    if winner != None {
      if Distinct(Opens(results)) {
        OnceEach(Opens(results));
      }
      return winner, NoErr, closes;
    }
    return None, AllFailed(firstErr.value), closes;
  }

  // ---- Backoff ----

  const MAX_BACKOFF := 30

  /** Seconds waited after the failed attempt number k, counting from 0. */
  function Backoff(k: nat): nat {
    if Pow2(k) < MAX_BACKOFF then Pow2(k) else MAX_BACKOFF
  }

  /** How many attempts of an episode fail before one succeeds. */
  function Failures(attempts: seq<bool>): (n: nat)
    ensures n <= |attempts| && (n < |attempts| ==> attempts[n])
    ensures forall i | 0 <= i < n :: !attempts[i]
  {
    if attempts == [] || attempts[0] then 0
    else
      assert forall i | 1 <= i < |attempts| :: attempts[i] == attempts[1..][i - 1];
      1 + Failures(attempts[1..])
  }

  /** The reconnect loop after one connection loss: attempts until one succeeds, with the waits
      between them. The k-th wait is min(2^k, 30) seconds. */
  method ReconnectEpisode(attempts: seq<bool>) returns (waits: seq<nat>, ok: bool)
    ensures |waits| == Failures(attempts)
    ensures forall k | 0 <= k < |waits| :: waits[k] == Backoff(k)
    ensures ok <==> Failures(attempts) < |attempts|
  {
    waits := [];
    var backoff := 1;
    var i := 0;
    while i < |attempts|
      invariant i == |waits| <= |attempts| && backoff == Backoff(i)
      invariant Failures(attempts) == i + Failures(attempts[i..])
      invariant forall k | 0 <= k < |waits| :: waits[k] == Backoff(k)
    {
      if attempts[i] {
        return waits, true;
      }
      assert attempts[i..][1..] == attempts[i + 1..];
      waits := waits + [backoff];
      if backoff < MAX_BACKOFF {
        backoff := backoff * 2;
        if backoff > MAX_BACKOFF {
          backoff := MAX_BACKOFF;
        }
      }
      i := i + 1;
    }
    return waits, false;
  }

  /** RunWithReconnect over its losses, up to the first from which it never reconnects: every episode
      starts again at one second. */
  method RunWithReconnect(episodes: seq<seq<bool>>) returns (waits: seq<seq<nat>>)
    ensures |waits| <= |episodes|
    ensures forall e | 0 <= e < |waits| :: |waits[e]| == Failures(episodes[e])
    ensures forall e, k | 0 <= e < |waits| && 0 <= k < |waits[e]| :: waits[e][k] == Backoff(k)
    ensures forall e | 0 <= e < |waits| - 1 :: Failures(episodes[e]) < |episodes[e]|
    ensures |waits| < |episodes| ==> 0 < |waits| && Failures(episodes[|waits| - 1]) == |episodes[|waits| - 1]|
  {
    waits := [];
    for e := 0 to |episodes|
      invariant |waits| == e
      invariant forall d | 0 <= d < e :: |waits[d]| == Failures(episodes[d]) < |episodes[d]|
      invariant forall d, k | 0 <= d < e && 0 <= k < |waits[d]| :: waits[d][k] == Backoff(k)
    {
      var w, ok := ReconnectEpisode(episodes[e]);
      waits := waits + [w];
      if !ok {
        return;
      }
    }
  }

  /** One second, doubled after each failure, until half a minute. */
  lemma {:induction false} BackoffIs(k: nat)
    ensures Backoff(k) == if k < 5 then [1, 2, 4, 8, 16][k] else 30
    ensures Pow2(k) >= 32 <==> k >= 5
  {
    if k > 0 {
      BackoffIs(k - 1);
      assert k <= 5 ==> Pow2(k) == [1, 2, 4, 8, 16, 32][k] by {
        assert Pow2(0) == 1 && Pow2(1) == 2 && Pow2(2) == 4 && Pow2(3) == 8 && Pow2(4) == 16 && Pow2(5) == 32;
      }
    }
  }

  /** The waits never shrink and never pass the cap. */
  lemma {:induction false} BackoffGrows(j: nat, k: nat)
    requires j <= k
    ensures 1 <= Backoff(j) <= Backoff(k) <= MAX_BACKOFF
    decreases k - j
  {
    if j < k {
      BackoffGrows(j + 1, k);
    }
  }

  // ---- Fresh stream ids ----

  /** The generator never repeats itself. */
  ghost predicate NonRepeating(gen: nat -> nat) {
    forall i: nat, j: nat | i != j :: gen(i) != gen(j)
  }

  lemma SubsetSize(a: set<nat>, b: set<nat>)
    requires a <= b
    ensures |a| <= |b|
  {
    assert a + (b - a) == b;
  }

  /** Draws until an id is not active. By pigeonhole that takes at most one draw more than there are
      active ids. */
  method FreshStreamID(active: set<nat>, gen: nat -> nat) returns (id: nat, draws: nat)
    requires NonRepeating(gen)
    ensures id !in active
    ensures 1 <= draws <= |active| + 1 && id == gen(draws - 1)
    ensures forall i: nat | i < draws - 1 :: gen(i) in active
  {
    draws := 0;
    ghost var drawn := {};
    while true
      invariant drawn == set i: nat | i < draws :: gen(i)
      invariant |drawn| == draws && drawn <= active && draws <= |active|
      invariant forall i: nat | i < draws :: gen(i) in active
      decreases |active| - draws
    {
      id := gen(draws);
      draws := draws + 1;
      if id !in active {
        return;
      }
      assert id !in drawn;
      drawn := drawn + {id};
      SubsetSize(drawn, active);
    }
  }
}
