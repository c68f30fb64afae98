/**
 Candidate selection: a stable in-place sort by descending priority, and the first-success scan of
 the connectivity check over it.
 */
module Candidates {
  import opened Common

  datatype Candidate = Candidate(kind: string, valid: bool, addr: string, priority: nat)

  // ---- Sorting ----

  predicate Descending(s: seq<Candidate>) {
    forall i, j | 0 <= i < j < |s| :: s[i].priority >= s[j].priority
  }

  /** The candidates of one priority, in order. */
  function OfPriority(s: seq<Candidate>, p: nat): seq<Candidate> {
    if s == [] then []
    else if s[0].priority == p then [s[0]] + OfPriority(s[1..], p)
    else OfPriority(s[1..], p)
  }

  /** Same candidates, and those of equal priority in the same order. */
  ghost predicate StablePermutation(s: seq<Candidate>, t: seq<Candidate>) {
    forall p: nat :: OfPriority(s, p) == OfPriority(t, p)
  }

  lemma {:induction false} OfPriorityConcat(a: seq<Candidate>, b: seq<Candidate>, p: nat)
    ensures OfPriority(a + b, p) == OfPriority(a, p) + OfPriority(b, p)
    decreases |a|
  {
    if a == [] {
      assert a + b == b;
    } else {
      OfPriorityConcat(a[1..], b, p);
      assert (a + b)[1..] == a[1..] + b;
    }
  }

  /** Exchanging neighbours of different priority is invisible to each priority. */
  lemma SwapIsStable(s: seq<Candidate>, j: nat)
    requires 0 < j < |s| && s[j].priority != s[j - 1].priority
    ensures StablePermutation(s, s[j - 1 := s[j]][j := s[j - 1]])
  {
    var a, x, y, b := s[..j - 1], s[j - 1], s[j], s[j + 1..];
    assert s == a + ([x] + [y] + b);
    assert s[j - 1 := s[j]][j := s[j - 1]] == a + ([y] + [x] + b);
    forall p: nat
      ensures OfPriority(s, p) == OfPriority(s[j - 1 := s[j]][j := s[j - 1]], p)
    {
      OfPriorityConcat(a, [x] + [y] + b, p);
      OfPriorityConcat(a, [y] + [x] + b, p);
      OfPriorityConcat([x] + [y], b, p);
      OfPriorityConcat([y] + [x], b, p);
      OfPriorityConcat([x], [y], p);
      OfPriorityConcat([y], [x], p);
    }
  }

  /** Moves out[i] down to its place among out[..i]. */
  method Insert(out: array<Candidate>, i: nat)
    requires i < out.Length && Descending(out[..i])
    modifies out
    ensures Descending(out[..i + 1]) && StablePermutation(old(out[..]), out[..])
  {
    var j := i;
    while j > 0 && out[j].priority > out[j - 1].priority
      invariant j <= i
      invariant forall a, b | 0 <= a < b <= i && b != j :: out[a].priority >= out[b].priority
      invariant StablePermutation(old(out[..]), out[..])
    {
      SwapIsStable(out[..], j);
      ghost var was := out[..];
      out[j], out[j - 1] := out[j - 1], out[j];
      assert out[..] == was[j - 1 := was[j]][j := was[j - 1]];
      j := j - 1;
    }
  }

  /** Insertion sort on a copy: descending, stable, and the input is left alone. */
  method Sort(cs: seq<Candidate>) returns (out: array<Candidate>)
    ensures fresh(out) && out.Length == |cs|
    ensures Descending(out[..]) && StablePermutation(cs, out[..])
  {
    out := new Candidate[|cs|](i requires 0 <= i < |cs| => cs[i]);
    assert out[..] == cs;
    var i := 1;
    while i < out.Length
      invariant 1 <= i <= Max(1, out.Length)
      invariant Descending(out[..Min(i, out.Length)])
      invariant StablePermutation(cs, out[..])
    {
      Insert(out, i);
      i := i + 1;
    }
    assert out[..] == out[..out.Length];
  }

  lemma {:induction false} InOfPriority(s: seq<Candidate>, c: Candidate)
    ensures c in s <==> c in OfPriority(s, c.priority)
  {
    if s != [] {
      InOfPriority(s[1..], c);
      assert s == [s[0]] + s[1..];
    }
  }

  lemma EmptyStays(s: seq<Candidate>, t: seq<Candidate>)
    requires StablePermutation(s, t) && s == []
    ensures t == []
  {
    if t != [] {
      MovedTo(t, s, 0);
    }
  }

  lemma SameHead(s: seq<Candidate>, t: seq<Candidate>)
    requires Descending(s) && Descending(t) && StablePermutation(s, t) && s != [] && t != []
    ensures s[0] == t[0]
  {
    MovedTo(s, t, 0);
    MovedTo(t, s, 0);
    var p := s[0].priority;
    assert p == t[0].priority;
    assert OfPriority(s, p) == OfPriority(t, p);
    assert OfPriority(s, p)[0] == s[0] && OfPriority(t, p)[0] == t[0];
  }

  /** The two clauses of Sort leave no freedom. */
  lemma {:induction false} SortedIsUnique(s: seq<Candidate>, t: seq<Candidate>)
    requires Descending(s) && Descending(t) && StablePermutation(s, t)
    ensures s == t
    decreases |s|
  {
    if s == [] {
      EmptyStays(s, t);
    } else if t == [] {
      EmptyStays(t, s);
    } else {
      SameHead(s, t);
      forall p: nat
        ensures OfPriority(s[1..], p) == OfPriority(t[1..], p)
      {
        assert OfPriority(s, p) == OfPriority(t, p);
        if s[0].priority == p {
          assert OfPriority(s, p)[1..] == OfPriority(s[1..], p);
          assert OfPriority(t, p)[1..] == OfPriority(t[1..], p);
        }
      }
      SortedIsUnique(s[1..], t[1..]);
      assert s == [s[0]] + s[1..] && t == [t[0]] + t[1..];
    }
  }

  // ---- The connectivity check ----

  type Choice = Candidate -> bool

  /** The candidates worth a dial that would succeed. */
  function Reachable(reach: Candidate -> bool): Choice {
    (c: Candidate) => c.valid && reach(c)
  }

  const ANY: Choice := c => true

  /** The good candidate of highest priority, ties going to the earliest position. */
  predicate IsBest(s: seq<Candidate>, good: Choice, i: nat) {
    && i < |s| && good(s[i])
    && forall j | 0 <= j < |s| && good(s[j]) ::
         s[j].priority < s[i].priority || (s[j].priority == s[i].priority && i <= j)
  }

  function FirstGood(s: seq<Candidate>, good: Choice): (r: nat)
    ensures r <= |s|
    ensures r < |s| ==> good(s[r])
    ensures forall k | 0 <= k < r :: !good(s[k])
  {
    if s == [] then 0
    else if good(s[0]) then 0
    else
      assert forall k | 1 <= k < |s| :: s[k] == s[1..][k - 1];
      1 + FirstGood(s[1..], good)
  }

  /** The first good candidate of one priority is found the same way in the whole list. */
  lemma {:induction false} FirstOfPriority(s: seq<Candidate>, good: Choice, p: nat) returns (i: nat)
    requires FirstGood(OfPriority(s, p), good) < |OfPriority(s, p)|
    ensures i < |s| && s[i] == OfPriority(s, p)[FirstGood(OfPriority(s, p), good)] && s[i].priority == p
    ensures forall j | 0 <= j < i && s[j].priority == p :: !good(s[j])
  {
    if s[0].priority == p && good(s[0]) {
      i := 0;
    } else {
      if s[0].priority == p {
        assert OfPriority(s, p)[1..] == OfPriority(s[1..], p);
      }
      var k := FirstOfPriority(s[1..], good, p);
      i := k + 1;
      assert forall j | 1 <= j < |s| :: s[j] == s[1..][j - 1];
    }
  }

  lemma {:induction false} FirstGoodInOfPriority(s: seq<Candidate>, good: Choice, m: nat)
    requires m == FirstGood(s, good) < |s|
    ensures var f := OfPriority(s, s[m].priority);
            FirstGood(f, good) < |f| && f[FirstGood(f, good)] == s[m]
    decreases |s|
  {
    if m > 0 {
      FirstGoodInOfPriority(s[1..], good, m - 1);
      var p := s[m].priority;
      if s[0].priority == p {
        assert OfPriority(s, p)[1..] == OfPriority(s[1..], p);
      }
    }
  }

  /** Scanning the sorted list for the first success is an argmax over the unsorted one. */
  lemma FirstInSortedIsBest(s: seq<Candidate>, t: seq<Candidate>, good: Choice) returns (i: nat)
    requires Descending(t) && StablePermutation(s, t)
    requires FirstGood(t, good) < |t|
    ensures IsBest(s, good, i) && s[i] == t[FirstGood(t, good)]
  {
    var m := FirstGood(t, good);
    var p := t[m].priority;
    FirstGoodInOfPriority(t, good, m);
    assert OfPriority(s, p) == OfPriority(t, p);
    i := FirstOfPriority(s, good, p);
    forall j | 0 <= j < |s| && good(s[j])
      ensures s[j].priority < p || (s[j].priority == p && i <= j)
    {
      MovedTo(s, t, j);
    }
  }

  lemma MovedTo(s: seq<Candidate>, t: seq<Candidate>, j: nat)
    requires StablePermutation(s, t) && j < |s|
    ensures s[j] in t
  {
    InOfPriority(s, s[j]);
    InOfPriority(t, s[j]);
    assert OfPriority(s, s[j].priority) == OfPriority(t, s[j].priority);
  }

  datatype CheckResult = Pair(local: Option<Candidate>, remote: Candidate) | NoPair | CtxErr

  method BestLocal(locals: seq<Candidate>) returns (r: Option<Candidate>)
    ensures locals == [] ==> r == None
    ensures locals != [] ==> exists i: nat :: IsBest(locals, ANY, i) && r == Some(locals[i])
  {
    if locals == [] {
      return None;
    }
    var sorted := Sort(locals);
    ghost var i := FirstInSortedIsBest(locals, sorted[..], ANY);
    return Some(sorted[0]);
  }

  /** How many of these candidates are dialed at all. */
  function Valids(t: seq<Candidate>): (n: nat)
    ensures n <= |t|
  {
    if t == [] then 0 else Valids(t[..|t| - 1]) + if t[|t| - 1].valid then 1 else 0
  }

  lemma {:induction false} ValidsCounts(t: seq<Candidate>)
    ensures Valids(t) == |set i | 0 <= i < |t| && t[i].valid|
  {
    var now := set i | 0 <= i < |t| && t[i].valid;
    if t == [] {
      assert now == {};
    } else {
      var n := |t| - 1;
      ValidsCounts(t[..n]);
      var before := set i | 0 <= i < |t[..n]| && t[..n][i].valid;
      assert now == if t[n].valid then before + {n} else before;
    }
  }

  lemma ValidsNext(t: seq<Candidate>, k: nat)
    requires k < |t|
    ensures Valids(t[..k + 1]) == Valids(t[..k]) + if t[k].valid then 1 else 0
  {
    assert t[..k + 1][..k] == t[..k];
  }

  lemma {:induction false} ValidsGrow(t: seq<Candidate>, j: nat, k: nat)
    requires j <= k <= |t|
    ensures Valids(t[..j]) <= Valids(t[..k])
    decreases k
  {
    if j < k {
      ValidsNext(t, k - 1);
      ValidsGrow(t, j, k - 1);
    }
  }

  /** Dialing a list in order, in a context that lasts for `budget` dials: none succeeds after them, and a
      failure from the last of them on ends the check. It finds the first good candidate if the context
      lasts for all the dials up to it, reports that there is none if the context outlasts every dial,
      and expires otherwise. */
  ghost predicate DialedInOrder(t: seq<Candidate>, reach: Candidate -> bool, budget: nat, r: CheckResult, dialed: nat) {
    var m := FirstGood(t, Reachable(reach));
    if m < |t| && Valids(t[..m]) < budget then
      r.Pair? && r.remote == t[m] && dialed == Valids(t[..m]) + 1
    else if m == |t| && Valids(t) < Max(budget, 1) then
      r.NoPair? && dialed == Valids(t)
    else
      r.CtxErr? && dialed == Max(budget, 1)
  }

  lemma TooLate(t: seq<Candidate>, k: nat, m: nat)
    requires k < m <= |t| && t[k].valid
    ensures Valids(t[..k]) + 1 <= Valids(t[..m]) <= Valids(t)
  {
    ValidsNext(t, k);
    ValidsGrow(t, k + 1, m);
    ValidsGrow(t, m, |t|);
    assert t[..|t|] == t;
  }

  lemma ContextEnds(t: seq<Candidate>, reach: Candidate -> bool, budget: nat, k: nat, dialed: nat)
    requires k < |t| && t[k].valid && forall a | 0 <= a < k :: !Reachable(reach)(t[a])
    requires dialed == Valids(t[..k]) + 1 == Max(budget, 1) && !(reach(t[k]) && dialed <= budget)
    ensures DialedInOrder(t, reach, budget, CtxErr, dialed)
  {
    var m := FirstGood(t, Reachable(reach));
    if m > k {
      TooLate(t, k, m);
    }
  }

  lemma Found(t: seq<Candidate>, reach: Candidate -> bool, budget: nat, k: nat, local: Option<Candidate>)
    requires k < |t| && Reachable(reach)(t[k]) && forall a | 0 <= a < k :: !Reachable(reach)(t[a])
    requires Valids(t[..k]) < budget
    ensures FirstGood(t, Reachable(reach)) == k
    ensures DialedInOrder(t, reach, budget, Pair(local, t[k]), Valids(t[..k]) + 1)
  {
  }

  lemma NoneFound(t: seq<Candidate>, reach: Candidate -> bool, budget: nat)
    requires forall a | 0 <= a < |t| :: !Reachable(reach)(t[a])
    requires Valids(t) < Max(budget, 1)
    ensures DialedInOrder(t, reach, budget, NoPair, Valids(t))
  {
  }

  /** The dialing loop, over the sorted list. */
  method DialEach(t: seq<Candidate>, reach: Candidate -> bool, budget: nat) returns (r: CheckResult, dialed: nat)
    ensures DialedInOrder(t, reach, budget, r, dialed)
    ensures dialed <= |t| && (r.CtxErr? ==> 0 < dialed && budget <= dialed)
  {
    dialed := 0;
    for k := 0 to |t|
      invariant dialed == Valids(t[..k]) < Max(budget, 1)
      invariant forall a | 0 <= a < k :: !Reachable(reach)(t[a])
    {
      ValidsNext(t, k);
      if t[k].valid {
        dialed := dialed + 1;
        if reach(t[k]) && dialed <= budget {
          Found(t, reach, budget, k, None);
          return Pair(None, t[k]), dialed;
        }
        if dialed >= budget {
          ContextEnds(t, reach, budget, k, dialed);
          return CtxErr, dialed;
        }
      }
    }
    assert t[..|t|] == t;
    NoneFound(t, reach, budget);
    return NoPair, dialed;
  }

  /** Engine.Check: dial the remotes by descending priority until one answers or the context is done.
      With a good remote in time the answer is the best one; there is no pair only when none is good. */
  method Check(locals: seq<Candidate>, remotes: seq<Candidate>, reach: Candidate -> bool, budget: nat)
    returns (r: CheckResult, dialed: nat)
    ensures exists t :: Descending(t) && StablePermutation(remotes, t)
                        && DialedInOrder(t, reach, budget, r, dialed)
    ensures r.Pair? ==> exists i: nat :: IsBest(remotes, Reachable(reach), i) && r.remote == remotes[i]
    ensures r.Pair? && locals == [] ==> r.local == None
    ensures r.Pair? && locals != [] ==> exists i: nat :: IsBest(locals, ANY, i) && r.local == Some(locals[i])
    ensures r.NoPair? ==> forall c <- remotes :: !Reachable(reach)(c)
    ensures r.CtxErr? ==> 0 < dialed && budget <= dialed
    ensures dialed <= |remotes|
  {
    var sorted := Sort(remotes);
    var t := sorted[..];
    r, dialed := DialEach(t, reach, budget);
    if r.Pair? {
      ghost var i := FirstInSortedIsBest(remotes, t, Reachable(reach));
      var local := BestLocal(locals);
      r := Pair(local, r.remote);
    } else if r.NoPair? {
      NoneLeft(remotes, t, Reachable(reach));
    }
  }

  lemma NoneLeft(s: seq<Candidate>, t: seq<Candidate>, good: Choice)
    requires StablePermutation(s, t) && forall a | 0 <= a < |t| :: !good(t[a])
    ensures forall c <- s :: !good(c)
  {
    forall j | 0 <= j < |s|
      ensures !good(s[j])
    {
      MovedTo(s, t, j);
    }
  }
}
