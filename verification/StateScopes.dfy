/** The state lock's scopes in one process. */
module StateScopes {
  // `withStateLock` called again while its caller already owns the worktree: a nested call queues on
  // the nearest scope that is still open, each scope chains its children through one promise, and a
  // scope closes only when that chain has stopped growing. The event loop interleaves everything
  // between two awaits, so the model is a system of such stretches.

  import opened Prelude

  /** Calls are numbered in the order they are made; a lease carries the number of its first call. */
  type Call = nat

  datatype Phase =
    | Waiting                            // awaiting the sibling before it
    | Running                            // its operation runs
    | Draining(pending: Option<Call>)    // the operation returned; awaiting this link of its children
    | Closed                             // `active` is false; its own promise is not resolved yet
    | Done                               // its promise is resolved; for a first call, the lease ended

  /** `queue` is history: the code keeps only the last link, `tail`, and each child's `previous`. */
  datatype Scope = Scope(
    lease: Call,
    parent: Option<Call>,
    previous: Option<Call>,
    tail: Option<Call>,
    phase: Phase,
    queue: seq<Call>)
  {
    predicate Active() {
      phase.Running? || phase.Draining?
    }
  }

  datatype State = State(scopes: map<Call, Scope>, leases: set<Call>, next: Call)
  {
    function With(c: Call, phase: Phase): State
      requires c in scopes
    {
      this.(scopes := scopes[c := scopes[c].(phase := phase)])
    }

    predicate Resolved(link: Option<Call>) {
      link.None? || (link.value in scopes && scopes[link.value].phase.Done?)
    }
  }

  /** The walk from an inherited scope to the nearest one still active. */
  function Nearest(s: State, from: Option<Call>): (open: Option<Call>)
    ensures open.Some? ==> open.value in s.scopes && s.scopes[open.value].Active()
    decreases if from.Some? then from.value + 1 else 0
  {
    if from.None? || from.value !in s.scopes then None
    else if s.scopes[from.value].Active() then from
    else
      var up := s.scopes[from.value].parent;
      if up.Some? && up.value >= from.value then None else Nearest(s, up)
  }

  /** A call made where scope `from` (if any) is inherited: it queues, or acquires a lock of its own. */
  ghost predicate Enter(s: State, t: State, from: Option<Call>) {
    var n := s.next;
    var open := Nearest(s, from);
    if open.Some? && s.scopes[open.value].lease in s.leases then
      var parent := s.scopes[open.value];
      && t.scopes == s.scopes[open.value := parent.(tail := Some(n), queue := parent.queue + [n])]
                             [n := Scope(parent.lease, open, parent.tail, None, Waiting, [])]
      && t.leases == s.leases && t.next == n + 1
    else
      && t.scopes == s.scopes[n := Scope(n, None, None, None, Running, [])]
      && t.leases == s.leases + {n} && t.next == n + 1
  }

  /** One stretch of a call already made. */
  ghost predicate Advance(s: State, t: State, c: Call)
    requires c in s.scopes
  {
    var scope := s.scopes[c];
    match scope.phase
    case Waiting => s.Resolved(scope.previous) && t == s.With(c, Running)
    case Running => t == s.With(c, Draining(scope.tail))
    case Draining(pending) =>
      s.Resolved(pending) && t == s.With(c, if pending == scope.tail then Closed else Draining(scope.tail))
    case Closed => t == s.With(c, Done).(leases := s.leases - {c})
    case Done => false
  }

  ghost predicate Next(s: State, t: State) {
    || (exists from :: Enter(s, t, from))
    || (exists c :: c in s.scopes && Advance(s, t, c))
  }

  const QUIET := State(map[], {}, 0)

  ghost predicate IsRun(run: seq<State>) {
    run != [] && run[0] == QUIET && forall i :: 0 <= i < |run| - 1 ==> Next(run[i], run[i + 1])
  }

  // ---------------------------------------------------------------------------------------------
  // The invariant
  // ---------------------------------------------------------------------------------------------

  /** The queue is the promise chain: each link awaits the one before it. */
  ghost predicate Linked(s: State, p: Call)
    requires p in s.scopes
  {
    var queue := s.scopes[p].queue;
    && s.scopes[p].tail == (if queue == [] then None else Some(queue[|queue| - 1]))
    && (forall i :: 0 <= i < |queue| ==> queue[i] in s.scopes && s.scopes[queue[i]].parent == Some(p))
    && (forall i, j :: 0 <= i < j < |queue| && j == i + 1 ==> s.scopes[queue[j]].previous == Some(queue[i]))
    && (queue != [] ==> s.scopes[queue[0]].previous == None)
  }

  /** Children start in queue order, one at a time, and a closed scope has none left. */
  ghost predicate Ordered(s: State, p: Call)
    requires p in s.scopes && Linked(s, p)
  {
    var queue := s.scopes[p].queue;
    && (forall i, j :: 0 <= i < j < |queue| && !s.scopes[queue[j]].phase.Waiting? ==> s.scopes[queue[i]].phase.Done?)
    && (s.scopes[p].phase.Draining? && s.scopes[p].phase.pending.Some? ==> s.scopes[p].phase.pending.value in queue)
    && (s.scopes[p].phase.Waiting? ==> queue == [])
    && (s.scopes[p].phase.Closed? || s.scopes[p].phase.Done? ==>
          forall i :: 0 <= i < |queue| ==> s.scopes[queue[i]].phase.Done?)
  }

  ghost predicate Chained(s: State, p: Call)
    requires p in s.scopes
  {
    Linked(s, p) && Ordered(s, p)
  }

  ghost predicate Placed(s: State, n: Call)
    requires n in s.scopes
  {
    var scope := s.scopes[n];
    && n < s.next
    && scope.lease <= n
    && (scope.parent.None? ==> scope.lease == n && !scope.phase.Waiting? && (n in s.leases <==> !scope.phase.Done?))
    && (scope.parent.Some? ==>
          var p := scope.parent.value;
          && p < n && p in s.scopes && scope.lease == s.scopes[p].lease && n in s.scopes[p].queue
          && n !in s.leases
          && (!scope.phase.Done? ==> s.scopes[p].Active()))
  }

  ghost predicate Inv(s: State) {
    && (forall l :: l in s.leases ==> l in s.scopes)
    && forall n :: n in s.scopes ==> Placed(s, n) && Chained(s, n)
  }

  lemma ClosingMeansAllDone(s: State, t: State, c: Call)
    requires c in s.scopes && Chained(s, c) && Advance(s, t, c)
    requires c in t.scopes && !t.scopes[c].Active()
    ensures forall i :: 0 <= i < |s.scopes[c].queue| ==> s.scopes[s.scopes[c].queue[i]].phase.Done?
  {
  }

  lemma AdvanceKeepsPlaced(s: State, t: State, c: Call, n: Call)
    requires c in s.scopes && Placed(s, c) && Chained(s, c) && Advance(s, t, c)
    requires n in s.scopes && Placed(s, n)
    ensures n in t.scopes && Placed(t, n)
  {
    if !t.scopes[c].Active() {
      ClosingMeansAllDone(s, t, c);
    }
  }

  /** A child that may start has only finished siblings before it. */
  lemma StartingFollowsOrder(s: State, t: State, c: Call, p: Call)
    requires c in s.scopes && Advance(s, t, c) && s.scopes[c].phase.Waiting?
    requires p in s.scopes && Chained(s, p)
    ensures forall i, j :: 0 <= i < j < |s.scopes[p].queue| && s.scopes[p].queue[j] == c ==>
              s.scopes[s.scopes[p].queue[i]].phase.Done?
  {
    var queue := s.scopes[p].queue;
    forall i, j | 0 <= i < j < |queue| && queue[j] == c
      ensures s.scopes[queue[i]].phase.Done?
    {
      var before := queue[j - 1];
      assert s.scopes[queue[j]].previous == Some(before);
    }
  }

  lemma AdvanceKeepsLinked(s: State, t: State, c: Call, p: Call)
    requires c in s.scopes && Advance(s, t, c) && p in s.scopes && Linked(s, p)
    ensures p in t.scopes && Linked(t, p)
  {
  }

  lemma OwnStepKeepsChained(s: State, t: State, c: Call)
    requires c in s.scopes && Chained(s, c) && Advance(s, t, c)
    ensures c in t.scopes && Chained(t, c)
  {
    AdvanceKeepsLinked(s, t, c, c);
    if !t.scopes[c].Active() {
      ClosingMeansAllDone(s, t, c);
    }
  }

  lemma OtherStepKeepsChained(s: State, t: State, c: Call, p: Call)
    requires c in s.scopes && Advance(s, t, c) && p != c
    requires p in s.scopes && Chained(s, p)
    ensures p in t.scopes && Chained(t, p)
  {
    AdvanceKeepsLinked(s, t, c, p);
    if s.scopes[c].phase.Waiting? {
      StartingFollowsOrder(s, t, c, p);
    }
  }

  lemma EnterKeepsPlaced(s: State, t: State, from: Option<Call>, n: Call)
    requires Enter(s, t, from) && s.next !in s.scopes && s.next !in s.leases && n in t.scopes
    requires n in s.scopes ==> Placed(s, n)
    requires Nearest(s, from).Some? ==> Placed(s, Nearest(s, from).value)
    ensures Placed(t, n)
  {
  }

  lemma EnterKeepsLinked(s: State, t: State, from: Option<Call>, p: Call)
    requires Enter(s, t, from) && s.next !in s.scopes && p in t.scopes
    requires p in s.scopes ==> Linked(s, p)
    ensures Linked(t, p)
  {
  }

  lemma EnterKeepsChained(s: State, t: State, from: Option<Call>, p: Call)
    requires Enter(s, t, from) && s.next !in s.scopes && p in t.scopes
    requires p in s.scopes ==> Chained(s, p)
    ensures Chained(t, p)
  {
    EnterKeepsLinked(s, t, from, p);
  }

  lemma NextKeepsInv(s: State, t: State)
    requires Inv(s) && Next(s, t)
    ensures Inv(t)
  {
    if from :| Enter(s, t, from) {
      forall n | n in s.scopes ensures n != s.next { assert Placed(s, n); }
      forall n | n in t.scopes
        ensures Placed(t, n) && Chained(t, n)
      {
        EnterKeepsPlaced(s, t, from, n);
        EnterKeepsChained(s, t, from, n);
      }
    } else {
      var c :| c in s.scopes && Advance(s, t, c);
      forall n | n in t.scopes
        ensures Placed(t, n) && Chained(t, n)
      {
        AdvanceKeepsPlaced(s, t, c, n);
        if n == c { OwnStepKeepsChained(s, t, c); } else { OtherStepKeepsChained(s, t, c, n); }
      }
    }
  }

  lemma {:induction false} RunKeepsInv(run: seq<State>, i: nat)
    requires IsRun(run) && i < |run|
    ensures Inv(run[i])
  {
    if i > 0 {
      RunKeepsInv(run, i - 1);
      assert Next(run[i - 1], run[i - 1 + 1]);
      NextKeepsInv(run[i - 1], run[i]);
    }
  }

  // ---------------------------------------------------------------------------------------------
  // What the invariant is for
  // ---------------------------------------------------------------------------------------------

  /** Children of one scope run one at a time, in the order in which they were queued. */
  lemma SiblingsSerialize(run: seq<State>, k: nat, p: Call, i: nat, j: nat)
    requires IsRun(run) && k < |run| && p in run[k].scopes
    requires i < j < |run[k].scopes[p].queue|
    ensures var s := run[k];
            var earlier, later := s.scopes[p].queue[i], s.scopes[p].queue[j];
            && earlier in s.scopes && later in s.scopes
            && (s.scopes[later].phase.Waiting? || s.scopes[earlier].phase.Done?)
  {
    RunKeepsInv(run, k);
    assert Chained(run[k], p);
  }

  /** An open scope sits under open scopes only, up to the first call of its lease. */
  lemma {:induction false} UnfinishedMeansLeaseActive(s: State, n: Call)
    requires Inv(s) && n in s.scopes && !s.scopes[n].phase.Done?
    ensures s.scopes[n].lease in s.leases
    decreases n
  {
    assert Placed(s, n);
    if s.scopes[n].parent.Some? {
      UnfinishedMeansLeaseActive(s, s.scopes[n].parent.value);
    }
  }

  lemma NextKeepsLeaseEnded(s: State, t: State, l: Call)
    requires l in s.scopes && l !in s.leases && l < s.next && Next(s, t)
    ensures l in t.scopes && l !in t.leases
  {
    if from :| Enter(s, t, from) {
    } else {
      var c :| c in s.scopes && Advance(s, t, c);
    }
  }

  lemma StepKeepsLeaseEnded(run: seq<State>, k: nat, l: Call)
    requires IsRun(run) && k + 1 < |run| && l in run[k].scopes && l !in run[k].leases
    ensures l in run[k + 1].scopes && l !in run[k + 1].leases
  {
    RunKeepsInv(run, k);
    assert Placed(run[k], l);
    NextKeepsLeaseEnded(run[k], run[k + 1], l);
  }

  lemma {:induction false} EndedLeaseStaysEnded(run: seq<State>, i: nat, k: nat, l: Call)
    requires IsRun(run) && i <= k < |run| && l in run[i].scopes && l !in run[i].leases
    ensures l in run[k].scopes && l !in run[k].leases
  {
    if i < k {
      EndedLeaseStaysEnded(run, i, k - 1, l);
      StepKeepsLeaseEnded(run, k - 1, l);
    }
  }

  /** Once a lease has ended, now and for ever no scope of it waits, runs or is open. */
  lemma EndedLeaseIsQuiet(run: seq<State>, i: nat, k: nat, l: Call, n: Call)
    requires IsRun(run) && i <= k < |run| && l in run[i].scopes && l !in run[i].leases
    requires n in run[k].scopes && run[k].scopes[n].lease == l
    ensures run[k].scopes[n].phase.Done?
  {
    EndedLeaseStaysEnded(run, i, k, l);
    RunKeepsInv(run, k);
    if !run[k].scopes[n].phase.Done? {
      UnfinishedMeansLeaseActive(run[k], n);
    }
  }

  /** `n` was called somewhere inside `p`, at any depth. */
  ghost predicate Inside(s: State, n: Call, p: Call)
    decreases n
  {
    n in s.scopes && s.scopes[n].parent.Some? &&
    (s.scopes[n].parent.value == p || (s.scopes[n].parent.value < n && Inside(s, s.scopes[n].parent.value, p)))
  }

  /** A scope that has closed has nothing unfinished anywhere below it. */
  lemma {:induction false} ClosedMeansDescendantsDone(run: seq<State>, k: nat, p: Call, n: Call)
    requires IsRun(run) && k < |run| && p in run[k].scopes && Inside(run[k], n, p)
    requires run[k].scopes[p].phase.Closed? || run[k].scopes[p].phase.Done?
    ensures run[k].scopes[n].phase.Done?
    decreases n
  {
    RunKeepsInv(run, k);
    assert Placed(run[k], n);
    if run[k].scopes[n].parent.value != p {
      ClosedMeansDescendantsDone(run, k, p, run[k].scopes[n].parent.value);
    }
  }

  /** Where a nested call queues, its lease is always still active: the second test never fails. */
  lemma OpenScopeHasActiveLease(run: seq<State>, k: nat, from: Option<Call>)
    requires IsRun(run) && k < |run| && Nearest(run[k], from).Some?
    ensures run[k].scopes[Nearest(run[k], from).value].lease in run[k].leases
  {
    RunKeepsInv(run, k);
    UnfinishedMeansLeaseActive(run[k], Nearest(run[k], from).value);
  }

  ghost predicate CanMove(s: State, c: Call) {
    c in s.scopes && exists t :: Advance(s, t, c)
  }

  /** An unfinished call always has itself, an earlier sibling or something inside it that can move. */
  lemma {:induction false} WaitingNeverDeadlocks(s: State, p: Call, i: nat) returns (c: Call)
    requires Inv(s) && p in s.scopes && i < |s.scopes[p].queue|
    requires s.scopes[p].queue[i] in s.scopes && !s.scopes[s.scopes[p].queue[i]].phase.Done?
    ensures CanMove(s, c)
    decreases s.next - p, i
  {
    c := s.scopes[p].queue[i];
    var scope := s.scopes[c];
    assert Chained(s, p) && Placed(s, c) && Placed(s, p) && Chained(s, c);
    if scope.phase.Waiting? && !s.Resolved(scope.previous) {
      assert i > 0;
      assert s.scopes[s.scopes[p].queue[i]].previous == Some(s.scopes[p].queue[i - 1]);
      c := WaitingNeverDeadlocks(s, p, i - 1);
    } else if scope.phase.Draining? && !s.Resolved(scope.phase.pending) {
      var j :| 0 <= j < |scope.queue| && scope.queue[j] == scope.phase.pending.value;
      c := WaitingNeverDeadlocks(s, c, j);
    } else {
      MovesUnlessBlocked(s, c);
    }
  }

  lemma MovesUnlessBlocked(s: State, c: Call)
    requires c in s.scopes && !s.scopes[c].phase.Done?
    requires s.scopes[c].phase.Waiting? ==> s.Resolved(s.scopes[c].previous)
    requires s.scopes[c].phase.Draining? ==> s.Resolved(s.scopes[c].phase.pending)
    ensures CanMove(s, c)
  {
    var scope := s.scopes[c];
    match scope.phase
    case Waiting => assert Advance(s, s.With(c, Running), c);
    case Running => assert Advance(s, s.With(c, Draining(scope.tail)), c);
    case Draining(pending) =>
      assert Advance(s, s.With(c, if pending == scope.tail then Closed else Draining(scope.tail)), c);
    case Closed => assert Advance(s, s.With(c, Done).(leases := s.leases - {c}), c);
  }

  /** In every reachable state with a lease still active, some call under way can take its next step. */
  lemma NoDeadlock(run: seq<State>, k: nat, l: Call) returns (c: Call)
    requires IsRun(run) && k < |run| && l in run[k].leases
    ensures CanMove(run[k], c)
  {
    var s := run[k];
    RunKeepsInv(run, k);
    assert Placed(s, l) && Chained(s, l);
    var scope := s.scopes[l];
    if scope.phase.Draining? && !s.Resolved(scope.phase.pending) {
      var j :| 0 <= j < |scope.queue| && scope.queue[j] == scope.phase.pending.value;
      c := WaitingNeverDeadlocks(s, l, j);
    } else {
      MovesUnlessBlocked(s, l);
      c := l;
    }
  }
}
