/** The sleeping mutex: a lock with direct hand-off to a FIFO of waiting futures, any of which can
    be dropped at any moment. Polling is two steps, since the first look at the grant is unlocked. */
module SleepMutex {
  import opened Common

  datatype Phase =
    | Resting          // not being polled
    | Checked          // inside poll, past the unlocked grant check
    | Dropped

  /** A lock future with its grant block. `waker` says a waker is stored, `wakePending` that the task
      has been woken and will be polled again. */
  datatype Future = Future(granted: bool, waker: bool, queued: bool, completed: bool, phase: Phase, wakePending: bool)

  /** `enqueued`, `handoffs` and `cancelled` record the history of the queue. */
  datatype State = State(isLocked: bool, waitQueue: seq<nat>, futures: map<nat, Future>, guards: nat,
                         enqueued: seq<nat>, handoffs: seq<nat>, cancelled: set<nat>)

  function Initial(): State {
    State(false, [], map[], 0, [], [], {})
  }

  predicate Alive(s: State, f: nat) {
    f in s.futures && s.futures[f].phase != Dropped
  }

  // ---- The steps ----

  datatype Step =
    | New(future: nat)
    | PollCheck(future: nat)
    | PollLocked(future: nat)
    | DropFuture(future: nat)
    | DropGuard

  predicate Enabled(s: State, step: Step) {
    match step
    case New(f) => f !in s.futures
    case PollCheck(f) => f in s.futures && s.futures[f].phase == Resting && !s.futures[f].completed
    case PollLocked(f) => f in s.futures && s.futures[f].phase == Checked
    case DropFuture(f) => f in s.futures && s.futures[f].phase == Resting
    case DropGuard => 0 < s.guards
  }

  function Put(s: State, f: nat, fut: Future): State {
    s.(futures := s.futures[f := fut])
  }

  /** Gives the lock to the first waiter, or unlocks if nobody waits. */
  function WakeNextOrUnlock(s: State): State {
    if s.waitQueue == [] then s.(isLocked := false) else
      var w := s.waitQueue[0];
      var t := s.(waitQueue := s.waitQueue[1..], handoffs := s.handoffs + [w]);
      if w in s.futures
      then Put(t, w, s.futures[w].(granted := true, waker := false,
                                   wakePending := s.futures[w].wakePending || s.futures[w].waker))
      else t
  }

  function Apply(s: State, step: Step): State
    requires Enabled(s, step)
  {
    match step
    case New(f) => Put(s, f, Future(false, false, false, false, Resting, false))
    case PollCheck(f) =>
      var fut := s.futures[f];
      if fut.granted then Put(s, f, fut.(completed := true, wakePending := false)).(guards := s.guards + 1)
      else Put(s, f, fut.(phase := Checked, wakePending := false))
    case PollLocked(f) =>
      var fut := s.futures[f].(phase := Resting);
      if !s.isLocked then
        Put(s, f, fut.(granted := true, completed := true)).(isLocked := true, guards := s.guards + 1)
      else if fut.queued then Put(s, f, fut.(waker := true))
      else Put(s, f, fut.(waker := true, queued := true)).(waitQueue := s.waitQueue + [f], enqueued := s.enqueued + [f])
    case DropFuture(f) =>
      var fut := s.futures[f];
      var t := Put(s, f, fut.(phase := Dropped));
      if fut.completed then t
      else if fut.granted then WakeNextOrUnlock(t)
      else if f in s.waitQueue then t.(waitQueue := Without(s.waitQueue, f), cancelled := s.cancelled + {f})
      else t
    case DropGuard => WakeNextOrUnlock(s.(guards := s.guards - 1))
  }

  // ---- The invariant ----

  /** Futures that hold the lock but have not been polled to completion yet. */
  function Granted(s: State): set<nat> {
    set f | f in s.futures && Alive(s, f) && s.futures[f].granted && !s.futures[f].completed
  }

  /** Ownership tokens: live guards, and granted futures that have not completed. */
  function Tokens(s: State): nat {
    s.guards + |Granted(s)|
  }

  predicate Waiting(s: State, f: nat) {
    Alive(s, f) && s.futures[f].queued && !s.futures[f].granted
  }

  /** The queue holds exactly the waiting futures, once each, all with a waker stored. */
  predicate QueueInv(s: State) {
    && NoRepeats(s.waitQueue)
    && (forall f | f in s.waitQueue :: Waiting(s, f) && s.futures[f].waker && !s.futures[f].completed)
    && (forall f | f in s.futures && Waiting(s, f) :: f in s.waitQueue)
    && (!s.isLocked ==> s.waitQueue == [])
  }

  predicate FutureInv(s: State, f: nat)
    requires f in s.futures
  {
    var fut := s.futures[f];
    && (fut.completed ==> fut.granted)
    && (fut.granted && !fut.completed ==> fut.queued)
    && (fut.phase == Checked ==> !fut.completed)
    && (fut.phase != Dropped && fut.granted && !fut.completed ==> fut.wakePending)
  }

  function Filter(q: seq<nat>, out: set<nat>): seq<nat> {
    if q == [] then [] else Filter(q[..|q| - 1], out) + if q[|q| - 1] in out then [] else [q[|q| - 1]]
  }

  /** Hand-offs so far, then the queue, are the enqueue order minus the cancelled futures. */
  predicate HistoryInv(s: State) {
    && Filter(s.enqueued, s.cancelled) == s.handoffs + s.waitQueue
    && (forall f | f in s.handoffs :: f in s.futures && s.futures[f].granted)
    && (forall f | f in s.enqueued :: f in s.futures && s.futures[f].queued)
    && (forall f | f in s.cancelled :: f in s.futures && s.futures[f].queued)
  }

  /** Everything but who holds the lock. */
  predicate Orderly(s: State) {
    && QueueInv(s)
    && (forall f | f in s.futures :: FutureInv(s, f))
    && HistoryInv(s)
  }

  predicate Inv(s: State) {
    Orderly(s) && Tokens(s) == if s.isLocked then 1 else 0
  }

  // ---- Every step keeps the invariant ----

  lemma {:induction false} FilterMore(q: seq<nat>, out: set<nat>, f: nat)
    ensures Filter(q, out + {f}) == Without(Filter(q, out), f)
  {
    if q != [] {
      var rest, last := q[..|q| - 1], q[|q| - 1];
      FilterMore(rest, out, f);
      WithoutConcat(Filter(rest, out), if last in out then [] else [last], f);
    }
  }

  /** Releasing the only token: it passes to the first waiter, or the lock becomes free. */
  lemma ReleaseRestores(s: State)
    requires Orderly(s) && s.isLocked && Tokens(s) == 0
    ensures Inv(WakeNextOrUnlock(s))
  {
    hide QueueInv, HistoryInv;
    var t := WakeNextOrUnlock(s);
    ReleaseQueue(s);
    ReleaseHistory(s);
    forall f | f in t.futures ensures FutureInv(t, f) {
      assert FutureInv(s, f);
      if s.waitQueue != [] && f == s.waitQueue[0] { FirstWaits(s); }
    }
    if s.waitQueue == [] {
      assert Granted(t) == Granted(s);
    } else {
      FirstWaits(s);
      assert Granted(t) == Granted(s) + {s.waitQueue[0]};
    }
  }

  lemma FirstWaits(s: State)
    requires QueueInv(s) && s.waitQueue != []
    ensures var w := s.waitQueue[0]; Waiting(s, w) && s.futures[w].waker && !s.futures[w].completed
  {
  }

  lemma ReleaseQueue(s: State)
    requires QueueInv(s) && s.isLocked
    ensures QueueInv(WakeNextOrUnlock(s))
  {
    var t := WakeNextOrUnlock(s);
    if s.waitQueue != [] {
      FirstWaits(s);
      var w := s.waitQueue[0];
      forall f | f in t.waitQueue ensures f in s.waitQueue && f != w {
      }
      forall f | f in t.futures && Waiting(t, f) ensures f in t.waitQueue {
        assert Waiting(s, f) && f in s.waitQueue;
      }
    }
  }

  lemma ReleaseHistory(s: State)
    requires QueueInv(s) && HistoryInv(s)
    ensures HistoryInv(WakeNextOrUnlock(s))
  {
    var t := WakeNextOrUnlock(s);
    if s.waitQueue != [] {
      FirstWaits(s);
      assert s.handoffs + s.waitQueue == t.handoffs + t.waitQueue;
    }
  }

  lemma NewStep(s: State, f: nat)
    requires Inv(s) && Enabled(s, New(f))
    ensures Inv(Apply(s, New(f)))
  {
    var t := Apply(s, New(f));
    assert Granted(t) == Granted(s);
    forall g | g in t.futures ensures FutureInv(t, g) {
      if g != f { assert FutureInv(s, g); }
    }
    forall g | g in t.futures && Waiting(t, g) ensures g in t.waitQueue { assert Waiting(s, g); }
  }

  lemma PollCheckStep(s: State, f: nat)
    requires Inv(s) && Enabled(s, PollCheck(f))
    ensures Inv(Apply(s, PollCheck(f)))
  {
    hide HistoryInv, QueueInv, Tokens;
    var t := Apply(s, PollCheck(f));
    PollCheckTokens(s, f);
    PollCheckHistory(s, f);
    PollCheckQueue(s, f);
    forall g | g in t.futures ensures FutureInv(t, g) { assert FutureInv(s, g); }
  }

  lemma PollCheckTokens(s: State, f: nat)
    requires Enabled(s, PollCheck(f))
    ensures Tokens(Apply(s, PollCheck(f))) == Tokens(s)
  {
    var t := Apply(s, PollCheck(f));
    if s.futures[f].granted {
      assert f in Granted(s) && Granted(t) == Granted(s) - {f};
    } else {
      assert Granted(t) == Granted(s);
    }
  }

  lemma PollCheckHistory(s: State, f: nat)
    requires Enabled(s, PollCheck(f)) && HistoryInv(s)
    ensures HistoryInv(Apply(s, PollCheck(f)))
  {
  }

  lemma PollCheckQueue(s: State, f: nat)
    requires Enabled(s, PollCheck(f)) && QueueInv(s)
    ensures QueueInv(Apply(s, PollCheck(f)))
  {
    var t := Apply(s, PollCheck(f));
    forall g | g in t.futures && Waiting(t, g) ensures g in t.waitQueue { assert Waiting(s, g); }
  }

  /** A future past its unlocked check can only find the mutex free if it was never queued: a queued
      one is either still in the queue or has been granted meanwhile, and both keep it locked. */
  lemma FreeMeansNeverQueued(s: State, f: nat)
    requires Inv(s) && Enabled(s, PollLocked(f)) && !s.isLocked
    ensures !s.futures[f].queued && !s.futures[f].granted
  {
    assert FutureInv(s, f);
    assert Granted(s) == {};
    assert f !in Granted(s);
    assert !Waiting(s, f);
  }

  lemma PollLockedStep(s: State, f: nat)
    requires Inv(s) && Enabled(s, PollLocked(f))
    ensures Inv(Apply(s, PollLocked(f)))
  {
    var t := Apply(s, PollLocked(f));
    assert FutureInv(s, f);
    assert Granted(t) == Granted(s) by {
      if !s.isLocked { FreeMeansNeverQueued(s, f); }
    }
    forall g | g in t.futures ensures FutureInv(t, g) { assert FutureInv(s, g); }
    if !s.isLocked {
      FreeMeansNeverQueued(s, f);
      forall g | g in t.futures && Waiting(t, g) ensures g in t.waitQueue { assert Waiting(s, g); }
    } else {
      PollQueue(s, f);
    }
  }

  lemma PollQueue(s: State, f: nat)
    requires Inv(s) && Enabled(s, PollLocked(f)) && s.isLocked
    ensures QueueInv(Apply(s, PollLocked(f))) && HistoryInv(Apply(s, PollLocked(f)))
  {
    hide QueueInv, HistoryInv, Tokens;
    if s.futures[f].queued {
      RequeueKeeps(s, f);
    } else {
      NotQueued(s, f);
      EnqueueQueue(s, f);
      EnqueueHistory(s, f);
    }
  }

  lemma RequeueKeeps(s: State, f: nat)
    requires Inv(s) && Enabled(s, PollLocked(f)) && s.isLocked && s.futures[f].queued
    ensures QueueInv(Apply(s, PollLocked(f))) && HistoryInv(Apply(s, PollLocked(f)))
  {
  }

  lemma EnqueueQueue(s: State, f: nat)
    requires Enabled(s, PollLocked(f)) && QueueInv(s) && s.isLocked && FutureInv(s, f)
    requires !s.futures[f].queued && !s.futures[f].granted && f !in s.waitQueue
    ensures QueueInv(Apply(s, PollLocked(f)))
  {
  }

  lemma EnqueueHistory(s: State, f: nat)
    requires Enabled(s, PollLocked(f)) && HistoryInv(s) && s.isLocked
    requires !s.futures[f].queued && f !in s.cancelled && !s.futures[f].granted
    ensures HistoryInv(Apply(s, PollLocked(f)))
  {
  }

  /** A future that was never queued appears nowhere in the queue's history, and was not granted. */
  lemma NotQueued(s: State, f: nat)
    requires Inv(s) && f in s.futures && !s.futures[f].queued && s.futures[f].phase == Checked
    ensures f !in s.waitQueue && f !in s.enqueued && f !in s.cancelled && !s.futures[f].granted
  {
  }

  lemma DropFutureStep(s: State, f: nat)
    requires Inv(s) && Enabled(s, DropFuture(f))
    ensures Inv(Apply(s, DropFuture(f)))
  {
    var fut := s.futures[f];
    var t := Put(s, f, fut.(phase := Dropped));
    assert FutureInv(s, f);
    if fut.granted {
      DropKeepsOrder(s, f);
      assert Granted(t) == Granted(s) - {f};
      if !fut.completed {
        assert f in Granted(s);
        ReleaseRestores(t);
      }
    } else {
      DropWaiter(s, f);
    }
  }

  lemma DropKeepsOrder(s: State, f: nat)
    requires Orderly(s) && f in s.futures && s.futures[f].granted
    ensures Orderly(Put(s, f, s.futures[f].(phase := Dropped)))
  {
  }

  /** Dropping a future that was not granted: it leaves the queue if it was in it. */
  lemma DropWaiter(s: State, f: nat)
    requires Inv(s) && Enabled(s, DropFuture(f)) && !s.futures[f].granted
    ensures Inv(Apply(s, DropFuture(f)))
  {
    hide QueueInv, HistoryInv;
    var t := Apply(s, DropFuture(f));
    assert FutureInv(s, f);
    assert Granted(t) == Granted(s);
    forall g | g in t.futures ensures FutureInv(t, g) { assert FutureInv(s, g); }
    LeaveQueue(s, f);
    LeaveHistory(s, f);
  }

  lemma LeaveQueue(s: State, f: nat)
    requires QueueInv(s) && Enabled(s, DropFuture(f)) && FutureInv(s, f) && !s.futures[f].granted
    ensures QueueInv(Apply(s, DropFuture(f)))
  {
    var t := Apply(s, DropFuture(f));
    WithoutMembers(s.waitQueue, f);
    forall g | g in t.futures && Waiting(t, g) ensures g in t.waitQueue { assert Waiting(s, g); }
  }

  lemma LeaveHistory(s: State, f: nat)
    requires QueueInv(s) && HistoryInv(s) && Enabled(s, DropFuture(f)) && FutureInv(s, f) && !s.futures[f].granted
    ensures HistoryInv(Apply(s, DropFuture(f)))
  {
    if f in s.waitQueue {
      FilterMore(s.enqueued, s.cancelled, f);
      WithoutConcat(s.handoffs, s.waitQueue, f);
      WithoutMembers(s.handoffs, f);
    }
  }

  lemma DropGuardStep(s: State)
    requires Inv(s) && Enabled(s, DropGuard)
    ensures Inv(Apply(s, DropGuard))
  {
    var u := s.(guards := s.guards - 1);
    assert Granted(u) == Granted(s);
    forall f | f in u.futures ensures FutureInv(u, f) { assert FutureInv(s, f); }
    ReleaseRestores(u);
  }

  lemma StepKeepsInv(s: State, step: Step)
    requires Inv(s) && Enabled(s, step)
    ensures Inv(Apply(s, step))
  {
    match step
    case New(f) => NewStep(s, f);
    case PollCheck(f) => PollCheckStep(s, f);
    case PollLocked(f) => PollLockedStep(s, f);
    case DropFuture(f) => DropFutureStep(s, f);
    case DropGuard => DropGuardStep(s);
  }

  // ---- Whole runs ----

  predicate Possible(s: State, steps: seq<Step>)
    decreases |steps|
  {
    steps == [] || (Enabled(s, steps[0]) && Possible(Apply(s, steps[0]), steps[1..]))
  }

  function Exec(s: State, steps: seq<Step>): State
    requires Possible(s, steps)
    decreases |steps|
  {
    if steps == [] then s else Exec(Apply(s, steps[0]), steps[1..])
  }

  lemma {:induction false} RunKeepsInv(s: State, steps: seq<Step>)
    requires Inv(s) && Possible(s, steps)
    ensures Inv(Exec(s, steps))
    decreases |steps|
  {
    if steps != [] {
      StepKeepsInv(s, steps[0]);
      RunKeepsInv(Apply(s, steps[0]), steps[1..]);
    }
  }

  /** In every reachable state, cancellations included, the mutex is locked exactly if one ownership
      token exists, and there are never two: not two guards, not a guard and a granted future, not
      two granted futures. */
  lemma MutualExclusion(steps: seq<Step>)
    requires Possible(Initial(), steps)
    ensures var s := Exec(Initial(), steps);
      && (s.isLocked <==> Tokens(s) == 1) && (!s.isLocked <==> Tokens(s) == 0)
      && s.guards <= 1
      && (s.guards == 1 ==> Granted(s) == {})
      && (forall f, g | f in Granted(s) && g in Granted(s) :: f == g)
  {
    assert Granted(Initial()) == {};
    RunKeepsInv(Initial(), steps);
    var s := Exec(Initial(), steps);
    forall f, g | f in Granted(s) && g in Granted(s) ensures f == g {
      assert {f, g} <= Granted(s);
      SubsetSize({f, g}, Granted(s));
    }
  }

  lemma SubsetSize(a: set<nat>, b: set<nat>)
    requires a <= b
    ensures |a| <= |b|
  {
    assert b == a + (b - a);
  }

  /** In every reachable state hand-offs have followed the enqueue order minus cancellations, an
      unlocked mutex has nobody waiting, and every granted future that has not run yet is woken,
      also when the grant landed between the two halves of its poll. */
  lemma FifoAndNoLostWake(steps: seq<Step>)
    requires Possible(Initial(), steps)
    ensures var s := Exec(Initial(), steps);
      && s.handoffs + s.waitQueue == Filter(s.enqueued, s.cancelled)
      && (!s.isLocked ==> s.waitQueue == [])
      && NoRepeats(s.waitQueue) && (forall f | f in s.waitQueue :: Waiting(s, f))
      && (forall f | f in Granted(s) :: s.futures[f].wakePending)
  {
    assert Granted(Initial()) == {};
    RunKeepsInv(Initial(), steps);
    var s := Exec(Initial(), steps);
    forall f | f in Granted(s) ensures s.futures[f].wakePending { assert FutureInv(s, f); }
  }

  predicate Ahead(q: seq<nat>, g: nat, f: nat) {
    exists i, j | 0 <= i < j < |q| :: q[i] == g && q[j] == f
  }

  /** What one step can do to the queue: nothing, pop the front, append a newcomer, or take one out. */
  lemma QueueShape(s: State, step: Step) returns (x: nat)
    requires Inv(s) && Enabled(s, step)
    ensures var q, q' := s.waitQueue, Apply(s, step).waitQueue;
      q' == q || (q != [] && q' == q[1..]) || (x !in q && q' == q + [x]) || q' == Without(q, x)
  {
    x := if step.DropGuard? then 0 else step.future;
    if step.PollLocked? && s.isLocked && !s.futures[step.future].queued {
      NotQueued(s, step.future);
      assert Apply(s, step).waitQueue == s.waitQueue + [step.future];
    } else if step.DropFuture? && step.future in s.waitQueue && !s.futures[step.future].granted {
      assert FutureInv(s, step.future);
      assert Apply(s, step).waitQueue == Without(s.waitQueue, step.future);
    }
  }

  /** No step lets a future get ahead of one that was waiting before it. */
  lemma NoOvertaking(s: State, step: Step, f: nat, g: nat)
    requires Inv(s) && Enabled(s, step) && f in s.waitQueue
    ensures Ahead(Apply(s, step).waitQueue, g, f) ==> Ahead(s.waitQueue, g, f)
  {
    var q, q' := s.waitQueue, Apply(s, step).waitQueue;
    var x := QueueShape(s, step);
    if Ahead(q', g, f) {
      var i, j :| 0 <= i < j < |q'| && q'[i] == g && q'[j] == f;
      if q' == Without(q, x) {
        WithoutAhead(q, x, g, f);
      } else if q != [] && q' == q[1..] {
        assert q[i + 1] == g && q[j + 1] == f;
      } else {
        assert j < |q|;
        assert q[i] == g && q[j] == f;
      }
    }
  }

  lemma {:induction false} WithoutAhead(q: seq<nat>, x: nat, g: nat, f: nat)
    requires Ahead(Without(q, x), g, f)
    ensures Ahead(q, g, f)
  {
    var w := Without(q, x);
    var i, j :| 0 <= i < j < |w| && w[i] == g && w[j] == f;
    var rest, last := q[..|q| - 1], q[|q| - 1];
    if j < |Without(rest, x)| {
      assert Without(rest, x)[i] == g && Without(rest, x)[j] == f;
      WithoutAhead(rest, x, g, f);
      var a, b :| 0 <= a < b < |rest| && rest[a] == g && rest[b] == f;
      assert q[a] == g && q[b] == f;
    } else {
      WithoutMembers(rest, x);
      assert Without(rest, x)[i] in rest;
      var a :| 0 <= a < |rest| && rest[a] == g;
      assert q[a] == g && q[|q| - 1] == f;
    }
  }

  /** A future that owns the lock, has been woken, and will return the guard from its next check. */
  predicate AboutToHold(s: State, f: nat) {
    && f in Granted(s) && s.futures[f].wakePending
    && (s.futures[f].phase == Resting ==> Enabled(s, PollCheck(f)) && Apply(s, PollCheck(f)).guards == s.guards + 1)
    && (s.futures[f].phase == Checked ==> Enabled(s, PollLocked(f)) && Apply(s, PollLocked(f)).futures[f].phase == Resting)
  }

  /** A locked mutex is never stranded: a guard is alive, or a woken future is about to hold it. */
  lemma LockedCanMove(s: State)
    requires Inv(s) && s.isLocked
    ensures s.guards == 1 || exists f :: AboutToHold(s, f)
  {
    if s.guards == 0 {
      var f :| f in Granted(s);
      assert FutureInv(s, f);
      assert AboutToHold(s, f);
    }
  }

  // ---- Answers ----

  /** The polls that hand a guard to their task. */
  predicate Ready(s: State, step: Step) {
    match step
    case PollCheck(f) => f in s.futures && s.futures[f].granted
    case PollLocked(f) => !s.isLocked
    case _ => false
  }

  /** A poll answers ready exactly if it makes a guard, and then that guard is the only one and the mutex
      is locked. Only dropping a guard takes one away. */
  lemma ReadyMakesGuard(s: State, step: Step)
    requires Inv(s) && Enabled(s, step)
    ensures var t := Apply(s, step);
      && (Ready(s, step) <==> t.guards == s.guards + 1) && (step.DropGuard? <==> t.guards == s.guards - 1)
      && (Ready(s, step) || step.DropGuard? || t.guards == s.guards)
      && (Ready(s, step) ==> s.guards == 0 && t.isLocked && t.futures[step.future].granted && t.futures[step.future].completed)
  {
    hide HistoryInv;
    if step.PollCheck? && s.futures[step.future].granted {
      assert step.future in Granted(s);
    }
  }

  /** A poll that is not answered leaves its future in the queue with a waker, at the end if it was not
      there before, unless the lock has been handed to it in the meantime. */
  lemma PendingWaits(s: State, f: nat)
    requires Inv(s) && Enabled(s, PollLocked(f)) && !Ready(s, PollLocked(f))
    ensures var t := Apply(s, PollLocked(f));
      && (t.futures[f].granted || (f in t.waitQueue && t.futures[f].waker))
      && (!s.futures[f].queued ==> t.waitQueue == s.waitQueue + [f])
  {
    hide HistoryInv;
    assert FutureInv(s, f);
    if s.futures[f].queued && !s.futures[f].granted {
      assert Waiting(s, f);
    }
  }

  /** A release gives the lock to the one that has waited longest and wakes it; the others move up. */
  lemma ReleaseServesFirst(s: State)
    requires Inv(s) && Enabled(s, DropGuard) && s.waitQueue != []
    ensures var t, w := Apply(s, DropGuard), s.waitQueue[0];
      t.isLocked && t.waitQueue == s.waitQueue[1..] && Alive(t, w) && t.futures[w].granted && t.futures[w].wakePending
  {
    hide HistoryInv;
    FirstWaits(s);
  }

  function Drops(steps: seq<Step>): nat {
    if steps == [] then 0 else Drops(steps[..|steps| - 1]) + if steps[|steps| - 1].DropGuard? then 1 else 0
  }

  function Readies(answers: seq<bool>): nat {
    if answers == [] then 0 else Readies(answers[..|answers| - 1]) + if answers[|answers| - 1] then 1 else 0
  }

  /** A guard is dropped after answer `i` and before answer `j`. */
  predicate DropBetween(steps: seq<Step>, i: nat, j: nat) {
    exists k | i < k < j :: k < |steps| && steps[k].DropGuard?
  }

  /** No two ready answers without a drop between them; without a guard, a drop since the last one. */
  predicate Alternate(answers: seq<bool>, steps: seq<Step>, guards: nat) {
    && (forall i, j | 0 <= i < j < |answers| :: answers[i] && answers[j] ==> DropBetween(steps, i, j))
    && (guards == 0 ==> forall i | 0 <= i < |answers| :: answers[i] ==> DropBetween(steps, i, |answers|))
  }

  lemma AlternateGrows(answers: seq<bool>, steps: seq<Step>, guards: nat, ready: bool, guards': nat)
    requires |answers| < |steps| && Alternate(answers, steps, guards)
    requires ready ==> guards == 0 && guards' == 1
    requires !ready && !steps[|answers|].DropGuard? ==> guards' == guards
    ensures Alternate(answers + [ready], steps, guards')
  {
    var n, more := |answers|, answers + [ready];
    forall i | 0 <= i < n && answers[i] && guards' == 0 ensures DropBetween(steps, i, n + 1) {
      if guards == 0 {
        var k :| i < k < n && k < |steps| && steps[k].DropGuard?;
      } else {
        assert i < n && steps[n].DropGuard?;
      }
    }
  }

  // ---- The mutex as the program holds it ----

  /** The mutex and its futures as fields that the operations update in place. */
  class Mutex {
    var isLocked: bool
    var waitQueue: seq<nat>
    var futures: map<nat, Future>
    var guards: nat
    ghost var enqueued: seq<nat>
    ghost var handoffs: seq<nat>
    ghost var cancelled: set<nat>

    ghost function Model(): State
      reads this
    {
      State(isLocked, waitQueue, futures, guards, enqueued, handoffs, cancelled)
    }

    constructor ()
      ensures Model() == Initial() && Inv(Model())
    {
      isLocked, waitQueue, futures, guards := false, [], map[], 0;
      enqueued, handoffs, cancelled := [], [], {};
      new;
      assert Granted(Initial()) == {};
    }

    method NewFuture(f: nat)
      requires Inv(Model()) && f !in futures
      modifies this
      ensures Inv(Model()) && Model() == Apply(old(Model()), New(f))
    {
      hide Inv;
      StepKeepsInv(Model(), New(f));
      futures := futures[f := Future(false, false, false, false, Resting, false)];
    }

    /** Hands the lock to the first waiter or unlocks. */
    method WakeNext()
      requires forall f | f in waitQueue :: f in futures
      modifies this
      ensures Model() == WakeNextOrUnlock(old(Model()))
    {
      if waitQueue != [] {
        var w := waitQueue[0];
        assert w in waitQueue;
        waitQueue := waitQueue[1..];
        handoffs := handoffs + [w];
        var waker := futures[w].waker;
        futures := futures[w := futures[w].(waker := false, granted := true)];
        if waker {
          futures := futures[w := futures[w].(wakePending := true)];
        }
      } else {
        isLocked := false;
      }
    }

    /** One poll of a future, as its task runs it: first an unlocked look at the grant, then the
        locked part. Other tasks may run in between, so these are two operations. */
    method PollFirst(f: nat) returns (ready: bool)
      requires Inv(Model()) && Enabled(Model(), PollCheck(f))
      modifies this
      ensures Inv(Model()) && Model() == Apply(old(Model()), PollCheck(f))
      ensures ready <==> old(futures)[f].granted
      ensures (ready <==> guards == old(guards) + 1) && (!ready ==> guards == old(guards)) && (ready ==> isLocked)
    {
      hide Inv;
      ReadyMakesGuard(Model(), PollCheck(f));
      StepKeepsInv(Model(), PollCheck(f));
      var fut := futures[f];
      ready := fut.granted;
      if ready {
        futures := futures[f := fut.(completed := true, wakePending := false)];
        guards := guards + 1;
      } else {
        futures := futures[f := fut.(phase := Checked, wakePending := false)];
      }
    }

    method PollSecond(f: nat) returns (ready: bool)
      requires Inv(Model()) && Enabled(Model(), PollLocked(f))
      modifies this
      ensures Inv(Model()) && Model() == Apply(old(Model()), PollLocked(f))
      ensures ready <==> !old(isLocked)
      ensures (ready <==> guards == old(guards) + 1) && (!ready ==> guards == old(guards)) && (ready ==> isLocked)
      ensures !ready ==> f in futures && (futures[f].granted || f in waitQueue)
    {
      hide Inv;
      ReadyMakesGuard(Model(), PollLocked(f));
      if isLocked {
        PendingWaits(Model(), f);
      }
      StepKeepsInv(Model(), PollLocked(f));
      var fut := futures[f].(phase := Resting);
      if !isLocked {
        isLocked := true;
        futures := futures[f := fut.(granted := true, completed := true)];
        guards := guards + 1;
        return true;
      }
      if !fut.queued {
        waitQueue := waitQueue + [f];
        enqueued := enqueued + [f];
      }
      futures := futures[f := fut.(waker := true, queued := true)];
      return false;
    }

    /** Dropping a future: one that holds the lock passes it on, one that waits leaves the queue. */
    method DropWaiting(f: nat)
      requires Inv(Model()) && Enabled(Model(), DropFuture(f))
      modifies this
      ensures Inv(Model()) && Model() == Apply(old(Model()), DropFuture(f))
    {
      StepKeepsInv(Model(), DropFuture(f));
      QueueKnown(Model());
      var fut := futures[f];
      futures := futures[f := fut.(phase := Dropped)];
      if fut.completed {
        return;
      }
      if fut.granted {
        WakeNext();
        return;
      }
      if !fut.queued {
        return;
      }
      var index := 0;
      while index < |waitQueue| && waitQueue[index] != f
        invariant index <= |waitQueue| && f !in waitQueue[..index]
      {
        index := index + 1;
      }
      if index < |waitQueue| {
        RemoveOne(waitQueue, index);
        waitQueue := waitQueue[..index] + waitQueue[index + 1..];
        cancelled := cancelled + {f};
      }
    }

    method ReleaseGuard()
      requires Inv(Model()) && 0 < guards
      modifies this
      ensures Inv(Model()) && Model() == Apply(old(Model()), DropGuard)
    {
      StepKeepsInv(Model(), DropGuard);
      QueueKnown(Model());
      guards := guards - 1;
      WakeNext();
    }
  }

  /** Any run of the mutex. The ready answers are as many as the guards dropped and the guards left, and
      no two of them come without a drop between them. */
  method Drive(m: Mutex, steps: seq<Step>) returns (answers: seq<bool>)
    requires m.Model() == Initial() && Inv(m.Model()) && Possible(m.Model(), steps)
    modifies m
    ensures Inv(m.Model()) && m.Model() == Exec(Initial(), steps) && |answers| == |steps|
    ensures Readies(answers) == Drops(steps) + m.guards && m.guards <= 1
    ensures forall i, j | 0 <= i < j < |answers| :: answers[i] && answers[j] ==> DropBetween(steps, i, j)
  {
    hide Inv, Apply, Enabled, DropBetween;
    answers := [];
    while |answers| < |steps|
      invariant |answers| <= |steps| && Inv(m.Model())
      invariant Possible(m.Model(), steps[|answers|..]) && Exec(m.Model(), steps[|answers|..]) == Exec(Initial(), steps)
      invariant Readies(answers) == Drops(steps[..|answers|]) + m.guards
      invariant Alternate(answers, steps, m.guards)
    {
      var n := |answers|;
      ghost var s := m.Model();
      var rest := steps[n..];
      assert rest[0] == steps[n] && rest[1..] == steps[n + 1..];
      ReadyMakesGuard(s, steps[n]);
      var ready := Act(m, steps[n]);
      assert steps[..n + 1][..n] == steps[..n] && (answers + [ready])[..n] == answers;
      AlternateGrows(answers, steps, s.guards, ready, m.guards);
      answers := answers + [ready];
    }
    assert steps[..|answers|] == steps;
    OneGuard(m.Model());
  }

  lemma OneGuard(s: State)
    requires Inv(s)
    ensures s.guards <= 1
  {
  }

  method Act(m: Mutex, step: Step) returns (ready: bool)
    requires Inv(m.Model()) && Enabled(m.Model(), step)
    modifies m
    ensures Inv(m.Model()) && m.Model() == Apply(old(m.Model()), step)
    ensures (ready <==> m.guards == old(m.guards) + 1) && (step.DropGuard? <==> m.guards == old(m.guards) - 1)
    ensures ready || step.DropGuard? || m.guards == old(m.guards)
  {
    hide Inv, Apply;
    ReadyMakesGuard(m.Model(), step);
    ready := false;
    match step {
      case New(f) => m.NewFuture(f);
      case PollCheck(f) => ready := m.PollFirst(f);
      case PollLocked(f) => ready := m.PollSecond(f);
      case DropFuture(f) => m.DropWaiting(f);
      case DropGuard => m.ReleaseGuard();
    }
  }

  lemma QueueKnown(s: State)
    requires Inv(s)
    ensures NoRepeats(s.waitQueue) && forall f | f in s.waitQueue :: f in s.futures && s.futures[f].queued
  {
  }

  /** In a queue without repetitions, taking out one position is taking out its value. */
  lemma {:induction false} RemoveOne(q: seq<nat>, index: nat)
    requires index < |q| && NoRepeats(q)
    ensures Without(q, q[index]) == q[..index] + q[index + 1..]
  {
    var rest, last := q[..|q| - 1], q[|q| - 1];
    if index == |q| - 1 {
      WithoutMembers(rest, last);
      assert q[index + 1..] == [];
    } else {
      RemoveOne(rest, index);
      assert q[..index] + q[index + 1..] == rest[..index] + rest[index + 1..] + [last];
    }
  }
}
