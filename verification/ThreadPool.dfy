/** The thread pool (src/data_structures/thread_pool/thread_pool.c) as a transition system.
    A step is one critical section under the pool's lock, one call of a task's function, or
    one atomic operation; the owner may submit, shut down and observe at any time. */
module ThreadPool {

  type Task = nat   // the position of the task in submission order identifies it

  datatype Worker = Idle | Running(task: Task) | Returned(task: Task) | Exited

  /** `submitted` counts the tasks handed to tp_submit; `started` and `finished` log the
      tasks dequeued and the tasks whose function has returned. */
  datatype State = State(
    queue: seq<Task>, pending: int, shutdown: bool, workers: seq<Worker>,
    submitted: nat, started: seq<Task>, finished: seq<Task>)

  datatype Actor = Submit | Shutdown | Thread(id: nat)

  function Init(threads: nat): State {
    State([], 0, false, seq(threads, _ => Idle), 0, [], [])
  }

  predicate Enabled(s: State, a: Actor) {
    match a
    case Submit => true
    case Shutdown => true
    case Thread(w) =>
      w < |s.workers| && !s.workers[w].Exited? &&
      (s.workers[w].Idle? ==> s.queue != [] || s.shutdown)
  }

  function Step(s: State, a: Actor): State
    requires Enabled(s, a)
  {
    match a
    case Submit =>
      s.(queue := s.queue + [s.submitted], pending := s.pending + 1, submitted := s.submitted + 1)
    case Shutdown => s.(shutdown := true)
    case Thread(w) =>
      match s.workers[w]
      case Idle =>
        if s.shutdown && s.queue == [] then
          s.(workers := s.workers[w := Exited])
        else
          s.(workers := s.workers[w := Running(s.queue[0])], queue := s.queue[1..],
             started := s.started + [s.queue[0]])
      case Running(t) =>
        s.(workers := s.workers[w := Returned(t)], finished := s.finished + [t])
      case Returned(_) =>
        s.(workers := s.workers[w := Idle], pending := s.pending - 1)
  }

  ghost predicate Run(s: State, sched: seq<Actor>, t: State)
    decreases |sched|
  {
    if sched == [] then s == t
    else Enabled(s, sched[0]) && Run(Step(s, sched[0]), sched[1..], t)
  }

  function BusyOne(k: Worker): nat {
    if k.Running? || k.Returned? then 1 else 0
  }

  function Busy(ws: seq<Worker>): nat {
    if ws == [] then 0 else BusyOne(ws[0]) + Busy(ws[1..])
  }

  function CallsOne(k: Worker, t: Task): nat {
    if k == Running(t) then 1 else 0
  }

  /** How many workers are inside task `t`'s function right now. */
  function Calls(ws: seq<Worker>, t: Task): nat {
    if ws == [] then 0 else CallsOne(ws[0], t) + Calls(ws[1..], t)
  }

  lemma {:induction false} BusyUpdate(ws: seq<Worker>, w: nat, k: Worker, t: Task)
    requires w < |ws|
    ensures Busy(ws[w := k]) + BusyOne(ws[w]) == Busy(ws) + BusyOne(k)
    ensures Calls(ws[w := k], t) + CallsOne(ws[w], t) == Calls(ws, t) + CallsOne(k, t)
  {
    if w == 0 {
      assert ws[w := k][1..] == ws[1..];
    } else {
      BusyUpdate(ws[1..], w - 1, k, t);
      assert ws[w := k][1..] == ws[1..][w - 1 := k];
    }
  }

  lemma {:induction false} BusyZero(ws: seq<Worker>, t: Task)
    ensures Busy(ws) == 0 <==> forall w :: 0 <= w < |ws| ==> ws[w].Idle? || ws[w].Exited?
    ensures Calls(ws, t) <= Busy(ws)
  {
    if ws != [] {
      BusyZero(ws[1..], t);
      if Busy(ws) == 0 {
        assert forall w :: 0 < w < |ws| ==> ws[w] == ws[1..][w - 1];
      } else if BusyOne(ws[0]) == 0 {
        var w :| 0 <= w < |ws[1..]| && !(ws[1..][w].Idle? || ws[1..][w].Exited?);
        assert ws[w + 1] == ws[1..][w];
      }
    }
  }

  function Upto(n: nat): (r: seq<Task>)
    ensures |r| == n && forall i :: 0 <= i < n ==> r[i] == i
  {
    seq(n, i => i)
  }

  ghost predicate Counts(s: State) {
    && s.pending == |s.queue| + Busy(s.workers)
    && s.started + s.queue == Upto(s.submitted)
    && (forall w :: 0 <= w < |s.workers| && s.workers[w].Exited? ==> s.shutdown)
  }

  ghost predicate Accounted(s: State) {
    forall t :: multiset(s.started)[t] == multiset(s.finished)[t] + Calls(s.workers, t)
  }

  ghost predicate Inv(s: State) {
    Counts(s) && Accounted(s)
  }

  lemma {:induction false} StepCounts(s: State, a: Actor)
    requires Counts(s) && Enabled(s, a)
    ensures Counts(Step(s, a))
  {
    var t := Step(s, a);
    match a
    case Submit => assert t.started + t.queue == s.started + s.queue + [s.submitted];
    case Shutdown =>
    case Thread(w) =>
      BusyUpdate(s.workers, w, t.workers[w], 0);
      if s.workers[w].Idle? && !t.workers[w].Exited? {
        assert s.started + s.queue == s.started + [s.queue[0]] + s.queue[1..];
      }
  }

  lemma {:induction false} StepAccounted(s: State, a: Actor)
    requires Accounted(s) && Enabled(s, a)
    ensures Accounted(Step(s, a))
  {
    if a.Thread? {
      var u := Step(s, a);
      forall t ensures multiset(u.started)[t] == multiset(u.finished)[t] + Calls(u.workers, t) {
        BusyUpdate(s.workers, a.id, u.workers[a.id], t);
      }
    }
  }

  lemma {:induction false} StepInv(s: State, a: Actor)
    requires Inv(s) && Enabled(s, a)
    ensures Inv(Step(s, a))
  {
    StepCounts(s, a);
    StepAccounted(s, a);
  }

  lemma {:induction false} RunInv(s: State, sched: seq<Actor>, t: State)
    requires Inv(s) && Run(s, sched, t)
    ensures Inv(t)
    decreases |sched|
  {
    if sched != [] {
      StepInv(s, sched[0]);
      RunInv(Step(s, sched[0]), sched[1..], t);
    }
  }

  lemma {:induction false} InitInv(threads: nat)
    ensures Inv(Init(threads))
  {
    BusyZero(Init(threads).workers, 0);
    forall t ensures Calls(Init(threads).workers, t) == 0 { BusyZero(Init(threads).workers, t); }
  }

  /** `pending` is exact, and the dequeue order is the submission order, each task once. */
  lemma {:induction false} PendingAndOrder(threads: nat, sched: seq<Actor>, s: State)
    requires Run(Init(threads), sched, s)
    ensures s.pending == |s.queue| + Busy(s.workers)
    ensures |s.started| <= s.submitted && s.started == Upto(|s.started|)
  {
    InitInv(threads);
    RunInv(Init(threads), sched, s);
    assert forall i :: 0 <= i < |s.started| ==> s.started[i] == (s.started + s.queue)[i];
  }

  /** tp_wait may return exactly when it sees `pending` 0; then every task submitted so far
      has returned, and returned once.  The converse is missing one atomic operation: a
      worker whose task has returned may still have to lower `pending`. */
  lemma {:induction false} WaitMeansFinished(threads: nat, sched: seq<Actor>, s: State)
    requires Run(Init(threads), sched, s)
    ensures s.pending >= 0
    ensures s.pending == 0 ==> multiset(s.finished) == multiset(Upto(s.submitted))
    ensures s.pending == 0 <==>
            (s.queue == [] && forall w :: 0 <= w < |s.workers| ==> s.workers[w].Idle? || s.workers[w].Exited?)
  {
    InitInv(threads);
    RunInv(Init(threads), sched, s);
    BusyZero(s.workers, 0);
    if s.pending == 0 {
      assert s.started + s.queue == s.started;
      forall t ensures multiset(s.finished)[t] == multiset(s.started)[t] { BusyZero(s.workers, t); }
    }
  }

  /** Nothing is queued once a worker has left. */
  ghost predicate Drained(s: State) {
    (exists w :: 0 <= w < |s.workers| && s.workers[w].Exited?) ==> s.queue == []
  }

  lemma {:induction false} DrainedRun(s: State, sched: seq<Actor>, t: State)
    requires Drained(s) && Run(s, sched, t) && Submit !in sched
    ensures Drained(t) && t.submitted == s.submitted && |t.workers| == |s.workers|
    decreases |sched|
  {
    if sched != [] {
      var u := Step(s, sched[0]);
      assert sched[0] != Submit;
      assert forall w :: 0 <= w < |u.workers| && u.workers[w].Exited? && !s.workers[w].Exited? ==> u.queue == [];
      DrainedRun(u, sched[1..], t);
    }
  }

  lemma {:induction false} RunConcat(s: State, p: seq<Actor>, t: State, q: seq<Actor>, u: State)
    requires Run(s, p, t) && Run(t, q, u)
    ensures Run(s, p + q, u)
    decreases |p|
  {
    if p == [] {
      assert p + q == q;
    } else {
      RunConcat(Step(s, p[0]), p[1..], t, q, u);
      assert (p + q)[1..] == p[1..] + q;
    }
  }

  lemma {:induction false} WorkersKept(s: State, sched: seq<Actor>, t: State)
    requires Run(s, sched, t)
    ensures |t.workers| == |s.workers|
    decreases |sched|
  {
    if sched != [] { WorkersKept(Step(s, sched[0]), sched[1..], t); }
  }

  /** tp_destroy loses nothing: when the owner submits nothing from some point before the
      shutdown on, and every worker has been joined, every task ever submitted has run
      exactly once. */
  lemma {:induction false} DestroyRunsEverything(threads: nat, before: seq<Actor>, s: State, later: seq<Actor>,
                                                 t: State)
    requires threads > 0 && Run(Init(threads), before, s) && !s.shutdown
    requires Run(s, later, t) && Submit !in later
    requires forall w :: 0 <= w < |t.workers| ==> t.workers[w].Exited?
    ensures t.submitted == s.submitted && multiset(t.finished) == multiset(Upto(s.submitted))
  {
    InitInv(threads);
    RunInv(Init(threads), before, s);
    WorkersKept(Init(threads), before, s);
    DrainedRun(s, later, t);
    RunConcat(Init(threads), before, s, later, t);
    assert t.workers[0].Exited?;
    WaitMeansFinished(threads, before + later, t);
  }
}
