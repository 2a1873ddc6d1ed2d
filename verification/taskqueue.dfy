/** The queue that runs the tasks of one client one after the other on a shared thread pool.
    A task is handed to the pool after the lock was released, so that between its choice and
    its start anything else may happen. */
module TaskQueues {
  import opened Collections

  type Task = nat

  /** `starting` holds the tasks chosen but not yet handed to the pool, `running` those in the
      pool.  The rest is history: what was ever enqueued, removed by `clear`, and completed. */
  datatype State = State(
    tasks: seq<Task>,
    starting: set<Task>,
    running: set<Task>,
    enqueued: seq<Task>,
    cleared: set<Task>,
    completed: seq<Task>,
    mismatch: bool)

  const EMPTY := State([], {}, {}, [], {}, [], false)

  datatype Action = Enqueue(t: Task) | PoolStart(t: Task) | Complete(t: Task) | Clear

  // ---- the steps

  function HeadOf(tasks: seq<Task>): set<Task> {
    if tasks == [] then {} else {tasks[0]}
  }

  function Elements(tasks: seq<Task>): set<Task> {
    set t | t in tasks
  }

  function Enqueued(s: State, t: Task): State {
    var tasks' := s.tasks + [t];
    s.(tasks := tasks', enqueued := s.enqueued + [t],
       starting := if |tasks'| == 1 then s.starting + HeadOf(tasks') else s.starting)
  }

  function Started(s: State, t: Task): State {
    s.(starting := s.starting - {t}, running := s.running + {t})
  }

  function Completed(s: State, t: Task): State {
    var tasks' := if s.tasks == [] then [] else s.tasks[1..];
    s.(tasks := tasks', running := s.running - {t}, completed := s.completed + [t],
       mismatch := s.mismatch || s.tasks == [] || s.tasks[0] != t,
       starting := s.starting + HeadOf(tasks'))
  }

  function Cleared(s: State): State {
    if s.tasks == [] then s
    else s.(tasks := [s.tasks[0]], cleared := s.cleared + Elements(s.tasks[1..]))
  }

  /** A task is a new object, and only what was handed to the pool is started and completed. */
  predicate Enabled(s: State, a: Action) {
    match a
    case Enqueue(t) => t !in s.enqueued
    case PoolStart(t) => t in s.starting
    case Complete(t) => t in s.running
    case Clear => true
  }

  function Apply(s: State, a: Action): State {
    if !Enabled(s, a) then s
    else
      match a
      case Enqueue(t) => Enqueued(s, t)
      case PoolStart(t) => Started(s, t)
      case Complete(t) => Completed(s, t)
      case Clear => Cleared(s)
  }

  function After(s: State, run: seq<Action>): State
    decreases |run|
  {
    if run == [] then s else After(Apply(s, run[0]), run[1..])
  }

  lemma {:induction false} AfterSnoc(s: State, run: seq<Action>, x: Action)
    ensures After(s, run + [x]) == Apply(After(s, run), x)
    decreases |run|
  {
    if run == [] {
      assert run + [x] == [x] && [x][1..] == [];
    } else {
      assert (run + [x])[1..] == run[1..] + [x];
      AfterSnoc(Apply(s, run[0]), run[1..], x);
    }
  }

  // ---- the invariant

  /** The tasks that `clear` has not removed, in order. */
  function Kept(tasks: seq<Task>, cleared: set<Task>): seq<Task> {
    if tasks == [] then []
    else
      var last, rest := tasks[|tasks| - 1], Kept(tasks[..|tasks| - 1], cleared);
      if last in cleared then rest else rest + [last]
  }

  /** Exactly the head of the queue is in the hands of the pool. */
  ghost predicate OneAtATime(s: State) {
    s.starting !! s.running && s.starting + s.running == HeadOf(s.tasks)
  }

  /** First in, first out: completed and waiting tasks are the enqueued ones in order, without
      those that were cleared. */
  ghost predicate InOrder(s: State) {
    && Distinct(s.enqueued)
    && s.completed + s.tasks == Kept(s.enqueued, s.cleared)
    && (forall t :: t in s.cleared ==> t in s.enqueued)
  }

  ghost predicate Inv(s: State) {
    OneAtATime(s) && InOrder(s) && !s.mismatch
  }

  lemma {:induction false} KeptIn(tasks: seq<Task>, cleared: set<Task>)
    ensures forall t :: t in Kept(tasks, cleared) <==> t in tasks && t !in cleared
    ensures Distinct(tasks) ==> Distinct(Kept(tasks, cleared))
  {
    if tasks != [] {
      var n := |tasks| - 1;
      KeptIn(tasks[..n], cleared);
      assert tasks == tasks[..n] + [tasks[n]];
      if Distinct(tasks) {
        assert tasks[n] !in tasks[..n];
      }
    }
  }

  lemma {:induction false} KeptTwice(tasks: seq<Task>, a: set<Task>, b: set<Task>)
    ensures Kept(tasks, a + b) == Kept(Kept(tasks, a), b)
  {
    if tasks != [] {
      var n := |tasks| - 1;
      KeptTwice(tasks[..n], a, b);
      var rest := Kept(tasks[..n], a);
      if tasks[n] !in a {
        assert (rest + [tasks[n]])[..|rest|] == rest;
      }
    }
  }

  lemma {:induction false} KeptAll(tasks: seq<Task>, cleared: set<Task>)
    requires forall t :: t in tasks ==> t !in cleared
    ensures Kept(tasks, cleared) == tasks
  {
    if tasks != [] { KeptAll(tasks[..|tasks| - 1], cleared); }
  }

  lemma {:induction false} KeptPrefix(tasks: seq<Task>, cleared: set<Task>, n: nat)
    requires n <= |tasks| && forall i :: n <= i < |tasks| ==> tasks[i] in cleared
    requires forall i :: 0 <= i < n ==> tasks[i] !in cleared
    ensures Kept(tasks, cleared) == tasks[..n]
  {
    if n == |tasks| {
      KeptAll(tasks, cleared);
      assert tasks[..n] == tasks;
    } else {
      KeptPrefix(tasks[..|tasks| - 1], cleared, n);
      assert tasks[..|tasks| - 1][..n] == tasks[..n];
    }
  }

  lemma EnqueueKeepsOrder(s: State, t: Task)
    requires InOrder(s) && t !in s.enqueued
    ensures InOrder(Enqueued(s, t))
  {
    var all := s.enqueued + [t];
    assert all[..|all| - 1] == s.enqueued;
    assert s.completed + (s.tasks + [t]) == s.completed + s.tasks + [t];
  }

  lemma CompleteKeepsOrder(s: State, t: Task)
    requires InOrder(s) && s.tasks != [] && s.tasks[0] == t
    ensures InOrder(Completed(s, t))
  {
    assert s.completed + s.tasks == (s.completed + [t]) + s.tasks[1..];
  }

  /** Behind the completed tasks and the head stands what a clear removes, and nothing of it before. */
  lemma TailBehind(completed: seq<Task>, tasks: seq<Task>)
    requires Distinct(completed + tasks) && tasks != []
    ensures
      var kept, n, tail := completed + tasks, |completed| + 1, Elements(tasks[1..]);
      && (forall i :: n <= i < |kept| ==> kept[i] in tail) && (forall i :: 0 <= i < n ==> kept[i] !in tail)
      && kept[..n] == completed + [tasks[0]]
  {
    var kept, n, tail := completed + tasks, |completed| + 1, Elements(tasks[1..]);
    forall i | n <= i < |kept| ensures kept[i] in tail {
      assert kept[i] == tasks[1..][i - n];
    }
    forall i | 0 <= i < n ensures kept[i] !in tail {
      forall j | 0 <= j < |tasks[1..]| ensures tasks[1..][j] != kept[i] {
        assert tasks[1..][j] == kept[n + j];
      }
    }
  }

  lemma ClearKeepsOrder(s: State)
    requires InOrder(s) && s.tasks != []
    ensures InOrder(Cleared(s))
  {
    var tail, kept := Elements(s.tasks[1..]), s.completed + s.tasks;
    KeptIn(s.enqueued, s.cleared);
    KeptTwice(s.enqueued, s.cleared, tail);
    TailBehind(s.completed, s.tasks);
    KeptPrefix(kept, tail, |s.completed| + 1);
    forall t | t in tail ensures t in s.enqueued {
      assert t in kept;
    }
  }

  lemma StepKeepsInv(s: State, a: Action)
    requires Inv(s)
    ensures Inv(Apply(s, a))
  {
    if Enabled(s, a) {
      match a
      case Enqueue(t) => EnqueueKeepsOrder(s, t);
      case Complete(t) =>
        assert t in HeadOf(s.tasks);
        CompleteKeepsOrder(s, t);
        CompletedOnce(s);
      case Clear => if s.tasks != [] { ClearKeepsOrder(s); }
      case PoolStart(t) =>
    }
  }

  /** No task is completed or queued twice. */
  lemma CompletedOnce(s: State)
    requires InOrder(s)
    ensures Distinct(s.completed + s.tasks)
    ensures forall t :: t in s.completed + s.tasks <==> t in s.enqueued && t !in s.cleared
  {
    KeptIn(s.enqueued, s.cleared);
  }

  lemma {:induction false} RunKeepsInv(s: State, run: seq<Action>)
    requires Inv(s)
    ensures Inv(After(s, run))
    decreases |run|
  {
    if run != [] {
      StepKeepsInv(s, run[0]);
      RunKeepsInv(Apply(s, run[0]), run[1..]);
    }
  }

  /** Under every interleaving: at most one task is in the hands of the pool and it is the head,
      a waiting queue never stalls, tasks complete in the order they were enqueued, each once
      unless it was cleared before it reached the head, and the head never mismatches. */
  lemma TasksRunInOrder(run: seq<Action>)
    ensures
      var s := After(EMPTY, run);
      && s.starting + s.running == HeadOf(s.tasks) && s.starting * s.running == {}
      && s.completed + s.tasks == Kept(s.enqueued, s.cleared)
      && Distinct(s.completed + s.tasks)
      && s.cleared !! s.starting + s.running && (forall t :: t in s.completed ==> t !in s.cleared)
      && !s.mismatch
  {
    RunKeepsInv(EMPTY, run);
    CompletedOnce(After(EMPTY, run));
  }

  // ---- the class

  class SingleTaskQueue {
    var tasks: seq<Task>
    var starting: set<Task>
    var running: set<Task>
    var warned: bool
    ghost var enqueued: seq<Task>
    ghost var cleared: set<Task>
    ghost var completed: seq<Task>

    constructor ()
      ensures Abs() == EMPTY
    {
      tasks, starting, running, warned := [], {}, {}, false;
      enqueued, cleared, completed := [], {}, [];
    }

    ghost function Abs(): State
      reads this
    {
      State(tasks, starting, running, enqueued, cleared, completed, warned)
    }

    /** Chooses the head; the lock is released before it is handed to the pool. */
    method NextTask()
      modifies this`starting
      ensures starting == old(starting) + HeadOf(tasks)
      ensures starting == if tasks == [] then old(starting) else old(starting) + {tasks[0]}
    {
      if tasks != [] {
        starting := starting + {tasks[0]};
      }
    }

    method EnqueueTask(t: Task)
      modifies this
      ensures Abs() == Enqueued(old(Abs()), t)
      ensures tasks == old(tasks) + [t] && running == old(running)
      ensures starting == if old(tasks) == [] then old(starting) + {t} else old(starting)
    {
      tasks := tasks + [t];
      enqueued := enqueued + [t];
      if |tasks| == 1 {
        NextTask();
      }
    }

    method StartInPool(t: Task)
      requires t in starting
      modifies this
      ensures Abs() == Started(old(Abs()), t)
      ensures tasks == old(tasks) && starting == old(starting) - {t} && running == old(running) + {t}
    {
      starting, running := starting - {t}, running + {t};
    }

    method CompleteTask(t: Task)
      requires Inv(Abs()) && t in running
      modifies this
      ensures Abs() == Completed(old(Abs()), t) && Inv(Abs()) && !warned
      ensures old(tasks) == [t] + tasks && completed == old(completed) + [t] && running == old(running) - {t}
      ensures starting == if tasks == [] then old(starting) else old(starting) + {tasks[0]}
    {
      StepKeepsInv(Abs(), Complete(t));
      assert t in HeadOf(tasks);
      var head := tasks[0];
      tasks := tasks[1..];
      warned := warned || head != t;
      running := running - {t};
      completed := completed + [t];
      NextTask();
    }

    method ClearTasks() returns (finished: bool)
      modifies this`tasks, this`cleared
      ensures Abs() == Cleared(old(Abs())) && (finished <==> tasks == [])
      ensures tasks == if old(tasks) == [] then [] else [old(tasks)[0]]
      ensures forall t :: t in cleared <==> t in old(cleared) || t in old(tasks)[|tasks|..]
    {
      if tasks != [] {
        var head := tasks[0];
        tasks := tasks[1..];
        while tasks != []
          invariant |tasks| < |old(tasks)| && tasks == old(tasks)[|old(tasks)| - |tasks|..]
          invariant cleared == old(cleared) + Elements(old(tasks)[1..|old(tasks)| - |tasks|])
          decreases |tasks|
        {
          ghost var n := |old(tasks)| - |tasks|;
          cleared := cleared + {tasks[0]};
          tasks := tasks[1..];
          assert old(tasks)[1..n + 1] == old(tasks)[1..n] + [old(tasks)[n]];
        }
        assert old(tasks)[1..|old(tasks)|] == old(tasks)[1..];
        tasks := [head];
      }
      finished := tasks == [];
    }
  }
}
