// ThreadPoolLoopObject as a state machine, while it runs: submitters queue tasks, may add a worker
// and notify one; workers sleep on the condition variable, wake up, take tasks and run them. The
// state says how many workers, and how many submitters, are at each point of their code. One
// submitter at a time is in the part of `submit` that touches the pool.
module ThreadPool {

  type Task = nat

  const THREADPOOL_MAX_NUM: nat := 16

  datatype State = State(
    tasks: seq<Task>,
    idle: int,        // idle_thr_num_
    pool: nat,        // pool_.size()
    // submitters, after their push
    unchecked: nat,   // have yet to look at the idle counter and the pool's size
    growing: bool,    // one has added a worker and not yet counted it idle
    unnotified: nat,  // have yet to notify
    // workers
    outside: nat,     // about to lock and look for a task
    sleeping: nat,    // in the condition variable's wait
    woken: nat,       // woken up, but have not looked again
    took: nat,        // have a task and still count as idle
    running: nat,
    // history
    submitted: seq<Task>,
    taken: seq<Task>)

  function Min(a: nat, b: nat): nat { if a < b then a else b }

  // After the constructor: `size` workers, but no more than the maximum.
  function Init(size: nat): State {
    var n := Min(size, THREADPOOL_MAX_NUM);
    State([], n, n, 0, false, 0, n, 0, 0, 0, 0, [], [])
  }

  datatype Action =
    | Push(t: Task) | Check | CountNew | NotifyOne
    | Look | LookAgain | WakeSpuriously | CountBusy | Finish

  predicate Enabled(s: State, a: Action) {
    match a
    case Push(_) => true
    case Check => s.unchecked > 0 && !s.growing
    case CountNew => s.growing
    case NotifyOne => s.unnotified > 0
    case Look => s.outside > 0
    case LookAgain => s.woken > 0
    case WakeSpuriously => s.sleeping > 0
    case CountBusy => s.took > 0
    case Finish => s.running > 0
  }

  // Whether a submitter that looks now adds a worker.
  predicate Grows(s: State) { s.idle < 1 && s.pool < THREADPOOL_MAX_NUM }

  // With the lock held, a worker takes the first task or goes to sleep.
  function TakeOrSleep(s: State): State {
    if s.tasks == [] then s.(sleeping := s.sleeping + 1)
    else s.(tasks := s.tasks[1..], taken := s.taken + [s.tasks[0]], took := s.took + 1)
  }

  function Do(s: State, a: Action): State
    requires Enabled(s, a)
  {
    match a
    case Push(t) => s.(tasks := s.tasks + [t], submitted := s.submitted + [t], unchecked := s.unchecked + 1)
    case Check =>
      if Grows(s) then s.(unchecked := s.unchecked - 1, growing := true, pool := s.pool + 1, outside := s.outside + 1)
      else s.(unchecked := s.unchecked - 1, unnotified := s.unnotified + 1)
    case CountNew => s.(growing := false, idle := s.idle + 1, unnotified := s.unnotified + 1)
    case NotifyOne =>
      var t := s.(unnotified := s.unnotified - 1);
      if s.sleeping > 0 then t.(sleeping := s.sleeping - 1, woken := s.woken + 1) else t
    case Look => TakeOrSleep(s.(outside := s.outside - 1))
    case LookAgain => TakeOrSleep(s.(woken := s.woken - 1))
    case WakeSpuriously => s.(sleeping := s.sleeping - 1, woken := s.woken + 1)
    case CountBusy => s.(took := s.took - 1, idle := s.idle - 1, running := s.running + 1)
    case Finish => s.(running := s.running - 1, idle := s.idle + 1, outside := s.outside + 1)
  }

  predicate Possible(s: State, run: seq<Action>)
    decreases |run|
  {
    run == [] || (Enabled(s, run[0]) && Possible(Do(s, run[0]), run[1..]))
  }

  function After(s: State, run: seq<Action>): State
    requires Possible(s, run)
    decreases |run|
  {
    if run == [] then s else After(Do(s, run[0]), run[1..])
  }

  // ---------------------------------------------------------------- invariants

  // Submitters between their push and their notification.
  function Notifying(s: State): nat {
    s.unchecked + (if s.growing then 1 else 0) + s.unnotified
  }

  // A worker sleeps only while every waiting task has a notification or a woken worker coming.
  predicate WorkConserving(s: State) {
    s.sleeping > 0 ==> |s.tasks| <= Notifying(s) + s.woken
  }

  // The pool counts its workers, the idle counter those without a task; it runs ahead by those that
  // have just taken one and behind by a worker just added.
  predicate Counted(s: State) {
    && s.pool == s.outside + s.sleeping + s.woken + s.took + s.running
    && s.pool <= THREADPOOL_MAX_NUM
    && s.idle == s.outside + s.sleeping + s.woken + s.took - (if s.growing then 1 else 0)
  }

  // An empty pool gets a worker before the first submitter is past its check.
  predicate NeverUnmanned(s: State) {
    && (s.tasks != [] && s.pool == 0 ==> s.unchecked > 0)
    && (s.growing || s.unnotified > 0 ==> s.pool > 0)
  }

  // Tasks are taken in the order of their submission, each exactly once.
  predicate FirstComeFirstServed(s: State) { s.submitted == s.taken + s.tasks }

  predicate Inv(s: State) {
    WorkConserving(s) && Counted(s) && NeverUnmanned(s) && FirstComeFirstServed(s)
  }

  lemma StepKeepsOrder(s: State, a: Action)
    requires FirstComeFirstServed(s) && Enabled(s, a)
    ensures FirstComeFirstServed(Do(s, a))
  {
    if a.Push? {
      assert s.taken + (s.tasks + [a.t]) == s.taken + s.tasks + [a.t];
    } else if (a.Look? || a.LookAgain?) && s.tasks != [] {
      assert s.taken + s.tasks == s.taken + [s.tasks[0]] + s.tasks[1..];
    }
  }

  lemma StepKeepsInv(s: State, a: Action)
    requires Inv(s) && Enabled(s, a)
    ensures Inv(Do(s, a))
  {
    StepKeepsOrder(s, a);
    hide FirstComeFirstServed;
  }

  lemma {:induction false} RunKeepsInv(s: State, run: seq<Action>)
    requires Inv(s) && Possible(s, run)
    ensures Inv(After(s, run))
    decreases |run|
  {
    if run != [] {
      StepKeepsInv(s, run[0]);
      RunKeepsInv(Do(s, run[0]), run[1..]);
    }
  }

  // In every state of every run, whatever the number of submitters and the initial size.
  lemma PoolIsSound(size: nat, run: seq<Action>)
    requires Possible(Init(size), run)
    ensures var s := After(Init(size), run);
            && (s.sleeping > 0 ==> |s.tasks| <= Notifying(s) + s.woken)
            && s.pool == s.outside + s.sleeping + s.woken + s.took + s.running <= 16
            && s.submitted == s.taken + s.tasks
  {
    RunKeepsInv(Init(size), run);
  }

  // No worker can take a step of its own: every one sleeps.
  predicate AtRest(s: State) { s.outside + s.woken + s.took + s.running == 0 }

  lemma RestIsDone(s: State)
    requires Inv(s) && Notifying(s) == 0 && AtRest(s)
    ensures s.tasks == [] && s.taken == s.submitted && s.idle == s.pool
  {
    assert s.taken + [] == s.taken;
  }

  // No stalled pool: when no submitter is inside `submit` and every worker sleeps, no task waits,
  // every task submitted has been taken, and all workers count as idle.
  lemma RestMeansDone(size: nat, run: seq<Action>)
    requires Possible(Init(size), run)
    ensures var s := After(Init(size), run);
            Notifying(s) == 0 && AtRest(s) ==> s.tasks == [] && s.taken == s.submitted && s.idle == s.pool
  {
    RunKeepsInv(Init(size), run);
    var s := After(Init(size), run);
    hide Possible, After, Inv, Init;
    if Notifying(s) == 0 && AtRest(s) {
      RestIsDone(s);
    }
  }

  // A submitter that finds the pool without a spare worker adds one unless the pool is full; where
  // it adds none, a worker is free or only on its way to counting itself busy.
  lemma CheckAddsWhenNoneIsFree(size: nat, run: seq<Action>)
    requires Possible(Init(size), run) && Enabled(After(Init(size), run), Check)
    ensures var s := After(Init(size), run);
            var t := Do(s, Check);
            && (t.pool == s.pool + 1 <==> s.outside + s.sleeping + s.woken + s.took == 0 && s.running < 16)
            && (t.pool == s.pool <==> s.outside + s.sleeping + s.woken + s.took > 0 || s.running == 16)
  {
    RunKeepsInv(Init(size), run);
  }

  predicate WorkerStep(a: Action) { a.Look? || a.LookAgain? || a.CountBusy? || a.Finish? }

  // How many steps the workers can still take on their own.
  function WorkersEffort(s: State): nat {
    4 * |s.tasks| + 3 * s.took + 2 * s.running + s.outside + s.woken
  }

  // The workers on their own come to rest, unless woken up spuriously: no run of their steps is
  // longer than this.
  lemma {:induction false} WorkersComeToRest(s: State, run: seq<Action>)
    requires Possible(s, run) && forall i :: 0 <= i < |run| ==> WorkerStep(run[i])
    ensures |run| + WorkersEffort(After(s, run)) <= WorkersEffort(s)
    decreases |run|
  {
    if run != [] {
      assert WorkerStep(run[0]);
      WorkersComeToRest(Do(s, run[0]), run[1..]);
    }
  }

  // ---------------------------------------------------------------- progress

  // A step that nobody in the pool can be counted on to take, or to leave alone: a submission, or a
  // wake-up out of the blue.
  predicate Asked(a: Action) { a.Push? || a.WakeSpuriously? }

  function Pushes(run: seq<Action>): nat {
    if run == [] then 0 else (if run[0].Push? then 1 else 0) + Pushes(run[1..])
  }

  function Spurious(run: seq<Action>): nat {
    if run == [] then 0 else (if run[0].WakeSpuriously? then 1 else 0) + Spurious(run[1..])
  }

  // The same for workers and submitters together.
  function Effort(s: State): nat {
    WorkersEffort(s) + 5 * s.unchecked + (if s.growing then 3 else 0) + 2 * s.unnotified
  }

  lemma StepCosts(s: State, a: Action)
    requires Enabled(s, a)
    ensures Effort(Do(s, a)) + 1 <= Effort(s) + (if a.Push? then 10 else 0) + (if a.WakeSpuriously? then 2 else 0)
  {
  }

  // Every run is as long as what is asked of it, at most: ten steps for each task submitted, whether
  // or not it makes the pool grow, and two for each spurious wake-up.
  lemma {:induction false} RunsAreBounded(s: State, run: seq<Action>)
    requires Possible(s, run)
    ensures |run| + Effort(After(s, run)) <= Effort(s) + 10 * Pushes(run) + 2 * Spurious(run)
    decreases |run|
  {
    hide Effort;
    if run != [] {
      StepCosts(s, run[0]);
      RunsAreBounded(Do(s, run[0]), run[1..]);
    }
  }

  // Until nobody is inside `submit` and every worker sleeps, some step can be taken unasked.
  lemma NotAtRestHasStep(s: State) returns (a: Action)
    requires Notifying(s) > 0 || !AtRest(s)
    ensures !Asked(a) && Enabled(s, a)
  {
    if s.growing { return CountNew; }
    if s.unchecked > 0 { return Check; }
    if s.unnotified > 0 { return NotifyOne; }
    if s.outside > 0 { return Look; }
    if s.woken > 0 { return LookAgain; }
    return if s.took > 0 then CountBusy else Finish;
  }

  predicate NothingAsked(run: seq<Action>) { forall i :: 0 <= i < |run| ==> !Asked(run[i]) }

  lemma NothingSubmitted(s: State, a: Action)
    requires Enabled(s, a) && !Asked(a)
    ensures Do(s, a).submitted == s.submitted
  {
  }

  lemma {:induction false} ComesToRest(s: State) returns (run: seq<Action>)
    requires Inv(s)
    ensures NothingAsked(run) && |run| <= Effort(s) && Possible(s, run)
    ensures var t := After(s, run); Inv(t) && Notifying(t) == 0 && AtRest(t) && t.submitted == s.submitted
    decreases Effort(s)
  {
    hide Effort, Inv, Enabled, Do;
    if Notifying(s) == 0 && AtRest(s) {
      return [];
    }
    var a := NotAtRestHasStep(s);
    StepCosts(s, a);
    StepKeepsInv(s, a);
    NothingSubmitted(s, a);
    var more := ComesToRest(Do(s, a));
    run := [a] + more;
    assert run[1..] == more;
  }

  // From every reachable state the workers, and the submitters that are inside `submit`, by
  // themselves bring about one in which every task submitted has been taken.
  lemma EverythingGetsTaken(size: nat, run: seq<Action>) returns (more: seq<Action>)
    requires Possible(Init(size), run)
    ensures var s := After(Init(size), run);
            && NothingAsked(more) && |more| <= Effort(s) && Possible(s, more)
            && var t := After(s, more);
               t.tasks == [] && t.taken == s.submitted && t.idle == t.pool
  {
    RunKeepsInv(Init(size), run);
    var s := After(Init(size), run);
    hide Inv, Init, After, Possible;
    more := ComesToRest(s);
    RestIsDone(After(s, more));
  }

  // And however they are scheduled: once none of them can take a step, every task has been taken.
  lemma StandstillMeansDone(size: nat, run: seq<Action>)
    requires Possible(Init(size), run)
    requires forall a :: Enabled(After(Init(size), run), a) ==> Asked(a)
    ensures var s := After(Init(size), run);
            s.tasks == [] && s.taken == s.submitted && s.idle == s.pool
  {
    RunKeepsInv(Init(size), run);
    var s := After(Init(size), run);
    hide Inv, Init, After, Possible;
    if Notifying(s) > 0 || !AtRest(s) {
      var a := NotAtRestHasStep(s);
      assert false;
    }
    RestIsDone(s);
  }
}
