// evpp::EventLoop as a state machine: any number of threads queue functors and wake the loop through
// a pipe, one atomic step at a time, while the loop receives, takes the queue over and runs it.
// The queue is the one guarded by a mutex; a thread is at one of four points inside QueueInLoop, and
// the state says how many threads are at each.
module EventLoop {

  type Functor = nat

  // A call of DoPendingFunctors after its swap: the functor it is running, if any, and the rest.
  datatype Batch = Batch(running: seq<Functor>, rest: seq<Functor>)

  // Where the loop's innermost call of DoPendingFunctors stands before its swap. In `Cleared` it
  // holds the mutex.
  datatype Entry = Outside | Entered | Cleared

  datatype State = State(
    pending: seq<Functor>,
    count: int,
    notified: bool,
    pipe: nat,
    // threads inside QueueInLoop
    pushed: nat,   // between the push and the increment
    counted: nat,  // between the increment and the test of the flag
    unset: nat,    // found the flag false
    half: nat,     // between setting the flag and notifying
    // the loop
    entry: Entry,
    batches: seq<Batch>,
    // history
    queued: seq<Functor>,
    done: seq<Functor>)

  const INIT: State := State([], 0, false, 0, 0, 0, 0, 0, Outside, [], [], [])

  datatype Action =
    | Push(f: Functor) | Increment | SeeSet | SeeUnset | SetFlag | Notify(sent: bool)
    | Receive(n: nat) | Clear | Swap | Start | Reenter | Finish | Return

  // The loop waits in its dispatcher.
  predicate Polling(s: State) { s.batches == [] && s.entry == Outside }

  function Top(s: State): Batch
    requires s.batches != []
  {
    s.batches[|s.batches| - 1]
  }

  // A functor of the innermost batch is running, and no nested call has begun.
  predicate Running(s: State) {
    s.entry == Outside && s.batches != [] && |Top(s).running| == 1
  }

  // Between functors of the innermost batch.
  predicate Between(s: State) {
    s.entry == Outside && s.batches != [] && Top(s).running == []
  }

  // `setFirst` is the order the code has: set the flag, then notify. A send fails only when the
  // pipe is full, that is, not empty. StopInLoop, a functor, calls DoPendingFunctors itself.
  predicate Enabled(s: State, a: Action, setFirst: bool) {
    match a
    case Push(_) => s.entry != Cleared
    case Increment => s.pushed > 0
    case SeeSet => s.counted > 0 && s.notified
    case SeeUnset => s.counted > 0 && !s.notified
    case SetFlag => (if setFirst then s.unset else s.half) > 0
    case Notify(sent) => (if setFirst then s.half else s.unset) > 0 && (sent || s.pipe > 0)
    case Receive(n) => Polling(s) && 1 <= n <= s.pipe && n <= 128
    case Clear => s.entry == Entered
    case Swap => s.entry == Cleared
    case Start => Between(s) && Top(s).rest != []
    case Reenter => Running(s)
    case Finish => Running(s)
    case Return => Between(s) && Top(s).rest == []
  }

  function WithTop(s: State, b: Batch): seq<Batch>
    requires s.batches != []
  {
    s.batches[..|s.batches| - 1] + [b]
  }

  function Do(s: State, a: Action, setFirst: bool): State
    requires Enabled(s, a, setFirst)
  {
    match a
    case Push(f) => s.(pending := s.pending + [f], queued := s.queued + [f], pushed := s.pushed + 1)
    case Increment => s.(pushed := s.pushed - 1, counted := s.counted + 1, count := s.count + 1)
    case SeeSet => s.(counted := s.counted - 1)
    case SeeUnset => s.(counted := s.counted - 1, unset := s.unset + 1)
    case SetFlag =>
      if setFirst then s.(notified := true, unset := s.unset - 1, half := s.half + 1)
      else s.(notified := true, half := s.half - 1)
    case Notify(sent) =>
      var t := s.(pipe := if sent then s.pipe + 1 else s.pipe);
      if setFirst then t.(half := s.half - 1) else t.(unset := s.unset - 1, half := s.half + 1)
    case Receive(n) => s.(pipe := s.pipe - n, entry := Entered)
    case Clear => s.(notified := false, entry := Cleared)
    case Swap => s.(batches := s.batches + [Batch([], s.pending)], pending := [], entry := Outside)
    case Start => s.(batches := WithTop(s, Batch([Top(s).rest[0]], Top(s).rest[1..])))
    case Reenter => s.(entry := Entered)
    case Finish => s.(batches := WithTop(s, Batch([], Top(s).rest)), done := s.done + Top(s).running, count := s.count - 1)
    case Return => s.(batches := s.batches[..|s.batches| - 1])
  }

  // ---------------------------------------------------------------- runs

  predicate Possible(s: State, run: seq<Action>, setFirst: bool)
    decreases |run|
  {
    run == [] || (Enabled(s, run[0], setFirst) && Possible(Do(s, run[0], setFirst), run[1..], setFirst))
  }

  function After(s: State, run: seq<Action>, setFirst: bool): State
    requires Possible(s, run, setFirst)
    decreases |run|
  {
    if run == [] then s else After(Do(s, run[0], setFirst), run[1..], setFirst)
  }

  // ---------------------------------------------------------------- accounting

  function Held(batches: seq<Batch>): seq<Functor> {
    if batches == [] then []
    else
      var n := |batches| - 1;
      Held(batches[..n]) + (batches[n].running + batches[n].rest)
  }

  lemma HeldTop(under: seq<Batch>, b: Batch)
    ensures Held(under + [b]) == Held(under) + (b.running + b.rest)
  {
    assert (under + [b])[..|under|] == under;
  }

  // Every functor queued is pending, held by one of the batches, or done; and the counter says how
  // many are not done, but for the threads that have yet to count theirs.
  ghost predicate Accounted(s: State) {
    && Balanced(s.queued, s.pending, Held(s.batches), s.done)
    && s.count + s.pushed == |s.pending| + |Held(s.batches)|
    && OneAtATime(s.batches)
  }

  predicate OneAtATime(batches: seq<Batch>) { forall i :: 0 <= i < |batches| ==> |batches[i].running| <= 1 }

  ghost predicate Balanced(queued: seq<Functor>, pending: seq<Functor>, held: seq<Functor>, done: seq<Functor>) {
    multiset(queued) == multiset(pending) + multiset(held) + multiset(done)
  }

  lemma HeldSplits(s: State)
    requires s.batches != []
    ensures var under := s.batches[..|s.batches| - 1];
            s.batches == under + [Top(s)] && Held(s.batches) == Held(under) + (Top(s).running + Top(s).rest)
  {
    HeldTop(s.batches[..|s.batches| - 1], Top(s));
  }

  // What Start, Finish and Return do to the functors held.
  lemma HeldAfterStart(s: State)
    requires Between(s) && Top(s).rest != []
    ensures Held(WithTop(s, Batch([Top(s).rest[0]], Top(s).rest[1..]))) == Held(s.batches)
  {
    HeldSplits(s);
    HeldTop(s.batches[..|s.batches| - 1], Batch([Top(s).rest[0]], Top(s).rest[1..]));
    assert Top(s).running + Top(s).rest == [Top(s).rest[0]] + Top(s).rest[1..];
  }

  lemma HeldAfterFinish(s: State)
    requires Running(s)
    ensures multiset(Held(s.batches)) == multiset(Held(WithTop(s, Batch([], Top(s).rest)))) + multiset(Top(s).running)
    ensures |Held(s.batches)| == |Held(WithTop(s, Batch([], Top(s).rest)))| + 1
  {
    HeldSplits(s);
    HeldTop(s.batches[..|s.batches| - 1], Batch([], Top(s).rest));
  }

  lemma HeldAfterReturn(s: State)
    requires Between(s) && Top(s).rest == []
    ensures Held(s.batches[..|s.batches| - 1]) == Held(s.batches)
  {
    HeldSplits(s);
  }

  lemma PushBalances(queued: seq<Functor>, pending: seq<Functor>, held: seq<Functor>, done: seq<Functor>, f: Functor)
    requires Balanced(queued, pending, held, done)
    ensures Balanced(queued + [f], pending + [f], held, done)
  {
  }

  lemma SwapBalances(queued: seq<Functor>, pending: seq<Functor>, held: seq<Functor>, done: seq<Functor>)
    requires Balanced(queued, pending, held, done)
    ensures Balanced(queued, [], held + pending, done)
  {
  }

  lemma FinishBalances(queued: seq<Functor>, pending: seq<Functor>, held: seq<Functor>, done: seq<Functor>,
      held': seq<Functor>, ran: seq<Functor>)
    requires Balanced(queued, pending, held, done)
    requires multiset(held) == multiset(held') + multiset(ran)
    ensures Balanced(queued, pending, held', done + ran)
  {
  }

  // Each way in which a step moves functors about.
  lemma MoveKeepsAccounts(s: State, a: Action, setFirst: bool)
    requires Accounted(s) && Enabled(s, a, setFirst) && (a.Push? || a.Swap? || a.Finish?)
    ensures Accounted(Do(s, a, setFirst))
  {
    hide Balanced, Held;
    if a.Push? {
      PushBalances(s.queued, s.pending, Held(s.batches), s.done, a.f);
    } else if a.Swap? {
      HeldTop(s.batches, Batch([], s.pending));
      assert [] + s.pending == s.pending;
      SwapBalances(s.queued, s.pending, Held(s.batches), s.done);
    } else {
      HeldAfterFinish(s);
      FinishBalances(s.queued, s.pending, Held(s.batches), s.done, Held(WithTop(s, Batch([], Top(s).rest))), Top(s).running);
    }
  }

  lemma LoopKeepsAccounts(s: State, a: Action, setFirst: bool)
    requires Accounted(s) && Enabled(s, a, setFirst) && (a.Start? || a.Return?)
    ensures Accounted(Do(s, a, setFirst))
  {
    hide Balanced, Held;
    if a.Start? {
      HeldAfterStart(s);
    } else {
      HeldAfterReturn(s);
    }
  }

  lemma StepKeepsAccounts(s: State, a: Action, setFirst: bool)
    requires Accounted(s) && Enabled(s, a, setFirst)
    ensures Accounted(Do(s, a, setFirst))
  {
    hide Balanced, Held;
    if a.Push? || a.Swap? || a.Finish? {
      MoveKeepsAccounts(s, a, setFirst);
    } else if a.Start? || a.Return? {
      LoopKeepsAccounts(s, a, setFirst);
    }
  }

  // ---------------------------------------------------------------- no lost wake-up

  // Somebody will see to it that the loop swaps the queue: a byte in the pipe, a thread that has
  // not finished QueueInLoop, or the loop itself, between receiving and swapping.
  predicate WakeUpComing(s: State) {
    s.pipe > 0 || s.pushed + s.counted + s.unset + s.half > 0 || s.entry != Outside
  }

  ghost predicate NeverLost(s: State) {
    && (s.pending != [] ==> WakeUpComing(s))
    && (s.notified ==> s.pipe > 0 || s.half > 0 || s.entry == Entered)
  }

  lemma StepKeepsWakeUps(s: State, a: Action)
    requires NeverLost(s) && Enabled(s, a, true)
    ensures NeverLost(Do(s, a, true))
  {
    match a
    case SeeSet => assert s.notified;
    case _ =>
  }

  lemma {:induction false} RunKeeps(s: State, run: seq<Action>)
    requires Possible(s, run, true) && Accounted(s) && NeverLost(s)
    ensures Accounted(After(s, run, true)) && NeverLost(After(s, run, true))
    decreases |run|
  {
    if run != [] {
      StepKeepsAccounts(s, run[0], true);
      StepKeepsWakeUps(s, run[0]);
      RunKeeps(Do(s, run[0], true), run[1..]);
    }
  }

  // In every state of every run: no functor waits with nobody coming, none is lost or run twice,
  // and the counter is right.
  lemma NoLostWakeUp(run: seq<Action>)
    requires Possible(INIT, run, true)
    ensures var s := After(INIT, run, true);
            && (s.pending != [] ==> WakeUpComing(s))
            && multiset(s.queued) == multiset(s.pending) + multiset(Held(s.batches)) + multiset(s.done)
            && s.count + s.pushed == |s.pending| + |Held(s.batches)|
  {
    RunKeeps(INIT, run);
  }

  // Once the loop sleeps on an empty pipe and no thread is inside QueueInLoop, everything has run,
  // exactly once, and the counter is zero.
  lemma QuietMeansDone(run: seq<Action>)
    requires Possible(INIT, run, true) && !WakeUpComing(After(INIT, run, true))
    requires Polling(After(INIT, run, true))
    ensures var s := After(INIT, run, true);
            s.pending == [] && multiset(s.done) == multiset(s.queued) && s.count == 0
  {
    RunKeeps(INIT, run);
  }

  // ---------------------------------------------------------------- progress

  // A step that is asked for from outside: a functor queued, or a nested call made by one.
  predicate Asked(a: Action) { a.Push? || a.Reenter? }

  function Pushes(run: seq<Action>): nat {
    if run == [] then 0 else (if run[0].Push? then 1 else 0) + Pushes(run[1..])
  }

  function Reentries(run: seq<Action>): nat {
    if run == [] then 0 else (if run[0].Reenter? then 1 else 0) + Reentries(run[1..])
  }

  function BatchWork(batches: seq<Batch>): nat {
    if batches == [] then 0
    else
      var b := batches[|batches| - 1];
      BatchWork(batches[..|batches| - 1]) + 2 * |b.rest| + |b.running| + 1
  }

  lemma WorkTop(under: seq<Batch>, b: Batch)
    ensures BatchWork(under + [b]) == BatchWork(under) + 2 * |b.rest| + |b.running| + 1
  {
    assert (under + [b])[..|under|] == under;
  }

  // More than the number of steps that the functors, the bytes in the pipe and the threads inside
  // QueueInLoop still have before them.
  function Effort(s: State): nat {
    8 * s.pushed + 7 * s.counted + 6 * s.unset + 5 * s.half + 4 * s.pipe
    + (match s.entry case Entered => 3 case Cleared => 2 case Outside => 0)
    + BatchWork(s.batches) + 2 * |s.pending|
  }

  lemma StepCosts(s: State, a: Action)
    requires Enabled(s, a, true)
    ensures Effort(Do(s, a, true)) + 1 <= Effort(s) + (if a.Push? then 11 else 0) + (if a.Reenter? then 4 else 0)
  {
    hide BatchWork;
    if a.Swap? {
      WorkTop(s.batches, Batch([], s.pending));
    } else if a.Start? || a.Finish? || a.Return? {
      var under := s.batches[..|s.batches| - 1];
      assert s.batches == under + [Top(s)];
      WorkTop(under, Top(s));
      WorkTop(under, Batch([], Top(s).rest));
      if a.Start? {
        WorkTop(under, Batch([Top(s).rest[0]], Top(s).rest[1..]));
      }
    }
  }

  // Every run is as long as what is asked of it, at most: each functor queued costs eleven steps,
  // each nested call four, and the loop and the threads make no others once these are spent.
  lemma {:induction false} RunsAreBounded(s: State, run: seq<Action>)
    requires Possible(s, run, true)
    ensures |run| + Effort(After(s, run, true)) <= Effort(s) + 11 * Pushes(run) + 4 * Reentries(run)
    decreases |run|
  {
    hide Effort;
    if run != [] {
      StepCosts(s, run[0]);
      RunsAreBounded(Do(s, run[0], true), run[1..]);
    }
  }

  // Until the loop is quiet some step can be taken that nobody has to ask for.
  lemma NotQuietHasStep(s: State) returns (a: Action)
    requires Accounted(s) && !(Polling(s) && !WakeUpComing(s))
    ensures !Asked(a) && Enabled(s, a, true)
  {
    hide Balanced, Held;
    if s.pushed > 0 { return Increment; }
    if s.counted > 0 { return if s.notified then SeeSet else SeeUnset; }
    if s.unset > 0 { return SetFlag; }
    if s.half > 0 { return Notify(true); }
    if s.entry == Entered { return Clear; }
    if s.entry == Cleared { return Swap; }
    if s.batches == [] { return Receive(1); }
    if Running(s) { return Finish; }
    return if Top(s).rest != [] then Start else Return;
  }

  predicate NothingAsked(run: seq<Action>) { forall i :: 0 <= i < |run| ==> !Asked(run[i]) }

  // A run of which nothing is asked can always be continued to a quiet state, in which nothing was
  // queued since.
  lemma {:induction false} ComesToQuiet(s: State) returns (run: seq<Action>)
    requires Accounted(s) && NeverLost(s)
    ensures NothingAsked(run) && |run| <= Effort(s) && Possible(s, run, true)
    ensures var t := After(s, run, true);
            Polling(t) && !WakeUpComing(t) && t.queued == s.queued && Accounted(t) && NeverLost(t)
    decreases Effort(s)
  {
    hide Effort, Accounted, NeverLost, Enabled, Do;
    if Polling(s) && !WakeUpComing(s) {
      return [];
    }
    var a := NotQuietHasStep(s);
    StepCosts(s, a);
    StepKeepsAccounts(s, a, true);
    StepKeepsWakeUps(s, a);
    NothingQueued(s, a);
    var more := ComesToQuiet(Do(s, a, true));
    run := [a] + more;
    assert run[1..] == more;
  }

  lemma NothingQueued(s: State, a: Action)
    requires Enabled(s, a, true) && !Asked(a)
    ensures Do(s, a, true).queued == s.queued
  {
  }

  // From every reachable state the loop and the threads by themselves bring about one in which all
  // that has been queued has been done.
  lemma EverythingGetsDone(run: seq<Action>) returns (more: seq<Action>)
    requires Possible(INIT, run, true)
    ensures var s := After(INIT, run, true);
            && NothingAsked(more) && |more| <= Effort(s) && Possible(s, more, true)
            && var t := After(s, more, true);
               t.pending == [] && multiset(t.done) == multiset(s.queued) && t.count == 0
  {
    RunKeeps(INIT, run);
    var s := After(INIT, run, true);
    more := ComesToQuiet(s);
    QuietIsDone(After(s, more, true));
  }

  lemma QuietIsDone(s: State)
    requires Accounted(s) && NeverLost(s) && Polling(s) && !WakeUpComing(s)
    ensures s.pending == [] && multiset(s.done) == multiset(s.queued) && s.count == 0
  {
  }

  // And however they are scheduled: once none of them can take a step, everything has been done.
  lemma StandstillMeansDone(run: seq<Action>)
    requires Possible(INIT, run, true)
    requires forall a :: Enabled(After(INIT, run, true), a, true) ==> Asked(a)
    ensures var s := After(INIT, run, true);
            s.pending == [] && multiset(s.done) == multiset(s.queued) && s.count == 0
  {
    RunKeeps(INIT, run);
    var s := After(INIT, run, true);
    if !(Polling(s) && !WakeUpComing(s)) {
      var a := NotQuietHasStep(s);
      assert false;
    }
    QuietIsDone(s);
  }

  // ---------------------------------------------------------------- order

  predicate NeverReenters(run: seq<Action>) { forall i :: 0 <= i < |run| ==> run[i] != Reenter }

  // Outside the nested calls that StopInLoop makes there is at most one batch, and the functors are
  // done, held and pending in the order of their queueing.
  ghost predicate InOrder(s: State) {
    && (s.batches == [] || (|s.batches| == 1 && s.entry == Outside && |s.batches[0].running| <= 1))
    && Ordered(s.queued, s.done, Held(s.batches), s.pending)
  }

  predicate Ordered(queued: seq<Functor>, done: seq<Functor>, held: seq<Functor>, pending: seq<Functor>) {
    queued == done + held + pending
  }

  // What Push, Swap and Finish do to the order.
  lemma PushKeepsOrder(queued: seq<Functor>, done: seq<Functor>, held: seq<Functor>, pending: seq<Functor>, f: Functor)
    requires Ordered(queued, done, held, pending)
    ensures Ordered(queued + [f], done, held, pending + [f])
  {
    assert done + held + (pending + [f]) == done + held + pending + [f];
  }

  lemma SwapKeepsOrder(queued: seq<Functor>, done: seq<Functor>, held: seq<Functor>, pending: seq<Functor>)
    requires Ordered(queued, done, held, pending)
    ensures Ordered(queued, done, held + pending, [])
  {
    assert done + (held + pending) + [] == done + held + pending;
  }

  lemma FinishKeepsOrder(queued: seq<Functor>, done: seq<Functor>, ran: seq<Functor>, held: seq<Functor>,
      pending: seq<Functor>)
    requires Ordered(queued, done, ran + held, pending)
    ensures Ordered(queued, done + ran, held, pending)
  {
    assert done + ran + held == done + (ran + held);
  }

  lemma StepKeepsOrder(s: State, a: Action, setFirst: bool)
    requires InOrder(s) && Enabled(s, a, setFirst) && a != Reenter
    ensures InOrder(Do(s, a, setFirst))
  {
    hide Held, Ordered;
    var held := Held(s.batches);
    if a.Push? {
      PushKeepsOrder(s.queued, s.done, held, s.pending, a.f);
    } else if a.Swap? {
      SwapKeepsOrder(s.queued, s.done, held, s.pending);
      HeldTop(s.batches, Batch([], s.pending));
      assert [] + s.pending == s.pending;
    } else if a.Start? {
      HeldAfterStart(s);
    } else if a.Finish? {
      OnlyBatch(s);
      FinishKeepsOrder(s.queued, s.done, Top(s).running, Held(WithTop(s, Batch([], Top(s).rest))), s.pending);
    } else if a.Return? {
      HeldAfterReturn(s);
    }
  }

  lemma OnlyBatch(s: State)
    requires Running(s) && |s.batches| == 1
    ensures Top(s).running + Held(WithTop(s, Batch([], Top(s).rest))) == Held(s.batches)
  {
    HeldSplits(s);
    HeldTop([], Batch([], Top(s).rest));
    assert WithTop(s, Batch([], Top(s).rest)) == [] + [Batch([], Top(s).rest)];
    assert s.batches == [] + [Top(s)];
  }

  lemma {:induction false} RunKeepsOrder(s: State, run: seq<Action>, setFirst: bool)
    requires InOrder(s) && Possible(s, run, setFirst) && NeverReenters(run)
    ensures InOrder(After(s, run, setFirst))
    decreases |run|
  {
    if run != [] {
      assert run[0] != Reenter;
      assert NeverReenters(run[1..]);
      StepKeepsOrder(s, run[0], setFirst);
      RunKeepsOrder(Do(s, run[0], setFirst), run[1..], setFirst);
    }
  }

  // Without StopInLoop, functors run in the order in which they were queued.
  lemma FirstQueuedFirstRun(run: seq<Action>, setFirst: bool)
    requires Possible(INIT, run, setFirst) && NeverReenters(run)
    ensures After(INIT, run, setFirst).done <= After(INIT, run, setFirst).queued
  {
    RunKeepsOrder(INIT, run, setFirst);
  }

  // ---------------------------------------------------------------- witnesses

  predicate Leads(run: seq<Action>, s: State, setFirst: bool) {
    Possible(INIT, run, setFirst) && After(INIT, run, setFirst) == s
  }

  lemma {:induction false} OneMore(s: State, run: seq<Action>, a: Action, setFirst: bool)
    requires Possible(s, run, setFirst) && Enabled(After(s, run, setFirst), a, setFirst)
    ensures Possible(s, run + [a], setFirst)
    ensures After(s, run + [a], setFirst) == Do(After(s, run, setFirst), a, setFirst)
    decreases |run|
  {
    if run == [] {
      assert run + [a] == [a];
    } else {
      assert (run + [a])[1..] == run[1..] + [a];
      OneMore(Do(s, run[0], setFirst), run[1..], a, setFirst);
    }
  }

  lemma Then(run: seq<Action>, s: State, a: Action, setFirst: bool) returns (run': seq<Action>, s': State)
    requires Leads(run, s, setFirst) && Enabled(s, a, setFirst)
    ensures Leads(run', s', setFirst) && s' == Do(s, a, setFirst) && run' == run + [a]
  {
    OneMore(INIT, run, a, setFirst);
    run', s' := run + [a], Do(s, a, setFirst);
  }

  // Functors 1 and 2 are queued, the loop is woken up and takes them over, 1 is started, 3 is queued.
  lemma TwoQueued() returns (run: seq<Action>, s: State)
    ensures Leads(run, s, true) && s == State([1, 2], 2, false, 0, 0, 2, 0, 0, Outside, [], [1, 2], [])
  {
    s, run := INIT, [];
    assert Leads(run, s, true);
    hide Leads;
    run, s := Then(run, s, Push(1), true);
    run, s := Then(run, s, Push(2), true);
    run, s := Then(run, s, Increment, true);
    run, s := Then(run, s, Increment, true);
  }

  lemma TwoAnnounced() returns (run: seq<Action>, s: State)
    ensures Leads(run, s, true) && s == State([1, 2], 2, true, 1, 0, 1, 0, 0, Outside, [], [1, 2], [])
  {
    run, s := TwoQueued();
    hide Leads;
    run, s := Then(run, s, SeeUnset, true);
    run, s := Then(run, s, SetFlag, true);
    run, s := Then(run, s, Notify(true), true);
  }

  lemma TwoTakenOver() returns (run: seq<Action>, s: State)
    ensures Leads(run, s, true) && s == State([], 2, false, 0, 0, 1, 0, 0, Outside, [Batch([], [1, 2])], [1, 2], [])
  {
    run, s := TwoAnnounced();
    hide Leads;
    run, s := Then(run, s, Receive(1), true);
    run, s := Then(run, s, Clear, true);
    run, s := Then(run, s, Swap, true);
  }

  lemma ThirdQueued() returns (run: seq<Action>, s: State)
    ensures Leads(run, s, true) && s == State([3], 2, false, 0, 1, 1, 0, 0, Outside, [Batch([1], [2])], [1, 2, 3], [])
  {
    run, s := TwoTakenOver();
    hide Leads;
    run, s := Then(run, s, Start, true);
    run, s := Then(run, s, Push(3), true);
  }

  // With StopInLoop they do not: 1 calls DoPendingFunctors, and 3 is done before 2 has started.
  lemma StopInLoopOvertakes() returns (run: seq<Action>)
    ensures Possible(INIT, run, true)
    ensures After(INIT, run, true).queued == [1, 2, 3] && After(INIT, run, true).done == [3]
  {
    var s: State;
    run, s := ThirdQueued();
    hide Leads, Possible, After;
    run, s := Then(run, s, Reenter, true);
    run, s := Then(run, s, Clear, true);
    run, s := Then(run, s, Swap, true);
    run, s := Then(run, s, Start, true);
    run, s := Then(run, s, Finish, true);
    Conclude(run, s, true);
  }

  lemma Conclude(run: seq<Action>, s: State, setFirst: bool)
    requires Leads(run, s, setFirst)
    ensures Possible(INIT, run, setFirst) && After(INIT, run, setFirst) == s
  {
  }

  // ---------------------------------------------------------------- notifying before setting the flag

  // The flag says a wake-up is on its way, but none is: the pipe is empty, the loop sleeps on it,
  // and no thread is about to notify.
  predicate Deaf(s: State) { s.notified && s.pipe == 0 && Polling(s) && s.unset == 0 }

  // A thread queues functor 1 and notifies; the loop wakes up and runs it; the thread sets the flag.
  lemma NotifiedFirst() returns (run: seq<Action>, s: State)
    ensures Leads(run, s, false) && s == State([1], 1, false, 1, 0, 0, 0, 1, Outside, [], [1], [])
  {
    s, run := INIT, [];
    assert Leads(run, s, false);
    hide Leads;
    run, s := Then(run, s, Push(1), false);
    run, s := Then(run, s, Increment, false);
    run, s := Then(run, s, SeeUnset, false);
    run, s := Then(run, s, Notify(true), false);
  }

  lemma OneTakenOver() returns (run: seq<Action>, s: State)
    ensures Leads(run, s, false) && s == State([], 1, false, 0, 0, 0, 0, 1, Outside, [Batch([], [1])], [1], [])
  {
    run, s := NotifiedFirst();
    hide Leads;
    run, s := Then(run, s, Receive(1), false);
    run, s := Then(run, s, Clear, false);
    run, s := Then(run, s, Swap, false);
  }

  lemma OneDone() returns (run: seq<Action>, s: State)
    ensures Leads(run, s, false) && s == State([], 0, false, 0, 0, 0, 0, 1, Outside, [], [1], [1])
  {
    run, s := OneTakenOver();
    hide Leads;
    run, s := Then(run, s, Start, false);
    run, s := Then(run, s, Finish, false);
    run, s := Then(run, s, Return, false);
  }

  // With the two calls in the other order this can come about with a functor waiting.
  lemma NotifyingFirstCanGoDeaf() returns (run: seq<Action>)
    ensures Possible(INIT, run, false)
    ensures var s := After(INIT, run, false);
            Deaf(s) && s.pending == [2] && s.pushed + s.counted + s.unset + s.half == 0
  {
    var s: State;
    run, s := OneDone();
    hide Leads, Possible, After;
    run, s := Then(run, s, SetFlag, false);
    run, s := Then(run, s, Push(2), false);
    run, s := Then(run, s, Increment, false);
    run, s := Then(run, s, SeeSet, false);
    Conclude(run, s, false);
  }

  // And then nothing that any number of threads do wakes the loop again: nothing more is ever run.
  lemma {:induction false} DeafForGood(s: State, run: seq<Action>)
    requires Deaf(s) && Possible(s, run, false)
    ensures var t := After(s, run, false);
            Deaf(t) && t.done == s.done && s.pending <= t.pending
    decreases |run|
  {
    if run != [] {
      DeafForGood(Do(s, run[0], false), run[1..]);
    }
  }

  // In the order the code has, a raised flag always has its notification or its reception ahead.
  lemma SettingFirstIsNeverDeaf(run: seq<Action>)
    requires Possible(INIT, run, true)
    ensures var s := After(INIT, run, true); s.notified ==> s.pipe > 0 || s.half > 0 || s.entry == Entered
  {
    RunKeeps(INIT, run);
  }
}
