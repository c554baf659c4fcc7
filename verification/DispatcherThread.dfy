/** `katla::DispatcherThread` on its `WorkerThread`: callers of `dispatch`, `wakeup` and `stop`
    interleaved with the worker's loop, whose wait may end by the flags or by the timeout. */
module DispatcherThread {
  import opened Sequences
  import WorkerThread

  /** A dispatched function; an empty `std::function` is taken but not called. */
  datatype Task = Task(id: nat, callable: bool)

  class Dispatcher {
    var execQueue: seq<Task>
    const worker: WorkerThread.Worker

    constructor (worker: WorkerThread.Worker)
      ensures execQueue == [] && this.worker == worker
    {
      execQueue := [];
      this.worker := worker;
    }

    method Dispatch(task: Task)
      modifies this, worker`wakeUp
      ensures execQueue == old(execQueue) + [task] && worker.wakeUp
      ensures forall ts: Tasks | ts.queue == old(execQueue) :: Pushed(ts, task).queue == execQueue
    {
      execQueue := execQueue + [task];
      worker.Wakeup();
    }

    /** One pass takes at most one task. */
    method RepeatableWork() returns (run: Option<Task>)
      modifies this
      ensures execQueue == if old(execQueue) == [] then [] else old(execQueue)[1..]
      ensures run == if old(execQueue) != [] && old(execQueue)[0].callable then Some(old(execQueue)[0]) else None
      ensures forall ts: Tasks | ts.queue == old(execQueue) ::
                && Attempt(ts).queue == execQueue
                && Attempt(ts).executed == (if run.Some? then ts.executed + [run.value] else ts.executed)
    {
      if execQueue == [] {
        return None;
      }
      var task := execQueue[0];
      execQueue := execQueue[1..];
      run := if task.callable then Some(task) else None;
    }
  }

  // ----- the interleaved protocol

  datatype Pc = Waiting | Attempting | Running(task: Task) | Done

  /** `dispatched` lists the tasks in the order of their pushes under the lock, `taken` those popped,
      `executed` those called. */
  datatype Tasks = Tasks(queue: seq<Task>, dispatched: seq<Task>, taken: seq<Task>, executed: seq<Task>)

  /** Wakeups since the last clearing of the flag, clearings, pop attempts, and starts after a stop. */
  datatype Counts = Counts(wakeups: nat, clearings: nat, attempts: nat, startsAfterStop: nat)

  /** How many tasks the last pop attempt left in the queue, and how many were pushed behind others. */
  datatype Backlog = Backlog(left: nat, behind: nat)

  datatype State = State(tasks: Tasks, wakeUp: bool, stop: bool, pc: Pc, callers: map<nat, bool>,
                         counts: Counts, backlog: Backlog)

  datatype Step =
    | DispatchPush(caller: nat, task: Task)
    | DispatchWake(caller: nat)
    | Wakeup
    | Stop
    | WaitEnds(timeout: bool)
    | TryPop
    | Finish

  predicate Enabled(s: State, step: Step) {
    match step
    case DispatchPush(c, t) => c in s.callers && !s.callers[c]
    case DispatchWake(c) => c in s.callers && s.callers[c]
    case Wakeup => true
    case Stop => true
    case WaitEnds(timeout) => s.pc == Waiting && (timeout || s.wakeUp || s.stop)
    case TryPop => s.pc == Attempting
    case Finish => s.pc.Running?
  }

  function Pushed(ts: Tasks, t: Task): Tasks {
    ts.(queue := ts.queue + [t], dispatched := ts.dispatched + [t])
  }

  function Popped(ts: Tasks): Tasks
    requires ts.queue != []
  {
    var t := ts.queue[0];
    Tasks(ts.queue[1..], ts.dispatched, ts.taken + [t], if t.callable then ts.executed + [t] else ts.executed)
  }

  /** One pass of `repeatableWork`. */
  function Attempt(ts: Tasks): Tasks {
    if ts.queue == [] then ts else Popped(ts)
  }

  function Woken(s: State): State {
    s.(wakeUp := true, counts := s.counts.(wakeups := s.counts.wakeups + 1))
  }

  function Attempted(s: State): State {
    var c := s.counts.(attempts := s.counts.attempts + 1);
    var b := s.backlog.(left := |Attempt(s.tasks).queue|);
    if s.tasks.queue == [] then s.(pc := Waiting, counts := c, backlog := b)
    else
      var t := s.tasks.queue[0];
      s.(tasks := Attempt(s.tasks), backlog := b,
         pc := if t.callable then Running(t) else Waiting,
         counts := if t.callable && s.stop then c.(startsAfterStop := c.startsAfterStop + 1) else c)
  }

  function Apply(s: State, step: Step): State
    requires Enabled(s, step)
  {
    match step
    case DispatchPush(c, t) =>
      s.(tasks := Pushed(s.tasks, t), callers := s.callers[c := true],
         backlog := if s.tasks.queue == [] then s.backlog else s.backlog.(behind := s.backlog.behind + 1))
    case DispatchWake(c) => Woken(s).(callers := s.callers[c := false])
    case Wakeup => Woken(s)
    case Stop => s.(stop := true)
    case WaitEnds(_) =>
      if s.stop then s.(pc := Done)
      else s.(pc := Attempting, wakeUp := false,
              counts := s.counts.(wakeups := 0, clearings := s.counts.clearings + 1))
    case TryPop => Attempted(s)
    case Finish => s.(pc := Waiting)
  }

  function Initial(callers: set<nat>): State {
    State(Tasks([], [], [], []), false, false, Waiting, map c | c in callers :: false,
          Counts(0, 0, 0, 0), Backlog(0, 0))
  }

  /** The steps lead from `from` to `s`. */
  ghost predicate Run(from: State, steps: seq<Step>, s: State) {
    if steps == [] then s == from
    else
      var k := |steps| - 1;
      exists s0 :: Run(from, steps[..k], s0) && Enabled(s0, steps[k]) && s == Apply(s0, steps[k])
  }

  function Callable(ts: seq<Task>): seq<Task> {
    if ts == [] then []
    else
      var n := |ts| - 1;
      Callable(ts[..n]) + if ts[n].callable then [ts[n]] else []
  }

  ghost predicate TasksInv(ts: Tasks) {
    ts.taken + ts.queue == ts.dispatched && ts.executed == Callable(ts.taken)
  }

  ghost predicate Inv(s: State) { TasksInv(s.tasks) && CountsInv(s) }

  lemma PoppedKeepsInv(ts: Tasks)
    requires TasksInv(ts) && ts.queue != []
    ensures TasksInv(Popped(ts)) && ts.taken <= Popped(ts).taken
  {
    var t := ts.queue[0];
    assert (ts.taken + [t])[..|ts.taken|] == ts.taken;
    assert ts.queue == [t] + ts.queue[1..];
    Associate(ts.taken, [t], ts.queue[1..]);
  }

  lemma PushedKeepsInv(ts: Tasks, t: Task)
    requires TasksInv(ts)
    ensures TasksInv(Pushed(ts, t)) && ts.dispatched <= Pushed(ts, t).dispatched
  {
  }

  /** What one step does to the tasks, and to the number of pop attempts. */
  lemma StepOnTasks(s: State, step: Step)
    requires Enabled(s, step)
    ensures var s' := Apply(s, step);
            && s'.tasks == (match step
                            case DispatchPush(c, t) => Pushed(s.tasks, t)
                            case TryPop => Attempt(s.tasks)
                            case _ => s.tasks)
            && s'.counts.attempts == s.counts.attempts + if step.TryPop? then 1 else 0
  {
  }

  lemma StepKeepsInv(s: State, step: Step)
    requires Inv(s) && Enabled(s, step)
    ensures Inv(Apply(s, step))
    ensures s.tasks.dispatched <= Apply(s, step).tasks.dispatched && s.tasks.taken <= Apply(s, step).tasks.taken
  {
    StepKeepsTasks(s, step);
    StepKeepsCounts(s, step);
  }

  lemma StepKeepsTasks(s: State, step: Step)
    requires TasksInv(s.tasks) && Enabled(s, step)
    ensures TasksInv(Apply(s, step).tasks)
    ensures s.tasks.dispatched <= Apply(s, step).tasks.dispatched && s.tasks.taken <= Apply(s, step).tasks.taken
  {
    StepOnTasks(s, step);
    match step
    case DispatchPush(c, t) => PushedKeepsInv(s.tasks, t);
    case TryPop => if s.tasks.queue != [] { PoppedKeepsInv(s.tasks); }
    case _ =>
  }

  ghost predicate CountsInv(s: State) {
    && s.counts.startsAfterStop <= 1
    && (s.counts.startsAfterStop == 1 ==> s.stop && s.pc != Attempting)
    && s.counts.clearings == s.counts.attempts + (if s.pc == Attempting then 1 else 0)
    && (s.wakeUp <==> s.counts.wakeups > 0)
    && (s.pc == Done ==> s.stop)
  }

  lemma StepKeepsCounts(s: State, step: Step)
    requires CountsInv(s) && Enabled(s, step)
    ensures CountsInv(Apply(s, step))
  {
  }

  lemma {:induction false} RunKeepsInv(from: State, steps: seq<Step>, s: State)
    requires Run(from, steps, s) && Inv(from)
    ensures Inv(s)
    ensures from.tasks.dispatched <= s.tasks.dispatched && from.tasks.taken <= s.tasks.taken
    decreases |steps|
  {
    if steps != [] {
      var k := |steps| - 1;
      var s0 :| Run(from, steps[..k], s0) && Enabled(s0, steps[k]) && s == Apply(s0, steps[k]);
      RunKeepsInv(from, steps[..k], s0);
      StepKeepsInv(s0, steps[k]);
    }
  }

  /** In every interleaving nothing is lost, duplicated or reordered, and a stop lets at most one more
      task start. */
  lemma Conservation(callers: set<nat>, steps: seq<Step>, s: State)
    requires Run(Initial(callers), steps, s)
    ensures s.tasks.taken + s.tasks.queue == s.tasks.dispatched
    ensures s.tasks.executed == Callable(s.tasks.taken)
    ensures s.counts.startsAfterStop <= 1
  {
    RunKeepsInv(Initial(callers), steps, s);
  }

  /** `n` attempts since a state with `taken` popped and `queued` waiting tasks have popped enough. */
  predicate Progressed(taken: nat, queued: nat, n: int, now: nat) {
    now >= taken + queued || now - taken >= n
  }

  lemma {:induction false} AttemptsTake(from: State, steps: seq<Step>, s: State)
    requires Run(from, steps, s) && Inv(from)
    ensures from.counts.attempts <= s.counts.attempts
    ensures Progressed(|from.tasks.taken|, |from.tasks.queue|,
                       s.counts.attempts - from.counts.attempts, |s.tasks.taken|)
    decreases |steps|
  {
    if steps != [] {
      var k := |steps| - 1;
      var s0 :| Run(from, steps[..k], s0) && Enabled(s0, steps[k]) && s == Apply(s0, steps[k]);
      AttemptsTake(from, steps[..k], s0);
      RunKeepsInv(from, steps[..k], s0);
      assert |from.tasks.taken| + |from.tasks.queue| == |from.tasks.dispatched|;
      assert |s0.tasks.dispatched| == |s0.tasks.taken| + |s0.tasks.queue|;
      StepOnTasks(s0, steps[k]);
    }
  }

  /** A task at queue position k has been taken once k+1 more pop attempts were made. */
  lemma TakenByAttempt(from: State, steps: seq<Step>, s: State, k: nat)
    requires Run(from, steps, s) && Inv(from) && k < |from.tasks.queue|
    requires s.counts.attempts - from.counts.attempts >= k + 1
    ensures var at := |from.tasks.taken| + k;
            |s.tasks.taken| > at && s.tasks.taken[at] == from.tasks.queue[k]
  {
    AttemptsTake(from, steps, s);
    RunKeepsInv(from, steps, s);
    var at := |from.tasks.taken| + k;
    assert from.tasks.dispatched[at] == from.tasks.queue[k];
    assert s.tasks.dispatched[at] == from.tasks.dispatched[at];
    assert s.tasks.dispatched[at] == s.tasks.taken[at];
  }

  /** Every clearing of the flag is answered by a run of the work: all but the last already were, and
      after the last one the worker's only step is the pop attempt. */
  lemma ClearingsAreAnswered(callers: set<nat>, steps: seq<Step>, s: State)
    requires Run(Initial(callers), steps, s)
    ensures s.counts.clearings == s.counts.attempts + (if s.pc == Attempting then 1 else 0)
    ensures s.pc == Attempting ==> Enabled(s, TryPop) && !Enabled(s, Finish)
    ensures s.pc == Attempting ==> !Enabled(s, WaitEnds(true)) && !Enabled(s, WaitEnds(false))
  {
    RunKeepsInv(Initial(callers), steps, s);
  }

  lemma StepOnWakeup(s: State, step: Step)
    requires Enabled(s, step)
    ensures s.counts.clearings <= Apply(s, step).counts.clearings
    ensures s.wakeUp && Apply(s, step).counts.clearings == s.counts.clearings ==> Apply(s, step).wakeUp
    ensures step == Wakeup || step.DispatchWake? ==> Apply(s, step).wakeUp
  {
  }

  /** A wakeup is kept until the worker clears it, and until then a wait ends without a timeout. */
  lemma {:induction false} WakeupIsKept(from: State, steps: seq<Step>, s: State)
    requires Run(from, steps, s) && from.wakeUp
    ensures from.counts.clearings <= s.counts.clearings
    ensures s.counts.clearings == from.counts.clearings ==>
              s.wakeUp && (s.pc == Waiting ==> Enabled(s, WaitEnds(false)))
    decreases |steps|
  {
    if steps != [] {
      var k := |steps| - 1;
      var s0 :| Run(from, steps[..k], s0) && Enabled(s0, steps[k]) && s == Apply(s0, steps[k]);
      WakeupIsKept(from, steps[..k], s0);
      StepOnWakeup(s0, steps[k]);
    }
  }

  // ----- when the timeout is needed

  ghost predicate CallUnderWay(s: State) { exists c :: c in s.callers && s.callers[c] }

  /** Without a wakeup, a call under way or a pop attempt to come, nothing was pushed since the last one. */
  ghost predicate BacklogInv(s: State) {
    && ((s.pc == Waiting || s.pc.Running?) && !s.wakeUp && !CallUnderWay(s) ==> |s.tasks.queue| == s.backlog.left)
    && (s.backlog.behind == 0 ==> |s.tasks.queue| <= 1 && s.backlog.left == 0)
  }

  lemma StepKeepsBacklog(s: State, step: Step)
    requires BacklogInv(s) && Enabled(s, step)
    ensures BacklogInv(Apply(s, step))
  {
    var s' := Apply(s, step);
    if step.DispatchPush? {
      assert s'.callers[step.caller];
    } else if !step.DispatchWake? {
      assert s'.callers == s.callers;
      assert CallUnderWay(s') <==> CallUnderWay(s);
    }
  }

  lemma {:induction false} RunKeepsBacklog(callers: set<nat>, steps: seq<Step>, s: State)
    requires Run(Initial(callers), steps, s)
    ensures BacklogInv(s)
    decreases |steps|
  {
    if steps != [] {
      var k := |steps| - 1;
      var s0 :| Run(Initial(callers), steps[..k], s0) && Enabled(s0, steps[k]) && s == Apply(s0, steps[k]);
      RunKeepsBacklog(callers, steps[..k], s0);
      StepKeepsBacklog(s0, steps[k]);
    }
  }

  /** A task is queued, no call is under way, and only the timeout can end the wait. */
  ghost predicate OnlyTheTimeoutHelps(s: State) {
    s.pc == Waiting && s.tasks.queue != [] && !CallUnderWay(s) && !Enabled(s, WaitEnds(false))
  }

  /** The timeout is needed exactly when the last pop attempt left tasks and nobody has called since. Those
      are then all the tasks there are. */
  lemma TimeoutNeededIffTasksWereLeft(callers: set<nat>, steps: seq<Step>, s: State)
    requires Run(Initial(callers), steps, s)
    ensures OnlyTheTimeoutHelps(s) <==>
            s.backlog.left > 0 && s.pc == Waiting && !s.wakeUp && !s.stop && !CallUnderWay(s)
    ensures OnlyTheTimeoutHelps(s) ==> |s.tasks.queue| == s.backlog.left
  {
    RunKeepsBacklog(callers, steps, s);
  }

  /** Tasks that were never pushed behind others do not need the timeout: while one is queued, the wakeup
      is set, its dispatch is under way or the pop attempt comes next. */
  lemma LoneTasksNeedNoTimeout(callers: set<nat>, steps: seq<Step>, s: State)
    requires Run(Initial(callers), steps, s) && s.backlog.behind == 0
    requires s.tasks.queue != [] && s.pc != Done
    ensures s.wakeUp || CallUnderWay(s) || s.pc == Attempting
  {
    RunKeepsBacklog(callers, steps, s);
  }

  // ----- the end of a wait, and of the worker

  /** The end of a wait does to the machine what `AfterWait` does to the worker. */
  lemma WaitEndsAsInTheWorker(s: State, timeout: bool)
    requires Enabled(s, WaitEnds(timeout))
    ensures var s' := Apply(s, WaitEnds(timeout));
            && (s'.pc, s'.wakeUp) == (if WorkerThread.GoesOn(s.stop, s.wakeUp).0 then Attempting else Done,
                                      WorkerThread.GoesOn(s.stop, s.wakeUp).1)
            && s'.tasks == s.tasks && s'.stop == s.stop && s'.callers == s.callers
  {
  }

  /** The worker ends only after a stop. */
  lemma DoneMeansStopped(callers: set<nat>, steps: seq<Step>, s: State)
    requires Run(Initial(callers), steps, s) && s.pc == Done
    ensures s.stop
  {
    RunKeepsInv(Initial(callers), steps, s);
  }

  /** A stop is for good, and ends the worker at its next wait, whether or not it was woken. */
  lemma StopEndsTheWorker(s: State, step: Step)
    requires Enabled(s, step) && (s.stop || step == Stop)
    ensures Apply(s, step).stop
    ensures Apply(s, step).pc == Waiting ==> Enabled(Apply(s, step), WaitEnds(false))
    ensures step.WaitEnds? ==> Apply(s, step).pc == Done
  {
  }

  /** Where only the timeout can help, it does: the next pass takes the oldest task. */
  lemma TimeoutTakesTheTask(s: State)
    requires OnlyTheTimeoutHelps(s)
    ensures Enabled(s, WaitEnds(true)) && Enabled(Apply(s, WaitEnds(true)), TryPop)
    ensures var s' := Apply(Apply(s, WaitEnds(true)), TryPop);
            && s'.tasks.taken == s.tasks.taken + [s.tasks.queue[0]] && s'.tasks.queue == s.tasks.queue[1..]
            && s'.pc == if s.tasks.queue[0].callable then Running(s.tasks.queue[0]) else Waiting
  {
  }

  lemma RunSnoc(from: State, steps: seq<Step>, s: State, step: Step)
    requires Run(from, steps, s) && Enabled(s, step)
    ensures Run(from, steps + [step], Apply(s, step))
  {
    assert (steps + [step])[..|steps|] == steps;
  }

  lemma TwoDispatches(a: Task, b: Task) returns (steps: seq<Step>, s: State)
    ensures Run(Initial({0, 1}), steps, s)
    ensures s == State(Tasks([a, b], [a, b], [], []), true, false, Waiting, map[0 := false, 1 := false],
                       Counts(2, 0, 0, 0), Backlog(0, 1))
  {
    var init := Initial({0, 1});
    s, steps := init, [];
    RunSnoc(init, steps, s, DispatchPush(0, a));
    s, steps := Apply(s, DispatchPush(0, a)), steps + [DispatchPush(0, a)];
    RunSnoc(init, steps, s, DispatchPush(1, b));
    s, steps := Apply(s, DispatchPush(1, b)), steps + [DispatchPush(1, b)];
    RunSnoc(init, steps, s, DispatchWake(0));
    s, steps := Apply(s, DispatchWake(0)), steps + [DispatchWake(0)];
    RunSnoc(init, steps, s, DispatchWake(1));
    s, steps := Apply(s, DispatchWake(1)), steps + [DispatchWake(1)];
    assert s.callers == map[0 := false, 1 := false];
  }

  /** The flag coalesces: after two dispatches and one pass, a task can be queued while only the
      timeout can end the wait. */
  lemma CoalescedWakeupNeedsTheTimeout(a: Task, b: Task) returns (steps: seq<Step>, s: State)
    requires a.callable
    ensures Run(Initial({0, 1}), steps, s)
    ensures s.tasks.queue == [b] && s.pc == Waiting && !s.stop && s.callers == map[0 := false, 1 := false]
    ensures !Enabled(s, WaitEnds(false)) && Enabled(s, WaitEnds(true))
  {
    var init := Initial({0, 1});
    steps, s := TwoDispatches(a, b);
    RunSnoc(init, steps, s, WaitEnds(false));
    s, steps := Apply(s, WaitEnds(false)), steps + [WaitEnds(false)];
    RunSnoc(init, steps, s, TryPop);
    s, steps := Apply(s, TryPop), steps + [TryPop];
    RunSnoc(init, steps, s, Finish);
    s, steps := Apply(s, Finish), steps + [Finish];
  }
}
