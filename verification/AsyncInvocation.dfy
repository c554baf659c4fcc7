/** `UvCoreApplication::invokeAsync` and the callback of its `uv_async_t`.

    Rules taken for libuv: `uv_async_send` sets a pending mark, or fails and leaves it; the loop clears
    the mark before it runs the callback; the callback runs on the loop thread only. */
module AsyncInvocation {
  import opened Sequences

  /** `m_lastFutureCounter` and `m_id` are unsigned 64-bit. */
  const WRAP: nat := 0x1_0000_0000_0000_0000

  function NextId(counter: nat): nat { (counter + 1) % WRAP }

  /** The id of the k-th future, counting from 0. */
  function IdOf(k: nat): nat { (k + 1) % WRAP }

  function Ids(n: nat): seq<nat> { seq(n, k requires 0 <= k < n => IdOf(k)) }

  lemma IdsSnoc(n: nat)
    ensures Ids(n + 1) == Ids(n) + [IdOf(n)]
  {
  }

  lemma OneMoreId(executed: seq<nat>, tasks: seq<nat>, n: nat)
    requires executed + tasks == Ids(n)
    ensures executed + (tasks + [IdOf(n)]) == Ids(n + 1)
  {
    IdsSnoc(n);
    assert executed + (tasks + [IdOf(n)]) == (executed + tasks) + [IdOf(n)];
  }

  lemma PrefixOfIds(executed: seq<nat>, rest: seq<nat>, n: nat)
    requires executed + rest == Ids(n)
    ensures n < WRAP ==> forall k :: 0 <= k < |executed| ==> executed[k] == k + 1
  {
    assert |executed| <= n;
    forall k | 0 <= k < |executed|
      ensures executed[k] == IdOf(k)
    {
      assert executed[k] == (executed + rest)[k];
    }
  }

  lemma NextIdIsIdOf(counter: nat, calls: nat)
    requires counter == calls % WRAP
    ensures NextId(counter) == IdOf(calls) == (calls + 1) % WRAP
  {
  }

  lemma HeadMoves(executed: seq<nat>, tasks: seq<nat>)
    requires tasks != []
    ensures executed + [] + tasks == executed + [tasks[0]] + tasks[1..]
  {
  }

  class Application {
    var lastFutureCounter: nat
    var tasks: seq<nat>
    var asyncPending: bool
    /** The ids whose callbacks ran, in order. */
    var executed: seq<nat>

    constructor ()
      ensures lastFutureCounter == 0 && tasks == [] && executed == [] && !asyncPending
    {
      lastFutureCounter, tasks, executed, asyncPending := 0, [], [], false;
    }

    /** `sent` is whether `uv_async_send` succeeds. A failed send is reported, but the task stays queued. */
    method InvokeAsync(sent: bool) returns (id: Option<nat>)
      modifies this`lastFutureCounter, this`tasks, this`asyncPending
      ensures lastFutureCounter == NextId(old(lastFutureCounter))
      ensures tasks == old(tasks) + [lastFutureCounter]
      ensures asyncPending == (old(asyncPending) || sent)
      ensures id == if sent then Some(lastFutureCounter) else None
    {
      lastFutureCounter := NextId(lastFutureCounter);
      tasks := tasks + [lastFutureCounter];
      if !sent {
        return None;
      }
      asyncPending := true;
      id := Some(lastFutureCounter);
    }

    /** The drain loop. `calls[i]` is how many futures are queued during the i-th callback, by the
        callback itself or by other threads; none are queued after those. */
    method UvAsyncCallback(calls: seq<nat>)
      requires exists n: nat :: lastFutureCounter == n % WRAP && executed + tasks == Ids(n)
      modifies this
      ensures tasks == []
      ensures exists n: nat :: n >= |old(executed)| + |old(tasks)|
                               && lastFutureCounter == n % WRAP && executed == Ids(n)
      ensures calls == [] ==> executed == old(executed) + old(tasks) && lastFutureCounter == old(lastFutureCounter)
    {
      ghost var n: nat :| lastFutureCounter == n % WRAP && executed + tasks == Ids(n);
      assert n == |executed| + |tasks|;
      var turn := 0;
      var empty := false;
      while !empty
        invariant lastFutureCounter == n % WRAP && executed + tasks == Ids(n)
        invariant n >= |old(executed)| + |old(tasks)|
        invariant calls == [] ==> n == |old(executed)| + |old(tasks)| && lastFutureCounter == old(lastFutureCounter)
        invariant turn <= |calls|
        invariant empty ==> tasks == []
        decreases !empty, |calls| - turn, |tasks|
      {
        empty := tasks == [];
        if empty {
          continue;
        }
        var future := tasks[0];
        assert executed + tasks == (executed + [future]) + tasks[1..];
        tasks := tasks[1..];
        executed := executed + [future];
        if turn < |calls| {
          n := QueueMore(calls[turn], n);
          turn := turn + 1;
        }
      }
    }

    /** Futures queued during one callback. */
    method QueueMore(count: nat, ghost n: nat) returns (ghost n': nat)
      requires lastFutureCounter == n % WRAP && executed + tasks == Ids(n)
      modifies this`lastFutureCounter, this`tasks, this`asyncPending
      ensures n' == n + count
      ensures lastFutureCounter == n' % WRAP && executed + tasks == Ids(n')
    {
      n' := n;
      for i := 0 to count
        invariant n' == n + i
        invariant lastFutureCounter == n' % WRAP && executed + tasks == Ids(n')
      {
        OneMoreId(executed, tasks, n');
        NextIdIsIdOf(lastFutureCounter, n');
        var _ := InvokeAsync(true);
        n' := n' + 1;
      }
    }
  }

  // ----- callers on any thread against the loop thread

  datatype Loop = Waiting | Draining | InCallback(id: nat)

  /** The pushes made, and the results of the sends made, since the drain last saw an empty list. */
  datatype Since = Since(pushes: nat, sends: seq<bool>)

  /** `calls` counts invokeAsync calls so far; a caller is marked between its push and its send. */
  datatype State = State(counter: nat, tasks: seq<nat>, pending: bool, loop: Loop, callers: map<nat, bool>,
                         executed: seq<nat>, calls: nat, since: Since)

  datatype Step =
    | Push(caller: nat)
    | Send(caller: nat, ok: bool)
    | CallbackStarts
    | PopOrStop
    | CallbackEnds

  predicate Enabled(s: State, step: Step) {
    match step
    case Push(c) => c in s.callers && !s.callers[c]
    case Send(c, ok) => c in s.callers && s.callers[c]
    case CallbackStarts => s.loop == Waiting && s.pending
    case PopOrStop => s.loop == Draining
    case CallbackEnds => s.loop.InCallback?
  }

  function Apply(s: State, step: Step): State
    requires Enabled(s, step)
  {
    match step
    case Push(c) =>
      var id := NextId(s.counter);
      s.(counter := id, tasks := s.tasks + [id], calls := s.calls + 1, callers := s.callers[c := true],
         since := s.since.(pushes := s.since.pushes + 1))
    case Send(c, ok) =>
      s.(pending := s.pending || ok, callers := s.callers[c := false],
         since := s.since.(sends := s.since.sends + [ok]))
    case CallbackStarts => s.(pending := false, loop := Draining)
    case PopOrStop =>
      if s.tasks == [] then s.(loop := Waiting, since := Since(0, []))
      else s.(tasks := s.tasks[1..], loop := InCallback(s.tasks[0]))
    case CallbackEnds => s.(executed := s.executed + [s.loop.id], loop := Draining)
  }

  function Initial(callers: set<nat>): State {
    State(0, [], false, Waiting, map c | c in callers :: false, [], 0, Since(0, []))
  }

  ghost predicate Reaches(callers: set<nat>, steps: seq<Step>, s: State) {
    if steps == [] then s == Initial(callers)
    else
      var k := |steps| - 1;
      exists s0 :: Reaches(callers, steps[..k], s0) && Enabled(s0, steps[k]) && s == Apply(s0, steps[k])
  }

  function InFlight(s: State): seq<nat> { if s.loop.InCallback? then [s.loop.id] else [] }

  ghost predicate CallUnderWay(s: State) { exists c :: c in s.callers && s.callers[c] }

  /** While the loop waits the list holds what was pushed since; without a pending mark none of the sends
      since got through; and every push since has been or will be followed by a send. */
  ghost predicate SinceInv(s: State) {
    && (s.loop == Waiting ==> |s.tasks| == s.since.pushes)
    && (s.loop == Waiting && !s.pending ==> true !in s.since.sends)
    && (s.since.pushes > 0 ==> s.since.sends != [] || CallUnderWay(s))
  }

  ghost predicate Inv(s: State) {
    && s.counter == s.calls % WRAP
    && s.executed + InFlight(s) + s.tasks == Ids(s.calls)
    && SinceInv(s)
  }

  lemma StepKeepsOrder(s: State, step: Step)
    requires Inv(s) && Enabled(s, step)
    ensures var s' := Apply(s, step);
            s'.counter == s'.calls % WRAP && s'.executed + InFlight(s') + s'.tasks == Ids(s'.calls)
  {
    var s' := Apply(s, step);
    var front := s.executed + InFlight(s);
    match step
    case Push(c) =>
      NextIdIsIdOf(s.counter, s.calls);
      OneMoreId(front, s.tasks, s.calls);
    case PopOrStop =>
      if s.tasks != [] {
        HeadMoves(s.executed, s.tasks);
      }
    case CallbackEnds =>
      assert s'.executed + InFlight(s') == front;
    case _ =>
  }

  lemma StepKeepsInv(s: State, step: Step)
    requires Inv(s) && Enabled(s, step)
    ensures Inv(Apply(s, step))
  {
    StepKeepsOrder(s, step);
    var s' := Apply(s, step);
    if step.Push? {
      assert s'.callers[step.caller];
    } else if !step.Send? && CallUnderWay(s) {
      var c :| c in s.callers && s.callers[c];
      assert s'.callers[c];
    }
  }

  lemma {:induction false} ReachableStatesSatisfyInv(callers: set<nat>, steps: seq<Step>, s: State)
    requires Reaches(callers, steps, s)
    ensures Inv(s)
    decreases |steps|
  {
    if steps != [] {
      var k := |steps| - 1;
      var s0 :| Reaches(callers, steps[..k], s0) && Enabled(s0, steps[k]) && s == Apply(s0, steps[k]);
      ReachableStatesSatisfyInv(callers, steps[..k], s0);
      StepKeepsInv(s0, steps[k]);
    }
  }

  /** Executed, in-flight and queued ids are, in this order, the ids of all calls made: nothing is lost,
      repeated or overtaken, and below the 64-bit wrap they are 1, 2, 3 and so on. */
  lemma IdsAreConserved(callers: set<nat>, steps: seq<Step>, s: State)
    requires Reaches(callers, steps, s)
    ensures s.executed + InFlight(s) + s.tasks == Ids(s.calls)
    ensures s.calls < WRAP ==> forall k :: 0 <= k < |s.executed| ==> s.executed[k] == k + 1
  {
    ReachableStatesSatisfyInv(callers, steps, s);
    assert s.executed + (InFlight(s) + s.tasks) == s.executed + InFlight(s) + s.tasks;
    PrefixOfIds(s.executed, InFlight(s) + s.tasks, s.calls);
  }

  /** A call that nobody interrupts does to the machine what the application's method does to its fields. */
  lemma InvokeIsARun(callers: set<nat>, steps: seq<Step>, s: State, c: nat, sent: bool) returns (s': State)
    requires Reaches(callers, steps, s) && c in s.callers && !s.callers[c]
    ensures Reaches(callers, steps + [Push(c)] + [Send(c, sent)], s')
    ensures s'.counter == NextId(s.counter) && s'.tasks == s.tasks + [NextId(s.counter)]
    ensures s'.pending == (s.pending || sent) && s'.executed == s.executed && s'.loop == s.loop
  {
    ReachesSnoc(callers, steps, s, Push(c));
    ReachesSnoc(callers, steps + [Push(c)], Apply(s, Push(c)), Send(c, sent));
    s' := Apply(Apply(s, Push(c)), Send(c, sent));
  }

  /** And so does a drain that nobody interrupts, which ends waiting, with all that was queued executed. */
  lemma {:induction false} DrainIsARun(callers: set<nat>, steps: seq<Step>, s: State)
      returns (steps': seq<Step>, s': State)
    requires Reaches(callers, steps, s) && s.loop == Draining
    ensures Reaches(callers, steps', s') && s'.loop == Waiting && s'.tasks == []
    ensures s'.executed == s.executed + s.tasks
    ensures s'.pending == s.pending && s'.counter == s.counter
    decreases |s.tasks|
  {
    ReachesSnoc(callers, steps, s, PopOrStop);
    if s.tasks == [] {
      steps', s' := steps + [PopOrStop], Apply(s, PopOrStop);
    } else {
      var s1 := Apply(s, PopOrStop);
      ReachesSnoc(callers, steps + [PopOrStop], s1, CallbackEnds);
      steps', s' := DrainIsARun(callers, steps + [PopOrStop] + [CallbackEnds], Apply(s1, CallbackEnds));
      HeadMoves(s.executed, s.tasks);
      assert s.executed + [] == s.executed;
    }
  }

  /** A pending callback, from its start to its end: the mark is cleared before the drain. */
  lemma CallbackIsARun(callers: set<nat>, steps: seq<Step>, s: State) returns (steps': seq<Step>, s': State)
    requires Reaches(callers, steps, s) && s.loop == Waiting && s.pending
    ensures Reaches(callers, steps', s') && s'.loop == Waiting && !s'.pending
    ensures s'.tasks == [] && s'.executed == s.executed + s.tasks
  {
    ReachesSnoc(callers, steps, s, CallbackStarts);
    steps', s' := DrainIsARun(callers, steps + [CallbackStarts], Apply(s, CallbackStarts));
  }

  /** The most recent send, if there was one, succeeded. */
  predicate LastSendOk(steps: seq<Step>) {
    if steps == [] then true
    else
      var k := |steps| - 1;
      if steps[k].Send? then steps[k].ok else LastSendOk(steps[..k])
  }

  lemma OtherStepsSendNothing(s: State, step: Step)
    requires Enabled(s, step) && !step.Send?
    ensures Apply(s, step).since.sends != [] ==> Apply(s, step).since.sends == s.since.sends
  {
  }

  lemma {:induction false} LastSendIsTheLastSince(callers: set<nat>, steps: seq<Step>, s: State)
    requires Reaches(callers, steps, s) && s.since.sends != []
    ensures s.since.sends[|s.since.sends| - 1] == LastSendOk(steps)
    decreases |steps|
  {
    var k := |steps| - 1;
    var s0 :| Reaches(callers, steps[..k], s0) && Enabled(s0, steps[k]) && s == Apply(s0, steps[k]);
    if !steps[k].Send? {
      OtherStepsSendNothing(s0, steps[k]);
      LastSendIsTheLastSince(callers, steps[..k], s0);
    }
  }

  /** The loop waits, nothing is pending and no call is under way. */
  ghost predicate Quiet(s: State) { s.loop == Waiting && !s.pending && !CallUnderWay(s) }

  /** Tasks are stranded exactly when something was pushed after the drain last saw an empty list. It is
      those tasks that are stranded, and every send since then has failed. */
  lemma StrandedIffPushedSinceTheDrain(callers: set<nat>, steps: seq<Step>, s: State)
    requires Reaches(callers, steps, s) && Quiet(s)
    ensures s.tasks != [] <==> s.since.pushes > 0
    ensures |s.tasks| == s.since.pushes
    ensures s.tasks != [] ==> s.since.sends != [] && true !in s.since.sends && !LastSendOk(steps)
  {
    ReachableStatesSatisfyInv(callers, steps, s);
    if s.tasks != [] {
      LastSendIsTheLastSince(callers, steps, s);
      assert s.since.sends[|s.since.sends| - 1] in s.since.sends;
    }
  }

  /** If the last send got through, a queued task has someone who will run it, whatever failed before. */
  lemma NoLostTask(callers: set<nat>, steps: seq<Step>, s: State)
    requires Reaches(callers, steps, s) && s.tasks != [] && LastSendOk(steps)
    ensures s.pending || s.loop != Waiting || CallUnderWay(s)
  {
    if Quiet(s) {
      StrandedIffPushedSinceTheDrain(callers, steps, s);
    }
  }

  /** When everything is quiet, every call's callback has run exactly if nothing was pushed since the
      drain last saw an empty list, and so whenever the last send got through. */
  lemma IdleLoopMeansAllRan(callers: set<nat>, steps: seq<Step>, s: State)
    requires Reaches(callers, steps, s) && Quiet(s)
    ensures s.executed == Ids(s.calls) <==> s.since.pushes == 0
    ensures LastSendOk(steps) ==> s.executed == Ids(s.calls)
  {
    ReachableStatesSatisfyInv(callers, steps, s);
    StrandedIffPushedSinceTheDrain(callers, steps, s);
    assert |s.executed + [] + s.tasks| == |s.executed| + |s.tasks|;
    if s.tasks == [] {
      assert s.executed + [] + [] == s.executed;
    }
  }

  lemma ReachesSnoc(callers: set<nat>, steps: seq<Step>, s: State, step: Step)
    requires Reaches(callers, steps, s) && Enabled(s, step)
    ensures Reaches(callers, steps + [step], Apply(s, step))
  {
    assert (steps + [step])[..|steps|] == steps;
  }

  /** A failed send strands its task: the caller has an error, the task is queued, nothing will run it. */
  lemma FailedSendStrandsTheTask() returns (steps: seq<Step>, s: State)
    ensures Reaches({0}, steps, s)
    ensures s.tasks == [1] && s.loop == Waiting && !s.pending && s.callers == map[0 := false]
  {
    s, steps := Initial({0}), [];
    ReachesSnoc({0}, steps, s, Push(0));
    s, steps := Apply(s, Push(0)), steps + [Push(0)];
    ReachesSnoc({0}, steps, s, Send(0, false));
    s, steps := Apply(s, Send(0, false)), steps + [Send(0, false)];
  }
}
