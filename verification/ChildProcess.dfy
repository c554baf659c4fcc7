/** `UvPosixProcess` and the SIGCHLD notification that reaches it through `Subject<void>`.

    Rules taken for the kernel and libuv: a child that ends becomes a zombie and raises SIGCHLD, which
    is one mark however many children end; `waitpid(WNOHANG)` gives 0 for a living child, reaps a
    zombie, and fails with ECHILD for a reaped one; the loop clears the mark and then notifies the
    observers subscribed at that moment one after the other. Pids are not reused, a process object is
    the only one to wait for its pid, and everything runs on the loop thread. */
module ChildProcess {
  import opened Sequences
  import opened Subject

  datatype Status = Unknown | NotStarted | Starting | Started | Running | Exitted | Signalled | Crashed | Killed

  const SIGKILL: int := 9
  const SIGSEGV: int := 11

  datatype Ending = Exited(code: int) | BySignal(signal: int)

  datatype Child = Alive | Zombie(ending: Ending) | Reaped(ending: Ending)

  // ----- values of one process object

  datatype Process = Process(pid: Option<nat>, status: Status)

  /** The result of `status()`. */
  datatype StatusResult = Ok(status: Status) | NoProcess | UnexpectedChildState

  predicate Watching(s: Status) { s == Started || s == Running }

  function StatusOf(e: Ending): Status {
    match e
    case Exited(_) => Exitted
    case BySignal(n) => if n == SIGKILL then Killed else if n == SIGSEGV then Crashed else Signalled
  }

  /** What `status()` does to the object, and to its child. */
  function AfterStatus(p: Process, c: Child): (Process, Child) {
    match c
    case Alive => (p.(status := Running), c)
    case Zombie(e) => (p.(status := StatusOf(e)), Reaped(e))
    case Reaped(_) =>
      if p.status in {Starting, Started, Running} then (p.(status := Unknown), c) else (p, c)
  }

  /** What `handleChildSignal` does, and whether it fires onClose. */
  function AfterChildSignal(p: Process, c: Child): (Process, Child, bool) {
    if p.pid.None? || !Watching(p.status) then (p, c, false)
    else
      var (p', c') := AfterStatus(p, c);
      (p', c', !Watching(p'.status))
  }

  // ----- the objects themselves

  /** The kernel's process table. */
  class Kernel {
    var children: map<nat, Child>

    constructor ()
      ensures children == map[]
    {
      children := map[];
    }

    /** The new child gets an unused pid; it may end before the parent goes on. */
    method Fork(pid: nat, ended: Option<Ending>)
      requires pid !in children
      modifies this
      ensures children == old(children)[pid := if ended.Some? then Zombie(ended.value) else Alive]
    {
      children := children[pid := if ended.Some? then Zombie(ended.value) else Alive];
    }

    /** `waitpid(pid, WNOHANG)`: nothing yet, an ending, or ECHILD. */
    method WaitPid(pid: nat) returns (ending: Option<Ending>, noChild: bool)
      requires pid in children
      modifies this
      ensures noChild <==> old(children)[pid].Reaped?
      ensures ending == if old(children)[pid].Zombie? then Some(old(children)[pid].ending) else None
      ensures children == old(children)[pid := if ending.Some? then Reaped(ending.value) else old(children)[pid]]
    {
      var c := children[pid];
      noChild := c.Reaped?;
      ending := if c.Zombie? then Some(c.ending) else None;
      if c.Zombie? {
        children := children[pid := Reaped(c.ending)];
      }
    }
  }

  class PosixProcess {
    /** Its observer in the application's `m_onChildSubject`. */
    const id: nat
    var pid: Option<nat>
    var status: Status
    /** How often onClose observers were notified. */
    var closes: nat
    /** `m_onChildSubscription`, by the subject it belongs to; a new one replaces it without taking it back. */
    var subscription: Subject?<nat>

    constructor (id: nat)
      ensures this.id == id && pid == None && status == NotStarted && closes == 0 && subscription == null
    {
      this.id := id;
      pid, status, closes, subscription := None, NotStarted, 0, null;
    }

    function Value(): Process
      reads this
    {
      Process(pid, status)
    }

    /** The destructor takes back one subscription. */
    method Destroy()
      modifies subscription
      ensures subscription != null ==> subscription.observers == Without(old(subscription.observers), id)
    {
      if subscription != null {
        subscription.Unsubscribe(id);
      }
    }

    method GetStatus(kernel: Kernel) returns (r: StatusResult)
      requires pid.Some? ==> pid.value in kernel.children
      modifies this`status, kernel
      ensures pid.None? ==> r == NoProcess && status == old(status) && kernel.children == old(kernel.children)
      ensures pid.Some? ==>
                var (p', c') := AfterStatus(old(Value()), old(kernel.children)[pid.value]);
                && Value() == p' && kernel.children == old(kernel.children)[pid.value := c']
                && r == (if old(kernel.children)[pid.value].Reaped? && old(status) in {Starting, Started, Running}
                         then UnexpectedChildState else Ok(status))
    {
      if pid.None? {
        return NoProcess;
      }
      var ending, noChild := kernel.WaitPid(pid.value);
      if noChild {
        if status == Starting || status == Started || status == Running {
          status := Unknown;
          return UnexpectedChildState;
        }
        return Ok(status);
      }
      if ending.None? {
        status := Running;
        return Ok(status);
      }
      if ending.value.Exited? {
        status := Exitted;
      } else {
        status := Signalled;
        if ending.value.signal == SIGSEGV {
          status := Crashed;
        }
        if ending.value.signal == SIGKILL {
          status := Killed;
        }
      }
      return Ok(status);
    }

    method HandleChildSignal(kernel: Kernel)
      requires pid.Some? ==> pid.value in kernel.children
      modifies this`status, this`closes, kernel
      ensures pid.None? ==> Value() == old(Value()) && closes == old(closes) && kernel.children == old(kernel.children)
      ensures pid.Some? ==>
                var (p', c', fired) := AfterChildSignal(old(Value()), old(kernel.children)[pid.value]);
                && Value() == p' && kernel.children == old(kernel.children)[pid.value := c']
                && closes == old(closes) + if fired then 1 else 0
    {
      if pid.None? {
        return;
      }
      if status != Started && status != Running {
        assert kernel.children == kernel.children[pid.value := kernel.children[pid.value]];
        return;
      }
      var _ := GetStatus(kernel);
      if status != Started && status != Running {
        closes := closes + 1;
      }
    }

    /** The parent's side of `spawn`, up to and including its closing call of `status`. When the child
        has ended by then, that call reaps it and no onClose follows. A failure to open the pipe or to fork
        leaves the status Starting, and the pid of an earlier child. */
    method Spawn(kernel: Kernel, app: Subject?<nat>, pipeOpens: bool, forked: Option<nat>, ended: Option<Ending>)
        returns (ok: bool)
      requires forked.Some? ==> forked.value !in kernel.children
      modifies this`pid, this`status, this`subscription, kernel, app
      ensures app != null ==> subscription == app && app.observers == old(app.observers) + [id]
      ensures app == null ==> subscription == old(subscription)
      ensures ok <==> pipeOpens && forked.Some?
      ensures !ok ==> Value() == old(Value()).(status := Starting) && kernel.children == old(kernel.children)
      ensures ok ==>
                && pid == forked
                && status == (if ended.Some? then StatusOf(ended.value) else Running)
                && kernel.children
                   == old(kernel.children)[forked.value := if ended.Some? then Reaped(ended.value) else Alive]
    {
      status := Starting;
      if app != null {
        app.Subscribe(id);
        subscription := app;
      }
      if !pipeOpens || forked.None? {
        return false;
      }
      kernel.Fork(forked.value, ended);
      pid := forked;
      status := Started;
      var _ := GetStatus(kernel);
      ok := true;
    }
  }

  // ----- many processes under one loop

  datatype Reaper = Nobody | ByHandler | ByStatus

  /** What is known of one spawned child: who spawned it, where it is, who reaped it, how often its onClose
      fired, and whether its owner tried to spawn again before it was reaped. */
  datatype Record = Record(owner: nat, child: Child, reaper: Reaper, fires: nat, overtaken: bool)

  /** `subscribers` is the subject's observer list and `round` the observers a notification under way has
      yet to reach. A spawned child may end before its spawn's own `status` call. */
  datatype State = State(processes: map<nat, Process>, children: map<nat, Record>, signal: bool,
                         subscribers: seq<nat>, round: Option<seq<nat>>)

  datatype Step =
    | Spawns(process: nat, pid: nat)
    | SpawnFails(process: nat)
    | SpawnChecks(process: nat)
    | Ends(pid: nat, ending: Ending)
    | SpuriousSignal
    | AsksStatus(process: nat)
    | RoundStarts
    | NotifiesNext
    | RoundEnds
    | Unsubscribes(process: nat)

  predicate HasChild(s: State, p: nat) {
    p in s.processes && s.processes[p].pid.Some? && s.processes[p].pid.value in s.children
  }

  predicate Enabled(s: State, step: Step) {
    match step
    case Spawns(p, pid) => p in s.processes && pid !in s.children
    case SpawnFails(p) => p in s.processes
    case SpawnChecks(p) => HasChild(s, p) && s.processes[p].status == Started
    case Ends(pid, e) => pid in s.children && s.children[pid].child.Alive?
    case SpuriousSignal => true
    case AsksStatus(p) => HasChild(s, p)
    case RoundStarts => s.signal && s.round.None?
    case NotifiesNext => s.round.Some? && s.round.value != []
    case RoundEnds => s.round == Some([])
    case Unsubscribes(p) => p in s.processes && p in s.subscribers && (s.round.None? || p !in s.round.value)
  }

  function ReapedBy(r: Record, c: Child, reaper: Reaper): Record {
    r.(child := c, reaper := if r.child.Zombie? && c.Reaped? then reaper else r.reaper)
  }

  function DoStatus(s: State, p: nat): State
    requires HasChild(s, p)
  {
    var x := s.processes[p];
    var r := s.children[x.pid.value];
    var (x', c') := AfterStatus(x, r.child);
    s.(processes := s.processes[p := x'], children := s.children[x.pid.value := ReapedBy(r, c', ByStatus)])
  }

  function DoHandle(s: State, p: nat): State
    requires HasChild(s, p)
  {
    var x := s.processes[p];
    var r := s.children[x.pid.value];
    var (x', c', fired) := AfterChildSignal(x, r.child);
    var r' := ReapedBy(r, c', ByHandler).(fires := r.fires + if fired then 1 else 0);
    s.(processes := s.processes[p := x'], children := s.children[x.pid.value := r'])
  }

  /** The children after p has begun another spawn. */
  function Overtaken(s: State, p: nat): map<nat, Record> {
    if HasChild(s, p) && !s.children[s.processes[p].pid.value].child.Reaped?
    then s.children[s.processes[p].pid.value := s.children[s.processes[p].pid.value].(overtaken := true)]
    else s.children
  }

  function Apply(s: State, step: Step): State
    requires Enabled(s, step)
  {
    match step
    case Spawns(p, pid) =>
      s.(processes := s.processes[p := Process(Some(pid), Started)],
         children := Overtaken(s, p)[pid := Record(p, Alive, Nobody, 0, false)],
         subscribers := s.subscribers + [p])
    case SpawnFails(p) =>
      s.(processes := s.processes[p := s.processes[p].(status := Starting)],
         children := Overtaken(s, p), subscribers := s.subscribers + [p])
    case SpawnChecks(p) => DoStatus(s, p)
    case Ends(pid, e) =>
      s.(children := s.children[pid := s.children[pid].(child := Zombie(e))], signal := true)
    case SpuriousSignal => s.(signal := true)
    case AsksStatus(p) => DoStatus(s, p)
    case RoundStarts => s.(signal := false, round := Some(s.subscribers))
    case NotifiesNext =>
      var p := s.round.value[0];
      (if HasChild(s, p) then DoHandle(s, p) else s).(round := Some(s.round.value[1..]))
    case RoundEnds => s.(round := None)
    case Unsubscribes(p) => s.(subscribers := Without(s.subscribers, p))
  }

  function Initial(processes: set<nat>): State {
    State(map p | p in processes :: Process(None, NotStarted), map[], false, [], None)
  }

  ghost predicate Reaches(processes: set<nat>, steps: seq<Step>, s: State) {
    if steps == [] then s == Initial(processes)
    else
      var k := |steps| - 1;
      exists s0 :: Reaches(processes, steps[..k], s0) && Enabled(s0, steps[k]) && s == Apply(s0, steps[k])
  }

  // ----- the invariant

  /** What an object's status says about its child. Of a watched zombie the signal is pending, or the round
      under way has yet to reach the process. */
  predicate StatusFits(status: Status, r: Record) {
    if Watching(status) then !r.child.Reaped? && r.fires == 0
    else if status == Starting then r.child.Reaped? || r.overtaken
    else r.child.Reaped? && (status == Unknown || status == StatusOf(r.child.ending))
  }

  predicate SignalOnItsWay(s: State, p: nat) {
    s.signal || (s.round.Some? && p in s.round.value)
  }

  predicate Noticed(s: State, p: nat)
    requires HasChild(s, p)
  {
    var r := s.children[s.processes[p].pid.value];
    && r.owner == p && StatusFits(s.processes[p].status, r)
    && (Watching(s.processes[p].status) && r.child.Zombie? && p in s.subscribers ==> SignalOnItsWay(s, p))
  }

  predicate Owned(s: State, pid: nat)
    requires pid in s.children
  {
    s.children[pid].owner in s.processes && s.processes[s.children[pid].owner].pid == Some(pid)
  }

  predicate RecordFits(r: Record) {
    && (r.reaper != Nobody <==> r.child.Reaped?)
    && r.fires == (if r.reaper == ByHandler then 1 else 0)
  }

  predicate RecordInv(s: State, pid: nat)
    requires pid in s.children
  {
    && RecordFits(s.children[pid]) && s.children[pid].owner in s.processes
    && (!Owned(s, pid) ==> s.children[pid].child.Reaped? || s.children[pid].overtaken)
  }

  ghost predicate Inv(s: State) {
    && (forall p | p in s.processes && s.processes[p].pid.Some? :: HasChild(s, p))
    && (forall p | p in s.processes && s.processes[p].pid.None? :: !Watching(s.processes[p].status))
    && (forall p | HasChild(s, p) :: Noticed(s, p))
    && (forall pid | pid in s.children :: RecordInv(s, pid))
  }

  /** A step that changes only p's object, and only the record of its child. */
  ghost predicate OnlyOwn(s: State, s': State, p: nat)
    requires HasChild(s, p)
  {
    && s'.processes.Keys == s.processes.Keys && s'.children.Keys == s.children.Keys
    && s'.processes[p].pid == s.processes[p].pid
    && (forall q | q in s.processes && q != p :: s'.processes[q] == s.processes[q])
    && (forall pid | pid in s.children && s.processes[p].pid != Some(pid) :: s'.children[pid] == s.children[pid])
    && s'.children[s.processes[p].pid.value].owner == s.children[s.processes[p].pid.value].owner
    && s'.subscribers == s.subscribers && s'.signal == s.signal
  }

  lemma OwnStepKeepsInv(s: State, s': State, p: nat)
    requires Inv(s) && HasChild(s, p) && OnlyOwn(s, s', p)
    requires Noticed(s', p) && RecordFits(s'.children[s.processes[p].pid.value])
    requires forall q | q != p && SignalOnItsWay(s, q) :: SignalOnItsWay(s', q)
    ensures Inv(s')
  {
    forall q | HasChild(s', q)
      ensures Noticed(s', q)
    {
      assert HasChild(s, q) && Noticed(s, q) && Noticed(s, p);
    }
    forall pid | pid in s'.children
      ensures RecordInv(s', pid)
    {
      assert RecordInv(s, pid);
    }
  }

  lemma StatusKeepsInv(s: State, p: nat)
    requires Inv(s) && HasChild(s, p)
    ensures Inv(DoStatus(s, p))
  {
    assert Noticed(s, p) && RecordInv(s, s.processes[p].pid.value);
    OwnStepKeepsInv(s, DoStatus(s, p), p);
  }

  /** After the handler a process that still watches has a living child. */
  lemma HandlerOnItsChild(s: State, p: nat)
    requires Inv(s) && HasChild(s, p)
    ensures var s' := DoHandle(s, p);
            var r' := s'.children[s.processes[p].pid.value];
            && RecordFits(r') && r'.owner == p && StatusFits(s'.processes[p].status, r')
            && (Watching(s'.processes[p].status) ==> r'.child.Alive?)
  {
    assert Noticed(s, p) && RecordInv(s, s.processes[p].pid.value);
  }

  lemma NotificationKeepsInv(s: State)
    requires Inv(s) && Enabled(s, NotifiesNext)
    ensures Inv(Apply(s, NotifiesNext))
  {
    var s' := Apply(s, NotifiesNext);
    var p := s.round.value[0];
    assert s.round.value == [p] + s.round.value[1..];
    if HasChild(s, p) {
      HandlerOnItsChild(s, p);
      OwnStepKeepsInv(s, s', p);
    } else {
      NoChildrenTouched(s, s', p);
    }
  }

  /** Steps that leave objects and children alone, and for everyone but perhaps a process without a child
      keep subscriptions from growing and signals on their way. */
  lemma NoChildrenTouched(s: State, s': State, p: nat)
    requires Inv(s) && s'.processes == s.processes && s'.children == s.children
    requires forall q | q in s'.subscribers :: q in s.subscribers
    requires forall q | q in s'.subscribers && SignalOnItsWay(s, q) && (q != p || HasChild(s, p)) ::
               SignalOnItsWay(s', q)
    ensures Inv(s')
  {
    forall q | HasChild(s', q)
      ensures Noticed(s', q)
    {
      assert Noticed(s, q);
    }
    forall pid | pid in s'.children
      ensures RecordInv(s', pid)
    {
      assert RecordInv(s, pid);
    }
  }

  lemma EndKeepsInv(s: State, pid: nat, e: Ending)
    requires Inv(s) && Enabled(s, Ends(pid, e))
    ensures Inv(Apply(s, Ends(pid, e)))
  {
    var s' := Apply(s, Ends(pid, e));
    forall q | HasChild(s', q)
      ensures Noticed(s', q)
    {
      assert HasChild(s, q) && Noticed(s, q);
    }
    forall c | c in s'.children
      ensures RecordInv(s', c)
    {
      assert RecordInv(s, c);
    }
  }

  lemma SpawnKeepsInv(s: State, p: nat, pid: nat)
    requires Inv(s) && Enabled(s, Spawns(p, pid))
    ensures Inv(Apply(s, Spawns(p, pid)))
  {
    var s' := Apply(s, Spawns(p, pid));
    forall q | HasChild(s', q)
      ensures Noticed(s', q)
    {
      if q != p {
        assert HasChild(s, q) && Noticed(s, q);
        assert HasChild(s, p) ==> Noticed(s, p);
      }
    }
    forall c | c in s'.children
      ensures RecordInv(s', c)
    {
      assert c != pid ==> RecordInv(s, c);
    }
  }

  lemma FailedSpawnKeepsInv(s: State, p: nat)
    requires Inv(s) && Enabled(s, SpawnFails(p))
    ensures Inv(Apply(s, SpawnFails(p)))
  {
    var s' := Apply(s, SpawnFails(p));
    forall q | HasChild(s', q)
      ensures Noticed(s', q)
    {
      assert HasChild(s, q) && Noticed(s, q);
      assert HasChild(s, p) ==> Noticed(s, p);
    }
    forall c | c in s'.children
      ensures RecordInv(s', c)
    {
      assert RecordInv(s, c);
    }
  }

  lemma WithoutContains(xs: seq<nat>, x: nat, y: nat)
    requires y in Without(xs, x)
    ensures y in xs
  {
    if xs != [] && xs[0] != x && y != xs[0] {
      WithoutContains(xs[1..], x, y);
    }
  }

  lemma StepKeepsInv(s: State, step: Step)
    requires Inv(s) && Enabled(s, step)
    ensures Inv(Apply(s, step))
  {
    match step
    case Spawns(p, pid) => SpawnKeepsInv(s, p, pid);
    case SpawnFails(p) => FailedSpawnKeepsInv(s, p);
    case SpawnChecks(p) => StatusKeepsInv(s, p);
    case AsksStatus(p) => StatusKeepsInv(s, p);
    case Ends(pid, e) => EndKeepsInv(s, pid, e);
    case NotifiesNext => NotificationKeepsInv(s);
    case Unsubscribes(p) =>
      forall q | q in Without(s.subscribers, p)
        ensures q in s.subscribers
      {
        WithoutContains(s.subscribers, p, q);
      }
      NoChildrenTouched(s, Apply(s, step), p);
    case _ => NoChildrenTouched(s, Apply(s, step), 0);
  }

  lemma {:induction false} ReachableStatesSatisfyInv(processes: set<nat>, steps: seq<Step>, s: State)
    requires Reaches(processes, steps, s)
    ensures Inv(s)
    decreases |steps|
  {
    if steps != [] {
      var k := |steps| - 1;
      var s0 :| Reaches(processes, steps[..k], s0) && Enabled(s0, steps[k]) && s == Apply(s0, steps[k]);
      ReachableStatesSatisfyInv(processes, steps[..k], s0);
      StepKeepsInv(s0, steps[k]);
    }
  }

  // ----- main results

  /** However signals coalesce and over any number of processes: an ended child whose subscribed process
      still watches it has the signal pending or is in the round under way. */
  lemma NoLostClose(processes: set<nat>, steps: seq<Step>, s: State, p: nat)
    requires Reaches(processes, steps, s)
    requires HasChild(s, p) && p in s.subscribers && Watching(s.processes[p].status)
    requires s.children[s.processes[p].pid.value].child.Zombie?
    ensures SignalOnItsWay(s, p)
  {
    ReachableStatesSatisfyInv(processes, steps, s);
    assert Noticed(s, p);
  }

  predicate Idle(s: State) { !s.signal && s.round.None? }

  /** Nobody reaps the child, and its close is not reported: its owner has another child by now, or
      stopped watching when it failed to spawn one. */
  predicate Lost(s: State, pid: nat)
    requires pid in s.children
  {
    var r := s.children[pid];
    && r.child.Zombie?
    && (Owned(s, pid) ==> s.processes[r.owner].status == Starting)
  }

  /** When everything is idle, each ended child of a subscribed process is exactly one of these: closed, with
      onClose fired once; reaped by a call of `status`, without onClose; or lost, also without onClose. Only
      a child whose owner tried to spawn again before it was reaped is lost. */
  lemma EveryEndIsAccountedFor(processes: set<nat>, steps: seq<Step>, s: State, pid: nat)
    requires Reaches(processes, steps, s) && Idle(s)
    requires pid in s.children && !s.children[pid].child.Alive? && s.children[pid].owner in s.subscribers
    ensures var r := s.children[pid];
            && (r.fires == 1 <==> r.reaper != ByStatus && !Lost(s, pid))
            && (r.reaper == ByStatus ==> r.fires == 0 && !Lost(s, pid))
            && (Lost(s, pid) ==> r.fires == 0 && r.reaper == Nobody && r.overtaken)
            && (r.child.Zombie? <==> Lost(s, pid))
  {
    ReachableStatesSatisfyInv(processes, steps, s);
    IdleEnding(s, pid);
  }

  lemma IdleEnding(s: State, pid: nat)
    requires Inv(s) && Idle(s)
    requires pid in s.children && !s.children[pid].child.Alive? && s.children[pid].owner in s.subscribers
    ensures var r := s.children[pid];
            && RecordFits(r) && (r.child.Zombie? <==> Lost(s, pid)) && (r.child.Zombie? ==> r.overtaken)
  {
    assert RecordInv(s, pid);
    if Owned(s, pid) {
      assert HasChild(s, s.children[pid].owner) && Noticed(s, s.children[pid].owner);
    }
  }

  /** The child of an owner that did not try to spawn again is closed, exactly unless `status` reaped it. */
  lemma SingleSpawnsAreClosed(processes: set<nat>, steps: seq<Step>, s: State, pid: nat)
    requires Reaches(processes, steps, s) && Idle(s)
    requires pid in s.children && !s.children[pid].child.Alive? && s.children[pid].owner in s.subscribers
    requires !s.children[pid].overtaken
    ensures s.children[pid].child.Reaped?
    ensures s.children[pid].fires == if s.children[pid].reaper == ByStatus then 0 else 1
  {
    ReachableStatesSatisfyInv(processes, steps, s);
    IdleEnding(s, pid);
  }

  /** With no signal pending and no round under way, every watched child of a subscriber is alive. */
  lemma IdleMeansAllAlive(processes: set<nat>, steps: seq<Step>, s: State)
    requires Reaches(processes, steps, s) && Idle(s)
    ensures forall p | HasChild(s, p) && p in s.subscribers && Watching(s.processes[p].status) ::
              s.children[s.processes[p].pid.value].child.Alive?
  {
    ReachableStatesSatisfyInv(processes, steps, s);
    forall p | HasChild(s, p) && p in s.subscribers && Watching(s.processes[p].status)
      ensures s.children[s.processes[p].pid.value].child.Alive?
    {
      assert Noticed(s, p);
    }
  }

  /** In every state each spawned child's onClose has fired at most once, and only if it ended and was reaped
      by `handleChildSignal` rather than by `status`. */
  lemma CloseFiresOnce(processes: set<nat>, steps: seq<Step>, s: State, pid: nat)
    requires Reaches(processes, steps, s) && pid in s.children
    ensures var r := s.children[pid];
            r.fires <= 1 && (r.fires == 1 <==> r.child.Reaped? && r.reaper != ByStatus)
  {
    ReachableStatesSatisfyInv(processes, steps, s);
    RecordsFit(s, pid);
  }

  lemma RecordsFit(s: State, pid: nat)
    requires Inv(s) && pid in s.children
    ensures RecordFits(s.children[pid])
  {
    assert RecordInv(s, pid);
  }

  /** A child that its owner has replaced stays replaced, and no step closes or reaps it. */
  lemma ReplacedChildrenAreForgotten(s: State, step: Step, pid: nat)
    requires Inv(s) && Enabled(s, step) && pid in s.children && !Owned(s, pid)
    ensures var s' := Apply(s, step);
            && pid in s'.children && !Owned(s', pid)
            && s'.children[pid].fires == s.children[pid].fires && s'.children[pid].reaper == s.children[pid].reaper
  {
    assert RecordInv(s, pid);
    if step.NotifiesNext? && HasChild(s, s.round.value[0]) {
      assert Noticed(s, s.round.value[0]);
    } else if step.AsksStatus? || step.SpawnChecks? {
      assert Noticed(s, step.process);
    } else if step.Spawns? || step.SpawnFails? {
      assert HasChild(s, step.process) ==> Noticed(s, step.process);
    }
  }

  /** The ECHILD branch never turns a watched process into Unknown. */
  lemma WatchedChildIsNotReaped(processes: set<nat>, steps: seq<Step>, s: State, p: nat)
    requires Reaches(processes, steps, s) && HasChild(s, p) && Watching(s.processes[p].status)
    ensures DoStatus(s, p).processes[p].status != Unknown
  {
    ReachableStatesSatisfyInv(processes, steps, s);
    assert Noticed(s, p);
  }

  /** Once its child is reaped, the status of an object tells how it ended, unless another spawn failed or
      ECHILD came back since. */
  lemma StatusTellsTheEnding(processes: set<nat>, steps: seq<Step>, s: State, p: nat)
    requires Reaches(processes, steps, s) && HasChild(s, p) && s.children[s.processes[p].pid.value].child.Reaped?
    requires s.processes[p].status !in {Starting, Unknown}
    ensures var e := s.children[s.processes[p].pid.value].child.ending;
            var status := s.processes[p].status;
            && (status == Exitted <==> e.Exited?)
            && (status == Killed <==> e == BySignal(9))
            && (status == Crashed <==> e == BySignal(11))
            && (status == Signalled <==> e.BySignal? && e.signal !in {9, 11})
  {
    ReachableStatesSatisfyInv(processes, steps, s);
    assert Noticed(s, p);
  }

  /** A notification that reaches a process whose watched child has ended reaps the child and fires. */
  lemma NotificationCloses(s: State)
    requires Enabled(s, NotifiesNext) && HasChild(s, s.round.value[0])
    ensures var x := s.processes[s.round.value[0]];
            var r := s.children[x.pid.value];
            var s' := Apply(s, NotifiesNext);
            && x.pid.value in s'.children
            && var r' := s'.children[x.pid.value];
            if x.status in {Started, Running} && r.child.Zombie?
            then r'.child == Reaped(r.child.ending) && r'.reaper == ByHandler && r'.fires == r.fires + 1
            else r.child.Reaped? || r' == r
  {
  }

  /** Asking a living child's status gives Running. */
  lemma LivingChildrenRun(s: State, p: nat)
    requires HasChild(s, p) && s.children[s.processes[p].pid.value].child.Alive?
    ensures DoStatus(s, p) == s.(processes := s.processes[p := s.processes[p].(status := Running)])
  {
    var pid := s.processes[p].pid.value;
    assert s.children[pid := s.children[pid]] == s.children;
  }

  /** Asking for a child that is reaped already gives Unknown, if no ending was noted. */
  lemma ReapedChildrenAreUnknown(s: State, p: nat)
    requires HasChild(s, p) && s.children[s.processes[p].pid.value].child.Reaped?
    ensures DoStatus(s, p).children == s.children
    ensures DoStatus(s, p).processes[p].status ==
            if s.processes[p].status in {Starting, Started, Running} then Unknown else s.processes[p].status
  {
    var pid := s.processes[p].pid.value;
    assert s.children[pid := s.children[pid]] == s.children;
  }

  predicate AsksFor(step: Step, p: nat) { step == AsksStatus(p) || step == SpawnChecks(p) }

  lemma StepOnReaper(s: State, step: Step, pid: nat)
    requires Inv(s) && Enabled(s, step) && pid in Apply(s, step).children
    requires Apply(s, step).children[pid].reaper == ByStatus
    ensures pid in s.children && s.children[pid].owner == Apply(s, step).children[pid].owner
    ensures s.children[pid].reaper == ByStatus || AsksFor(step, s.children[pid].owner)
  {
    if step.AsksStatus? || step.SpawnChecks? {
      assert Noticed(s, step.process);
    } else if step.NotifiesNext? && HasChild(s, s.round.value[0]) {
      assert Noticed(s, s.round.value[0]);
    }
  }

  /** A child is reaped by `status` only if its owner was asked, by a caller or by its own spawn. */
  lemma {:induction false} StatusReapsWereAskedFor(processes: set<nat>, steps: seq<Step>, s: State, pid: nat)
    requires Reaches(processes, steps, s) && pid in s.children && s.children[pid].reaper == ByStatus
    ensures exists k :: 0 <= k < |steps| && AsksFor(steps[k], s.children[pid].owner)
    decreases |steps|
  {
    var k := |steps| - 1;
    var s0 :| Reaches(processes, steps[..k], s0) && Enabled(s0, steps[k]) && s == Apply(s0, steps[k]);
    ReachableStatesSatisfyInv(processes, steps[..k], s0);
    StepOnReaper(s0, steps[k], pid);
    if !AsksFor(steps[k], s.children[pid].owner) {
      StatusReapsWereAskedFor(processes, steps[..k], s0, pid);
      var j :| 0 <= j < k && AsksFor(steps[..k][j], s.children[pid].owner);
      assert AsksFor(steps[j], s.children[pid].owner);
    }
  }

  // ----- runs that lose a close

  lemma ReachesSnoc(processes: set<nat>, steps: seq<Step>, s: State, step: Step)
    requires Reaches(processes, steps, s) && Enabled(s, step)
    ensures Reaches(processes, steps + [step], Apply(s, step))
  {
    assert (steps + [step])[..|steps|] == steps;
  }

  lemma OneRunningChild() returns (steps: seq<Step>, s: State)
    ensures Reaches({0}, steps, s)
    ensures s == State(map[0 := Process(Some(7), Running)], map[7 := Record(0, Alive, Nobody, 0, false)],
                       false, [0], None)
  {
    s, steps := Initial({0}), [];
    ReachesSnoc({0}, steps, s, Spawns(0, 7));
    s, steps := Apply(s, Spawns(0, 7)), steps + [Spawns(0, 7)];
    assert s.children == map[7 := Record(0, Alive, Nobody, 0, false)];
    assert s.processes == map[0 := Process(Some(7), Started)];
    CheckOfLivingChild(s, 7);
    ReachesSnoc({0}, steps, s, SpawnChecks(0));
    s, steps := Apply(s, SpawnChecks(0)), steps + [SpawnChecks(0)];
  }

  /** A notification that finds nothing to do. */
  predicate NothingToDo(s: State) {
    && HasChild(s, 0)
    && var child := s.children[s.processes[0].pid.value].child;
    AfterChildSignal(s.processes[0], child) == (s.processes[0], child, false)
  }

  lemma IdleNotification(s: State, rest: seq<nat>)
    requires NothingToDo(s) && s.round == Some([0] + rest)
    ensures Enabled(s, NotifiesNext) && Apply(s, NotifiesNext) == s.(round := Some(rest))
  {
    assert s.round.value[1..] == rest;
    assert s.processes[0 := s.processes[0]] == s.processes;
    var pid := s.processes[0].pid.value;
    assert s.children[pid := s.children[pid]] == s.children;
  }

  /** A whole round over two notifications of process 0. */
  lemma WholeRound(steps: seq<Step>, s: State) returns (steps': seq<Step>, s': State)
    requires Reaches({0}, steps, s) && NothingToDo(s)
    requires s.signal && s.round == None && s.subscribers == [0, 0]
    ensures Reaches({0}, steps', s') && s' == s.(signal := false)
  {
    var s1 := s.(signal := false, round := Some([0] + [0]));
    assert [0, 0] == [0] + [0];
    ReachesSnoc({0}, steps, s, RoundStarts);
    var s2 := s1.(round := Some([0] + []));
    assert [0] == [0] + [];
    IdleNotification(s1, [0]);
    ReachesSnoc({0}, steps + [RoundStarts], s1, NotifiesNext);
    IdleNotification(s2, []);
    ReachesSnoc({0}, steps + [RoundStarts] + [NotifiesNext], s2, NotifiesNext);
    var s3 := s2.(round := Some([]));
    ReachesSnoc({0}, steps + [RoundStarts] + [NotifiesNext] + [NotifiesNext], s3, RoundEnds);
    steps' := steps + [RoundStarts] + [NotifiesNext] + [NotifiesNext] + [RoundEnds];
    s' := s3.(round := None);
  }

  /** A spawn that fails while an earlier child runs: that child's close is lost. */
  lemma FailedSpawnLosesTheClose(e: Ending) returns (steps: seq<Step>, s: State)
    ensures Reaches({0}, steps, s) && Idle(s) && 0 in s.subscribers && HasChild(s, 0)
    ensures s.processes[0].pid == Some(7) && s.children[7].child == Zombie(e) && s.children[7].fires == 0
    ensures Lost(s, 7)
  {
    steps, s := OneRunningChild();
    ReachesSnoc({0}, steps, s, SpawnFails(0));
    s, steps := Apply(s, SpawnFails(0)), steps + [SpawnFails(0)];
    assert s.subscribers == [0, 0];
    ReachesSnoc({0}, steps, s, Ends(7, e));
    s, steps := Apply(s, Ends(7, e)), steps + [Ends(7, e)];
    steps, s := WholeRound(steps, s);
  }

  lemma TwoRunningChildren() returns (steps: seq<Step>, s: State)
    ensures Reaches({0}, steps, s) && s.subscribers == [0, 0] && Idle(s)
    ensures s.processes == map[0 := Process(Some(8), Running)]
    ensures s.children == map[7 := Record(0, Alive, Nobody, 0, true), 8 := Record(0, Alive, Nobody, 0, false)]
  {
    steps, s := OneRunningChild();
    SpawnOverChild(s);
    ReachesSnoc({0}, steps, s, Spawns(0, 8));
    s, steps := Apply(s, Spawns(0, 8)), steps + [Spawns(0, 8)];
    CheckOfLivingChild(s, 8);
    ReachesSnoc({0}, steps, s, SpawnChecks(0));
    s, steps := Apply(s, SpawnChecks(0)), steps + [SpawnChecks(0)];
  }

  lemma SpawnOverChild(s: State)
    requires s.processes == map[0 := Process(Some(7), Running)]
    requires s.children == map[7 := Record(0, Alive, Nobody, 0, false)]
    ensures var s' := Apply(s, Spawns(0, 8));
            && s'.processes == map[0 := Process(Some(8), Started)]
            && s'.children == map[7 := Record(0, Alive, Nobody, 0, true), 8 := Record(0, Alive, Nobody, 0, false)]
            && s'.subscribers == s.subscribers + [0] && s'.signal == s.signal && s'.round == s.round
  {
  }

  lemma CheckOfLivingChild(s: State, pid: nat)
    requires s.processes == map[0 := Process(Some(pid), Started)] && pid in s.children && s.children[pid].child.Alive?
    ensures Enabled(s, SpawnChecks(0))
    ensures Apply(s, SpawnChecks(0)) == s.(processes := map[0 := Process(Some(pid), Running)])
  {
    assert s.children[pid := s.children[pid]] == s.children;
  }

  /** A second spawn that succeeds: the first child's close is lost. */
  lemma SecondSpawnLosesTheClose(e: Ending) returns (steps: seq<Step>, s: State)
    ensures Reaches({0}, steps, s) && Idle(s) && 0 in s.subscribers && HasChild(s, 0)
    ensures s.processes[0] == Process(Some(8), Running)
    ensures 7 in s.children && s.children[7].child == Zombie(e) && s.children[7].fires == 0 && Lost(s, 7)
  {
    steps, s := TwoRunningChildren();
    ReachesSnoc({0}, steps, s, Ends(7, e));
    s, steps := Apply(s, Ends(7, e)), steps + [Ends(7, e)];
    assert NothingToDo(s);
    steps, s := WholeRound(steps, s);
  }

  // ----- subscriptions

  predicate Attempts(step: Step, p: nat) { step == SpawnFails(p) || (step.Spawns? && step.process == p) }

  /** Spawns of p, successful or not. */
  function AttemptsIn(steps: seq<Step>, p: nat): nat {
    if steps == [] then 0
    else AttemptsIn(steps[..|steps| - 1], p) + if Attempts(steps[|steps| - 1], p) then 1 else 0
  }

  function UnsubscribesIn(steps: seq<Step>, p: nat): nat {
    if steps == [] then 0
    else UnsubscribesIn(steps[..|steps| - 1], p) + if steps[|steps| - 1] == Unsubscribes(p) then 1 else 0
  }

  function Subscriptions(s: State, p: nat): nat { CountOf(s.subscribers, p) }

  lemma StepOnSubscribers(s: State, step: Step)
    requires Enabled(s, step)
    ensures Apply(s, step).subscribers == match step
                                          case Spawns(p, _) => s.subscribers + [p]
                                          case SpawnFails(p) => s.subscribers + [p]
                                          case Unsubscribes(p) => Without(s.subscribers, p)
                                          case _ => s.subscribers
  {
  }

  lemma StepOnSubscriptions(s: State, step: Step, p: nat)
    requires Enabled(s, step)
    ensures Subscriptions(Apply(s, step), p) ==
            Subscriptions(s, p) + (if Attempts(step, p) then 1 else 0) - (if step == Unsubscribes(p) then 1 else 0)
  {
    StepOnSubscribers(s, step);
    if step.Unsubscribes? {
      CountAfterErase(s.subscribers, step.process, p);
    } else if step.Spawns? || step.SpawnFails? {
      CountAfterAppend(s.subscribers, step.process, p);
    }
  }

  /** A process has as many subscriptions as it made spawn attempts, less those taken back. */
  lemma {:induction false} SubscriptionsAreAttempts(processes: set<nat>, steps: seq<Step>, s: State, p: nat)
    requires Reaches(processes, steps, s)
    ensures Subscriptions(s, p) + UnsubscribesIn(steps, p) == AttemptsIn(steps, p)
    decreases |steps|
  {
    if steps != [] {
      var k := |steps| - 1;
      var s0 :| Reaches(processes, steps[..k], s0) && Enabled(s0, steps[k]) && s == Apply(s0, steps[k]);
      SubscriptionsAreAttempts(processes, steps[..k], s0, p);
      StepOnSubscriptions(s0, steps[k], p);
    }
  }

  /** The destructor, which takes back one subscription, leaves none behind exactly if only one spawn was
      attempted. */
  lemma DestructorSufficesIffOneAttempt(processes: set<nat>, steps: seq<Step>, s: State, p: nat)
    requires Reaches(processes, steps, s) && Enabled(s, Unsubscribes(p)) && UnsubscribesIn(steps, p) == 0
    ensures p !in Apply(s, Unsubscribes(p)).subscribers <==> AttemptsIn(steps, p) == 1
  {
    SubscriptionsAreAttempts(processes, steps, s, p);
    StepOnSubscriptions(s, Unsubscribes(p), p);
    CountedIffIn(Apply(s, Unsubscribes(p)).subscribers, p);
  }

  lemma StepOnOvertaken(s: State, step: Step, pid: nat)
    requires Inv(s) && Enabled(s, step) && pid in Apply(s, step).children
    ensures var r' := Apply(s, step).children[pid];
            if pid in s.children
            then r'.owner == s.children[pid].owner
                 && (r'.overtaken ==> s.children[pid].overtaken || Attempts(step, r'.owner))
            else Attempts(step, r'.owner) && !r'.overtaken
  {
    assert forall p | HasChild(s, p) :: Noticed(s, p);
  }

  /** Every child stems from an attempt of its owner, and an overtaken one has seen another. */
  lemma {:induction false} ChildrenStemFromAttempts(processes: set<nat>, steps: seq<Step>, s: State, pid: nat)
    requires Reaches(processes, steps, s) && pid in s.children
    ensures AttemptsIn(steps, s.children[pid].owner) >= if s.children[pid].overtaken then 2 else 1
    decreases |steps|
  {
    var k := |steps| - 1;
    var s0 :| Reaches(processes, steps[..k], s0) && Enabled(s0, steps[k]) && s == Apply(s0, steps[k]);
    ReachableStatesSatisfyInv(processes, steps[..k], s0);
    StepOnOvertaken(s0, steps[k], pid);
    if pid in s0.children {
      ChildrenStemFromAttempts(processes, steps[..k], s0, pid);
    }
  }

  /** A process object that is used for one spawn only loses no close: when everything is idle its ended
      child is closed, with onClose fired once, exactly unless a call of `status` reaped it. */
  lemma OneSpawnLosesNothing(processes: set<nat>, steps: seq<Step>, s: State, pid: nat)
    requires Reaches(processes, steps, s) && Idle(s)
    requires pid in s.children && !s.children[pid].child.Alive? && s.children[pid].owner in s.subscribers
    requires AttemptsIn(steps, s.children[pid].owner) == 1
    ensures s.children[pid].fires == if s.children[pid].reaper == ByStatus then 0 else 1
  {
    ChildrenStemFromAttempts(processes, steps, s, pid);
    SingleSpawnsAreClosed(processes, steps, s, pid);
  }
}
