/** Opening and closing of libuv handles: `UvTimer`, `UvSignalHandler`, the application's async handle
    and `UvEventLoop`.

    Rules taken for libuv: `uv_is_closing` holds from `uv_close` on, also after the close callback; an
    iteration of the loop runs the close callback of at least one closing handle, if there is one, and
    creates no handle; `uv_loop_close` is refused while a handle is not closed. */
module HandleLifecycle {
  import opened Sequences

  /** Closing and closed handles remember whether the close callback is the owner's `deleteHandle`. */
  datatype Phase = Active | Closing(ownerCallback: bool) | Closed(ownerCallback: bool)

  /** A timer or signal handle is allocated by its owner; the async handle has none. */
  datatype Handle = Handle(owner: Option<nat>, phase: Phase, closeCalls: nat, deletes: nat)

  /** Every handle ever initialised, and the `m_handle` of every timer and signal handler. */
  datatype State = State(handles: map<nat, Handle>, owners: map<nat, Option<nat>>)

  datatype Step =
    | Init(owner: nat, handle: nat)
    | InitAsync(handle: nat)
    | OwnerCloses(owner: nat)
    | PlainClose(handle: nat)
    | CloseCallback(handle: nat)

  predicate Enabled(s: State, step: Step) {
    match step
    case Init(o, h) => o in s.owners && h !in s.handles
    case InitAsync(h) => h !in s.handles
    case OwnerCloses(o) => o in s.owners && (s.owners[o].Some? ==> s.owners[o].value in s.handles)
    case PlainClose(h) => h in s.handles && (s.handles[h].phase.Closed? ==> s.handles[h].owner.None?)
    case CloseCallback(h) =>
      && h in s.handles && s.handles[h].phase.Closing?
      && (s.handles[h].owner.Some? ==> s.handles[h].owner.value in s.owners)
  }

  /** `uv_close` unless `uv_is_closing`. */
  function CloseOnce(x: Handle, ownerCallback: bool): Handle {
    if x.phase.Active? then x.(phase := Closing(ownerCallback), closeCalls := x.closeCalls + 1) else x
  }

  /** `deleteHandle`: frees what `m_handle` points to. */
  function DeleteHandle(s: State, o: nat): State
    requires o in s.owners
  {
    match s.owners[o]
    case None => s
    case Some(g) =>
      s.(owners := s.owners[o := None],
         handles := if g in s.handles
                    then s.handles[g := s.handles[g].(deletes := s.handles[g].deletes + 1)] else s.handles)
  }

  function Apply(s: State, step: Step): State
    requires Enabled(s, step)
  {
    match step
    case Init(o, h) =>
      if s.owners[o].Some? then s // AlreadyInitialized
      else State(s.handles[h := Handle(Some(o), Active, 0, 0)], s.owners[o := Some(h)])
    case InitAsync(h) => s.(handles := s.handles[h := Handle(None, Active, 0, 0)])
    case OwnerCloses(o) =>
      if s.owners[o].None? then s
      else
        var h := s.owners[o].value;
        s.(handles := s.handles[h := CloseOnce(s.handles[h], true)])
    case PlainClose(h) => s.(handles := s.handles[h := CloseOnce(s.handles[h], false)])
    case CloseCallback(h) =>
      var x := s.handles[h];
      var s' := s.(handles := s.handles[h := x.(phase := Closed(x.phase.ownerCallback))]);
      if x.phase.ownerCallback && x.owner.Some? then DeleteHandle(s', x.owner.value) else s'
  }

  /** The steps lead from `from` to `s`. */
  ghost predicate Leads(from: State, steps: seq<Step>, s: State) {
    if steps == [] then s == from
    else
      var k := |steps| - 1;
      exists s0 :: Leads(from, steps[..k], s0) && Enabled(s0, steps[k]) && s == Apply(s0, steps[k])
  }

  lemma LeadsSnoc(from: State, steps: seq<Step>, s: State, step: Step)
    requires Leads(from, steps, s) && Enabled(s, step)
    ensures Leads(from, steps + [step], Apply(s, step))
  {
    assert (steps + [step])[..|steps|] == steps;
  }

  function Initial(owners: set<nat>): State { State(map[], map o | o in owners :: None) }

  ghost predicate HandleInv(s: State, h: nat)
    requires h in s.handles
  {
    var x := s.handles[h];
    && x.closeCalls == (if x.phase.Active? then 0 else 1)
    && x.deletes == (if x.phase == Closed(true) then 1 else 0)
    && (x.owner.Some? ==> x.owner.value in s.owners)
    && (x.owner.None? ==> x.phase.Active? || !x.phase.ownerCallback)
    && (x.phase == Closing(true) ==> x.owner.Some? && s.owners[x.owner.value] == Some(h))
    && (x.phase == Active && x.owner.Some? ==> s.owners[x.owner.value] == Some(h))
  }

  /** A non-null `m_handle` points to this owner's handle, whose memory is still there. */
  ghost predicate OwnerInv(s: State, o: nat)
    requires o in s.owners
  {
    s.owners[o].Some? ==>
      var h := s.owners[o].value;
      h in s.handles && s.handles[h].owner == Some(o) && s.handles[h].deletes == 0
  }

  ghost predicate Inv(s: State) {
    && (forall h | h in s.handles :: HandleInv(s, h))
    && (forall o | o in s.owners :: OwnerInv(s, o))
  }

  lemma StepKeepsInv(s: State, step: Step)
    requires Inv(s) && Enabled(s, step)
    ensures Inv(Apply(s, step))
  {
    var s' := Apply(s, step);
    forall h | h in s'.handles
      ensures HandleInv(s', h)
    {
      assert h in s.handles ==> HandleInv(s, h);
      if step.CloseCallback? {
        assert HandleInv(s, step.handle);
      }
      if step.Init? {
        assert OwnerInv(s, step.owner);
      }
      if step.OwnerCloses? {
        assert OwnerInv(s, step.owner);
      }
    }
    forall o | o in s'.owners
      ensures OwnerInv(s', o)
    {
      assert OwnerInv(s, o);
      if step.CloseCallback? {
        assert HandleInv(s, step.handle);
      }
    }
  }

  lemma {:induction false} LeadsKeepsInv(from: State, steps: seq<Step>, s: State)
    requires Leads(from, steps, s) && Inv(from)
    ensures Inv(s)
    decreases |steps|
  {
    if steps != [] {
      var k := |steps| - 1;
      var s0 :| Leads(from, steps[..k], s0) && Enabled(s0, steps[k]) && s == Apply(s0, steps[k]);
      LeadsKeepsInv(from, steps[..k], s0);
      StepKeepsInv(s0, steps[k]);
    }
  }

  /** Over any interleaving, `uv_close` is called at most once for a handle, and its memory is freed at
      most once: exactly when the callback of its owner's own close has run. */
  lemma ClosedAndFreedOnce(owners: set<nat>, steps: seq<Step>, s: State, h: nat)
    requires Leads(Initial(owners), steps, s) && h in s.handles
    ensures var x := s.handles[h];
            && x.closeCalls <= 1 && (x.closeCalls == 0 <==> x.phase == Active)
            && x.deletes <= 1 && (x.deletes == 1 <==> x.phase == Closed(true))
  {
    LeadsKeepsInv(Initial(owners), steps, s);
    assert HandleInv(s, h);
  }

  /** No open handle is forgotten: its owner still has it, and so can close it. */
  lemma OpenHandlesAreKept(owners: set<nat>, steps: seq<Step>, s: State, h: nat)
    requires Leads(Initial(owners), steps, s) && h in s.handles
    requires s.handles[h].phase == Active && s.handles[h].owner.Some?
    ensures var o := s.handles[h].owner.value;
            && o in s.owners && s.owners[o] == Some(h)
            && Enabled(s, OwnerCloses(o)) && Apply(s, OwnerCloses(o)).handles[h].phase == Closing(true)
  {
    LeadsKeepsInv(Initial(owners), steps, s);
    assert HandleInv(s, h);
  }

  /** A set `m_handle` never dangles. */
  lemma OwnersNeverDangle(owners: set<nat>, steps: seq<Step>, s: State, o: nat)
    requires Leads(Initial(owners), steps, s) && o in s.owners && s.owners[o].Some?
    ensures s.owners[o].value in s.handles && s.handles[s.owners[o].value].deletes == 0
  {
    LeadsKeepsInv(Initial(owners), steps, s);
    assert OwnerInv(s, o);
  }

  // ----- the event loop object

  predicate ClosingStep(step: Step) { !step.Init? && !step.InitAsync? }

  /** Some steps lead from `from` to `s` that create no handle. */
  ghost predicate ClosesTo(from: State, s: State) {
    exists steps :: Leads(from, steps, s) && forall step | step in steps :: ClosingStep(step)
  }

  lemma ClosesToSelf(s: State)
    ensures ClosesTo(s, s)
  {
    assert Leads(s, [], s);
  }

  lemma ClosesToStep(from: State, s: State, step: Step)
    requires ClosesTo(from, s) && Enabled(s, step) && ClosingStep(step)
    ensures ClosesTo(from, Apply(s, step))
  {
    var steps :| Leads(from, steps, s) && forall step | step in steps :: ClosingStep(step);
    LeadsSnoc(from, steps, s, step);
  }

  lemma {:induction false} LeadsTransitive(from: State, a: seq<Step>, mid: State, b: seq<Step>, s: State)
    requires Leads(from, a, mid) && Leads(mid, b, s)
    ensures Leads(from, a + b, s)
    decreases |b|
  {
    if b == [] {
      assert a + b == a;
    } else {
      var k := |b| - 1;
      var s0 :| Leads(mid, b[..k], s0) && Enabled(s0, b[k]) && s == Apply(s0, b[k]);
      LeadsTransitive(from, a, mid, b[..k], s0);
      LeadsSnoc(from, a + b[..k], s0, b[k]);
      AppendSnoc(a, b);
    }
  }

  lemma ClosesToTransitive(from: State, mid: State, s: State)
    requires ClosesTo(from, mid) && ClosesTo(mid, s)
    ensures ClosesTo(from, s)
  {
    var a :| Leads(from, a, mid) && forall step | step in a :: ClosingStep(step);
    var b :| Leads(mid, b, s) && forall step | step in b :: ClosingStep(step);
    LeadsTransitive(from, a, mid, b, s);
  }

  /** The owner has no handle, or its handle's close callback will free it. */
  predicate WillBeFreed(s: State, o: nat) {
    && o in s.owners
    && (s.owners[o].Some? ==> s.owners[o].value in s.handles && s.handles[s.owners[o].value].phase == Closing(true))
  }

  /** The owner's handle was closed by somebody else, whose callback does not free it. */
  predicate Abandoned(s: State, o: nat) {
    && o in s.owners && s.owners[o].Some? && s.owners[o].value in s.handles
    && s.handles[s.owners[o].value].phase in {Closing(false), Closed(false)}
  }

  /** A handle that the loop closes before its owner does is never freed. */
  lemma ClosedByTheLoopIsAbandoned() returns (steps: seq<Step>, s: State)
    ensures steps == [Init(0, 1), PlainClose(1), OwnerCloses(0), CloseCallback(1)] && Leads(Initial({0}), steps, s)
    ensures Abandoned(s, 0) && 1 in s.handles && s.handles[1] == Handle(Some(0), Closed(false), 1, 0)
  {
    var init := Initial({0});
    s, steps := init, [];
    LeadsSnoc(init, steps, s, Init(0, 1));
    s, steps := Apply(s, Init(0, 1)), steps + [Init(0, 1)];
    LeadsSnoc(init, steps, s, PlainClose(1));
    s, steps := Apply(s, PlainClose(1)), steps + [PlainClose(1)];
    LeadsSnoc(init, steps, s, OwnerCloses(0));
    s, steps := Apply(s, OwnerCloses(0)), steps + [OwnerCloses(0)];
    LeadsSnoc(init, steps, s, CloseCallback(1));
    s, steps := Apply(s, CloseCallback(1)), steps + [CloseCallback(1)];
  }

  lemma ClosingStepSettles(s: State, step: Step, o: nat)
    requires Inv(s) && Enabled(s, step) && ClosingStep(step)
    ensures WillBeFreed(s, o) ==> WillBeFreed(Apply(s, step), o)
    ensures Abandoned(s, o) ==> Abandoned(Apply(s, step), o)
  {
    if o in s.owners {
      assert OwnerInv(s, o);
      if step.CloseCallback? {
        assert HandleInv(s, step.handle);
      } else if step.OwnerCloses? {
        assert OwnerInv(s, step.owner);
      }
    }
  }

  predicate Settled(s: State, o: nat) { WillBeFreed(s, o) || Abandoned(s, o) }

  ghost predicate SameAbandoned(s: State, s': State) { forall o :: Abandoned(s', o) <==> Abandoned(s, o) }

  ghost predicate KeepsOwners(s: State, s': State) {
    forall h | h in s.handles :: h in s'.handles && s'.handles[h].owner == s.handles[h].owner
  }

  lemma CloseSettles(s: State, owner: nat)
    requires Inv(s) && Enabled(s, OwnerCloses(owner))
    ensures var s' := Apply(s, OwnerCloses(owner));
            && Settled(s', owner) && SameAbandoned(s, s') && KeepsOwners(s, s')
            && forall o | Settled(s, o) :: Settled(s', o)
  {
    assert OwnerInv(s, owner);
    var s' := Apply(s, OwnerCloses(owner));
    forall o
      ensures (Abandoned(s', o) <==> Abandoned(s, o)) && (Settled(s, o) ==> Settled(s', o))
    {
      if o in s.owners {
        assert OwnerInv(s, o);
      }
    }
  }

  lemma {:induction false} LeadsSettles(from: State, steps: seq<Step>, s: State, o: nat)
    requires Leads(from, steps, s) && Inv(from) && forall step | step in steps :: ClosingStep(step)
    ensures WillBeFreed(from, o) ==> WillBeFreed(s, o)
    ensures Abandoned(from, o) ==> Abandoned(s, o)
    decreases |steps|
  {
    if steps != [] {
      var k := |steps| - 1;
      var s0 :| Leads(from, steps[..k], s0) && Enabled(s0, steps[k]) && s == Apply(s0, steps[k]);
      LeadsKeepsInv(from, steps[..k], s0);
      LeadsSettles(from, steps[..k], s0, o);
      ClosingStepSettles(s0, steps[k], o);
    }
  }

  /** Once every handle is closed, an owner that closed its own handle has none left. */
  lemma SettledOwners(from: State, s: State, o: nat)
    requires ClosesTo(from, s) && Inv(from)
    ensures WillBeFreed(from, o) ==> WillBeFreed(s, o)
    ensures Abandoned(from, o) ==> Abandoned(s, o)
    ensures WillBeFreed(from, o) && Unclosed(s) == {} ==> s.owners[o] == None
  {
    var steps :| Leads(from, steps, s) && forall step | step in steps :: ClosingStep(step);
    LeadsSettles(from, steps, s, o);
    assert forall h | h in s.handles && s.handles[h].phase == Closing(true) :: h in Unclosed(s);
  }

  function Unclosed(s: State): set<nat> { set h | h in s.handles && !s.handles[h].phase.Closed? }

  function ClosingHandles(s: State): set<nat> { set h | h in s.handles && s.handles[h].phase.Closing? }

  lemma PlainCloseOnSets(s: State, h: nat)
    requires h in Unclosed(s)
    ensures Enabled(s, PlainClose(h))
    ensures var s' := Apply(s, PlainClose(h));
            && Unclosed(s') == Unclosed(s) && ClosingHandles(s') == ClosingHandles(s) + {h}
            && s'.owners == s.owners
  {
  }

  lemma CallbackOnSets(s: State, h: nat)
    requires Inv(s) && h in ClosingHandles(s)
    ensures Enabled(s, CloseCallback(h))
    ensures var s' := Apply(s, CloseCallback(h));
            Unclosed(s') == Unclosed(s) - {h} && ClosingHandles(s') == ClosingHandles(s) - {h}
  {
    assert HandleInv(s, h);
    if s.handles[h].phase == Closing(true) {
      assert s.owners[s.handles[h].owner.value] == Some(h);
    }
  }

  lemma StrictSubsetIsSmaller(a: set<nat>, b: set<nat>)
    requires a < b
    ensures |a| < |b|
  {
    assert !(b <= a);
    var x :| x in b && x !in a;
    assert a <= b - {x};
    SubsetIsSmaller(a, b - {x});
  }

  lemma SubsetIsSmaller(a: set<nat>, b: set<nat>)
    requires a <= b
    ensures |a| <= |b|
  {
    assert b == a + (b - a);
  }

  class EventLoop {
    /** `m_handle` is set. */
    var open: bool
    var handles: map<nat, Handle>
    /** The `m_handle` fields of the timers and signal handlers on this loop. */
    var owners: map<nat, Option<nat>>
    var handlesToClose: set<nat>

    function Value(): State
      reads this
    {
      State(handles, owners)
    }

    /** `UvTimer::init` and `UvSignalHandler::init`, given a handle just allocated. */
    method InitHandle(owner: nat, handle: nat) returns (ok: bool)
      requires owner in owners && handle !in handles
      modifies this`handles, this`owners
      ensures Value() == Apply(old(Value()), Init(owner, handle))
      ensures ok <==> old(owners)[owner].None?
    {
      if owners[owner].Some? {
        return false;
      }
      owners := owners[owner := Some(handle)];
      handles := handles[handle := Handle(Some(owner), Active, 0, 0)];
      ok := true;
    }

    /** `UvTimer::close` and `UvSignalHandler::close`. */
    method CloseOwner(owner: nat)
      requires owner in owners && Inv(Value())
      modifies this`handles
      ensures Enabled(old(Value()), OwnerCloses(owner)) && Value() == Apply(old(Value()), OwnerCloses(owner))
      ensures Inv(Value())
    {
      assert OwnerInv(Value(), owner);
      StepKeepsInv(Value(), OwnerCloses(owner));
      if owners[owner].None? {
        return;
      }
      var h := owners[owner].value;
      if handles[h].phase.Active? {
        handles := handles[h := handles[h].(phase := Closing(true), closeCalls := handles[h].closeCalls + 1)];
      } else {
        assert handles == handles[h := handles[h]];
      }
    }

    /** The close callback of one handle. */
    method RunCloseCallback(h: nat)
      requires Inv(Value()) && h in ClosingHandles(Value())
      modifies this`handles, this`owners
      ensures Enabled(old(Value()), CloseCallback(h)) && Value() == Apply(old(Value()), CloseCallback(h))
      ensures Inv(Value())
    {
      CallbackOnSets(Value(), h);
      StepKeepsInv(Value(), CloseCallback(h));
      assert HandleInv(Value(), h);
      var x := handles[h];
      handles := handles[h := x.(phase := Closed(x.phase.ownerCallback))];
      if x.phase.ownerCallback && x.owner.Some? && owners[x.owner.value].Some? {
        var g := owners[x.owner.value].value;
        handles := handles[g := handles[g].(deletes := handles[g].deletes + 1)];
        owners := owners[x.owner.value := None];
      }
    }

    /** `uv_walk` with `closeOpenHandlesUvWalkCallback`. */
    method WalkAndClose()
      requires Inv(Value())
      modifies this`handles, this`handlesToClose
      ensures ClosesTo(old(Value()), Value()) && Inv(Value())
      ensures handlesToClose == old(handlesToClose) + Unclosed(old(Value()))
      ensures Unclosed(Value()) == Unclosed(old(Value())) == ClosingHandles(Value())
    {
      var todo := Unclosed(Value());
      ClosesToSelf(Value());
      while todo != {}
        invariant todo <= Unclosed(Value()) == Unclosed(old(Value()))
        invariant Unclosed(Value()) - todo <= ClosingHandles(Value())
        invariant handlesToClose == old(handlesToClose) + (Unclosed(Value()) - todo)
        invariant ClosesTo(old(Value()), Value()) && Inv(Value())
        decreases todo
      {
        var h :| h in todo;
        todo := todo - {h};
        handlesToClose := handlesToClose + {h};
        PlainCloseOnSets(Value(), h);
        ClosesToStep(old(Value()), Value(), PlainClose(h));
        StepKeepsInv(Value(), PlainClose(h));
        handles := handles[h := CloseOnce(handles[h], false)];
      }
    }

    /** `uv_run(UV_RUN_NOWAIT)`: at least one closing handle gets its callback. Failure means that the
        loop is still alive. */
    method RunSingleIteration() returns (ok: bool)
      requires Inv(Value())
      modifies this`handles, this`owners
      ensures ClosesTo(old(Value()), Value()) && Inv(Value())
      ensures Unclosed(Value()) <= Unclosed(old(Value())) && handles.Keys == old(handles).Keys
      ensures ClosingHandles(old(Value())) != {} ==> Unclosed(Value()) < Unclosed(old(Value()))
      ensures ok ==> ClosingHandles(Value()) == {}
      ensures Unclosed(Value()) == {} ==> ok
    {
      ClosesToSelf(Value());
      var todo := ClosingHandles(Value());
      var first := true;
      while todo != {}
        invariant todo <= ClosingHandles(Value())
        invariant Unclosed(Value()) <= Unclosed(old(Value())) && handles.Keys == old(handles).Keys
        invariant first ==> Value() == old(Value()) && todo == ClosingHandles(Value())
        invariant !first ==> Unclosed(Value()) < Unclosed(old(Value()))
        invariant ClosesTo(old(Value()), Value()) && Inv(Value())
        decreases todo
      {
        var h :| h in todo;
        todo := todo - {h};
        var now: bool := *;
        if first || now {
          CallbackOnSets(Value(), h);
          ClosesToStep(old(Value()), Value(), CloseCallback(h));
          assert h in Unclosed(Value());
          RunCloseCallback(h);
          first := false;
        }
      }
      ok := *;
      if Unclosed(Value()) == {} {
        ok := true;
      } else if ClosingHandles(Value()) != {} {
        ok := false;
      }
    }

    /** Terminates, after at most one round more than there were handles, with every handle closed. */
    method CloseOpenHandles() returns (ok: bool, rounds: nat)
      requires Inv(Value())
      modifies this`handles, this`owners, this`handlesToClose
      ensures ClosesTo(old(Value()), Value()) && Inv(Value())
      ensures ok <==> open
      ensures !ok ==> Value() == old(Value())
      ensures ok ==> Unclosed(Value()) == {}
      ensures rounds <= |Unclosed(old(Value()))| + 1
    {
      ClosesToSelf(Value());
      rounds := 0;
      if !open {
        return false, 0;
      }
      handlesToClose := {};
      WalkAndClose();
      while handlesToClose != {}
        invariant ClosesTo(old(Value()), Value()) && Inv(Value())
        invariant handlesToClose == {} ==> Unclosed(Value()) == {}
        invariant rounds + |Unclosed(Value())| + (if handlesToClose == {} then 0 else 1) <= |Unclosed(old(Value()))| + 1
        decreases Unclosed(Value()), handlesToClose
      {
        ghost var before := Value();
        handlesToClose := {};
        WalkAndClose();
        ghost var walked := Value();
        var _ := RunSingleIteration();
        ClosesToTransitive(old(Value()), before, walked);
        ClosesToTransitive(old(Value()), walked, Value());
        if Unclosed(before) != {} {
          StrictSubsetIsSmaller(Unclosed(Value()), Unclosed(before));
        }
        rounds := rounds + 1;
      }
      ok := true;
    }

    /** `UvEventLoop::close`. */
    method Close() returns (ok: bool)
      requires Inv(Value())
      modifies this`open, this`handles, this`owners
      ensures ClosesTo(old(Value()), Value()) && Inv(Value())
      ensures !old(open) ==> ok && Value() == old(Value())
      ensures old(open) ==> (ok <==> Unclosed(Value()) == {})
      ensures open <==> !ok
      ensures Unclosed(Value()) <= Unclosed(old(Value()))
    {
      ClosesToSelf(Value());
      if !open {
        return true;
      }
      var ran := RunSingleIteration();
      if !ran {
        return false;
      }
      if Unclosed(Value()) != {} { // uv_loop_close: busy
        return false;
      }
      open := false;
      ok := true;
    }

    /** `UvCoreApplication::close`: whatever is still open, the loop ends up closed and freed. Of the
        application's signal handlers those have no handle left whose handle nobody else closed before. */
    method CloseApplication(handlers: seq<nat>, asyncHandle: nat) returns (ok: bool)
      requires Inv(Value())
      requires forall k :: 0 <= k < |handlers| ==> handlers[k] in owners
      requires asyncHandle in handles && handles[asyncHandle].owner.None?
      modifies this
      ensures ClosesTo(old(Value()), Value()) && Inv(Value())
      ensures ok && !open
      ensures old(open) ==> Unclosed(Value()) == {}
      ensures old(open) ==>
                forall k :: 0 <= k < |handlers| ==>
                  && handlers[k] in owners
                  && (owners[handlers[k]] == None <==> !Abandoned(old(Value()), handlers[k]))
    {
      CloseHandlers(handlers);
      ghost var s0 := Value();
      assert Enabled(s0, PlainClose(asyncHandle));
      ClosesToStep(old(Value()), s0, PlainClose(asyncHandle));
      StepKeepsInv(s0, PlainClose(asyncHandle));
      handles := handles[asyncHandle := CloseOnce(handles[asyncHandle], false)];
      ok := true;
      if open {
        ghost var s1 := Value();
        var _ := RunSingleIteration();
        ClosesToTransitive(old(Value()), s1, Value());
        ghost var s2 := Value();
        var _, _ := CloseOpenHandles();
        ClosesToTransitive(old(Value()), s2, Value());
        ghost var s3 := Value();
        ok := Close();
        ClosesToTransitive(old(Value()), s3, Value());
        ClosesToSelf(s0);
        ClosesToStep(s0, s0, PlainClose(asyncHandle));
        ClosesToTransitive(s0, s1, s2);
        ClosesToTransitive(s0, s2, s3);
        ClosesToTransitive(s0, s3, Value());
        forall k | 0 <= k < |handlers|
          ensures handlers[k] in owners && (owners[handlers[k]] == None <==> !Abandoned(old(Value()), handlers[k]))
        {
          SettledOwners(s0, Value(), handlers[k]);
        }
      }
    }

    /** Closing the application's signal handlers. */
    method CloseHandlers(handlers: seq<nat>)
      requires Inv(Value())
      requires forall k :: 0 <= k < |handlers| ==> handlers[k] in owners
      modifies this`handles
      ensures ClosesTo(old(Value()), Value()) && Inv(Value())
      ensures KeepsOwners(old(Value()), Value()) && SameAbandoned(old(Value()), Value())
      ensures forall k :: 0 <= k < |handlers| ==> Settled(Value(), handlers[k])
    {
      ClosesToSelf(Value());
      for k := 0 to |handlers|
        invariant ClosesTo(old(Value()), Value()) && Inv(Value()) && owners == old(owners)
        invariant KeepsOwners(old(Value()), Value()) && SameAbandoned(old(Value()), Value())
        invariant forall i :: 0 <= i < k ==> Settled(Value(), handlers[i])
      {
        ghost var before := Value();
        CloseOwner(handlers[k]);
        ClosesToStep(old(Value()), before, OwnerCloses(handlers[k]));
        CloseSettles(before, handlers[k]);
      }
    }
  }
}
