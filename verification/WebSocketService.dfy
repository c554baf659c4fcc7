/** Sending threads against the service thread: `send` pushes under the client's lock and then calls
    `lws_cancel_service`; `work` scans all clients, asks for writeable callbacks and enters
    `lws_service`, where each writeable callback pops one packet and then re-checks the list.

    Rules taken for libwebsockets: a requested writeable callback stays requested until it runs; a
    cancel stays pending until a service call consumes it; the call that consumes it returns without
    blocking again; callbacks run only inside the service call. */
module WebSocketService {
  import opened Sequences
  import opened WebSocketFrames

  /** Why a connection ended: by the peer, by a failed write, after the final packet of an HTTP answer, or
      because the handling of an HTTP request queued nothing. */
  datatype Ended = NotYet | Disconnected | WriteFailed | Answered | NothingQueued

  /** The packets popped for a client, those of them written, its writeable callbacks so far, and its end. */
  datatype Traffic = Traffic(popped: seq<LwsPacket>, written: seq<LwsPacket>, callbacks: nat, ended: Ended)

  datatype Client = Client(http: bool, open: bool, list: seq<LwsPacket>, requested: bool, traffic: Traffic)

  datatype Service =
    | Scan(left: set<nat>)
    | InService(mustReturn: bool)
    | Writing(client: nat, mustReturn: bool, final: bool)

  datatype Sending = Idle | Pushing(client: nat, pushed: nat, rest: seq<LwsPacket>)

  datatype State = State(clients: map<nat, Client>, service: Service, cancel: bool, senders: map<nat, Sending>)

  datatype Step =
    | SendBegins(sender: nat, client: nat, packets: seq<LwsPacket>)
    | SendPushes(sender: nat)
    | SendCancels(sender: nat)
    | ScanOne(client: nat)
    | EnterService
    | ConsumeCancel
    | WriteableRuns(client: nat)
    | WriteDone(ok: bool)
    | ServiceReturns
    | Connects(client: nat, http: bool)
    | HttpHandled(client: nat)
    | Disconnects(client: nat)

  function OpenClients(s: State): set<nat> { set c | c in s.clients && s.clients[c].open }

  predicate Enabled(s: State, step: Step) {
    match step
    case SendBegins(i, c, ps) => i in s.senders && s.senders[i].Idle? && c in s.clients && ps != []
    case SendPushes(i) =>
      i in s.senders && s.senders[i].Pushing? && s.senders[i].rest != [] && s.senders[i].client in s.clients
    case SendCancels(i) => i in s.senders && s.senders[i].Pushing? && s.senders[i].rest == []
    case ScanOne(c) => s.service.Scan? && c in s.service.left && c in s.clients
    case EnterService => s.service == Scan({})
    case ConsumeCancel => s.service.InService? && s.cancel
    case WriteableRuns(c) => s.service.InService? && c in s.clients && s.clients[c].open && s.clients[c].requested
    case WriteDone(ok) => s.service.Writing? && s.service.client in s.clients
    case ServiceReturns => s.service.InService?
    case Connects(c, http) => s.service.InService? && c !in s.clients
    case HttpHandled(c) => s.service.InService? && c in s.clients && s.clients[c].http && s.clients[c].open
    case Disconnects(c) => s.service.InService? && c in s.clients
  }

  function Close(x: Client, ended: Ended): Client {
    if x.open then x.(open := false, traffic := x.traffic.(ended := ended)) else x
  }

  /** The part of the writeable callback before `lws_write`: it pops a packet, if there is one. */
  function CalledBack(x: Client): Client {
    var t := x.traffic.(callbacks := x.traffic.callbacks + 1);
    if x.list == [] then x.(requested := false, traffic := t)
    else x.(requested := false, list := x.list[1..], traffic := t.(popped := t.popped + [x.list[0]]))
  }

  /** The part after `lws_write`: a failed write closes the connection, and so does the end of an HTTP answer. */
  function Wrote(x: Client, ok: bool, final: bool): Client {
    if !ok then Close(x, WriteFailed)
    else
      var t := x.traffic;
      var y := x.(traffic := if t.popped == [] then t else t.(written := t.written + [t.popped[|t.popped| - 1]]));
      if x.http && final then Close(y, Answered)
      else y.(requested := x.requested || x.list != [])
  }

  function Apply(s: State, step: Step): State
    requires Enabled(s, step)
  {
    match step
    case SendBegins(i, c, ps) => s.(senders := s.senders[i := Pushing(c, 0, ps)])
    case SendPushes(i) =>
      var x := s.senders[i];
      var c := s.clients[x.client];
      s.(senders := s.senders[i := Pushing(x.client, x.pushed + 1, x.rest[1..])],
         clients := s.clients[x.client := c.(list := c.list + [x.rest[0]])])
    case SendCancels(i) => s.(senders := s.senders[i := Idle], cancel := true)
    case ScanOne(c) =>
      var x := s.clients[c];
      s.(service := Scan(s.service.left - {c}),
         clients := s.clients[c := x.(requested := x.requested || x.list != [])])
    case EnterService => s.(service := InService(false))
    case ConsumeCancel => s.(cancel := false, service := InService(true))
    case WriteableRuns(c) =>
      var x := s.clients[c];
      s.(clients := s.clients[c := CalledBack(x)],
         service := if x.list == [] then s.service else Writing(c, s.service.mustReturn, x.list[0].isFinal))
    case WriteDone(ok) =>
      var c := s.service.client;
      var x := s.clients[c];
      var x' := Wrote(x, ok, s.service.final);
      s.(clients := s.clients[c := x'], service := InService(s.service.mustReturn))
    case ServiceReturns => s.(service := Scan(OpenClients(s)))
    case Connects(c, http) => s.(clients := s.clients[c := Client(http, true, [], !http, Traffic([], [], 0, NotYet))])
    case HttpHandled(c) =>
      var x := s.clients[c];
      s.(clients := s.clients[c := if x.list != [] then x.(requested := true) else Close(x, NothingQueued)])
    case Disconnects(c) => s.(clients := s.clients[c := Close(s.clients[c], Disconnected)])
  }

  function Initial(threads: set<nat>): State {
    State(map[], Scan({}), false, map i | i in threads :: Idle)
  }

  ghost predicate Reaches(threads: set<nat>, steps: seq<Step>, s: State) {
    if steps == [] then s == Initial(threads)
    else
      var k := |steps| - 1;
      exists s0 :: Reaches(threads, steps[..k], s0) && Enabled(s0, steps[k]) && s == Apply(s0, steps[k])
  }

  /** Some sender has pushed to client c and has not yet called `lws_cancel_service`. */
  ghost predicate BetweenPushAndCancel(s: State, c: nat) {
    exists i :: i in s.senders && s.senders[i].Pushing? && s.senders[i].client == c && s.senders[i].pushed > 0
  }

  ghost predicate WillBeLookedAt(s: State, c: nat) {
    || (c in s.clients && s.clients[c].requested)
    || s.cancel
    || (match s.service
        case Scan(left) => c in left
        case InService(mustReturn) => mustReturn
        case Writing(d, mustReturn, _) => mustReturn || d == c)
    || BetweenPushAndCancel(s, c)
  }

  ghost predicate Inv(s: State) {
    && (forall c | c in s.clients && s.clients[c].open && s.clients[c].list != [] :: WillBeLookedAt(s, c))
    && (s.service.Writing? ==> s.service.client in s.clients)
  }

  lemma PushIsAnnounced(s: State, i: nat)
    requires Enabled(s, SendPushes(i)) && Inv(s)
    ensures Inv(Apply(s, SendPushes(i)))
  {
    var s' := Apply(s, SendPushes(i));
    var x' := s'.senders[i];
    assert BetweenPushAndCancel(s', x'.client);
    forall c | c in s'.clients && s'.clients[c].open && s'.clients[c].list != []
      ensures WillBeLookedAt(s', c)
    {
      if c != x'.client && BetweenPushAndCancel(s, c) {
        var j :| j in s.senders && s.senders[j].Pushing? && s.senders[j].client == c && s.senders[j].pushed > 0;
        assert s'.senders[j] == s.senders[j];
      }
    }
  }

  lemma SendersUntouched(s: State, s': State, c: nat)
    requires s'.senders == s.senders && BetweenPushAndCancel(s, c)
    ensures BetweenPushAndCancel(s', c)
  {
  }

  lemma OtherStepsKeepInv(s: State, step: Step)
    requires Inv(s) && Enabled(s, step) && !step.SendPushes?
    ensures Inv(Apply(s, step))
  {
    var s' := Apply(s, step);
    forall c | c in s'.clients && s'.clients[c].open && s'.clients[c].list != []
      ensures WillBeLookedAt(s', c)
    {
      assert c in s.clients && s.clients[c].open && s.clients[c].list != [];
      assert WillBeLookedAt(s, c);
      if step.SendBegins? && BetweenPushAndCancel(s, c) {
        var j :| j in s.senders && s.senders[j].Pushing? && s.senders[j].client == c && s.senders[j].pushed > 0;
        assert s'.senders[j] == s.senders[j];
      } else if !step.SendCancels? && BetweenPushAndCancel(s, c) {
        SendersUntouched(s, s', c);
      }
    }
  }

  lemma {:induction false} ReachableStatesSatisfyInv(threads: set<nat>, steps: seq<Step>, s: State)
    requires Reaches(threads, steps, s)
    ensures Inv(s)
    decreases |steps|
  {
    if steps != [] {
      var k := |steps| - 1;
      var s0 :| Reaches(threads, steps[..k], s0) && Enabled(s0, steps[k]) && s == Apply(s0, steps[k]);
      ReachableStatesSatisfyInv(threads, steps[..k], s0);
      if steps[k].SendPushes? {
        PushIsAnnounced(s0, steps[k].sender);
      } else {
        OtherStepsKeepInv(s0, steps[k]);
      }
    }
  }

  /** In every reachable state queued data of an open client is about to be looked at by someone. */
  lemma NoStuckData(threads: set<nat>, steps: seq<Step>, s: State, c: nat)
    requires Reaches(threads, steps, s)
    requires c in s.clients && s.clients[c].open && s.clients[c].list != []
    ensures || s.clients[c].requested
            || s.cancel
            || (s.service.Scan? && c in s.service.left)
            || (s.service.InService? && s.service.mustReturn)
            || (s.service.Writing? && (s.service.mustReturn || s.service.client == c))
            || BetweenPushAndCancel(s, c)
  {
    ReachableStatesSatisfyInv(threads, steps, s);
    assert WillBeLookedAt(s, c);
  }

  /** The service call has nothing to react to and every sender is done. */
  ghost predicate Quiescent(s: State) {
    && s.service == InService(false) && !s.cancel
    && (forall c | c in s.clients && s.clients[c].open :: !s.clients[c].requested)
    && (forall i | i in s.senders :: s.senders[i].Idle?)
  }

  /** The service thread can only block for good when every open client's list is empty. */
  lemma BlockedMeansDrained(threads: set<nat>, steps: seq<Step>, s: State)
    requires Reaches(threads, steps, s) && Quiescent(s)
    ensures forall c | c in s.clients && s.clients[c].open :: s.clients[c].list == []
  {
    ReachableStatesSatisfyInv(threads, steps, s);
    forall c | c in s.clients && s.clients[c].open
      ensures s.clients[c].list == []
    {
      assert s.clients[c].list != [] ==> WillBeLookedAt(s, c);
    }
  }

  // ----- progress over runs

  /** The steps lead from `from` to `s`. */
  ghost predicate Leads(from: State, steps: seq<Step>, s: State) {
    if steps == [] then s == from
    else
      var k := |steps| - 1;
      exists s0 :: Leads(from, steps[..k], s0) && Enabled(s0, steps[k]) && s == Apply(s0, steps[k])
  }

  /** All packets ever queued for a client. */
  function Stream(x: Client): seq<LwsPacket> { x.traffic.popped + x.list }

  /** From x to y packets were only appended and popped in order; each callback popped one as long as
      there were any of those queued in x; and a request stays until a callback or the end. */
  ghost predicate Progressed(x: Client, y: Client) {
    && x.traffic.popped <= y.traffic.popped && Stream(x) <= Stream(y)
    && x.traffic.callbacks <= y.traffic.callbacks
    && (|y.traffic.popped| >= |Stream(x)|
        || |y.traffic.popped| - |x.traffic.popped| >= y.traffic.callbacks - x.traffic.callbacks)
    && (x.requested && y.open && y.traffic.callbacks == x.traffic.callbacks ==> y.requested)
    && (y.open ==> x.open) && x.http == y.http
  }

  lemma PushProgresses(x: Client, y: Client, p: LwsPacket)
    requires Progressed(x, y)
    ensures Progressed(x, y.(list := y.list + [p]))
  {
    assert Stream(y.(list := y.list + [p])) == Stream(y) + [p];
  }

  lemma CallbackProgresses(x: Client, y: Client)
    requires Progressed(x, y)
    ensures Progressed(x, CalledBack(y))
  {
    if y.list != [] {
      assert y.traffic.popped + y.list == y.traffic.popped + [y.list[0]] + y.list[1..];
    }
  }

  /** What is queued and popped stays, and a request is kept or the connection ended. */
  predicate OtherwiseChanged(y: Client, y': Client) {
    && y'.list == y.list && y'.http == y.http
    && y'.traffic.popped == y.traffic.popped && y'.traffic.callbacks == y.traffic.callbacks
    && (y'.open ==> y.open) && (y.requested ==> y'.requested || !y'.open)
  }

  lemma OtherwiseProgresses(x: Client, y: Client, y': Client)
    requires Progressed(x, y) && OtherwiseChanged(y, y')
    ensures Progressed(x, y')
  {
  }

  predicate PushesTo(s: State, step: Step, c: nat) {
    step.SendPushes? && Enabled(s, step) && s.senders[step.sender].client == c
  }

  /** What a step does to one client. */
  lemma StepOnClient(s: State, step: Step, c: nat)
    requires Enabled(s, step) && c in s.clients
    ensures c in Apply(s, step).clients
    ensures var y := s.clients[c];
            var y' := Apply(s, step).clients[c];
            if PushesTo(s, step, c) then y' == y.(list := y.list + [s.senders[step.sender].rest[0]])
            else if step == WriteableRuns(c) then y' == CalledBack(y)
            else OtherwiseChanged(y, y')
  {
  }

  lemma StepProgresses(x: Client, s: State, step: Step, c: nat)
    requires Enabled(s, step) && c in s.clients && Progressed(x, s.clients[c])
    ensures c in Apply(s, step).clients && Progressed(x, Apply(s, step).clients[c])
  {
    StepOnClient(s, step, c);
    var y := s.clients[c];
    if PushesTo(s, step, c) {
      PushProgresses(x, y, s.senders[step.sender].rest[0]);
    } else if step == WriteableRuns(c) {
      CallbackProgresses(x, y);
    } else {
      OtherwiseProgresses(x, y, Apply(s, step).clients[c]);
    }
  }

  lemma {:induction false} RunProgresses(from: State, steps: seq<Step>, s: State, c: nat)
    requires Leads(from, steps, s) && c in from.clients
    ensures c in s.clients && Progressed(from.clients[c], s.clients[c])
    decreases |steps|
  {
    if steps != [] {
      var k := |steps| - 1;
      var s0 :| Leads(from, steps[..k], s0) && Enabled(s0, steps[k]) && s == Apply(s0, steps[k]);
      RunProgresses(from, steps[..k], s0, c);
      StepProgresses(from.clients[c], s0, steps[k], c);
    }
  }

  predicate WritesTo(s: State, c: nat) { s.service.Writing? && s.service.client == c }

  /** Every popped packet was written, but for the last one when its write is under way. */
  predicate WrittenFits(t: Traffic, writing: bool) {
    t.written == if writing && t.popped != [] then t.popped[..|t.popped| - 1] else t.popped
  }

  ghost predicate WrittenInv(s: State) {
    && (s.service.Writing? ==> s.service.client in s.clients && s.clients[s.service.client].traffic.popped != [])
    && (forall c | c in s.clients && s.clients[c].open :: WrittenFits(s.clients[c].traffic, WritesTo(s, c)))
  }

  lemma CalledBackFits(x: Client)
    requires WrittenFits(x.traffic, false)
    ensures WrittenFits(CalledBack(x).traffic, x.list != [])
  {
  }

  lemma WroteFits(x: Client, ok: bool, final: bool)
    requires WrittenFits(x.traffic, true) && x.traffic.popped != []
    ensures Wrote(x, ok, final).open ==> WrittenFits(Wrote(x, ok, final).traffic, false)
  {
    var p := x.traffic.popped;
    assert p == p[..|p| - 1] + [p[|p| - 1]];
  }

  lemma StepKeepsWritten(s: State, step: Step)
    requires WrittenInv(s) && Enabled(s, step)
    ensures WrittenInv(Apply(s, step))
  {
    var s' := Apply(s, step);
    forall c | c in s'.clients && s'.clients[c].open
      ensures WrittenFits(s'.clients[c].traffic, WritesTo(s', c))
    {
      if step == WriteableRuns(c) {
        CalledBackFits(s.clients[c]);
      } else if step.WriteDone? && s.service.client == c && s.clients[c].open {
        WroteFits(s.clients[c], step.ok, s.service.final);
      }
    }
  }

  lemma {:induction false} ReachableStatesHaveWritten(threads: set<nat>, steps: seq<Step>, s: State)
    requires Reaches(threads, steps, s)
    ensures WrittenInv(s)
    decreases |steps|
  {
    if steps != [] {
      var k := |steps| - 1;
      var s0 :| Reaches(threads, steps[..k], s0) && Enabled(s0, steps[k]) && s == Apply(s0, steps[k]);
      ReachableStatesHaveWritten(threads, steps[..k], s0);
      StepKeepsWritten(s0, steps[k]);
    }
  }

  /** What an HTTP client was sent ends with the first final packet, and the connection with it. */
  predicate OneAnswer(x: Client) {
    x.http ==> forall k :: 0 <= k < |x.traffic.written| && x.traffic.written[k].isFinal ==>
                 k == |x.traffic.written| - 1 && !x.open
  }

  ghost predicate AnswersInv(s: State) {
    && (forall c | c in s.clients :: OneAnswer(s.clients[c]))
    && (s.service.Writing? ==>
          && s.service.client in s.clients && s.clients[s.service.client].open
          && var t := s.clients[s.service.client].traffic;
             t.popped != [] && s.service.final == t.popped[|t.popped| - 1].isFinal)
  }

  lemma WroteKeepsOneAnswer(x: Client, ok: bool, final: bool)
    requires OneAnswer(x) && x.open
    requires x.traffic.popped != [] && final == x.traffic.popped[|x.traffic.popped| - 1].isFinal
    ensures OneAnswer(Wrote(x, ok, final))
  {
  }

  lemma StepKeepsAnswers(s: State, step: Step)
    requires AnswersInv(s) && Enabled(s, step)
    ensures AnswersInv(Apply(s, step))
  {
    var s' := Apply(s, step);
    forall c | c in s'.clients
      ensures OneAnswer(s'.clients[c])
    {
      if step.WriteDone? && s.service.client == c {
        WroteKeepsOneAnswer(s.clients[c], step.ok, s.service.final);
      } else if c in s.clients {
        assert OneAnswer(s.clients[c]);
        StepOnClient(s, step, c);
      }
    }
  }

  /** An HTTP client is written at most one final packet, as its last: the answer of a second handler is
      dropped. */
  lemma {:induction false} HttpClientsGetOneAnswer(threads: set<nat>, steps: seq<Step>, s: State)
    requires Reaches(threads, steps, s)
    ensures AnswersInv(s)
    decreases |steps|
  {
    if steps != [] {
      var k := |steps| - 1;
      var s0 :| Reaches(threads, steps[..k], s0) && Enabled(s0, steps[k]) && s == Apply(s0, steps[k]);
      HttpClientsGetOneAnswer(threads, steps[..k], s0);
      StepKeepsAnswers(s0, steps[k]);
    }
  }

  /** A closed client stays closed and gets nothing more, whatever is queued for it. */
  lemma ClosedClientsGetNothing(s: State, step: Step, c: nat)
    requires AnswersInv(s) && Enabled(s, step) && c in s.clients && !s.clients[c].open
    ensures c in Apply(s, step).clients && !Apply(s, step).clients[c].open
    ensures Apply(s, step).clients[c].traffic == s.clients[c].traffic
  {
  }

  /** A writeable callback that nobody interrupts, from popping to the result of its write. */
  function WholeCallback(x: Client, ok: bool): Client {
    if x.list == [] then CalledBack(x) else Wrote(CalledBack(x), ok, x.list[0].isFinal)
  }

  lemma WholeCallbackIsARun(s: State, c: nat, ok: bool)
    requires Enabled(s, WriteableRuns(c))
    ensures var s1 := Apply(s, WriteableRuns(c));
            if s.clients[c].list == [] then s1.clients == s.clients[c := WholeCallback(s.clients[c], ok)]
            else Enabled(s1, WriteDone(ok))
                 && Apply(s1, WriteDone(ok)).clients == s.clients[c := WholeCallback(s.clients[c], ok)]
  {
  }

  lemma ReachesSnoc(threads: set<nat>, steps: seq<Step>, s: State, step: Step)
    requires Reaches(threads, steps, s) && Enabled(s, step)
    ensures Reaches(threads, steps + [step], Apply(s, step))
  {
    assert (steps + [step])[..|steps|] == steps;
  }

  lemma {:induction false} ReachesOn(threads: set<nat>, before: seq<Step>, from: State, steps: seq<Step>, s: State)
    requires Reaches(threads, before, from) && Leads(from, steps, s)
    ensures Reaches(threads, before + steps, s)
    decreases |steps|
  {
    if steps == [] {
      assert before + steps == before;
    } else {
      var k := |steps| - 1;
      var s0 :| Leads(from, steps[..k], s0) && Enabled(s0, steps[k]) && s == Apply(s0, steps[k]);
      ReachesOn(threads, before, from, steps[..k], s0);
      ReachesSnoc(threads, before + steps[..k], s0, steps[k]);
      AppendSnoc(before, steps);
    }
  }

  /** The packets queued for a client in a reachable state are written in order, one for each of its
      writeable callbacks, whatever senders and other clients do meanwhile; only the last one's write may
      be under way. A client that is still open has had no failed write. */
  lemma CallbacksDrain(threads: set<nat>, before: seq<Step>, from: State, steps: seq<Step>, s: State, c: nat)
    requires Reaches(threads, before, from) && Leads(from, steps, s)
    requires c in from.clients && c in s.clients && s.clients[c].open
    ensures var x := from.clients[c];
            var y := s.clients[c];
            && x.traffic.callbacks <= y.traffic.callbacks
            && var k := y.traffic.callbacks - x.traffic.callbacks;
            && x.traffic.popped + x.list[..if k < |x.list| then k else |x.list|] <= y.traffic.popped
            && WrittenFits(y.traffic, WritesTo(s, c))
  {
    RunProgresses(from, steps, s, c);
    ReachesOn(threads, before, from, steps, s);
    ReachableStatesHaveWritten(threads, before + steps, s);
    PrefixOfStream(from.clients[c], s.clients[c]);
  }

  lemma PrefixOfStream(x: Client, y: Client)
    requires Progressed(x, y)
    ensures var k := y.traffic.callbacks - x.traffic.callbacks;
            x.traffic.popped + x.list[..if k < |x.list| then k else |x.list|] <= y.traffic.popped
  {
    var k := y.traffic.callbacks - x.traffic.callbacks;
    var n := if k < |x.list| then k else |x.list|;
    var front := x.traffic.popped + x.list[..n];
    assert front == Stream(x)[..|front|];
    assert y.traffic.popped == Stream(y)[..|y.traffic.popped|];
    assert front <= y.traffic.popped;
  }

  /** A requested callback stays requested until it runs or the connection ends. */
  lemma RequestsAreKept(from: State, steps: seq<Step>, s: State, c: nat)
    requires Leads(from, steps, s) && c in from.clients && from.clients[c].requested
    ensures c in s.clients
    ensures || s.clients[c].requested || !s.clients[c].open
            || s.clients[c].traffic.callbacks > from.clients[c].traffic.callbacks
  {
    RunProgresses(from, steps, s, c);
  }
}
