/** What the service thread and the senders achieve together: what is sent reaches the client's list, and what
    is queued for an HTTP client is written up to the end of its answer. */
module WebSocketAnswers {
  import opened Sequences
  import opened WebSocketFrames
  import opened WebSocketService

  // ----- why connections end

  /** A client is open until it has ended; an answered one was written all that was popped for it, the last
      packet being final; and only HTTP clients end by themselves. */
  predicate EndFits(x: Client) {
    var t := x.traffic;
    && (x.open <==> t.ended == NotYet)
    && (t.ended == Answered ==>
          x.http && t.written == t.popped && t.popped != [] && t.popped[|t.popped| - 1].isFinal)
    && (t.ended == NothingQueued ==> x.http && t.written == t.popped)
  }

  ghost predicate EndInv(s: State) {
    WrittenInv(s) && AnswersInv(s) && forall c | c in s.clients :: EndFits(s.clients[c])
  }

  lemma WroteKeepsEnd(x: Client, ok: bool, final: bool)
    requires EndFits(x) && x.open && WrittenFits(x.traffic, true) && x.traffic.popped != []
    requires final == x.traffic.popped[|x.traffic.popped| - 1].isFinal
    ensures EndFits(Wrote(x, ok, final))
  {
    var p := x.traffic.popped;
    assert p == p[..|p| - 1] + [p[|p| - 1]];
  }

  lemma StepKeepsEnds(s: State, step: Step)
    requires EndInv(s) && Enabled(s, step)
    ensures EndInv(Apply(s, step))
  {
    StepKeepsWritten(s, step);
    StepKeepsAnswers(s, step);
    var s' := Apply(s, step);
    forall c | c in s'.clients
      ensures EndFits(s'.clients[c])
    {
      if c in s.clients {
        assert EndFits(s.clients[c]);
        if step.WriteDone? && s.service.client == c {
          assert WrittenFits(s.clients[c].traffic, WritesTo(s, c));
          WroteKeepsEnd(s.clients[c], step.ok, s.service.final);
        } else if step == HttpHandled(c) {
          assert WrittenFits(s.clients[c].traffic, WritesTo(s, c));
        }
      }
    }
  }

  lemma {:induction false} ReachableStatesEndWell(threads: set<nat>, steps: seq<Step>, s: State)
    requires Reaches(threads, steps, s)
    ensures EndInv(s)
    decreases |steps|
  {
    if steps != [] {
      var k := |steps| - 1;
      var s0 :| Reaches(threads, steps[..k], s0) && Enabled(s0, steps[k]) && s == Apply(s0, steps[k]);
      ReachableStatesEndWell(threads, steps[..k], s0);
      StepKeepsEnds(s0, steps[k]);
    }
  }

  /** A websocket ends only by a disconnect or a failed write. */
  lemma WebSocketsStayOpen(threads: set<nat>, steps: seq<Step>, s: State, c: nat)
    requires Reaches(threads, steps, s) && c in s.clients && !s.clients[c].http
    ensures s.clients[c].open || s.clients[c].traffic.ended in {Disconnected, WriteFailed}
  {
    ReachableStatesEndWell(threads, steps, s);
    assert EndFits(s.clients[c]);
  }

  lemma StepsThatEnd(s: State, step: Step, c: nat)
    requires Enabled(s, step) && c in Apply(s, step).clients
    ensures var ended := if c in s.clients then s.clients[c].traffic.ended else NotYet;
            var ended' := Apply(s, step).clients[c].traffic.ended;
            && (ended' == Disconnected ==> ended == Disconnected || step == Disconnects(c))
            && (ended' == WriteFailed ==> ended == WriteFailed || step == WriteDone(false))
  {
  }

  /** A disconnect or a failed write is told of only when there was one. */
  lemma {:induction false} EndsHaveCauses(threads: set<nat>, steps: seq<Step>, s: State, c: nat)
    requires Reaches(threads, steps, s) && c in s.clients
    ensures s.clients[c].traffic.ended == Disconnected ==> Disconnects(c) in steps
    ensures s.clients[c].traffic.ended == WriteFailed ==> WriteDone(false) in steps
    decreases |steps|
  {
    if steps != [] {
      var k := |steps| - 1;
      var s0 :| Reaches(threads, steps[..k], s0) && Enabled(s0, steps[k]) && s == Apply(s0, steps[k]);
      StepsThatEnd(s0, steps[k], c);
      assert steps == steps[..k] + [steps[k]];
      if c in s0.clients {
        EndsHaveCauses(threads, steps[..k], s0, c);
      }
    }
  }

  /** And when there was one, the connection has ended. */
  lemma CausesEnd(s: State, step: Step, c: nat)
    requires Enabled(s, step) && c in s.clients
    requires step == Disconnects(c) || (step == WriteDone(false) && s.service.client == c)
    ensures !Apply(s, step).clients[c].open
  {
  }

  /** A new client is open with nothing queued; a websocket is asked for a callback at once, and a client keeps
      its kind for good. */
  lemma NewClients(s: State, step: Step, c: nat)
    requires Enabled(s, step) && (c in s.clients || (step.Connects? && step.client == c))
    ensures c in Apply(s, step).clients
    ensures var y := Apply(s, step).clients[c];
            if c in s.clients then y.http == s.clients[c].http
            else y.http == step.http && y.open && y.list == [] && (y.requested <==> !y.http)
  {
  }

  // ----- HTTP answers

  /** After the handling of a request that queued something the client is open, with a callback requested;
      otherwise it is closed. */
  lemma HandledRequestsAreAnswered(s: State, c: nat)
    requires Enabled(s, HttpHandled(c))
    ensures var x := s.clients[c];
            var y := Apply(s, HttpHandled(c)).clients[c];
            && y.list == x.list && y.traffic.popped == x.traffic.popped && y.traffic.written == x.traffic.written
            && (x.list != [] ==> y.open && y.requested)
            && (x.list == [] ==> !y.open)
  {
  }

  /** What was queued in x has been popped when y has ended for want of more. */
  ghost predicate EndCovers(x: Client, y: Client) {
    && Progressed(x, y)
    && (y.traffic.ended == NothingQueued ==> x.traffic.ended == NothingQueued || Stream(x) <= y.traffic.popped)
  }

  lemma StepCovers(x: Client, s: State, step: Step, c: nat)
    requires AnswersInv(s) && EndInv(s) && Enabled(s, step) && c in s.clients && EndCovers(x, s.clients[c])
    ensures c in Apply(s, step).clients && EndCovers(x, Apply(s, step).clients[c])
  {
    StepProgresses(x, s, step, c);
    var y := s.clients[c];
    if !y.open {
      ClosedClientsGetNothing(s, step, c);
    } else {
      assert EndFits(y);
      if step == HttpHandled(c) && y.list == [] {
        assert Stream(y) == y.traffic.popped;
      } else {
        OnlyHandlingLacks(s, step, c);
      }
    }
  }

  lemma OnlyHandlingLacks(s: State, step: Step, c: nat)
    requires Enabled(s, step) && c in s.clients && s.clients[c].traffic.ended == NotYet
    requires step != HttpHandled(c) || s.clients[c].list != []
    ensures c in Apply(s, step).clients && Apply(s, step).clients[c].traffic.ended != NothingQueued
  {
  }

  lemma {:induction false} RunCovers(threads: set<nat>, before: seq<Step>, from: State,
                                     steps: seq<Step>, s: State, c: nat)
    requires Reaches(threads, before, from) && Leads(from, steps, s) && c in from.clients
    ensures c in s.clients && EndCovers(from.clients[c], s.clients[c])
    decreases |steps|
  {
    if steps != [] {
      var k := |steps| - 1;
      var s0 :| Leads(from, steps[..k], s0) && Enabled(s0, steps[k]) && s == Apply(s0, steps[k]);
      RunCovers(threads, before, from, steps[..k], s0, c);
      ReachesOn(threads, before, from, steps[..k], s0);
      ReachableStatesEndWell(threads, before + steps[..k], s0);
      StepCovers(from.clients[c], s0, steps[k], c);
    }
  }

  /** The packets up to and including the first final one. */
  function AnswerLength(list: seq<LwsPacket>): (n: nat)
    ensures n <= |list|
    ensures forall k :: 0 <= k < n - 1 ==> !list[k].isFinal
    ensures n < |list| ==> n > 0 && list[n - 1].isFinal
  {
    if list == [] then 0 else if list[0].isFinal then 1 else 1 + AnswerLength(list[1..])
  }

  /** Over any run from a reachable state in which nobody is writing to the client, unless it ends by a
      disconnect or a failed write: while it is open, k callbacks have popped the first k packets of its
      answer, and when it is closed the whole answer was popped. All that was popped was written, but for a
      write under way. */
  lemma HttpAnswersAreWritten(threads: set<nat>, before: seq<Step>, from: State, steps: seq<Step>, s: State, c: nat)
    requires Reaches(threads, before, from) && Leads(from, steps, s)
    requires c in from.clients && from.clients[c].http && from.clients[c].open && !WritesTo(from, c)
    requires c in s.clients && s.clients[c].traffic.ended !in {Disconnected, WriteFailed}
    ensures from.clients[c].traffic.callbacks <= s.clients[c].traffic.callbacks
    ensures var x, y := from.clients[c], s.clients[c];
            var k, n := y.traffic.callbacks - x.traffic.callbacks, AnswerLength(x.list);
            && x.traffic.popped + x.list[..if y.open && k < n then k else n] <= y.traffic.popped
            && WrittenFits(y.traffic, WritesTo(s, c))
  {
    ReachesOn(threads, before, from, steps, s);
    RunCovers(threads, before, from, steps, s, c);
    ReachableStatesEndWell(threads, before, from);
    ReachableStatesEndWell(threads, before + steps, s);
    assert EndFits(from.clients[c]);
    WrittenOfClient(s, c);
    WrittenOfClient(from, c);
    AnswerIsPopped(from.clients[c], s.clients[c]);
  }

  lemma WrittenOfClient(s: State, c: nat)
    requires EndInv(s) && c in s.clients && s.clients[c].traffic.ended !in {Disconnected, WriteFailed}
    ensures EndFits(s.clients[c]) && OneAnswer(s.clients[c]) && WrittenFits(s.clients[c].traffic, WritesTo(s, c))
  {
  }

  lemma AnswerIsPopped(x: Client, y: Client)
    requires EndCovers(x, y) && EndFits(x) && EndFits(y) && OneAnswer(x) && OneAnswer(y)
    requires x.http && x.open && WrittenFits(x.traffic, false)
    requires y.traffic.ended !in {Disconnected, WriteFailed}
    ensures x.traffic.callbacks <= y.traffic.callbacks
    ensures var k, n := y.traffic.callbacks - x.traffic.callbacks, AnswerLength(x.list);
            x.traffic.popped + x.list[..if y.open && k < n then k else n] <= y.traffic.popped
  {
    var n := AnswerLength(x.list);
    PrefixOfStream(x, y);
    if y.open {
    } else if y.traffic.ended == NothingQueued {
      assert x.traffic.popped + x.list[..n] <= Stream(x);
    } else {
      AnsweredIsComplete(x, y);
    }
  }

  /** Where nothing popped is final, the first final packet of the stream ends the answer. */
  lemma FirstFinalEndsTheAnswer(x: Client, j: nat)
    requires forall i :: 0 <= i < |x.traffic.popped| ==> !x.traffic.popped[i].isFinal
    requires j < |Stream(x)| && Stream(x)[j].isFinal
    ensures j + 1 >= |x.traffic.popped| + AnswerLength(x.list)
  {
    var a := |x.traffic.popped|;
    assert forall i :: 0 <= i < a ==> Stream(x)[i] == x.traffic.popped[i];
    assert j >= a && x.list[j - a] == Stream(x)[j];
  }

  lemma AnsweredIsComplete(x: Client, y: Client)
    requires Progressed(x, y) && EndFits(y) && OneAnswer(x)
    requires x.http && x.open && WrittenFits(x.traffic, false) && y.traffic.ended == Answered
    ensures x.traffic.popped + x.list[..AnswerLength(x.list)] <= y.traffic.popped
  {
    var n := AnswerLength(x.list);
    var m := |y.traffic.popped|;
    assert y.traffic.popped == Stream(y)[..m];
    if m <= |Stream(x)| {
      assert y.traffic.popped[m - 1] == Stream(x)[m - 1];
      FirstFinalEndsTheAnswer(x, m - 1);
    }
    assert x.traffic.popped + x.list[..n] == Stream(x)[..|x.traffic.popped| + n];
  }

  // ----- sending

  /** A whole `send` that nobody interrupts is a run: its packets stand behind those of the client's list, in
      order, and the service thread is told. */
  lemma {:induction false} PushingIsARun(threads: set<nat>, steps: seq<Step>, s: State, i: nat, c: nat)
      returns (steps': seq<Step>, s': State)
    requires Reaches(threads, steps, s) && i in s.senders && s.senders[i].Pushing?
    requires s.senders[i].client == c && c in s.clients
    ensures Reaches(threads, steps', s') && i in s'.senders && s'.senders[i] == Idle && s'.cancel
    ensures s'.clients == s.clients[c := s.clients[c].(list := s.clients[c].list + s.senders[i].rest)]
    ensures s'.service == s.service
    decreases |s.senders[i].rest|
  {
    var x := s.senders[i];
    if x.rest == [] {
      ReachesSnoc(threads, steps, s, SendCancels(i));
      steps', s' := steps + [SendCancels(i)], Apply(s, SendCancels(i));
      assert s.clients[c].list + [] == s.clients[c].list;
    } else {
      ReachesSnoc(threads, steps, s, SendPushes(i));
      var s1 := Apply(s, SendPushes(i));
      OnePushed(s, i);
      steps', s' := PushingIsARun(threads, steps + [SendPushes(i)], s1, i, c);
      PushedOneByOne(s.clients[c].list, x.rest);
    }
  }

  lemma OnePushed(s: State, i: nat)
    requires Enabled(s, SendPushes(i))
    ensures var x, c := s.senders[i], s.senders[i].client;
            var s' := Apply(s, SendPushes(i));
            && s'.senders == s.senders[i := Pushing(c, x.pushed + 1, x.rest[1..])] && s'.service == s.service
            && s'.clients == s.clients[c := s.clients[c].(list := s.clients[c].list + [x.rest[0]])]
  {
  }

  lemma PushedOneByOne(list: seq<LwsPacket>, rest: seq<LwsPacket>)
    requires rest != []
    ensures (list + [rest[0]]) + rest[1..] == list + rest
  {
  }

  lemma SendIsARun(threads: set<nat>, steps: seq<Step>, s: State, i: nat, c: nat, packets: seq<LwsPacket>)
      returns (steps': seq<Step>, s': State)
    requires Reaches(threads, steps, s) && Enabled(s, SendBegins(i, c, packets))
    ensures Reaches(threads, steps', s') && i in s'.senders && s'.senders[i] == Idle && s'.cancel
    ensures s'.clients == s.clients[c := s.clients[c].(list := s.clients[c].list + packets)]
    ensures s'.service == s.service
  {
    ReachesSnoc(threads, steps, s, SendBegins(i, c, packets));
    var s1 := Apply(s, SendBegins(i, c, packets));
    steps', s' := PushingIsARun(threads, steps + [SendBegins(i, c, packets)], s1, i, c);
  }
}
