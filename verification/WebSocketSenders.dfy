/** Any number of threads call `send` on one client while the service thread pops packets.
    The lock is taken once per packet, so the atomic steps are: a call begins, one packet is
    pushed, one packet is popped. */
module WebSocketSenders {
  import opened Primitives
  import opened Sequences
  import opened WebSocketFrames

  datatype Entry = Entry(sender: nat, packet: LwsPacket)

  /** The messages a thread has begun to send, the packets of the earlier ones, those of the last one,
      and how many of the latter it has pushed. */
  datatype Sender = Sender(begun: seq<Message>, before: seq<LwsPacket>, current: seq<LwsPacket>, pushed: nat)

  /** Every packet ever pushed, how many were popped, and the messages whose final packet was pushed. */
  datatype State = State(senders: seq<Sender>, stream: seq<Entry>, taken: nat, log: seq<(nat, Message)>)

  datatype Step = Begin(sender: nat, message: Message) | Push(sender: nat) | Pop

  function Popped(s: State): seq<Entry>
    requires s.taken <= |s.stream|
  {
    s.stream[..s.taken]
  }

  /** `m_sendList`. */
  function Queue(s: State): seq<Entry>
    requires s.taken <= |s.stream|
  {
    s.stream[s.taken..]
  }

  predicate Idle(x: Sender) { x.pushed == |x.current| }

  predicate Enabled(s: State, step: Step) {
    match step
    case Begin(i, m) => i < |s.senders| && Idle(s.senders[i])
    case Push(i) => i < |s.senders| && s.senders[i].pushed < |s.senders[i].current| && s.senders[i].begun != []
    case Pop => s.taken < |s.stream|
  }

  function LastBegun(x: Sender): Message
    requires x.begun != []
  {
    x.begun[|x.begun| - 1]
  }

  function Began(pre: nat, x: Sender, m: Message): Sender {
    Sender(x.begun + [m], x.before + x.current, Fragments(pre, m), 0)
  }

  function Advanced(x: Sender): Sender { x.(pushed := x.pushed + 1) }

  function Apply(pre: nat, s: State, step: Step): State
    requires Enabled(s, step)
  {
    match step
    case Begin(i, m) => s.(senders := s.senders[i := Began(pre, s.senders[i], m)])
    case Push(i) =>
      var x := s.senders[i];
      var p := x.current[x.pushed];
      s.(senders := s.senders[i := Advanced(x)],
         stream := s.stream + [Entry(i, p)],
         log := if p.isFinal then s.log + [(i, LastBegun(x))] else s.log)
    case Pop => s.(taken := s.taken + 1)
  }

  function Initial(n: nat): State { State(seq(n, _ => Sender([], [], [], 0)), [], 0, []) }

  ghost predicate Reaches(pre: nat, n: nat, steps: seq<Step>, s: State) {
    if steps == [] then s == Initial(n)
    else
      var k := |steps| - 1;
      exists s0 :: Reaches(pre, n, steps[..k], s0) && Enabled(s0, steps[k]) && s == Apply(pre, s0, steps[k])
  }

  function Projection(es: seq<Entry>, i: nat): seq<LwsPacket> {
    if es == [] then []
    else
      var n := |es| - 1;
      Projection(es[..n], i) + (if es[n].sender == i then [es[n].packet] else [])
  }

  function LogOf(log: seq<(nat, Message)>, i: nat): seq<Message> {
    if log == [] then []
    else
      var n := |log| - 1;
      LogOf(log[..n], i) + (if log[n].0 == i then [log[n].1] else [])
  }

  function AllFragments(pre: nat, ms: seq<Message>): seq<LwsPacket> {
    if ms == [] then []
    else AllFragments(pre, ms[..|ms| - 1]) + Fragments(pre, ms[|ms| - 1])
  }

  function Frames(pre: nat, es: seq<Entry>): seq<Frame> {
    seq(|es|, k requires 0 <= k < |es| => ToFrame(pre, es[k].packet))
  }

  function Read(pre: nat, es: seq<Entry>): Reading { ReadFrames(Frames(pre, es)) }

  function Wire(log: seq<(nat, Message)>): seq<WireMessage> {
    seq(|log|, k requires 0 <= k < |log| => WireMessage(log[k].1.isBinary, log[k].1.payload))
  }

  /** A packet that is not final is directly followed by a packet of the same sender. */
  ghost predicate Serialised(es: seq<Entry>) {
    forall k :: 0 <= k < |es| - 1 && !es[k].packet.isFinal ==> es[k].sender == es[k + 1].sender
  }

  // ----- one sender

  /** The packets a sender works through are the fragments of its messages. */
  ghost predicate SenderShape(pre: nat, x: Sender) {
    && x.pushed <= |x.current|
    && x.before + x.current == AllFragments(pre, x.begun)
    && (x.begun == [] ==> x.current == [])
    && (x.begun != [] ==> x.current == Fragments(pre, LastBegun(x)))
  }

  function Completed(x: Sender): seq<Message> {
    if Idle(x) || x.begun == [] then x.begun else x.begun[..|x.begun| - 1]
  }

  function AllPushed(x: Sender): seq<LwsPacket>
    requires x.pushed <= |x.current|
  {
    x.before + x.current[..x.pushed]
  }

  lemma AllFragmentsSnoc(pre: nat, ms: seq<Message>, m: Message)
    ensures AllFragments(pre, ms + [m]) == AllFragments(pre, ms) + Fragments(pre, m)
  {
    assert (ms + [m])[..|ms|] == ms;
  }

  lemma BeginKeepsShape(pre: nat, x: Sender, m: Message)
    requires SenderShape(pre, x) && Idle(x)
    ensures var x' := Began(pre, x, m);
            && SenderShape(pre, x') && x'.pushed < |x'.current|
            && AllPushed(x') == AllPushed(x) && Completed(x') == Completed(x)
  {
    AllFragmentsSnoc(pre, x.begun, m);
    FragmentsFlags(pre, m);
    assert (x.begun + [m])[..|x.begun|] == x.begun;
    assert x.current[..x.pushed] == x.current;
  }

  lemma FragmentsFlags(pre: nat, m: Message)
    ensures |Fragments(pre, m)| >= 1
  {
    FragmentsShape(pre, m);
  }

  lemma CurrentShape(pre: nat, x: Sender)
    requires SenderShape(pre, x) && x.begun != [] && x.pushed < |x.current|
    ensures var p := x.current[x.pushed];
            && p.isFirst == (x.pushed == 0) && p.isFinal == (x.pushed == |x.current| - 1)
            && p.isBinary == LastBegun(x).isBinary
  {
    FragmentsShape(pre, LastBegun(x));
    FragmentsCarryFields(pre, LastBegun(x));
    assert CarriesFieldsOf(pre, x.current[x.pushed], LastBegun(x));
  }

  lemma PushKeepsShape(pre: nat, x: Sender)
    requires SenderShape(pre, x) && x.begun != [] && x.pushed < |x.current|
    ensures var p := x.current[x.pushed];
            && SenderShape(pre, Advanced(x))
            && Completed(Advanced(x)) == (if p.isFinal then Completed(x) + [LastBegun(x)] else Completed(x))
  {
    CurrentShape(pre, x);
    assert x.begun == x.begun[..|x.begun| - 1] + [LastBegun(x)];
  }

  lemma PushAppends(x: Sender)
    requires x.pushed < |x.current|
    ensures AllPushed(Advanced(x)) == AllPushed(x) + [x.current[x.pushed]]
  {
    TakeSnoc(x.current, x.pushed);
  }

  lemma BodiesCons(pre: nat, p: LwsPacket, ps: seq<LwsPacket>)
    ensures Bodies(pre, [p] + ps) == Body(pre, p) + Bodies(pre, ps)
  {
    assert ([p] + ps)[1..] == ps;
  }

  lemma {:induction false} BodiesSnoc(pre: nat, ps: seq<LwsPacket>, p: LwsPacket)
    ensures Bodies(pre, ps + [p]) == Bodies(pre, ps) + Body(pre, p)
  {
    if ps != [] {
      BodiesSnoc(pre, ps[1..], p);
      assert (ps + [p])[1..] == ps[1..] + [p];
      BodiesCons(pre, ps[0], ps[1..] + [p]);
    }
  }

  /** The part of its current message that a sender has pushed. */
  function PartPushed(pre: nat, x: Sender): WireMessage {
    if x.begun == [] || x.pushed > |x.current| then WireMessage(false, [])
    else WireMessage(LastBegun(x).isBinary, Bodies(pre, x.current[..x.pushed]))
  }

  lemma PartIsWhole(pre: nat, x: Sender)
    requires SenderShape(pre, x) && x.begun != [] && Idle(x)
    ensures PartPushed(pre, x).payload == LastBegun(x).payload
  {
    FragmentsShape(pre, LastBegun(x));
    assert x.current[..x.pushed] == x.current;
  }

  /** The pushed part of a message grows by the packet's body, and is the message after its final packet. */
  lemma PartGrows(pre: nat, x: Sender)
    requires SenderShape(pre, x) && x.begun != [] && x.pushed < |x.current|
    ensures var p := x.current[x.pushed];
            var m := LastBegun(x);
            var part' := PartPushed(pre, Advanced(x));
            && part' == WireMessage(m.isBinary, PartPushed(pre, x).payload + Body(pre, p))
            && PartPushed(pre, x).binary == m.isBinary
            && (x.pushed == 0 ==> PartPushed(pre, x).payload == [])
            && (p.isFinal ==> part' == WireMessage(m.isBinary, m.payload))
  {
    BodiesSnoc(pre, x.current[..x.pushed], x.current[x.pushed]);
    TakeSnoc(x.current, x.pushed);
    CurrentShape(pre, x);
    if x.pushed == |x.current| - 1 {
      PartIsWhole(pre, Advanced(x));
    }
  }

  // ----- invariant over all senders

  ghost predicate SenderInv(pre: nat, s: State, i: nat)
    requires i < |s.senders|
  {
    && SenderShape(pre, s.senders[i])
    && Projection(s.stream, i) == AllPushed(s.senders[i])
    && LogOf(s.log, i) == Completed(s.senders[i])
  }

  /** A sender has pushed part of a message. */
  predicate Open(x: Sender) { 0 < x.pushed < |x.current| }

  /** The last packet pushed is not final and is of sender j. */
  predicate HeldBy(es: seq<Entry>, j: nat) {
    es != [] && !es[|es| - 1].packet.isFinal && es[|es| - 1].sender == j
  }

  ghost predicate ReadingInv(pre: nat, s: State) {
    var r := Read(pre, s.stream);
    && (r.Reading? <==> Serialised(s.stream))
    && (r.Reading? ==>
          && r.complete == Wire(s.log)
          && (r.unfinished.Some? ==> exists j: nat :: HeldBy(s.stream, j))
          && (forall j: nat | HeldBy(s.stream, j) ::
                j < |s.senders| && r.unfinished == Some(PartPushed(pre, s.senders[j])))
          && (forall j: nat | j < |s.senders| :: Open(s.senders[j]) <==> HeldBy(s.stream, j)))
  }

  ghost predicate Inv(pre: nat, s: State) {
    && s.taken <= |s.stream|
    && (forall i: nat | i < |s.senders| :: SenderInv(pre, s, i))
    && ReadingInv(pre, s)
  }

  lemma ProjectionSnoc(es: seq<Entry>, e: Entry, i: nat)
    ensures Projection(es + [e], i) == Projection(es, i) + (if e.sender == i then [e.packet] else [])
  {
    assert (es + [e])[..|es|] == es;
  }

  lemma LogSnoc(log: seq<(nat, Message)>, e: (nat, Message), i: nat)
    ensures LogOf(log + [e], i) == LogOf(log, i) + (if e.0 == i then [e.1] else [])
  {
    assert (log + [e])[..|log|] == log;
  }

  lemma PushKeepsSender(pre: nat, s: State, i: nat, j: nat)
    requires Enabled(s, Push(i)) && j < |s.senders| && SenderInv(pre, s, i) && SenderInv(pre, s, j)
    ensures SenderInv(pre, Apply(pre, s, Push(i)), j)
  {
    var x := s.senders[i];
    ProjectionSnoc(s.stream, Entry(i, x.current[x.pushed]), j);
    LogSnoc(s.log, (i, LastBegun(x)), j);
    if j == i {
      PushKeepsShape(pre, x);
      PushAppends(x);
    }
  }

  lemma ReadSnoc(pre: nat, es: seq<Entry>, e: Entry)
    ensures Read(pre, es + [e]) == ReadFrame(Read(pre, es), ToFrame(pre, e.packet))
  {
    assert Frames(pre, es + [e]) == Frames(pre, es) + [ToFrame(pre, e.packet)];
    ReadFramesAppend(Frames(pre, es), ToFrame(pre, e.packet));
  }

  lemma SerialisedSnoc(es: seq<Entry>, e: Entry)
    ensures Serialised(es + [e]) <==>
            Serialised(es) && (es != [] && !es[|es| - 1].packet.isFinal ==> es[|es| - 1].sender == e.sender)
  {
    var t := es + [e];
    if Serialised(t) {
      forall k | 0 <= k < |es| - 1 && !es[k].packet.isFinal
        ensures es[k].sender == es[k + 1].sender
      {
        assert t[k] == es[k] && t[k + 1] == es[k + 1];
      }
      if es != [] {
        assert t[|es| - 1] == es[|es| - 1] && t[|es| - 1 + 1] == e;
      }
    }
  }

  lemma WireSnoc(log: seq<(nat, Message)>, e: (nat, Message))
    ensures Wire(log + [e]) == Wire(log) + [WireMessage(e.1.isBinary, e.1.payload)]
  {
  }

  lemma ReadingStep(r: Reading, f: Frame, open: bool, part: WireMessage, part': WireMessage)
    requires r.Reading? && (open <==> f.opcode == Continuation)
    requires open ==> r.unfinished == Some(part) && part' == WireMessage(part.binary, part.payload + f.payload)
    requires !open ==> part' == WireMessage(f.opcode == Binary, f.payload)
    ensures ReadFrame(r, f) ==
              if r.unfinished.Some? && !open then Malformed
              else if f.fin then Reading(r.complete + [part'], None)
              else Reading(r.complete, Some(part'))
  {
  }

  /** The pushed frame continues the sender's own open message or starts one; otherwise it is refused. */
  lemma PushReads(pre: nat, r: Reading, x: Sender)
    requires SenderShape(pre, x) && x.begun != [] && x.pushed < |x.current|
    requires r.Reading? && (Open(x) ==> r.unfinished == Some(PartPushed(pre, x)))
    ensures var f := ToFrame(pre, x.current[x.pushed]);
            var part' := PartPushed(pre, Advanced(x));
            ReadFrame(r, f) ==
              if r.unfinished.Some? && !Open(x) then Malformed
              else if f.fin then Reading(r.complete + [part'], None)
              else Reading(r.complete, Some(part'))
  {
    PartGrows(pre, x);
    CurrentShape(pre, x);
    var f := ToFrame(pre, x.current[x.pushed]);
    assert [] + f.payload == f.payload;
    ReadingStep(r, f, Open(x), PartPushed(pre, x), PartPushed(pre, Advanced(x)));
  }

  lemma PushKeepsReading(pre: nat, s: State, i: nat)
    requires Enabled(s, Push(i)) && Inv(pre, s)
    ensures ReadingInv(pre, Apply(pre, s, Push(i)))
  {
    var s' := Apply(pre, s, Push(i));
    var x := s.senders[i];
    var e := Entry(i, x.current[x.pushed]);
    ReadSnoc(pre, s.stream, e);
    SerialisedSnoc(s.stream, e);
    if Serialised(s.stream) {
      assert SenderInv(pre, s, i);
      CurrentShape(pre, x);
      assert Open(x) <==> HeldBy(s.stream, i);
      PushReads(pre, Read(pre, s.stream), x);
      PartGrows(pre, x);
      WireSnoc(s.log, (i, LastBegun(x)));
      assert HeldBy(s'.stream, i) <==> !e.packet.isFinal;
      assert Open(Advanced(x)) <==> !e.packet.isFinal;
      if s.stream != [] {
        assert HeldBy(s.stream, s.stream[|s.stream| - 1].sender) <==> !s.stream[|s.stream| - 1].packet.isFinal;
      }
    }
  }

  lemma BeginKeepsReading(pre: nat, s: State, i: nat, m: Message)
    requires Enabled(s, Begin(i, m)) && Inv(pre, s)
    ensures ReadingInv(pre, Apply(pre, s, Begin(i, m)))
  {
    var s' := Apply(pre, s, Begin(i, m));
    if Read(pre, s.stream).Reading? {
      assert !Open(s.senders[i]) && !HeldBy(s.stream, i);
      forall j: nat | j < |s'.senders|
        ensures Open(s'.senders[j]) <==> HeldBy(s.stream, j)
      {
        assert Open(s.senders[j]) <==> HeldBy(s.stream, j);
      }
    }
  }

  lemma StepKeepsInv(pre: nat, s: State, step: Step)
    requires Inv(pre, s) && Enabled(s, step)
    ensures Inv(pre, Apply(pre, s, step))
  {
    var s' := Apply(pre, s, step);
    match step
    case Begin(i, m) =>
      assert SenderInv(pre, s, i);
      BeginKeepsShape(pre, s.senders[i], m);
      forall j: nat | j < |s'.senders|
        ensures SenderInv(pre, s', j)
      {
        assert SenderInv(pre, s, j);
      }
      BeginKeepsReading(pre, s, i, m);
    case Push(i) =>
      forall j: nat | j < |s'.senders|
        ensures SenderInv(pre, s', j)
      {
        PushKeepsSender(pre, s, i, j);
      }
      PushKeepsReading(pre, s, i);
    case Pop =>
      forall j: nat | j < |s'.senders|
        ensures SenderInv(pre, s', j)
      {
        assert SenderInv(pre, s, j);
      }
  }

  lemma {:induction false} ReachableStatesSatisfyInv(pre: nat, n: nat, steps: seq<Step>, s: State)
    requires Reaches(pre, n, steps, s)
    ensures Inv(pre, s) && |s.senders| == n
    decreases |steps|
  {
    if steps == [] {
      assert Frames(pre, []) == [];
    } else {
      var k := |steps| - 1;
      var s0 :| Reaches(pre, n, steps[..k], s0) && Enabled(s0, steps[k]) && s == Apply(pre, s0, steps[k]);
      ReachableStatesSatisfyInv(pre, n, steps[..k], s0);
      StepKeepsInv(pre, s0, steps[k]);
    }
  }

  // ----- main results

  /** Under any interleaving each sender's own packets are its own fragment sequences, in order. */
  lemma EverySenderKeepsItsOrder(pre: nat, n: nat, steps: seq<Step>, s: State, i: nat)
    requires Reaches(pre, n, steps, s) && i < |s.senders| && s.senders[i].pushed <= |s.senders[i].current|
    ensures var x := s.senders[i];
            Projection(s.stream, i) + x.current[x.pushed..] == AllFragments(pre, x.begun)
  {
    ReachableStatesSatisfyInv(pre, n, steps, s);
    assert SenderInv(pre, s, i);
    SplitAt(s.senders[i].before, s.senders[i].current, s.senders[i].pushed);
  }

  /** The frames form whole messages exactly when no thread pushes in the middle of another's message;
      then the messages read are those completed, in completion order. */
  lemma WholeMessagesIffSerialised(pre: nat, n: nat, steps: seq<Step>, s: State)
    requires Reaches(pre, n, steps, s)
    ensures var r := ReadFrames(Frames(pre, s.stream));
            && (r.Reading? <==> Serialised(s.stream))
            && (r.Reading? ==> r.complete == Wire(s.log))
  {
    ReachableStatesSatisfyInv(pre, n, steps, s);
  }

  /** Reading more frames only adds messages. */
  lemma {:induction false} ReadingIsMonotone(pre: nat, es: seq<Entry>, k: nat)
    requires k <= |es| && Read(pre, es).Reading?
    ensures Read(pre, es[..k]).Reading? && Read(pre, es[..k]).complete <= Read(pre, es).complete
    decreases |es|
  {
    if k == |es| {
      assert es[..k] == es;
    } else {
      var n := |es| - 1;
      assert es == es[..n] + [es[n]];
      ReadSnoc(pre, es[..n], es[n]);
      ReadingIsMonotone(pre, es[..n], k);
      assert es[..n][..k] == es[..k];
    }
  }

  /** Round trip: whatever was popped, re-chunked in any way and fed to insert/message, delivers an
      initial part of the completed payloads, and all of them once the list is empty. */
  lemma RoundTrip(pre: nat, n: nat, steps: seq<Step>, s: State, chunks: seq<seq<seq<byte>>>)
    requires Reaches(pre, n, steps, s) && Serialised(s.stream) && s.taken <= |s.stream|
    requires Chunking(Frames(pre, Popped(s)), chunks)
    ensures var got := ReceiveFrames(Frames(pre, Popped(s)), chunks).delivered;
            && got <= Payloads(Wire(s.log))
            && (Queue(s) == [] ==> got == Payloads(Wire(s.log)))
  {
    ReachableStatesSatisfyInv(pre, n, steps, s);
    ReadingIsMonotone(pre, s.stream, s.taken);
    ReceiverFollowsReading(Frames(pre, Popped(s)), chunks);
    if Queue(s) == [] {
      assert Popped(s) == s.stream;
    }
  }

  /** What each thread has completed is what it began, except a message it is still pushing. */
  lemma CompletedIsWhatWasSent(pre: nat, n: nat, steps: seq<Step>, s: State, i: nat)
    requires Reaches(pre, n, steps, s) && i < |s.senders| && s.senders[i].begun != []
    ensures var x := s.senders[i];
            LogOf(s.log, i) == if Idle(x) then x.begun else x.begun[..|x.begun| - 1]
  {
    ReachableStatesSatisfyInv(pre, n, steps, s);
    assert SenderInv(pre, s, i);
  }

  lemma {:induction false} OnlySenderZero(pre: nat, steps: seq<Step>, s: State)
    requires Reaches(pre, 1, steps, s)
    ensures |s.senders| == 1 && forall e :: e in s.stream ==> e.sender == 0
    decreases |steps|
  {
    if steps != [] {
      var k := |steps| - 1;
      var s0 :| Reaches(pre, 1, steps[..k], s0) && Enabled(s0, steps[k]) && s == Apply(pre, s0, steps[k]);
      OnlySenderZero(pre, steps[..k], s0);
    }
  }

  /** One sending thread is always serialised, whatever the service thread does. */
  lemma OneSenderIsSerialised(pre: nat, steps: seq<Step>, s: State)
    requires Reaches(pre, 1, steps, s)
    ensures Serialised(s.stream)
  {
    OnlySenderZero(pre, steps, s);
  }

  /** No thread calls `send` while another one is still in it. */
  ghost predicate OneAtATime(pre: nat, n: nat, steps: seq<Step>, s: State) {
    if steps == [] then s == Initial(n)
    else
      var k := |steps| - 1;
      exists s0 :: OneAtATime(pre, n, steps[..k], s0) && Enabled(s0, steps[k]) && s == Apply(pre, s0, steps[k])
                   && (steps[k].Begin? ==> forall x :: x in s0.senders ==> Idle(x))
  }

  ghost predicate AtMostOneBusy(s: State) {
    forall i, j :: 0 <= i < j < |s.senders| ==> Idle(s.senders[i]) || Idle(s.senders[j])
  }

  /** In a serialised stream only the sender of an unfinished message is busy in the middle of one. */
  lemma OnlyBusyPushes(pre: nat, s: State, i: nat)
    requires Inv(pre, s) && Serialised(s.stream) && AtMostOneBusy(s) && Enabled(s, Push(i))
    ensures Serialised(Apply(pre, s, Push(i)).stream)
  {
    var x := s.senders[i];
    SerialisedSnoc(s.stream, Entry(i, x.current[x.pushed]));
    if s.stream != [] && !s.stream[|s.stream| - 1].packet.isFinal {
      var j := s.stream[|s.stream| - 1].sender;
      assert HeldBy(s.stream, j);
      assert j < |s.senders| && Open(s.senders[j]);
    }
  }

  lemma SeparateStep(pre: nat, s: State, step: Step)
    requires Inv(pre, s) && Serialised(s.stream) && AtMostOneBusy(s) && Enabled(s, step)
    requires step.Begin? ==> forall x :: x in s.senders ==> Idle(x)
    ensures Serialised(Apply(pre, s, step).stream) && AtMostOneBusy(Apply(pre, s, step))
  {
    if step.Push? {
      OnlyBusyPushes(pre, s, step.sender);
    }
  }

  /** Calls that do not overlap are serialised, for any number of threads. */
  lemma {:induction false} SeparateCallsAreSerialised(pre: nat, n: nat, steps: seq<Step>, s: State)
    requires OneAtATime(pre, n, steps, s)
    ensures Reaches(pre, n, steps, s) && Serialised(s.stream) && AtMostOneBusy(s)
    decreases |steps|
  {
    if steps != [] {
      var k := |steps| - 1;
      var s0 :| OneAtATime(pre, n, steps[..k], s0) && Enabled(s0, steps[k]) && s == Apply(pre, s0, steps[k])
                && (steps[k].Begin? ==> forall x :: x in s0.senders ==> Idle(x));
      SeparateCallsAreSerialised(pre, n, steps[..k], s0);
      ReachableStatesSatisfyInv(pre, n, steps[..k], s0);
      SeparateStep(pre, s0, steps[k]);
    }
  }

  /** The round trip for calls of any threads that do not overlap. */
  lemma SeparateCallsRoundTrip(pre: nat, n: nat, steps: seq<Step>, s: State, chunks: seq<seq<seq<byte>>>)
    requires OneAtATime(pre, n, steps, s) && s.taken <= |s.stream|
    requires Chunking(Frames(pre, Popped(s)), chunks)
    ensures var got := ReceiveFrames(Frames(pre, Popped(s)), chunks).delivered;
            && got <= Payloads(Wire(s.log))
            && (Queue(s) == [] ==> got == Payloads(Wire(s.log)))
  {
    SeparateCallsAreSerialised(pre, n, steps, s);
    RoundTrip(pre, n, steps, s, chunks);
  }

  lemma ReachesSnoc(pre: nat, n: nat, steps: seq<Step>, s: State, step: Step)
    requires Reaches(pre, n, steps, s) && Enabled(s, step)
    ensures Reaches(pre, n, steps + [step], Apply(pre, s, step))
  {
    assert (steps + [step])[..|steps|] == steps;
  }

  function Packets(es: seq<Entry>): seq<LwsPacket> { seq(|es|, k requires 0 <= k < |es| => es[k].packet) }

  lemma PushOnPackets(pre: nat, s: State, i: nat)
    requires Enabled(s, Push(i))
    ensures var x := s.senders[i];
            var s' := Apply(pre, s, Push(i));
            && s'.senders == s.senders[i := Advanced(x)] && s'.taken == s.taken
            && Packets(s'.stream) + x.current[x.pushed + 1..] == Packets(s.stream) + x.current[x.pushed..]
  {
    var x := s.senders[i];
    var e := Entry(i, x.current[x.pushed]);
    assert Packets(s.stream + [e]) == Packets(s.stream) + [e.packet];
    assert x.current[x.pushed..] == [e.packet] + x.current[x.pushed + 1..];
  }

  lemma {:induction false} PushingAllIsARun(pre: nat, n: nat, steps: seq<Step>, s: State, i: nat)
      returns (steps': seq<Step>, s': State)
    requires Reaches(pre, n, steps, s) && i < |s.senders|
    requires s.senders[i].begun != [] && s.senders[i].pushed <= |s.senders[i].current|
    ensures Reaches(pre, n, steps', s') && s'.taken == s.taken
    ensures var x := s.senders[i];
            && s'.senders == s.senders[i := x.(pushed := |x.current|)]
            && Packets(s'.stream) == Packets(s.stream) + x.current[x.pushed..]
    decreases |s.senders[i].current| - s.senders[i].pushed
  {
    var x := s.senders[i];
    if Idle(x) {
      steps', s' := steps, s;
    } else {
      ReachesSnoc(pre, n, steps, s, Push(i));
      PushOnPackets(pre, s, i);
      steps', s' := PushingAllIsARun(pre, n, steps + [Push(i)], Apply(pre, s, Push(i)), i);
    }
  }

  /** Popping takes the oldest packet of the list, as the client's `dataToSend` does. */
  lemma PopTakesTheOldest(pre: nat, s: State)
    requires Enabled(s, Pop)
    ensures var s' := Apply(pre, s, Pop);
            && s'.taken <= |s'.stream| && s'.stream == s.stream && s'.senders == s.senders && s'.log == s.log
            && Queue(s) == [Queue(s)[0]] + Queue(s') && Popped(s') == Popped(s) + [Queue(s)[0]]
  {
    TakeSnoc(s.stream, s.taken);
  }

  /** A whole call of `send` that nobody interrupts is a run of the machine, and adds to the list what
      the client's `send` adds to its own. */
  lemma SendIsARun(pre: nat, n: nat, steps: seq<Step>, s: State, i: nat, m: Message)
      returns (steps': seq<Step>, s': State)
    requires Reaches(pre, n, steps, s) && i < |s.senders| && Idle(s.senders[i])
    ensures Reaches(pre, n, steps', s') && s'.taken == s.taken && i < |s'.senders| && Idle(s'.senders[i])
    ensures Packets(s'.stream) == Packets(s.stream) + Fragments(pre, m)
  {
    ReachesSnoc(pre, n, steps, s, Begin(i, m));
    steps', s' := PushingAllIsARun(pre, n, steps + [Begin(i, m)], Apply(pre, s, Begin(i, m)), i);
  }

  lemma BothHaveBegun(pre: nat, long: Message, short: Message) returns (steps: seq<Step>, s: State)
    ensures Reaches(pre, 2, steps, s) && s.stream == [] && |s.senders| == 2
    ensures s.senders[0] == Sender([long], [], Fragments(pre, long), 0)
    ensures s.senders[1] == Sender([short], [], Fragments(pre, short), 0)
  {
    s, steps := Initial(2), [];
    ReachesSnoc(pre, 2, steps, s, Begin(0, long));
    s, steps := Apply(pre, s, Begin(0, long)), steps + [Begin(0, long)];
    ReachesSnoc(pre, 2, steps, s, Begin(1, short));
    s, steps := Apply(pre, s, Begin(1, short)), steps + [Begin(1, short)];
  }

  /** Two threads, the second one sending a short message between two packets of the first. */
  lemma InterleavedSendersBreakFrames(pre: nat, long: Message, short: Message) returns (steps: seq<Step>, s: State)
    requires |long.payload| > PACKET_SIZE >= |short.payload|
    ensures Reaches(pre, 2, steps, s)
    ensures ReadFrames(Frames(pre, s.stream)) == Malformed
  {
    FragmentsFlags(pre, long);
    FragmentsFlags(pre, short);
    steps, s := BothHaveBegun(pre, long, short);
    ReachesSnoc(pre, 2, steps, s, Push(0));
    s, steps := Apply(pre, s, Push(0)), steps + [Push(0)];
    assert s.stream == [Entry(0, Fragment(pre, long, 0))];
    ReachesSnoc(pre, 2, steps, s, Push(1));
    s, steps := Apply(pre, s, Push(1)), steps + [Push(1)];
    assert s.stream[0].packet == Fragment(pre, long, 0) && s.stream[0].sender != s.stream[0 + 1].sender;
    assert !Serialised(s.stream);
    WholeMessagesIffSerialised(pre, 2, steps, s);
  }
}
