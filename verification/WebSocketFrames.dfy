/** Message fragmentation (section 5.4 of RFC 6455) as the websocket client does it. */
module WebSocketFrames {
  import opened Primitives
  import opened Sequences

  const PACKET_SIZE: nat := 65550

  /** What a caller passes to `send`. */
  datatype Message = Message(statusCode: int, contentType: string, headers: map<string, string>,
                             payload: seq<byte>, isBinary: bool)

  /** An entry of `m_sendList`; its payload starts with `pre` (LWS_PRE) bytes of room for libwebsockets. */
  datatype LwsPacket = LwsPacket(statusCode: int, contentType: string, headers: map<string, string>,
                                 payload: seq<byte>, contentLength: int, isBinary: bool,
                                 isFirst: bool, isFinal: bool)

  function Min(a: int, b: int): int { if a < b then a else b }

  function Zeros(n: nat): seq<byte> { seq(n, _ => 0) }

  function Fragment(pre: nat, m: Message, idx: nat): LwsPacket
    requires idx <= |m.payload|
  {
    LwsPacket(m.statusCode, m.contentType, m.headers,
              Zeros(pre) + m.payload[idx..Min(idx + PACKET_SIZE, |m.payload|)],
              |m.payload|, m.isBinary, idx == 0, idx + PACKET_SIZE >= |m.payload|)
  }

  function FragmentsFrom(pre: nat, m: Message, idx: nat): seq<LwsPacket>
    decreases |m.payload| - idx
  {
    if idx < |m.payload| then [Fragment(pre, m, idx)] + FragmentsFrom(pre, m, idx + PACKET_SIZE) else []
  }

  /** The packets one `send` pushes. */
  function Fragments(pre: nat, m: Message): seq<LwsPacket> {
    if |m.payload| > PACKET_SIZE then FragmentsFrom(pre, m, 0) else [Fragment(pre, m, 0)]
  }

  function Body(pre: nat, p: LwsPacket): seq<byte> {
    if pre <= |p.payload| then p.payload[pre..] else []
  }

  function Bodies(pre: nat, ps: seq<LwsPacket>): seq<byte> {
    if ps == [] then [] else Body(pre, ps[0]) + Bodies(pre, ps[1..])
  }

  lemma {:induction false} FragmentsFromShape(pre: nat, m: Message, idx: nat)
    requires idx < |m.payload|
    ensures var fs := FragmentsFrom(pre, m, idx);
            && |fs| == (|m.payload| - idx + PACKET_SIZE - 1) / PACKET_SIZE
            && |fs| >= 1
            && (forall k :: 0 <= k < |fs| ==> fs[k].isFirst == (idx == 0 && k == 0))
            && (forall k :: 0 <= k < |fs| ==> fs[k].isFinal == (k == |fs| - 1))
            && Bodies(pre, fs) == m.payload[idx..]
    decreases |m.payload| - idx
  {
    var fs := FragmentsFrom(pre, m, idx);
    var next := idx + PACKET_SIZE;
    assert Body(pre, fs[0]) == m.payload[idx..Min(next, |m.payload|)];
    if next < |m.payload| {
      FragmentsFromShape(pre, m, next);
      var rest := FragmentsFrom(pre, m, next);
      assert fs[1..] == rest;
      assert m.payload[idx..] == m.payload[idx..next] + m.payload[next..];
    } else {
      assert fs == [Fragment(pre, m, idx)];
      assert fs[1..] == [];
      assert m.payload[idx..] == m.payload[idx..|m.payload|];
    }
  }

  /** ceil(n/65550) packets, or one for an empty message; first and final flags at the ends only;
      the bodies put back together are the payload. */
  lemma FragmentsShape(pre: nat, m: Message)
    ensures var fs := Fragments(pre, m);
            && |fs| == (if m.payload == [] then 1 else (|m.payload| + 65549) / 65550)
            && |fs| >= 1
            && (forall k :: 0 <= k < |fs| ==> fs[k].isFirst == (k == 0))
            && (forall k :: 0 <= k < |fs| ==> fs[k].isFinal == (k == |fs| - 1))
            && Bodies(pre, fs) == m.payload
  {
    if |m.payload| > PACKET_SIZE {
      FragmentsFromShape(pre, m, 0);
    } else {
      var fs := Fragments(pre, m);
      assert fs[1..] == [];
      assert Body(pre, fs[0]) == m.payload;
    }
  }

  /** Every packet of a message carries the message's own header fields and a full prefix. */
  lemma {:induction false} FragmentsFromFields(pre: nat, m: Message, idx: nat)
    ensures forall k :: 0 <= k < |FragmentsFrom(pre, m, idx)| ==> CarriesFieldsOf(pre, FragmentsFrom(pre, m, idx)[k], m)
    decreases |m.payload| - idx
  {
    if idx < |m.payload| {
      FragmentsFromFields(pre, m, idx + PACKET_SIZE);
    }
  }

  ghost predicate CarriesFieldsOf(pre: nat, p: LwsPacket, m: Message) {
    && p.statusCode == m.statusCode && p.contentType == m.contentType && p.headers == m.headers
    && p.contentLength == |m.payload| && p.isBinary == m.isBinary
    && pre <= |p.payload| <= pre + PACKET_SIZE && p.payload[..pre] == Zeros(pre)
  }

  lemma FragmentsCarryFields(pre: nat, m: Message)
    ensures forall k :: 0 <= k < |Fragments(pre, m)| ==> CarriesFieldsOf(pre, Fragments(pre, m)[k], m)
  {
    FragmentsFromFields(pre, m, 0);
  }

  // ----- frames on the wire

  datatype Opcode = Continuation | Text | Binary
  datatype Frame = Frame(opcode: Opcode, fin: bool, payload: seq<byte>)

  /** `lws_write_ws_flags`: only the first packet carries an opcode, only the final one FIN. */
  function ToFrame(pre: nat, p: LwsPacket): Frame {
    Frame(if !p.isFirst then Continuation else if p.isBinary then Binary else Text, p.isFinal, Body(pre, p))
  }

  datatype WireMessage = WireMessage(binary: bool, payload: seq<byte>)

  /** What a peer following section 5.4 has read: complete messages and possibly an unfinished one. */
  datatype Reading = Malformed | Reading(complete: seq<WireMessage>, unfinished: Option<WireMessage>)

  function ReadFrame(r: Reading, f: Frame): Reading {
    if r.Malformed? || (f.opcode == Continuation) != r.unfinished.Some? then Malformed
    else
      var m := if f.opcode == Continuation
               then r.unfinished.value.(payload := r.unfinished.value.payload + f.payload)
               else WireMessage(f.opcode == Binary, f.payload);
      if f.fin then Reading(r.complete + [m], None) else Reading(r.complete, Some(m))
  }

  function ReadFrames(fs: seq<Frame>): Reading {
    if fs == [] then Reading([], None) else ReadFrame(ReadFrames(fs[..|fs| - 1]), fs[|fs| - 1])
  }

  // ----- the receiving side of this client

  /** `m_receiveBuffer` and the payloads handed to the message handlers so far. */
  datatype Receiver = Receiver(delivered: seq<seq<byte>>, buffer: Option<seq<byte>>)

  function Inserted(buffer: Option<seq<byte>>, bytes: seq<byte>): Option<seq<byte>> {
    Some((if buffer.Some? then buffer.value else []) + bytes)
  }

  /** One LWS_CALLBACK_RECEIVE. */
  function Receive(r: Receiver, bytes: seq<byte>, isFinal: bool): Receiver {
    var b := Inserted(r.buffer, bytes);
    if isFinal then Receiver(r.delivered + [b.value], None) else Receiver(r.delivered, b)
  }

  /** libwebsockets hands a frame over in one or more chunks; the last chunk of a FIN frame is final. */
  function ReceiveChunks(r: Receiver, chunks: seq<seq<byte>>, fin: bool): Receiver
    requires chunks != []
    decreases |chunks|
  {
    if |chunks| == 1 then Receive(r, chunks[0], fin)
    else ReceiveChunks(Receive(r, chunks[0], false), chunks[1..], fin)
  }

  ghost predicate Chunking(fs: seq<Frame>, chunks: seq<seq<seq<byte>>>) {
    && |chunks| == |fs|
    && forall k :: 0 <= k < |fs| ==> chunks[k] != [] && Flatten(chunks[k]) == fs[k].payload
  }

  function ReceiveFrames(fs: seq<Frame>, chunks: seq<seq<seq<byte>>>): Receiver
    requires |chunks| == |fs| && forall k :: 0 <= k < |fs| ==> chunks[k] != []
  {
    if fs == [] then Receiver([], None)
    else
      var n := |fs| - 1;
      ReceiveChunks(ReceiveFrames(fs[..n], chunks[..n]), chunks[n], fs[n].fin)
  }

  lemma {:induction false} ChunksDoNotMatter(r: Receiver, chunks: seq<seq<byte>>, fin: bool)
    requires chunks != []
    ensures ReceiveChunks(r, chunks, fin) == Receive(r, Flatten(chunks), fin)
    decreases |chunks|
  {
    if |chunks| == 1 {
      assert Flatten(chunks) == chunks[0];
    } else {
      ChunksDoNotMatter(Receive(r, chunks[0], false), chunks[1..], fin);
      var b := if r.buffer.Some? then r.buffer.value else [];
      assert (b + chunks[0]) + Flatten(chunks[1..]) == b + Flatten(chunks);
    }
  }

  function Payloads(ms: seq<WireMessage>): seq<seq<byte>> { seq(|ms|, i requires 0 <= i < |ms| => ms[i].payload) }

  /** The receiver has delivered what the reader has completed, and holds what that has unfinished. */
  predicate Follows(r: Receiver, reading: Reading) {
    && reading.Reading?
    && r.delivered == Payloads(reading.complete)
    && r.buffer == match reading.unfinished case None => None case Some(m) => Some(m.payload)
  }

  lemma FrameKeepsFollowing(r: Receiver, reading: Reading, f: Frame)
    requires Follows(r, reading) && ReadFrame(reading, f).Reading?
    ensures Follows(Receive(r, f.payload, f.fin), ReadFrame(reading, f))
  {
    assert [] + f.payload == f.payload;
  }

  /** For well-formed frames, however they are re-chunked, the handlers get exactly the messages read. */
  lemma {:induction false} ReceiverFollowsReading(fs: seq<Frame>, chunks: seq<seq<seq<byte>>>)
    requires Chunking(fs, chunks) && ReadFrames(fs).Reading?
    ensures Follows(ReceiveFrames(fs, chunks), ReadFrames(fs))
    decreases |fs|
  {
    if fs != [] {
      var n := |fs| - 1;
      ReceiverFollowsReading(fs[..n], chunks[..n]);
      var before := ReceiveFrames(fs[..n], chunks[..n]);
      ChunksDoNotMatter(before, chunks[n], fs[n].fin);
      FrameKeepsFollowing(before, ReadFrames(fs[..n]), fs[n]);
    }
  }

  lemma {:induction false} ReadFramesAppend(a: seq<Frame>, f: Frame)
    ensures ReadFrames(a + [f]) == ReadFrame(ReadFrames(a), f)
  {
    assert (a + [f])[..|a|] == a;
  }
}
