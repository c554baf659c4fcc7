/** `WebSocketServerClientLwsImpl` and the libwebsockets callbacks that drive it. */
module WebSocketClient {
  import opened Primitives
  import opened Sequences
  import opened WebSocketFrames
  import WebSocketService

  const NOT_FOUND: int := 404

  /** What a writeable callback did: the frame written, whether another callback was requested,
      and whether it told libwebsockets to close the connection. */
  datatype Writeable = Writeable(frame: Option<Frame>, again: bool, close: bool)

  /** What the callback leaves and tells libwebsockets is what it does in the protocol with the service
      thread, for a client with this list. */
  ghost predicate FollowsProtocol(list: seq<LwsPacket>, http: bool, ok: bool, list': seq<LwsPacket>, w: Writeable) {
    forall x: WebSocketService.Client | x.open && x.http == http && x.list == list ::
      var y := WebSocketService.WholeCallback(x, ok);
      y.list == list' && (y.open <==> !w.close) && (y.open ==> (y.requested <==> w.again))
  }

  class Client {
    const lwsPre: nat
    var sendList: seq<LwsPacket>
    var receiveBuffer: Option<seq<byte>>
    /** Number of `lws_cancel_service` calls. */
    var cancels: nat

    /** `lws_write` took the whole packet. */
    predicate Sent(p: LwsPacket, result: int) { result != -1 && result >= |p.payload| - lwsPre }

    constructor (lwsPre: nat)
      ensures this.lwsPre == lwsPre && sendList == [] && receiveBuffer == None && cancels == 0
    {
      this.lwsPre := lwsPre;
      sendList, receiveBuffer, cancels := [], None, 0;
    }

    method Insert(bytes: seq<byte>)
      modifies this`receiveBuffer
      ensures receiveBuffer == Inserted(old(receiveBuffer), bytes)
    {
      if receiveBuffer.None? {
        receiveBuffer := Some([]);
      }
      receiveBuffer := Some(receiveBuffer.value + bytes);
    }

    method TakeMessage() returns (payload: Option<seq<byte>>)
      modifies this`receiveBuffer
      ensures payload == old(receiveBuffer) && receiveBuffer == None
    {
      payload := receiveBuffer;
      receiveBuffer := None;
    }

    method DataToSend() returns (packet: Option<LwsPacket>)
      modifies this`sendList
      ensures old(sendList) == [] ==> packet == None && sendList == []
      ensures old(sendList) != [] ==> packet == Some(old(sendList)[0]) && sendList == old(sendList)[1..]
    {
      if sendList == [] {
        return None;
      }
      packet := Some(sendList[0]);
      sendList := sendList[1..];
    }

    method HasDataToSend() returns (some: bool)
      ensures some <==> sendList != []
    {
      some := sendList != [];
    }

    /** Pushes the fragments of the message behind what is queued and wakes the service thread once. */
    method Send(message: Message)
      requires |message.payload| <= MAX_INT
      modifies this`sendList, this`cancels
      ensures sendList == old(sendList) + Fragments(lwsPre, message)
      ensures cancels == old(cancels) + 1
    {
      var payload := message.payload;
      if |payload| > PACKET_SIZE {
        var idx := 0;
        while idx < |payload|
          invariant sendList + FragmentsFrom(lwsPre, message, idx) == old(sendList) + Fragments(lwsPre, message)
          invariant cancels == old(cancels)
          decreases |payload| - idx
        {
          var first := idx == 0;
          var size := |payload| - idx;
          if size > PACKET_SIZE {
            size := PACKET_SIZE;
          }
          var body := Zeros(lwsPre) + payload[idx..idx + size];
          ghost var start := idx;
          idx := idx + PACKET_SIZE;
          var packet := LwsPacket(message.statusCode, message.contentType, message.headers, body,
                                  |payload|, message.isBinary, first, idx >= |payload|);
          assert packet == Fragment(lwsPre, message, start);
          sendList := sendList + [packet];
        }
      } else {
        var packet := LwsPacket(message.statusCode, message.contentType, message.headers, Zeros(lwsPre) + payload,
                                |payload|, message.isBinary, true, true);
        assert payload[0..|payload|] == payload;
        sendList := sendList + [packet];
      }
      cancels := cancels + 1;
    }

    /** An HTTP result is sent as one binary message. */
    method SendHttpResult(statusCode: int, contentType: string, headers: map<string, string>, payload: seq<byte>)
      requires |payload| <= MAX_INT
      modifies this`sendList, this`cancels
      ensures sendList == old(sendList) + Fragments(lwsPre, Message(statusCode, contentType, headers, payload, true))
      ensures cancels == old(cancels) + 1
    {
      Send(Message(statusCode, contentType, headers, payload, true));
    }

    /** LWS_CALLBACK_RECEIVE; `delivered` is what the message handlers are called with. */
    method OnReceive(bytes: seq<byte>, isFinal: bool) returns (delivered: Option<seq<byte>>)
      modifies this`receiveBuffer
      ensures forall before: seq<seq<byte>> ::
                Receive(Receiver(before, old(receiveBuffer)), bytes, isFinal)
                == Receiver(if delivered.Some? then before + [delivered.value] else before, receiveBuffer)
      ensures delivered.Some? <==> isFinal
    {
      Insert(bytes);
      delivered := None;
      if isFinal {
        delivered := TakeMessage();
      }
    }

    /** LWS_CALLBACK_SERVER_WRITEABLE; `result` is what `lws_write` returns for the frame. */
    method OnServerWriteable(result: int) returns (w: Writeable)
      modifies this`sendList
      ensures sendList == if old(sendList) == [] then [] else old(sendList)[1..]
      ensures w.frame == if old(sendList) == [] then None else Some(ToFrame(lwsPre, old(sendList)[0]))
      ensures w.close <==> w.frame.Some? && (result == -1 || result < |old(sendList)[0].payload| - lwsPre)
      ensures w.again <==> !w.close && sendList != []
      ensures FollowsProtocol(old(sendList), false, !w.close, sendList, w)
    {
      var data := DataToSend();
      if data.None? {
        return Writeable(None, false, false);
      }
      var frame := Some(ToFrame(lwsPre, data.value));
      if result == -1 {
        return Writeable(frame, false, true);
      }
      var expected := |data.value.payload| - lwsPre;
      if result < expected {
        return Writeable(frame, false, true);
      }
      var more := HasDataToSend();
      w := Writeable(frame, more, false);
    }

    /** LWS_CALLBACK_HTTP_WRITEABLE past its header writing, which `headersOk` stands for; the
        connection is closed after the final packet. */
    method OnHttpWriteable(headersOk: bool, result: int) returns (w: Writeable, wasFinal: bool)
      modifies this`sendList
      ensures sendList == if old(sendList) == [] then [] else old(sendList)[1..]
      ensures old(sendList) == [] ==> w == Writeable(None, false, false)
      ensures old(sendList) != [] ==>
                var p := old(sendList)[0];
                && wasFinal == p.isFinal
                && (w.frame == None <==> p.isFirst && !headersOk)
                && (w.frame.Some? ==> w.frame.value == ToFrame(lwsPre, p))
                && (w.close <==> w.frame.None? || result == -1 || result < |p.payload| - lwsPre || p.isFinal)
                && (w.again <==> !w.close && sendList != [])
      ensures old(sendList) != [] ==>
                FollowsProtocol(old(sendList), true, w.frame.Some? && Sent(old(sendList)[0], result), sendList, w)
    {
      wasFinal := false;
      var data := DataToSend();
      if data.None? {
        return Writeable(None, false, false), false;
      }
      wasFinal := data.value.isFinal;
      if data.value.isFirst && !headersOk {
        return Writeable(None, false, true), wasFinal;
      }
      var frame := Some(ToFrame(lwsPre, data.value));
      if result == -1 || result < |data.value.payload| - lwsPre {
        return Writeable(frame, false, true), wasFinal;
      }
      var more := HasDataToSend();
      w := Writeable(frame, !data.value.isFinal && more, data.value.isFinal);
    }
  }
}
