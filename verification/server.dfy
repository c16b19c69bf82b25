/** The WebSocket side of the body-frame server: the `constants` message sent
 *  on every connection, opening and closing the sensor's body reader as the
 *  client set fills and empties, and the broadcast of every body frame.
 *
 *  `JSON.stringify` is abstracted to the `Message` datatype, console logging
 *  is dropped, and the sensor is a collaborator whose calls are recorded.
 */
module Server {
  import opened Js
  import opened Enums
  import opened Frames

  /** One text frame sent to a client, before serialisation. */
  datatype Message =
    | Constants(jointType: Entries<Value>, handState: Entries<Value>,
                trackingState: Entries<Value>, depthWidth: int, depthHeight: int)
    | BodyFrame(bodies: seq<Body>)

  /** A call made on the sensor. */
  datatype ReaderCall = OpenBodyReader | CloseBodyReader

  /** A connected WebSocket, by identity. */
  type ClientId = nat

  /** The message a body-frame event broadcasts. */
  function FrameMessage(f: RawFrame): Message {
    BodyFrame(NormalizeFrame(f))
  }

  /** What a client is sent over its lifetime: the constants first, then
      only body frames. */
  ghost predicate WellFormedLog(log: seq<Message>, constants: Message) {
    && |log| > 0
    && log[0] == constants
    && forall i :: 1 <= i < |log| ==> log[i].BodyFrame?
  }

  /** The reader calls alternate, opening first. */
  ghost predicate Alternating(calls: seq<ReaderCall>) {
    forall i :: 0 <= i < |calls| ==> calls[i] == if i % 2 == 0 then OpenBodyReader else CloseBodyReader
  }

  /** Every socket's log is well formed. */
  ghost predicate LogsWellFormed(sent: map<ClientId, seq<Message>>, constants: Message) {
    forall c :: c in sent ==> WellFormedLog(sent[c], constants)
  }

  lemma LogsAfterConnect(sent: map<ClientId, seq<Message>>, constants: Message, c: ClientId)
    requires LogsWellFormed(sent, constants)
    ensures LogsWellFormed(sent[c := [constants]], constants)
  {
  }

  lemma LogsAfterSend(sent: map<ClientId, seq<Message>>, constants: Message, c: ClientId, msg: Message)
    requires LogsWellFormed(sent, constants)
    requires c in sent && msg.BodyFrame?
    ensures LogsWellFormed(sent[c := sent[c] + [msg]], constants)
  {
    assert WellFormedLog(sent[c] + [msg], constants);
  }

  lemma AlternatingAppend(calls: seq<ReaderCall>, call: ReaderCall)
    requires Alternating(calls)
    requires call == if |calls| % 2 == 0 then OpenBodyReader else CloseBodyReader
    ensures Alternating(calls + [call])
  {
  }

  class BodyServer {
    /** The sensor library's `JointType`, `HandState` and `TrackingState`. */
    const jointTypeEnum: Entries<Value>
    const handStateEnum: Entries<Value>
    const trackingStateEnum: Entries<Value>

    /** `wss.clients`. */
    var clients: set<ClientId>
    /** Every message sent to each socket that ever connected. */
    var sent: map<ClientId, seq<Message>>
    /** Every call made on the sensor's body reader. */
    var readerCalls: seq<ReaderCall>
    /** Whether the last `openBodyReader()` succeeded and no close followed. */
    var readerOpen: bool

    function ConstantsMessage(): Message {
      Constants(EnumTable(jointTypeEnum), EnumTable(handStateEnum),
                EnumTable(trackingStateEnum), DepthWidth, DepthHeight)
    }

    /** The session invariant: every connected client has been sent the
        constants first and only frames after; an open request is
        outstanding exactly while the client set is non-empty. */
    ghost predicate Valid()
      reads this
    {
      && clients <= sent.Keys
      && LogsWellFormed(sent, ConstantsMessage())
      && Alternating(readerCalls)
      && (clients != {} <==> |readerCalls| % 2 == 1)
      && (readerOpen ==> clients != {})
    }

    constructor (jointType: Entries<Value>, handState: Entries<Value>, trackingState: Entries<Value>)
      ensures Valid()
      ensures jointTypeEnum == jointType && handStateEnum == handState
      ensures trackingStateEnum == trackingState
      ensures clients == {} && sent == map[] && readerCalls == [] && !readerOpen
    {
      jointTypeEnum, handStateEnum, trackingStateEnum := jointType, handState, trackingState;
      clients, sent, readerCalls, readerOpen := {}, map[], [], false;
    }

    /** A socket connects: the library adds it to `wss.clients`, then the
        `connection` handler sends it the constants and, if it is the only
        client, opens the body reader. `openFails` says whether
        `openBodyReader()` throws; the exception is logged and the
        connection goes on. */
    method Connect(c: ClientId, openFails: bool)
      requires Valid()
      requires c !in sent
      modifies this
      ensures Valid()
      ensures clients == old(clients) + {c}
      ensures sent == old(sent)[c := [ConstantsMessage()]]
      ensures readerCalls == old(readerCalls) + (if |clients| == 1 then [OpenBodyReader] else [])
      ensures readerOpen == (old(readerOpen) || (|clients| == 1 && !openFails))
    {
      ghost var before := clients;
      clients := clients + {c};
      assert |clients| == |before| + 1;
      var jointType := SerializeEnum(jointTypeEnum);
      var handState := SerializeEnum(handStateEnum);
      var trackingState := SerializeEnum(trackingStateEnum);
      var constants := Constants(jointType, handState, trackingState, 512, 424);
      assert constants == ConstantsMessage();
      LogsAfterConnect(sent, constants, c);
      sent := sent[c := [constants]];
      if |clients| == 1 {
        assert before == {};
        AlternatingAppend(readerCalls, OpenBodyReader);
        readerCalls := readerCalls + [OpenBodyReader];
        if !openFails {
          readerOpen := true;
        }
      }
    }

    /** A socket closes: the library removes it from `wss.clients`, then the
        `close` handler closes the body reader if no client is left. The
        close is fire-and-forget and a rejection is swallowed. */
    method Disconnect(c: ClientId)
      requires Valid()
      requires c in clients
      modifies this
      ensures Valid()
      ensures clients == old(clients) - {c}
      ensures sent == old(sent)
      ensures readerCalls == old(readerCalls) + (if clients == {} then [CloseBodyReader] else [])
      ensures readerOpen == (old(readerOpen) && clients != {})
    {
      clients := clients - {c};
      if |clients| == 0 {
        AlternatingAppend(readerCalls, CloseBodyReader);
        readerCalls := readerCalls + [CloseBodyReader];
        readerOpen := false;
      }
    }

    /** `for (const client of wss.clients)`: sends `msg` to every client that
        is in `open` (its `readyState` is OPEN). A send that throws (the
        client is in `failing`) is caught and logged; the loop goes on and
        the client stays in the set. */
    method Broadcast(msg: Message, open: set<ClientId>, failing: set<ClientId>)
      requires Valid()
      requires msg.BodyFrame?
      modifies this
      ensures Valid()
      ensures clients == old(clients) && readerCalls == old(readerCalls) && readerOpen == old(readerOpen)
      ensures sent.Keys == old(sent).Keys
      ensures forall c :: c in sent ==>
        sent[c] == old(sent)[c] + (if c in clients && c in open && c !in failing then [msg] else [])
    {
      var todo := clients;
      while todo != {}
        invariant todo <= clients
        invariant clients == old(clients) && readerCalls == old(readerCalls) && readerOpen == old(readerOpen)
        invariant sent.Keys == old(sent).Keys
        invariant forall c :: c in sent ==>
          sent[c] == old(sent)[c] + (if c in clients - todo && c in open && c !in failing then [msg] else [])
        invariant LogsWellFormed(sent, ConstantsMessage())
        decreases todo
      {
        var c :| c in todo;
        if c in open {
          if c !in failing {
            LogsAfterSend(sent, ConstantsMessage(), c, msg);
            sent := sent[c := sent[c] + [msg]];
          }
        }
        todo := todo - {c};
      }
    }

    /** The `bodyFrame` handler: the frame is normalised and the result
        broadcast; a frame without bodies still broadcasts an empty list. */
    method OnBodyFrame(frame: RawFrame, open: set<ClientId>, failing: set<ClientId>)
      requires Valid()
      modifies this
      ensures Valid()
      ensures clients == old(clients) && readerCalls == old(readerCalls) && readerOpen == old(readerOpen)
      ensures sent.Keys == old(sent).Keys
      ensures forall c :: c in sent ==>
        sent[c] == old(sent)[c] + (if c in clients && c in open && c !in failing then [FrameMessage(frame)] else [])
    {
      var bodiesArray := BodiesArray(frame);
      if |bodiesArray| == 0 {
        Broadcast(BodyFrame([]), open, failing);
        return;
      }
      var mapped := NormalizeBodies(bodiesArray);
      Broadcast(BodyFrame(mapped), open, failing);
    }
  }

  /** One client connects and leaves: the reader is opened once and closed
      once, and the client was sent exactly the constants. */
  method SingleClientSession(jointType: Entries<Value>, handState: Entries<Value>, trackingState: Entries<Value>)
    returns (calls: seq<ReaderCall>, log: seq<Message>)
    ensures calls == [OpenBodyReader, CloseBodyReader]
    ensures log == [Constants(EnumTable(jointType), EnumTable(handState), EnumTable(trackingState), 512, 424)]
  {
    var server := new BodyServer(jointType, handState, trackingState);
    server.Connect(1, false);
    server.Disconnect(1);
    calls, log := server.readerCalls, server.sent[1];
  }

  /** Two clients overlap: only the first connect opens the reader and only
      the last disconnect closes it. */
  method OverlappingSessions() returns (calls: seq<ReaderCall>)
    ensures calls == [OpenBodyReader, CloseBodyReader]
  {
    var server := new BodyServer([], [], []);
    server.Connect(1, true);
    server.Connect(2, false);
    assert server.readerCalls == [OpenBodyReader];
    server.Disconnect(1);
    assert server.readerCalls == [OpenBodyReader];
    server.Disconnect(2);
    calls := server.readerCalls;
  }

  /** A frame arrives while two clients are connected and the send to the
      second throws: the first still gets the frame and the second stays
      connected. */
  method FailingSendIsolated(frame: RawFrame) returns (first: seq<Message>, second: seq<Message>, clients: set<ClientId>)
    ensures |first| == 2 && first[1] == BodyFrame(NormalizeFrame(frame))
    ensures |second| == 1 && second[0].Constants?
    ensures clients == {1, 2}
  {
    var server := new BodyServer([], [], []);
    ghost var constants := server.ConstantsMessage();
    server.Connect(1, false);
    server.Connect(2, false);
    assert server.sent == map[1 := [constants], 2 := [constants]];
    ghost var m := FrameMessage(frame);
    server.OnBodyFrame(frame, {1, 2}, {2});
    assert server.sent[1] == [constants] + [m];
    assert server.sent[2] == [constants];
    first, second, clients := server.sent[1], server.sent[2], server.clients;
  }
}
