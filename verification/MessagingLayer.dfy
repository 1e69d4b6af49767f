/** The messaging object in place, over the connections and the message format. */
module MessagingLayer {
  import opened Types
  import opened Wire
  import opened Network
  import opened Correlation

  const STANDARD: int := 0
  const STANDARD_WITH_RESPONSE: int := 1
  const RESPONSE: int := 2

  /** What an application does with a request: a payload for the response, none, or an exception. Its own effects are
      not modelled. */
  type Handler = (Conn, bytes) -> Result<Option<bytes>>

  class Messaging {
    var lastMessageId: int
    var messageHandlers: map<bytes, Handler>
    var responseHandlers: map<(Conn, int), Entry>
    /** The response handlers invoked so far. */
    var fired: multiset<Firing>
    ghost var registered: map<int, (Conn, Callback)>

    ghost function Value(): Desk
      reads this
    {
      Desk(lastMessageId, responseHandlers, fired, registered)
    }

    constructor ()
      ensures Value() == IDLE && messageHandlers == map[]
    {
      lastMessageId, responseHandlers, fired, registered := 0, map[], multiset{}, map[];
      messageHandlers := map[];
    }

    /** One handler per kind: a second one is refused and the first stays. */
    method RegisterHandler(kind: bytes, handler: Handler) returns (raised: Option<Error>)
      modifies this`messageHandlers
      ensures kind in messageHandlers
      ensures if kind in old(messageHandlers)
              then raised == Some(AlreadyRegistered) && messageHandlers == old(messageHandlers)
              else raised == None && messageHandlers == old(messageHandlers)[kind := handler]
    {
      if kind in messageHandlers {
        return Some(AlreadyRegistered);
      }
      messageHandlers := messageHandlers[kind := handler];
      return None;
    }

    method NextMessageId() returns (id: int)
      modifies this`lastMessageId
      ensures id == lastMessageId == old(lastMessageId) + 1
    {
      lastMessageId := lastMessageId + 1;
      id := lastMessageId;
    }

    /** Registers the handler, if any, under a new id, and writes the message under that id; it raises when the id
        or the length no longer fits, with the handler registered. What the connection carries grows by it. */
    method SendMessage(conn: TcpConnection, kind: bytes, payload: bytes, handler: Option<Callback>,
                       timeout: Option<real>, now: real)
      returns (raised: Option<Error>)
      modifies this`lastMessageId, this`responseHandlers, this`registered, conn`sent
      ensures Value() == SendStep(old(Value()), conn.addr, handler, timeout, now)
      ensures old(Correlated(Value())) ==> Correlated(Value())
      ensures handler.Some? ==>
                var wait := if timeout.None? || timeout.value == 0.0 then 10.0 else timeout.value;
                responseHandlers
                == old(responseHandlers)[(conn.addr, lastMessageId) := Entry(now + wait, handler.value)]
      ensures handler.None? ==> responseHandlers == old(responseHandlers)
      ensures lastMessageId == old(lastMessageId) + 1
      ensures var m := Message(if handler.Some? then 1 else 0, old(lastMessageId) + 1, kind, payload);
              match SerializeMessage(m)
              case Err(e) => raised == Some(e) && conn.sent == old(conn.sent)
              case Ok(data) =>
                if !conn.connected then raised == None && conn.sent == old(conn.sent)
                else
                  match Frame(data)
                  case Err(e) => raised == Some(e) && conn.sent == old(conn.sent)
                  case Ok(frame) => raised == None && conn.sent == old(conn.sent) + frame
      ensures forall ms :: Carries(old(conn.sent), ms) && raised == None && conn.connected ==>
                var m := Message(if handler.Some? then 1 else 0, old(lastMessageId) + 1, kind, payload);
                Carries(conn.sent, ms + [m])
    {
      hide Correlated, Carries, Frame, SerializeMessage;
      if Correlated(Value()) {
        SendKeeps(Value(), conn.addr, handler, timeout, now);
      }
      var id := NextMessageId();
      var messageType := STANDARD;
      if handler.Some? {
        var wait := if timeout.None? || timeout.value == 0.0 then DEFAULT_TIMEOUT else timeout.value;
        responseHandlers := responseHandlers[(conn.addr, id) := Entry(now + wait, handler.value)];
        registered := registered[id := (conn.addr, handler.value)];
        messageType := STANDARD_WITH_RESPONSE;
      }
      var m := Message(messageType, id, kind, payload);
      var data := SerializeMessage(m);
      if data.Err? {
        return Some(data.error);
      }
      ghost var before := conn.sent;
      raised := conn.SendMessage(data.value);
      forall ms | Carries(before, ms) && raised == None && conn.connected ensures Carries(conn.sent, ms + [m]) {
        CarriesOneMore(before, ms, m);
      }
    }

    method HandleResponse(conn: TcpConnection, message: Message)
      modifies this`responseHandlers, this`fired
      ensures Value() == ResponseStep(old(Value()), conn.addr, message.id, message.payload)
      ensures old(Correlated(Value())) ==> Correlated(Value())
    {
      if Correlated(Value()) {
        ResponseKeeps(Value(), conn.addr, message.id, message.payload);
      }
      var key := (conn.addr, message.id);
      if key in responseHandlers {
        var callback := responseHandlers[key].callback;
        responseHandlers := responseHandlers - {key};
        fired := fired + multiset{Firing(conn.addr, message.id, callback, Some(message.payload))};
      }
    }

    /** One received message. A request goes to the handler of its kind and is answered at most once, under its own
        id; a response goes to its request; nothing else is written or fired. */
    method HandleMessage(conn: TcpConnection, data: bytes) returns (raised: Option<Error>)
      modifies this`responseHandlers, this`fired, conn`sent
      ensures match DeserializeMessage(data)
              case Err(e) => raised == Some(e) && Value() == old(Value()) && conn.sent == old(conn.sent)
              case Ok(m) =>
                if m.messageType == 2 then
                  && raised == None && conn.sent == old(conn.sent)
                  && Value() == ResponseStep(old(Value()), conn.addr, m.id, m.payload)
                else
                  && Value() == old(Value())
                  && match if m.kind in messageHandlers then messageHandlers[m.kind](conn.addr, m.payload) else Ok(None)
                     case Err(e) => raised == Some(e) && conn.sent == old(conn.sent)
                     case Ok(answer) =>
                       if m.messageType != 1 || answer == None || !conn.connected
                       then raised == None && conn.sent == old(conn.sent)
                       else
                         var reply := SerializeMessage(Message(2, m.id, [], answer.value));
                         && reply.Ok?
                         && match Frame(reply.value)
                            case Err(e) => raised == Some(e) && conn.sent == old(conn.sent)
                            case Ok(frame) => raised == None && conn.sent == old(conn.sent) + frame
    {
      var message := DeserializeMessage(data);
      if message.Err? {
        return Some(message.error);
      }
      var m := message.value;
      if m.messageType == RESPONSE {
        HandleResponse(conn, m);
        return None;
      }
      if m.kind !in messageHandlers {
        return None;
      }
      var answer := messageHandlers[m.kind](conn.addr, m.payload);
      if answer.Err? {
        return Some(answer.error);
      }
      if m.messageType == STANDARD_WITH_RESPONSE && answer.value.Some? {
        ParsedIdFits(data);
        PrintableMessage(Message(RESPONSE, m.id, [], answer.value.value));
        var reply := SerializeMessage(Message(RESPONSE, m.id, [], answer.value.value));
        raised := conn.SendMessage(reply.value);
        return;
      }
      return None;
    }

    /** The sweep removes first and invokes afterwards. */
    method ProcessTimeouts(now: real)
      modifies this`responseHandlers, this`fired
      ensures Value() == SweepStep(old(Value()), now)
      ensures old(Correlated(Value())) ==> Correlated(Value())
      ensures forall k :: k in responseHandlers ==> now < responseHandlers[k].expireAt
    {
      hide TimeoutsOf;
      if Correlated(Value()) {
        SweepKeeps(Value(), now);
      }
      var toInvoke := RemoveExpired(now);
      fired := fired + multiset(toInvoke);
    }

    method RemoveExpired(now: real) returns (toInvoke: set<Firing>)
      modifies this`responseHandlers
      ensures var gone := Expired(old(responseHandlers), now);
              && responseHandlers == old(responseHandlers) - gone
              && toInvoke == TimeoutsOf(old(responseHandlers), gone)
    {
      ghost var before := responseHandlers;
      ghost var gone: set<(Conn, int)> := {};
      toInvoke := {};
      var todo := responseHandlers.Keys;
      while todo != {}
        invariant todo <= before.Keys && gone == Expired(before, now) - todo
        invariant responseHandlers == before - gone
        invariant toInvoke == TimeoutsOf(before, gone)
        decreases todo
      {
        var key :| key in todo;
        todo := todo - {key};
        assert key in responseHandlers && responseHandlers[key] == before[key];
        if now >= responseHandlers[key].expireAt {
          toInvoke := toInvoke + {Firing(key.0, key.1, responseHandlers[key].callback, None)};
          responseHandlers := responseHandlers - {key};
          assert TimeoutsOf(before, gone + {key}) == TimeoutsOf(before, gone) + {TimeoutOf(before, key)};
          gone := gone + {key};
        }
      }
      assert gone == Expired(before, now);
    }
  }
}
