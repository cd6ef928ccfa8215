/**
 * The node runtime of ServerLib/Server.cs: message-id allocation, the handler
 * registry, the table of pending synchronous requests, envelope filling and
 * the routing decision taken for every inbound line. Lines arrive already
 * parsed (None stands for a line that did not deserialize) and every line the
 * node writes is appended to `outbox`.
 */
module Runtime {
  import opened Optional
  import opened Wire
  import MsgType

  /** The single-fulfilment slot of a pending request (a TaskCompletionSource). */
  datatype Slot = Waiting | Completed(reply: Message)

  /** How the race between a reply and the request's timer ended. */
  datatype RpcOutcome = Replied(reply: Message) | TimedOut

  /** What the read loop does with one inbound line. */
  datatype Route =
    | Skipped              // unparseable, or no body type
    | Resolved(id: int)    // completes the pending slot `id`; no handler runs
    | Faulted(id: int)     // the slot `id` was already completed: SetResult throws and the loop dies
    | Dispatched(typ: string)  // the handler registered for `typ` runs
    | Dropped              // no handler for the type

  /** `NodeIds.Where(x => x != NodeId)`: the other nodes, in list order. */
  function Others(ids: seq<string>, self: string): (r: seq<string>)
    ensures forall x :: x in r <==> x in ids && x != self
    ensures |r| <= |ids|
  {
    if ids == [] then []
    else (if ids[0] == self then [] else [ids[0]]) + Others(ids[1..], self)
  }

  /** The `msg_id ?? getNextMessageId()` rule: a set id is kept, otherwise `nextId` is used. */
  function KeepOrAssign(b: Body, nextId: int): (r: Body)
    ensures r.msgId == if b.msgId.Some? then b.msgId else Some(nextId)
    ensures r.(msgId := b.msgId) == b
  {
    if b.msgId.Some? then b else b.(msgId := Some(nextId))
  }

  /** The envelope `SendResponse` writes for `response` to `request`. */
  function ResponseTo(self: string, request: Message, response: Body, nextId: int): (m: Message)
    ensures m.src == self && m.dest == request.src
    ensures m.body.inReplyTo == request.body.msgId
    ensures m.body.msgId == if response.msgId.Some? then response.msgId else Some(nextId)
    ensures m.body.(msgId := response.msgId, inReplyTo := response.inReplyTo) == response
  {
    Message(self, request.src, KeepOrAssign(response, nextId).(inReplyTo := request.body.msgId))
  }

  /** The envelope `SendMessage` writes for `m`: the source is set, the destination is left alone. */
  function Outgoing(self: string, m: Message, nextId: int): (r: Message)
    ensures r.src == self && r.dest == m.dest
    ensures r.body.msgId == if m.body.msgId.Some? then m.body.msgId else Some(nextId)
    ensures r.body.(msgId := m.body.msgId) == m.body
  {
    Message(self, m.dest, KeepOrAssign(m.body, nextId))
  }

  class Server {
    var msgId: int                 // the last id handed out
    var handlers: set<string>      // the message types with a registered handler
    var pending: map<int, Slot>    // SyncResponseDictionary
    var nodeId: string
    var nodeIds: seq<string>
    var outbox: seq<Message>       // every line written, in order

    ghost predicate Valid()
      reads this
    {
      0 <= msgId && MsgType.Init in handlers
    }

    constructor ()
      ensures Valid()
      ensures msgId == 0 && handlers == {MsgType.Init} && pending == map[]
      ensures nodeId == "uninitialized" && nodeIds == [] && outbox == []
    {
      msgId := 0;
      handlers := {MsgType.Init};
      pending := map[];
      nodeId := "uninitialized";
      nodeIds := [];
      outbox := [];
    }

    /** Registers a handler; a second registration of a type fails (Dictionary.Add throws). */
    method On(t: string) returns (ok: bool)
      modifies this`handlers
      ensures ok <==> t !in old(handlers)
      ensures handlers == old(handlers) + {t}
    {
      ok := t !in handlers;
      if ok {
        handlers := handlers + {t};
      }
    }

    /** Ids are handed out 1, 2, 3, ...: each one exceeds every id handed out before. */
    method NextMessageId() returns (id: int)
      modifies this`msgId
      ensures id == old(msgId) + 1 && msgId == id
    {
      msgId := msgId + 1;
      id := msgId;
    }

    /** Adopts the identity and peer list an `init` supplies, keeping what it omits. */
    method InitHandler(request: Message) returns (reply: Option<Body>)
      modifies this`nodeId, this`nodeIds
      ensures nodeId == request.body.nodeId.GetOr(old(nodeId))
      ensures nodeIds == request.body.nodeIds.GetOr(old(nodeIds))
      ensures reply == Some(Typed(MsgType.InitOk))
    {
      if request.body.nodeId.Some? {
        nodeId := request.body.nodeId.value;
      }
      if request.body.nodeIds.Some? {
        nodeIds := request.body.nodeIds.value;
      }
      reply := Some(Typed(MsgType.InitOk));
    }

    method SendResponse(request: Message, response: Body)
      modifies this`msgId, this`outbox
      ensures msgId == old(msgId) + if response.msgId.Some? then 0 else 1
      ensures outbox == old(outbox) + [ResponseTo(nodeId, request, response, msgId)]
    {
      var nextId := msgId;
      if response.msgId.None? {
        nextId := NextMessageId();
      }
      outbox := outbox + [ResponseTo(nodeId, request, response, nextId)];
    }

    /** Writes `m` and returns it as filled in (the source mutates its argument). */
    method SendMessage(m: Message) returns (sent: Message)
      modifies this`msgId, this`outbox
      ensures msgId == old(msgId) + if m.body.msgId.Some? then 0 else 1
      ensures sent == Outgoing(nodeId, m, msgId)
      ensures outbox == old(outbox) + [sent]
    {
      var nextId := msgId;
      if m.body.msgId.None? {
        nextId := NextMessageId();
      }
      sent := Outgoing(nodeId, m, nextId);
      outbox := outbox + [sent];
    }

    /**
     * The first half of SendRequestSync: the slot is registered under the
     * request's id (replacing any slot already there) before the line is written.
     */
    method SendRequest(request: Message) returns (id: int, sent: Message)
      modifies this`msgId, this`pending, this`outbox
      ensures msgId == old(msgId) + if request.body.msgId.Some? then 0 else 1
      ensures sent == Outgoing(nodeId, request, msgId) && sent.body.msgId == Some(id)
      ensures pending == old(pending)[id := Waiting]
      ensures outbox == old(outbox) + [sent]
    {
      var nextId := msgId;
      if request.body.msgId.None? {
        nextId := NextMessageId();
      }
      sent := Outgoing(nodeId, request, nextId);
      id := sent.body.msgId.value;
      pending := pending[id := Waiting];
      outbox := outbox + [sent];
    }

    /**
     * The second half of SendRequestSync, once the race is decided: either the
     * timer fired first, or the slot was completed by a reply. A reply
     * removes the slot and is returned as is; a timeout leaves the slot in
     * place, so a late reply still matches it.
     */
    method AwaitReply(id: int, timerFired: bool) returns (outcome: RpcOutcome)
      requires id in pending && (timerFired || pending[id].Completed?)
      modifies this`pending
      ensures timerFired ==> outcome == TimedOut && pending == old(pending)
      ensures !timerFired ==> outcome == Replied(old(pending)[id].reply) && pending == old(pending) - {id}
    {
      if timerFired {
        outcome := TimedOut;
      } else {
        outcome := Replied(pending[id].reply);
        pending := pending - {id};
      }
    }

    /**
     * The routing decision of the read loop for one line: a reply to a
     * pending request completes that slot and nothing else; otherwise the
     * registered handler runs; otherwise the line is dropped.
     */
    method Deliver(line: Option<Message>) returns (route: Route)
      modifies this`pending
      ensures line.None? || line.value.body.typ.None? ==> route == Skipped && pending == old(pending)
      ensures line.Some? && line.value.body.typ.Some? ==>
        var m := line.value;
        var r := m.body.inReplyTo.GetOr(-1);
        if r >= 0 && r in old(pending) then
          if old(pending)[r].Waiting? then route == Resolved(r) && pending == old(pending)[r := Completed(m)]
          else route == Faulted(r) && pending == old(pending)
        else if m.body.typ.value in handlers then route == Dispatched(m.body.typ.value) && pending == old(pending)
        else route == Dropped && pending == old(pending)
    {
      if line.None? || line.value.body.typ.None? {
        return Skipped;
      }
      var m := line.value;
      var r := m.body.inReplyTo.GetOr(-1);
      if r >= 0 && r in pending {
        if pending[r].Waiting? {
          pending := pending[r := Completed(m)];
          route := Resolved(r);
        } else {
          route := Faulted(r);
        }
      } else if m.body.typ.value in handlers {
        route := Dispatched(m.body.typ.value);
      } else {
        route := Dropped;
      }
    }

    /**
     * SendRequestSync to a peer whose answer is `answer`: None when no reply
     * arrives before the timer. A reply without a type is skipped by the
     * read loop, so the caller times out on it too.
     */
    method Exchange(request: Message, answer: Option<Body>) returns (outcome: RpcOutcome)
      requires Valid() && request.body.msgId.None?
      modifies this`msgId, this`pending, this`outbox
      ensures Valid() && msgId == old(msgId) + 1
      ensures outbox == old(outbox) + [Outgoing(nodeId, request, msgId)]
      ensures answer.Some? && answer.value.typ.Some? ==>
        outcome == Replied(Message(request.dest, nodeId, answer.value.(inReplyTo := Some(msgId))))
        && pending == old(pending)[msgId := Waiting] - {msgId}
      ensures !(answer.Some? && answer.value.typ.Some?) ==>
        outcome == TimedOut && pending == old(pending)[msgId := Waiting]
    {
      var id, sent := SendRequest(request);
      if answer.Some? && answer.value.typ.Some? {
        var reply := Message(request.dest, nodeId, answer.value.(inReplyTo := Some(id)));
        var route := Deliver(Some(reply));
        outcome := AwaitReply(id, false);
      } else {
        var route := Deliver(if answer.Some? then Some(Message(request.dest, nodeId, answer.value.(inReplyTo := Some(id)))) else None);
        outcome := AwaitReply(id, true);
      }
    }

    /** What the task running a handler does with its result: reply only when there is one. */
    method Respond(request: Message, response: Option<Body>)
      modifies this`msgId, this`outbox
      ensures response.None? ==> msgId == old(msgId) && outbox == old(outbox)
      ensures response.Some? ==>
        msgId == old(msgId) + (if response.value.msgId.Some? then 0 else 1) &&
        outbox == old(outbox) + [ResponseTo(nodeId, request, response.value, msgId)]
    {
      if response.Some? {
        SendResponse(request, response.value);
      }
    }
  }

  /**
   * A request that timed out keeps its slot: a reply arriving afterwards
   * still completes it, and is not handed to a handler even when its type
   * has one (here `init`, registered by every server).
   */
  method LateReplyStillMatches(request: Message, reply: Message) returns (first: RpcOutcome, route: Route)
    requires request.body.msgId.None?
    requires reply.body.typ == Some(MsgType.Init) && reply.body.inReplyTo == Some(1)
    ensures first == TimedOut && route == Resolved(1)
  {
    var s := new Server();
    var id, _ := s.SendRequest(request);
    first := s.AwaitReply(id, true);
    route := s.Deliver(Some(reply));
  }
}
