/**
 * The gossip broadcast node (Broadcast/Program.cs): the set of known values,
 * the values received from clients and not yet gossiped, and the in-flight
 * gossip messages keyed by their `msg_id`, retransmitted on every flush tick
 * until a `broadcast_ok` acknowledges them.
 */
module Broadcast {
  import opened Optional
  import opened Wire
  import opened Text
  import MsgType
  import opened Runtime
  import Sets

  /** The known values and the subset still to be gossiped. */
  datatype Known = Known(data: set<int>, batched: set<int>)

  function Elements(xs: seq<int>): set<int> {
    set x | x in xs
  }

  /**
   * What a `broadcast` body does to the two sets: a single value not yet
   * known becomes known, and pending for gossip when a client (a source
   * starting with "c") sent it; a batch from a peer only becomes known.
   */
  function Receive(k: Known, src: string, message: Option<int>, batch: Option<seq<int>>): (r: Known)
    ensures k.data <= r.data && k.batched <= r.batched
    ensures r.batched - k.batched <= Single(message) - k.data
    ensures r.data - k.data <= Single(message) + BatchSet(batch)
  {
    var k1 :=
      if message.Some? && message.value !in k.data then
        Known(k.data + {message.value},
              if StartsWith(src, "c") then k.batched + {message.value} else k.batched)
      else k;
    if batch.Some? then k1.(data := k1.data + Elements(batch.value)) else k1
  }

  function Single(message: Option<int>): set<int> {
    if message.Some? then {message.value} else {}
  }

  function BatchSet(batch: Option<seq<int>>): set<int> {
    if batch.Some? then Elements(batch.value) else {}
  }

  /**
   * Known values only grow, by exactly the values received; only a new
   * client value becomes pending, never a value of a batch.
   */
  lemma ReceiveEffect(k: Known, src: string, message: Option<int>, batch: Option<seq<int>>)
    ensures Receive(k, src, message, batch).data == k.data + Single(message) + BatchSet(batch)
    ensures Receive(k, src, message, batch).batched ==
      k.batched + if message.Some? && message.value !in k.data && StartsWith(src, "c") then {message.value} else {}
  {
  }

  /** Every pending value is known, before and after a `broadcast`. */
  lemma ReceiveKeepsPendingKnown(k: Known, src: string, message: Option<int>, batch: Option<seq<int>>)
    requires k.batched <= k.data
    ensures Receive(k, src, message, batch).batched <= Receive(k, src, message, batch).data
  {
  }

  /** Values already known change nothing: re-delivery neither grows the set nor re-gossips. */
  lemma {:induction false} ReceiveKnownIsNoop(k: Known, src: string, message: Option<int>, batch: Option<seq<int>>)
    requires Single(message) <= k.data && BatchSet(batch) <= k.data
    ensures Receive(k, src, message, batch) == k
  {
    ReceiveEffect(k, src, message, batch);
  }

  /** Delivering the same `broadcast` twice is the same as delivering it once. */
  lemma {:induction false} ReceiveIdempotent(k: Known, src: string, message: Option<int>, batch: Option<seq<int>>)
    ensures var once := Receive(k, src, message, batch);
      Receive(once, src, message, batch) == once
  {
    var once := Receive(k, src, message, batch);
    ReceiveEffect(k, src, message, batch);
    ReceiveKnownIsNoop(once, src, message, batch);
  }

  /** `HashSet.ToList()`: every element once, in an order the model leaves open. */
  method ToList(s: set<int>) returns (xs: seq<int>)
    ensures forall x :: x in xs <==> x in s
    ensures |xs| == |s|
  {
    var rest := s;
    xs := [];
    while rest != {}
      invariant rest <= s
      invariant forall x :: x in xs <==> x in s && x !in rest
      invariant |xs| + |rest| == |s|
      decreases |rest|
    {
      var x := Sets.Pick(rest);
      xs := xs + [x];
      rest := rest - {x};
    }
  }

  /** The gossip message for one peer. */
  function Gossip(self: string, dest: string, batch: seq<int>, id: int): Message {
    Message(self, dest, Typed(MsgType.Broadcast).(messageBatch := Some(batch), msgId := Some(id)))
  }

  /** The gossip messages of one flush, in peer order, with ids base + 1, base + 2, .... */
  function GossipList(self: string, peers: seq<string>, batch: seq<int>, base: int): (r: seq<Message>)
    ensures |r| == |peers|
  {
    if peers == [] then []
    else GossipList(self, peers[..|peers| - 1], batch, base) + [Gossip(self, peers[|peers| - 1], batch, base + |peers|)]
  }

  /** The same messages, keyed by their ids as the in-flight table records them. */
  function Gossips(self: string, peers: seq<string>, batch: seq<int>, base: int): (r: map<int, Message>)
    ensures forall id :: id in r ==> base < id <= base + |peers|
    ensures forall id :: id in r ==> r[id].src == self && r[id].body.msgId == Some(id) && r[id].body.messageBatch == Some(batch)
  {
    if peers == [] then map[]
    else Gossips(self, peers[..|peers| - 1], batch, base)[base + |peers| := Gossip(self, peers[|peers| - 1], batch, base + |peers|)]
  }

  /**
   * A flush creates one message per peer, all carrying the same batch, each
   * under its own id base + 1 .. base + |peers|, and addressed to that peer.
   */
  lemma {:induction false} GossipsShape(self: string, peers: seq<string>, batch: seq<int>, base: int)
    ensures forall id :: id in Gossips(self, peers, batch, base) <==> base < id <= base + |peers|
    ensures forall i :: 0 <= i < |peers| ==>
      Gossips(self, peers, batch, base)[base + 1 + i] == Gossip(self, peers[i], batch, base + 1 + i) &&
      GossipList(self, peers, batch, base)[i] == Gossip(self, peers[i], batch, base + 1 + i)
  {
    if peers != [] {
      var init := peers[..|peers| - 1];
      GossipsShape(self, init, batch, base);
      forall i | 0 <= i < |init| ensures init[i] == peers[i] {
      }
    }
  }

  lemma GossipStep(self: string, peers: seq<string>, batch: seq<int>, base: int, i: int)
    requires 0 <= i < |peers|
    ensures GossipList(self, peers[..i + 1], batch, base) ==
      GossipList(self, peers[..i], batch, base) + [Gossip(self, peers[i], batch, base + i + 1)]
  {
    assert peers[..i + 1][..i] == peers[..i];
  }

  /** The in-flight table `m` with the messages of one flush added, one peer at a time. */
  function GossipsOnto(m: map<int, Message>, self: string, peers: seq<string>, batch: seq<int>, base: int): map<int, Message> {
    if peers == [] then m
    else GossipsOnto(m, self, peers[..|peers| - 1], batch, base)[base + |peers| := Gossip(self, peers[|peers| - 1], batch, base + |peers|)]
  }

  lemma GossipsOntoStep(m: map<int, Message>, self: string, peers: seq<string>, batch: seq<int>, base: int, i: int)
    requires 0 <= i < |peers|
    ensures GossipsOnto(m, self, peers[..i + 1], batch, base) ==
      GossipsOnto(m, self, peers[..i], batch, base)[base + i + 1 := Gossip(self, peers[i], batch, base + i + 1)]
  {
    assert peers[..i + 1][..i] == peers[..i];
  }

  /** Adding the messages one at a time is adding the whole flush's table at once. */
  lemma {:induction false} GossipsOntoUnion(m: map<int, Message>, self: string, peers: seq<string>, batch: seq<int>, base: int)
    ensures GossipsOnto(m, self, peers, batch, base) == m + Gossips(self, peers, batch, base)
  {
    if peers != [] {
      var init := peers[..|peers| - 1];
      GossipsOntoUnion(m, self, init, batch, base);
      UpdateUnion(m, Gossips(self, init, batch, base), base + |peers|, Gossip(self, peers[|peers| - 1], batch, base + |peers|));
    }
  }

  /** Updating a union at a key updates its right operand there. */
  lemma UpdateUnion(a: map<int, Message>, b: map<int, Message>, k: int, v: Message)
    ensures (a + b)[k := v] == a + b[k := v]
  {
  }

  /** The retransmissions of one flush: each in-flight message, re-sent with its own id. */
  function Resent(self: string, msgs: map<int, Message>, order: seq<int>): (r: seq<Message>)
    requires forall i :: 0 <= i < |order| ==> order[i] in msgs
    ensures |r| == |order|
  {
    if order == [] then []
    else Resent(self, msgs, order[..|order| - 1]) + [msgs[order[|order| - 1]].(src := self)]
  }

  /** The in-flight table after retransmission: SendMessage sets the source of each stored message. */
  function Refresh(self: string, msgs: map<int, Message>): (r: map<int, Message>)
    ensures r.Keys == msgs.Keys
    ensures forall id :: id in r ==> r[id].src == self && r[id].dest == msgs[id].dest && r[id].body == msgs[id].body
  {
    map id | id in msgs :: msgs[id].(src := self)
  }

  class BroadcastNode {
    const rt: Server
    var data: set<int>
    var neighbors: seq<string>
    var messages: map<int, Message>
    var batched: set<int>

    ghost predicate Valid()
      reads this, rt
    {
      && rt.Valid()
      && batched <= data
      && forall id :: id in messages ==> 0 < id <= rt.msgId && messages[id].body.msgId == Some(id)
    }

    ghost function State(): Known
      reads this
    {
      Known(data, batched)
    }

    constructor ()
      ensures Valid() && fresh(rt)
      ensures data == {} && batched == {} && neighbors == [] && messages == map[]
      ensures rt.handlers == {MsgType.Init, MsgType.Broadcast, MsgType.Read, MsgType.Topology, MsgType.BroadcastOk}
      ensures rt.msgId == 0 && rt.pending == map[] && rt.outbox == []
    {
      var s := new Server();
      var ok := s.On(MsgType.Broadcast);
      ok := s.On(MsgType.Read);
      ok := s.On(MsgType.Topology);
      ok := s.On(MsgType.BroadcastOk);
      rt := s;
      data := {};
      batched := {};
      neighbors := [];
      messages := map[];
    }

    method StoreData(d: int)
      modifies this`data
      ensures data == old(data) + {d}
    {
      data := data + {d};
    }

    method StoreDataBatched(xs: seq<int>)
      modifies this`data
      ensures data == old(data) + Elements(xs)
    {
      data := data + Elements(xs);
    }

    method BroadcastHandler(request: Message) returns (reply: Option<Body>)
      requires Valid()
      modifies this`data, this`batched
      ensures Valid()
      ensures State() == Receive(old(State()), request.src, request.body.message, request.body.messageBatch)
      ensures reply == Some(Typed(MsgType.BroadcastOk))
    {
      if request.body.message.Some? {
        var d := request.body.message.value;
        if d !in data {
          StoreData(d);
          if StartsWith(request.src, "c") {
            batched := batched + {d};
          }
        }
      }
      if request.body.messageBatch.Some? {
        StoreDataBatched(request.body.messageBatch.value);
      }
      reply := Some(Typed(MsgType.BroadcastOk));
    }

    method GetDataAsList() returns (xs: seq<int>)
      ensures forall x :: x in xs <==> x in data
      ensures |xs| == |data|
    {
      xs := ToList(data);
    }

    /** `read` answers with every known value, each once. */
    method ReadHandler(request: Message) returns (reply: Option<Body>)
      ensures reply.Some? && reply.value.messages.Some?
      ensures reply.value == Typed(MsgType.ReadOk).(messages := reply.value.messages)
      ensures var xs := reply.value.messages.value;
        (forall x :: x in xs <==> x in data) && |xs| == |data|
    {
      var xs := GetDataAsList();
      reply := Some(Typed(MsgType.ReadOk).(messages := Some(xs)));
    }

    /** A topology without an entry for this node is refused and changes nothing. */
    method TopologyHandler(request: Message) returns (reply: Option<Body>)
      modifies this`neighbors
      ensures var t := request.body.topology;
        if t.None? || rt.nodeId !in t.value then
          reply == Some(Typed(MsgType.Error)) && neighbors == old(neighbors)
        else
          reply == Some(Typed(MsgType.TopologyOk)) && neighbors == t.value[rt.nodeId]
    {
      var topology := request.body.topology;
      if topology.None? || rt.nodeId !in topology.value {
        return Some(Typed(MsgType.Error));
      }
      neighbors := topology.value[rt.nodeId];
      reply := Some(Typed(MsgType.TopologyOk));
    }

    /** An acknowledgement retires the in-flight message it answers, and is not answered. */
    method BroadcastOkHandler(request: Message) returns (reply: Option<Body>)
      requires Valid()
      modifies this`messages
      ensures Valid()
      ensures reply == None
      ensures messages == if request.body.inReplyTo.Some? then old(messages) - {request.body.inReplyTo.value}
                          else old(messages)
    {
      if request.body.inReplyTo.None? {
        return None;
      }
      var id := request.body.inReplyTo.value;
      if id !in messages {
        return None;
      }
      messages := messages - {id};
      reply := None;
    }

    /**
     * The flush tick: every in-flight message is re-sent as it is (`order`
     * is the enumeration order of the table), the pending set is drained
     * into `drained`, and when it was not empty one fresh message per other
     * node of the cluster (not per topology neighbour) carries it and is
     * recorded in flight.
     */
    method SendBatchedJob() returns (drained: seq<int>, ghost order: seq<int>)
      requires Valid()
      modifies this`batched, this`messages, rt`msgId, rt`outbox
      ensures Valid()
      ensures batched == {} && data == old(data)
      ensures (forall x :: x in drained <==> x in old(batched)) && |drained| == |old(batched)|
      ensures (forall id :: id in order <==> id in old(messages)) && |order| == |old(messages)|
      ensures forall i :: 0 <= i < |order| ==> order[i] in old(messages)
      ensures var base := old(rt.msgId);
        var peers := Others(rt.nodeIds, rt.nodeId);
        var resent := Resent(rt.nodeId, old(messages), order);
        if drained == [] then
          && rt.msgId == base
          && messages == Refresh(rt.nodeId, old(messages))
          && rt.outbox == old(rt.outbox) + resent
        else
          && rt.msgId == base + |peers|
          && old(messages).Keys !! Gossips(rt.nodeId, peers, drained, base).Keys
          && messages == Refresh(rt.nodeId, old(messages)) + Gossips(rt.nodeId, peers, drained, base)
          && rt.outbox == old(rt.outbox) + resent + GossipList(rt.nodeId, peers, drained, base)
    {
      order := ResendInFlight();
      drained := ToList(batched);
      batched := {};
      if drained != [] {
        GossipBatch(drained);
      }
    }

    /** Re-sends every in-flight message, in the enumeration order `order`, under its own id. */
    method ResendInFlight() returns (ghost order: seq<int>)
      requires Valid()
      modifies this`messages, rt`msgId, rt`outbox
      ensures Valid()
      ensures (forall id :: id in order <==> id in old(messages)) && |order| == |old(messages)|
      ensures forall i :: 0 <= i < |order| ==> order[i] in old(messages)
      ensures rt.msgId == old(rt.msgId)
      ensures messages == Refresh(rt.nodeId, old(messages))
      ensures rt.outbox == old(rt.outbox) + Resent(rt.nodeId, old(messages), order)
    {
      var self := rt.nodeId;
      var before := messages;
      var ids := messages.Keys;
      order := [];
      while ids != {}
        invariant ids <= before.Keys
        invariant forall id :: id in order <==> id in before && id !in ids
        invariant forall i :: 0 <= i < |order| ==> order[i] in before
        invariant |order| + |ids| == |before|
        invariant messages == before && rt.msgId == old(rt.msgId) && rt.nodeId == self
        invariant rt.outbox == old(rt.outbox) + Resent(self, before, order)
        decreases |ids|
      {
        var id := Sets.Pick(ids);
        var sent := rt.SendMessage(messages[id]);
        assert sent == before[id].(src := self);
        assert (order + [id])[..|order|] == order;
        order := order + [id];
        ids := ids - {id};
      }
      messages := Refresh(self, messages);
    }

    /** Records and sends one gossip message for `dest` under the next id. */
    method GossipTo(dest: string, batch: seq<int>)
      requires Valid()
      modifies this`messages, rt`msgId, rt`outbox
      ensures Valid()
      ensures rt.msgId == old(rt.msgId) + 1
      ensures messages == old(messages)[rt.msgId := Gossip(rt.nodeId, dest, batch, rt.msgId)]
      ensures rt.outbox == old(rt.outbox) + [Gossip(rt.nodeId, dest, batch, rt.msgId)]
    {
      var id := rt.NextMessageId();
      var m := Message("", dest, Typed(MsgType.Broadcast).(messageBatch := Some(batch), msgId := Some(id)));
      // Dictionary.Add cannot throw: every id in flight was handed out earlier.
      assert id !in messages;
      // SendMessage fills in the source of the very object just stored.
      var sent := rt.SendMessage(m);
      messages := messages[id := sent];
    }

    /** One new in-flight message per other node, each carrying `batch` under a fresh id. */
    method GossipBatch(batch: seq<int>)
      requires Valid()
      modifies this`messages, rt`msgId, rt`outbox
      ensures Valid()
      ensures var base := old(rt.msgId);
        var peers := Others(rt.nodeIds, rt.nodeId);
        && rt.msgId == base + |peers|
        && old(messages).Keys !! Gossips(rt.nodeId, peers, batch, base).Keys
        && messages == old(messages) + Gossips(rt.nodeId, peers, batch, base)
        && rt.outbox == old(rt.outbox) + GossipList(rt.nodeId, peers, batch, base)
    {
      var self := rt.nodeId;
      var base := rt.msgId;
      var peers := Others(rt.nodeIds, rt.nodeId);
      var i := 0;
      assert peers[..0] == [];
      while i < |peers|
        invariant 0 <= i <= |peers|
        invariant rt.msgId == base + i && rt.nodeId == self && rt.nodeIds == old(rt.nodeIds)
        invariant messages == GossipsOnto(old(messages), self, peers[..i], batch, base)
        invariant rt.outbox == old(rt.outbox) + GossipList(self, peers[..i], batch, base)
        invariant Valid()
      {
        ghost var sentSoFar := GossipList(self, peers[..i], batch, base);
        GossipTo(peers[i], batch);
        GossipStep(self, peers, batch, base, i);
        GossipsOntoStep(old(messages), self, peers, batch, base, i);
        assert rt.outbox == old(rt.outbox) + (sentSoFar + [Gossip(self, peers[i], batch, base + i + 1)]);
        i := i + 1;
      }
      assert peers[..|peers|] == peers;
      GossipsOntoUnion(old(messages), self, peers, batch, base);
      GossipsShape(self, peers, batch, base);
      assert forall id :: id in old(messages) ==> id <= base;
    }
  }
}
