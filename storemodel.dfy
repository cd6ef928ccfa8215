/**
 * The behaviour assumed of the external stores (`lin-kv`, `seq-kv`), which
 * are not part of this repository: a single map from keys to string values
 * answering `read`, `write` and `cas` with the error codes the client
 * expects. The lemmas connect each client operation with this behaviour.
 */
module StoreModel {
  import opened Optional
  import opened Wire
  import opened Text
  import MsgType
  import opened Runtime
  import opened KVClients

  const UnsupportedCode := 10
  const MalformedCode := 12

  function ErrorReply(code: int): Body {
    EmptyBody.(typ := Some(MsgType.Error), code := Some(code))
  }

  /** The store's reply body to `req`, and its contents afterwards. */
  function ServeBody(state: map<string, string>, req: Body): (Body, map<string, string>) {
    if req.key.None? then (ErrorReply(MalformedCode), state)
    else
      var k := req.key.value;
      if req.typ == Some(MsgType.Read) then
        if k in state then (EmptyBody.(typ := Some(MsgType.ReadOk), value := Some(state[k])), state)
        else (ErrorReply(KeyNotFoundCode), state)
      else if req.typ == Some(MsgType.Write) then
        if req.value.None? then (ErrorReply(MalformedCode), state)
        else (Typed(MsgType.WriteOk), state[k := req.value.value])
      else if req.typ == Some(MsgType.Cas) then
        if req.from.None? || req.to.None? then (ErrorReply(MalformedCode), state)
        else if k !in state then
          if req.createIfNotExists == Some(true) then (Typed(MsgType.CasOk), state[k := req.to.value])
          else (ErrorReply(KeyNotFoundCode), state)
        else if state[k] == req.from.value then (Typed(MsgType.CasOk), state[k := req.to.value])
        else (ErrorReply(CasWriteErrorCode), state)
      else (ErrorReply(UnsupportedCode), state)
  }

  /** The store answering a request: the reply goes back to the sender, correlated by id. */
  function Serve(state: map<string, string>, req: Message): (Message, map<string, string>) {
    var (body, state') := ServeBody(state, req.body);
    (Message(req.dest, req.src, body.(inReplyTo := req.body.msgId)), state')
  }

  function Reply(state: map<string, string>, req: Message): RpcOutcome {
    Replied(Serve(state, req).0)
  }

  function After(state: map<string, string>, req: Message): map<string, string> {
    Serve(state, req).1
  }

  /** Against the store, ReadString yields the stored string, or KeyNotFound for a missing key. */
  lemma ReadStringFromStore(c: KVClient, state: map<string, string>, key: string)
    ensures After(state, c.ReadRequest(key)) == state
    ensures var r := ReadString(Reply(state, c.ReadRequest(key)));
      if key in state then r == Ok(Some(state[key])) else r.Fail? && r.error.KeyNotFound?
  {
  }

  /** Against the store, ReadStringOrDefault yields the stored string or the rendered default. */
  lemma ReadStringOrDefaultFromStore(c: KVClient, state: map<string, string>, key: string, default: int)
    ensures ReadStringOrDefault(Reply(state, c.ReadRequest(key)), default) ==
      Ok(Some(if key in state then state[key] else IntToString(default)))
  {
    ReadStringFromStore(c, state, key);
  }

  /**
   * Against the store, ReadOrDefault yields the default only for a missing
   * key; a stored value that does not parse as a number is Malformed, not
   * the default.
   */
  lemma ReadOrDefaultFromStore(c: KVClient, state: map<string, string>, key: string, default: int)
    ensures ReadOrDefault(Reply(state, c.ReadRequest(key)), default) ==
      if key !in state then Ok(default)
      else match ParseInt(state[key])
        case Some(v) => Ok(v)
        case None => Fail(Malformed)
  {
    ReadStringFromStore(c, state, key);
  }

  /** After a write of `v`, ReadOrDefault gives `v` back, whatever the default. */
  lemma WriteThenReadOrDefault(c: KVClient, state: map<string, string>, key: string, v: int, default: int)
    ensures ReadOrDefault(Reply(After(state, c.WriteRequest(key, v)), c.ReadRequest(key)), default) == Ok(v)
  {
    WriteThenRead(c, state, key, v);
  }

  /** Writing a number and reading it back gives the number: the decimal encoding round-trips. */
  lemma WriteThenRead(c: KVClient, state: map<string, string>, key: string, v: int)
    ensures WriteString(Reply(state, c.WriteRequest(key, v))).Ok?
    ensures After(state, c.WriteRequest(key, v)) == state[key := IntToString(v)]
    ensures Read(Reply(After(state, c.WriteRequest(key, v)), c.ReadRequest(key))) == Ok(v)
  {
    ParseIntToString(v);
  }

  /** Against the store, WriteString succeeds and stores the string. */
  lemma WriteStringToStore(c: KVClient, state: map<string, string>, key: string, v: string)
    ensures WriteString(Reply(state, c.WriteStringRequest(key, v))).Ok?
    ensures After(state, c.WriteStringRequest(key, v)) == state[key := v]
  {
  }

  /**
   * Against the store, CAS succeeds exactly when the key holds the rendering
   * of `from`, or is missing and creation was asked for; it then stores the
   * rendering of `to`. A missing key without creation is KeyNotFound, a
   * different stored value is CasMismatch, and a failure changes nothing.
   */
  lemma CasAgainstStore(c: KVClient, state: map<string, string>, key: string, from: int, to: int, create: bool)
    ensures var req := c.CasRequest(key, from, to, create);
      var r := CAS(Reply(state, req));
      && (r.Ok? <==> (key in state && state[key] == IntToString(from)) || (key !in state && create))
      && (r.Ok? ==> After(state, req) == state[key := IntToString(to)])
      && (r.Fail? ==> After(state, req) == state)
      && (key !in state && !create ==> r.Fail? && r.error.KeyNotFound?)
      && (key in state && state[key] != IntToString(from) ==> r.Fail? && r.error.CasMismatch?)
  {
  }

  /**
   * How one round trip to a store ends: the reply arrives in time, the
   * request is lost, or the store applies it but its reply comes after the
   * client's timer has fired.
   */
  datatype Fate = Answered | Lost | Late

  function Outcome(fate: Fate, state: map<string, string>, req: Message): RpcOutcome {
    if fate.Answered? then Reply(state, req) else TimedOut
  }

  function Effect(fate: Fate, state: map<string, string>, req: Message): map<string, string> {
    if fate.Lost? then state else After(state, req)
  }

  /** A write of `text` under `key` as the store applies it: a lost write changes nothing. */
  function Stored(fate: Fate, state: map<string, string>, key: string, text: string): map<string, string> {
    if fate.Lost? then state else state[key := text]
  }

  /**
   * Against the store, a write of a string reports success exactly when its
   * reply arrives in time, and it changes the store unless it was lost.
   */
  lemma WriteWithFate(c: KVClient, state: map<string, string>, key: string, text: string, fate: Fate)
    ensures Effect(fate, state, c.WriteStringRequest(key, text)) == Stored(fate, state, key, text)
    ensures WriteString(Outcome(fate, state, c.WriteStringRequest(key, text))).Ok? <==> fate.Answered?
  {
    WriteStringToStore(c, state, key, text);
  }

  /** The store's reply always has a type and answers the request's id. */
  lemma ServeAnswers(state: map<string, string>, req: Message)
    ensures Serve(state, req).0.body.typ.Some?
    ensures Serve(state, req).0.body.inReplyTo == req.body.msgId
    ensures Serve(state, req).0.dest == req.src
  {
  }

  /**
   * The envelope SendMessage fills in (source and id) changes neither what
   * the store does nor how the client classifies the answer.
   */
  lemma EnvelopeIrrelevant(fate: Fate, state: map<string, string>, req: Message, self: string, id: int, default: int)
    ensures var sent := Outgoing(self, req, id);
      && Effect(fate, state, sent) == Effect(fate, state, req)
      && ReadString(Outcome(fate, state, sent)) == ReadString(Outcome(fate, state, req))
      && ReadStringOrDefault(Outcome(fate, state, sent), default) == ReadStringOrDefault(Outcome(fate, state, req), default)
      && Read(Outcome(fate, state, sent)) == Read(Outcome(fate, state, req))
      && WriteString(Outcome(fate, state, sent)) == WriteString(Outcome(fate, state, req))
      && CAS(Outcome(fate, state, sent)) == CAS(Outcome(fate, state, req))
  {
    var sent := Outgoing(self, req, id);
    assert ServeBody(state, sent.body) == ServeBody(state, req.body);
  }

  /** The slots after one round trip under `id`: a collected reply frees the slot, a timeout keeps it. */
  function SlotsAfter(pending: map<int, Slot>, fate: Fate, id: int): map<int, Slot> {
    if fate.Answered? then pending[id := Waiting] - {id} else pending[id := Waiting]
  }

  /**
   * SendRequestSync against a store: the request goes out through `rt` under
   * the next id; when the reply arrives in time the read loop completes the
   * slot and the caller collects it, otherwise the caller sees the timeout.
   */
  method Call(rt: Server, state: map<string, string>, request: Message, fate: Fate)
      returns (outcome: RpcOutcome, state': map<string, string>)
    requires rt.Valid() && request.body.msgId.None?
    modifies rt`msgId, rt`pending, rt`outbox
    ensures rt.Valid()
    ensures rt.msgId == old(rt.msgId) + 1
    ensures rt.outbox == old(rt.outbox) + [Outgoing(rt.nodeId, request, rt.msgId)]
    ensures rt.pending == SlotsAfter(old(rt.pending), fate, rt.msgId)
    ensures outcome == Outcome(fate, state, Outgoing(rt.nodeId, request, rt.msgId))
    ensures state' == Effect(fate, state, request)
  {
    var id, sent := rt.SendRequest(request);
    EnvelopeIrrelevant(fate, state, request, rt.nodeId, id, 0);
    if fate.Answered? {
      var reply := Serve(state, sent).0;
      ServeAnswers(state, sent);
      var route := rt.Deliver(Some(reply));
      outcome := rt.AwaitReply(id, false);
      state' := After(state, sent);
    } else {
      outcome := rt.AwaitReply(id, true);
      state' := if fate.Late? then After(state, sent) else state;
    }
  }

  /** The lines a series of calls writes: each request under the next id, base + 1, base + 2, .... */
  function Stamped(self: string, reqs: seq<Message>, base: int): (r: seq<Message>)
    ensures |r| == |reqs|
  {
    if reqs == [] then []
    else Stamped(self, reqs[..|reqs| - 1], base) + [Outgoing(self, reqs[|reqs| - 1], base + |reqs|)]
  }

  /** The slots after a series of calls under ids base + 1, base + 2, ..., ending as `fates` say. */
  function SlotsAfterAll(pending: map<int, Slot>, fates: seq<Fate>, base: int): map<int, Slot> {
    if fates == [] then pending
    else SlotsAfter(SlotsAfterAll(pending, fates[..|fates| - 1], base), fates[|fates| - 1], base + |fates|)
  }

  /** One more call extends both series. */
  lemma CallStep(self: string, reqs: seq<Message>, fates: seq<Fate>, pending: map<int, Slot>, base: int, req: Message, fate: Fate)
    ensures Stamped(self, reqs + [req], base) == Stamped(self, reqs, base) + [Outgoing(self, req, base + |reqs| + 1)]
    ensures SlotsAfterAll(pending, fates + [fate], base) == SlotsAfter(SlotsAfterAll(pending, fates, base), fate, base + |fates| + 1)
  {
    assert (reqs + [req])[..|reqs|] == reqs;
    assert (fates + [fate])[..|fates|] == fates;
  }

  /** Two series of calls in a row write the lines of one series. */
  lemma {:induction false} StampedAppend(self: string, a: seq<Message>, b: seq<Message>, base: int)
    ensures Stamped(self, a + b, base) == Stamped(self, a, base) + Stamped(self, b, base + |a|)
    decreases |b|
  {
    if b == [] {
      assert a + b == a;
    } else {
      StampedAppend(self, a, b[..|b| - 1], base);
      assert (a + b)[..|a + b| - 1] == a + b[..|b| - 1];
    }
  }

  /** Two series of calls in a row leave the slots of one series. */
  lemma {:induction false} SlotsAppend(pending: map<int, Slot>, fa: seq<Fate>, fb: seq<Fate>, base: int)
    ensures SlotsAfterAll(pending, fa + fb, base) == SlotsAfterAll(SlotsAfterAll(pending, fa, base), fb, base + |fa|)
    decreases |fb|
  {
    if fb == [] {
      assert fa + fb == fa;
    } else {
      SlotsAppend(pending, fa, fb[..|fb| - 1], base);
      assert (fa + fb)[..|fa + fb| - 1] == fa + fb[..|fb| - 1];
    }
  }

  /**
   * A node whose id counter, outbox and slot table were `base`, `out0` and
   * `slots0` has since sent exactly `reqs`, each under the next id, and their
   * round trips ended as `fates` say.
   */
  predicate Series(self: string, base: int, out0: seq<Message>, slots0: map<int, Slot>,
                   reqs: seq<Message>, fates: seq<Fate>,
                   msgId: int, outbox: seq<Message>, pending: map<int, Slot>)
  {
    && |reqs| == |fates|
    && msgId == base + |reqs|
    && outbox == out0 + Stamped(self, reqs, base)
    && pending == SlotsAfterAll(slots0, fates, base)
  }

  /** One more round trip extends the series. */
  lemma SeriesStep(self: string, base: int, out0: seq<Message>, slots0: map<int, Slot>,
                   reqs: seq<Message>, fates: seq<Fate>,
                   msgId: int, outbox: seq<Message>, pending: map<int, Slot>, req: Message, fate: Fate)
    requires Series(self, base, out0, slots0, reqs, fates, msgId, outbox, pending)
    ensures Series(self, base, out0, slots0, reqs + [req], fates + [fate],
                   msgId + 1, outbox + [Outgoing(self, req, msgId + 1)], SlotsAfter(pending, fate, msgId + 1))
  {
    CallStep(self, reqs, fates, slots0, base, req, fate);
  }

  /** A single round trip is a series of one. */
  lemma SeriesOne(self: string, base: int, out0: seq<Message>, slots0: map<int, Slot>, req: Message, fate: Fate)
    ensures Series(self, base, out0, slots0, [req], [fate],
                   base + 1, out0 + [Outgoing(self, req, base + 1)], SlotsAfter(slots0, fate, base + 1))
  {
    assert [req][..0] == [] && [fate][..0] == [];
  }

  /** Two series in a row, the second starting where the first ended, make one series. */
  lemma SeriesConcat(self: string, base: int, out0: seq<Message>, slots0: map<int, Slot>,
                     ra: seq<Message>, fa: seq<Fate>, m1: int, o1: seq<Message>, p1: map<int, Slot>,
                     rb: seq<Message>, fb: seq<Fate>, m2: int, o2: seq<Message>, p2: map<int, Slot>)
    requires Series(self, base, out0, slots0, ra, fa, m1, o1, p1)
    requires Series(self, m1, o1, p1, rb, fb, m2, o2, p2)
    ensures Series(self, base, out0, slots0, ra + rb, fa + fb, m2, o2, p2)
  {
    StampedAppend(self, ra, rb, base);
    SlotsAppend(slots0, fa, fb, base);
  }
}
