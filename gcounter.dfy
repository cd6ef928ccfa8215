/**
 * The grow-only counter node (g-counter/Program.cs). Each node accumulates
 * the `add` deltas it receives in `delta`; a periodic flush reads the shared
 * total from `seq-kv`, compare-and-sets it to the total plus the delta taken
 * at the start of the flush, and subtracts that snapshot once the CAS
 * succeeds. `read` answers with the total last read from the store.
 */
module GCounter {
  import opened Optional
  import opened Wire
  import opened Text
  import MsgType
  import opened Runtime
  import opened KVClients
  import opened StoreModel

  const StoreKey := "gcounter"

  datatype CounterState = CounterState(delta: int, counter: int, store: map<string, string>)

  function Sum(xs: seq<int>): int {
    if xs == [] then 0 else Sum(xs[..|xs| - 1]) + xs[|xs| - 1]
  }

  /** The store holds the total as the canonical decimal rendering of a number, or nothing yet. */
  predicate Canonical(store: map<string, string>) {
    StoreKey in store ==>
      ParseInt(store[StoreKey]).Some? && IntToString(ParseInt(store[StoreKey]).value) == store[StoreKey]
  }

  /** The total the store holds; a missing key counts as 0. */
  function Stored(store: map<string, string>): int {
    if StoreKey in store && ParseInt(store[StoreKey]).Some? then ParseInt(store[StoreKey]).value else 0
  }

  /** What the cluster has counted from this node's point of view: the stored total plus what is yet to flush. */
  function Total(s: CounterState): int {
    Stored(s.store) + s.delta
  }

  /** The store after another node's write lands between this node's read and its CAS. */
  function Raced(store: map<string, string>, racingWrite: Option<string>): map<string, string> {
    if racingWrite.Some? then store[StoreKey := racingWrite.value] else store
  }

  /**
   * The total a flush reads, as the store answers it: `long.Parse` of the
   * stored string, or 0 when the key is missing; None when the read times
   * out or the stored string does not parse.
   */
  function ReadCounter(store: map<string, string>, readFate: Fate): Option<int> {
    if !readFate.Answered? then None
    else if StoreKey in store then ParseInt(store[StoreKey])
    else Some(0)
  }

  /** ReadCounter is what the client's ReadStringOrDefault(key, 0) followed by `long.Parse` yields against the store. */
  lemma ReadCounterViaClient(store: map<string, string>, readFate: Fate)
    ensures ReadCounter(store, readFate) ==
      match ReadStringOrDefault(Outcome(readFate, store, SeqKV.ReadRequest(StoreKey)), 0)
      case Ok(Some(text)) => ParseInt(text)
      case _ => None
  {
    ReadStringOrDefaultFromStore(SeqKV, store, StoreKey, 0);
    ParseIntToString(0);
  }

  /** The CAS of a flush finds the total it read: the key holds its rendering, or is missing. */
  predicate Matches(store: map<string, string>, c: int) {
    StoreKey in store ==> store[StoreKey] == IntToString(c)
  }

  /** Whether the CAS of a flush from `c` reports success, as the store answers it. */
  function CasSucceeds(store: map<string, string>, c: int, fate: Fate): bool {
    fate.Answered? && Matches(store, c)
  }

  /** The store after the CAS of a flush from `c` to `to`: it takes `to` when it finds `c`, unless the request was lost. */
  function CasApplied(store: map<string, string>, c: int, to: int, fate: Fate): map<string, string> {
    if !fate.Lost? && Matches(store, c) then store[StoreKey := IntToString(to)] else store
  }

  /**
   * One flush tick. `racingAdds` are the `add` deltas handled while the flush
   * is in progress; `racingWrite` is another node's write to the total
   * between this node's read and its CAS. The snapshot is subtracted only
   * when the CAS reports success.
   */
  function Flush(s: CounterState, readFate: Fate, casFate: Fate, racingAdds: seq<int>, racingWrite: Option<string>): (r: CounterState)
    ensures !readFate.Answered? ==>
      r.delta == s.delta + Sum(racingAdds) && r.counter == s.counter && r.store == Raced(s.store, racingWrite)
    ensures forall k :: k != StoreKey ==> (k in r.store <==> k in s.store) && (k in s.store ==> r.store[k] == s.store[k])
  {
    FlushAfter(s, ReadCounter(s.store, readFate), casFate, racingAdds, racingWrite)
  }

  /** The flush tick once its read yielded `read`. */
  function FlushAfter(s: CounterState, read: Option<int>, casFate: Fate, racingAdds: seq<int>, racingWrite: Option<string>): (r: CounterState)
    ensures read.None? ==> r.counter == s.counter && r.store == Raced(s.store, racingWrite)
    ensures read.Some? ==> r.counter == read.value
    ensures !casFate.Answered? || read.None? ==> r.delta == s.delta + Sum(racingAdds)
    ensures read.Some? && casFate.Answered? && Matches(Raced(s.store, racingWrite), read.value) ==>
      r.delta == Sum(racingAdds) && r.store == Raced(s.store, racingWrite)[StoreKey := IntToString(read.value + s.delta)]
    ensures read.Some? && !CasSucceeds(Raced(s.store, racingWrite), read.value, casFate) ==> r.delta == s.delta + Sum(racingAdds)
    ensures read.Some? ==> r.store == CasApplied(Raced(s.store, racingWrite), read.value, read.value + s.delta, casFate)
    ensures forall k :: k != StoreKey ==> (k in r.store <==> k in s.store) && (k in s.store ==> r.store[k] == s.store[k])
  {
    var snapshot := s.delta;
    var grown := s.delta + Sum(racingAdds);
    var raced := Raced(s.store, racingWrite);
    match read
    case None => CounterState(grown, s.counter, raced)
    case Some(c) =>
      CounterState(if CasSucceeds(raced, c, casFate) then grown - snapshot else grown,
                   c, CasApplied(raced, c, c + snapshot, casFate))
  }

  /** The requests a flush sends after its read: the CAS, when the read yielded a total. */
  function CasRequests(read: Option<int>, delta: int): seq<Message> {
    match read
    case None => []
    case Some(c) => [SeqKV.CasRequest(StoreKey, c, c + delta, true)]
  }

  function CasFates(read: Option<int>, casFate: Fate): seq<Fate> {
    if read.None? then [] else [casFate]
  }

  /** Against a canonical store, an answered read yields the stored total; a timed-out read yields nothing. */
  lemma ReadCounterFromStore(store: map<string, string>, readFate: Fate)
    requires Canonical(store)
    ensures ReadCounter(store, readFate) == if readFate.Answered? then Some(Stored(store)) else None
  {
  }

  /**
   * CasSucceeds and CasApplied are what the client's CAS (with creation)
   * reports and what the store does with it: success exactly when answered
   * and the store holds the total read, or nothing.
   */
  lemma CasViaClient(store: map<string, string>, c: int, to: int, fate: Fate)
    ensures var req := SeqKV.CasRequest(StoreKey, c, to, true);
      && (CAS(Outcome(fate, store, req)).Ok? <==> CasSucceeds(store, c, fate))
      && Effect(fate, store, req) == CasApplied(store, c, to, fate)
  {
    CasAgainstStore(SeqKV, store, StoreKey, c, to, true);
  }

  /** Storing a canonical rendering keeps the store canonical and makes it hold that total. */
  lemma StoreTotal(store: map<string, string>, v: int)
    ensures Canonical(store[StoreKey := IntToString(v)]) && Stored(store[StoreKey := IntToString(v)]) == v
  {
    ParseIntToString(v);
  }

  /** A canonical store that the CAS finds holds the total the flush read. */
  lemma MatchedTotal(store: map<string, string>, c: int)
    requires Canonical(store) && Matches(store, c) && StoreKey in store
    ensures Stored(store) == c
  {
    ParseIntToString(c);
  }

  /**
   * Whatever another node writes in between, and whether or not the read
   * or the CAS is answered, a flush neither loses nor double-counts the
   * delta, provided a CAS that is sent and times out was not applied: the stored total
   * plus the remaining delta afterwards is the total before (with the other
   * node's write) plus the adds handled meanwhile. The store stays canonical.
   */
  lemma {:induction false} FlushConserves(s: CounterState, readFate: Fate, casFate: Fate, racingAdds: seq<int>, racingWrite: Option<string>)
    requires Canonical(s.store) && Canonical(Raced(s.store, racingWrite))
    requires readFate.Answered? ==> !casFate.Late?
    ensures var r := Flush(s, readFate, casFate, racingAdds, racingWrite);
      Total(r) == Stored(Raced(s.store, racingWrite)) + s.delta + Sum(racingAdds) && Canonical(r.store)
  {
    var raced := Raced(s.store, racingWrite);
    ReadCounterFromStore(s.store, readFate);
    if readFate.Answered? {
      var c := Stored(s.store);
      if casFate.Answered? && Matches(raced, c) {
        StoreTotal(raced, c + s.delta);
        if StoreKey in raced {
          MatchedTotal(raced, c);
        }
      }
    }
  }

  /** Without timeouts or racing writes, a flush moves the whole snapshot into the store. */
  lemma {:induction false} FlushMovesDelta(s: CounterState, racingAdds: seq<int>)
    requires Canonical(s.store)
    ensures var r := Flush(s, Answered, Answered, racingAdds, None);
      && r.delta == Sum(racingAdds)
      && Stored(r.store) == Stored(s.store) + s.delta
      && r.counter == Stored(s.store)
  {
    var c := Stored(s.store);
    ReadCounterFromStore(s.store, Answered);
    ParseIntToString(c + s.delta);
  }

  /**
   * A racing write that changes the total makes the CAS fail with a
   * mismatch: the other node's total is kept and this node's delta stays
   * whole for the next tick.
   */
  lemma {:induction false} RacingWriteKeepsDelta(s: CounterState, racingAdds: seq<int>, w: string)
    requires Canonical(s.store)
    requires w != (if StoreKey in s.store then s.store[StoreKey] else IntToString(0))
    ensures var r := Flush(s, Answered, Answered, racingAdds, Some(w));
      && r.delta == s.delta + Sum(racingAdds)
      && r.store == s.store[StoreKey := w]
      && r.counter == Stored(s.store)
  {
    var c := Stored(s.store);
    ReadCounterFromStore(s.store, Answered);
    ParseIntToString(0);
  }

  /**
   * A CAS the store applied but whose reply came too late leaves the delta
   * in place although the store already holds it: the next successful flush
   * counts the snapshot a second time.
   */
  lemma {:induction false} LateCasCountsTwice(s: CounterState, racingAdds: seq<int>)
    requires Canonical(s.store)
    ensures var r := Flush(s, Answered, Late, racingAdds, None);
      && r.delta == s.delta + Sum(racingAdds)
      && Total(r) == Total(s) + s.delta + Sum(racingAdds)
  {
    var c := Stored(s.store);
    ReadCounterFromStore(s.store, Answered);
    ParseIntToString(c + s.delta);
  }

  class CounterNode {
    const rt: Server
    var delta: int
    var counter: int
    var store: map<string, string>   // the shared `seq-kv` store, as this node's requests find it

    ghost predicate Valid()
      reads this, rt
    {
      rt.Valid()
    }

    ghost function State(): CounterState
      reads this
    {
      CounterState(delta, counter, store)
    }

    constructor (shared: map<string, string>)
      ensures Valid() && fresh(rt)
      ensures delta == 0 && counter == 0 && store == shared
      ensures rt.handlers == {MsgType.Init, MsgType.Add, MsgType.Read}
      ensures rt.msgId == 0 && rt.pending == map[] && rt.outbox == []
    {
      var s := new Server();
      var ok := s.On(MsgType.Add);
      ok := s.On(MsgType.Read);
      rt := s;
      delta := 0;
      counter := 0;
      store := shared;
    }

    method IncrementDelta(v: int)
      modifies this`delta
      ensures delta == old(delta) + v
    {
      delta := delta + v;
    }

    method DecrementDelta(v: int)
      modifies this`delta
      ensures delta == old(delta) - v
    {
      delta := delta - v;
    }

    /** An `add` without a delta fails (the cast of null throws) and gets no reply. */
    method AddHandler(request: Message) returns (reply: Option<Body>)
      modifies this`delta
      ensures request.body.delta.None? ==> reply == None && delta == old(delta)
      ensures request.body.delta.Some? ==>
        reply == Some(Typed(MsgType.AddOk)) && delta == old(delta) + request.body.delta.value
    {
      if request.body.delta.None? {
        return None;
      }
      IncrementDelta(request.body.delta.value);
      reply := Some(Typed(MsgType.AddOk));
    }

    /** `read` reports the total last read from the store, not including the unflushed delta. */
    method ReadHandler(request: Message) returns (reply: Option<Body>)
      ensures reply == Some(Typed(MsgType.ReadOk).(count := Some(counter)))
    {
      reply := Some(Typed(MsgType.ReadOk).(count := Some(counter)));
    }

    /** The adds handled while a flush waits on the store. */
    method ApplyAdds(adds: seq<int>)
      modifies this`delta
      ensures delta == old(delta) + Sum(adds)
    {
      var i := 0;
      while i < |adds|
        invariant 0 <= i <= |adds|
        invariant delta == old(delta) + Sum(adds[..i])
      {
        assert adds[..i + 1][..i] == adds[..i];
        IncrementDelta(adds[i]);
        i := i + 1;
      }
      assert adds[..|adds|] == adds;
    }

    /** The read of a flush: the total it yields, if any; reads leave the store alone. */
    method ReadTotal(readFate: Fate) returns (parsed: Option<int>)
      requires Valid()
      modifies rt`msgId, rt`pending, rt`outbox
      ensures Valid()
      ensures parsed == ReadCounter(store, readFate)
      ensures rt.msgId == old(rt.msgId) + 1
      ensures rt.outbox == old(rt.outbox) + [Outgoing(rt.nodeId, SeqKV.ReadRequest(StoreKey), rt.msgId)]
      ensures rt.pending == SlotsAfter(old(rt.pending), readFate, rt.msgId)
    {
      var readReq := SeqKV.ReadRequest(StoreKey);
      var outcome, _ := Call(rt, store, readReq, readFate);
      EnvelopeIrrelevant(readFate, store, readReq, rt.nodeId, rt.msgId, 0);
      ReadCounterViaClient(store, readFate);
      var read := ReadStringOrDefault(outcome, 0);
      parsed := if read.Ok? && read.value.Some? then ParseInt(read.value.value) else None;
    }

    /** The CAS of a flush from `c` to `to`: whether it reported success, and the store afterwards. */
    method CasTotal(c: int, to: int, casFate: Fate) returns (ok: bool)
      requires Valid()
      modifies this`store, rt`msgId, rt`pending, rt`outbox
      ensures Valid()
      ensures ok == CasSucceeds(old(store), c, casFate) && store == CasApplied(old(store), c, to, casFate)
      ensures rt.msgId == old(rt.msgId) + 1
      ensures rt.outbox == old(rt.outbox) + [Outgoing(rt.nodeId, SeqKV.CasRequest(StoreKey, c, to, true), rt.msgId)]
      ensures rt.pending == SlotsAfter(old(rt.pending), casFate, rt.msgId)
    {
      var casReq := SeqKV.CasRequest(StoreKey, c, to, true);
      var casOutcome, afterCas := Call(rt, store, casReq, casFate);
      EnvelopeIrrelevant(casFate, store, casReq, rt.nodeId, rt.msgId, 0);
      CasViaClient(store, c, to, casFate);
      store := afterCas;
      ok := CAS(casOutcome).Ok?;
    }

    /**
     * The rest of a flush once the read yielded `c`: the CAS from `c` to
     * `c + snapshot`, the adds handled meanwhile, and the snapshot taken off
     * the delta when the CAS reports success.
     */
    method FlushFrom(c: int, snapshot: int, casFate: Fate, racingAdds: seq<int>) returns (ok: bool)
      requires Valid()
      modifies this`delta, this`counter, this`store, rt`msgId, rt`pending, rt`outbox
      ensures Valid() && counter == c
      ensures var req := SeqKV.CasRequest(StoreKey, c, c + snapshot, true);
        && ok == CasSucceeds(old(store), c, casFate)
        && store == CasApplied(old(store), c, c + snapshot, casFate)
        && delta == old(delta) + Sum(racingAdds) - (if ok then snapshot else 0)
        && rt.msgId == old(rt.msgId) + 1
        && rt.outbox == old(rt.outbox) + [Outgoing(rt.nodeId, req, rt.msgId)]
        && rt.pending == SlotsAfter(old(rt.pending), casFate, rt.msgId)
    {
      counter := c;
      ok := CasTotal(c, c + snapshot, casFate);
      ApplyAdds(racingAdds);
      if ok {
        DecrementDelta(snapshot);
      }
    }

    /**
     * The flush tick after its read yielded `read`: another node's write may
     * land, then the CAS is sent when there is a total, the adds handled
     * meanwhile grow the delta, and a successful CAS takes the snapshot off.
     */
    method FlushAfterRead(read: Option<int>, casFate: Fate, racingAdds: seq<int>, racingWrite: Option<string>)
      requires Valid()
      modifies this`delta, this`counter, this`store, rt`msgId, rt`pending, rt`outbox
      ensures Valid()
      ensures State() == FlushAfter(old(State()), read, casFate, racingAdds, racingWrite)
      ensures Series(rt.nodeId, old(rt.msgId), old(rt.outbox), old(rt.pending),
                     CasRequests(read, old(delta)), CasFates(read, casFate), rt.msgId, rt.outbox, rt.pending)
    {
      var snapshot := delta;
      store := Raced(store, racingWrite);
      if read.None? {
        ApplyAdds(racingAdds);
        assert old(rt.outbox) + [] == old(rt.outbox);
        return;
      }
      ghost var (m0, o0, p0) := (rt.msgId, rt.outbox, rt.pending);
      var ok := FlushFrom(read.value, snapshot, casFate, racingAdds);
      var req := SeqKV.CasRequest(StoreKey, read.value, read.value + snapshot, true);
      SeriesOne(rt.nodeId, m0, o0, p0, req, casFate);
      assert CasRequests(read, snapshot) == [req] && CasFates(read, casFate) == [casFate];
    }

    /** The flush tick, proved against Flush: the state afterwards and the round trips made. */
    method FlushDelta(readFate: Fate, casFate: Fate, racingAdds: seq<int>, racingWrite: Option<string>)
      requires Valid()
      modifies this`delta, this`counter, this`store, rt`msgId, rt`pending, rt`outbox
      ensures Valid()
      ensures State() == Flush(old(State()), readFate, casFate, racingAdds, racingWrite)
      ensures var read := ReadCounter(old(store), readFate);
        Series(rt.nodeId, old(rt.msgId), old(rt.outbox), old(rt.pending),
               [SeqKV.ReadRequest(StoreKey)] + CasRequests(read, old(delta)), [readFate] + CasFates(read, casFate),
               rt.msgId, rt.outbox, rt.pending)
    {
      var read := ReadTotal(readFate);
      SeriesOne(rt.nodeId, old(rt.msgId), old(rt.outbox), old(rt.pending), SeqKV.ReadRequest(StoreKey), readFate);
      ghost var (m1, o1, p1) := (rt.msgId, rt.outbox, rt.pending);
      FlushAfterRead(read, casFate, racingAdds, racingWrite);
      SeriesConcat(rt.nodeId, old(rt.msgId), old(rt.outbox), old(rt.pending), [SeqKV.ReadRequest(StoreKey)], [readFate], m1, o1, p1,
                   CasRequests(read, old(delta)), CasFates(read, casFate), rt.msgId, rt.outbox, rt.pending);
    }
  }
}
