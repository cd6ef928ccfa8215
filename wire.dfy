/**
 * The envelope exchanged by nodes (ServerLib/Types.cs) and the replication
 * payload of the key-value node (ServerLib/KVStoreTypes.cs), as values: the
 * JSON (de)serialisation around them is not modelled.
 */
module Wire {
  import opened Optional

  /** One micro-operation of a `txn` request: `["r", key, result]` or `["w", key, value]`. */
  datatype Op = R(key: int, result: Option<int>) | W(key: int, val: int)

  /** A `VersionedValue` as it travels on the wire: the value and a copy of its version vector. */
  datatype VV = VV(value: int, version: seq<int>)

  /** A `ReplictionTask` as it travels on the wire inside a `txn_sync` body. */
  datatype SyncTask = SyncTask(tx: map<int, VV>, dest: string)

  /**
   * `MessageBody`: every field is optional (null when absent). `count` is the
   * numeric `value` of the counter's read reply (`GCounterMessageBody`);
   * `msgs` holds, per key, the `[offset, message]` pairs of a poll reply.
   */
  datatype Body = Body(
    typ: Option<string>,
    msgId: Option<int>,
    inReplyTo: Option<int>,
    nodeId: Option<string>,
    nodeIds: Option<seq<string>>,
    message: Option<int>,
    messages: Option<seq<int>>,
    topology: Option<map<string, seq<string>>>,
    messageBatch: Option<seq<int>>,
    value: Option<string>,
    count: Option<int>,
    key: Option<string>,
    delta: Option<int>,
    from: Option<string>,
    to: Option<string>,
    createIfNotExists: Option<bool>,
    code: Option<int>,
    text: Option<string>,
    msg: Option<int>,
    offset: Option<int>,
    offsets: Option<map<string, int>>,
    msgs: Option<map<string, seq<seq<int>>>>,
    keys: Option<seq<string>>,
    txn: Option<seq<Op>>,
    syncVal: Option<SyncTask>)

  /** A body with every field absent, the state of `new MessageBody()`. */
  const EmptyBody := Body(None, None, None, None, None, None, None, None, None, None, None, None, None,
                          None, None, None, None, None, None, None, None, None, None, None, None)

  /** A body holding only its type. */
  function Typed(t: string): Body {
    EmptyBody.(typ := Some(t))
  }

  datatype Message = Message(src: string, dest: string, body: Body)
}
