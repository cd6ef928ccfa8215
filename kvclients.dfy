/**
 * The client of the external key-value stores (ServerLib/KVClients.cs). Each
 * operation builds one request for the client's fixed destination and maps
 * how the request ended (a reply, or the timeout) to a typed result; the
 * exceptions of the source become the failures of `KVResult`.
 */
module KVClients {
  import opened Optional
  import opened Wire
  import opened Text
  import MsgType
  import opened Runtime

  /** SeqKVErrorCodes. */
  const KeyNotFoundCode := 20
  const CasWriteErrorCode := 22

  datatype KVError =
    | KeyNotFound(text: Option<string>)   // KVClientKeyNotFoundException
    | CasMismatch(text: Option<string>)   // KVClientCASWriteException
    | StoreError(text: Option<string>)    // KVClientException
    | Timeout                             // RPCTimeoutException from SendRequestSync
    | Malformed                           // long.Parse threw on the returned value

  datatype KVResult<T> = Ok(value: T) | Fail(error: KVError)

  predicate IsErrorReply(outcome: RpcOutcome) {
    outcome.Replied? && outcome.reply.body.typ == Some(MsgType.Error)
  }

  predicate HasCode(outcome: RpcOutcome, code: int) {
    outcome.Replied? && outcome.reply.body.code == Some(code)
  }

  /** A client bound to one store; SeqKVClient and LinKVClient differ only in this destination. */
  datatype KVClient = KVClient(destination: string) {

    function ReadRequest(key: string): Message {
      Message("", destination, EmptyBody.(typ := Some(MsgType.Read), key := Some(key)))
    }

    function WriteStringRequest(key: string, value: string): Message {
      Message("", destination, EmptyBody.(typ := Some(MsgType.Write), key := Some(key), value := Some(value)))
    }

    /** `Write` sends the decimal rendering of the number. */
    function WriteRequest(key: string, value: int): Message {
      WriteStringRequest(key, IntToString(value))
    }

    function CasRequest(key: string, from: int, to: int, createIfNotExist: bool): Message {
      Message("", destination, EmptyBody.(typ := Some(MsgType.Cas), key := Some(key),
                                         from := Some(IntToString(from)), to := Some(IntToString(to)),
                                         createIfNotExists := Some(createIfNotExist)))
    }
  }

  const SeqKV := KVClient("seq-kv")
  const LinKV := KVClient("lin-kv")

  /**
   * The CAS request goes to the client's store and carries `from` and `to`
   * as decimal strings that parse back to the numbers, and the creation flag.
   */
  lemma CasRequestCarries(c: KVClient, key: string, from: int, to: int, create: bool)
    ensures var m := c.CasRequest(key, from, to, create);
      && m.dest == c.destination && m.body.typ == Some(MsgType.Cas) && m.body.key == Some(key)
      && m.body.from.Some? && ParseInt(m.body.from.value) == Some(from)
      && m.body.to.Some? && ParseInt(m.body.to.value) == Some(to)
      && m.body.createIfNotExists == Some(create)
  {
    ParseIntToString(from);
    ParseIntToString(to);
  }

  /**
   * ReadString: an error reply with code 20 is KeyNotFound, any other error
   * reply a generic failure; any other reply yields its `value` field,
   * whatever its type (a missing field is the null the source returns).
   */
  function ReadString(outcome: RpcOutcome): (r: KVResult<Option<string>>)
    ensures outcome.TimedOut? ==> r == Fail(Timeout)
    ensures r.Ok? <==> outcome.Replied? && !IsErrorReply(outcome)
    ensures r.Ok? ==> r.value == outcome.reply.body.value
    ensures r.Fail? && r.error.KeyNotFound? <==> IsErrorReply(outcome) && HasCode(outcome, KeyNotFoundCode)
  {
    match outcome
    case TimedOut => Fail(Timeout)
    case Replied(resp) =>
      if resp.body.typ == Some(MsgType.Error) then
        if resp.body.code == Some(KeyNotFoundCode) then Fail(KeyNotFound(resp.body.text))
        else Fail(StoreError(resp.body.text))
      else Ok(resp.body.value)
  }

  /** Read is ReadString followed by `long.Parse`. */
  function Read(outcome: RpcOutcome): (r: KVResult<int>)
    ensures r.Ok? <==> ReadString(outcome).Ok? && ReadString(outcome).value.Some?
                       && ParseInt(ReadString(outcome).value.value).Some?
    ensures r.Ok? ==> Some(r.value) == ParseInt(ReadString(outcome).value.value)
    ensures ReadString(outcome).Fail? ==> r == Fail(ReadString(outcome).error)
  {
    match ReadString(outcome)
    case Fail(e) => Fail(e)
    case Ok(None) => Fail(Malformed)
    case Ok(Some(s)) =>
      match ParseInt(s)
      case Some(v) => Ok(v)
      case None => Fail(Malformed)
  }

  /** WriteString (and Write) succeed exactly when the reply's type is `write_ok`. */
  function WriteString(outcome: RpcOutcome): (r: KVResult<()>)
    ensures r.Ok? <==> outcome.Replied? && outcome.reply.body.typ == Some(MsgType.WriteOk)
    ensures outcome.TimedOut? ==> r == Fail(Timeout)
    ensures r.Fail? && outcome.Replied? ==> r.error.StoreError?
  {
    match outcome
    case TimedOut => Fail(Timeout)
    case Replied(resp) =>
      if resp.body.typ != Some(MsgType.WriteOk) then Fail(StoreError(None)) else Ok(())
  }

  /**
   * CAS: error code 20 is KeyNotFound, 22 is CasMismatch, any other error
   * code a generic failure; a non-error reply must be `cas_ok`.
   */
  function CAS(outcome: RpcOutcome): (r: KVResult<()>)
    ensures r.Ok? <==> outcome.Replied? && outcome.reply.body.typ == Some(MsgType.CasOk)
    ensures r.Fail? && r.error.KeyNotFound? <==> IsErrorReply(outcome) && HasCode(outcome, KeyNotFoundCode)
    ensures r.Fail? && r.error.CasMismatch? <==> IsErrorReply(outcome) && HasCode(outcome, CasWriteErrorCode)
    ensures outcome.TimedOut? ==> r == Fail(Timeout)
  {
    match outcome
    case TimedOut => Fail(Timeout)
    case Replied(resp) =>
      if resp.body.typ == Some(MsgType.Error) then
        if resp.body.code == Some(KeyNotFoundCode) then Fail(KeyNotFound(resp.body.text))
        else if resp.body.code == Some(CasWriteErrorCode) then Fail(CasMismatch(resp.body.text))
        else Fail(StoreError(resp.body.text))
      else if resp.body.typ != Some(MsgType.CasOk) then Fail(StoreError(None))
      else Ok(())
  }

  /** The default replaces KeyNotFound and nothing else; every other result passes through. */
  function ReadOrDefault(outcome: RpcOutcome, default: int): (r: KVResult<int>)
    ensures Read(outcome).Fail? && Read(outcome).error.KeyNotFound? ==> r == Ok(default)
    ensures !(Read(outcome).Fail? && Read(outcome).error.KeyNotFound?) ==> r == Read(outcome)
    ensures r.Fail? ==> !r.error.KeyNotFound?
    ensures outcome.TimedOut? ==> r == Fail(Timeout)
  {
    match Read(outcome)
    case Fail(KeyNotFound(_)) => Ok(default)
    case other => other
  }

  /** As ReadOrDefault, on strings: the default comes back rendered in decimal. */
  function ReadStringOrDefault(outcome: RpcOutcome, default: int): (r: KVResult<Option<string>>)
    ensures ReadString(outcome).Fail? && ReadString(outcome).error.KeyNotFound? ==>
              r == Ok(Some(IntToString(default)))
    ensures !(ReadString(outcome).Fail? && ReadString(outcome).error.KeyNotFound?) ==> r == ReadString(outcome)
  {
    match ReadString(outcome)
    case Fail(KeyNotFound(_)) => Ok(Some(IntToString(default)))
    case other => other
  }
}
