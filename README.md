# Maelstrom nodes in Dafny

A Dafny model of a set of Maelstrom workload nodes written in C#, with
proofs about them. Each node reads JSON messages line by line from standard
input and answers on standard output. The model covers four nodes and the
runtime they share:

- **the runtime** (`ServerLib/Server.cs`, module `Runtime`):
  - message ids handed out 1, 2, 3, …, and the handler registry;
  - the `init` handler;
  - envelope filling for responses and new messages;
  - the table of pending synchronous requests, and how the read loop routes each inbound line: a reply to a pending request, a handler, or dropped.
- **the key-value clients** (`ServerLib/KVClients.cs`, module `KVClients`): the requests sent to `seq-kv` and `lin-kv`, and how each reply, or a timeout, becomes a typed result or an error.
- **the grow-only counter** (`g-counter/Program.cs`, module `GCounter`): `add` accumulates a local delta, and a timer flushes it into `seq-kv` with a read and a compare-and-set.
- **the gossip broadcast** (`Broadcast/Program.cs`, module `Broadcast`): the set of known values, the values still to be gossiped, and the in-flight gossip messages, re-sent on every tick until acknowledged.
- **the replicated log** (`Kafka/Program.cs`, module `Kafka`):
  - per-key logs stored in `lin-kv` as `offset=message;` text;
  - the owner of a key is node `n<key mod N>`, and other nodes forward `send` to it;
  - `poll` uses a binary search;
  - consumer offsets are committed and listed.
- **the totally-available transactional store** (`kv-store/Program.cs`, module `KVStore`): values carry version vectors, `txn` applies reads and writes, and writes replicate to the other nodes through `txn_sync`.

How the model is shaped:

- **Nodes are classes with their own fields.** Each server's inheritance from `Server` is modelled by composition: a node holds its runtime as `rt`. Every handler is a method proved against a pure specification function. The properties the source promises are lemmas about those functions: round trips, invariants kept, order independence.
- **The external stores are a map.** `lin-kv` and `seq-kv` are not part of this repository. Their assumed behaviour is the module `StoreModel`: a map from keys to strings answering `read`, `write` and `cas` with the error codes the client expects.
- **Each store round trip has a `Fate`**: answered in time, lost, or applied by the store but answered too late. This lets the proofs cover timeouts.

Behaviours of the code that are kept as written:

- **Timeouts keep their slot.** When a synchronous request times out, its slot stays in the pending table (`Server.cs` throws before `TryRemove`). A late reply still completes that slot, and is never handed to a handler (`LateReplyStillMatches`).
- **`AsInt` ignores its argument.** In `kv-store`, `AsInt` parses this node's own id whatever it is given. So when two versions are concurrent, the incoming value is always adopted (`ConcurrentAdoptsIncoming`).
- **Version arrays are shared.** `IncrementTs` bumps a key's existing version array in place, and the copy it returns is discarded. A replication task queued earlier therefore holds the same array, and when it is sent it carries the newer vector with the older value. When the older task arrives last, for example because a failed send put it back at the end of the queue (`kv-store/Program.cs:248-253`), the receiver keeps that stale value (`RewriteShowsInQueuedTask`, `StaleSyncWins`). Delivered in queue order, the newer task carries the same vector, the two tie as concurrent and the newer value is adopted.
- **The counter's flush can count twice.** A flush whose compare-and-set is applied by the store but answered too late does not subtract its snapshot, so the next flush counts that delta again (`LateCasCountsTwice`).
- **Negative Kafka keys** that are not multiples of the node count are forwarded to a node named `n-<r>`, which does not exist (`NegativeKeyUnowned`). A negative multiple has remainder 0 and goes to `n0`.
- **Integer formats.** `long.Parse` and `int.Parse` are modelled on an optional `-` followed by digits. `int.Parse` also fails outside the 32-bit range.

Modules: `Optional`, `Wire` (the message envelope of `ServerLib/Types.cs` and `ServerLib/KVStoreTypes.cs`), `MsgType`, `Text`, `Sets`, `Runtime`, `KVClients`, `StoreModel`, `GCounter`, `Broadcast`, `Kafka`, `KVStore`.

## Model

| member | source | states |
|---|---|---|
| Runtime.Others | Broadcast/Program.cs:45 | the peers are exactly the node ids other than this node's, and never more than the list |
| Runtime.KeepOrAssign | ServerLib/Server.cs:83 | a body's id is kept when set, otherwise it becomes the next id; nothing else in the body changes |
| Runtime.ResponseTo | ServerLib/Server.cs:79-86 | a response goes from this node to the request's sender, answers the request's id, and keeps or assigns its own id; the rest of the body is the handler's |
| Runtime.Outgoing | ServerLib/Server.cs:89-94 | a new message gets this node as source, its destination unchanged, and its id kept or assigned; the body is otherwise unchanged |
| Runtime.Server.constructor | ServerLib/Server.cs:22-26 | a fresh runtime has only `init` registered, no ids handed out, no pending requests, the id "uninitialized" and no peers |
| Runtime.Server.On | ServerLib/Server.cs:29-31 | registering a type already registered fails (Dictionary.Add throws); the registry always contains the type afterwards |
| Runtime.Server.NextMessageId | ServerLib/Server.cs:37-40 | each id handed out is one more than the last, so ids are unique and increasing |
| Runtime.Server.InitHandler | ServerLib/Server.cs:60-76 | `init` adopts the node id and id list it carries, keeps whichever is missing, and answers `init_ok` |
| Runtime.Server.SendResponse | ServerLib/Server.cs:79-86 | writes exactly one line, the filled-in response, and consumes an id only when the response had none |
| Runtime.Server.SendMessage | ServerLib/Server.cs:89-94 | writes exactly one line, the filled-in message, and consumes an id only when the message had none |
| Runtime.Server.SendRequest | ServerLib/Server.cs:97-107 | the slot for the request's id is registered (replacing any old one) and the request is written with that id |
| Runtime.Server.AwaitReply | ServerLib/Server.cs:109-126 | a timeout leaves the pending table unchanged; a completed slot yields its reply and is removed |
| Runtime.Server.Deliver | ServerLib/Server.cs:160-189 | unparseable or untyped lines are skipped; a reply to a pending slot completes it (or faults when already completed) and reaches no handler; otherwise the registered handler runs, or the line is dropped |
| Runtime.Server.Exchange | ServerLib/Server.cs:97-127 | a request with a typed answer returns that answer correlated to the request's new id and frees the slot; no answer, or an untyped one, times out and leaves the slot registered |
| Runtime.Server.Respond | ServerLib/Server.cs:181-183 | a handler's null result writes nothing; otherwise exactly one response line |
| Runtime.LateReplyStillMatches | ServerLib/Server.cs:112-124 | after a timeout, a late reply with the request's id completes the stale slot instead of reaching the `init` handler |
| KVClients.CasRequestCarries | ServerLib/KVClients.cs:66-78 | a CAS request goes to the client's store and carries `from` and `to` as decimal strings that parse back to the numbers, plus the creation flag |
| KVClients.ReadString | ServerLib/KVClients.cs:24-44 | a timeout fails; an error with code 20 is KeyNotFound, any other error a generic failure; any other reply yields its `value` field |
| KVClients.Read | ServerLib/KVClients.cs:20-22 | succeeds exactly when ReadString yields a string that parses, and then with that number; ReadString's failures pass through |
| KVClients.WriteString | ServerLib/KVClients.cs:51-64 | succeeds exactly on a `write_ok` reply; a timeout is a Timeout, any other reply a store error |
| KVClients.CAS | ServerLib/KVClients.cs:66-90 | succeeds exactly on `cas_ok`; error code 20 is KeyNotFound, 22 is CasMismatch, others generic; a timeout is a Timeout |
| KVClients.ReadOrDefault | ServerLib/KVClients.cs:92-99 | KeyNotFound becomes the default and is never reported; every other failure of Read, a timeout included, propagates unchanged |
| KVClients.ReadStringOrDefault | ServerLib/KVClients.cs:101-108 | KeyNotFound becomes the decimal rendering of the default; every other result of ReadString passes through |
| StoreModel.ReadStringFromStore | ServerLib/KVClients.cs:24-44 | against the assumed store, a read leaves it unchanged and yields the stored string, or KeyNotFound for a missing key |
| StoreModel.ReadStringOrDefaultFromStore | ServerLib/KVClients.cs:101-108 | against the assumed store, yields the stored string or the rendered default |
| StoreModel.ReadOrDefaultFromStore | ServerLib/KVClients.cs:92-99 | against the store, the default comes back only for a missing key; a stored number is returned, and a stored value that does not parse is Malformed rather than the default |
| StoreModel.WriteThenReadOrDefault | ServerLib/KVClients.cs:92-99 | after a write of v, ReadOrDefault returns v whatever the default |
| StoreModel.WriteThenRead | ServerLib/KVClients.cs:20-49 | writing a number then reading it back returns the number: the decimal encoding round-trips through the store |
| StoreModel.WriteStringToStore | ServerLib/KVClients.cs:51-64 | against the assumed store, a write succeeds and stores the string |
| StoreModel.CasAgainstStore | ServerLib/KVClients.cs:66-90 | CAS succeeds exactly when the key holds `from` (or is missing and creation is asked), then stores `to`; otherwise KeyNotFound or CasMismatch and no change |
| StoreModel.WriteWithFate | ServerLib/KVClients.cs:51-64 | a write reports success exactly when answered in time, and changes the store unless the request was lost |
| StoreModel.ServeAnswers | ServerLib/Server.cs:171-172 | the store's reply is typed, goes back to the sender and answers the request's id, so the read loop matches it to the pending slot |
| StoreModel.EnvelopeIrrelevant | ServerLib/Server.cs:99-102 | the source and id the runtime fills in change neither the store's effect nor any client classification |
| StoreModel.Call | ServerLib/Server.cs:97-127 | a synchronous store call consumes one id, writes one line, frees the slot only when answered in time, and yields the store's answer or a timeout |
| Text.IntToString | ServerLib/KVClients.cs:47-49 | the rendering of a number is non-empty, signed exactly when negative, and made of digits and the sign only |
| Text.ParseInt32 | kv-store/Program.cs:190 | `int.Parse` succeeds exactly on the decimals that parse to a value within the 32-bit range, and then gives that value |
| Text.ParseIntToString | ServerLib/KVClients.cs:20-22 | parsing the decimal rendering of a number gives the number back |
| Text.IntToStringInjective | ServerLib/KVClients.cs:72-73 | two numbers with the same rendering are equal, so a CAS comparing renderings compares numbers |
| Text.SplitNoDelimiter | Kafka/Program.cs:225 | a string without the delimiter splits into itself alone |
| Text.SplitAtDelimiter | Kafka/Program.cs:225 | splitting distributes over a delimiter placed between two strings |
| GCounter.ReadCounterViaClient | g-counter/Program.cs:32 | the flush's read is ReadStringOrDefault(key, 0) followed by `long.Parse` against the store |
| GCounter.ReadCounterFromStore | g-counter/Program.cs:32 | against a canonically stored total, an answered read yields the total (0 when missing) and a timed-out read yields nothing |
| GCounter.CasViaClient | g-counter/Program.cs:33 | the flush's CAS succeeds exactly when answered and the store still holds the total read (or nothing), and then stores read + snapshot |
| GCounter.StoreTotal | g-counter/Program.cs:33 | storing the rendering of a total keeps the store canonical and makes it hold that total |
| GCounter.MatchedTotal | g-counter/Program.cs:33 | a canonical store that the CAS finds holds exactly the total the flush read |
| GCounter.FlushConserves | g-counter/Program.cs:27-38 | whatever races, timeouts or lost requests occur (a late-applied CAS aside), the stored total plus the remaining delta equals the total before, plus the adds handled meanwhile |
| GCounter.FlushMovesDelta | g-counter/Program.cs:27-38 | with every round trip answered and no racing write, the whole snapshot moves into the store and only the adds handled meanwhile remain |
| GCounter.RacingWriteKeepsDelta | g-counter/Program.cs:33-36 | another node's write between read and CAS makes the CAS mismatch; that write is kept and the whole delta stays for the next tick |
| GCounter.LateCasCountsTwice | g-counter/Program.cs:33-36 | a CAS applied but answered too late leaves the snapshot in the delta although the store holds it, so the cluster total over-counts it |
| GCounter.Flush | g-counter/Program.cs:27-38 | a flush whose read fails keeps the whole delta (plus the racing adds) and the last counter for the next tick; no store key other than the total changes |
| GCounter.FlushAfter | g-counter/Program.cs:31-37 | the counter becomes the total read; the snapshot is subtracted only when the CAS is answered and finds that total, which then becomes total plus snapshot; otherwise, whether the read failed, the CAS was lost or late, or it found another total, the whole delta is kept and grows by the adds handled meanwhile; after a read, the store is the CAS's effect on it: total plus snapshot when the CAS was not lost and found the total read, unchanged otherwise; only the total key changes |
| GCounter.CounterNode.constructor | g-counter/Program.cs:17-25 | a fresh node has delta 0, counter 0, and `add`, `read` and `init` registered |
| GCounter.CounterNode.IncrementDelta | g-counter/Program.cs:62-67 | the delta grows by exactly the value |
| GCounter.CounterNode.DecrementDelta | g-counter/Program.cs:69-73 | the delta shrinks by exactly the value |
| GCounter.CounterNode.AddHandler | g-counter/Program.cs:40-49 | `add` with a delta adds it and answers `add_ok`; without one the cast throws: no reply, no change |
| GCounter.CounterNode.ReadHandler | g-counter/Program.cs:52-60 | `read` answers the total last read from the store, without the unflushed delta |
| GCounter.CounterNode.ApplyAdds | g-counter/Program.cs:40-49 | the adds handled during a flush grow the delta by their sum |
| GCounter.CounterNode.ReadTotal | g-counter/Program.cs:32 | the flush's read sends one request, leaves the store alone and yields ReadCounter |
| GCounter.CounterNode.CasTotal | g-counter/Program.cs:33 | the flush's CAS sends one request and reports success and the store afterwards as CasSucceeds and CasApplied say |
| GCounter.CounterNode.FlushFrom | g-counter/Program.cs:33-36 | once the read yields c: CAS from c to c + snapshot; the snapshot comes off the delta exactly when the CAS succeeds |
| GCounter.CounterNode.FlushAfterRead | g-counter/Program.cs:31-37 | the flush after its read, proved against FlushAfter: the new state and the CAS request sent only when a total was read |
| GCounter.CounterNode.FlushDelta | g-counter/Program.cs:27-38 | the flush tick, proved against Flush: the state afterwards, and the read then the CAS as the round trips made |
| Broadcast.ReceiveEffect | Broadcast/Program.cs:85-115 | known values grow by exactly the values received; only a new value from a client (`c…`) becomes pending, never a batch |
| Broadcast.ReceiveKeepsPendingKnown | Broadcast/Program.cs:85-115 | every pending value stays known |
| Broadcast.ReceiveKnownIsNoop | Broadcast/Program.cs:91 | re-delivered known values change nothing and are not re-gossiped |
| Broadcast.ReceiveIdempotent | Broadcast/Program.cs:85-115 | delivering the same `broadcast` twice has the effect of delivering it once |
| Broadcast.Receive | Broadcast/Program.cs:85-115 | both sets only grow; the only value that can become pending is a single message not known before; the known set gains nothing but the received values |
| Broadcast.ToList | Broadcast/Program.cs:39 | the list holds every element of the set exactly once |
| Broadcast.GossipsShape | Broadcast/Program.cs:47-65 | a flush makes one message per peer, each with the same batch, addressed to that peer, under ids base + 1 … base + peers |
| Broadcast.GossipsOntoUnion | Broadcast/Program.cs:63 | adding the flush's messages one at a time gives the in-flight table joined with the whole flush's table |
| Broadcast.Gossips | Broadcast/Program.cs:45-65 | the ids of one flush lie in base + 1 .. base + peers, and each message is sent by this node, carries its own id as `msg_id` and the flush's batch |
| Broadcast.Refresh | Broadcast/Program.cs:31-34 | retransmission keeps every in-flight id, destination and body, and sets the source to this node |
| Broadcast.BroadcastNode.constructor | Broadcast/Program.cs:14-27 | a fresh node knows nothing, has nothing pending or in flight, and registers `broadcast`, `read`, `topology`, `broadcast_ok` and `init` |
| Broadcast.BroadcastNode.StoreData | Broadcast/Program.cs:157-161 | the value is added to the known set |
| Broadcast.BroadcastNode.StoreDataBatched | Broadcast/Program.cs:163-167 | every value of the batch is added to the known set |
| Broadcast.BroadcastNode.BroadcastHandler | Broadcast/Program.cs:85-115 | the known and pending sets change as Receive says, keeping pending ⊆ known; the reply is `broadcast_ok` |
| Broadcast.BroadcastNode.GetDataAsList | Broadcast/Program.cs:174-177 | the list holds every known value exactly once |
| Broadcast.BroadcastNode.ReadHandler | Broadcast/Program.cs:118-128 | `read_ok` carries every known value exactly once |
| Broadcast.BroadcastNode.TopologyHandler | Broadcast/Program.cs:130-154 | a topology without an entry for this node is answered with `error` and changes nothing; otherwise this node's neighbours are adopted and `topology_ok` answered |
| Broadcast.BroadcastNode.BroadcastOkHandler | Broadcast/Program.cs:70-82 | an acknowledgement removes exactly the in-flight message it answers (if any) and is never answered |
| Broadcast.BroadcastNode.SendBatchedJob | Broadcast/Program.cs:29-68 | every in-flight message is re-sent under its own id; the pending set is drained; when it was not empty, one new message per other node carries it, recorded in flight under fresh ids disjoint from those in flight |
| Broadcast.BroadcastNode.ResendInFlight | Broadcast/Program.cs:31-34 | each in-flight message is written once, with its own id and this node as source, consuming no ids |
| Broadcast.BroadcastNode.GossipTo | Broadcast/Program.cs:49-64 | one gossip message under the next id is recorded in flight and written |
| Broadcast.BroadcastNode.GossipBatch | Broadcast/Program.cs:45-65 | one new in-flight message per other node, each carrying the batch under fresh ids, written in peer order |
| Kafka.StoreKeysDistinct | Kafka/Program.cs:28-30 | the latest, entry and client-offset store keys never collide, and each family is one-to-one in the log key |
| Kafka.ParseEntryBody | Kafka/Program.cs:229-234 | one entry's `offset=message` text parses back to the entry |
| Kafka.ToEntriesRender | Kafka/Program.cs:220-241 | the stored text of a log reads back as that log |
| Kafka.ParseEntry | Kafka/Program.cs:229-234 | a segment without `=` is never an entry |
| Kafka.ParseEntries | Kafka/Program.cs:225-238 | at most one entry per segment; the parse fails exactly when some non-empty segment is not an entry (empty segments are skipped) |
| Kafka.ToEntries | Kafka/Program.cs:220-241 | the stored text fails to parse exactly when it is non-empty and one of its non-empty `;`-separated segments is not an entry |
| Kafka.RenderAppend | Kafka/Program.cs:182 | appending `off=value;` to the stored text stores the log extended by that entry |
| Kafka.SearchIn | Kafka/Program.cs:100-105 | a non-negative result is an index in the window holding the offset; a negative one encodes an insertion point within the window |
| Kafka.SearchInLowerBound | Kafka/Program.cs:100-105 | on a strictly increasing log, the search result (or its complement) is exactly the first entry at or after the offset |
| Kafka.StartIndex | Kafka/Program.cs:100-105 | the index a poll starts copying from (`ind = ~ind` on a miss) is within the log |
| Kafka.PollSuffix | Kafka/Program.cs:98-111 | on a strictly increasing log, search-then-copy yields exactly the entries at or after the offset, in order |
| Kafka.PollKey | Kafka/Program.cs:91-111 | a poll of one key fails exactly when the read times out or the stored text does not parse; a missing log polls as empty; it never returns more entries than the log holds |
| Kafka.NextOffsetOf | Kafka/Program.cs:164-170 | reading a well-formed log's latest yields one past it, or 0 before the first send |
| Kafka.AppendBaseOf | Kafka/Program.cs:174-180 | reading a well-formed log's text yields its rendering, or "" when missing |
| Kafka.WriteLatestKeeps | Kafka/Program.cs:172 | storing a larger latest offset, whatever its fate, keeps the log well formed and unchanged |
| Kafka.WriteEntryKeeps | Kafka/Program.cs:182-184 | storing the extended text, whatever its fate, keeps the log well formed and either unchanged or extended by the entry |
| Kafka.ClaimKeeps | Kafka/Program.cs:164-172 | claiming an offset touches only the latest entry; a claimed offset is the next one, above every logged offset, and stored as the latest |
| Kafka.AppendEntryKeeps | Kafka/Program.cs:174-184 | writing the entry at a claimed offset touches only the entry text; the log gains exactly that entry or nothing, and a reported offset means it gained it |
| Kafka.Claim | Kafka/Program.cs:164-172 | the offset is claimed exactly when the read yields a next offset and the write of it is answered, and it is that next offset; only the latest-offset key changes |
| Kafka.AppendEntry | Kafka/Program.cs:174-184 | the append reports the claimed offset exactly when both the read and the write of the log text are answered; only the log key changes |
| Kafka.Append | Kafka/Program.cs:160-197 | at most four store calls; an offset is reported exactly when the stored latest offset is missing or parses and all four calls are answered, and it is one past the stored latest (0 at first); only the key's two store entries change |
| Kafka.AppendKeepsWellFormed | Kafka/Program.cs:160-197 | whatever the fates of its four round trips, an append keeps the log well formed and strictly increasing, touches only its two keys, and reports an offset only when the entry is in the log |
| Kafka.AppendAnswered | Kafka/Program.cs:160-197 | with every round trip answered, `send` is acknowledged with the next offset, now the latest, and the log gains the entry |
| Kafka.PollWellFormed | Kafka/Program.cs:88-111 | a poll of a well-formed log answers exactly the entries at or after the offset, as [offset, message] pairs |
| Kafka.SendThenPoll | Kafka/Program.cs:124-198 | a message acknowledged at offset `off` is what a poll from `off` returns, alone |
| Kafka.AtOrAfterLast | Kafka/Program.cs:100-111 | when the new entry's offset is above every earlier one, polling from it yields the entry alone |
| Kafka.DenseAppend | Kafka/Program.cs:164-172 | while no round trip fails, offsets are handed out 0, 1, 2, … with the latest being the last |
| Kafka.CommitAnswered | Kafka/Program.cs:68-81 | with every write answered, the commit succeeds and stores every offset in order |
| Kafka.WrittenHolds | Kafka/Program.cs:215-218 | committing distinct keys stores each offset readably under its own key and leaves every other store entry alone |
| Kafka.ListAnswered | Kafka/Program.cs:46-65 | with every read answered, the list reports exactly the requested keys that have a committed offset, with those offsets |
| Kafka.CommitThenList | Kafka/Program.cs:46-81 | offsets committed are what a later list reports for those keys, whatever order the commit wrote them in |
| Kafka.ListOffsets | Kafka/Program.cs:46-65 | a listed key is a requested key whose committed offset is stored and parses to the listed number; a list succeeds only when every read is answered |
| Kafka.CommitSeq | Kafka/Program.cs:68-81 | a commit succeeds exactly when every write is answered |
| Kafka.CommitKeepsOthers | Kafka/Program.cs:68-81 | store entries other than the committed keys' are unchanged, whichever write fails |
| Kafka.TruncRem | Kafka/Program.cs:133 | C#'s `%` keeps the dividend's sign, stays below the divisor in magnitude, and agrees with the Euclidean remainder for non-negative dividends |
| Kafka.RemWithinDividend | Kafka/Program.cs:133 | the remainder lies between 0 and the dividend |
| Kafka.NodeNumber | Kafka/Program.cs:136 | a node named `n<j>` reads its own number back |
| Kafka.ForwardReachesOwner | Kafka/Program.cs:133-146 | a forwarded `send` goes to the node that handles the key itself, so it is forwarded at most once |
| Kafka.OwnerUnique | Kafka/Program.cs:133 | among nodes n0 … n<N-1>, a non-negative key is handled by exactly one node, n<key mod N> |
| Kafka.NegativeKeyUnowned | Kafka/Program.cs:133-136 | a negative key that is not a multiple of N is handled by no node with a non-negative number |
| Kafka.PlacementOfDecimal | Kafka/Program.cs:130-136 | a key that is the decimal of a 32-bit integer k, on node `n<j>`, always has a placement: here when the truncated remainder of k equals j, otherwise at that remainder |
| Kafka.PlacementOf | Kafka/Program.cs:130-136 | a placement exists exactly when the key and this node's number parse as 32-bit integers and the cluster and id are non-empty; it is here when the truncated remainder equals this node's number, otherwise at that remainder, which lies strictly between -n and n |
| Kafka.SendRoute | Kafka/Program.cs:124-136 | a send without a key or a message has no route; otherwise its route is the key's placement |
| Kafka.Gather | Kafka/Program.cs:107-110 | the values are gathered exactly when all are present, and then keep every key's value |
| Kafka.PollInAnyOrder | Kafka/Program.cs:88-112 | however the offsets dictionary is enumerated, the poll replies with the same map |
| Kafka.GatherSeqOf | Kafka/Program.cs:88-112 | gathering in order succeeds exactly when every value is present, and then holds those values |
| Kafka.GatherInAnyOrder | Kafka/Program.cs:88-112 | gathering every key in any order is the order-free Gather |
| Kafka.ListStopsAt | Kafka/Program.cs:51-55 | the listing stops at the first failed read: it fails, and that read is the last one sent |
| Kafka.PollStopsAt | Kafka/Program.cs:88-96 | the poll stops at the first failed read: it fails, and that read is the last one sent |
| Kafka.CommitStopsAt | Kafka/Program.cs:71-72 | the commit stops at the first failed write: it fails, and that write is the last one sent |
| Kafka.CommitPairs | Kafka/Program.cs:71-72 | the (key, offset) pairs follow the enumeration order, and distinct keys give distinct pairs' keys |
| Kafka.KafkaNode.constructor | Kafka/Program.cs:36-44 | a fresh node registers `send`, `poll`, `commit_offsets`, `list_committed_offsets` and `init` |
| Kafka.KafkaNode.StoreCall | ServerLib/Server.cs:97-127 | one `lin-kv` round trip applied to the store as its fate says, with one id and one line |
| Kafka.KafkaNode.ReadLatest | Kafka/Program.cs:164-170 | the store is unchanged and the offset is NextOffset |
| Kafka.KafkaNode.WriteLatest | Kafka/Program.cs:172 | the latest key holds the offset unless lost; success exactly when answered |
| Kafka.KafkaNode.ReadLogText | Kafka/Program.cs:174-180 | the store is unchanged and the text is AppendBase |
| Kafka.KafkaNode.WriteLogText | Kafka/Program.cs:182-184 | the entry key holds the text with `off=value;` appended unless lost; success exactly when answered |
| Kafka.KafkaNode.AppendEntryLocal | Kafka/Program.cs:174-184 | proved against AppendEntry: the store, the reported offset and the round trips made |
| Kafka.KafkaNode.ClaimOffset | Kafka/Program.cs:164-172 | proved against Claim: the store, the offset and the round trips made |
| Kafka.KafkaNode.AppendLocal | Kafka/Program.cs:160-197 | proved against Append: the store, the reported offset and the four round trips made |
| Kafka.KafkaNode.Forward | Kafka/Program.cs:136-155 | one request to n<rem>; the reply carries the offset the owner reported, or there is none on a timeout |
| Kafka.KafkaNode.HandleSend | Kafka/Program.cs:124-198 | a malformed `send` gets no reply and changes nothing; a foreign key is forwarded once; an owned key is appended as Append says |
| Kafka.KafkaNode.PollOne | Kafka/Program.cs:91-111 | one read of a key's log, the store unchanged, the result PollKey |
| Kafka.KafkaNode.ReadClientCommitOffset | Kafka/Program.cs:200-213 | one read, the store unchanged, the result CommittedOffset: the number, null when never committed, or a failure |
| Kafka.KafkaNode.CommitClientOffset | Kafka/Program.cs:215-218 | the offset is stored under the client key unless lost; success exactly when answered |
| Kafka.KafkaNode.ListStep | Kafka/Program.cs:53-54 | one read of the listing, extending the series of reads |
| Kafka.KafkaNode.PollStep | Kafka/Program.cs:91-111 | one key of the poll, extending the series of reads |
| Kafka.KafkaNode.HandleListCommitOffsets | Kafka/Program.cs:46-65 | no keys: no reply and nothing sent; otherwise the reply is ListOffsets, with reads sent up to the first failure |
| Kafka.KafkaNode.ListCommitted | Kafka/Program.cs:51-55 | the loop, proved against ListOffsets and ListCalls |
| Kafka.KafkaNode.CommitStep | Kafka/Program.cs:72 | one write of the commit, extending CommitSeq and the series of writes |
| Kafka.KafkaNode.CommitAll | Kafka/Program.cs:71-72 | the loop, proved against CommitSeq and CommitCalls |
| Kafka.KafkaNode.HandleCommitOffsets | Kafka/Program.cs:68-81 | no offsets: no reply and nothing sent; otherwise the offsets are written in enumeration order up to the first failure, answered with `commit_offsets_ok` only when all succeed |
| Kafka.KafkaNode.HandlePoll | Kafka/Program.cs:83-122 | no offsets: no reply; otherwise the store is only read, and the reply is PollAll (the same for every enumeration order), or none when a read fails |
| Kafka.KafkaNode.PollLogs | Kafka/Program.cs:88-112 | the loop, proved against PollSeq and PollCalls |
| Kafka.Collect | Kafka/Program.cs:107-111 | the copy loop yields every entry from `ind` on as [offset, message] pairs |
| KVStore.CompareGreater | kv-store/Program.cs:193-217 | GREATER exactly when the local vector dominates the other and differs from it |
| KVStore.CompareLess | kv-store/Program.cs:193-217 | LESS exactly when the other vector dominates and differs |
| KVStore.CompareConcurrent | kv-store/Program.cs:193-217 | CONCURRENT exactly when the vectors are equal or neither dominates |
| KVStore.CompareAntisymmetric | kv-store/Program.cs:193-217 | comparing the other way round swaps GREATER and LESS and keeps CONCURRENT |
| KVStore.Compare | kv-store/Program.cs:193-217 | GREATER implies `a` dominates `b` and differs from it, LESS the converse, and equal vectors are CONCURRENT |
| KVStore.SameUpToIsEqual | kv-store/Program.cs:202 | on vectors of one length, the `equals` flag is equality |
| KVStore.MaxMergeIsJoin | kv-store/Program.cs:180-186 | the merged vector dominates both vectors and is the least vector that does |
| KVStore.MaxMergeAlgebra | kv-store/Program.cs:180-186 | the merge is commutative and idempotent, and merging again changes nothing |
| KVStore.MaxMerge | kv-store/Program.cs:180-186 | each component of the result is one of the two components and at least both |
| KVStore.BumpIsNewer | kv-store/Program.cs:279-284 | a bumped vector compares GREATER than the vector it came from |
| KVStore.IndexOfN0 | kv-store/Program.cs:188-191 | node `n0` parses to index 0 |
| KVStore.AsInt | kv-store/Program.cs:188-191 | a result is a 32-bit number parsed from this node's id after its first character; an empty id gives none |
| KVStore.AsIntOfNodeName | kv-store/Program.cs:188-191 | a node named `n<i>` reads back i, whatever argument AsInt is given |
| KVStore.RunOpsWrites | kv-store/Program.cs:56-90 | a transaction writes exactly its write keys, each to the value of its last write, and no other key changes |
| KVStore.RunFromWrites | kv-store/Program.cs:58-89 | the same, from any point of the run |
| KVStore.RunFromWidth | kv-store/Program.cs:75-76 | on a node whose index lies among the N nodes, with N-wide vectors, a transaction never fails and keeps the widths |
| KVStore.RunFromNoIndex | kv-store/Program.cs:279-282 | on a node whose id does not parse, a transaction fails exactly when it writes |
| KVStore.RunFromDone | kv-store/Program.cs:63-72 | the reply has one operation per request operation; writes unchanged; each read filled with the value the store held at that point, so reads see earlier writes |
| KVStore.ReadYourWrite | kv-store/Program.cs:63-88 | a read right after a write to the same key returns the written value |
| KVStore.FirstWrite | kv-store/Program.cs:73-88 | on node 0 of two, writing 10 to a new key stores it with the vector [1, 0] |
| KVStore.SecondWrite | kv-store/Program.cs:73-88 | writing 20 over it stores it with [2, 0] |
| KVStore.ApplyOp | kv-store/Program.cs:61-88 | an operation fails exactly when it is a write whose node index is missing or outside the key's vector |
| KVStore.ApplyOpEffect | kv-store/Program.cs:61-88 | a read leaves the store and fills in the stored value; a write stores its value under a vector GREATER than the one it started from; no other key changes |
| KVStore.RunOps | kv-store/Program.cs:56-90 | a transaction that does not fail replies with one operation per request operation and records exactly the keys it writes; a node whose id does not parse fails exactly when the transaction writes |
| KVStore.MergeKeyNewer | kv-store/Program.cs:130-166 | a merged key's vector dominates both vectors, and its value is the local one exactly when the local vector is GREATER |
| KVStore.ConcurrentAdoptsIncoming | kv-store/Program.cs:137-148 | on CONCURRENT (equal vectors included) the incoming value is adopted whatever the two node ids, because AsInt parses this node's id on both sides |
| KVStore.StaleSyncWins | kv-store/Program.cs:137-148 | an older value arriving with the vector the receiver holds replaces the newer value |
| KVStore.MergeKey | kv-store/Program.cs:120-167 | a missing key adopts the incoming pair (when its vector has at least two components); a merged vector has the incoming length and dominates both vectors; the merged value is the local or the incoming one |
| KVStore.MergeFrom | kv-store/Program.cs:112-170 | merging keys never removes a key, even when a later key fails; merging no keys succeeds |
| KVStore.MergeFromKeepsOthers | kv-store/Program.cs:112-170 | a sync, failed or not, leaves every key it does not merge as it was, and adds no other key |
| KVStore.MergeFromPointwise | kv-store/Program.cs:112-170 | merging distinct keys one by one fails exactly when some key fails; otherwise each holds its merge against the store as it was, and every other key is untouched |
| KVStore.MergeInAnyOrder | kv-store/Program.cs:112-170 | however the task's dictionary is enumerated, `txn_sync` fails or leaves the same store |
| KVStore.Contents | ServerLib/KVStoreTypes.cs:10-13 | the payload sent for a task has exactly the task's keys |
| KVStore.RestrictOf | kv-store/Program.cs:84-87 | the `writes` dictionary is the store restricted to the keys written |
| KVStore.Fanout | kv-store/Program.cs:268-277 | one task per destination, in order, each carrying the same dictionary |
| KVStore.KVStoreNode.constructor | kv-store/Program.cs:41-48 | a fresh node has an empty store and queue, and registers `txn`, `txn_sync` and `init` |
| KVStore.KVStoreNode.CompareTimestamp | kv-store/Program.cs:193-217 | fails exactly when the second vector is shorter; otherwise the result is Compare of the two vectors |
| KVStore.KVStoreNode.SyncVersions | kv-store/Program.cs:180-186 | the received array becomes the componentwise maximum in place; when the local one is shorter, it fails with the components reached already raised |
| KVStore.KVStoreNode.IncrementTs | kv-store/Program.cs:279-284 | fails exactly when the id does not parse or indexes outside the array; otherwise bumps this node's component in place and returns a fresh copy |
| KVStore.KVStoreNode.Store | kv-store/Program.cs:84 | the key holds a new object with the value and array; no other key changes |
| KVStore.KVStoreNode.Write | kv-store/Program.cs:73-88 | proved against ApplyOp: an existing key's array is bumped in place, a new key gets a fresh zero array bumped; no other array the store has held changes, so those still in queued tasks keep their contents |
| KVStore.KVStoreNode.Execute | kv-store/Program.cs:61-88 | one operation, proved against ApplyOp; a read changes nothing; arrays no key holds (those left in queued tasks) keep their contents, and every key holds its old array or one the store never held |
| KVStore.KVStoreNode.TxnStep | kv-store/Program.cs:59-87 | one turn of the loop, proved against ApplyOp: the result is appended, a written key's object collected, keys keep their arrays, and arrays no key holds keep their contents |
| KVStore.KVStoreNode.RunTxn | kv-store/Program.cs:56-90 | the loop, proved against RunOps; `writes` holds the object last stored at each written key; arrays no key held at the start (those in queued tasks) keep their contents |
| KVStore.RunFromAdvances | kv-store/Program.cs:57-87 | an operation that succeeds moves the run on to the next operation, with its result appended and a written key recorded |
| KVStore.RunFromFails | kv-store/Program.cs:57-87 | an operation that fails ends the run with the state before it |
| KVStore.KVStoreNode.HandleTxn | kv-store/Program.cs:50-104 | no operations list: no reply, no change; otherwise the store becomes RunOps, the written keys are queued for every other node, and `txn_ok` carries the filled-in operations; a failing operation ends it with no reply; arrays no key held before (those in queued tasks) keep their contents |
| KVStore.KVStoreNode.QueueReplication | kv-store/Program.cs:268-277 | one task per other node, in list order, appended to the queue |
| KVStore.KVStoreNode.MergeOne | kv-store/Program.cs:120-167 | one key, proved against MergeKey |
| KVStore.KVStoreNode.HandleWriteReplication | kv-store/Program.cs:106-178 | no task: no reply, no change; otherwise the store is MergeFrom over the enumeration order, answered `txn_sync_ok` only when no key fails |
| KVStore.KVStoreNode.MergeEach | kv-store/Program.cs:112-170 | the loop, proved against MergeFrom |
| KVStore.KVStoreNode.ReplicateNext | kv-store/Program.cs:228-253 | the oldest task is sent with its arrays read as they are now; it leaves the queue exactly when the answer is `txn_sync_ok`, otherwise it goes to the back |
| KVStore.OthersAppend | kv-store/Program.cs:270-271 | the other nodes of two lists in a row are those of each, in order |
| KVStore.WrittenOnce | kv-store/Program.cs:73-94 | on node n0 of two, writing 10 to key 1 stores [1, 0] and queues one task for n1 |
| KVStore.RewriteShowsInQueuedTask | kv-store/Program.cs:75-94 | after writing 10 then 20 to key 1, the first task sends 10 with the vector [2, 0] of the second write |
| Sets.EnumerateKeys | kv-store/Program.cs:112 | a dictionary's `foreach` visits every key exactly once |

## Left out

- JSON parsing and serialisation, console I/O and logging are not modelled. Lines arrive as parsed messages, and the lines a node writes are appended to `outbox`.
- Concurrency is not modelled: tasks, locks, semaphores and timers. Each background job is one step:
  - `FlushDelta` is one flush. Racing adds and another node's write are parameters.
  - `SendBatchedJob` is one tick.
  - `ReplicateNext` is one task sent and its answer handled.
  - Handlers run one at a time.
- The race between a reply and the request's timer is decided by parameters: a `Fate`, or an optional answer.
- Integers are unbounded. `long` overflow is not modelled, nor the 32-bit overflow of `ts[nodeId] += 1` in `IncrementTs`. The one 32-bit bound modelled is the range check of `int.Parse`.
- Text.ParseInt: accepts only an optional `-` followed by digits. `long.Parse` also accepts surrounding whitespace and a leading `+`.
- KVStore.RunOps: models only the `r` and `w` micro-operations. The case folding of the operation name (`ToLower`) is not modelled.
- The `lin-kv` and `seq-kv` services are not part of this model. Their behaviour is assumed in `StoreModel`: one map answering `read`, `write` and `cas`, with error codes 20 and 22.
- Dictionary and hash-set enumeration order is left open: a ghost output constrained only to list every key once. Results are proved independent of it where the source's results are.
- The `prefixCommit` constant in `Kafka/Program.cs` is unused and not modelled.
- `ResendMessageJob` in `Broadcast/Program.cs` is never registered, so it is not modelled. `SendBatchedJob` already re-sends the in-flight messages.
- The `neighbors` learnt from `topology` are stored but never used for gossip. The model stores them the same way.
- When a handler fails part way, the changes made before the failure remain and no reply is sent. This is the case for a `txn` operation that fails, a failed `txn_sync` key, and a failed Kafka append or commit step. Neither a rollback nor the exception's error message is modelled.
- Kafka.KafkaNode.Forward: the forwarded `send` reports the `offset` of whatever typed reply arrives, even an error reply. The model keeps this and proves nothing about the owner's side of that exchange.
- The `Echo` and `UID` nodes are not part of this model.
- `SetupBackGroundJob` (timer registration) and the `Start` loop's task bookkeeping are not modelled. Only the routing decision for each line is modelled.
