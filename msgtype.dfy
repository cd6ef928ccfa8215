/** The message type names of ServerLib/Types.cs (class MsgType). */
module MsgType {
  const Init := "init"
  const InitOk := "init_ok"
  const Broadcast := "broadcast"
  const BroadcastOk := "broadcast_ok"
  const Read := "read"
  const ReadOk := "read_ok"
  const Write := "write"
  const WriteOk := "write_ok"
  const Cas := "cas"
  const CasOk := "cas_ok"
  const Send := "send"
  const SendOk := "send_ok"
  const Poll := "poll"
  const PollOk := "poll_ok"
  const CommitOffsets := "commit_offsets"
  const CommitOffsetsOk := "commit_offsets_ok"
  const ListCommittedOffsets := "list_committed_offsets"
  const ListCommittedOffsetsOk := "list_committed_offsets_ok"
  const Topology := "topology"
  const TopologyOk := "topology_ok"
  const Add := "add"
  const AddOk := "add_ok"
  const Txn := "txn"
  const TxnOk := "txn_ok"
  const TxnSync := "txn_sync"
  const TxnSyncOk := "txn_sync_ok"
  const Error := "error"
}
