/**
 * The totally-available key-value node (kv-store/Program.cs). Every key maps
 * to a `VersionedValue`: a number and a version vector with one component
 * per node. A `txn` applies its micro-operations in order, bumping this
 * node's component of a key's vector on each write, and queues the keys it
 * wrote for replication to every other node; a `txn_sync` merges what
 * another node wrote, keeping the newer value by vector comparison and the
 * componentwise maximum of the two vectors.
 *
 * The version vectors are arrays, as in the source, and two of its
 * behaviours are kept as written: a write bumps the key's existing vector in
 * place (the copy `IncrementTs` returns is discarded), so a replication task
 * queued earlier sends the newer vector with its older value; and `AsInt`
 * parses this node's own id whatever it is given, so the tie-break between
 * concurrent versions always adopts the incoming value.
 */
module KVStore {
  import opened Optional
  import opened Wire
  import opened Text
  import MsgType
  import opened Runtime
  import opened Sets

  datatype Ordering = Greater | Less | Concurrent

  // ---------------------------------------------------------------- version vectors as values

  /** The three flags of CompareTimestamp, over the components of `a`. */
  predicate SameUpTo(a: seq<int>, b: seq<int>)
    requires |a| <= |b|
  {
    forall i :: 0 <= i < |a| ==> a[i] == b[i]
  }

  predicate AtLeast(a: seq<int>, b: seq<int>)
    requires |a| <= |b|
  {
    forall i :: 0 <= i < |a| ==> a[i] >= b[i]
  }

  predicate AtMost(a: seq<int>, b: seq<int>)
    requires |a| <= |b|
  {
    forall i :: 0 <= i < |a| ==> a[i] <= b[i]
  }

  /**
   * CompareTimestamp(a, b) once its loop has run over the components of `a`:
   * equal vectors are CONCURRENT, then GREATER when `a` is everywhere at
   * least `b`, then LESS when everywhere at most, otherwise CONCURRENT.
   */
  function Compare(a: seq<int>, b: seq<int>): (r: Ordering)
    requires |a| <= |b|
    ensures r == Greater ==> AtLeast(a, b) && a != b[..|a|]
    ensures r == Less ==> AtLeast(b[..|a|], a) && a != b[..|a|]
    ensures a == b[..|a|] ==> r == Concurrent
  {
    SameUpToIsPrefix(a, b);
    if SameUpTo(a, b) then Concurrent
    else if AtLeast(a, b) then Greater
    else if AtMost(a, b) then Less
    else Concurrent
  }

  /** Agreeing on the components of `a` is being a prefix of `b`. */
  lemma SameUpToIsPrefix(a: seq<int>, b: seq<int>)
    requires |a| <= |b|
    ensures SameUpTo(a, b) <==> a == b[..|a|]
  {
    if SameUpTo(a, b) {
      assert a == b[..|a|];
    }
  }

  /** On vectors of one length, agreeing everywhere is equality. */
  lemma SameUpToIsEqual(a: seq<int>, b: seq<int>)
    requires |a| == |b|
    ensures SameUpTo(a, b) <==> a == b
  {
    if SameUpTo(a, b) {
      assert a == b;
    }
  }

  /** GREATER means `a` dominates `b` and differs from it. */
  lemma CompareGreater(a: seq<int>, b: seq<int>)
    requires |a| == |b|
    ensures Compare(a, b) == Greater <==> AtLeast(a, b) && a != b
  {
    SameUpToIsEqual(a, b);
  }

  /** LESS means `b` dominates `a` and differs from it. */
  lemma CompareLess(a: seq<int>, b: seq<int>)
    requires |a| == |b|
    ensures Compare(a, b) == Less <==> AtLeast(b, a) && a != b
  {
    SameUpToIsEqual(a, b);
    assert AtMost(a, b) <==> AtLeast(b, a);
    if AtLeast(a, b) && AtLeast(b, a) {
      assert a == b;
    }
  }

  /** CONCURRENT means equal, or neither dominates the other. */
  lemma CompareConcurrent(a: seq<int>, b: seq<int>)
    requires |a| == |b|
    ensures Compare(a, b) == Concurrent <==> a == b || (!AtLeast(a, b) && !AtLeast(b, a))
  {
    CompareGreater(a, b);
    CompareLess(a, b);
  }

  /** Comparing the other way round swaps GREATER and LESS. */
  lemma CompareAntisymmetric(a: seq<int>, b: seq<int>)
    requires |a| == |b|
    ensures Compare(a, b) == Greater <==> Compare(b, a) == Less
    ensures Compare(a, b) == Concurrent <==> Compare(b, a) == Concurrent
  {
    CompareGreater(a, b);
    CompareLess(b, a);
    CompareConcurrent(a, b);
    CompareConcurrent(b, a);
  }

  function Max(x: int, y: int): int {
    if x >= y then x else y
  }

  /** SyncVersions: each component of the received vector becomes the larger of it and the local one. */
  function MaxMerge(received: seq<int>, local: seq<int>): (r: seq<int>)
    requires |received| <= |local|
    ensures |r| == |received|
    ensures forall i :: 0 <= i < |r| ==> r[i] >= received[i] && r[i] >= local[i]
    ensures forall i :: 0 <= i < |r| ==> r[i] == received[i] || r[i] == local[i]
  {
    seq(|received|, i requires 0 <= i < |received| => Max(received[i], local[i]))
  }

  /** The merged vector dominates both vectors, and is the least vector that does. */
  lemma MaxMergeIsJoin(a: seq<int>, b: seq<int>)
    requires |a| == |b|
    ensures AtLeast(MaxMerge(a, b), a) && AtLeast(MaxMerge(a, b), b)
    ensures forall c :: |c| == |a| && AtLeast(c, a) && AtLeast(c, b) ==> AtLeast(c, MaxMerge(a, b))
  {
  }

  /** As values, the merge is commutative and idempotent. */
  lemma MaxMergeAlgebra(a: seq<int>, b: seq<int>)
    requires |a| == |b|
    ensures MaxMerge(a, b) == MaxMerge(b, a)
    ensures MaxMerge(a, a) == a
    ensures MaxMerge(MaxMerge(a, b), b) == MaxMerge(a, b)
  {
  }

  /** The vector a write stores: the key's vector with this node's component one higher. */
  function Bump(ts: seq<int>, i: int): (r: seq<int>)
    requires 0 <= i < |ts|
    ensures |r| == |ts|
  {
    ts[i := ts[i] + 1]
  }

  /** A bumped vector is GREATER than the vector it came from. */
  lemma BumpIsNewer(ts: seq<int>, i: int)
    requires 0 <= i < |ts|
    ensures Compare(Bump(ts, i), ts) == Greater
  {
    CompareGreater(Bump(ts, i), ts);
    assert Bump(ts, i)[i] != ts[i];
  }

  function Zeros(n: nat): (r: seq<int>)
    ensures |r| == n
  {
    seq(n, _ => 0)
  }

  /**
   * AsInt: `int.Parse` of this node's own id after its first character (an
   * id `n3` gives 3); None when the id is too short or does not parse. The
   * argument `a` is not used.
   */
  function AsInt(nodeId: string, a: string): (r: Option<int>)
    ensures |nodeId| == 0 ==> r.None?
    ensures r.Some? ==> |nodeId| >= 1 && ParseInt(nodeId[1..]) == r && -0x8000_0000 <= r.value < 0x8000_0000
  {
    if |nodeId| >= 1 then ParseInt32(nodeId[1..]) else None
  }

  /** A node named `n` followed by a 32-bit number reads that number, whatever AsInt is given. */
  lemma AsIntOfNodeName(i: int, a: string)
    requires -0x8000_0000 <= i < 0x8000_0000
    ensures AsInt("n" + IntToString(i), a) == Some(i)
  {
    assert ("n" + IntToString(i))[1..] == IntToString(i);
    ParseIntToString(i);
  }

  // ---------------------------------------------------------------- transactions as values

  /** The vector a write to `k` starts from: the stored one, or zeros, one per node, for a new key. */
  function WriteBase(ds: map<int, VV>, k: int, n: nat): seq<int> {
    if k in ds then ds[k].version else Zeros(n)
  }

  /**
   * One micro-operation: a read of a present key fills in its value and
   * leaves the store alone; a write stores the value with the bumped
   * vector; None when the bump indexes outside the vector (or the node id
   * does not parse), which ends the handler.
   */
  function ApplyOp(ds: map<int, VV>, op: Op, self: Option<int>, n: nat): (r: Option<(map<int, VV>, Op)>)
    ensures r.None? <==> op.W? && !(self.Some? && 0 <= self.value < |WriteBase(ds, op.key, n)|)
  {
    match op
    case R(k, _) => Some((ds, if k in ds then R(k, Some(ds[k].value)) else op))
    case W(k, v) =>
      var base := WriteBase(ds, k, n);
      if self.Some? && 0 <= self.value < |base| then Some((ds[k := VV(v, Bump(base, self.value))], op)) else None
  }

  /**
   * What one operation does: a read leaves the store alone and fills in the
   * stored value; a write stores its value under a vector GREATER than the
   * one it started from; no other key changes.
   */
  lemma ApplyOpEffect(ds: map<int, VV>, op: Op, self: Option<int>, n: nat)
    requires ApplyOp(ds, op, self, n).Some?
    ensures var (d, o) := ApplyOp(ds, op, self, n).value;
      && o.key == op.key && d.Keys == ds.Keys + (if op.W? then {op.key} else {})
      && (forall k :: k in ds && k != op.key ==> d[k] == ds[k])
      && (op.R? ==> d == ds && o == if op.key in ds then R(op.key, Some(ds[op.key].value)) else op)
      && (op.W? ==> o == op && d[op.key].value == op.val && |d[op.key].version| == |WriteBase(ds, op.key, n)|)
      && (op.W? ==> Compare(d[op.key].version, WriteBase(ds, op.key, n)) == Greater)
  {
    if op.W? {
      BumpIsNewer(WriteBase(ds, op.key, n), self.value);
    }
  }

  /** A transaction part way through: the store, the operations done (reads filled in), the keys written. */
  datatype TxnRun = TxnRun(ds: map<int, VV>, done: seq<Op>, written: set<int>, failed: bool)

  /** The remaining operations applied in order from `st`; a failed operation stops the run. */
  function RunFrom(st: TxnRun, ops: seq<Op>, self: Option<int>, n: nat): TxnRun
    decreases |ops|
  {
    if ops == [] || st.failed then st
    else
      match ApplyOp(st.ds, ops[0], self, n)
      case None => st.(failed := true)
      case Some((d, o)) =>
        RunFrom(TxnRun(d, st.done + [o], if ops[0].W? then st.written + {ops[0].key} else st.written, false),
                ops[1..], self, n)
  }

  /** The `txn` handler's effect on the store, its reply's operation list and its `writes` keys. */
  function RunOps(ds: map<int, VV>, ops: seq<Op>, self: Option<int>, n: nat): (r: TxnRun)
    ensures !r.failed ==> |r.done| == |ops| && r.written == WriteKeys(ops)
    ensures self.None? ==> (r.failed <==> WriteKeys(ops) != {})
  {
    var st := TxnRun(ds, [], {}, false);
    RunFromNoIndex(st, ops, n);
    if RunFrom(st, ops, self, n).failed then RunFrom(st, ops, self, n)
    else
      RunFromWrites(st, ops, self, n);
      RunFromDone(st, ops, self, n);
      RunFrom(st, ops, self, n)
  }

  /** One step of a run that has not failed. */
  lemma RunFromStep(st: TxnRun, ops: seq<Op>, self: Option<int>, n: nat)
    requires ops != [] && !st.failed
    ensures RunFrom(st, ops, self, n) ==
      match ApplyOp(st.ds, ops[0], self, n)
      case None => st.(failed := true)
      case Some((d, o)) =>
        RunFrom(TxnRun(d, st.done + [o], if ops[0].W? then st.written + {ops[0].key} else st.written, false), ops[1..], self, n)
  {
  }

  /** A successful operation at `ops[i]` moves the run on to `ops[i + 1..]`. */
  lemma RunFromAdvances(ds: map<int, VV>, done: seq<Op>, written: set<int>, ops: seq<Op>, i: nat, self: Option<int>, n: nat)
    requires i < |ops| && ApplyOp(ds, ops[i], self, n).Some?
    ensures var s := ApplyOp(ds, ops[i], self, n).value;
      RunFrom(TxnRun(ds, done, written, false), ops[i..], self, n) ==
      RunFrom(TxnRun(s.0, done + [s.1], written + if ops[i].W? then {ops[i].key} else {}, false), ops[i + 1..], self, n)
  {
    RunFromStep(TxnRun(ds, done, written, false), ops[i..], self, n);
    assert ops[i..][0] == ops[i] && ops[i..][1..] == ops[i + 1..];
    assert (if ops[i].W? then written + {ops[i].key} else written) == written + if ops[i].W? then {ops[i].key} else {};
  }

  /** A failing operation at `ops[i]` ends the run with the state before it. */
  lemma RunFromFails(ds: map<int, VV>, done: seq<Op>, written: set<int>, ops: seq<Op>, i: nat, self: Option<int>, n: nat)
    requires i < |ops| && ApplyOp(ds, ops[i], self, n).None?
    ensures RunFrom(TxnRun(ds, done, written, false), ops[i..], self, n) == TxnRun(ds, done, written, true)
  {
    RunFromStep(TxnRun(ds, done, written, false), ops[i..], self, n);
    assert ops[i..][0] == ops[i];
  }

  /** The keys the transaction writes. */
  function WriteKeys(ops: seq<Op>): set<int> {
    set j | 0 <= j < |ops| && ops[j].W? :: ops[j].key
  }

  /** The value of the last write to `k`, if any. */
  function LastWrite(ops: seq<Op>, k: int): Option<int> {
    if ops == [] then None
    else
      match LastWrite(ops[1..], k)
      case Some(v) => Some(v)
      case None => if ops[0].W? && ops[0].key == k then Some(ops[0].val) else None
  }

  lemma WriteKeysCons(ops: seq<Op>)
    requires ops != []
    ensures WriteKeys(ops) == (if ops[0].W? then {ops[0].key} else {}) + WriteKeys(ops[1..])
  {
    forall k | k in WriteKeys(ops[1..])
      ensures k in WriteKeys(ops)
    {
      var j :| 0 <= j < |ops[1..]| && ops[1..][j].W? && ops[1..][j].key == k;
      assert ops[j + 1] == ops[1..][j];
    }
    forall k | k in WriteKeys(ops)
      ensures k in (if ops[0].W? then {ops[0].key} else {}) + WriteKeys(ops[1..])
    {
      var j :| 0 <= j < |ops| && ops[j].W? && ops[j].key == k;
      if j > 0 {
        assert ops[1..][j - 1] == ops[j];
      }
    }
  }

  lemma LastWriteIn(ops: seq<Op>, k: int)
    ensures LastWrite(ops, k).Some? <==> k in WriteKeys(ops)
  {
    if ops != [] {
      WriteKeysCons(ops);
      LastWriteIn(ops[1..], k);
    }
  }

  /**
   * A run that does not fail writes exactly the keys of its writes; each
   * written key holds the value of its last write, and no other key changes.
   */
  lemma {:induction false} RunFromWrites(st: TxnRun, ops: seq<Op>, self: Option<int>, n: nat)
    requires !st.failed && !RunFrom(st, ops, self, n).failed
    ensures var r := RunFrom(st, ops, self, n);
      && r.written == st.written + WriteKeys(ops)
      && (forall k :: k in WriteKeys(ops) ==> k in r.ds && Some(r.ds[k].value) == LastWrite(ops, k))
      && (forall k :: k !in WriteKeys(ops) ==> (k in r.ds <==> k in st.ds))
      && (forall k :: k !in WriteKeys(ops) && k in st.ds ==> r.ds[k] == st.ds[k])
    decreases |ops|
  {
    if ops != [] {
      var s := ApplyOp(st.ds, ops[0], self, n);
      var next := TxnRun(s.value.0, st.done + [s.value.1], if ops[0].W? then st.written + {ops[0].key} else st.written, false);
      RunFromWrites(next, ops[1..], self, n);
      WriteKeysCons(ops);
      forall k | k in WriteKeys(ops)
        ensures Some(RunFrom(st, ops, self, n).ds[k].value) == LastWrite(ops, k)
      {
        LastWriteIn(ops[1..], k);
      }
    }
  }

  /** The transaction's writes: its keys are written, each to the value of its last write; nothing else changes. */
  lemma RunOpsWrites(ds: map<int, VV>, ops: seq<Op>, self: Option<int>, n: nat)
    requires !RunOps(ds, ops, self, n).failed
    ensures var r := RunOps(ds, ops, self, n);
      && r.written == WriteKeys(ops)
      && (forall k :: k in WriteKeys(ops) ==> k in r.ds && Some(r.ds[k].value) == LastWrite(ops, k))
      && (forall k :: k !in WriteKeys(ops) ==> (k in r.ds <==> k in ds))
      && (forall k :: k !in WriteKeys(ops) && k in ds ==> r.ds[k] == ds[k])
  {
    RunFromWrites(TxnRun(ds, [], {}, false), ops, self, n);
  }

  /** Every vector has one component per node. */
  predicate Width(ds: map<int, VV>, n: nat) {
    forall k :: k in ds ==> |ds[k].version| == n
  }

  /**
   * On a node whose id parses to an index among the `n` nodes, with every
   * stored vector `n` long, a transaction never fails and keeps the widths.
   */
  lemma {:induction false} RunFromWidth(st: TxnRun, ops: seq<Op>, i: int, n: nat)
    requires 0 <= i < n && !st.failed && Width(st.ds, n)
    ensures !RunFrom(st, ops, Some(i), n).failed && Width(RunFrom(st, ops, Some(i), n).ds, n)
    decreases |ops|
  {
    if ops != [] {
      var s := ApplyOp(st.ds, ops[0], Some(i), n);
      assert s.Some?;
      var next := TxnRun(s.value.0, st.done + [s.value.1], if ops[0].W? then st.written + {ops[0].key} else st.written, false);
      RunFromWidth(next, ops[1..], i, n);
    }
  }

  /** A node whose id does not parse fails exactly when the transaction writes. */
  lemma {:induction false} RunFromNoIndex(st: TxnRun, ops: seq<Op>, n: nat)
    requires !st.failed
    ensures RunFrom(st, ops, None, n).failed <==> WriteKeys(ops) != {}
    decreases |ops|
  {
    if ops != [] {
      WriteKeysCons(ops);
      if ops[0].R? {
        var s := ApplyOp(st.ds, ops[0], None, n);
        RunFromNoIndex(TxnRun(s.value.0, st.done + [s.value.1], st.written, false), ops[1..], n);
      }
    }
  }

  /**
   * The reply's operations: one per request operation, on the same key;
   * writes unchanged, and a read filled in with the value the store held
   * at that point of the run, so a read sees the writes before it.
   */
  lemma {:induction false} RunFromDone(st: TxnRun, ops: seq<Op>, self: Option<int>, n: nat)
    requires !st.failed && !RunFrom(st, ops, self, n).failed
    ensures var r := RunFrom(st, ops, self, n);
      && |r.done| == |st.done| + |ops|
      && r.done[..|st.done|] == st.done
      && forall j :: 0 <= j < |ops| ==>
           var before := RunFrom(st, ops[..j], self, n).ds;
           r.done[|st.done| + j] == (match ops[j]
             case W(_, _) => ops[j]
             case R(k, _) => if k in before then R(k, Some(before[k].value)) else ops[j])
    decreases |ops|
  {
    if ops != [] {
      var s := ApplyOp(st.ds, ops[0], self, n);
      var next := TxnRun(s.value.0, st.done + [s.value.1], if ops[0].W? then st.written + {ops[0].key} else st.written, false);
      RunFromDone(next, ops[1..], self, n);
      var r := RunFrom(st, ops, self, n);
      forall j | 0 <= j < |ops|
        ensures var before := RunFrom(st, ops[..j], self, n).ds;
          r.done[|st.done| + j] == (match ops[j]
            case W(_, _) => ops[j]
            case R(k, _) => if k in before then R(k, Some(before[k].value)) else ops[j])
      {
        if j == 0 {
          assert ops[..0] == [];
        } else {
          PrefixStep(st, ops, self, n, j);
          assert ops[1..][j - 1] == ops[j];
        }
      }
    }
  }

  /** Running a prefix of `ops` is its first step, then the rest of that prefix. */
  lemma PrefixStep(st: TxnRun, ops: seq<Op>, self: Option<int>, n: nat, j: int)
    requires !st.failed && 0 < j <= |ops| && ApplyOp(st.ds, ops[0], self, n).Some?
    ensures var s := ApplyOp(st.ds, ops[0], self, n);
      var next := TxnRun(s.value.0, st.done + [s.value.1], if ops[0].W? then st.written + {ops[0].key} else st.written, false);
      RunFrom(st, ops[..j], self, n) == RunFrom(next, ops[1..][..j - 1], self, n)
  {
    RunFromStep(st, ops[..j], self, n);
    assert ops[..j][0] == ops[0] && ops[..j][1..] == ops[1..][..j - 1];
  }

  /** A read right after a write to the same key returns the written value. */
  lemma ReadYourWrite(ds: map<int, VV>, k: int, v: int, x: Option<int>, i: int, n: nat)
    requires 0 <= i < n && Width(ds, n)
    ensures RunOps(ds, [W(k, v), R(k, x)], Some(i), n).done == [W(k, v), R(k, Some(v))]
  {
    var ops := [W(k, v), R(k, x)];
    var base := WriteBase(ds, k, n);
    assert |base| == n;
    var d1 := ds[k := VV(v, Bump(base, i))];
    assert ApplyOp(ds, ops[0], Some(i), n) == Some((d1, W(k, v)));
    var st0 := TxnRun(ds, [], {}, false);
    RunFromStep(st0, ops, Some(i), n);
    assert ops[1..] == [R(k, x)];
    var st1 := TxnRun(d1, [W(k, v)], {k}, false);
    assert RunOps(ds, ops, Some(i), n) == RunFrom(st1, [R(k, x)], Some(i), n);
    RunFromStep(st1, [R(k, x)], Some(i), n);
    assert [R(k, x)][1..] == [];
  }

  // ---------------------------------------------------------------- replication as values

  function Get(ds: map<int, VV>, k: int): Option<VV> {
    if k in ds then Some(ds[k]) else None
  }

  /**
   * One key of a `txn_sync`: a missing key adopts the incoming pair; a
   * present one takes the componentwise maximum of both vectors, with the
   * local value when the local vector is GREATER and the incoming value
   * when it is LESS; on CONCURRENT the larger node id is meant to win, but
   * both sides of that test parse this node's own id. None when the
   * incoming vector has fewer than two components (the handler's log line
   * reads the first two), when the vectors differ in length
   * (CompareTimestamp or SyncVersions indexes past the end) or when the id
   * does not parse.
   */
  function MergeKey(local: Option<VV>, incoming: VV, self: string, src: string): (r: Option<VV>)
    ensures local.None? ==> r == if |incoming.version| < 2 then None else Some(incoming)
    ensures r.Some? ==> |r.value.version| == |incoming.version| && AtLeast(r.value.version, incoming.version)
    ensures r.Some? && local.Some? ==>
      && |local.value.version| == |incoming.version|
      && AtLeast(r.value.version, local.value.version)
      && (r.value.value == local.value.value || r.value.value == incoming.value)
  {
    if |incoming.version| < 2 then None
    else match local
    case None => Some(incoming)
    case Some(l) =>
      if |l.version| != |incoming.version| then None
      else
        var version := MaxMerge(incoming.version, l.version);
        match Compare(l.version, incoming.version)
        case Greater => Some(VV(l.value, version))
        case Less => Some(VV(incoming.value, version))
        case Concurrent =>
          match (AsInt(self, self), AsInt(self, src))
          case (Some(mine), Some(theirs)) => Some(VV(if mine > theirs then l.value else incoming.value, version))
          case _ => None
  }

  /**
   * A merged key's vector dominates both the local and the incoming vector,
   * and its value is the local one exactly when the local vector is GREATER.
   */
  lemma MergeKeyNewer(l: VV, incoming: VV, self: string, src: string)
    requires MergeKey(Some(l), incoming, self, src).Some?
    ensures var m := MergeKey(Some(l), incoming, self, src).value;
      && |m.version| == |l.version| == |incoming.version|
      && AtLeast(m.version, l.version) && AtLeast(m.version, incoming.version)
      && (m.value == l.value || m.value == incoming.value)
      && (Compare(l.version, incoming.version) == Greater ==> m.value == l.value)
      && (Compare(l.version, incoming.version) != Greater ==> m.value == incoming.value)
  {
    MaxMergeIsJoin(incoming.version, l.version);
  }

  /**
   * Whatever the two node ids, a CONCURRENT pair (equal vectors included)
   * adopts the incoming value: AsInt parses this node's id on both sides.
   */
  lemma ConcurrentAdoptsIncoming(l: VV, incoming: VV, self: string, src: string)
    requires |l.version| == |incoming.version| >= 2 && Compare(l.version, incoming.version) == Concurrent
    ensures MergeKey(Some(l), incoming, self, src).Some? <==> AsInt(self, self).Some?
    ensures MergeKey(Some(l), incoming, self, src).Some? ==>
      MergeKey(Some(l), incoming, self, src).value.value == incoming.value
  {
    assert AsInt(self, self) == AsInt(self, src);
  }

  /**
   * Hence a second sync of one key whose value was rewritten locally: the
   * task queued for the first write carries the first value with the
   * vector of the second, so when it arrives last it replaces the newer
   * value at the receiver.
   */
  lemma StaleSyncWins(self: string, src: string, older: int, newer: int, ts: seq<int>)
    requires AsInt(self, self).Some? && |ts| >= 2
    ensures MergeKey(Some(VV(newer, ts)), VV(older, ts), self, src) == Some(VV(older, ts))
  {
    SameUpToIsEqual(ts, ts);
    MaxMergeAlgebra(ts, ts);
  }

  /** The store after the keys `keys` of a `txn_sync`, one after the other; the first failing key stops it. */
  datatype SyncRun = SyncRun(ds: map<int, VV>, failed: bool)

  function MergeFrom(ds: map<int, VV>, tx: map<int, VV>, keys: seq<int>, self: string, src: string): (r: SyncRun)
    requires forall k :: k in keys ==> k in tx
    ensures ds.Keys <= r.ds.Keys
    ensures keys == [] ==> !r.failed
    decreases |keys|
  {
    if keys == [] then SyncRun(ds, false)
    else
      match MergeKey(Get(ds, keys[0]), tx[keys[0]], self, src)
      case None => SyncRun(ds, true)
      case Some(v) => MergeFrom(ds[keys[0] := v], tx, keys[1..], self, src)
  }

  /** A sync, failed or not, adds only the keys it merges and leaves every other key unchanged. */
  lemma {:induction false} MergeFromKeepsOthers(ds: map<int, VV>, tx: map<int, VV>, keys: seq<int>, self: string, src: string, k: int)
    requires (forall j :: j in keys ==> j in tx) && k !in keys
    ensures k in MergeFrom(ds, tx, keys, self, src).ds <==> k in ds
    ensures k in ds ==> MergeFrom(ds, tx, keys, self, src).ds[k] == ds[k]
    decreases |keys|
  {
    if keys != [] {
      match MergeKey(Get(ds, keys[0]), tx[keys[0]], self, src)
      case None =>
      case Some(v) => MergeFromKeepsOthers(ds[keys[0] := v], tx, keys[1..], self, src, k);
    }
  }

  /**
   * Merging distinct keys one after another fails exactly when some key
   * fails; otherwise each of them holds its merge against the store as it
   * was, and every other key is untouched.
   */
  lemma {:induction false} MergeFromPointwise(ds: map<int, VV>, tx: map<int, VV>, keys: seq<int>, self: string, src: string)
    requires Distinct(keys) && forall k :: k in keys ==> k in tx
    ensures var r := MergeFrom(ds, tx, keys, self, src);
      && (r.failed <==> exists k :: k in keys && MergeKey(Get(ds, k), tx[k], self, src).None?)
      && (!r.failed ==> forall k :: k in r.ds <==> k in ds || k in keys)
      && (!r.failed ==> forall k :: k in keys ==> MergeKey(Get(ds, k), tx[k], self, src) == Some(r.ds[k]))
      && (!r.failed ==> forall k :: k in ds && k !in keys ==> r.ds[k] == ds[k])
    decreases |keys|
  {
    if keys != [] {
      var k0 := keys[0];
      var rest := keys[1..];
      assert Distinct(rest) by {
        forall i, j | 0 <= i < j < |rest| ensures rest[i] != rest[j] {
          assert rest[i] == keys[i + 1] && rest[j] == keys[j + 1];
        }
      }
      assert k0 !in rest by {
        forall i | 0 <= i < |rest| ensures rest[i] != k0 {
          assert rest[i] == keys[i + 1];
        }
      }
      assert forall k :: k in keys <==> k == k0 || k in rest;
      match MergeKey(Get(ds, k0), tx[k0], self, src)
      case None =>
      case Some(v) =>
        var ds1 := ds[k0 := v];
        MergeFromPointwise(ds1, tx, rest, self, src);
        assert forall k :: k in rest ==> Get(ds1, k) == Get(ds, k);
    }
  }

  /** Every key of the task merged against the store; defined when no key fails. */
  function MergeAll(ds: map<int, VV>, tx: map<int, VV>, self: string, src: string): map<int, VV>
    requires forall k :: k in tx ==> MergeKey(Get(ds, k), tx[k], self, src).Some?
  {
    map k | k in ds.Keys + tx.Keys :: if k in tx then MergeKey(Get(ds, k), tx[k], self, src).value else ds[k]
  }

  /**
   * However the task's dictionary is enumerated, a `txn_sync` fails exactly
   * when some key fails, and otherwise leaves the same store: every key of
   * the task merged against the store as it was.
   */
  lemma MergeInAnyOrder(ds: map<int, VV>, tx: map<int, VV>, keys: seq<int>, self: string, src: string)
    requires Enumerates(keys, tx)
    ensures MergeFrom(ds, tx, keys, self, src).failed <==> exists k :: k in tx && MergeKey(Get(ds, k), tx[k], self, src).None?
    ensures !MergeFrom(ds, tx, keys, self, src).failed ==>
      (forall k :: k in tx ==> MergeKey(Get(ds, k), tx[k], self, src).Some?) &&
      MergeFrom(ds, tx, keys, self, src).ds == MergeAll(ds, tx, self, src)
  {
    MergeFromPointwise(ds, tx, keys, self, src);
    var r := MergeFrom(ds, tx, keys, self, src);
    if !r.failed {
      var all := MergeAll(ds, tx, self, src);
      forall k
        ensures k in r.ds <==> k in all
      {
        assert k in keys <==> k in tx;
      }
      assert forall k :: k in r.ds ==> r.ds[k] == all[k];
    }
  }

  // ---------------------------------------------------------------- the node

  /** VersionedValue: the number and the version array it was stored with; the array may be shared. */
  class VersionedValue {
    const value: int
    const version: array<int>

    constructor (value: int, version: array<int>)
      ensures this.value == value && this.version == version
    {
      this.value := value;
      this.version := version;
    }
  }

  /** ReplictionTask: the `writes` of one transaction, to be sent to `dest`; it holds the stored objects themselves. */
  datatype ReplTask = ReplTask(tx: map<int, VersionedValue>, dest: string)

  /** The arrays a dictionary of versioned values reads through. */
  function Arrays(tx: map<int, VersionedValue>): set<array<int>> {
    set k | k in tx :: tx[k].version
  }

  /** The value-level contents of a dictionary of versioned values, read through their arrays as they are now. */
  function Contents(tx: map<int, VersionedValue>): (r: map<int, VV>)
    reads Arrays(tx)
    ensures r.Keys == tx.Keys
  {
    map k | k in tx :: VV(tx[k].value, tx[k].version[..])
  }

  /** The entries of `ds` at `keys`. */
  function Restrict(ds: map<int, VersionedValue>, keys: set<int>): map<int, VersionedValue> {
    map k | k in ds && k in keys :: ds[k]
  }

  /** A dictionary that agrees with `ds` on its own keys is `ds` restricted to them. */
  lemma RestrictOf(ds: map<int, VersionedValue>, writes: map<int, VersionedValue>)
    requires forall k :: k in writes ==> k in ds && writes[k] == ds[k]
    ensures writes == Restrict(ds, writes.Keys)
  {
    var r := Restrict(ds, writes.Keys);
    forall k
      ensures k in writes <==> k in r
    {
      if k in writes {
        assert k in ds;
      }
    }
    assert forall k :: k in writes ==> writes[k] == r[k];
    assert writes == r;
  }

  /** QueueReplication: one task per other node, each carrying the same dictionary. */
  function Fanout(tx: map<int, VersionedValue>, dests: seq<string>): (r: seq<ReplTask>)
    ensures |r| == |dests|
    ensures forall j :: 0 <= j < |r| ==> r[j] == ReplTask(tx, dests[j])
  {
    seq(|dests|, j requires 0 <= j < |dests| => ReplTask(tx, dests[j]))
  }

  /** The `txn_sync` request for a task, its payload read from the arrays as they are when it is sent. */
  function SyncRequest(t: ReplTask): Message
    reads Arrays(t.tx)
  {
    Message("", t.dest, Typed(MsgType.TxnSync).(syncVal := Some(SyncTask(Contents(t.tx), t.dest))))
  }

  class KVStoreNode {
    const rt: Server
    var ds: map<int, VersionedValue>
    var queue: seq<ReplTask>         // replictionTasks, oldest first
    ghost var Repr: set<array<int>>  // every version array the store has held
    ghost var Model: map<int, VV>    // the store as values

    /**
     * The store's arrays are among `Repr`, no two keys share one, and
     * `Model` holds each key's value with its array's current contents.
     */
    ghost predicate Valid()
      reads this, rt, Repr
    {
      && rt.Valid()
      && (forall k :: k in ds ==> ds[k].version in Repr)
      && (forall k1, k2 :: k1 in ds && k2 in ds && k1 != k2 ==> ds[k1].version != ds[k2].version)
      && Model.Keys == ds.Keys
      && (forall k :: k in ds ==> Model[k] == VV(ds[k].value, ds[k].version[..]))
    }

    /** The version arrays the store holds now. */
    ghost function Held(): set<array<int>>
      reads this
    {
      set k | k in ds :: ds[k].version
    }

    /** This node's index, as AsInt reads it. */
    function Self(): Option<int>
      reads rt
    {
      AsInt(rt.nodeId, rt.nodeId)
    }

    constructor ()
      ensures Valid() && fresh(rt)
      ensures ds == map[] && queue == [] && Repr == {} && Model == map[]
      ensures rt.handlers == {MsgType.Init, MsgType.Txn, MsgType.TxnSync}
      ensures rt.msgId == 0 && rt.pending == map[] && rt.outbox == [] && rt.nodeId == "uninitialized" && rt.nodeIds == []
    {
      var s := new Server();
      var ok := s.On(MsgType.Txn);
      ok := s.On(MsgType.TxnSync);
      rt := s;
      ds := map[];
      queue := [];
      Repr := {};
      Model := map[];
    }

    /**
     * CompareTimestamp: folds the three flags over the components of `val1`;
     * None when `val2` is shorter (the index past its end throws).
     */
    static method CompareTimestamp(val1: array<int>, val2: array<int>) returns (r: Option<Ordering>)
      ensures r.None? <==> val2.Length < val1.Length
      ensures r.Some? ==> r.value == Compare(val1[..], val2[..])
    {
      if val2.Length < val1.Length {
        return None;
      }
      var equals, val1Greater, val2Greater := true, true, true;
      var i := 0;
      while i < val1.Length
        invariant 0 <= i <= val1.Length
        invariant equals <==> forall j :: 0 <= j < i ==> val1[j] == val2[j]
        invariant val1Greater <==> forall j :: 0 <= j < i ==> val1[j] >= val2[j]
        invariant val2Greater <==> forall j :: 0 <= j < i ==> val1[j] <= val2[j]
      {
        equals := equals && val1[i] == val2[i];
        val1Greater := val1Greater && val1[i] >= val2[i];
        val2Greater := val2Greater && val1[i] <= val2[i];
        i := i + 1;
      }
      assert SameUpTo(val1[..], val2[..]) <==> equals;
      assert AtLeast(val1[..], val2[..]) <==> val1Greater;
      assert AtMost(val1[..], val2[..]) <==> val2Greater;
      if equals {
        r := Some(Concurrent);
      } else if val1Greater {
        r := Some(Greater);
      } else if val2Greater {
        r := Some(Less);
      } else {
        r := Some(Concurrent);
      }
    }

    /**
     * SyncVersions: raises each component of `receivedTs` to the local one,
     * in place; fails (having raised the components it reached) when the
     * local vector is shorter.
     */
    static method SyncVersions(localTs: array<int>, receivedTs: array<int>) returns (ok: bool)
      requires localTs != receivedTs
      modifies receivedTs
      ensures ok <==> receivedTs.Length <= localTs.Length
      ensures ok ==> receivedTs[..] == MaxMerge(old(receivedTs[..]), localTs[..])
      ensures !ok ==> receivedTs[..] == MaxMerge(old(receivedTs[..localTs.Length]), localTs[..]) + old(receivedTs[localTs.Length..])
    {
      var i := 0;
      while i < receivedTs.Length
        invariant 0 <= i <= receivedTs.Length && i <= localTs.Length
        invariant forall j :: 0 <= j < receivedTs.Length && j < localTs.Length ==>
          receivedTs[j] == if j < i then Max(old(receivedTs[j]), localTs[j]) else old(receivedTs[j])
        invariant forall j :: localTs.Length <= j < receivedTs.Length ==> receivedTs[j] == old(receivedTs[j])
      {
        if i >= localTs.Length {
          ok := false;
          assert receivedTs[..] == MaxMerge(old(receivedTs[..localTs.Length]), localTs[..]) + old(receivedTs[localTs.Length..]) by {
            forall j | 0 <= j < receivedTs.Length
              ensures receivedTs[j] == (MaxMerge(old(receivedTs[..localTs.Length]), localTs[..]) + old(receivedTs[localTs.Length..]))[j]
            {
            }
          }
          return;
        }
        receivedTs[i] := Max(receivedTs[i], localTs[i]);
        i := i + 1;
      }
      ok := true;
      assert receivedTs[..] == MaxMerge(old(receivedTs[..]), localTs[..]);
    }

    /**
     * IncrementTs: raises this node's component of `ts` in place and returns
     * a copy; fails when the node id does not parse or indexes outside `ts`.
     */
    method IncrementTs(ts: array<int>) returns (ok: bool, copy: array<int>)
      modifies ts
      ensures ok <==> Self().Some? && 0 <= Self().value < ts.Length
      ensures ok ==> ts[..] == Bump(old(ts[..]), Self().value) && fresh(copy) && copy[..] == ts[..]
      ensures !ok ==> unchanged(ts)
    {
      var nodeId := AsInt(rt.nodeId, rt.nodeId);
      if nodeId.None? || !(0 <= nodeId.value < ts.Length) {
        return false, ts;
      }
      ts[nodeId.value] := ts[nodeId.value] + 1;
      copy := new int[ts.Length](j reads ts => if 0 <= j < ts.Length then ts[j] else 0);
      ok := true;
    }

    /** Puts a new object holding `v` and `a` at `k`; `a` is no other key's array. */
    method Store(k: int, v: int, a: array<int>)
      requires Valid() && forall j :: j in ds && j != k ==> ds[j].version != a
      modifies this`ds, this`Repr, this`Model
      ensures Valid() && Model == old(Model)[k := VV(v, a[..])]
      ensures ds == old(ds)[k := ds[k]] && ds[k].version == a && Repr == old(Repr) + {a}
    {
      var stored := new VersionedValue(v, a);
      ds := ds[k := stored];
      Repr := Repr + {a};
      Model := Model[k := VV(v, a[..])];
    }

    /**
     * The write branch of `txn`, proved against ApplyOp: a present key's own
     * array is bumped in place and stored again with the new value (the copy
     * IncrementTs returns is dropped); a new key gets a fresh array of zeros.
     */
    method Write(k: int, v: int) returns (ok: bool)
      requires Valid()
      modifies this`ds, this`Repr, this`Model, Repr
      ensures Valid()
      ensures var s := ApplyOp(old(Model), W(k, v), Self(), |rt.nodeIds|);
        ok == s.Some? && Model == (if ok then s.value.0 else old(Model))
      ensures !ok ==> ds == old(ds) && Repr == old(Repr)
      ensures ok ==> k in ds && ds == old(ds)[k := ds[k]]
      ensures ok && k in old(ds) ==> ds[k].version == old(ds[k].version) && Repr == old(Repr)
      ensures ok && k !in old(ds) ==> fresh(ds[k].version) && Repr == old(Repr) + {ds[k].version}
      ensures forall a :: a in old(Repr) && (k !in old(ds) || a != old(ds[k].version)) ==> unchanged(a)
    {
      var ts: array<int>;
      if k in ds {
        ts := ds[k].version;
      } else {
        ts := new int[|rt.nodeIds|](_ => 0);
        assert ts[..] == Zeros(|rt.nodeIds|);
      }
      assert ts[..] == WriteBase(Model, k, |rt.nodeIds|);
      var incremented, _ := IncrementTs(ts);
      if !incremented {
        return false;
      }
      if k in ds {
        Model := Model[k := VV(ds[k].value, ts[..])];
      }
      Store(k, v, ts);
      ok := true;
    }

    /** One micro-operation of `txn`, proved against ApplyOp; a read changes nothing. */
    method Execute(op: Op) returns (ok: bool, result: Op)
      requires Valid()
      modifies this`ds, this`Repr, this`Model, Repr
      ensures Valid()
      ensures var s := ApplyOp(old(Model), op, Self(), |rt.nodeIds|);
        && ok == s.Some?
        && (ok ==> Model == s.value.0 && result == s.value.1)
        && (!ok ==> Model == old(Model))
      ensures op.R? || !ok ==> ds == old(ds) && Repr == old(Repr)
      ensures ok && op.W? ==> op.key in ds && ds == old(ds)[op.key := ds[op.key]]
      ensures ok && op.W? && op.key in old(ds) ==> ds[op.key].version == old(ds[op.key].version) && Repr == old(Repr)
      ensures ok && op.W? && op.key !in old(ds) ==> fresh(ds[op.key].version) && Repr == old(Repr) + {ds[op.key].version}
      ensures forall a :: a in old(Repr) && a !in old(Held()) ==> unchanged(a)
      ensures forall k :: k in ds ==> (k in old(ds) && ds[k].version == old(ds[k].version)) || ds[k].version !in old(Repr)
    {
      match op
      case R(k, _) =>
        ok := true;
        result := if k in ds then R(k, Some(ds[k].value)) else op;
      case W(k, v) =>
        ok := Write(k, v);
        result := op;
    }

    /**
     * One turn of the `txn` loop, proved against ApplyOp: the operation is
     * executed, its result recorded, and a written key's object collected.
     * Arrays in `stale` (held by no key) are left alone.
     */
    method TxnStep(op: Op, done: seq<Op>, writes: map<int, VersionedValue>, ghost stale: set<array<int>>)
      returns (ok: bool, done': seq<Op>, writes': map<int, VersionedValue>)
      requires Valid() && forall k :: k in writes ==> k in ds && writes[k] == ds[k]
      requires stale <= Repr && forall k :: k in ds ==> ds[k].version !in stale
      modifies this`ds, this`Repr, this`Model, Repr
      ensures Valid() && Repr >= old(Repr) && fresh(Repr - old(Repr))
      ensures forall k :: k in old(ds) ==> k in ds && ds[k].version == old(ds[k].version)
      ensures stale <= Repr && forall k :: k in ds ==> ds[k].version !in stale
      ensures forall a :: a in stale ==> unchanged(a)
      ensures forall k :: k in writes' ==> k in ds && writes'[k] == ds[k]
      ensures var s := ApplyOp(old(Model), op, Self(), |rt.nodeIds|);
        && ok == s.Some?
        && (!ok ==> Model == old(Model))
        && (ok ==> Model == s.value.0 && done' == done + [s.value.1])
        && (ok ==> writes'.Keys == writes.Keys + if op.W? then {op.key} else {})
    {
      var result;
      ok, result := Execute(op);
      done', writes' := done + [result], writes;
      if ok && op.W? {
        writes' := writes[op.key := ds[op.key]];
      }
    }

    /**
     * The loop of `txn` under the store's lock, proved against RunOps: the
     * operations in order, a failing one ending the loop with the earlier
     * ones applied; `writes` collects the object last stored at each key
     * written.
     */
    method RunTxn(ops: seq<Op>) returns (ok: bool, done: seq<Op>, writes: map<int, VersionedValue>)
      requires Valid()
      modifies this`ds, this`Repr, this`Model, Repr
      ensures Valid() && Repr >= old(Repr) && fresh(Repr - old(Repr))
      ensures forall k :: k in old(ds) ==> k in ds && ds[k].version == old(ds[k].version)
      ensures forall a :: a in old(Repr) && a !in old(Held()) ==> unchanged(a)
      ensures var r := RunOps(old(Model), ops, Self(), |rt.nodeIds|);
        && Model == r.ds && ok == !r.failed
        && (ok ==> done == r.done && writes.Keys == r.written && writes == Restrict(ds, r.written))
    {
      ghost var self, n := Self(), |rt.nodeIds|;
      ghost var r := RunOps(Model, ops, self, n);
      ghost var stale := Repr - Held();
      assert forall a :: a in old(Repr) && a !in old(Held()) ==> a in stale;
      assert stale <= Repr;
      writes, done := map[], [];
      var i := 0;
      assert ops[0..] == ops && writes.Keys == {};
      while i < |ops|
        invariant 0 <= i <= |ops|
        invariant Valid() && Repr >= old(Repr) && fresh(Repr - old(Repr))
        invariant forall k :: k in old(ds) ==> k in ds && ds[k].version == old(ds[k].version)
        invariant stale <= Repr && forall k :: k in ds ==> ds[k].version !in stale
        invariant forall a :: a in stale ==> unchanged(a)
        invariant forall k :: k in writes ==> k in ds && writes[k] == ds[k]
        invariant Self() == self && |rt.nodeIds| == n
        invariant RunFrom(TxnRun(Model, done, writes.Keys, false), ops[i..], self, n) == r
      {
        ghost var m0, d0, w0 := Model, done, writes.Keys;
        ok, done, writes := TxnStep(ops[i], done, writes, stale);
        if !ok {
          RunFromFails(m0, d0, w0, ops, i, self, n);
          return;
        }
        RunFromAdvances(m0, d0, w0, ops, i, self, n);
        i := i + 1;
      }
      ok := true;
      RestrictOf(ds, writes);
    }

    /**
     * `txn`: the operations run under the store's lock, then the keys written
     * are queued for every other node. No reply when the request has no
     * operations list or an operation fails; the operations before the
     * failing one stay applied and nothing is queued.
     */
    method HandleTxn(request: Message) returns (reply: Option<Body>)
      requires Valid()
      modifies this`ds, this`queue, this`Repr, this`Model, Repr
      ensures Valid() && Repr >= old(Repr) && fresh(Repr - old(Repr))
      ensures forall k :: k in old(ds) ==> k in ds && ds[k].version == old(ds[k].version)
      ensures forall a :: a in old(Repr) && a !in old(Held()) ==> unchanged(a)
      ensures request.body.txn.None? ==> reply.None? && ds == old(ds) && queue == old(queue) && Model == old(Model)
      ensures request.body.txn.Some? ==>
        var r := RunOps(old(Model), request.body.txn.value, Self(), |rt.nodeIds|);
        && Model == r.ds
        && (r.failed ==> reply.None? && queue == old(queue))
        && (!r.failed ==>
              reply == Some(Typed(MsgType.TxnOk).(txn := Some(r.done)))
              && queue == old(queue) + (if r.written == {} then [] else Fanout(Restrict(ds, r.written), Others(rt.nodeIds, rt.nodeId))))
    {
      if request.body.txn.None? {
        return None;
      }
      var ok, done, writes := RunTxn(request.body.txn.value);
      if !ok {
        return None;
      }
      assert |writes| == |writes.Keys|;
      if |writes| > 0 {
        QueueReplication(writes);
      } else {
        assert old(queue) + [] == queue;
      }
      reply := Some(Typed(MsgType.TxnOk).(txn := Some(done)));
    }

    /** QueueReplication: one task carrying `tx` for every node other than this one, in list order. */
    method QueueReplication(tx: map<int, VersionedValue>)
      modifies this`queue
      ensures queue == old(queue) + Fanout(tx, Others(rt.nodeIds, rt.nodeId))
    {
      var ids := rt.nodeIds;
      var i := 0;
      while i < |ids|
        invariant 0 <= i <= |ids|
        invariant queue == old(queue) + Fanout(tx, Others(ids[..i], rt.nodeId))
      {
        OthersSnoc(ids, i, rt.nodeId);
        if ids[i] != rt.nodeId {
          FanoutSnoc(tx, Others(ids[..i], rt.nodeId), ids[i]);
          queue := queue + [ReplTask(tx, ids[i])];
        }
        i := i + 1;
      }
      assert ids[..i] == ids;
    }

    /**
     * One key of `txn_sync`, proved against MergeKey: the incoming vector is
     * a new array, raised to the local one in place and stored with the
     * chosen value; a missing key stores the incoming pair as is.
     */
    method MergeOne(k: int, incoming: VV, src: string) returns (ok: bool)
      requires Valid()
      modifies this`ds, this`Repr, this`Model
      ensures Valid() && Repr >= old(Repr) && fresh(Repr - old(Repr))
      ensures var m := MergeKey(Get(old(Model), k), incoming, rt.nodeId, src);
        ok == m.Some? && Model == (if ok then old(Model)[k := m.value] else old(Model))
    {
      if |incoming.version| < 2 {
        return false;
      }
      var received := new int[|incoming.version|](j => if 0 <= j < |incoming.version| then incoming.version[j] else 0);
      assert received[..] == incoming.version;
      if k !in ds {
        Store(k, incoming.value, received);
        return true;
      }
      var local := ds[k];
      var order := CompareTimestamp(local.version, received);
      if order.None? {
        return false;
      }
      var synced := SyncVersions(local.version, received);
      if !synced {
        return false;
      }
      var value, localValue := incoming.value, local.value;
      match order.value {
        case Concurrent =>
          var mine, theirs := AsInt(rt.nodeId, rt.nodeId), AsInt(rt.nodeId, src);
          if mine.None? || theirs.None? {
            return false;
          }
          value := if mine.value > theirs.value then localValue else incoming.value;
        case Greater =>
          value := localValue;
        case Less =>
          value := incoming.value;
      }
      Store(k, value, received);
      ok := true;
    }

    /**
     * `txn_sync`, proved against MergeFrom over the order in which the
     * task's dictionary is enumerated (`keys`): no reply without a task or
     * when a key fails, the keys before it staying merged; otherwise the
     * store holds every key of the task merged against the store as it was.
     */
    method HandleWriteReplication(request: Message) returns (reply: Option<Body>, ghost keys: seq<int>)
      requires Valid()
      modifies this`ds, this`Repr, this`Model
      ensures Valid() && Repr >= old(Repr) && fresh(Repr - old(Repr))
      ensures request.body.syncVal.None? ==> reply.None? && ds == old(ds)
      ensures request.body.syncVal.Some? ==> Enumerates(keys, request.body.syncVal.value.tx)
      ensures request.body.syncVal.Some? ==>
        var tx := request.body.syncVal.value.tx;
        var r := MergeFrom(old(Model), tx, keys, rt.nodeId, request.src);
        && Model == r.ds
        && (reply.Some? <==> forall k :: k in tx ==> MergeKey(Get(old(Model), k), tx[k], rt.nodeId, request.src).Some?)
        && (reply.Some? ==>
              reply == Some(Typed(MsgType.TxnSyncOk))
              && Model == MergeAll(old(Model), tx, rt.nodeId, request.src))
    {
      if request.body.syncVal.None? {
        return None, [];
      }
      var tx := request.body.syncVal.value.tx;
      var order := EnumerateKeys(tx);
      keys := order;
      MergeInAnyOrder(Model, tx, keys, rt.nodeId, request.src);
      var ok := MergeEach(tx, order, request.src);
      reply := if ok then Some(Typed(MsgType.TxnSyncOk)) else None;
    }

    /** The `foreach` of HandleWriteReplication: keys merged one by one in `order`, stopping at the first failure. */
    method MergeEach(tx: map<int, VV>, order: seq<int>, src: string) returns (ok: bool)
      requires Valid() && forall k :: k in order ==> k in tx
      modifies this`ds, this`Repr, this`Model
      ensures Valid() && Repr >= old(Repr) && fresh(Repr - old(Repr))
      ensures var r := MergeFrom(old(Model), tx, order, rt.nodeId, src);
        Model == r.ds && ok == !r.failed
    {
      ghost var s0 := Model;
      assert order[0..] == order;
      var i := 0;
      while i < |order|
        invariant 0 <= i <= |order|
        invariant Valid()
        invariant Repr >= old(Repr) && fresh(Repr - old(Repr))
        invariant MergeFrom(Model, tx, order[i..], rt.nodeId, src) == MergeFrom(s0, tx, order, rt.nodeId, src)
      {
        assert order[i..][0] == order[i] && order[i..][1..] == order[i + 1..];
        ok := MergeOne(order[i], tx[order[i]], src);
        if !ok {
          return;
        }
        i := i + 1;
      }
      ok := true;
    }

    /**
     * One round of the replication job: the oldest task is sent as a
     * `txn_sync` request, its payload read from the arrays as they are now;
     * it is done when the answer is `txn_sync_ok`, and otherwise (a timeout
     * or any other answer) it goes to the back of the queue.
     */
    method ReplicateNext(answer: Option<Body>) returns (delivered: bool)
      requires Valid() && queue != []
      modifies this`queue, rt`msgId, rt`pending, rt`outbox
      ensures Valid() && rt.msgId == old(rt.msgId) + 1
      ensures rt.outbox == old(rt.outbox) + [Outgoing(rt.nodeId, old(SyncRequest(queue[0])), rt.msgId)]
      ensures rt.pending == old(rt.pending)[rt.msgId := Waiting] - (if answer.Some? && answer.value.typ.Some? then {rt.msgId} else {})
      ensures delivered <==> answer.Some? && answer.value.typ == Some(MsgType.TxnSyncOk)
      ensures queue == old(queue)[1..] + (if delivered then [] else [old(queue)[0]])
    {
      var task := queue[0];
      var request := SyncRequest(task);
      queue := queue[1..];
      var outcome := rt.Exchange(request, answer);
      delivered := outcome.Replied? && outcome.reply.body.typ == Some(MsgType.TxnSyncOk);
      if !delivered {
        queue := queue + [task];
      }
    }
  }

  /** One more node in the list adds it to the others unless it is this node. */
  lemma OthersSnoc(ids: seq<string>, i: int, self: string)
    requires 0 <= i < |ids|
    ensures Others(ids[..i + 1], self) == Others(ids[..i], self) + (if ids[i] == self then [] else [ids[i]])
  {
    OthersAppend(ids[..i], [ids[i]], self);
    assert ids[..i + 1] == ids[..i] + [ids[i]];
  }

  lemma {:induction false} OthersAppend(a: seq<string>, b: seq<string>, self: string)
    ensures Others(a + b, self) == Others(a, self) + Others(b, self)
  {
    if a == [] {
      assert a + b == b;
    } else {
      var h := if a[0] == self then [] else [a[0]];
      assert (a + b)[0] == a[0] && (a + b)[1..] == a[1..] + b;
      assert Others(a + b, self) == h + Others(a[1..] + b, self);
      OthersAppend(a[1..], b, self);
      assert Others(a, self) == h + Others(a[1..], self);
      assert h + (Others(a[1..], self) + Others(b, self)) == (h + Others(a[1..], self)) + Others(b, self);
    }
  }

  lemma FanoutSnoc(tx: map<int, VersionedValue>, dests: seq<string>, d: string)
    ensures Fanout(tx, dests + [d]) == Fanout(tx, dests) + [ReplTask(tx, d)]
  {
  }

  /** Node `n0` is index 0. */
  lemma IndexOfN0()
    ensures AsInt("n0", "n0") == Some(0)
  {
    assert "n0"[1..] == "0";
    assert DigitsValue("0") == 0 by {
      assert "0"[..0] == "";
    }
  }

  /** Writing 10 to key 1 on an empty store of node 0 of two. */
  lemma FirstWrite()
    ensures RunOps(map[], [W(1, 10)], Some(0), 2) == TxnRun(map[1 := VV(10, [1, 0])], [W(1, 10)], {1}, false)
  {
    RunFromStep(TxnRun(map[], [], {}, false), [W(1, 10)], Some(0), 2);
    assert Bump(Zeros(2), 0) == [1, 0];
    assert [W(1, 10)][1..] == [];
  }

  /** Then writing 20 to key 1. */
  lemma SecondWrite()
    ensures RunOps(map[1 := VV(10, [1, 0])], [W(1, 20)], Some(0), 2) == TxnRun(map[1 := VV(20, [2, 0])], [W(1, 20)], {1}, false)
  {
    RunFromStep(TxnRun(map[1 := VV(10, [1, 0])], [], {}, false), [W(1, 20)], Some(0), 2);
    assert Bump([1, 0], 0) == [2, 0];
    assert [W(1, 20)][1..] == [];
  }

  /** A one-entry dictionary restricted to its key. */
  lemma RestrictSingle(k: int, o: VersionedValue)
    ensures Restrict(map[k := o], {k}) == map[k := o]
  {
    assert Restrict(map[k := o], {k}).Keys == {k};
  }

  /** The contents of a one-entry dictionary. */
  lemma ContentsSingle(k: int, o: VersionedValue)
    ensures Contents(map[k := o]) == map[k := VV(o.value, o.version[..])]
  {
    assert Contents(map[k := o])[k] == VV(o.value, o.version[..]);
  }

  /** Node n0 of two after a transaction writing 10 to key 1. */
  method WrittenOnce() returns (node: KVStoreNode, stored: VersionedValue)
    ensures fresh(node) && fresh(node.rt) && fresh(node.Repr) && node.Valid()
    ensures node.rt.nodeId == "n0" && node.rt.nodeIds == ["n0", "n1"]
    ensures node.ds == map[1 := stored] && node.Model == map[1 := VV(10, [1, 0])]
    ensures node.queue == [ReplTask(map[1 := stored], "n1")]
  {
    node := new KVStoreNode();
    var init := Message("c0", "n0", Typed(MsgType.Init).(nodeId := Some("n0"), nodeIds := Some(["n0", "n1"])));
    var _ := node.rt.InitHandler(init);
    IndexOfN0();
    assert Others(["n0", "n1"], "n0") == ["n1"] by {
      assert ["n0", "n1"][1..] == ["n1"] && ["n1"][1..] == [];
    }
    FirstWrite();
    var first := node.HandleTxn(Message("c1", "n0", Typed(MsgType.Txn).(txn := Some([W(1, 10)]))));
    stored := node.ds[1];
    assert node.ds == map[1 := stored] by {
      assert node.ds.Keys == node.Model.Keys == {1};
    }
    RestrictSingle(1, stored);
  }

  /**
   * Two transactions on node n0 of two, writing 10 and then 20 to key 1:
   * the task queued by the first now carries 10 with the vector [2, 0] of
   * the second write, the same vector the store holds with 20.
   */
  method RewriteShowsInQueuedTask() returns (node: KVStoreNode)
    ensures |node.queue| == 2
    ensures SyncRequest(node.queue[0]).body.syncVal == Some(SyncTask(map[1 := VV(10, [2, 0])], "n1"))
    ensures node.Model == map[1 := VV(20, [2, 0])]
  {
    var stored;
    node, stored := WrittenOnce();
    var task := node.queue[0];
    IndexOfN0();
    SecondWrite();
    var second := node.HandleTxn(Message("c1", "n0", Typed(MsgType.Txn).(txn := Some([W(1, 20)]))));
    assert node.queue[0] == task;
    assert stored.version == node.ds[1].version && stored.value == 10;
    ContentsSingle(1, stored);
    assert stored.version[..] == [2, 0];
  }
}
