/**
 The record a bump reads and the record it later updates: the build at Sign, the recording at
 the tap on Broadcast, before anything is sent. Between the two the store goes on changing.
 */
module BumpRecords {
  import opened Options
  import opened Ledger
  import opened BumpSources

  datatype TxOp =
    | Bump(ref: Txid, tx: BuiltTx)
    | Settle(i: nat)
    | Record(rec: TxRecord)

  /** A bump is recorded, a scan finds a pending record in a block, a new spend is recorded. */
  function AfterTxOp(v: StoreView, op: TxOp): StoreView
    requires op.Bump? ==> op.tx.outputs != []
  {
    match op
    case Bump(ref, tx) => BumpedTx(v, ref, tx)
    case Settle(i) =>
      if i < |v.txs| && v.txs[i].status.Pending? then
        v.(txs := v.txs[i := v.txs[i].(status := Confirmed, rawHex := None)])
      else v
    case Record(rec) => v.(txs := v.txs + [rec])
  }

  ghost predicate Unknown(txs: seq<TxRecord>, t: Txid) {
    forall r | r in txs :: t !in r.txids
  }

  ghost predicate DisjointChains(txs: seq<TxRecord>) {
    forall i, j, t | 0 <= i < |txs| && 0 <= j < |txs| && t in txs[i].txids && t in txs[j].txids :: i == j
  }

  /** Every new transaction has a txid no record knows. */
  ghost predicate ValidTxOp(v: StoreView, op: TxOp) {
    match op
    case Bump(_, tx) => tx.outputs != [] && Unknown(v.txs, tx.txid)
    case Settle(_) => true
    case Record(rec) => |rec.txids| == 1 && Unknown(v.txs, rec.txids[0])
  }

  ghost predicate ValidTxOps(v: StoreView, ops: seq<TxOp>)
    decreases |ops|
  {
    ops == [] || (ValidTxOp(v, ops[0]) && ValidTxOps(AfterTxOp(v, ops[0]), ops[1..]))
  }

  ghost function AfterTxOps(v: StoreView, ops: seq<TxOp>): StoreView
    requires ValidTxOps(v, ops)
    decreases |ops|
  {
    if ops == [] then v else AfterTxOps(AfterTxOp(v, ops[0]), ops[1..])
  }

  /** The replacement a step adds to record `i`'s chain. */
  function AddedBy(txs: seq<TxRecord>, op: TxOp, i: nat): seq<Txid> {
    if op.Bump? && i < |txs| && FindTx(txs, op.ref) == i then [op.tx.txid] else []
  }

  ghost function AddedByAll(v: StoreView, ops: seq<TxOp>, i: nat): seq<Txid>
    requires ValidTxOps(v, ops)
    decreases |ops|
  {
    if ops == [] then [] else AddedBy(v.txs, ops[0], i) + AddedByAll(AfterTxOp(v, ops[0]), ops[1..], i)
  }

  /** What the builders read of a record, and the chain so far, with `added` behind it. */
  ghost predicate SameSpend(a: TxRecord, b: TxRecord, added: seq<Txid>) {
    && a.inputs == b.inputs && a.destSpkHex == b.destSpkHex && Owners(a) == Owners(b)
    && a.kind == b.kind && a.dest == b.dest && a.mixedInputs == b.mixedInputs
    && b.txids == a.txids + added
  }

  lemma StepKeepsRecord(v: StoreView, op: TxOp, i: nat)
    requires ValidTxOp(v, op) && i < |v.txs|
    ensures var w := AfterTxOp(v, op);
            && |v.txs| <= |w.txs| && SameSpend(v.txs[i], w.txs[i], AddedBy(v.txs, op, i))
            && w.coins == v.coins && w.notes == v.notes
  {
  }

  lemma StepKeepsDisjoint(v: StoreView, op: TxOp)
    requires ValidTxOp(v, op) && DisjointChains(v.txs)
    ensures DisjointChains(AfterTxOp(v, op).txs)
  {
    var w := AfterTxOp(v, op);
    assert forall i | 0 <= i < |v.txs| :: v.txs[i] in v.txs;
    forall i, j, t | 0 <= i < |w.txs| && 0 <= j < |w.txs| && t in w.txs[i].txids && t in w.txs[j].txids
      ensures i == j
    {
      if i < |v.txs| {
        StepKeepsRecord(v, op, i);
      }
      if j < |v.txs| {
        StepKeepsRecord(v, op, j);
      }
    }
  }

  lemma {:induction false} RunKeepsRecord(v: StoreView, ops: seq<TxOp>, i: nat)
    requires ValidTxOps(v, ops) && DisjointChains(v.txs) && i < |v.txs|
    ensures var w := AfterTxOps(v, ops);
            && DisjointChains(w.txs) && w.coins == v.coins && w.notes == v.notes
            && i < |w.txs| && SameSpend(v.txs[i], w.txs[i], AddedByAll(v, ops, i))
    decreases |ops|
  {
    if ops == [] {
      assert v.txs[i].txids + [] == v.txs[i].txids;
    } else {
      StepKeepsRecord(v, ops[0], i);
      StepKeepsDisjoint(v, ops[0]);
      var w := AfterTxOp(v, ops[0]);
      RunKeepsRecord(w, ops[1..], i);
      SameSpendChains(v.txs[i], w.txs[i], AfterTxOps(v, ops).txs[i],
                      AddedBy(v.txs, ops[0], i), AddedByAll(w, ops[1..], i));
    }
  }

  lemma SameSpendChains(a: TxRecord, b: TxRecord, c: TxRecord, first: seq<Txid>, second: seq<Txid>)
    requires SameSpend(a, b, first) && SameSpend(b, c, second)
    ensures SameSpend(a, c, first + second)
  {
    assert a.txids + first + second == a.txids + (first + second);
  }

  lemma KnownIsFound(txs: seq<TxRecord>, i: nat, ref: Txid)
    requires DisjointChains(txs) && i < |txs| && ref in txs[i].txids
    ensures FindTx(txs, ref) == i
    ensures txs[i].status.Pending? ==> FindPendingTx(txs, ref) == i
  {
    var j, k := FindTx(txs, ref), FindPendingTx(txs, ref);
  }

  /** The build looks for a pending record that knows the txid, the recording for the first one
      that does, whatever its status. On one store the two meet exactly when no settled record
      before knows the txid. */
  lemma LookupsAgreeIff(txs: seq<TxRecord>, ref: Txid)
    requires FindPendingTx(txs, ref) < |txs|
    ensures FindTx(txs, ref) == FindPendingTx(txs, ref) <==>
            forall j | 0 <= j < FindPendingTx(txs, ref) && !txs[j].status.Pending? :: ref !in txs[j].txids
    ensures DisjointChains(txs) ==> FindTx(txs, ref) == FindPendingTx(txs, ref)
  {
    var i, k := FindTx(txs, ref), FindPendingTx(txs, ref);
    if i < k {
      assert ref in txs[i].txids;
    }
  }

  /**
   The build reads record `i` by any txid of its chain. Whatever is bumped, settled or recorded
   between Sign and the tap on Broadcast, recording under the same txid updates that record and
   no other: the record still spends the same inputs, of the same owners, to the same script, and
   its chain is the chain that was read, every replacement made in between, then this one.
   */
  lemma BumpUpdatesWhatWasRead(v: StoreView, ops: seq<TxOp>, ref: Txid, tx: BuiltTx)
    requires DisjointChains(v.txs) && ValidTxOps(v, ops) && FindPendingTx(v.txs, ref) < |v.txs|
    requires tx.outputs != [] && Unknown(AfterTxOps(v, ops).txs, tx.txid)
    ensures var i := FindPendingTx(v.txs, ref);
            var before := AfterTxOps(v, ops);
            var end := BumpedTx(before, ref, tx);
            && i < |end.txs| && SameSpend(v.txs[i], end.txs[i], AddedByAll(v, ops, i) + [tx.txid])
            && end.txs[i].fee == tx.fee && end.txs[i].vsize == tx.vsize && end.txs[i].value == tx.outputs[0]
            && end.txs[i].rawHex == Some(tx.rawHex)
            && |end.txs| == |before.txs| && (forall j | 0 <= j < |end.txs| && j != i :: end.txs[j] == before.txs[j])
            && DisjointChains(end.txs) && end.coins == v.coins && end.notes == v.notes
  {
    var i := FindPendingTx(v.txs, ref);
    var before := AfterTxOps(v, ops);
    RunKeepsRecord(v, ops, i);
    assert ref in before.txs[i].txids;
    KnownIsFound(before.txs, i, ref);
    StepKeepsDisjoint(before, Bump(ref, tx));
    assert (v.txs[i].txids + AddedByAll(v, ops, i)) + [tx.txid] == v.txs[i].txids + (AddedByAll(v, ops, i) + [tx.txid]);
  }

  /** However often a record is bumped, every build from it signs the same coins to the same
      script: any two of its transactions conflict. */
  lemma EveryBumpSpendsTheSame(v: StoreView, ops: seq<TxOp>, ref: Txid)
    requires DisjointChains(v.txs) && ValidTxOps(v, ops) && BumpInputs(v.txs, ref).Ok?
    ensures var i := FindPendingTx(v.txs, ref);
            var w := AfterTxOps(v, ops);
            && i < |w.txs|
            && forall t | t in w.txs[i].txids ::
                 BumpInputs(w.txs, t) == if w.txs[i].status.Pending? then BumpInputs(v.txs, ref) else Err(NotPending)
  {
    var i := FindPendingTx(v.txs, ref);
    var w := AfterTxOps(v, ops);
    RunKeepsRecord(v, ops, i);
    forall t | t in w.txs[i].txids
      ensures BumpInputs(w.txs, t) == if w.txs[i].status.Pending? then BumpInputs(v.txs, ref) else Err(NotPending)
    {
      KnownIsFound(w.txs, i, t);
    }
  }
}
